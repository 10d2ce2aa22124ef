/** What the Herald broadcasts, byte by byte, and what a shard makes of it. */
module Broadcasts {
  import opened Words
  import opened LittleEndian
  import opened Sparse
  import opened Frame
  import Crc
  import opened HeraldSteps
  import opened Transmission
  import opened Round
  import TopK
  import Herald
  import ShardSteps

  predicate Beaconing(cfg: Config) {
    cfg.n < TWO16 && |cfg.policy.rate| == 4
  }

  /** The first eight bytes of a frame of one fragment from the Herald. */
  function HeraldHeader(kind: u8, round: u8): bytes {
    [0x4C, 0x46, kind, 0xFF, 0xFF, round, 0, 1]
  }

  lemma Magic()
    ensures Low(MAGIC) == 0x4C && High(MAGIC) == 0x46 && Low(HERALD_ID) == High(HERALD_ID) == 0xFF
  {
  }

  lemma OnAir(kind: u8, round: u8, payload: bytes)
    requires |payload| <= PAYLOAD_MAX
    ensures var raw := Wire(Encoded(kind, HERALD_ID, round, 0, 1, payload).value);
            raw[..8] == HeraldHeader(kind, round) && raw[10..] == payload && |raw| == 10 + |payload| <= 224 &&
            Decoded(raw).Ok? && Decoded(raw).value.kind == kind && Decoded(raw).value.payload == payload
  {
    DecodeWire(kind, HERALD_ID, round, 0, 1, payload);
    Magic();
    hide Decoded, Crc.Checksum, Low, High;
  }

  lemma BeaconFields(cfg: Config, round: u8)
    requires Beaconing(cfg)
    ensures var p := Herald.BeaconPayload(cfg, round);
            p[0] == round && LE(p[1..5]) == cfg.policy.window && LE(p[5..7]) == cfg.n &&
            p[7] == cfg.policy.minShards && p[8] == cfg.policy.epochs && p[9..13] == cfg.policy.rate &&
            LE(p[13..17]) == 0
  {
    var p := Herald.BeaconPayload(cfg, round);
    LETwo(p[5], p[6]);
    LEZeros(4);
    hide LE, Store32;
    assert p[1..5] == Store32(cfg.policy.window) && p[5..7] == [p[5], p[6]] && p[13..17] == seq(4, _ => 0);
  }

  /** Where the beacon carries the round and the parameters; the noise it names is always 0. */
  lemma BeaconLayout(cfg: Config, round: u8)
    requires Beaconing(cfg)
    ensures var raw := Herald.BeaconFrame(cfg, round);
            |raw| == 27 && raw[..8] == HeraldHeader(0x01, round) && Decoded(raw).Ok?
    ensures var p := Herald.BeaconFrame(cfg, round)[10..];
            p[0] == round && LE(p[1..5]) == cfg.policy.window && LE(p[5..7]) == cfg.n &&
            p[7] == cfg.policy.minShards && p[8] == cfg.policy.epochs && p[9..13] == cfg.policy.rate &&
            LE(p[13..17]) == 0
  {
    OnAir(BEACON, round, Herald.BeaconPayload(cfg, round));
    BeaconFields(cfg, round);
    hide LE, Herald.BeaconPayload, Decoded, Wire, Encoded;
  }

  lemma RoundCloseLayout(cfg: Config, round: u8, aggregated: u8)
    ensures var raw := Herald.RoundCloseFrame(cfg, round, aggregated);
            var p := raw[10..];
            |raw| == 16 && raw[..8] == HeraldHeader(0x05, round) && Decoded(raw).Ok? &&
            p[0] == round && p[1] == aggregated && LE(p[2..6]) == cfg.policy.delay
  {
    var p := [round, aggregated] + Store32(cfg.policy.delay);
    OnAir(ROUND_CLOSE, round, p);
    hide LE, Store32, Decoded, Wire, Encoded;
    assert p[2..6] == Store32(cfg.policy.delay);
  }

  /** A fragment of an update or of a delta: which kind, from whom, in which round, which one of
      how many; then its entries, three bytes each. */
  lemma FragmentLayout(update: bool, sender: u16, round: u8, entries: seq<TopK.Entry>, f: nat)
    requires |entries| <= TopK.MAX_ENTRIES && f < FragmentCount(|entries|)
    ensures var raw := Wire(FragmentFrame(if update then UPDATE else DELTA, sender, round, entries, f));
            raw[0] == 0x4C && raw[1] == 0x46 && raw[2] == (if update then 0x03 else 0x02) &&
            LE(raw[3..5]) == sender && raw[5] == round && raw[6] == f && raw[7] == FragmentCount(|entries|) &&
            raw[10..] == Serialized(Chunk(entries, f))
  {
    var g := FragmentFrame(if update then UPDATE else DELTA, sender, round, entries, f);
    FragmentOnAir(if update then UPDATE else DELTA, sender, round, entries, f);
    FragmentsCover(entries);
    WireLayout(g);
    Magic();
    hide LE, Crc.Checksum, FragmentCount, Low, High, Serialized, Chunk, Decoded;
  }

  // ----- what a shard hears

  /** Whatever it was doing, a shard that hears the beacon goes on to train for its round, and
      one that hears the end of a round is idle; neither changes anything else. */
  lemma BroadcastHeard(s: ShardSteps.Shard, cfg: Config, round: u8, aggregated: u8, stale: u8)
    requires Beaconing(cfg) && |s.delta| <= TopK.MAX_ENTRIES
    ensures ShardSteps.Heard(s, ShardSteps.Packet(Herald.BeaconFrame(cfg, round), stale)) ==
              s.(round := round, state := ShardSteps.Training)
    ensures ShardSteps.Heard(s, ShardSteps.Packet(Herald.RoundCloseFrame(cfg, round, aggregated), stale)) ==
              s.(state := ShardSteps.Idle)
  {
    OnAir(BEACON, round, Herald.BeaconPayload(cfg, round));
    OnAir(ROUND_CLOSE, round, [round, aggregated] + Store32(cfg.policy.delay));
    hide LE, Store32, Decoded, Wire, Encoded;
  }

  /** After the frames that close a round, a shard that hears the last of them trains for the
      round the Herald collects next. */
  lemma NextRound(cfg: Config, m: State, chosen: seq<TopK.Entry>, sent: seq<bytes>, i: Input, s: ShardSteps.Shard,
                  stale: u8)
    requires Sized(cfg, m) && Beaconing(cfg) && Herald.ClosingSends(cfg, m, chosen, sent)
    requires |s.delta| <= TopK.MAX_ENTRIES
    ensures sent != []
    ensures var t := ShardSteps.Heard(s, ShardSteps.Packet(sent[|sent| - 1], stale));
            t.state == ShardSteps.Training && t.round == ClosedRound(cfg, m, i).currentRound
  {
    BroadcastHeard(s, cfg, Closed(m.sched).roundId, 0, stale);
    hide Herald.BeaconFrame, Herald.RoundCloseFrame, ShardSteps.Heard, Herald.DeltaFrames;
  }

  /** Both sides select a tenth of the parameters, rounded down, but at least one. */
  lemma ATenth(n: nat)
    ensures Herald.DeltaTopK(n) == ShardSteps.TopKOf(n)
    ensures var k := Herald.DeltaTopK(n); if n < 10 then k == 1 else 10 * k <= n < 10 * (k + 1)
  {
  }
}
