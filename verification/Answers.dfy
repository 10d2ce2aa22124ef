/** The Herald's acknowledgements, which name no shard, and the shards that hear them. */
module Answers {
  import opened Words
  import opened Counters
  import opened TopK
  import opened Sparse
  import opened Frame
  import opened FragmentPool
  import opened Reassembly
  import opened HeraldSteps
  import opened HeraldRuns
  import opened Transmission
  import Herald
  import ShardSteps
  import ShardRuns

  lemma AckDecodes(round: u8)
    ensures Decoded(Herald.AckFrame(round)).Ok? && Decoded(Herald.AckFrame(round)).value.kind == ACK
  {
    DecodeWire(ACK, HERALD_ID, round, 0, 1, []);
    hide Decoded, Wire;
  }

  /** An update of one shard is no other shard's. */
  lemma NotOthers(cfg: Config, st: State, i: Input, shard: u16, other: u16)
    requires Inv(cfg, st) && InputOk(i) && Completing(st, i) && Decoded(i.raw).value.shardId == other != shard
    ensures From(UpdateIn(cfg, st, i), shard) == []
  {
    hide Inv, Decoded, Finished, InputOk, Completing;
    FromOne(UpdateIn(cfg, st, i)[0], shard);
  }

  /** A fresh Herald finishes the only fragment of an update and acknowledges it. */
  lemma AcknowledgesOther(cfg: Config, model: seq<real>, shard: u16, other: u16) returns (st: State, i: Input)
    requires |model| == cfg.n && other != shard
    ensures st == Start(cfg, model, Herald.FRAGMENT_TIMEOUT, 0) && Inv(cfg, st) && InputsOk([i])
    ensures PoolOk(st.pool.slots) && InputOk(i) && Completing(st, i)
    ensures |From(Updates(cfg, st, [i]), other)| == 1 && From(Updates(cfg, st, [i]), shard) == []
  {
    st := Start(cfg, model, Herald.FRAGMENT_TIMEOUT, 0);
    var e := Entry(0, 0);
    i := OnlyFrame(other, 0, e);
    StartEmpty(cfg, model, Herald.FRAGMENT_TIMEOUT, 0);
    hide Inv, Decoded, Wire, FragmentFrame, Start, Gathering, FirstEmpty, IsUpdate, FragmentCount, UpdateIn, Finished,
         Iterated, Dense;
    NoSlots(st.pool.slots, other, [e]);
    OneFragmentUpdate(cfg, st, i, other, [e]);
    Finishes(cfg, st, i, other);
    NotOthers(cfg, st, i, shard, other);
    OneInput(cfg, st, i);
  }

  lemma Finishes(cfg: Config, st: State, i: Input, shard: u16)
    requires Inv(cfg, st) && InputOk(i) && |From(UpdateIn(cfg, st, i), shard)| == 1
    ensures PoolOk(st.pool.slots) && Completing(st, i)
  {
    hide PoolOk, Decoded, Finished;
  }

  /** A shard's completed rounds say nothing about its updates at the Herald: the Herald finishes
      an update of another shard and acknowledges it; a shard that waits without having sent
      anything hears this and counts a completed round. */
  lemma AnswerForAnother(s: ShardSteps.Shard, cfg: Config, model: seq<real>, other: u16)
    returns (st: State, i: Input, ack: ShardSteps.Packet, run: seq<ShardSteps.Step>)
    requires ShardRuns.FreshShard(s) && |model| == cfg.n && other != s.id
    ensures st == Start(cfg, model, Herald.FRAGMENT_TIMEOUT, 0) && Inv(cfg, st) && InputsOk([i])
    ensures PoolOk(st.pool.slots) && InputOk(i) && Completing(st, i) && ack.raw == Herald.AckFrame(st.currentRound)
    ensures |From(Updates(cfg, st, [i]), other)| == 1 && From(Updates(cfg, st, [i]), s.id) == []
    ensures ShardSteps.IsRun(s, run) && ShardRuns.Quiet(run) && run != [] && run[|run| - 1].event == ShardSteps.Rx(ack)
    ensures ShardSteps.Last(s, run).completed == 1
  {
    hide *;
    st, i := AcknowledgesOther(cfg, model, s.id, other);
    ack := ShardSteps.Packet(Herald.AckFrame(st.currentRound), 0);
    AckDecodes(st.currentRound);
    run := ShardRuns.SilentRun(s, ack);
  }

  // ----- completed rounds and finished updates

  /** The acknowledgements the Herald sends in a run, one for each update it finishes. */
  ghost function AcksSent(cfg: Config, st: State, inputs: seq<Input>): (acks: seq<bytes>)
    requires Inv(cfg, st) && InputsOk(inputs)
    decreases |inputs|
  {
    if inputs == [] then []
    else
      var front := inputs[..|inputs| - 1];
      AcksSent(cfg, st, front) + Herald.AckIn(Loop(cfg, st, front), inputs[|inputs| - 1])
  }

  lemma AckPerUpdate(cfg: Config, st: State, i: Input)
    requires Inv(cfg, st) && InputOk(i)
    ensures PoolOk(st.pool.slots) && |Herald.AckIn(st, i)| == |UpdateIn(cfg, st, i)|
    ensures forall k :: 0 <= k < |Herald.AckIn(st, i)| ==> IsAck(Herald.AckIn(st, i)[k])
  {
    AckDecodes(st.currentRound);
    hide PoolOk, NoneComplete, Decoded, Finished, Completing, Herald.AckFrame, InputOk;
  }

  predicate IsAck(raw: bytes) {
    Decoded(raw).Ok? && Decoded(raw).value.kind == ACK
  }

  lemma {:induction false} AcksPerUpdate(cfg: Config, st: State, inputs: seq<Input>)
    requires Inv(cfg, st) && InputsOk(inputs)
    ensures |AcksSent(cfg, st, inputs)| == |Updates(cfg, st, inputs)|
    ensures forall k :: 0 <= k < |AcksSent(cfg, st, inputs)| ==> IsAck(AcksSent(cfg, st, inputs)[k])
    decreases |inputs|
  {
    hide Inv, InputOk, Iterated, UpdateIn, Herald.AckIn, IsAck;
    if inputs != [] {
      var front := inputs[..|inputs| - 1];
      AcksPerUpdate(cfg, st, front);
      AckPerUpdate(cfg, Loop(cfg, st, front), inputs[|inputs| - 1]);
    }
  }

  /** What the radio brings of what was sent: each packet at most once, and in order. */
  predicate Arrives(got: seq<bytes>, sent: seq<bytes>)
    decreases |sent|
  {
    || got == []
    || (sent != [] && Arrives(got, sent[..|sent| - 1]))
    || (sent != [] && got[|got| - 1] == sent[|sent| - 1] && Arrives(got[..|got| - 1], sent[..|sent| - 1]))
  }

  lemma {:induction false} NoMoreArrives(got: seq<bytes>, sent: seq<bytes>)
    requires Arrives(got, sent)
    ensures |got| <= |sent|
    decreases |sent|
  {
    if got != [] {
      if Arrives(got, sent[..|sent| - 1]) {
        NoMoreArrives(got, sent[..|sent| - 1]);
      } else {
        NoMoreArrives(got[..|got| - 1], sent[..|sent| - 1]);
      }
    }
  }

  lemma {:induction false} AllArrives(sent: seq<bytes>)
    ensures Arrives(sent, sent)
    decreases |sent|
  {
    if sent != [] {
      AllArrives(sent[..|sent| - 1]);
    }
  }

  /** All that the shard hears of acknowledgements comes from the Herald. */
  ghost predicate Hears(s: ShardSteps.Shard, run: seq<ShardSteps.Step>, sent: seq<bytes>) {
    ShardSteps.IsRun(s, run) && Arrives(ShardRuns.HeardAcks(s, run), sent)
  }

  /** No shard completes more rounds than the Herald finishes updates, of all shards together. */
  lemma CompletedAtMost(s: ShardSteps.Shard, run: seq<ShardSteps.Step>, cfg: Config, st: State, inputs: seq<Input>)
    requires Inv(cfg, st) && InputsOk(inputs) && Hears(s, run, AcksSent(cfg, st, inputs))
    ensures ShardRuns.Acknowledged(s, run) <= |Updates(cfg, st, inputs)|
    ensures ShardSteps.Last(s, run).completed == Plus(s.completed, ShardRuns.Acknowledged(s, run))
  {
    hide Inv, InputsOk, Arrives, ShardSteps.IsRun;
    AcksPerUpdate(cfg, st, inputs);
    NoMoreArrives(ShardRuns.HeardAcks(s, run), AcksSent(cfg, st, inputs));
    ShardRuns.OneAckEach(s, run);
    ShardRuns.PrivacyAccounted(s, run);
  }

  /** A shard that has nothing to send completes a round with every acknowledgement. */
  lemma {:induction false} EveryAnswer(s: ShardSteps.Shard, acks: seq<bytes>) returns (run: seq<ShardSteps.Step>)
    requires ShardSteps.ShardOk(s) && forall k :: 0 <= k < |acks| ==> IsAck(acks[k])
    ensures ShardSteps.IsRun(s, run) && ShardRuns.Quiet(run)
    ensures ShardRuns.HeardAcks(s, run) == acks && ShardRuns.Acknowledged(s, run) == |acks|
    decreases |acks|
  {
    hide ShardSteps.ShardOk, ShardSteps.Takes, Decoded;
    if acks == [] {
      run := [];
    } else {
      var front := EveryAnswer(s, acks[..|acks| - 1]);
      var ack := ShardSteps.Packet(acks[|acks| - 1], 0);
      assert IsAck(ack.raw);
      run := ShardRuns.SilentRound(s, front, ack);
    }
  }

  // ----- whose updates

  predicate AllFrom(us: seq<Update>, shard: u16) {
    forall k :: 0 <= k < |us| ==> us[k].shard == shard
  }

  lemma {:induction false} FromCount(us: seq<Update>, shard: u16)
    ensures |From(us, shard)| <= |us|
    ensures |From(us, shard)| == |us| <==> AllFrom(us, shard)
    decreases |us|
  {
    if us != [] {
      FromCount(us[..|us| - 1], shard);
    }
  }

  /** Whatever the shard does and hears of the Herald's answers, it completes no more rounds than
      the Herald finishes updates for it, if and only if the Herald finishes updates for no other
      shard. */
  lemma CompletedAgainstFinished(s: ShardSteps.Shard, cfg: Config, st: State, inputs: seq<Input>)
    requires ShardSteps.ShardOk(s) && Inv(cfg, st) && InputsOk(inputs)
    ensures var us := Updates(cfg, st, inputs);
            (forall run | Hears(s, run, AcksSent(cfg, st, inputs)) ::
               ShardRuns.Acknowledged(s, run) <= |From(us, s.id)|) <==>
            AllFrom(us, s.id)
  {
    var us, acks := Updates(cfg, st, inputs), AcksSent(cfg, st, inputs);
    hide ShardSteps.ShardOk, ShardSteps.IsRun, Inv, InputsOk, Updates, AcksSent, From, AllFrom, Arrives, IsAck;
    FromCount(us, s.id);
    AcksPerUpdate(cfg, st, inputs);
    if AllFrom(us, s.id) {
      forall run | Hears(s, run, acks)
        ensures ShardRuns.Acknowledged(s, run) <= |From(us, s.id)|
      {
        CompletedAtMost(s, run, cfg, st, inputs);
      }
    } else {
      var run := EveryAnswer(s, acks);
      AllArrives(acks);
      assert Hears(s, run, acks);
    }
  }
}
