/** The Herald itself: the objects fl_herald_run works on, and its loop. */
module Herald {
  import opened Words
  import opened RealSums
  import opened LittleEndian
  import opened TopK
  import opened Sparse
  import opened Frame
  import Wired = Frame
  import opened Transmission
  import opened FragmentPool
  import opened Reassembly
  import opened Aggregation
  import opened Aggregator
  import opened Round
  import opened HeraldSteps
  import opened HeraldRuns

  const FRAGMENT_TIMEOUT: u32 := 300

  // ----- what the Herald sends

  function AckFrame(round: u8): bytes {
    Wire(Encoded(ACK, HERALD_ID, round, 0, 1, []).value)
  }

  /** What an iteration acknowledges. */
  function AckIn(st: State, i: Input): seq<bytes>
    requires PoolOk(st.pool.slots) && InputOk(i)
  {
    if Completing(st, i) then [AckFrame(st.currentRound)] else []
  }

  function BeaconPayload(cfg: Config, round: u8): (p: bytes)
    requires cfg.n < TWO16 && |cfg.policy.rate| == 4
    ensures |p| == 17
  {
    var p := cfg.policy;
    [round] + Store32(p.window) + [cfg.n % 0x100, cfg.n / 0x100, p.minShards, p.epochs] + p.rate + [0, 0, 0, 0]
  }

  function BeaconFrame(cfg: Config, round: u8): bytes
    requires cfg.n < TWO16 && |cfg.policy.rate| == 4
  {
    Wire(Encoded(BEACON, HERALD_ID, round, 0, 1, BeaconPayload(cfg, round)).value)
  }

  function RoundCloseFrame(cfg: Config, round: u8, aggregated: u8): bytes {
    Wire(Encoded(ROUND_CLOSE, HERALD_ID, round, 0, 1, [round, aggregated] + Store32(cfg.policy.delay)).value)
  }

  function DeltaFrames(round: u8, entries: seq<Entry>): seq<bytes>
    requires |entries| <= MAX_ENTRIES
  {
    Frames(DELTA, HERALD_ID, round, entries, FragmentCount(|entries|))
  }

  function Limit(topk: nat, n: nat): nat {
    Min(Min(topk, MAX_ENTRIES), n)
  }

  /** One tenth of the parameters, but at least one. */
  function DeltaTopK(n: nat): nat {
    if n / 10 != 0 then n / 10 else 1
  }

  /** What goes out at the end of a round; `chosen` are the entries of the delta. */
  ghost predicate ClosingSends(cfg: Config, m: State, chosen: seq<Entry>, sent: seq<bytes>)
    requires Sized(cfg, m) && cfg.n < TWO16 && |cfg.policy.rate| == 4
  {
    && |chosen| <= MAX_ENTRIES
    && (m.sched.complete > 0 ==>
          IsEncoding(Aggregate(cfg.strategy, m.added, cfg.n), Limit(DeltaTopK(cfg.n), cfg.n), chosen))
    && sent == (if m.sched.complete > 0 then DeltaFrames(m.currentRound, chosen) else [])
               + [RoundCloseFrame(cfg, m.roundId, m.sched.complete), BeaconFrame(cfg, Closed(m.sched).roundId)]
  }

  /** fl_herald_send_delta: the entries it selects, the packets it attempts to write whether or
      not earlier ones failed, and whether all writes succeeded. */
  method SendDelta(delta: seq<real>, topk: nat, round: u8, writes: seq<bool>)
    returns (entries: seq<Entry>, sent: seq<bytes>, ok: bool)
    requires |delta| <= MAX_PARAMS
    ensures |entries| <= MAX_ENTRIES && IsEncoding(delta, Limit(topk, |delta|), entries)
    ensures sent == DeltaFrames(round, entries)
    ensures ok <==> forall f :: 0 <= f < |sent| ==> WriteOk(writes, f)
  {
    entries := TopK.Encode(delta, topk, null);
    assert Effective(delta, [], |delta|) == delta;
    EncodingSize(delta, Limit(topk, |delta|), entries);
    hide FragmentFrame, Wire, FragmentCount, IsEncoding, Frames;
    sent, ok := SendFragments(DELTA, HERALD_ID, round, entries, writes);
  }

  class Herald {
    const cfg: Config
    const pool: FragmentPool
    const aggregator: Aggregator
    const scheduler: Scheduler
    const model: array<real>
    const dense: array<real>
    const delta: array<real>
    var currentRound: u8
    var roundId: u8

    ghost function Value(): State
      reads this, pool, pool.slots, aggregator, scheduler, model
    {
      State(pool.Value(), scheduler.Value(), aggregator.added, model[..], currentRound, roundId)
    }

    /** The parts fit together and do not overlap. */
    ghost predicate Whole()
      reads this, pool, pool.slots, aggregator, aggregator.accumulator, aggregator.rows
    {
      && pool.Valid() && aggregator.Valid()
      && aggregator.strategy == cfg.strategy && scheduler.policy == cfg.policy
      && aggregator.accumulator.Length == model.Length == dense.Length == delta.Length == cfg.n <= MAX_PARAMS
      && |cfg.policy.rate| == 4
      && model != dense && model != delta && dense != delta
      && aggregator.accumulator != model && aggregator.accumulator != dense && aggregator.accumulator != delta
    }

    ghost predicate Valid()
      reads this, pool, pool.slots, aggregator, aggregator.accumulator, aggregator.rows, scheduler, model
    {
      Whole() && Inv(cfg, Value())
    }

    /** fl_herald_init_fd and the first fl_round_open. */
    constructor (cfg: Config, model: array<real>, now: int)
      requires model.Length == cfg.n <= MAX_PARAMS && |cfg.policy.rate| == 4
      ensures Valid() && this.cfg == cfg && this.model == model
      ensures Value() == Start(cfg, model[..], FRAGMENT_TIMEOUT, now)
      ensures fresh(pool) && fresh(pool.slots) && fresh(aggregator) && fresh(aggregator.accumulator) &&
              fresh(aggregator.rows)
      ensures fresh(scheduler) && fresh(dense) && fresh(delta)
    {
      this.cfg, this.model := cfg, model;
      pool := new FragmentPool(FRAGMENT_TIMEOUT);
      aggregator := new Aggregator(cfg.strategy, cfg.n);
      var s := new Scheduler(cfg.policy);
      var id := s.Open(now);
      scheduler := s;
      dense, delta := new real[cfg.n], new real[cfg.n];
      currentRound, roundId := 0, id;
      new;
      StartInv(cfg, model[..], FRAGMENT_TIMEOUT, now);
    }

    /** The receive path of one iteration. */
    method Receive(i: Input) returns (sent: seq<bytes>)
      requires Valid() && InputOk(i)
      modifies pool, pool.slots, aggregator, aggregator.accumulator, aggregator.rows, scheduler, dense
      ensures Whole()
      ensures Value() == Received(cfg, old(Value()), i)
      ensures sent == AckIn(old(Value()), i)
    {
      sent := [];
      var decoded := Wired.Decode(i.raw);
      if decoded.Ok? && decoded.value.kind == UPDATE {
        FitsInBounds(pool.slots[..], decoded.value);
        assert pool.Valid();
        hide Inv, InBounds, Fits, PoolOk, FrameReceived, Decoded, Answer;
        sent := TakeFrame(decoded.value, i.now);
      }
    }

    /** An UPDATE frame: the acknowledgement goes out before the update is decoded. */
    method TakeFrame(f: Frame, now: int) returns (sent: seq<bytes>)
      requires Whole() && InBounds(pool.slots[..], f)
      modifies pool, pool.slots, aggregator, aggregator.accumulator, aggregator.rows, scheduler, dense
      ensures Whole()
      ensures Value() == FrameReceived(cfg, old(Value()), f, now)
      ensures sent == if Answer(old(pool.slots[..]), f) == 1 then [AckFrame(currentRound)] else []
    {
      sent := [];
      if Answer(pool.slots[..], f) == 1 {
        AnswerFinds(pool.slots[..], f, now);
      }
      hide InBounds, PoolOk, Ingested, Answer, Released, AckFrame;
      var complete := pool.Ingest(f, now);
      if complete == 1 {
        var ack := Acknowledge();
        sent := [ack];
        TakeUpdate(f.shardId);
      }
    }

    method Acknowledge() returns (sent: bytes)
      ensures sent == AckFrame(currentRound)
    {
      var ack := Wired.Encode(ACK, HERALD_ID, currentRound, 0, 1, []);
      sent := Wire(ack.value);
    }

    /** Decoding and adding a complete update, and releasing its slot. */
    method TakeUpdate(id: u16)
      requires Whole()
      modifies pool.slots, aggregator, aggregator.accumulator, aggregator.rows, scheduler, dense
      ensures Whole()
      ensures var i := Find(old(pool.slots[..]), Complete, id);
              if i == POOL_SIZE then Value() == old(Value())
              else
                pool.Value() == old(pool.Value()).(slots := Released(old(pool.slots[..]), id)) &&
                aggregator.added == Accepted(old(aggregator.added), Dense(old(pool.slots[..])[i].entries, cfg.n)) &&
                scheduler.Value() == Counted(old(scheduler.Value()))
    {
      var found, entries := pool.GetComplete(id);
      if found {
        Sparse.Decode(entries, dense, cfg.n, false);
        ghost var d := Dense(entries, cfg.n);
        assert dense[..] == d && d[..Min(|d|, cfg.n)] == d;
        assert aggregator.shardCount < MAX_SHARDS ==> aggregator.Completed(d) == d;
        aggregator.Add(dense[..]);
        pool.Release(id);
        var enough := scheduler.ShardComplete();
      }
    }

    /** The aggregate of the round, added to the model and sent to the shards. */
    method Apply(writes: seq<bool>) returns (chosen: seq<Entry>, sent: seq<bytes>)
      requires Whole()
      modifies model, delta
      ensures model[..] == Sums(old(model[..]), Aggregate(cfg.strategy, aggregator.added, cfg.n))
      ensures |chosen| <= MAX_ENTRIES
      ensures IsEncoding(Aggregate(cfg.strategy, aggregator.added, cfg.n), Limit(DeltaTopK(cfg.n), cfg.n), chosen)
      ensures sent == DeltaFrames(currentRound, chosen)
    {
      aggregator.Finalize(delta);
      assert delta[..] == Aggregate(cfg.strategy, aggregator.added, cfg.n);
      AddDelta();
      hide Aggregate, IsEncoding, DeltaFrames;
      var ok;
      chosen, sent, ok := SendDelta(delta[..], DeltaTopK(cfg.n), currentRound, writes);
    }

    method Announce() returns (sent: bytes)
      ensures sent == RoundCloseFrame(cfg, roundId, scheduler.complete)
    {
      var payload := [roundId, scheduler.complete] + Store32(cfg.policy.delay);
      var frame := Wired.Encode(ROUND_CLOSE, HERALD_ID, roundId, 0, 1, payload);
      sent := Wire(frame.value);
    }

    /** fl_herald_send_beacon. */
    method Beacon() returns (sent: bytes)
      requires cfg.n < TWO16 && |cfg.policy.rate| == 4
      ensures sent == BeaconFrame(cfg, roundId)
    {
      var p := cfg.policy;
      var payload := [roundId] + Store32(p.window) + [cfg.n % 0x100, cfg.n / 0x100, p.minShards, p.epochs] + p.rate +
          [0, 0, 0, 0];
      var frame := Wired.Encode(BEACON, HERALD_ID, roundId, 0, 1, payload);
      sent := Wire(frame.value);
    }

    /** The end of a round. */
    method Close(i: Input) returns (chosen: seq<Entry>, sent: seq<bytes>)
      requires Whole() && Sized(cfg, Value())
      modifies this, aggregator, aggregator.accumulator, scheduler, model, delta
      ensures Whole()
      ensures Value() == ClosedRound(cfg, old(Value()), i)
      ensures ClosingSends(cfg, old(Value()), chosen, sent)
    {
      hide Aggregate, IsEncoding, DeltaFrames, RoundCloseFrame, BeaconFrame, PoolOk;
      chosen, sent := [], [];
      scheduler.Close();
      if scheduler.complete > 0 {
        chosen, sent := Apply(i.writes);
      }
      var close := Announce();
      aggregator.Reset();
      roundId := scheduler.Open(i.reopenAt);
      currentRound := roundId;
      var beacon := Beacon();
      sent := sent + [close, beacon];
    }

    method AddDelta()
      requires model.Length == delta.Length && model != delta
      modifies model
      ensures model[..] == Sums(old(model[..]), delta[..])
    {
      for k := 0 to model.Length
        invariant forall j :: 0 <= j < k ==> model[j] == old(model[j]) + delta[j]
        invariant forall j :: k <= j < model.Length ==> model[j] == old(model[j])
      {
        model[k] := model[k] + delta[k];
      }
    }

    /** One iteration of fl_herald_run, and everything it sends. */
    method Iterate(i: Input) returns (chosen: seq<Entry>, sent: seq<bytes>)
      requires Valid() && InputOk(i)
      modifies this, pool, pool.slots, aggregator, aggregator.accumulator, aggregator.rows, scheduler, model, dense,
               delta
      ensures Valid()
      ensures Value() == Iterated(cfg, old(Value()), i)
      ensures var m := Midway(cfg, old(Value()), i);
              var ack := AckIn(old(Value()), i);
              if ShouldClose(m.sched, cfg.policy, i.checkAt)
              then exists rest :: sent == ack + rest && ClosingSends(cfg, m, chosen, rest)
              else sent == ack
    {
      ghost var st := Value();
      ReceiveKeeps(cfg, st, i);
      InvKept(cfg, st, i);
      chosen := [];
      sent := Receive(i);
      var expired := pool.Expire(i.sweepAt);
      assert Value() == Midway(cfg, st, i);
      var close := scheduler.ShouldCloseNow(i.checkAt);
      if close {
        var rest;
        chosen, rest := Close(i);
        sent := sent + rest;
      }
    }

    /** fl_herald_run on a list of inputs. */
    method Run(inputs: seq<Input>)
      requires Valid() && InputsOk(inputs)
      modifies this, pool, pool.slots, aggregator, aggregator.accumulator, aggregator.rows, scheduler, model, dense,
               delta
      ensures Valid()
      ensures Value() == Loop(cfg, old(Value()), inputs)
    {
      ghost var st := Value();
      for k := 0 to |inputs|
        invariant Valid()
        invariant Value() == Loop(cfg, st, inputs[..k])
      {
        assert inputs[..k + 1][..k] == inputs[..k];
        var chosen, sent := Iterate(inputs[k]);
      }
      assert inputs[..|inputs|] == inputs;
    }
  }
}
