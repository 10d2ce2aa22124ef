/** The Herald's event loop as a transition system: what one iteration does to its state and
    what every iteration keeps. */
module HeraldSteps {
  import opened Words
  import opened RealSums
  import opened Counters
  import opened Sparse
  import opened Frame
  import opened FragmentPool
  import opened Reassembly
  import opened Aggregation
  import opened Round
  import Aggregator

  /** n is the number of model parameters. */
  datatype Config = Config(strategy: Strategy, policy: Policy, n: nat)

  datatype State = State(pool: Pool, sched: Schedule, added: seq<seq<real>>, model: seq<real>, currentRound: u8,
                         roundId: u8)

  /** What one iteration reads: at most one packet, the clock each time it is asked, and which
      writes of delta fragments succeed. */
  datatype Input = Input(raw: bytes, now: int, sweepAt: int, checkAt: int, reopenAt: int, writes: seq<bool>)

  predicate IsUpdateFrame(raw: bytes) {
    Decoded(raw).Ok? && Decoded(raw).value.kind == UPDATE
  }

  predicate InputOk(i: Input) {
    |i.raw| <= FRAME_MAX && (IsUpdateFrame(i.raw) ==> Fits(Decoded(i.raw).value))
  }

  predicate InputsOk(inputs: seq<Input>) {
    forall k :: 0 <= k < |inputs| ==> InputOk(inputs[k])
  }

  // ----- one iteration

  function Accepted(added: seq<seq<real>>, update: seq<real>): seq<seq<real>> {
    if |added| == Aggregator.MAX_SHARDS then added else added + [update]
  }

  /** Whether this iteration completes an update, and the shard and dense vector of that update. */
  predicate Completing(st: State, i: Input)
    requires PoolOk(st.pool.slots) && InputOk(i)
  {
    IsUpdateFrame(i.raw) && Answer(st.pool.slots, Decoded(i.raw).value) == 1
  }

  ghost function Finished(cfg: Config, st: State, i: Input): (u: seq<real>)
    requires PoolOk(st.pool.slots) && InputOk(i) && Completing(st, i)
    ensures |u| == cfg.n
  {
    Dense(HandedOut(st.pool.slots, Decoded(i.raw).value, i.now), cfg.n)
  }

  /** What a fragment does to the pool in the hands of the Herald. */
  function Gathers(pool: Pool, f: Frame, now: int): Pool
    requires PoolOk(pool.slots) && InBounds(pool.slots, f)
  {
    pool.(slots := Handled(pool.slots, f, now),
          totalComplete := if Answer(pool.slots, f) == 1 then Next(pool.totalComplete) else pool.totalComplete)
  }

  ghost function FrameReceived(cfg: Config, st: State, f: Frame, now: int): State
    requires PoolOk(st.pool.slots) && InBounds(st.pool.slots, f)
  {
    var pool := Gathers(st.pool, f, now);
    if Answer(st.pool.slots, f) != 1 then st.(pool := pool)
    else st.(pool := pool, added := Accepted(st.added, Dense(HandedOut(st.pool.slots, f, now), cfg.n)),
             sched := Counted(st.sched))
  }

  ghost function Received(cfg: Config, st: State, i: Input): State
    requires PoolOk(st.pool.slots) && InputOk(i)
  {
    if !IsUpdateFrame(i.raw) then st
    else
      FitsInBounds(st.pool.slots, Decoded(i.raw).value);
      FrameReceived(cfg, st, Decoded(i.raw).value, i.now)
  }

  function Expired(st: State, i: Input): State {
    st.(pool := st.pool.(slots := Swept(st.pool.slots, st.pool.timeout, i.sweepAt),
                         totalDropped := Plus(st.pool.totalDropped,
                                              OverdueCount(st.pool.slots, st.pool.timeout, i.sweepAt))))
  }

  predicate Sized(cfg: Config, st: State) {
    |st.model| == cfg.n && forall k :: 0 <= k < |st.added| ==> |st.added[k]| == cfg.n
  }

  /** The end of a round: a round without updates leaves the model alone. */
  ghost function ClosedRound(cfg: Config, st: State, i: Input): State
    requires Sized(cfg, st)
  {
    var sched := Reopened(Closed(st.sched), cfg.policy, i.reopenAt);
    st.(sched := sched, roundId := sched.roundId, currentRound := sched.roundId, added := [],
        model := if st.sched.complete > 0 then Sums(st.model, Aggregate(cfg.strategy, st.added, cfg.n)) else st.model)
  }

  /** The state at the round management of an iteration. */
  ghost function Midway(cfg: Config, st: State, i: Input): (m: State)
    requires PoolOk(st.pool.slots) && InputOk(i) && Sized(cfg, st)
    ensures Sized(cfg, m)
  {
    Expired(Received(cfg, st, i), i)
  }

  ghost function Iterated(cfg: Config, st: State, i: Input): State
    requires PoolOk(st.pool.slots) && InputOk(i) && Sized(cfg, st)
  {
    var m := Midway(cfg, st, i);
    if ShouldClose(m.sched, cfg.policy, i.checkAt) then ClosedRound(cfg, m, i) else m
  }

  ghost function Start(cfg: Config, model: seq<real>, timeout: u32, now: int): State {
    State(Pool(seq(POOL_SIZE, _ => Blank()), timeout, 0, 0),
          Reopened(Schedule(Idle, 0, 0, 0, 0, 0, 0), cfg.policy, now), [], model, 0, 0)
  }

  // ----- what every run keeps

  predicate NoneComplete(slots: seq<Slot>) {
    forall k :: 0 <= k < |slots| ==> slots[k].state != Complete
  }

  /** The invariant at the head of the loop. */
  predicate Inv(cfg: Config, st: State) {
    && PoolOk(st.pool.slots) && NoneComplete(st.pool.slots)
    && Sized(cfg, st)
    && st.sched.phase == Collecting
    && st.currentRound == st.roundId == st.sched.roundId && InStep(st.sched)
    && |st.added| == Min(st.sched.complete, Aggregator.MAX_SHARDS)
    && (st.sched.complete < cfg.policy.maxShards || st.sched.complete == cfg.policy.maxShards == 0)
  }

  lemma StartInv(cfg: Config, model: seq<real>, timeout: u32, now: int)
    requires |model| == cfg.n
    ensures Inv(cfg, Start(cfg, model, timeout, now))
  {
    CountNone(NoBits());
  }

  // ----- when a round ends

  predicate Windowed(cfg: Config, st: State) {
    st.sched.closeAt == st.sched.openAt + cfg.policy.window
  }

  lemma WindowStarts(cfg: Config, model: seq<real>, timeout: u32, now: int)
    ensures Windowed(cfg, Start(cfg, model, timeout, now)) && Start(cfg, model, timeout, now).sched.openAt == now
  {
  }

  lemma MidwaySchedule(cfg: Config, st: State, i: Input)
    requires PoolOk(st.pool.slots) && InputOk(i) && Sized(cfg, st)
    ensures var m := Midway(cfg, st, i);
            m.sched == (if Completing(st, i) then Counted(st.sched) else st.sched) &&
            m.currentRound == st.currentRound && m.roundId == st.roundId
  {
    hide PoolOk, Answer, Swept, Gathers, HandedOut, OverdueCount, Counted, Sized;
  }

  /** The iteration moves on to the next round exactly when the window that opened with the
      round has passed, or the update it completes is the one that max_shards asks for (with
      max_shards 0 every iteration does); the new window opens then. */
  lemma RoundEndsExactly(cfg: Config, st: State, i: Input)
    requires Inv(cfg, st) && InputOk(i) && Windowed(cfg, st)
    ensures var t := Iterated(cfg, st, i);
            var reported := st.sched.complete as int + if Completing(st, i) then 1 else 0;
            Windowed(cfg, t) &&
            (t.currentRound != st.currentRound <==>
               i.checkAt - st.sched.openAt >= cfg.policy.window || reported >= cfg.policy.maxShards as int) &&
            (if t.currentRound != st.currentRound
             then t.sched.openAt == i.reopenAt && t.sched.complete == 0
             else t.sched.openAt == st.sched.openAt && t.sched.complete as int == reported)
  {
    MidwaySchedule(cfg, st, i);
    EndOfRound(st.sched, cfg.policy, Completing(st, i), i.checkAt, i.reopenAt);
    hide PoolOk, NoneComplete, Sized, Midway, Completing, InputOk, Aggregate, Counted, Closed, Reopened, ShouldClose;
  }

  /** A slot is complete only between the fragment that completes it and its release. */
  lemma CompleteIsReleased(slots: seq<Slot>, f: Frame, now: int)
    requires PoolOk(slots) && NoneComplete(slots) && InBounds(slots, f)
    ensures Answer(slots, f) != 1 ==> NoneComplete(Ingested(slots, f, now))
    ensures NoneComplete(Released(Ingested(slots, f, now), f.shardId))
  {
    if Place(slots, f) < |slots| {
      TakenOk(slots, f, now);
      hide PoolOk, SlotOk, Taken, Before, Completes;
    }
  }

  lemma GatherKeeps(pool: Pool, f: Frame, now: int)
    requires PoolOk(pool.slots) && NoneComplete(pool.slots) && InBounds(pool.slots, f)
    ensures PoolOk(Gathers(pool, f, now).slots) && NoneComplete(Gathers(pool, f, now).slots)
  {
    HandledKeeps(pool.slots, f, now);
    CompleteIsReleased(pool.slots, f, now);
    hide PoolOk, NoneComplete, Ingested, Released, Answer;
  }

  lemma ReceiveKeeps(cfg: Config, st: State, i: Input)
    requires Inv(cfg, st) && InputOk(i)
    ensures var m := Received(cfg, st, i);
            PoolOk(m.pool.slots) && NoneComplete(m.pool.slots) && Sized(cfg, m) &&
            |m.added| == Min(m.sched.complete, Aggregator.MAX_SHARDS)
  {
    hide PoolOk, NoneComplete, Decoded, Gathers, Answer, HandedOut, Dense, InBounds, Fits;
    if IsUpdateFrame(i.raw) {
      FitsInBounds(st.pool.slots, Decoded(i.raw).value);
      GatherKeeps(st.pool, Decoded(i.raw).value, i.now);
    }
  }

  /** Every iteration keeps the invariant. */
  lemma InvKept(cfg: Config, st: State, i: Input)
    requires Inv(cfg, st) && InputOk(i)
    ensures Inv(cfg, Iterated(cfg, st, i))
  {
    ReceiveKeeps(cfg, st, i);
    var m := Received(cfg, st, i);
    SweepKeeps(m.pool.slots, m.pool.timeout, i.sweepAt);
    CloseInStep(m.sched);
  }
}
