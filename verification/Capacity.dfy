/** How many updates of a round are aggregated: all of them, on every run, exactly when no more
    shards may report than the aggregator has room for. */
module Capacity {
  import opened Words
  import opened TopK
  import opened Sparse
  import opened Frame
  import opened FragmentPool
  import opened Reassembly
  import opened Round
  import opened HeraldSteps
  import opened HeraldRuns
  import Aggregator

  /** From the sixty-fifth update of a round on, none is aggregated, now or when the round closes. */
  lemma LateLost(cfg: Config, st: State, i: Input)
    requires Inv(cfg, st) && InputOk(i) && Completing(st, i) && st.sched.complete as int >= Aggregator.MAX_SHARDS
    ensures Concat(RoundIn(cfg, st, i)) + Iterated(cfg, st, i).added == st.added
  {
    LateUpdateIgnored(cfg, st, i);
    ReceiveKeeps(cfg, st, i);
    LateCounted(st.sched);
    hide PoolOk, NoneComplete, Received, Concat, Completing;
    assert Sized(cfg, st);
    var m := Midway(cfg, st, i);
    ConcatSmall(m.added);
  }

  lemma LateCounted(s: Schedule)
    requires 0 < s.complete as int < 0xFF
    ensures Counted(s).complete as int == s.complete as int + 1
  {
  }

  // ----- sixty-five updates within one round

  function Repeated(i: Input, k: nat): (inputs: seq<Input>)
    ensures |inputs| == k
  {
    seq(k, _ => i)
  }

  /** The frame of a whole update, while the window that opened at `start` is still open. */
  predicate Reports(cfg: Config, i: Input, start: int, shard: u16, entries: seq<Entry>) {
    && InputOk(i) && i.checkAt < start + cfg.policy.window
    && IsUpdate(entries) && FragmentCount(|entries|) == 1
    && IsUpdateFrame(i.raw) && IsFragment(Decoded(i.raw).value, shard, entries)
  }

  /** k updates have been reported in the first round, and the pool can take the next one. */
  ghost predicate Reported(cfg: Config, st: State, start: int, shard: u16, entries: seq<Entry>, k: nat)
    requires IsUpdate(entries)
  {
    && Inv(cfg, st) && st.sched.complete as int == k && st.sched.closeAt == start + cfg.policy.window
    && Gathering(st.pool.slots, shard, entries, {}) && FirstEmpty(st.pool.slots) < POOL_SIZE
  }

  lemma Finishing(cfg: Config, st: State, i: Input, start: int, shard: u16, entries: seq<Entry>, k: nat)
    requires Reports(cfg, i, start, shard, entries) && Reported(cfg, st, start, shard, entries, k)
    ensures Completing(st, i) && |UpdateIn(cfg, st, i)| == 1
  {
    OneFragmentUpdate(cfg, st, i, shard, entries);
    hide Inv, Gathering, Decoded, Finished, IsFragment, Iterated, Dense;
  }

  lemma ReportStep(cfg: Config, st: State, i: Input, start: int, shard: u16, entries: seq<Entry>, k: nat)
    requires Reports(cfg, i, start, shard, entries) && Reported(cfg, st, start, shard, entries, k)
    requires k < Aggregator.MAX_SHARDS < cfg.policy.maxShards as int
    ensures RoundIn(cfg, st, i) == [] && |UpdateIn(cfg, st, i)| == 1
    ensures Reported(cfg, Iterated(cfg, st, i), start, shard, entries, k + 1)
  {
    OneFragmentUpdate(cfg, st, i, shard, entries);
    Finishing(cfg, st, i, start, shard, entries, k);
    StillOpen(cfg, st, i, start, shard, entries, k);
    hide Inv, Gathering, Decoded, Finished, IsFragment, Iterated, Midway, FirstEmpty, Completing, InputOk, Counted,
         UpdateIn, RoundIn, Reports, Dense;
  }

  lemma StillOpen(cfg: Config, st: State, i: Input, start: int, shard: u16, entries: seq<Entry>, k: nat)
    requires Reports(cfg, i, start, shard, entries) && Reported(cfg, st, start, shard, entries, k)
    requires k < Aggregator.MAX_SHARDS < cfg.policy.maxShards as int && Completing(st, i)
    ensures RoundIn(cfg, st, i) == []
    ensures var s := Iterated(cfg, st, i).sched;
            s.complete as int == k + 1 && s.closeAt == start + cfg.policy.window
  {
    ScheduleKept(cfg, st, i);
    hide Inv, Gathering, FirstEmpty, Completing, InputOk, Iterated, RoundIn, IsFragment, Decoded, FragmentCount;
  }

  lemma MidwayCounts(cfg: Config, st: State, i: Input)
    requires Inv(cfg, st) && InputOk(i) && Completing(st, i)
    ensures PoolOk(st.pool.slots) && Sized(cfg, st) && Midway(cfg, st, i).sched == Counted(st.sched)
  {
    hide PoolOk, NoneComplete, Completing, Decoded, HandedOut, Swept, InputOk, OverdueCount, Dense, Gathers, InStep;
    LateUpdateIgnored(cfg, st, i);
  }

  /** The schedule moves by one report and the round stays open. */
  lemma ScheduleKept(cfg: Config, st: State, i: Input)
    requires Inv(cfg, st) && InputOk(i) && Completing(st, i)
    requires i.checkAt < st.sched.closeAt && st.sched.complete as int + 1 < cfg.policy.maxShards as int
    ensures RoundIn(cfg, st, i) == [] && Iterated(cfg, st, i).sched == Counted(st.sched)
    ensures Counted(st.sched).complete as int == st.sched.complete as int + 1
  {
    MidwayCounts(cfg, st, i);
    StaysOpen(st.sched, cfg.policy, i.checkAt);
    hide PoolOk, Sized, Midway, Inv, InputOk, Completing, ShouldClose, Counted, NoneComplete;
  }

  lemma StaysOpen(s: Schedule, p: Policy, now: int)
    requires now < s.closeAt && s.complete as int + 1 < p.maxShards as int
    ensures !ShouldClose(Counted(s), p, now) && Counted(s).complete as int == s.complete as int + 1
  {
  }

  lemma OneMoreInput(cfg: Config, st: State, i: Input, k: nat)
    requires Inv(cfg, st) && InputOk(i)
    ensures InputsOk(Repeated(i, k)) && InputsOk(Repeated(i, k + 1))
    ensures var front, run := Repeated(i, k), Repeated(i, k + 1);
            var before := Loop(cfg, st, front);
            Loop(cfg, st, run) == Iterated(cfg, before, i) &&
            Rounds(cfg, st, run) == Rounds(cfg, st, front) + RoundIn(cfg, before, i) &&
            Updates(cfg, st, run) == Updates(cfg, st, front) + UpdateIn(cfg, before, i)
  {
    hide Inv, RoundIn, UpdateIn, Iterated, InputOk;
    assert Repeated(i, k + 1)[..k] == Repeated(i, k);
  }

  /** What k reports lead to. */
  ghost predicate AllWait(cfg: Config, st: State, i: Input, start: int, shard: u16, entries: seq<Entry>, k: nat)
    requires Inv(cfg, st) && InputsOk(Repeated(i, k)) && IsUpdate(entries)
  {
    && Reported(cfg, Loop(cfg, st, Repeated(i, k)), start, shard, entries, k)
    && Rounds(cfg, st, Repeated(i, k)) == [] && |Updates(cfg, st, Repeated(i, k))| == k
  }

  lemma NoneWaits(cfg: Config, st: State, i: Input, start: int, shard: u16, entries: seq<Entry>)
    requires Reports(cfg, i, start, shard, entries) && Reported(cfg, st, start, shard, entries, 0)
    ensures Inv(cfg, st) && AllWait(cfg, st, i, start, shard, entries, 0)
  {
    hide Inv, Gathering, FirstEmpty, InputOk;
  }

  lemma OneMoreWaits(cfg: Config, st: State, i: Input, start: int, shard: u16, entries: seq<Entry>, k: nat)
    requires Inv(cfg, st) && InputsOk(Repeated(i, k)) && Reports(cfg, i, start, shard, entries)
    requires AllWait(cfg, st, i, start, shard, entries, k) && k < Aggregator.MAX_SHARDS < cfg.policy.maxShards as int
    ensures InputsOk(Repeated(i, k + 1)) && AllWait(cfg, st, i, start, shard, entries, k + 1)
  {
    assert InputOk(i);
    OneMoreInput(cfg, st, i, k);
    hide Inv, Reports, RoundIn, UpdateIn, Iterated, InputOk, Reported, Loop, Rounds, Updates, InputsOk, IsUpdate;
    ReportStep(cfg, Loop(cfg, st, Repeated(i, k)), i, start, shard, entries, k);
  }

  lemma {:induction false} ManyReports(cfg: Config, st: State, i: Input, start: int, shard: u16, entries: seq<Entry>,
                                       k: nat)
    requires Reports(cfg, i, start, shard, entries) && Inv(cfg, st) && Reported(cfg, st, start, shard, entries, 0)
    requires k <= Aggregator.MAX_SHARDS < cfg.policy.maxShards as int
    ensures InputsOk(Repeated(i, k)) && AllWait(cfg, st, i, start, shard, entries, k)
    decreases k
  {
    hide Inv, Reports, InputOk, Reported, AllWait, IsUpdate;
    if k == 0 {
      NoneWaits(cfg, st, i, start, shard, entries);
    } else {
      ManyReports(cfg, st, i, start, shard, entries, k - 1);
      OneMoreWaits(cfg, st, i, start, shard, entries, k - 1);
    }
  }

  /** With a larger max_shards: one frame received sixty-five times in a round is finished
      sixty-five times and aggregated sixty-four times. */
  lemma OneTooMany(cfg: Config, st: State, i: Input, start: int, shard: u16, entries: seq<Entry>)
    requires Reports(cfg, i, start, shard, entries) && Reported(cfg, st, start, shard, entries, 0)
    requires cfg.policy.maxShards > 64
    ensures var run := Repeated(i, 65);
            InputsOk(run) && |Updates(cfg, st, run)| == 65 &&
            |Concat(Rounds(cfg, st, run)) + Loop(cfg, st, run).added| == 64
  {
    var k := Aggregator.MAX_SHARDS;
    assert InputOk(i) && Inv(cfg, st);
    OneMoreInput(cfg, st, i, k);
    hide Reports, RoundIn, UpdateIn, Iterated, Gathering, FirstEmpty, InputOk, InputsOk, Concat, Completing, Inv,
         Reported, Loop, Rounds, Updates, Repeated;
    ManyReports(cfg, st, i, start, shard, entries, k);
    var before := Loop(cfg, st, Repeated(i, k));
    Finishing(cfg, before, i, start, shard, entries, k);
    FullHouse(cfg, before, start, shard, entries);
    LateLost(cfg, before, i);
    assert [] + RoundIn(cfg, before, i) == RoundIn(cfg, before, i);
  }

  lemma FullHouse(cfg: Config, st: State, start: int, shard: u16, entries: seq<Entry>)
    requires IsUpdate(entries) && Reported(cfg, st, start, shard, entries, Aggregator.MAX_SHARDS)
    ensures |st.added| == Aggregator.MAX_SHARDS == st.sched.complete as int && Inv(cfg, st)
  {
    hide PoolOk, NoneComplete, Gathering, FirstEmpty;
  }

  // ----- exactly when

  lemma NoneReported(cfg: Config, model: seq<real>, timeout: u32, now: int, shard: u16, entries: seq<Entry>)
    requires |model| == cfg.n && IsUpdate(entries)
    ensures Reported(cfg, Start(cfg, model, timeout, now), now, shard, entries, 0)
  {
    StartEmpty(cfg, model, timeout, now);
    hide Inv, Gathering, FirstEmpty, PoolOk;
    NoSlots(Start(cfg, model, timeout, now).pool.slots, shard, entries);
  }

  /** A single-entry update, received while the first window is open. */
  lemma FirstReport(cfg: Config, now: int) returns (i: Input)
    ensures IsUpdate([Entry(0, 0)]) && Reports(cfg, i, now, 0, [Entry(0, 0)])
    ensures i.now == i.sweepAt == i.checkAt == i.reopenAt == now + cfg.policy.window - 1
  {
    hide Decoded, Wire, IsFragment, FragmentCount, IsUpdate;
    i := OnlyFrame(0, 0, Entry(0, 0));
    var t := now + cfg.policy.window - 1;
    i := i.(now := t, sweepAt := t, checkAt := t, reopenAt := t);
  }

  /** Every finished update of every run is aggregated, or waits for its round to close, if and
      only if max_shards is at most 64; the clock may be set back. */
  lemma EachUpdateExactly(cfg: Config, model: seq<real>, timeout: u32, now: int)
    requires |model| == cfg.n
    ensures Inv(cfg, Start(cfg, model, timeout, now))
    ensures (forall inputs | InputsOk(inputs) :: AllAggregated(cfg, Start(cfg, model, timeout, now), inputs)) <==>
            PolicyOk(cfg)
  {
    StartEmpty(cfg, model, timeout, now);
    var st := Start(cfg, model, timeout, now);
    hide Inv, Start, Reported, Reports, Loop, Rounds, Concat, InputsOk;
    if PolicyOk(cfg) {
      forall inputs | InputsOk(inputs)
        ensures AllAggregated(cfg, st, inputs)
      {
        EachUpdateOnce(cfg, st, inputs);
      }
    } else {
      var i := FirstReport(cfg, now);
      NoneReported(cfg, model, timeout, now, 0, [Entry(0, 0)]);
      OneTooMany(cfg, st, i, now, 0, [Entry(0, 0)]);
      assert !AllAggregated(cfg, st, Repeated(i, 65));
    }
  }

  // ----- on a clock that is never set back

  /** The readings of one iteration, in the order in which they are taken. */
  predicate InTime(now: int, i: Input) {
    now <= i.now <= i.sweepAt <= i.checkAt <= i.reopenAt
  }

  function Latest(now: int, inputs: seq<Input>): int {
    if inputs == [] then now else inputs[|inputs| - 1].reopenAt
  }

  /** No reading of the clock is before an earlier one. */
  predicate Ordered(now: int, inputs: seq<Input>) {
    inputs == [] ||
    (Ordered(now, inputs[..|inputs| - 1]) && InTime(Latest(now, inputs[..|inputs| - 1]), inputs[|inputs| - 1]))
  }

  lemma {:induction false} RepeatedOrdered(now: int, i: Input, k: nat)
    requires InTime(now, i) && i.reopenAt == i.now
    ensures Ordered(now, Repeated(i, k))
    decreases k
  {
    if k > 0 {
      RepeatedOrdered(now, i, k - 1);
      assert Repeated(i, k)[..k - 1] == Repeated(i, k - 1);
    }
  }

  /** Without a window the round closes in every iteration. */
  lemma ClosesAtOnce(cfg: Config, st: State, i: Input, now: int)
    requires Inv(cfg, st) && InputOk(i) && InTime(now, i) && cfg.policy.window == 0 && st.sched.closeAt <= now
    ensures Iterated(cfg, st, i).added == [] && Iterated(cfg, st, i).sched.closeAt <= i.reopenAt
  {
    ReceivedWindow(cfg, st, i);
    hide PoolOk, NoneComplete, Received, Swept, OverdueCount, InputOk;
  }

  lemma ReceivedWindow(cfg: Config, st: State, i: Input)
    requires Inv(cfg, st) && InputOk(i)
    ensures var m := Received(cfg, st, i).sched; m.closeAt == st.sched.closeAt && m.phase == st.sched.phase
  {
    hide PoolOk, NoneComplete, Decoded, Gathers, Answer, HandedOut, Dense, InBounds, Fits;
  }

  lemma {:induction false} NoWindow(cfg: Config, st: State, now: int, inputs: seq<Input>)
    requires Inv(cfg, st) && InputsOk(inputs) && Ordered(now, inputs)
    requires cfg.policy.window == 0 && st.added == [] && st.sched.closeAt <= now
    ensures AllAggregated(cfg, st, inputs)
    ensures Loop(cfg, st, inputs).added == [] && Loop(cfg, st, inputs).sched.closeAt <= Latest(now, inputs)
    decreases |inputs|
  {
    hide Inv, InputOk, Iterated, AllAggregated, InTime;
    if inputs == [] {
      NothingYet(cfg, st);
    } else {
      var front := inputs[..|inputs| - 1];
      NoWindow(cfg, st, now, front);
      ClosesAtOnce(cfg, Loop(cfg, st, front), inputs[|inputs| - 1], Latest(now, front));
      OneMoreAggregated(cfg, st, inputs);
    }
  }

  lemma StartWindow(cfg: Config, model: seq<real>, timeout: u32, now: int)
    ensures var st := Start(cfg, model, timeout, now); st.added == [] && st.sched.closeAt == now + cfg.policy.window
  {
  }

  /** On such a clock every finished update of every run is aggregated, or waits for its round to
      close, if and only if max_shards is at most 64 or the window is empty. */
  lemma EachUpdateInTime(cfg: Config, model: seq<real>, timeout: u32, now: int)
    requires |model| == cfg.n
    ensures Inv(cfg, Start(cfg, model, timeout, now))
    ensures (forall inputs | InputsOk(inputs) && Ordered(now, inputs) ::
               AllAggregated(cfg, Start(cfg, model, timeout, now), inputs)) <==>
            PolicyOk(cfg) || cfg.policy.window == 0
  {
    StartEmpty(cfg, model, timeout, now);
    StartWindow(cfg, model, timeout, now);
    var st := Start(cfg, model, timeout, now);
    hide Inv, Start, Reported, Reports, Loop, Rounds, Concat, InputsOk, Ordered;
    if PolicyOk(cfg) || cfg.policy.window == 0 {
      forall inputs | InputsOk(inputs) && Ordered(now, inputs)
        ensures AllAggregated(cfg, st, inputs)
      {
        if PolicyOk(cfg) {
          EachUpdateOnce(cfg, st, inputs);
        } else {
          NoWindow(cfg, st, now, inputs);
        }
      }
    } else {
      var i := FirstReport(cfg, now);
      NoneReported(cfg, model, timeout, now, 0, [Entry(0, 0)]);
      OneTooMany(cfg, st, i, now, 0, [Entry(0, 0)]);
      RepeatedOrdered(now, i, Aggregator.MAX_SHARDS + 1);
      assert !AllAggregated(cfg, st, Repeated(i, 65));
    }
  }

  // ----- a round with one update

  /** One update while the window is open: with min_shards above 1 and max_shards not, the code
      closes the round against its comment; with them the other way round, it waits against
      the overview. */
  lemma MinShardsDeparts(cfg: Config, model: seq<real>, timeout: u32, now: int) returns (i: Input)
    requires |model| == cfg.n
    ensures Inv(cfg, Start(cfg, model, timeout, now)) && InputOk(i)
    ensures var m := Midway(cfg, Start(cfg, model, timeout, now), i).sched;
            m.complete == 1 && m.phase == Collecting &&
            (cfg.policy.maxShards <= 1 < cfg.policy.minShards ==>
               ShouldClose(m, cfg.policy, i.checkAt) && !ClosesByComment(m, cfg.policy, i.checkAt)) &&
            (cfg.policy.minShards <= 1 < cfg.policy.maxShards ==>
               !ShouldClose(m, cfg.policy, i.checkAt) && ClosesByOverview(m, cfg.policy, i.checkAt))
  {
    var st, entries := Start(cfg, model, timeout, now), [Entry(0, 0)];
    i := FirstReport(cfg, now);
    NoneReported(cfg, model, timeout, now, 0, entries);
    Finishing(cfg, st, i, now, 0, entries, 0);
    MidwayCounts(cfg, st, i);
    MinShardsIgnored(Counted(st.sched), cfg.policy, i.checkAt);
    hide PoolOk, Sized, Midway, Completing, Gathering, FirstEmpty, NoneComplete, Decoded, IsFragment, FragmentCount,
         Swept;
  }
}
