/** Runs of the Herald: every opened slot is accounted for, every finished update is
    aggregated once, the model is the sum of its rounds, and an update that a shard sends
    reaches the aggregation as it was. */
module HeraldRuns {
  import opened Words
  import opened Counters
  import opened TopK
  import opened Sparse
  import opened Frame
  import opened FragmentPool
  import opened Completion
  import opened Reassembly
  import opened Transmission
  import opened RealSums
  import opened Aggregation
  import opened Round
  import opened HeraldSteps
  import Aggregator

  ghost function Loop(cfg: Config, st: State, inputs: seq<Input>): (after: State)
    requires Inv(cfg, st) && InputsOk(inputs)
    ensures Inv(cfg, after)
    decreases |inputs|
  {
    if inputs == [] then st
    else
      var before := Loop(cfg, st, inputs[..|inputs| - 1]);
      InvKept(cfg, before, inputs[|inputs| - 1]);
      Iterated(cfg, before, inputs[|inputs| - 1])
  }

  // ----- slots

  predicate OpensSlot(st: State, i: Input) {
    IsUpdateFrame(i.raw) && Opens(st.pool.slots, Decoded(i.raw).value)
  }

  ghost function DroppedIn(cfg: Config, st: State, i: Input): nat
    requires PoolOk(st.pool.slots) && InputOk(i)
  {
    OverdueCount(Received(cfg, st, i).pool.slots, st.pool.timeout, i.sweepAt)
  }

  lemma {:induction false} ReleaseTally(slots: seq<Slot>, id: u16)
    requires forall k :: 0 <= k < |slots| ==> !Is(slots[k], Active, id)
    ensures Tally(Released(slots, id), Active) == Tally(slots, Active)
    decreases |slots|
  {
    if slots != [] {
      var front := slots[..|slots| - 1];
      ReleaseTally(front, id);
      assert Released(slots, id)[..|slots| - 1] == Released(front, id);
    }
  }

  /** Once its update is complete a shard has no active slot. */
  lemma NoneLeft(slots: seq<Slot>, f: Frame, now: int)
    requires PoolOk(slots) && InBounds(slots, f) && Answer(slots, f) == 1
    ensures forall k :: 0 <= k < |slots| ==> !Is(Ingested(slots, f, now)[k], Active, f.shardId)
  {
    TakenOk(slots, f, now);
    hide SlotOk, Taken, Before, Completes;
    var i := Place(slots, f);
    assert forall k :: 0 <= k < |slots| && k != i ==> !Is(slots[k], Active, f.shardId);
  }

  lemma GatherTally(pool: Pool, f: Frame, now: int)
    requires PoolOk(pool.slots) && InBounds(pool.slots, f)
    ensures var after, done := Gathers(pool, f, now), One(Answer(pool.slots, f) == 1);
            Tally(after.slots, Active) + done == Tally(pool.slots, Active) + One(Opens(pool.slots, f)) &&
            after.totalComplete == Plus(pool.totalComplete, done)
  {
    PlusNothing(pool.totalComplete);
    IngestTally(pool.slots, f, now);
    AnswerCompletes(pool.slots, f);
    if Answer(pool.slots, f) == 1 {
      NoneLeft(pool.slots, f, now);
      ReleaseTally(Ingested(pool.slots, f, now), f.shardId);
    }
    hide PoolOk, Ingested, Opens, Completes, Tally, Plus, Released;
  }

  lemma ReceiveTally(cfg: Config, st: State, i: Input)
    requires Inv(cfg, st) && InputOk(i)
    ensures var m, done := Received(cfg, st, i), One(Completing(st, i));
            Tally(m.pool.slots, Active) + done == Tally(st.pool.slots, Active) + One(OpensSlot(st, i))
            && m.pool.totalComplete == Plus(st.pool.totalComplete, done)
            && m.pool.totalDropped == st.pool.totalDropped && m.pool.timeout == st.pool.timeout
  {
    PlusNothing(st.pool.totalComplete);
    hide Decoded, Plus, Opens, Tally, Answer, Finished, NoneComplete, Sized;
    if IsUpdateFrame(i.raw) {
      GatherTally(st.pool, Decoded(i.raw).value, i.now);
    }
  }

  lemma IterationTally(cfg: Config, st: State, i: Input)
    requires Inv(cfg, st) && InputOk(i)
    ensures var after := Iterated(cfg, st, i);
            Tally(after.pool.slots, Active) + One(Completing(st, i)) + DroppedIn(cfg, st, i)
              == Tally(st.pool.slots, Active) + One(OpensSlot(st, i))
            && after.pool.totalComplete == Plus(st.pool.totalComplete, One(Completing(st, i)))
            && after.pool.totalDropped == Plus(st.pool.totalDropped, DroppedIn(cfg, st, i))
  {
    hide Received, Plus, Tally, Completing, OpensSlot, Swept, PoolOk, NoneComplete;
    ReceiveTally(cfg, st, i);
    SweepTally(Received(cfg, st, i).pool.slots, st.pool.timeout, i.sweepAt);
  }

  lemma AnswerCompletes(slots: seq<Slot>, f: Frame)
    requires PoolOk(slots) && InBounds(slots, f)
    ensures Answer(slots, f) == 1 <==> Completes(slots, f)
  {
  }

  datatype Counts = Counts(begun: nat, completed: nat, dropped: nat)

  ghost function Counting(cfg: Config, st: State, inputs: seq<Input>): Counts
    requires Inv(cfg, st) && InputsOk(inputs)
    decreases |inputs|
  {
    if inputs == [] then Counts(0, 0, 0)
    else
      var front, i := inputs[..|inputs| - 1], inputs[|inputs| - 1];
      var c, before := Counting(cfg, st, front), Loop(cfg, st, front);
      Counts(c.begun + One(OpensSlot(before, i)), c.completed + One(Completing(before, i)),
             c.dropped + DroppedIn(cfg, before, i))
  }

  /** Every slot opened since has been completed, has expired, or is still active; the two
      counters of the pool hold the latter numbers modulo 2^32. */
  predicate Balanced(start: Pool, c: Counts, now: Pool) {
    && Tally(start.slots, Active) + c.begun == c.completed + c.dropped + Tally(now.slots, Active)
    && now.totalComplete == Plus(start.totalComplete, c.completed)
    && now.totalDropped == Plus(start.totalDropped, c.dropped)
  }

  lemma BalanceStart(p: Pool)
    ensures Balanced(p, Counts(0, 0, 0), p)
  {
    PlusNothing(p.totalComplete);
    PlusNothing(p.totalDropped);
  }

  lemma BalanceMoves(start: Pool, c: Counts, before: Pool, after: Pool, begun: nat, done: nat, dropped: nat)
    requires Balanced(start, c, before)
    requires Tally(after.slots, Active) + done + dropped == Tally(before.slots, Active) + begun
    requires after.totalComplete == Plus(before.totalComplete, done) &&
             after.totalDropped == Plus(before.totalDropped, dropped)
    ensures Balanced(start, Counts(c.begun + begun, c.completed + done, c.dropped + dropped), after)
  {
    hide Tally;
    PlusPlus(start.totalComplete, c.completed, done);
    PlusPlus(start.totalDropped, c.dropped, dropped);
    hide Plus;
  }

  lemma BalanceKept(start: Pool, c: Counts, cfg: Config, st: State, i: Input)
    requires Inv(cfg, st) && InputOk(i) && Balanced(start, c, st.pool)
    ensures Balanced(start, Counts(c.begun + One(OpensSlot(st, i)), c.completed + One(Completing(st, i)),
                                   c.dropped + DroppedIn(cfg, st, i)),
                     Iterated(cfg, st, i).pool)
  {
    hide Iterated, Plus, Tally, Completing, OpensSlot, DroppedIn, Balanced, NoneComplete;
    IterationTally(cfg, st, i);
    BalanceMoves(start, c, st.pool, Iterated(cfg, st, i).pool, One(OpensSlot(st, i)), One(Completing(st, i)),
                 DroppedIn(cfg, st, i));
  }

  lemma UpdateCounted(cfg: Config, st: State, i: Input)
    requires Inv(cfg, st) && InputOk(i)
    ensures PoolOk(st.pool.slots) && |UpdateIn(cfg, st, i)| == One(Completing(st, i))
  {
  }

  lemma {:induction false} SlotsAccountedFor(cfg: Config, st: State, inputs: seq<Input>)
    requires Inv(cfg, st) && InputsOk(inputs)
    ensures Balanced(st.pool, Counting(cfg, st, inputs), Loop(cfg, st, inputs).pool)
    ensures Counting(cfg, st, inputs).completed == |Updates(cfg, st, inputs)|
    decreases |inputs|
  {
    hide Balanced, Inv, InputOk, Iterated, Completing, OpensSlot, DroppedIn;
    if inputs == [] {
      BalanceStart(st.pool);
    } else {
      var front := inputs[..|inputs| - 1];
      SlotsAccountedFor(cfg, st, front);
      BalanceKept(st.pool, Counting(cfg, st, front), cfg, Loop(cfg, st, front), inputs[|inputs| - 1]);
      UpdateCounted(cfg, Loop(cfg, st, front), inputs[|inputs| - 1]);
    }
  }

  // ----- updates

  /** A finished update: its sender and its dense vector. */
  datatype Update = Update(shard: u16, values: seq<real>)

  ghost function UpdateIn(cfg: Config, st: State, i: Input): seq<Update>
    requires Inv(cfg, st) && InputOk(i)
  {
    if Completing(st, i) then [Update(Decoded(i.raw).value.shardId, Finished(cfg, st, i))] else []
  }

  /** The updates finished in a run, in order. */
  ghost function Updates(cfg: Config, st: State, inputs: seq<Input>): (us: seq<Update>)
    requires Inv(cfg, st) && InputsOk(inputs)
    decreases |inputs|
  {
    if inputs == [] then []
    else
      var front := inputs[..|inputs| - 1];
      Updates(cfg, st, front) + UpdateIn(cfg, Loop(cfg, st, front), inputs[|inputs| - 1])
  }

  function Values(us: seq<Update>): (vs: seq<seq<real>>)
    ensures |vs| == |us|
  {
    seq(|us|, k requires 0 <= k < |us| => us[k].values)
  }

  /** The updates aggregated when this iteration closes a round; a round without any counts for nothing. */
  ghost function RoundIn(cfg: Config, st: State, i: Input): seq<seq<seq<real>>>
    requires Inv(cfg, st) && InputOk(i)
  {
    var m := Midway(cfg, st, i);
    if ShouldClose(m.sched, cfg.policy, i.checkAt) && m.sched.complete > 0 then [m.added] else []
  }

  ghost function Rounds(cfg: Config, st: State, inputs: seq<Input>): seq<seq<seq<real>>>
    requires Inv(cfg, st) && InputsOk(inputs)
    decreases |inputs|
  {
    if inputs == [] then []
    else
      var front := inputs[..|inputs| - 1];
      Rounds(cfg, st, front) + RoundIn(cfg, Loop(cfg, st, front), inputs[|inputs| - 1])
  }

  function Concat<T>(parts: seq<seq<T>>): seq<T> {
    if parts == [] then [] else Concat(parts[..|parts| - 1]) + parts[|parts| - 1]
  }

  lemma ConcatOne<T>(parts: seq<seq<T>>, last: seq<T>)
    ensures Concat(parts + [last]) == Concat(parts) + last
  {
    assert (parts + [last])[..|parts|] == parts;
  }

  /** No more shards may report in a round than the aggregator has room for. */
  predicate PolicyOk(cfg: Config) {
    cfg.policy.maxShards <= 64
  }

  lemma ConcatSmall<T>(part: seq<T>)
    ensures Concat<T>([]) == [] && Concat([part]) == part
  {
    ConcatOne([], part);
    assert [] + [part] == [part];
  }

  lemma AddedMidway(cfg: Config, st: State, i: Input)
    requires Inv(cfg, st) && InputOk(i) && |st.added| < Aggregator.MAX_SHARDS
    ensures Midway(cfg, st, i).added == st.added + Values(UpdateIn(cfg, st, i))
  {
    hide PoolOk, NoneComplete, Decoded, HandedOut, Dense, Gathers, Answer, Sized;
    var us := UpdateIn(cfg, st, i);
    assert Values(us) == if us == [] then [] else [us[0].values];
    assert st.added + [] == st.added;
  }

  lemma RoomLeft(cfg: Config, st: State)
    requires Inv(cfg, st) && PolicyOk(cfg)
    ensures |st.added| < Aggregator.MAX_SHARDS
  {
    hide PoolOk, NoneComplete;
  }

  lemma UpdateKept(cfg: Config, st: State, i: Input)
    requires Inv(cfg, st) && InputOk(i) && |st.added| < Aggregator.MAX_SHARDS
    ensures PoolOk(st.pool.slots) && Sized(cfg, st)
    ensures Concat(RoundIn(cfg, st, i)) + Iterated(cfg, st, i).added == st.added + Values(UpdateIn(cfg, st, i))
  {
    ReceiveKeeps(cfg, st, i);
    AddedMidway(cfg, st, i);
    var m := Midway(cfg, st, i);
    assert m.sched.complete == 0 ==> m.added == [];
    hide PoolOk, NoneComplete, Received, UpdateIn, Values, Sized, Midway, Concat;
    ConcatSmall(m.added);
  }

  lemma {:induction false} ConcatAppend<T>(a: seq<seq<T>>, b: seq<seq<T>>)
    ensures Concat(a + b) == Concat(a) + Concat(b)
    decreases |b|
  {
    if b == [] {
      assert a + b == a;
    } else {
      var front, last := b[..|b| - 1], b[|b| - 1];
      ConcatAppend(a, front);
      ConcatOne(a + front, last);
      ConcatOne(front, last);
      assert b == front + [last] && a + b == (a + front) + [last];
      hide Concat;
      assert (Concat(a) + Concat(front)) + last == Concat(a) + (Concat(front) + last);
    }
  }

  lemma ValuesAppend(a: seq<Update>, b: seq<Update>)
    ensures Values(a + b) == Values(a) + Values(b)
  {
  }

  /** The rounds closed so far and the updates that wait are exactly the updates finished. */
  ghost predicate AllAggregated(cfg: Config, st: State, inputs: seq<Input>)
    requires Inv(cfg, st) && InputsOk(inputs)
  {
    Concat(Rounds(cfg, st, inputs)) + Loop(cfg, st, inputs).added == st.added + Values(Updates(cfg, st, inputs))
  }

  /** Every finished update is aggregated in exactly one round, in order; the last ones wait
      for the round that is still running. */
  lemma {:induction false} EachUpdateOnce(cfg: Config, st: State, inputs: seq<Input>)
    requires Inv(cfg, st) && PolicyOk(cfg) && InputsOk(inputs)
    ensures AllAggregated(cfg, st, inputs)
    decreases |inputs|
  {
    hide Inv, PolicyOk, AllAggregated, InputOk;
    if inputs == [] {
      NothingYet(cfg, st);
    } else {
      var front := inputs[..|inputs| - 1];
      EachUpdateOnce(cfg, st, front);
      RoomLeft(cfg, Loop(cfg, st, front));
      OneMoreAggregated(cfg, st, inputs);
    }
  }

  lemma NothingYet(cfg: Config, st: State)
    requires Inv(cfg, st)
    ensures AllAggregated(cfg, st, [])
  {
    hide Inv;
    assert Concat<seq<real>>([]) + st.added == st.added + Values([]);
  }

  /** With room in the aggregator, one more iteration keeps the account. */
  lemma OneMoreAggregated(cfg: Config, st: State, inputs: seq<Input>)
    requires Inv(cfg, st) && InputsOk(inputs) && inputs != [] && AllAggregated(cfg, st, inputs[..|inputs| - 1])
    requires |Loop(cfg, st, inputs[..|inputs| - 1]).added| < Aggregator.MAX_SHARDS
    ensures AllAggregated(cfg, st, inputs)
  {
    hide Inv, InputOk, Iterated, RoundIn, UpdateIn, Values, Concat;
    var front, i := inputs[..|inputs| - 1], inputs[|inputs| - 1];
    var before := Loop(cfg, st, front);
    UpdateKept(cfg, before, i);
    ConcatAppend(Rounds(cfg, st, front), RoundIn(cfg, before, i));
    ValuesAppend(Updates(cfg, st, front), UpdateIn(cfg, before, i));
    Regroup(Concat(Rounds(cfg, st, front)), before.added, Concat(RoundIn(cfg, before, i)),
            Iterated(cfg, before, i).added, st.added, Values(Updates(cfg, st, front)),
            Values(UpdateIn(cfg, before, i)));
  }

  lemma Regroup<T>(rounds: seq<T>, waiting: seq<T>, more: seq<T>, rest: seq<T>, first: seq<T>, us: seq<T>, u: seq<T>)
    requires rounds + waiting == first + us && more + rest == waiting + u
    ensures (rounds + more) + rest == first + (us + u)
  {
    assert (rounds + more) + rest == rounds + (more + rest);
    assert rounds + (waiting + u) == (rounds + waiting) + u;
  }

  /** From the sixty-fourth update of a round on, with a larger max_shards, updates are
      acknowledged and counted but not aggregated. */
  lemma LateUpdateIgnored(cfg: Config, st: State, i: Input)
    requires Inv(cfg, st) && InputOk(i) && Completing(st, i)
    ensures Received(cfg, st, i).added == st.added <==> st.sched.complete >= 64
    ensures Received(cfg, st, i).sched == Counted(st.sched)
  {
    if |st.added| < Aggregator.MAX_SHARDS {
      assert |Received(cfg, st, i).added| == |st.added| + 1;
    }
  }

  // ----- the model

  predicate Shaped(rounds: seq<seq<seq<real>>>, n: nat) {
    forall j :: 0 <= j < |rounds| ==> rounds[j] != [] && Wide(rounds[j], n)
  }

  /** Every update has n coordinates. */
  predicate Wide(us: seq<seq<real>>, n: nat) {
    forall k :: 0 <= k < |us| ==> |us[k]| == n
  }

  /** A model after the aggregates of these rounds have been added to it. */
  ghost function Trained(strategy: Strategy, model: seq<real>, rounds: seq<seq<seq<real>>>): (m: seq<real>)
    requires Shaped(rounds, |model|)
    ensures |m| == |model|
    decreases |rounds|
  {
    if rounds == [] then model
    else
      assert Wide(rounds[|rounds| - 1], |model|);
      Sums(Trained(strategy, model, rounds[..|rounds| - 1]), Aggregate(strategy, rounds[|rounds| - 1], |model|))
  }

  lemma ModelStep(cfg: Config, st: State, i: Input)
    requires Inv(cfg, st) && InputOk(i)
    ensures Shaped(RoundIn(cfg, st, i), cfg.n)
    ensures Iterated(cfg, st, i).model == Trained(cfg.strategy, st.model, RoundIn(cfg, st, i))
  {
    ReceiveKeeps(cfg, st, i);
    hide PoolOk, NoneComplete, Decoded, Finished, Gathers, Completing, Answer, Aggregate;
    var m := Midway(cfg, st, i);
    if ShouldClose(m.sched, cfg.policy, i.checkAt) && m.sched.complete > 0 {
      assert RoundIn(cfg, st, i)[..0] == [];
    }
  }

  lemma {:induction false} TrainedAppend(strategy: Strategy, model: seq<real>, a: seq<seq<seq<real>>>,
                                         b: seq<seq<seq<real>>>)
    requires Shaped(a, |model|) && Shaped(b, |model|)
    ensures Shaped(a + b, |model|)
    ensures Trained(strategy, model, a + b) == Trained(strategy, Trained(strategy, model, a), b)
    decreases |b|
  {
    hide Aggregate, Sums, Wide;
    if b == [] {
      assert a + b == a;
    } else {
      TrainedAppend(strategy, model, a, b[..|b| - 1]);
      assert (a + b)[..|a + b| - 1] == a + b[..|b| - 1];
    }
  }

  /** The global model is the initial one plus the aggregate of every round that closed with updates. */
  lemma {:induction false} ModelConserved(cfg: Config, st: State, inputs: seq<Input>)
    requires Inv(cfg, st) && InputsOk(inputs)
    ensures |st.model| == cfg.n && Shaped(Rounds(cfg, st, inputs), cfg.n)
    ensures Loop(cfg, st, inputs).model == Trained(cfg.strategy, st.model, Rounds(cfg, st, inputs))
    decreases |inputs|
  {
    assert |st.model| == cfg.n;
    hide Inv, InputOk, Iterated, RoundIn, Aggregate;
    if inputs != [] {
      var front, i := inputs[..|inputs| - 1], inputs[|inputs| - 1];
      ModelConserved(cfg, st, front);
      var before := Loop(cfg, st, front);
      ModelStep(cfg, before, i);
      TrainedAppend(cfg.strategy, st.model, Rounds(cfg, st, front), RoundIn(cfg, before, i));
    }
  }

  /** Coordinate i of the means of the rounds, added up. */
  ghost function Means(rounds: seq<seq<seq<real>>>, n: nat, i: nat): real
    requires Shaped(rounds, n) && i < n
    decreases |rounds|
  {
    if rounds == [] then 0.0
    else Means(rounds[..|rounds| - 1], n, i) + MeanOf(Column(rounds[|rounds| - 1], i))
  }

  lemma {:induction false} TrainedByMeans(model: seq<real>, rounds: seq<seq<seq<real>>>, i: nat)
    requires Shaped(rounds, |model|) && i < |model|
    ensures Trained(FedAvg, model, rounds)[i] == model[i] + Means(rounds, |model|, i)
    decreases |rounds|
  {
    if rounds != [] {
      TrainedByMeans(model, rounds[..|rounds| - 1], i);
    }
  }

  /** With the mean: coordinate by coordinate, the initial value plus the mean of each round's updates. */
  lemma {:induction false} MeansConserved(cfg: Config, st: State, inputs: seq<Input>, i: nat)
    requires Inv(cfg, st) && InputsOk(inputs)
    requires cfg.strategy == FedAvg && i < cfg.n
    ensures |st.model| == cfg.n && Shaped(Rounds(cfg, st, inputs), cfg.n)
    ensures Loop(cfg, st, inputs).model[i] == st.model[i] + Means(Rounds(cfg, st, inputs), cfg.n, i)
  {
    ModelConserved(cfg, st, inputs);
    TrainedByMeans(st.model, Rounds(cfg, st, inputs), i);
  }

  // ----- from a shard to the aggregation

  /** What one iteration, and a run, does to the pool. */
  function LogIn(i: Input): seq<Event> {
    if IsUpdateFrame(i.raw) then [Arrive(Decoded(i.raw).value, i.now), Expire(i.sweepAt)] else [Expire(i.sweepAt)]
  }

  function LogOf(inputs: seq<Input>): seq<Event> {
    if inputs == [] then [] else LogOf(inputs[..|inputs| - 1]) + LogIn(inputs[|inputs| - 1])
  }

  lemma {:induction false} LogOfOk(inputs: seq<Input>)
    requires InputsOk(inputs)
    ensures LogOk(LogOf(inputs))
    decreases |inputs|
  {
    if inputs != [] {
      LogOfOk(inputs[..|inputs| - 1]);
    }
  }

  /** The dense vectors of buffers handed out. */
  ghost function Decodings(outputs: seq<seq<Entry>>, shard: u16, n: nat): (us: seq<Update>)
    ensures |us| == |outputs|
  {
    seq(|outputs|, k requires 0 <= k < |outputs| => Update(shard, Dense(outputs[k], n)))
  }

  lemma DecodingsAppend(a: seq<seq<Entry>>, b: seq<seq<Entry>>, shard: u16, n: nat)
    ensures Decodings(a + b, shard, n) == Decodings(a, shard, n) + Decodings(b, shard, n)
  {
  }

  /** The updates of one shard. */
  function From(us: seq<Update>, shard: u16): seq<Update> {
    if us == [] then []
    else From(us[..|us| - 1], shard) + (if us[|us| - 1].shard == shard then [us[|us| - 1]] else [])
  }

  lemma {:induction false} FromAppend(a: seq<Update>, b: seq<Update>, shard: u16)
    ensures From(a + b, shard) == From(a, shard) + From(b, shard)
    decreases |b|
  {
    if b == [] {
      assert a + b == a;
    } else {
      FromAppend(a, b[..|b| - 1], shard);
      assert (a + b)[..|a + b| - 1] == a + b[..|b| - 1];
    }
  }

  lemma FromOne(u: Update, shard: u16)
    ensures From([u], shard) == if u.shard == shard then [u] else []
  {
    assert [u][..0] == [];
  }

  /** The slots after the receive path. */
  function TakenIn(slots: seq<Slot>, i: Input): seq<Slot>
    requires PoolOk(slots) && InputOk(i)
  {
    if IsUpdateFrame(i.raw) then Handled(slots, Decoded(i.raw).value, i.now) else slots
  }

  function OutputIn(slots: seq<Slot>, i: Input, shard: u16): (o: seq<seq<Entry>>)
    requires PoolOk(slots) && InputOk(i)
    ensures |o| <= 1
  {
    if IsUpdateFrame(i.raw) then OutputOf(slots, Arrive(Decoded(i.raw).value, i.now), shard) else []
  }

  /** One iteration in terms of the pool. */
  lemma SlotsTraced(cfg: Config, st: State, i: Input)
    requires Inv(cfg, st) && InputOk(i)
    ensures Iterated(cfg, st, i).pool.timeout == st.pool.timeout
    ensures Iterated(cfg, st, i).pool.slots == Swept(TakenIn(st.pool.slots, i), st.pool.timeout, i.sweepAt)
  {
    hide PoolOk, NoneComplete, Decoded, Handled, HandedOut, Answer, Sized, Dense, Swept, Fits, Finished;
  }

  lemma UpdateTraced(cfg: Config, st: State, i: Input, shard: u16)
    requires Inv(cfg, st) && InputOk(i)
    ensures From(UpdateIn(cfg, st, i), shard) == Decodings(OutputIn(st.pool.slots, i, shard), shard, cfg.n)
  {
    hide PoolOk, NoneComplete, Decoded, HandedOut, Answer, Sized, Dense, Fits;
    if Completing(st, i) {
      FromOne(UpdateIn(cfg, st, i)[0], shard);
    }
  }

  /** A run of the Herald is a run of its pool, and the updates it finishes for a shard are
      what the pool hands out for it. */
  lemma {:induction false} RunTraced(cfg: Config, st: State, inputs: seq<Input>, shard: u16)
    requires Inv(cfg, st) && InputsOk(inputs)
    ensures PoolOk(st.pool.slots) && LogOk(LogOf(inputs))
    ensures Loop(cfg, st, inputs).pool.slots == Reassembly.Run(st.pool.slots, st.pool.timeout, LogOf(inputs))
    ensures Loop(cfg, st, inputs).pool.timeout == st.pool.timeout
    ensures From(Updates(cfg, st, inputs), shard) ==
            Decodings(Outputs(st.pool.slots, st.pool.timeout, LogOf(inputs), shard), shard, cfg.n)
    decreases |inputs|
  {
    LogOfOk(inputs);
    assert PoolOk(st.pool.slots);
    hide Inv, PoolOk, InputOk, Iterated, UpdateIn, Decoded, Swept, TakenIn, OutputIn, Dense, Decodings, EventOk, LogOk,
         IsUpdateFrame;
    if inputs == [] {
      NothingTraced(st.pool.slots, st.pool.timeout, shard, cfg.n);
    } else {
      var front, i := inputs[..|inputs| - 1], inputs[|inputs| - 1];
      RunTraced(cfg, st, front, shard);
      var before := Loop(cfg, st, front);
      SlotsTraced(cfg, before, i);
      UpdateTraced(cfg, before, i, shard);
      FromAppend(Updates(cfg, st, front), UpdateIn(cfg, before, i), shard);
      InputTraced(st.pool.slots, st.pool.timeout, LogOf(front), i, shard, cfg.n);
    }
  }

  lemma NothingTraced(slots: seq<Slot>, timeout: u32, shard: u16, n: nat)
    requires PoolOk(slots)
    ensures LogOk([]) && Reassembly.Run(slots, timeout, []) == slots &&
            Decodings(Outputs(slots, timeout, [], shard), shard, n) == []
  {
  }

  lemma InputTraced(slots: seq<Slot>, timeout: u32, log: seq<Event>, i: Input, shard: u16, n: nat)
    requires PoolOk(slots) && LogOk(log) && InputOk(i)
    ensures LogOk(log + LogIn(i))
    ensures var before := Reassembly.Run(slots, timeout, log);
            Reassembly.Run(slots, timeout, log + LogIn(i)) == Swept(TakenIn(before, i), timeout, i.sweepAt) &&
            Decodings(Outputs(slots, timeout, log + LogIn(i), shard), shard, n) ==
              Decodings(Outputs(slots, timeout, log, shard), shard, n) + Decodings(OutputIn(before, i, shard), shard, n)
  {
    hide PoolOk, Decoded, Swept, Handled, Dense, Fits;
    var before := Reassembly.Run(slots, timeout, log);
    var outputs, output := Outputs(slots, timeout, log, shard), OutputIn(before, i, shard);
    var sweep := Expire(i.sweepAt);
    DecodingsAppend(outputs, output, shard, n);
    if IsUpdateFrame(i.raw) {
      var arrive := Arrive(Decoded(i.raw).value, i.now);
      RunOn(slots, timeout, log, arrive, shard);
      RunOn(slots, timeout, log + [arrive], sweep, shard);
      assert log + LogIn(i) == (log + [arrive]) + [sweep];
      assert (outputs + output) + [] == outputs + output;
    } else {
      RunOn(slots, timeout, log, sweep, shard);
      assert log + LogIn(i) == log + [sweep];
    }
  }

  /** Whatever else arrives, duplicates included, and whatever is lost to expiry or a full pool:
      the Herald finishes the shard's update once for every time its fragments are complete,
      each time with the values the shard encoded. */
  lemma UpdateArrives(cfg: Config, st: State, inputs: seq<Input>, shard: u16, entries: seq<Entry>)
    requires Inv(cfg, st) && InputsOk(inputs)
    requires PoolOk(st.pool.slots) && LogOk(LogOf(inputs))
    requires IsUpdate(entries) && Gathering(st.pool.slots, shard, entries, {})
    requires Delivers(LogOf(inputs), shard, entries)
    ensures var us := From(Updates(cfg, st, inputs), shard);
            var signals := Signals(st.pool.slots, st.pool.timeout, LogOf(inputs), shard);
            Completion.Below(signals, FragmentCount(|entries|)) &&
            |us| == Completions(signals, FragmentCount(|entries|)) &&
            forall k :: 0 <= k < |us| ==> us[k] == Update(shard, Dense(entries, cfg.n))
  {
    RunTraced(cfg, st, inputs, shard);
    hide Inv, Gathering, Delivers, Dense, PoolOk, Held, Completions, Completion.Below, FragmentCount;
    Reassembled(st.pool.slots, st.pool.timeout, LogOf(inputs), shard, entries);
    var outputs := Outputs(st.pool.slots, st.pool.timeout, LogOf(inputs), shard);
    forall k | 0 <= k < |outputs|
      ensures Dense(outputs[k], cfg.n) == Dense(entries, cfg.n)
    {
      DenseUnordered(outputs[k], entries, cfg.n);
    }
  }

  /** It is finished exactly once if and only if what comes after the shortest sufficient
      beginning does not suffice again. */
  lemma UpdateOnce(cfg: Config, st: State, inputs: seq<Input>, shard: u16, entries: seq<Entry>, k: nat)
    requires Inv(cfg, st) && InputsOk(inputs)
    requires PoolOk(st.pool.slots) && LogOk(LogOf(inputs))
    requires IsUpdate(entries) && Gathering(st.pool.slots, shard, entries, {})
    requires Delivers(LogOf(inputs), shard, entries)
    requires var signals := Signals(st.pool.slots, st.pool.timeout, LogOf(inputs), shard);
             var n := FragmentCount(|entries|);
             0 < k <= |signals| && Suffices(signals[..k], n) && !Suffices(signals[..k - 1], n)
    ensures |From(Updates(cfg, st, inputs), shard)| == 1 <==>
              !Suffices(Signals(st.pool.slots, st.pool.timeout, LogOf(inputs), shard)[k..], FragmentCount(|entries|))
  {
    FragmentsCover(entries);
    hide Inv, Gathering, Delivers, Dense, PoolOk, LogOk, Suffices, Completions, InputOk, Completion.Below,
         FragmentCount;
    UpdateArrives(cfg, st, inputs, shard, entries);
    ExactlyOnce(Signals(st.pool.slots, st.pool.timeout, LogOf(inputs), shard), FragmentCount(|entries|), k);
  }

  /** A released slot, and any other empty one, stays free through expiry. */
  lemma EmptyRemains(slots: seq<Slot>, timeout: u32, now: int)
    requires FirstEmpty(slots) < |slots|
    ensures FirstEmpty(Swept(slots, timeout, now)) < |slots|
  {
    assert Swept(slots, timeout, now)[FirstEmpty(slots)].state == Empty;
  }

  /** The only fragment of an update is finished at once and its slot is free again. */
  lemma OnlyFragment(slots: seq<Slot>, f: Frame, now: int, shard: u16, entries: seq<Entry>)
    requires PoolOk(slots) && IsUpdate(entries) && IsFragment(f, shard, entries) && FragmentCount(|entries|) == 1
    requires Gathering(slots, shard, entries, {}) && FirstEmpty(slots) < |slots|
    ensures Fits(f) && FirstEmpty(Handled(slots, f, now)) < |slots|
  {
    FragmentsCover(entries);
    OwnFragment(slots, f, now, shard, entries, {});
    assert {} + {0 as nat} == Upto(1);
    var p := Place(slots, f);
    assert p == FirstEmpty(slots) && Answer(slots, f) == 1;
    TakenOk(slots, f, now);
    assert Handled(slots, f, now)[p].state == Empty;
  }

  lemma OneFragmentUpdate(cfg: Config, st: State, i: Input, shard: u16, entries: seq<Entry>)
    requires Inv(cfg, st) && InputOk(i) && IsUpdate(entries) && FragmentCount(|entries|) == 1
    requires IsUpdateFrame(i.raw) && IsFragment(Decoded(i.raw).value, shard, entries)
    requires Gathering(st.pool.slots, shard, entries, {}) && FirstEmpty(st.pool.slots) < POOL_SIZE
    ensures From(UpdateIn(cfg, st, i), shard) == [Update(shard, Dense(entries, cfg.n))]
    ensures Inv(cfg, Iterated(cfg, st, i)) && Gathering(Iterated(cfg, st, i).pool.slots, shard, entries, {})
    ensures FirstEmpty(Iterated(cfg, st, i).pool.slots) < POOL_SIZE
  {
    var slots, f := st.pool.slots, Decoded(i.raw).value;
    FragmentsCover(entries);
    OwnFragment(slots, f, i.now, shard, entries, {});
    OnlyFragment(slots, f, i.now, shard, entries);
    InvKept(cfg, st, i);
    SlotsTraced(cfg, st, i);
    UpdateTraced(cfg, st, i, shard);
    DenseUnordered(HandedOut(slots, f, i.now), entries, cfg.n);
    var taken := Handled(slots, f, i.now);
    EmptyRemains(taken, st.pool.timeout, i.sweepAt);
    assert {} + {0 as nat} == Upto(1);
    hide PoolOk, NoneComplete, Decoded, Handled, Dense, Swept, Sized, IsFragment, HandedOut, Answer;
    QuietSame(taken, st.pool.timeout, Expire(i.sweepAt), shard);
    SameGathering(taken, Swept(taken, st.pool.timeout, i.sweepAt), shard, entries, {});
  }

  lemma OneInput(cfg: Config, st: State, i: Input)
    requires Inv(cfg, st) && InputOk(i)
    ensures InputsOk([i]) && Loop(cfg, st, [i]) == Iterated(cfg, st, i) && Updates(cfg, st, [i]) == UpdateIn(cfg, st, i)
  {
    hide Inv, Iterated, UpdateIn, InputOk;
    assert [i][..0] == [];
    assert [] + UpdateIn(cfg, st, i) == UpdateIn(cfg, st, i);
  }

  lemma TwoInputs(cfg: Config, st: State, i: Input, j: Input)
    requires Inv(cfg, st) && InputOk(i) && InputOk(j)
    ensures InputsOk([i, j]) && Inv(cfg, Iterated(cfg, st, i))
    ensures Updates(cfg, st, [i, j]) == UpdateIn(cfg, st, i) + UpdateIn(cfg, Iterated(cfg, st, i), j)
  {
    InvKept(cfg, st, i);
    hide Inv, Iterated, UpdateIn, InputOk;
    OneInput(cfg, st, i);
    hide Loop;
    assert [i, j][..1] == [i];
  }

  /** A repeated frame is not recognised once its update is complete: the only fragment of an
      update, received twice, is finished twice. */
  lemma DuplicateFinishedTwice(cfg: Config, st: State, i: Input, j: Input, shard: u16, entries: seq<Entry>)
    requires Inv(cfg, st) && InputOk(i) && InputOk(j) && IsUpdate(entries) && FragmentCount(|entries|) == 1
    requires i.raw == j.raw && IsUpdateFrame(i.raw) && IsFragment(Decoded(i.raw).value, shard, entries)
    requires Gathering(st.pool.slots, shard, entries, {}) && FirstEmpty(st.pool.slots) < POOL_SIZE
    ensures InputsOk([i, j])
    ensures var u := Update(shard, Dense(entries, cfg.n)); From(Updates(cfg, st, [i, j]), shard) == [u, u]
  {
    TwoInputs(cfg, st, i, j);
    OneFragmentUpdate(cfg, st, i, shard, entries);
    var next := Iterated(cfg, st, i);
    OneFragmentUpdate(cfg, next, j, shard, entries);
    FromAppend(UpdateIn(cfg, st, i), UpdateIn(cfg, next, j), shard);
    hide *;
  }

  /** The frame of an update with the single entry e. */
  lemma OnlyFrame(shard: u16, round: u8, e: Entry) returns (i: Input)
    ensures i.raw == Wire(FragmentFrame(UPDATE, shard, round, [e], 0))
    ensures InputOk(i) && IsUpdateFrame(i.raw) && IsUpdate([e]) && FragmentCount(|[e]|) == 1
    ensures IsFragment(Decoded(i.raw).value, shard, [e])
  {
    var entries := [e];
    assert |entries| == 1 && FragmentCount(1) == 1;
    i := FrameInput(UPDATE, shard, round, entries);
  }

  lemma FrameInput(kind: u8, sender: u16, round: u8, entries: seq<Entry>) returns (i: Input)
    requires IsUpdate(entries) && kind == UPDATE
    ensures 0 < FragmentCount(|entries|) && i.raw == Wire(FragmentFrame(kind, sender, round, entries, 0))
    ensures InputOk(i) && IsUpdateFrame(i.raw) && IsFragment(Decoded(i.raw).value, sender, entries)
  {
    FragmentsCover(entries);
    hide Decoded, Wire, FragmentFrame, IsFragment, Fits, FragmentCount, Chunk, Serialized;
    i := Input(Wire(FragmentFrame(kind, sender, round, entries, 0)), 0, 0, 0, 0, []);
    FragmentOnAir(kind, sender, round, entries, 0);
    FragmentFits(FragmentFrame(kind, sender, round, entries, 0), sender, entries);
  }

  /** Such a frame, to a Herald that has just started. */
  lemma DuplicateWitness(cfg: Config, model: seq<real>, shard: u16, round: u8, e: Entry) returns (st: State, i: Input)
    requires |model| == cfg.n
    ensures st == Start(cfg, model, 300, 0) && i.raw == Wire(FragmentFrame(UPDATE, shard, round, [e], 0))
    ensures Inv(cfg, st) && InputsOk([i, i])
    ensures |From(Updates(cfg, st, [i, i]), shard)| == 2
  {
    hide Inv, Decoded, Wire, FragmentFrame, Start, IsFragment, Gathering, FirstEmpty, InputsOk, InputOk, IsUpdateFrame,
         IsUpdate, FragmentCount, From, Updates;
    st := Start(cfg, model, 300, 0);
    i := OnlyFrame(shard, round, e);
    StartEmpty(cfg, model, 300, 0);
    NoSlots(st.pool.slots, shard, [e]);
    DuplicateFinishedTwice(cfg, st, i, i, shard, [e]);
  }

  lemma StartEmpty(cfg: Config, model: seq<real>, timeout: u32, now: int)
    requires |model| == cfg.n
    ensures var st := Start(cfg, model, timeout, now);
            Inv(cfg, st) && PoolOk(st.pool.slots) &&
            forall k :: 0 <= k < |st.pool.slots| ==> st.pool.slots[k].state == Empty
  {
    StartInv(cfg, model, timeout, now);
  }

  lemma NoSlots(slots: seq<Slot>, shard: u16, entries: seq<Entry>)
    requires PoolOk(slots) && IsUpdate(entries) && forall k :: 0 <= k < |slots| ==> slots[k].state == Empty
    ensures Gathering(slots, shard, entries, {}) && FirstEmpty(slots) < POOL_SIZE
  {
    hide SlotOk;
  }
}
