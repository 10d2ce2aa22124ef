/** How far apart the models are: the Herald adds the whole aggregate of a round to its model,
    while a shard adds what it decodes from the entries that were sent, and what was not sent
    is not made up for in later rounds. */
module Agreement {
  import opened RealSums
  import opened Quant
  import opened TopK
  import opened Sparse
  import opened Words
  import opened Frame
  import opened FragmentPool
  import opened Reassembly
  import opened Round
  import opened Aggregation
  import opened HeraldSteps
  import opened HeraldRuns
  import ErrorFeedback
  import Capacity
  import Herald

  /** The entries sent at the end of each round encode its aggregate. */
  ghost predicate AreDeltas(strategy: Strategy, rounds: seq<seq<seq<real>>>, deltas: seq<seq<Entry>>, n: nat)
    requires Shaped(rounds, n)
  {
    |deltas| == |rounds| &&
    forall j :: 0 <= j < |rounds| ==> IsDelta(strategy, rounds[j], deltas[j], n)
  }

  ghost predicate IsDelta(strategy: Strategy, round: seq<seq<real>>, delta: seq<Entry>, n: nat)
    requires Wide(round, n)
  {
    IsEncoding(Aggregate(strategy, round, n), Herald.Limit(Herald.DeltaTopK(n), n), delta)
  }

  /** The parameters of a shard that has applied all of these deltas. */
  ghost function Followed(params: seq<real>, deltas: seq<seq<Entry>>): (p: seq<real>)
    ensures |p| == |params|
    decreases |deltas|
  {
    if deltas == [] then params
    else Sums(Followed(params, deltas[..|deltas| - 1]), Dense(deltas[|deltas| - 1], |params|))
  }

  /** What a round does to coordinate i of the Herald's model and not to the shards'. */
  ghost function MissedIn(strategy: Strategy, round: seq<seq<real>>, delta: seq<Entry>, n: nat, i: nat): real
    requires Wide(round, n) && i < n
  {
    var d := Aggregate(strategy, round, n)[i];
    if i in Indices(delta) then d - Carried(d) else d
  }

  ghost function Missed(strategy: Strategy, rounds: seq<seq<seq<real>>>, deltas: seq<seq<Entry>>, n: nat, i: nat): real
    requires Shaped(rounds, n) && |deltas| == |rounds| && i < n
    decreases |rounds|
  {
    if rounds == [] then 0.0
    else
      var last := |rounds| - 1;
      Missed(strategy, rounds[..last], deltas[..last], n, i) + MissedIn(strategy, rounds[last], deltas[last], n, i)
  }

  lemma RoundMissed(strategy: Strategy, round: seq<seq<real>>, delta: seq<Entry>, n: nat, i: nat)
    requires Wide(round, n) && i < n && IsDelta(strategy, round, delta, n)
    ensures Aggregate(strategy, round, n)[i] == Dense(delta, n)[i] + MissedIn(strategy, round, delta, n, i)
  {
    hide Aggregate, IsEncoding, Carried, Indices;
    ErrorFeedback.EncodingDecodes(Aggregate(strategy, round, n), Herald.Limit(Herald.DeltaTopK(n), n), delta, i);
  }

  /** The values that a code stands for. */
  predicate IsCode(x: real) {
    exists q: i8 :: DequantQ8(q) == x
  }

  lemma CarriedExactly(x: real)
    ensures Carried(x) == x <==> IsCode(x)
  {
    if Carried(x) == x {
      assert DequantQ8(QuantQ8(x)) == x;
    }
    if IsCode(x) {
      var q: i8 :| DequantQ8(q) == x;
      CodeRoundTrip(q);
    }
  }

  /** A round leaves the distance of the two models in coordinate i as it was if and only if its
      aggregate there is a code, when it is sent, and zero, when it is not. */
  lemma KeepsDistance(strategy: Strategy, round: seq<seq<real>>, delta: seq<Entry>, n: nat, i: nat)
    requires Wide(round, n) && i < n
    ensures var d := Aggregate(strategy, round, n)[i];
            MissedIn(strategy, round, delta, n, i) == 0.0 <==> if i in Indices(delta) then IsCode(d) else d == 0.0
  {
    hide Aggregate, Indices, Carried, IsCode;
    CarriedExactly(Aggregate(strategy, round, n)[i]);
  }

  /** After any number of rounds the Herald's model and that of a shard which has applied every
      delta differ by what they differed by at first and all that was not sent. */
  lemma {:induction false} ModelsDiffer(strategy: Strategy, model: seq<real>, params: seq<real>,
                                        rounds: seq<seq<seq<real>>>, deltas: seq<seq<Entry>>, i: nat)
    requires |params| == |model| && i < |model| && Shaped(rounds, |model|) &&
             AreDeltas(strategy, rounds, deltas, |model|)
    ensures Trained(strategy, model, rounds)[i] - Followed(params, deltas)[i]
         == model[i] - params[i] + Missed(strategy, rounds, deltas, |model|, i)
    decreases |rounds|
  {
    hide Aggregate, IsDelta, Dense, MissedIn;
    if rounds != [] {
      var last := |rounds| - 1;
      ModelsDiffer(strategy, model, params, rounds[..last], deltas[..last], i);
      RoundMissed(strategy, rounds[last], deltas[last], |model|, i);
    }
  }

  /** The same for a run of the Herald. */
  lemma DriftOfRun(cfg: Config, st: State, inputs: seq<Input>, params: seq<real>, deltas: seq<seq<Entry>>, i: nat)
    requires Inv(cfg, st) && InputsOk(inputs) && |params| == cfg.n && i < cfg.n
    requires Shaped(Rounds(cfg, st, inputs), cfg.n) && AreDeltas(cfg.strategy, Rounds(cfg, st, inputs), deltas, cfg.n)
    ensures |Loop(cfg, st, inputs).model| == |st.model| == cfg.n
    ensures Loop(cfg, st, inputs).model[i] - Followed(params, deltas)[i]
         == st.model[i] - params[i] + Missed(cfg.strategy, Rounds(cfg, st, inputs), deltas, cfg.n, i)
  {
    ModelConserved(cfg, st, inputs);
    hide Inv, Loop, Rounds, Aggregate, AreDeltas, Followed, Missed, Trained, Shaped;
    ModelsDiffer(cfg.strategy, st.model, params, Rounds(cfg, st, inputs), deltas, i);
  }

  /** A coordinate that is never among those sent does not move on the shards, whatever the
      Herald adds to it: nothing makes up for it later. */
  lemma {:induction false} NeverSent(params: seq<real>, deltas: seq<seq<Entry>>, i: nat)
    requires i < |params| && forall j :: 0 <= j < |deltas| ==> i !in Indices(deltas[j])
    ensures Followed(params, deltas)[i] == params[i]
    decreases |deltas|
  {
    if deltas != [] {
      var last := |deltas| - 1;
      NeverSent(params, deltas[..last], i);
      NotDecoded(deltas[last], i);
    }
  }

  lemma {:induction false} NotDecoded(entries: seq<Entry>, i: nat)
    requires i !in Indices(entries)
    ensures DecodedAt(entries, i) == 0.0
    decreases |entries|
  {
    if entries != [] {
      var front := entries[..|entries| - 1];
      assert forall k :: 0 <= k < |front| ==> Indices(front)[k] == Indices(entries)[k];
      assert Indices(entries)[|entries| - 1] in Indices(entries);
      NotDecoded(front, i);
    }
  }

  // ----- a run in which the models part

  /** Two parameters move by the same amount. */
  function Pair(): seq<Entry> {
    [Entry(0, 64), Entry(1, 64)]
  }

  lemma PairDense(n: nat)
    requires n >= 2
    ensures Dense(Pair(), n)[0] == Dense(Pair(), n)[1] == 0.5
  {
    assert Pair()[..1] == [Entry(0, 64)] && Pair()[..1][..0] == [];
    assert DecodedAt(Pair()[..1], 0) == 0.5 && DecodedAt(Pair()[..1], 1) == 0.0;
  }

  /** The aggregate of a single update is that update. */
  lemma SingleAggregate(strategy: Strategy, u: seq<real>, i: nat)
    requires i < |u|
    ensures Aggregate(strategy, [u], |u|)[i] == u[i]
  {
    assert Column([u], i) == [u[i]];
    SumOne(u[i]);
    var t := Sort([u[i]]);
    assert t[0] in multiset(t);
    assert t[0] in multiset([u[i]]);
  }

  /** With fewer than 20 parameters only one of the two is sent. */
  lemma OneOfTwo(strategy: Strategy, u: seq<real>, delta: seq<Entry>) returns (i: nat)
    requires 2 <= |u| < 20 && u[0] == u[1] == 0.5 && IsDelta(strategy, [u], delta, |u|)
    ensures i < 2 && MissedIn(strategy, [u], delta, |u|, i) != 0.0
  {
    EncodingSize(Aggregate(strategy, [u], |u|), Herald.Limit(Herald.DeltaTopK(|u|), |u|), delta);
    SingleAggregate(strategy, u, 0);
    SingleAggregate(strategy, u, 1);
    hide Aggregate, IsEncoding, Carried;
    i := if 0 in Indices(delta) then 1 else 0;
  }

  lemma SingleMissed(strategy: Strategy, round: seq<seq<real>>, delta: seq<Entry>, n: nat, i: nat)
    requires Wide(round, n) && round != [] && i < n
    ensures Shaped([round], n) && Missed(strategy, [round], [delta], n, i) == MissedIn(strategy, round, delta, n, i)
  {
    hide MissedIn;
    assert [round][..0] == [] && [delta][..0] == [];
  }

  /** The pair as one update, received by a Herald that has just started, when the window ends. */
  lemma PairRound(cfg: Config, model: seq<real>, timeout: u32, now: int) returns (i: Input)
    requires |model| == cfg.n
    ensures var st := Start(cfg, model, timeout, now);
            Inv(cfg, st) && InputsOk([i]) && Rounds(cfg, st, [i]) == [[Dense(Pair(), cfg.n)]]
  {
    var st := Start(cfg, model, timeout, now);
    StartEmpty(cfg, model, timeout, now);
    Capacity.StartWindow(cfg, model, timeout, now);
    i := PairInput(now + cfg.policy.window);
    hide Inv, Decoded, Wire, IsFragment, Gathering, FirstEmpty, FragmentCount, Pair, IsUpdate, Start, IsUpdateFrame,
         Rounds, RoundIn;
    NoSlots(st.pool.slots, 0, Pair());
    OneFragmentUpdate(cfg, st, i, 0, Pair());
    ClosesWith(cfg, st, i, 0, Dense(Pair(), cfg.n));
    OneRound(cfg, st, i);
  }

  lemma PairInput(checkAt: int) returns (i: Input)
    ensures InputOk(i) && i.checkAt == checkAt && IsUpdate(Pair()) && FragmentCount(|Pair()|) == 1
    ensures IsUpdateFrame(i.raw) && IsFragment(Decoded(i.raw).value, 0, Pair())
  {
    assert IsUpdate(Pair()) && FragmentCount(|Pair()|) == 1;
    hide Decoded, Wire, IsFragment, FragmentCount, Pair;
    i := FrameInput(UPDATE, 0, 0, Pair());
    i := i.(checkAt := checkAt);
  }

  /** A round that closes with the one update which this iteration finishes. */
  lemma ClosesWith(cfg: Config, st: State, i: Input, shard: u16, u: seq<real>)
    requires Inv(cfg, st) && InputOk(i) && From(UpdateIn(cfg, st, i), shard) == [Update(shard, u)]
    requires st.added == [] && st.sched.closeAt <= i.checkAt
    ensures RoundIn(cfg, st, i) == [[u]]
  {
    FinishesOne(cfg, st, i, shard, u);
    AddedMidway(cfg, st, i);
    Capacity.MidwayCounts(cfg, st, i);
    OneCounted(cfg, st, i.checkAt);
    hide Inv, PoolOk, NoneComplete, UpdateIn, Midway, Completing, Sized, InputOk, Counted, ShouldClose;
    assert [] + Values([Update(shard, u)]) == [u];
  }

  lemma OneCounted(cfg: Config, st: State, now: int)
    requires Inv(cfg, st) && st.added == [] && st.sched.closeAt <= now
    ensures ShouldClose(Counted(st.sched), cfg.policy, now) && Counted(st.sched).complete == 1
  {
    hide PoolOk, NoneComplete, Sized;
  }

  lemma FinishesOne(cfg: Config, st: State, i: Input, shard: u16, u: seq<real>)
    requires Inv(cfg, st) && InputOk(i) && From(UpdateIn(cfg, st, i), shard) == [Update(shard, u)]
    ensures PoolOk(st.pool.slots) && Completing(st, i) && UpdateIn(cfg, st, i) == [Update(shard, u)]
  {
    hide PoolOk, Decoded, Finished;
    if Completing(st, i) {
      FromOne(UpdateIn(cfg, st, i)[0], shard);
    }
  }

  lemma OneRound(cfg: Config, st: State, i: Input)
    requires Inv(cfg, st) && InputOk(i)
    ensures Rounds(cfg, st, [i]) == RoundIn(cfg, st, i)
  {
    hide Inv, RoundIn, InputOk;
    assert [i][..0] == [];
    assert [] + RoundIn(cfg, st, i) == RoundIn(cfg, st, i);
  }

  /** The models part: from the same parameters, after one round of one update, whatever entries
      the Herald has chosen, they differ in one of the two coordinates. */
  lemma ModelsPart(cfg: Config, model: seq<real>, timeout: u32, now: int) returns (i: Input)
    requires 2 <= |model| == cfg.n < 20
    ensures var st := Start(cfg, model, timeout, now);
            Inv(cfg, st) && InputsOk([i]) && Shaped(Rounds(cfg, st, [i]), cfg.n) &&
            forall deltas | AreDeltas(cfg.strategy, Rounds(cfg, st, [i]), deltas, cfg.n) ::
              exists k :: 0 <= k < cfg.n && Loop(cfg, st, [i]).model[k] != Followed(model, deltas)[k]
  {
    var st := Start(cfg, model, timeout, now);
    i := PairRound(cfg, model, timeout, now);
    ModelConserved(cfg, st, [i]);
    forall deltas | AreDeltas(cfg.strategy, Rounds(cfg, st, [i]), deltas, cfg.n)
      ensures exists k :: 0 <= k < cfg.n && Loop(cfg, st, [i]).model[k] != Followed(model, deltas)[k]
    {
      var k := PairParts(cfg, st, i, model, deltas);
    }
  }

  lemma PairParts(cfg: Config, st: State, i: Input, model: seq<real>, deltas: seq<seq<Entry>>) returns (k: nat)
    requires Inv(cfg, st) && InputsOk([i]) && 2 <= cfg.n < 20 && st.model == model && |model| == cfg.n
    requires Rounds(cfg, st, [i]) == [[Dense(Pair(), cfg.n)]] && Shaped(Rounds(cfg, st, [i]), cfg.n)
    requires AreDeltas(cfg.strategy, Rounds(cfg, st, [i]), deltas, cfg.n)
    ensures k < cfg.n == |Loop(cfg, st, [i]).model| && Loop(cfg, st, [i]).model[k] != Followed(model, deltas)[k]
  {
    var u := Dense(Pair(), cfg.n);
    PairDense(cfg.n);
    assert deltas == [deltas[0]] && IsDelta(cfg.strategy, [u], deltas[0], cfg.n);
    hide Inv, Loop, Rounds, Followed, Missed, IsDelta, Dense, MissedIn, InputsOk, Pair;
    k := OneOfTwo(cfg.strategy, u, deltas[0]);
    SingleMissed(cfg.strategy, [u], deltas[0], cfg.n, k);
    DriftOfRun(cfg, st, [i], model, deltas, k);
  }
}
