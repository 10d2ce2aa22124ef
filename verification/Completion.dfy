/** When the fragments of an update are complete, in terms of what arrives alone: the indices,
    and the moments at which everything gathered so far is lost. */
module Completion {
  datatype Signal = Arrival(index: nat) | Loss

  function Upto(n: nat): (s: set<nat>)
    ensures |s| == n && forall i: nat :: i in s <==> i < n
  {
    if n == 0 then {} else Upto(n - 1) + {n - 1}
  }

  predicate Below(signals: seq<Signal>, n: nat) {
    forall k :: 0 <= k < |signals| && signals[k].Arrival? ==> signals[k].index < n
  }

  /** The last missing fragment arrives; gathering starts with index 0. */
  predicate Finishes(got: set<nat>, s: Signal, n: nat) {
    s.Arrival? && (got != {} || s.index == 0) && got + {s.index} == Upto(n)
  }

  /** The indices held after one more signal; a complete update leaves none. */
  function Hear(got: set<nat>, s: Signal, n: nat): set<nat> {
    if s.Loss? || (got == {} && s.index != 0) || Finishes(got, s, n) then {} else got + {s.index}
  }

  function Held(signals: seq<Signal>, n: nat): set<nat> {
    if signals == [] then {} else Hear(Held(signals[..|signals| - 1], n), signals[|signals| - 1], n)
  }

  /** How often the fragments 0 to n - 1 are complete. */
  function Completions(signals: seq<Signal>, n: nat): nat {
    if signals == [] then 0
    else
      var front, s := signals[..|signals| - 1], signals[|signals| - 1];
      Completions(front, n) + if Finishes(Held(front, n), s, n) then 1 else 0
  }

  lemma HeldMore(signals: seq<Signal>, s: Signal, n: nat)
    ensures Held(signals + [s], n) == Hear(Held(signals, n), s, n)
    ensures Completions(signals + [s], n) == Completions(signals, n) + if Finishes(Held(signals, n), s, n) then 1 else 0
  {
    assert (signals + [s])[..|signals|] == signals;
  }

  // ----- when they are complete

  /** The indices since the last loss, and those among them from the first 0 on. */
  function SinceLoss(signals: seq<Signal>): seq<nat> {
    if signals == [] || signals[|signals| - 1].Loss? then []
    else SinceLoss(signals[..|signals| - 1]) + [signals[|signals| - 1].index]
  }

  function FromZero(indices: seq<nat>): seq<nat> {
    if indices == [] || indices[0] == 0 then indices else FromZero(indices[1..])
  }

  /** Every index occurs at or after the first 0. */
  predicate Covers(indices: seq<nat>, n: nat) {
    forall i: nat :: i < n ==> i in FromZero(indices)
  }

  /** At some moment every index has arrived, from a 0 on, since the last loss. */
  predicate Suffices(signals: seq<Signal>, n: nat) {
    exists k :: 0 <= k <= |signals| && Covers(SinceLoss(signals[..k]), n)
  }

  lemma {:induction false} FromZeroStep(front: seq<nat>, i: nat)
    ensures FromZero(front + [i]) == if FromZero(front) == [] && i != 0 then [] else FromZero(front) + [i]
    decreases |front|
  {
    if front == [] {
      assert front + [i] == [i] && [i][1..] == [];
    } else if front[0] != 0 {
      assert (front + [i])[1..] == front[1..] + [i];
      FromZeroStep(front[1..], i);
    }
  }

  lemma HeldNotFull(signals: seq<Signal>, n: nat)
    requires n > 0
    ensures Held(signals, n) != Upto(n)
  {
    assert 0 in Upto(n);
  }

  /** One more index, before the first completion. */
  lemma HearStep(got: set<nat>, from: seq<nat>, i: nat, n: nat)
    requires !Finishes(got, Arrival(i), n) && forall j: nat :: j in got <==> j in from
    ensures forall j: nat :: j in Hear(got, Arrival(i), n) <==> j in (if from == [] && i != 0 then [] else from + [i])
  {
    assert from != [] ==> from[0] in got;
  }

  lemma FullIfCovered(got: set<nat>, indices: seq<nat>, n: nat)
    requires Covers(indices, n) && (forall j: nat :: j in got <==> j in FromZero(indices)) &&
             forall j: nat :: j in got ==> j < n
    ensures got == Upto(n)
  {
    hide FromZero;
  }

  /** Until the first completion exactly the indices since the last loss and its next 0 are held. */
  lemma {:induction false} HeldSoFar(signals: seq<Signal>, n: nat)
    requires Completions(signals, n) == 0 && Below(signals, n)
    ensures forall j: nat :: j in Held(signals, n) <==> j in FromZero(SinceLoss(signals))
    ensures forall j: nat :: j in Held(signals, n) ==> j < n
    decreases |signals|
  {
    if signals != [] && signals[|signals| - 1].Arrival? {
      var front, i := signals[..|signals| - 1], signals[|signals| - 1].index;
      HeldSoFar(front, n);
      FromZeroStep(SinceLoss(front), i);
      hide FromZero, Finishes;
      HearStep(Held(front, n), FromZero(SinceLoss(front)), i, n);
      assert Held(signals, n) == Hear(Held(front, n), Arrival(i), n);
    }
  }

  /** The step that completes the fragments for the first time. */
  lemma FirstCompletion(got: set<nat>, from: seq<nat>, i: nat, n: nat)
    requires Finishes(got, Arrival(i), n) && forall j: nat :: j in got <==> j in from
    ensures from != [] || i == 0
    ensures forall j: nat :: j < n ==> j in from + [i]
  {
    if from == [] {
      assert got == {};
    }
    forall j: nat | j < n
      ensures j in from + [i]
    {
      assert j in got + {i};
    }
  }

  lemma {:induction false} PrefixCompletions(signals: seq<Signal>, k: nat, n: nat)
    requires k <= |signals|
    ensures Completions(signals[..k], n) <= Completions(signals, n)
    decreases |signals|
  {
    if k == |signals| {
      assert signals[..k] == signals;
    } else {
      var front := signals[..|signals| - 1];
      PrefixCompletions(front, k, n);
      assert front[..k] == signals[..k];
    }
  }

  lemma CoveredThenComplete(signals: seq<Signal>, k: nat, n: nat)
    requires n > 0 && Below(signals, n) && k <= |signals| && Covers(SinceLoss(signals[..k]), n)
    ensures Completions(signals, n) > 0
  {
    PrefixCompletions(signals, k, n);
    if Completions(signals[..k], n) == 0 {
      HeldSoFar(signals[..k], n);
      HeldNotFull(signals[..k], n);
      FullIfCovered(Held(signals[..k], n), SinceLoss(signals[..k]), n);
    }
  }

  lemma {:induction false} CompleteThenCovered(signals: seq<Signal>, n: nat) returns (k: nat)
    requires n > 0 && Below(signals, n) && Completions(signals, n) > 0
    ensures k <= |signals| && Covers(SinceLoss(signals[..k]), n)
    decreases |signals|
  {
    var front, s := signals[..|signals| - 1], signals[|signals| - 1];
    if Completions(front, n) > 0 {
      k := CompleteThenCovered(front, n);
      assert front[..k] == signals[..k];
    } else {
      k := |signals|;
      assert signals[..k] == signals;
      HeldSoFar(front, n);
      FromZeroStep(SinceLoss(front), s.index);
      hide FromZero, Finishes;
      FirstCompletion(Held(front, n), FromZero(SinceLoss(front)), s.index, n);
    }
  }

  /** The fragments are complete at least once exactly when, at some moment, all of them have
      arrived since the last loss, from an index 0 on. */
  lemma AtLeastOnce(signals: seq<Signal>, n: nat)
    requires n > 0 && Below(signals, n)
    ensures Completions(signals, n) > 0 <==> Suffices(signals, n)
  {
    if Completions(signals, n) > 0 {
      var k := CompleteThenCovered(signals, n);
    } else if Suffices(signals, n) {
      var k :| 0 <= k <= |signals| && Covers(SinceLoss(signals[..k]), n);
      CoveredThenComplete(signals, k, n);
    }
  }

  /** After a completion, or a loss, gathering starts afresh. */
  lemma {:induction false} Restart(a: seq<Signal>, b: seq<Signal>, n: nat)
    requires Held(a, n) == {}
    ensures Held(a + b, n) == Held(b, n)
    ensures Completions(a + b, n) == Completions(a, n) + Completions(b, n)
    decreases |b|
  {
    if b == [] {
      assert a + b == a;
    } else {
      Restart(a, b[..|b| - 1], n);
      assert (a + b)[..|a + b| - 1] == a + b[..|b| - 1];
    }
  }

  /** The fragments are complete exactly once if and only if what comes after the shortest
      sufficient beginning does not suffice again. */
  lemma ExactlyOnce(signals: seq<Signal>, n: nat, k: nat)
    requires n > 0 && Below(signals, n)
    requires 0 < k <= |signals| && Suffices(signals[..k], n) && !Suffices(signals[..k - 1], n)
    ensures Completions(signals, n) == 1 <==> !Suffices(signals[k..], n)
  {
    var a := signals[..k];
    assert a[..k - 1] == signals[..k - 1] && signals == a + signals[k..];
    hide Suffices;
    AtLeastOnce(a, n);
    AtLeastOnce(signals[..k - 1], n);
    AtLeastOnce(signals[k..], n);
    Restart(a, signals[k..], n);
  }
}
