/** Combining updates: mean, coordinate-wise median, and what the median withstands. */
module Aggregation {
  import opened RealSums

  datatype Strategy = FedAvg | Median

  /** Every update has coordinate i. */
  predicate Covers(us: seq<seq<real>>, i: nat) {
    forall k :: 0 <= k < |us| ==> i < |us[k]|
  }

  /** Coordinate i of every update. */
  function Column(us: seq<seq<real>>, i: nat): (c: seq<real>)
    requires Covers(us, i)
    ensures |c| == |us|
  {
    seq(|us|, k requires 0 <= k < |us| => us[k][i])
  }

  // ----- sorting

  ghost predicate IsSorted(s: seq<real>) {
    forall i, j :: 0 <= i <= j < |s| ==> s[i] <= s[j]
  }

  function Insert(s: seq<real>, x: real): (t: seq<real>)
    ensures multiset(t) == multiset(s) + multiset{x}
    ensures |t| == |s| + 1
  {
    if s == [] || x <= s[0] then [x] + s
    else
      assert s == [s[0]] + s[1..];
      [s[0]] + Insert(s[1..], x)
  }

  lemma {:induction false} InsertSorted(s: seq<real>, x: real)
    requires IsSorted(s)
    ensures IsSorted(Insert(s, x))
    ensures forall y :: y in Insert(s, x) ==> y == x || y in s
  {
    if s == [] || x <= s[0] {
    } else {
      InsertSorted(s[1..], x);
      var t := Insert(s[1..], x);
      assert forall i :: 0 <= i < |t| ==> s[0] <= t[i] by {
        forall i | 0 <= i < |t|
          ensures s[0] <= t[i]
        {
          assert t[i] in t;
        }
      }
    }
  }

  /** What qsort with cmp_float leaves in the column. */
  function Sort(s: seq<real>): (t: seq<real>)
    ensures multiset(t) == multiset(s) && |t| == |s|
  {
    if s == [] then []
    else
      assert s == s[..|s| - 1] + [s[|s| - 1]];
      Insert(Sort(s[..|s| - 1]), s[|s| - 1])
  }

  lemma {:induction false} SortSorts(s: seq<real>)
    ensures IsSorted(Sort(s))
  {
    if s == [] {
    } else {
      SortSorts(s[..|s| - 1]);
      InsertSorted(Sort(s[..|s| - 1]), s[|s| - 1]);
    }
  }

  lemma SameLeast(a: seq<real>, b: seq<real>)
    requires IsSorted(a) && IsSorted(b) && multiset(a) == multiset(b) && a != [] && b != []
    ensures a[0] == b[0]
  {
    assert a[0] in multiset(b) && b[0] in multiset(a);
  }

  lemma WithoutFirst(s: seq<real>)
    requires s != []
    ensures multiset(s[1..]) == multiset(s) - multiset{s[0]}
    ensures IsSorted(s) ==> IsSorted(s[1..])
  {
    assert s == [s[0]] + s[1..];
  }

  /** Two sorted sequences with the same elements are the same. */
  lemma {:induction false} SortedUnique(a: seq<real>, b: seq<real>)
    requires IsSorted(a) && IsSorted(b) && multiset(a) == multiset(b)
    ensures a == b
    decreases |a|
  {
    hide IsSorted;
    PermutationOfNothing(a, b);
    if a != [] {
      SameLeast(a, b);
      WithoutFirst(a);
      WithoutFirst(b);
      SortedUnique(a[1..], b[1..]);
      assert a == [a[0]] + a[1..] && b == [b[0]] + b[1..];
    }
  }

  // ----- the two rules

  function Middle(s: seq<real>): real
    requires s != []
  {
    var n := |s|;
    if n % 2 == 1 then s[n / 2] else (s[n / 2 - 1] + s[n / 2]) * 0.5
  }

  function MedianOf(col: seq<real>): real
    requires col != []
  {
    Middle(Sort(col))
  }

  ghost function MeanOf(col: seq<real>): real
    requires col != []
  {
    Sum(col) / |col| as real
  }

  /** The aggregated delta of a round: zero when nothing arrived. */
  ghost function Aggregate(strategy: Strategy, us: seq<seq<real>>, n: nat): (d: seq<real>)
    requires forall k :: 0 <= k < |us| ==> |us[k]| == n
    ensures |d| == n
  {
    seq(n, i requires 0 <= i < n =>
      if us == [] then 0.0
      else if strategy == FedAvg then MeanOf(Column(us, i)) else MedianOf(Column(us, i)))
  }

  // ----- what the rules are

  function Deviations(col: seq<real>, x: real): (d: seq<real>)
    ensures |d| == |col|
  {
    seq(|col|, k requires 0 <= k < |col| => col[k] - x)
  }

  lemma {:induction false} SumOfDeviations(col: seq<real>, x: real)
    ensures Sum(Deviations(col, x)) == Sum(col) - |col| as real * x
    decreases |col|
  {
    if col != [] {
      var front := col[..|col| - 1];
      SumOfDeviations(front, x);
      assert Deviations(col, x)[..|front|] == Deviations(front, x);
      assert |col| as real * x == |front| as real * x + x;
    }
  }

  /** The mean is the one value from which the deviations cancel out. */
  lemma MeanExactly(col: seq<real>, x: real)
    requires col != []
    ensures Sum(Deviations(col, x)) == 0.0 <==> x == MeanOf(col)
  {
    SumOfDeviations(col, x);
    var n := |col| as real;
    assert Sum(col) == n * MeanOf(col);
    if Sum(col) == n * x {
      assert n * (x - MeanOf(col)) == 0.0;
    }
  }

  function Negated(s: seq<real>): (t: seq<real>)
    ensures |t| == |s|
  {
    seq(|s|, k requires 0 <= k < |s| => -s[k])
  }

  function Reversed(s: seq<real>): (t: seq<real>)
    ensures |t| == |s|
  {
    seq(|s|, k requires 0 <= k < |s| => s[|s| - 1 - k])
  }

  lemma {:induction false} ReversedElements(s: seq<real>)
    ensures multiset(Reversed(s)) == multiset(s)
    decreases |s|
  {
    if s != [] {
      var front, e := s[..|s| - 1], s[|s| - 1];
      ReversedElements(front);
      assert s == front + [e];
      assert Reversed(s) == [e] + Reversed(front);
    }
  }

  lemma {:induction false} NegatedElements(s: seq<real>, x: real)
    ensures multiset(Negated(s))[x] == multiset(s)[-x]
    decreases |s|
  {
    if s != [] {
      var front, e := s[..|s| - 1], s[|s| - 1];
      NegatedElements(front, x);
      assert s == front + [e];
      assert Negated(s) == Negated(front) + [-e];
    }
  }

  lemma NegatedUnordered(a: seq<real>, b: seq<real>)
    requires multiset(a) == multiset(b)
    ensures multiset(Negated(a)) == multiset(Negated(b))
  {
    forall x: real
      ensures multiset(Negated(a))[x] == multiset(Negated(b))[x]
    {
      NegatedElements(a, x);
      NegatedElements(b, x);
    }
  }

  lemma ReversedSorted(s: seq<real>)
    requires IsSorted(s)
    ensures IsSorted(Reversed(Negated(s)))
  {
    var t := Reversed(Negated(s));
    assert forall k :: 0 <= k < |t| ==> t[k] == -s[|s| - 1 - k];
  }

  lemma MiddleReversed(s: seq<real>)
    requires s != []
    ensures Middle(Reversed(Negated(s))) == -Middle(s)
  {
    var t, n := Reversed(Negated(s)), |s|;
    assert t[n / 2] == -s[n - 1 - n / 2];
    assert n % 2 == 0 ==> t[n / 2 - 1] == -s[n / 2];
  }

  /** The median of the negated values is the negated median, so between the two middle values
      of an even number it takes neither side. */
  lemma MedianNegated(col: seq<real>)
    requires col != []
    ensures MedianOf(Negated(col)) == -MedianOf(col)
  {
    hide Sort, IsSorted, Reversed, Negated, Middle;
    var s := Sort(col);
    SortSorts(col);
    SortSorts(Negated(col));
    ReversedSorted(s);
    ReversedElements(Negated(s));
    NegatedUnordered(col, s);
    SortedUnique(Sort(Negated(col)), Reversed(Negated(s)));
    MiddleReversed(s);
  }

  // ----- order

  lemma ColumnAppend(a: seq<seq<real>>, b: seq<seq<real>>, i: nat)
    requires Covers(a + b, i)
    ensures Covers(a, i) && Covers(b, i) && Column(a + b, i) == Column(a, i) + Column(b, i)
  {
    assert forall k :: 0 <= k < |a| ==> a[k] == (a + b)[k];
    assert forall k :: 0 <= k < |b| ==> b[k] == (a + b)[|a| + k];
  }

  lemma CoversJoin(a: seq<seq<real>>, b: seq<seq<real>>, i: nat)
    requires Covers(a, i) && Covers(b, i)
    ensures Covers(a + b, i)
  {
  }

  lemma {:induction false} ColumnUnordered(us: seq<seq<real>>, vs: seq<seq<real>>, i: nat)
    requires multiset(us) == multiset(vs) && Covers(us, i) && Covers(vs, i)
    ensures multiset(Column(us, i)) == multiset(Column(vs, i))
    decreases |us|
  {
    PermutationOfNothing(us, vs);
    if us != [] {
      var front, e := us[..|us| - 1], us[|us| - 1];
      var before, after := Locate(us, vs);
      assert us == front + [e];
      ColumnAppend(front, [e], i);
      ColumnAppend(before, [e] + after, i);
      ColumnAppend([e], after, i);
      assert Column([e], i) == [e[i]];
      hide Column, Covers;
      CoversJoin(before, after, i);
      ColumnAppend(before, after, i);
      ColumnUnordered(front, before + after, i);
      PutBack(Column(front, i), Column(before, i), Column(after, i), e[i]);
    }
  }

  /** The aggregated delta does not depend on the order in which the updates were added. */
  lemma AggregateUnordered(strategy: Strategy, us: seq<seq<real>>, vs: seq<seq<real>>, n: nat)
    requires multiset(us) == multiset(vs)
    requires forall k :: 0 <= k < |us| ==> |us[k]| == n
    requires forall k :: 0 <= k < |vs| ==> |vs[k]| == n
    ensures Aggregate(strategy, us, n) == Aggregate(strategy, vs, n)
  {
    assert |us| == |multiset(us)| == |multiset(vs)| == |vs|;
    forall i | 0 <= i < n
      ensures Aggregate(strategy, us, n)[i] == Aggregate(strategy, vs, n)[i]
    {
      if us != [] {
        var a, b := Column(us, i), Column(vs, i);
        ColumnUnordered(us, vs, i);
        SumUnordered(a, b);
        SortSorts(a);
        SortSorts(b);
        SortedUnique(Sort(a), Sort(b));
      }
    }
  }

  // ----- robustness

  /** How many entries are below lo, and how many above hi. */
  function Below(s: seq<real>, lo: real): nat {
    if s == [] then 0 else Below(s[..|s| - 1], lo) + (if s[|s| - 1] < lo then 1 else 0)
  }

  function Above(s: seq<real>, hi: real): nat {
    if s == [] then 0 else Above(s[..|s| - 1], hi) + (if s[|s| - 1] > hi then 1 else 0)
  }

  function Faulty(honest: seq<bool>): nat {
    if honest == [] then 0 else Faulty(honest[..|honest| - 1]) + (if honest[|honest| - 1] then 0 else 1)
  }

  /** Only faulty entries lie outside the honest range. */
  lemma {:induction false} OutsideIsFaulty(col: seq<real>, honest: seq<bool>, lo: real, hi: real)
    requires |col| == |honest|
    requires forall k :: 0 <= k < |col| && honest[k] ==> lo <= col[k] <= hi
    ensures Below(col, lo) <= Faulty(honest) && Above(col, hi) <= Faulty(honest)
    decreases |col|
  {
    if col == [] {
    } else {
      OutsideIsFaulty(col[..|col| - 1], honest[..|col| - 1], lo, hi);
    }
  }

  lemma {:induction false} BelowAppend(a: seq<real>, b: seq<real>, lo: real, hi: real)
    ensures Below(a + b, lo) == Below(a, lo) + Below(b, lo)
    ensures Above(a + b, hi) == Above(a, hi) + Above(b, hi)
    decreases |b|
  {
    if b == [] {
      assert a + b == a;
    } else {
      BelowAppend(a, b[..|b| - 1], lo, hi);
      assert (a + b)[..|a + b| - 1] == a + b[..|b| - 1];
    }
  }

  lemma {:induction false} BelowUnordered(a: seq<real>, b: seq<real>, lo: real, hi: real)
    requires multiset(a) == multiset(b)
    ensures Below(a, lo) == Below(b, lo) && Above(a, hi) == Above(b, hi)
    decreases |a|
  {
    PermutationOfNothing(a, b);
    if a != [] {
      var front, e := a[..|a| - 1], a[|a| - 1];
      var before, after := Locate(a, b);
      BelowUnordered(front, before + after, lo, hi);
      BelowAppend(before, [e] + after, lo, hi);
      BelowAppend([e], after, lo, hi);
      BelowAppend(before, after, lo, hi);
      BelowOne(e, lo, hi);
    }
  }

  lemma BelowOne(e: real, lo: real, hi: real)
    ensures Below([e], lo) == (if e < lo then 1 else 0) && Above([e], hi) == (if e > hi then 1 else 0)
  {
    assert [e][..0] == [];
  }

  /** In a sorted sequence everything up to a low entry is low, and from a high one high. */
  lemma {:induction false} LowPrefix(s: seq<real>, lo: real, m: nat)
    requires IsSorted(s) && m < |s| && s[m] < lo
    ensures Below(s, lo) >= m + 1
    decreases |s|
  {
    if m == |s| - 1 {
      if m > 0 {
        LowPrefix(s[..m], lo, m - 1);
      }
    } else {
      LowPrefix(s[..|s| - 1], lo, m);
    }
  }

  lemma {:induction false} HighSuffix(s: seq<real>, hi: real, m: nat)
    requires IsSorted(s) && m < |s| && s[m] > hi
    ensures Above(s, hi) >= |s| - m
    decreases |s|
  {
    if m < |s| - 1 {
      HighSuffix(s[..|s| - 1], hi, m);
    }
  }

  /** With at most (n - 1) / 2 arbitrary values among n, the median lies within any
      range that holds all the others; for odd and even n. */
  lemma MedianRobust(col: seq<real>, honest: seq<bool>, lo: real, hi: real)
    requires |col| == |honest| > 0
    requires Faulty(honest) <= (|col| - 1) / 2
    requires forall k :: 0 <= k < |col| && honest[k] ==> lo <= col[k] <= hi
    ensures lo <= MedianOf(col) <= hi
  {
    var s, n := Sort(col), |col|;
    SortSorts(col);
    OutsideIsFaulty(col, honest, lo, hi);
    BelowUnordered(col, s, lo, hi);
    hide Sort, Below, Above, Faulty;
    var a, b := (n - 1) / 2, n / 2;
    if s[a] < lo { LowPrefix(s, lo, a); }
    if s[b] > hi { HighSuffix(s, hi, b); }
    assert lo <= s[a] <= s[b] <= hi;
    assert n % 2 == 1 ==> a == b;
    assert n % 2 == 0 ==> a == n / 2 - 1;
  }

  /** Coordinate by coordinate, on the buffered updates of a round. */
  lemma AggregateRobust(us: seq<seq<real>>, honest: seq<bool>, n: nat, i: nat, lo: real, hi: real)
    requires us != [] && |us| == |honest| && i < n
    requires forall k :: 0 <= k < |us| ==> |us[k]| == n
    requires Faulty(honest) <= (|us| - 1) / 2
    requires forall k :: 0 <= k < |us| && honest[k] ==> lo <= us[k][i] <= hi
    ensures lo <= Aggregate(Median, us, n)[i] <= hi
  {
    MedianRobust(Column(us, i), honest, lo, hi);
  }

  lemma {:induction false} FaultySplit(honest: seq<bool>, good: nat)
    requires good <= |honest| && forall i :: 0 <= i < |honest| ==> (honest[i] <==> i < good)
    ensures Faulty(honest) == |honest| - good
    decreases |honest|
  {
    if |honest| > good {
      FaultySplit(honest[..|honest| - 1], good);
    } else if honest != [] {
      FaultySplit(honest[..|honest| - 1], good - 1);
    }
  }

  /** The bound is sharp: with more than (n - 1) / 2 faults there are honest values that all
      agree and a median that differs from them. */
  lemma MedianBreaks(n: nat, faults: nat) returns (col: seq<real>, honest: seq<bool>)
    requires (n - 1) / 2 < faults <= n && n > 0
    ensures |col| == |honest| == n && Faulty(honest) == faults
    ensures forall k :: 0 <= k < n && honest[k] ==> 0.0 <= col[k] <= 0.0
    ensures MedianOf(col) > 0.0
  {
    col, honest := seq(n, i => if i < n - faults then 0.0 else 1.0), seq(n, i => i < n - faults);
    FaultySplit(honest, n - faults);
    SortSorts(col);
    SortedUnique(Sort(col), col);
    assert col[n / 2] == 1.0;
  }
}
