/** Sums of real sequences, and that their order does not matter. */
module RealSums {
  /** Two vectors added coordinate by coordinate. */
  function Sums(a: seq<real>, b: seq<real>): (c: seq<real>)
    requires |a| == |b|
    ensures |c| == |a|
  {
    seq(|a|, i requires 0 <= i < |a| => a[i] + b[i])
  }

  ghost function Sum(w: seq<real>): real {
    if w == [] then 0.0 else Sum(w[..|w| - 1]) + w[|w| - 1]
  }

  lemma SumLast(w: seq<real>)
    requires w != []
    ensures Sum(w) == Sum(w[..|w| - 1]) + w[|w| - 1]
  {
  }

  lemma {:induction false} SumAppend(a: seq<real>, b: seq<real>)
    ensures Sum(a + b) == Sum(a) + Sum(b)
    decreases |b|
  {
    if b == [] {
      assert a + b == a;
    } else {
      SumAppend(a, b[..|b| - 1]);
      assert (a + b)[..|a + b| - 1] == a + b[..|b| - 1];
    }
  }

  lemma SumOne(x: real)
    ensures Sum([x]) == x
  {
    assert [x][..0] == [];
  }

  /** Removing an element from one sequence and its copy from the other keeps them permutations. */
  lemma TakeOne<T>(front: seq<T>, before: seq<T>, after: seq<T>, e: T)
    requires multiset(front + [e]) == multiset(before + ([e] + after))
    ensures multiset(front) == multiset(before + after)
  {
    assert multiset(front + [e]) == multiset(front) + multiset{e};
    assert multiset(before + ([e] + after)) == multiset(before + after) + multiset{e};
    assert multiset(front) == multiset(front + [e]) - multiset{e};
  }

  lemma PutBack<T>(front: seq<T>, before: seq<T>, after: seq<T>, e: T)
    requires multiset(front) == multiset(before + after)
    ensures multiset(front + [e]) == multiset(before + ([e] + after))
  {
    assert multiset(before + ([e] + after)) == multiset(before + after) + multiset{e};
  }

  /** Where the last element of one permutation sits in the other. */
  lemma Locate<T>(a: seq<T>, b: seq<T>) returns (before: seq<T>, after: seq<T>)
    requires multiset(a) == multiset(b) && a != []
    ensures b == before + ([a[|a| - 1]] + after)
    ensures multiset(a[..|a| - 1]) == multiset(before + after)
  {
    var e := a[|a| - 1];
    assert e in multiset(b);
    var j :| 0 <= j < |b| && b[j] == e;
    before, after := b[..j], b[j + 1..];
    assert a == a[..|a| - 1] + [e] && b == before + ([e] + after);
    TakeOne(a[..|a| - 1], before, after, e);
  }

  lemma PermutationOfNothing<T>(a: seq<T>, b: seq<T>)
    requires multiset(a) == multiset(b)
    ensures |a| == |b|
  {
    assert |a| == |multiset(a)| == |multiset(b)| == |b|;
  }

  lemma {:induction false} SumUnordered(a: seq<real>, b: seq<real>)
    requires multiset(a) == multiset(b)
    ensures Sum(a) == Sum(b)
    decreases |a|
  {
    PermutationOfNothing(a, b);
    if a != [] {
      var front, e := a[..|a| - 1], a[|a| - 1];
      var before, after := Locate(a, b);
      SumUnordered(front, before + after);
      SumAppend(before, [e] + after);
      SumAppend([e], after);
      SumAppend(before, after);
      SumOne(e);
    }
  }
}
