/** What top-k selection guarantees: order, uniqueness, contraction and error feedback. */
module TopKLaws {
  import opened Words
  import opened Quant
  import opened TopK
  import opened RealSums

  /** i comes before j in the stable sort by descending magnitude. */
  ghost predicate Before(eff: seq<real>, i: nat, j: nat)
    requires i < |eff| && j < |eff|
  {
    Abs(eff[i]) > Abs(eff[j]) || (Abs(eff[i]) == Abs(eff[j]) && i < j)
  }

  lemma SelectedInRange(eff: seq<real>, sel: seq<nat>)
    requires StableTop(eff, sel)
    ensures forall k :: 0 <= k < |sel| ==> sel[k] < |eff|
    ensures forall a, b :: 0 <= a < b < |sel| ==> sel[a] != sel[b]
  {
    forall k | 0 <= k < |sel|
      ensures sel[k] < |eff| && sel[k] !in sel[..k]
    {
      assert IsBest(eff, sel[..k], sel[k]);
    }
    forall a, b | 0 <= a < b < |sel|
      ensures sel[a] != sel[b]
    {
      assert sel[..b][a] == sel[a];
    }
  }

  /** The selection lists distinct indices in the order of the stable sort, and every
      index left out comes after every index selected. */
  lemma PrefixOfStableSort(eff: seq<real>, sel: seq<nat>)
    requires StableTop(eff, sel)
    ensures forall k :: 0 <= k < |sel| ==> sel[k] < |eff|
    ensures forall a, b :: 0 <= a < b < |sel| ==> sel[a] != sel[b] && Before(eff, sel[a], sel[b])
    ensures forall k, i :: 0 <= k < |sel| && 0 <= i < |eff| && i !in sel ==> Before(eff, sel[k], i)
  {
    SelectedInRange(eff, sel);
    forall k, i | 0 <= k < |sel| && 0 <= i < |eff| && i !in sel[..k] && i != sel[k]
      ensures Before(eff, sel[k], i)
    {
      assert IsBest(eff, sel[..k], sel[k]);
    }
    forall a, b | 0 <= a < b < |sel|
      ensures Before(eff, sel[a], sel[b])
    {
      assert sel[b] !in sel[..a];
    }
    forall k, i | 0 <= k < |sel| && 0 <= i < |eff| && i !in sel
      ensures Before(eff, sel[k], i)
    {
      assert i !in sel[..k];
    }
  }

  /** The specification leaves no freedom: two selections for the same input are equal. */
  lemma SelectionUnique(eff: seq<real>, limit: nat, s: seq<nat>, t: seq<nat>)
    requires Selected(eff, limit, s) && Selected(eff, limit, t)
    ensures s == t
  {
    var m := Min(|s|, |t|);
    CommonPrefix(eff, s, t, m);
    assert s[..|s|] == s && t[..|t|] == t;
    if |s| < |t| {
      StillLeft(eff, s, t);
    } else if |t| < |s| {
      StillLeft(eff, t, s);
    }
  }

  /** A longer selection shows an entry the shorter one has left behind. */
  lemma StillLeft(eff: seq<real>, s: seq<nat>, t: seq<nat>)
    requires StableTop(eff, t) && |s| < |t| && t[..|s|] == s
    requires forall k :: 0 <= k < |t| ==> t[k] < |eff| ==> Abs(eff[t[k]]) >= NEGLIGIBLE
    ensures exists i :: 0 <= i < |eff| && i !in s && Abs(eff[i]) >= NEGLIGIBLE
  {
    assert IsBest(eff, t[..|s|], t[|s|]);
    var i := t[|s|];
    assert i < |eff| && i !in s && Abs(eff[i]) >= NEGLIGIBLE;
  }

  lemma {:induction false} CommonPrefix(eff: seq<real>, s: seq<nat>, t: seq<nat>, m: nat)
    requires StableTop(eff, s) && StableTop(eff, t) && m <= |s| && m <= |t|
    ensures s[..m] == t[..m]
  {
    if m == 0 {
    } else {
      CommonPrefix(eff, s, t, m - 1);
      assert IsBest(eff, s[..m - 1], s[m - 1]) && IsBest(eff, t[..m - 1], t[m - 1]);
      assert s[..m] == s[..m - 1] + [s[m - 1]] && t[..m] == t[..m - 1] + [t[m - 1]];
    }
  }

  // ----- contraction

  /** How many of the first n indices are in sel. */
  ghost function Count(sel: seq<nat>, n: nat): nat {
    if n == 0 then 0 else Count(sel, n - 1) + (if n - 1 in sel then 1 else 0)
  }

  lemma {:induction false} CountRemove(sel: seq<nat>, last: nat, n: nat)
    requires last !in sel && last < n
    ensures Count(sel + [last], n) == Count(sel, n) + 1
  {
    if n - 1 == last {
      CountSame(sel, last, n - 1);
    } else {
      CountRemove(sel, last, n - 1);
    }
  }

  lemma {:induction false} CountSame(sel: seq<nat>, last: nat, n: nat)
    requires n <= last
    ensures Count(sel + [last], n) == Count(sel, n)
  {
    if n == 0 {
    } else {
      CountSame(sel, last, n - 1);
    }
  }

  lemma {:induction false} CountEmpty(n: nat)
    ensures Count([], n) == 0
  {
    if n == 0 {
    } else {
      CountEmpty(n - 1);
    }
  }

  /** Distinct indices below n are counted once each. */
  lemma {:induction false} CountDistinct(sel: seq<nat>, n: nat)
    requires forall k :: 0 <= k < |sel| ==> sel[k] < n
    requires forall a, b :: 0 <= a < b < |sel| ==> sel[a] != sel[b]
    ensures Count(sel, n) == |sel|
    decreases |sel|
  {
    if sel == [] {
      CountEmpty(n);
    } else {
      var front, last := sel[..|sel| - 1], sel[|sel| - 1];
      CountDistinct(front, n);
      assert sel == front + [last];
      CountRemove(front, last, n);
    }
  }

  /** The weights with the selected ones set to zero. */
  ghost function Masked(w: seq<real>, sel: seq<nat>): (m: seq<real>)
    ensures |m| == |w|
  {
    seq(|w|, i requires 0 <= i < |w| => if i in sel then 0.0 else w[i])
  }

  /** c copies of tau added up. */
  ghost function Times(c: nat, tau: real): real {
    if c == 0 then 0.0 else Times(c - 1, tau) + tau
  }

  lemma {:induction false} TimesProduct(c: nat, tau: real)
    ensures Times(c, tau) == c as real * tau
  {
    if c == 0 {
    } else {
      TimesProduct(c - 1, tau);
      assert c as real == (c - 1) as real + 1.0;
    }
  }

  /** With every selected weight at least tau and every other at most tau. */
  lemma {:induction false} SplitSums(w: seq<real>, sel: seq<nat>, tau: real)
    requires tau >= 0.0
    requires forall i :: 0 <= i < |w| ==> (i in sel ==> w[i] >= tau) && (i !in sel ==> 0.0 <= w[i] <= tau)
    ensures Count(sel, |w|) <= |w|
    ensures Sum(w) - Sum(Masked(w, sel)) >= Times(Count(sel, |w|), tau)
    ensures Sum(Masked(w, sel)) <= Times(|w| - Count(sel, |w|), tau)
    decreases |w|
  {
    if w == [] {
    } else {
      var n := |w| - 1;
      SplitSums(w[..n], sel, tau);
      assert Masked(w, sel)[..n] == Masked(w[..n], sel);
      SumLast(w);
      SumLast(Masked(w, sel));
      assert |w| - Count(sel, |w|) == if n in sel then n - Count(sel, n) else n - Count(sel, n) + 1;
    }
  }

  lemma CrossMultiply(n: real, k: real, u: real, a: real, tau: real)
    requires 0.0 <= k <= n && tau >= 0.0
    requires u <= (n - k) * tau && a >= k * tau
    ensures n * u <= (n - k) * (u + a)
  {
    ScaleOrder(n - k, k * tau, a);
    ScaleOrder(k, u, (n - k) * tau);
    Swap(k, n - k, tau);
    Distribute(n, k, u, a);
  }

  lemma ScaleOrder(c: real, x: real, y: real)
    requires c >= 0.0 && x <= y
    ensures c * x <= c * y
  {
  }

  lemma Swap(x: real, y: real, z: real)
    ensures x * (y * z) == y * (x * z)
  {
  }

  lemma Distribute(n: real, k: real, u: real, a: real)
    ensures (n - k) * (u + a) == n * u - k * u + (n - k) * a
  {
  }

  /** Any weight that grows with magnitude shrinks at least in proportion: with k of n
      entries sent, n * (what stays) <= (n - k) * (what there was). */
  lemma Contraction(eff: seq<real>, sel: seq<nat>, w: seq<real>)
    requires StableTop(eff, sel) && |w| == |eff|
    requires forall i :: 0 <= i < |w| ==> w[i] >= 0.0
    requires forall i, j :: 0 <= i < |w| && 0 <= j < |w| && Abs(eff[i]) <= Abs(eff[j]) ==> w[i] <= w[j]
    ensures |sel| <= |eff|
    ensures |eff| as real * Sum(Masked(w, sel)) <= (|eff| - |sel|) as real * Sum(w)
  {
    hide Sum, Masked, StableTop, Times, Abs;
    if sel == [] {
      MaskNothing(w);
      assert |eff| - |sel| == |eff|;
    } else {
      var tau := SeparatingWeight(eff, sel, w);
      Shares(|eff|, |sel|, Sum(Masked(w, sel)), Sum(w), tau);
    }
  }

  lemma MaskNothing(w: seq<real>)
    ensures Masked(w, []) == w
  {
  }

  lemma SeparatingWeight(eff: seq<real>, sel: seq<nat>, w: seq<real>) returns (tau: real)
    requires StableTop(eff, sel) && |w| == |eff| && sel != []
    requires forall i :: 0 <= i < |w| ==> w[i] >= 0.0
    requires forall i, j :: 0 <= i < |w| && 0 <= j < |w| && Abs(eff[i]) <= Abs(eff[j]) ==> w[i] <= w[j]
    ensures tau >= 0.0 && |sel| <= |eff|
    ensures Sum(Masked(w, sel)) <= Times(|eff| - |sel|, tau)
    ensures Sum(w) - Sum(Masked(w, sel)) >= Times(|sel|, tau)
  {
    PrefixOfStableSort(eff, sel);
    CountDistinct(sel, |w|);
    CountBound(sel, |w|);
    Threshold(eff, sel, w);
    tau := w[sel[|sel| - 1]];
    SplitSums(w, sel, tau);
  }

  lemma Shares(n: nat, k: nat, u: real, total: real, tau: real)
    requires k <= n && tau >= 0.0
    requires u <= Times(n - k, tau) && total - u >= Times(k, tau)
    ensures n as real * u <= (n - k) as real * total
  {
    TimesProduct(n - k, tau);
    TimesProduct(k, tau);
    hide Times;
    var x, y: real := n as real, k as real;
    assert (n - k) as real == x - y;
    CrossMultiply(x, y, u, total - u, tau);
  }

  /** The weight of the last selected entry separates the selected from the others. */
  lemma Threshold(eff: seq<real>, sel: seq<nat>, w: seq<real>)
    requires StableTop(eff, sel) && |w| == |eff| && sel != []
    requires forall i :: 0 <= i < |w| ==> w[i] >= 0.0
    requires forall i, j :: 0 <= i < |w| && 0 <= j < |w| && Abs(eff[i]) <= Abs(eff[j]) ==> w[i] <= w[j]
    ensures sel[|sel| - 1] < |w|
    ensures forall i :: 0 <= i < |w| ==>
              (i in sel ==> w[i] >= w[sel[|sel| - 1]]) && (i !in sel ==> w[i] <= w[sel[|sel| - 1]])
  {
    PrefixOfStableSort(eff, sel);
    var last := sel[|sel| - 1];
    forall i | 0 <= i < |w|
      ensures (i in sel ==> w[i] >= w[last]) && (i !in sel ==> w[i] <= w[last])
    {
      if i in sel {
        var a :| 0 <= a < |sel| && sel[a] == i;
        assert a < |sel| - 1 ==> Before(eff, sel[a], last);
      } else {
        assert Before(eff, last, i);
      }
    }
  }

  lemma {:induction false} CountBound(sel: seq<nat>, n: nat)
    ensures Count(sel, n) <= n
  {
    if n == 0 {
    } else {
      CountBound(sel, n - 1);
    }
  }

  ghost function Magnitudes(v: seq<real>): (m: seq<real>)
    ensures |m| == |v|
  {
    seq(|v|, i requires 0 <= i < |v| => Abs(v[i]))
  }

  ghost function Squares(v: seq<real>): (m: seq<real>)
    ensures |m| == |v|
  {
    seq(|v|, i requires 0 <= i < |v| => v[i] * v[i])
  }

  lemma SquareMonotone(x: real, y: real)
    requires Abs(x) <= Abs(y)
    ensures 0.0 <= x * x <= y * y
  {
    assert x * x == Abs(x) * Abs(x) && y * y == Abs(y) * Abs(y);
    assert Abs(x) * Abs(x) <= Abs(x) * Abs(y) <= Abs(y) * Abs(y);
  }

  /** The residual a round leaves is smaller than what it started from by the factor
      (n - k) / n, in the sum of squares and in the sum of magnitudes. */
  lemma ResidualContracts(eff: seq<real>, sel: seq<nat>)
    requires StableTop(eff, sel)
    ensures |sel| <= |eff|
    ensures |eff| as real * Sum(Squares(Residue(eff, sel))) <= (|eff| - |sel|) as real * Sum(Squares(eff))
    ensures |eff| as real * Sum(Magnitudes(Residue(eff, sel))) <= (|eff| - |sel|) as real * Sum(Magnitudes(eff))
  {
    SquaresGrow(eff);
    MaskResidue(eff, sel);
    hide Sum, Residue, StableTop, Squares;
    Contraction(eff, sel, Squares(eff));
    Contraction(eff, sel, Magnitudes(eff));
  }

  lemma SquaresGrow(eff: seq<real>)
    ensures forall i :: 0 <= i < |eff| ==> Squares(eff)[i] >= 0.0
    ensures forall i, j :: 0 <= i < |eff| && 0 <= j < |eff| && Abs(eff[i]) <= Abs(eff[j]) ==>
            Squares(eff)[i] <= Squares(eff)[j]
  {
    forall i, j | 0 <= i < |eff| && 0 <= j < |eff| && Abs(eff[i]) <= Abs(eff[j])
      ensures 0.0 <= Squares(eff)[i] <= Squares(eff)[j]
    {
      SquareMonotone(eff[i], eff[j]);
    }
    forall i | 0 <= i < |eff|
      ensures Squares(eff)[i] >= 0.0
    {
      SquareMonotone(eff[i], eff[i]);
    }
  }

  lemma MaskResidue(eff: seq<real>, sel: seq<nat>)
    ensures Masked(Squares(eff), sel) == Squares(Residue(eff, sel))
    ensures Masked(Magnitudes(eff), sel) == Magnitudes(Residue(eff, sel))
  {
    var a, b := Masked(Squares(eff), sel), Squares(Residue(eff, sel));
    forall i | 0 <= i < |eff|
      ensures a[i] == b[i]
    {
      if i in sel {
        assert Residue(eff, sel)[i] == 0.0;
      } else {
        assert Residue(eff, sel)[i] == eff[i];
      }
    }
  }
}
