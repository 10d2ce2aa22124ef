/** Signed Q8 fixed point: fl_quant.h and fl_quant.c, with `real` for `float`. */
module Quant {
  type i8 = x: int | -128 <= x <= 127

  function Abs(x: real): (a: real)
    ensures a >= 0.0
  {
    if x < 0.0 then -x else x
  }

  /** Conversion to an integer drops the fraction, toward zero. */
  function Truncate(s: real): int {
    if s >= 0.0 then s.Floor else -((-s).Floor)
  }

  function QuantQ8(x: real): (q: i8) {
    var s := x * 128.0;
    if s > 127.0 then 127
    else if s < -128.0 then -128
    else Truncate(s)
  }

  function DequantQ8(q: i8): real {
    q as real / 128.0
  }

  /** What a value becomes on the other side. */
  function Carried(x: real): real {
    DequantQ8(QuantQ8(x))
  }

  /** The decoded value keeps the sign and never exceeds the magnitude. */
  lemma CarriedShrinks(x: real)
    ensures x >= 0.0 ==> 0.0 <= Carried(x) <= x
    ensures x <= 0.0 ==> x <= Carried(x) <= 0.0
  {
  }

  /** It is within one step of the value exactly on the range the code can follow. */
  lemma CarriedError(x: real)
    ensures Abs(x - Carried(x)) < 1.0 / 128.0 <==> -129.0 / 128.0 < x < 1.0
  {
  }

  /** Every code survives being decoded and encoded again. */
  lemma CodeRoundTrip(q: i8)
    ensures QuantQ8(DequantQ8(q)) == q
  {
  }

  lemma QuantMonotone(x: real, y: real)
    requires x <= y
    ensures QuantQ8(x) <= QuantQ8(y)
  {
  }

  /** The code fl_quant.h describes: rounded to the nearest, halves away from zero, then clamped. */
  function Rounded(x: real): i8 {
    var s := x * 128.0;
    var r := if s >= 0.0 then (s + 0.5).Floor else -(0.5 - s).Floor;
    if r > 127 then 127 else if r < -128 then -128 else r
  }

  /** The part of the scaled value that truncation drops. */
  function Dropped(x: real): real {
    Abs(x * 128.0) - Abs(x * 128.0).Floor as real
  }

  /** The truncating code is the rounded one exactly when the value is clamped or less than
      half a step is dropped. */
  lemma RoundedExactly(x: real)
    ensures QuantQ8(x) == Rounded(x) <==> x * 128.0 > 127.0 || x * 128.0 < -128.0 || Dropped(x) < 0.5
  {
    var s := x * 128.0;
    var a := Abs(s);
    var n := a.Floor;
    assert n as real <= a < n as real + 1.0;
    assert (a + 0.5).Floor == if a - n as real < 0.5 then n else n + 1;
    assert s < 0.0 ==> 0.5 - s == a + 0.5;
  }

  lemma RoundingDeparts()
    ensures QuantQ8(0.75 / 128.0) == 0 && Rounded(0.75 / 128.0) == 1
  {
    assert 0.75 / 128.0 * 128.0 == 0.75;
  }

  // ----- vectors

  /** m is the largest magnitude in v, or zero for an empty vector. */
  ghost predicate IsLinf(v: seq<real>, m: real) {
    m >= 0.0 && (forall i :: 0 <= i < |v| ==> Abs(v[i]) <= m)
    && (m == 0.0 || exists i :: 0 <= i < |v| && Abs(v[i]) == m)
  }

  method GradLinf(v: seq<real>) returns (m: real)
    ensures IsLinf(v, m)
  {
    m := 0.0;
    for i := 0 to |v|
      invariant IsLinf(v[..i], m)
    {
      var a := Abs(v[i]);
      ghost var was := m;
      if a > m {
        m := a;
        assert v[..i + 1][i] == v[i];
      } else if m != 0.0 {
        var j :| 0 <= j < i && Abs(v[..i][j]) == m;
        assert v[..i + 1][j] == v[j];
      }
      assert forall j :: 0 <= j < i ==> v[..i + 1][j] == v[..i][j];
    }
    assert v[..|v|] == v;
  }

  /** The scale a vector is divided by: its largest magnitude, or 1 when that is below 1e-9. */
  ghost predicate IsScale(v: seq<real>, scale: real) {
    exists m :: IsLinf(v, m) && scale == if m < 0.000000001 then 1.0 else m
  }

  /** fl_quant_vec_q8; `normalise` is a non-null scale_out. */
  method QuantVec(src: seq<real>, dst: array<i8>, normalise: bool) returns (scale: real)
    requires |src| <= dst.Length
    modifies dst
    ensures normalise ==> IsScale(src, scale) && scale > 0.0
    ensures !normalise ==> scale == 1.0
    ensures forall i :: 0 <= i < |src| ==> dst[i] == QuantQ8(src[i] / scale)
    ensures forall i :: |src| <= i < dst.Length ==> dst[i] == old(dst[i])
  {
    scale := 1.0;
    if normalise {
      var norm := GradLinf(src);
      assert IsLinf(src, norm);
      scale := if norm < 0.000000001 then 1.0 else norm;
    }
    for i := 0 to |src|
      invariant forall j :: 0 <= j < i ==> dst[j] == QuantQ8(src[j] / scale)
      invariant forall j :: |src| <= j < dst.Length ==> dst[j] == old(dst[j])
    {
      dst[i] := QuantQ8(src[i] / scale);
    }
  }

  /** fl_dequant_vec_q8; a zero scale stands for 1. */
  method DequantVec(src: seq<i8>, dst: array<real>, scale: real)
    requires |src| <= dst.Length
    modifies dst
    ensures forall i :: 0 <= i < |src| ==> dst[i] == Restored(src[i], scale)
    ensures forall i :: |src| <= i < dst.Length ==> dst[i] == old(dst[i])
  {
    var factor := if scale != 0.0 then scale / 128.0 else 1.0 / 128.0;
    for i := 0 to |src|
      invariant forall j :: 0 <= j < i ==> dst[j] == Restored(src[j], scale)
      invariant forall j :: |src| <= j < dst.Length ==> dst[j] == old(dst[j])
    {
      dst[i] := src[i] as real * factor;
    }
  }

  function Restored(q: i8, scale: real): real {
    q as real * (if scale != 0.0 then scale / 128.0 else 1.0 / 128.0)
  }

  /** A normalised vector comes back within scale / 128 in every coordinate, keeping
      signs and magnitudes from growing. */
  lemma VectorError(v: seq<real>, scale: real, i: nat)
    requires IsScale(v, scale) && i < |v|
    ensures scale > 0.0 && Abs(v[i] - Restored(QuantQ8(v[i] / scale), scale)) <= scale / 128.0
    ensures Abs(Restored(QuantQ8(v[i] / scale), scale)) <= Abs(v[i])
  {
    var m :| IsLinf(v, m) && scale == if m < 0.000000001 then 1.0 else m;
    RestoredError(v[i], scale);
  }

  lemma RestoredError(x: real, scale: real)
    requires scale > 0.0 && Abs(x) <= scale
    ensures Abs(x - Restored(QuantQ8(x / scale), scale)) <= scale / 128.0
    ensures Abs(Restored(QuantQ8(x / scale), scale)) <= Abs(x)
  {
    hide QuantQ8, DequantQ8;
    var y := x / scale;
    UnitRange(x, scale);
    CarriedShrinks(y);
    UnitError(y);
    RestoredForm(QuantQ8(y), scale);
    hide Restored;
    ScaleBack(x, scale, Carried(y));
  }

  lemma RestoredForm(q: i8, s: real)
    requires s > 0.0
    ensures Restored(q, s) == DequantQ8(q) * s
  {
    assert s / 128.0 == s * (1.0 / 128.0);
  }

  lemma UnitRange(x: real, s: real)
    requires s > 0.0 && Abs(x) <= s
    ensures -1.0 <= x / s <= 1.0 && (x >= 0.0 <==> x / s >= 0.0)
  {
    var y := x / s;
    assert y * s == x;
    StrictOrder(y, 1.0, s);
    StrictOrder(-1.0, y, s);
    StrictOrder(y, 0.0, s);
  }

  lemma StrictOrder(a: real, b: real, s: real)
    requires s > 0.0
    ensures a <= b <==> a * s <= b * s
  {
  }

  lemma UnitError(x: real)
    requires -1.0 <= x <= 1.0
    ensures Abs(x - Carried(x)) <= 1.0 / 128.0
  {
  }

  lemma ScaleBack(x: real, s: real, d: real)
    requires s > 0.0 && Abs(x / s - d) <= 1.0 / 128.0
    requires x / s >= 0.0 ==> 0.0 <= d <= x / s
    requires x / s <= 0.0 ==> x / s <= d <= 0.0
    ensures Abs(x - d * s) <= s / 128.0 && Abs(d * s) <= Abs(x)
  {
    var y := x / s;
    assert x == y * s;
    var e := y - d;
    assert x - d * s == e * s;
    MulBound(e, s, 1.0 / 128.0);
    if y >= 0.0 {
      MulOrder(d, y, s);
      MulOrder(0.0, d, s);
    } else {
      MulOrder(y, d, s);
      MulOrder(d, 0.0, s);
    }
  }

  lemma MulOrder(a: real, b: real, s: real)
    requires s > 0.0 && a <= b
    ensures a * s <= b * s
  {
  }

  lemma MulBound(e: real, s: real, c: real)
    requires s > 0.0 && Abs(e) <= c
    ensures Abs(e * s) <= c * s
  {
    MulOrder(e, c, s);
    MulOrder(-c, e, s);
  }
}
