/** The limb operations seen as operations on field elements.

    `El` is the element an array holds; the contracts here no longer mention limbs. */
module FieldElements {
  import opened Words
  import opened LittleEndian
  import opened Modular
  import opened Field25519
  import opened FieldBytes

  // ----- field operations on whole elements

  lemma ElemProduct(x: Limbs, y: Limbs)
    ensures (Val(x) * Val(y)) % P == (Elem(x) * Elem(y)) % P
  {
    ModReduce(Val(x), Val(y), P);
    ModReduce(Elem(x), Val(y), P);
  }

  lemma ElemSum(x: Limbs, y: Limbs)
    ensures (Val(x) + Val(y)) % P == (Elem(x) + Elem(y)) % P
  {
    ModAddReduce(Val(x), Val(y), P);
  }

  lemma DifferenceMod(x: int, y: int)
    ensures (x + 2 * P - y) % P == (x % P - y % P) % P
  {
    ModAddReduce(x, y, P);
    ModMultiple(x - y, 2, P);
  }

  lemma ElemDifference(x: Limbs, y: Limbs)
    ensures (Val(x) + 2 * P - Val(y)) % P == (Elem(x) - Elem(y)) % P
  {
    DifferenceMod(Val(x), Val(y));
  }

  lemma SumValue(x: Limbs, y: Limbs, h: Limbs)
    requires forall i :: 0 <= i < 5 ==> h[i] as int == x[i] as int + y[i] as int
    ensures Val(h) == Val(x) + Val(y)
  {
  }

  lemma SumResult(x: Limbs, y: Limbs, h: Limbs)
    requires Tight(x) && Tight(y)
    requires forall i :: 0 <= i < 5 ==> h[i] as int == x[i] as int + y[i] as int
    ensures Loose(h) && Elem(h) == (Elem(x) + Elem(y)) % P
  {
    SumValue(x, y, h);
    ElemSum(x, y);
    hide Val;
    TightBounds(x);
    TightBounds(y);
  }

  lemma DifferenceValue(x: Limbs, y: Limbs, h: Limbs)
    requires forall i :: 0 <= i < 5 ==> h[i] as int == x[i] as int + TWO_P[i] as int - y[i] as int
    ensures Val(h) == Val(x) + 2 * P - Val(y)
  {
    TwoPIsTwiceP();
  }

  lemma DifferenceLoose(x: Limbs, y: Limbs, h: Limbs)
    requires Tight(x) && Tight(y)
    requires forall i :: 0 <= i < 5 ==> h[i] as int == x[i] as int + TWO_P[i] as int - y[i] as int
    ensures Loose(h)
  {
    TightBounds(x);
    TightBounds(y);
    TwoPBounds();
  }

  lemma DifferenceResult(x: Limbs, y: Limbs, h: Limbs)
    requires Tight(x) && Tight(y)
    requires forall i :: 0 <= i < 5 ==> h[i] as int == x[i] as int + TWO_P[i] as int - y[i] as int
    ensures Loose(h) && Elem(h) == (Elem(x) - Elem(y)) % P
  {
    hide Val;
    DifferenceValue(x, y, h);
    ElemDifference(x, y);
    DifferenceLoose(x, y, h);
  }

  lemma SumsFit(x: Limbs, y: Limbs)
    requires Tight(x) && Tight(y)
    ensures forall i :: 0 <= i < 5 ==> x[i] as int + y[i] as int < TWO64
    ensures forall i :: 0 <= i < 5 ==> y[i] as int <= x[i] as int + TWO_P[i] as int < TWO64
  {
    TwoPBounds();
  }

  lemma TightBounds(x: Limbs)
    requires Tight(x)
    ensures forall i :: 0 <= i < 5 ==> x[i] as int < TWO51 + 0x2000
    ensures Loose(x)
  {
  }

  lemma TwoPBounds()
    ensures forall i :: 0 <= i < 5 ==> TWO51 + 0x2000 <= TWO_P[i] as int < 2 * TWO51
  {
  }

  // ----- elements held in arrays

  ghost function El(a: array<u64>): (v: nat)
    requires a.Length == 5
    reads a
  {
    Elem(a[..])
  }

  lemma ElBound(a: array<u64>)
    requires a.Length == 5
    ensures El(a) < P
  {
  }

  ghost predicate IsTight(a: array<u64>)
    requires a.Length == 5
    reads a
  {
    Tight(a[..])
  }

  ghost predicate IsLoose(a: array<u64>)
    requires a.Length == 5
    reads a
  {
    Loose(a[..])
  }

  lemma TightIsLoose(a: array<u64>)
    requires a.Length == 5 && IsTight(a)
    ensures IsLoose(a)
  {
    TightBounds(a[..]);
  }

  function FMul(x: nat, y: nat): nat {
    (x * y) % P
  }

  function FAdd(x: nat, y: nat): nat {
    (x + y) % P
  }

  function FSub(x: nat, y: nat): nat {
    (x - y) % P
  }

  method MulElem(h: array<u64>, a: array<u64>, b: array<u64>)
    requires h.Length == a.Length == b.Length == 5
    requires IsLoose(a) && IsLoose(b)
    modifies h
    ensures IsTight(h) && IsLoose(h)
    ensures El(h) == FMul(old(El(a)), old(El(b)))
  {
    ElemProduct(a[..], b[..]);
    Mul(h, a, b);
    hide Val;
    TightBounds(h[..]);
  }

  method Mul121666Elem(h: array<u64>, a: array<u64>)
    requires h.Length == a.Length == 5 && IsLoose(a)
    modifies h
    ensures IsTight(h) && IsLoose(h)
    ensures El(h) == FMul(121666, old(El(a)))
  {
    ModReduce(121666, Val(a[..]), P);
    Mul121666(h, a);
    hide Val;
    TightBounds(h[..]);
  }

  method AddElem(h: array<u64>, a: array<u64>, b: array<u64>)
    requires h.Length == a.Length == b.Length == 5
    requires IsTight(a) && IsTight(b)
    modifies h
    ensures IsLoose(h)
    ensures El(h) == FAdd(old(El(a)), old(El(b)))
  {
    hide Val;
    ghost var x: Limbs, y: Limbs := a[..], b[..];
    SumsFit(x, y);
    assert forall i :: 0 <= i < 5 ==> a[i] == x[i] && b[i] == y[i];
    Add(h, a, b);
    SumResult(x, y, h[..]);
  }

  method SubElem(h: array<u64>, a: array<u64>, b: array<u64>)
    requires h.Length == a.Length == b.Length == 5
    requires IsTight(a) && IsTight(b)
    modifies h
    ensures IsLoose(h)
    ensures El(h) == FSub(old(El(a)), old(El(b)))
  {
    hide Val;
    ghost var x: Limbs, y: Limbs := a[..], b[..];
    SumsFit(x, y);
    assert forall i :: 0 <= i < 5 ==> a[i] == x[i] && b[i] == y[i];
    Sub(h, a, b);
    DifferenceResult(x, y, h[..]);
  }

  // ----- constants, copies and bytes

  method SetSmall(h: array<u64>, v: u64)
    requires h.Length == 5 && v < 2
    modifies h
    ensures IsTight(h) && El(h) == v
  {
    h[0], h[1], h[2], h[3], h[4] := v, 0, 0, 0, 0;
    PValue();
  }

  method Copy(h: array<u64>, a: array<u64>)
    requires h.Length == a.Length == 5 && h != a
    modifies h
    ensures El(h) == El(a)
    ensures IsTight(a) ==> IsTight(h)
  {
    h[0], h[1], h[2], h[3], h[4] := a[0], a[1], a[2], a[3], a[4];
    assert h[..] == a[..];
  }

  method LoadElem(h: array<u64>, s: bytes)
    requires h.Length == 5 && |s| == 32
    modifies h
    ensures IsTight(h) && IsLoose(h)
    ensures El(h) == LE(s) % TWO255 % P
  {
    Load(h, s);
    assert forall i :: 0 <= i < 5 ==> h[..][i] < TWO51;
  }

  method StoreElem(h: array<u64>) returns (s: bytes)
    requires h.Length == 5 && IsTight(h)
    modifies h
    ensures |s| == 32 && Represents(LE(s), old(El(h)))
  {
    s := Store(h);
  }
}
