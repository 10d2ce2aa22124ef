/** Arithmetic modulo 2^255 - 19 on five 51-bit limbs held in arrays.

    Every method may be called with its result array equal to an operand, as the
    C code does; `old` in the contracts refers to the operands before the call. */
module Field25519 {
  import opened Words
  import opened Bits
  import opened Modular

  type Positive = x: int | 0 < x witness 1

  const P_DIGITS: int := 0x7fffffffffffffffffffffffffffffffffffffffffffffffffffffffffffffed

  /** The modulus; proofs that need its digits call PValue. */
  function Modulus(): Positive {
    Pow2Of255();
    Pow2(255) - 19
  }

  const P: Positive := Modulus()

  lemma PValue()
    ensures P == P_DIGITS
  {
    Pow2Of255();
  }

  const TWO51: int := 0x8_0000_0000_0000
  const TWO108: int := 0x1000_0000_0000_0000_0000_0000_0000
  const TWO54: int := 0x40_0000_0000_0000

  type Limbs = s: seq<u64> | |s| == 5 witness [0, 0, 0, 0, 0]

  function Val5(a0: int, a1: int, a2: int, a3: int, a4: int): int {
    a0 + 0x8000000000000 * a1 + 0x40000000000000000000000000 * a2
    + 0x200000000000000000000000000000000000000 * a3 + 0x1000000000000000000000000000000000000000000000000000 * a4
  }

  /** The integer a limb vector stands for. */
  function Val(h: Limbs): (v: nat) {
    Val5(h[0], h[1], h[2], h[3], h[4])
  }

  /** The field element a limb vector stands for. */
  function Elem(h: Limbs): (v: nat)
    ensures v < P
  {
    Val(h) % P
  }

  /** What a multiplication leaves behind. */
  predicate Tight(h: Limbs) {
    h[0] < TWO51 && h[1] < TWO51 + 0x2000 && h[2] < TWO51 && h[3] < TWO51 && h[4] < TWO51
  }

  /** What a multiplication accepts. */
  predicate Loose(h: Limbs) {
    forall i :: 0 <= i < 5 ==> h[i] < TWO54
  }

  // ----- products

  lemma DistributeRight(x: int, b0: int, b1: int, b2: int, b3: int, b4: int)
    ensures x * Val5(b0, b1, b2, b3, b4) == Val5(x * b0, x * b1, x * b2, x * b3, x * b4)
  {
  }

  lemma DistributeLeft(a0: int, a1: int, a2: int, a3: int, a4: int, y: int)
    ensures Val5(a0, a1, a2, a3, a4) * y == Val5(a0 * y, a1 * y, a2 * y, a3 * y, a4 * y)
  {
  }

  /** The schoolbook product, with the limbs from 2^255 up replaced by 19 times themselves. */
  function Folded(a0: int, a1: int, a2: int, a3: int, a4: int, b0: int, b1: int, b2: int, b3: int, b4: int): int {
    Val5(a0 * b0 + 19 * (a4 * b1) + 19 * (a3 * b2) + 19 * (a2 * b3) + 19 * (a1 * b4),
         a1 * b0 + a0 * b1 + 19 * (a4 * b2) + 19 * (a3 * b3) + 19 * (a2 * b4),
         a2 * b0 + a1 * b1 + a0 * b2 + 19 * (a4 * b3) + 19 * (a3 * b4),
         a3 * b0 + a2 * b1 + a1 * b2 + a0 * b3 + 19 * (a4 * b4),
         a4 * b0 + a3 * b1 + a2 * b2 + a1 * b3 + a0 * b4)
  }

  /** The identity behind the folding, linear once the 25 limb products p_ij are named. */
  lemma FoldIdentity(
    p00: int, p01: int, p02: int, p03: int, p04: int,
    p10: int, p11: int, p12: int, p13: int, p14: int,
    p20: int, p21: int, p22: int, p23: int, p24: int,
    p30: int, p31: int, p32: int, p33: int, p34: int,
    p40: int, p41: int, p42: int, p43: int, p44: int)
    ensures Val5(Val5(p00, p10, p20, p30, p40), Val5(p01, p11, p21, p31, p41), Val5(p02, p12, p22, p32, p42),
                 Val5(p03, p13, p23, p33, p43), Val5(p04, p14, p24, p34, p44))
         == Val5(p00 + 19 * p14 + 19 * p23 + 19 * p32 + 19 * p41,
                 p01 + p10 + 19 * p24 + 19 * p33 + 19 * p42,
                 p02 + p11 + p20 + 19 * p34 + 19 * p43,
                 p03 + p12 + p21 + p30 + 19 * p44,
                 p04 + p13 + p22 + p31 + p40)
            + P_DIGITS * Val5(p14 + p23 + p32 + p41, p24 + p33 + p42, p34 + p43, p44, 0)
  {
  }

  lemma FoldedDifference(a0: int, a1: int, a2: int, a3: int, a4: int, b0: int, b1: int, b2: int, b3: int, b4: int)
    returns (k: int)
    ensures Val5(a0, a1, a2, a3, a4) * Val5(b0, b1, b2, b3, b4) ==
            Folded(a0, a1, a2, a3, a4, b0, b1, b2, b3, b4) + P * k
  {
    PValue();
    DistributeRight(Val5(a0, a1, a2, a3, a4), b0, b1, b2, b3, b4);
    DistributeLeft(a0, a1, a2, a3, a4, b0);
    DistributeLeft(a0, a1, a2, a3, a4, b1);
    DistributeLeft(a0, a1, a2, a3, a4, b2);
    DistributeLeft(a0, a1, a2, a3, a4, b3);
    DistributeLeft(a0, a1, a2, a3, a4, b4);
    FoldIdentity(a0 * b0, a0 * b1, a0 * b2, a0 * b3, a0 * b4,
                 a1 * b0, a1 * b1, a1 * b2, a1 * b3, a1 * b4,
                 a2 * b0, a2 * b1, a2 * b2, a2 * b3, a2 * b4,
                 a3 * b0, a3 * b1, a3 * b2, a3 * b3, a3 * b4,
                 a4 * b0, a4 * b1, a4 * b2, a4 * b3, a4 * b4);
    k := Val5(a1 * b4 + a2 * b3 + a3 * b2 + a4 * b1, a2 * b4 + a3 * b3 + a4 * b2, a3 * b4 + a4 * b3, a4 * b4, 0);
  }

  lemma FoldedProduct(a0: int, a1: int, a2: int, a3: int, a4: int, b0: int, b1: int, b2: int, b3: int, b4: int)
    ensures (Val5(a0, a1, a2, a3, a4) * Val5(b0, b1, b2, b3, b4)) % P ==
            Folded(a0, a1, a2, a3, a4, b0, b1, b2, b3, b4) % P
  {
    var k := FoldedDifference(a0, a1, a2, a3, a4, b0, b1, b2, b3, b4);
    ModEqual(Val5(a0, a1, a2, a3, a4) * Val5(b0, b1, b2, b3, b4), Folded(a0, a1, a2, a3, a4, b0, b1, b2, b3, b4), k, P);
  }

  lemma ProductBound(x: int, y: int)
    requires 0 <= x < TWO54 && 0 <= y < TWO54
    ensures 0 <= x * y <= TWO108
    ensures x * (y * 19) == 19 * (x * y)
  {
    assert x * y <= x * TWO54 <= TWO54 * TWO54;
  }

  lemma RowBound(x: int, b0: int, b1: int, b2: int, b3: int, b4: int)
    requires 0 <= x < TWO54
    requires 0 <= b0 < TWO54 && 0 <= b1 < TWO54 && 0 <= b2 < TWO54 && 0 <= b3 < TWO54 && 0 <= b4 < TWO54
    ensures forall y :: y == b0 || y == b1 || y == b2 || y == b3 || y == b4 ==>
      0 <= x * y <= TWO108 && x * (y * 19) == 19 * (x * y)
  {
    ProductBound(x, b0);
    ProductBound(x, b1);
    ProductBound(x, b2);
    ProductBound(x, b3);
    ProductBound(x, b4);
  }

  lemma CarryDifference(t0: int, t1: int, t2: int, t3: int, t4: int, u1: int, u2: int, u3: int, u4: int, v0: int)
    requires u1 == t1 + t0 / TWO51 && u2 == t2 + u1 / TWO51 && u3 == t3 + u2 / TWO51 && u4 == t4 + u3 / TWO51
    requires v0 == t0 % TWO51 + u4 / TWO51 * 19
    ensures Val5(t0, t1, t2, t3, t4)
         == Val5(v0 % TWO51, u1 % TWO51 + v0 / TWO51, u2 % TWO51, u3 % TWO51, u4 % TWO51) + P_DIGITS * (u4 / TWO51)
  {
  }

  /** Carrying five columns and folding the last carry back by 19 keeps the element. */
  lemma CarryColumns(t0: int, t1: int, t2: int, t3: int, t4: int, u1: int, u2: int, u3: int, u4: int, v0: int)
    requires u1 == t1 + t0 / TWO51 && u2 == t2 + u1 / TWO51 && u3 == t3 + u2 / TWO51 && u4 == t4 + u3 / TWO51
    requires v0 == t0 % TWO51 + u4 / TWO51 * 19
    ensures Val5(t0, t1, t2, t3, t4) % P
         == Val5(v0 % TWO51, u1 % TWO51 + v0 / TWO51, u2 % TWO51, u3 % TWO51, u4 % TWO51) % P
  {
    hide Val5;
    PValue();
    CarryDifference(t0, t1, t2, t3, t4, u1, u2, u3, u4, v0);
    ModEqual(Val5(t0, t1, t2, t3, t4),
             Val5(v0 % TWO51, u1 % TWO51 + v0 / TWO51, u2 % TWO51, u3 % TWO51, u4 % TWO51), u4 / TWO51, P);
  }

  method Columns(a0: int, a1: int, a2: int, a3: int, a4: int, b0: int, b1: int, b2: int, b3: int, b4: int)
    returns (t0: u128, t1: u128, t2: u128, t3: u128, t4: u128)
    requires 0 <= a0 < TWO54 && 0 <= a1 < TWO54 && 0 <= a2 < TWO54 && 0 <= a3 < TWO54 && 0 <= a4 < TWO54
    requires 0 <= b0 < TWO54 && 0 <= b1 < TWO54 && 0 <= b2 < TWO54 && 0 <= b3 < TWO54 && 0 <= b4 < TWO54
    ensures t0 <= 77 * TWO108
    ensures t1 <= 59 * TWO108
    ensures t2 <= 41 * TWO108
    ensures t3 <= 23 * TWO108
    ensures t4 <= 5 * TWO108
    ensures (Val5(a0, a1, a2, a3, a4) * Val5(b0, b1, b2, b3, b4)) % P == Val5(t0, t1, t2, t3, t4) % P
    ensures b0 == 1 && b1 == b2 == b3 == b4 == 0 ==> t0 == a0 && t1 == a1 && t2 == a2 && t3 == a3 && t4 == a4
  {
    FoldedProduct(a0, a1, a2, a3, a4, b0, b1, b2, b3, b4);
    RowBound(a0, b0, b1, b2, b3, b4);
    RowBound(a1, b0, b1, b2, b3, b4);
    RowBound(a2, b0, b1, b2, b3, b4);
    RowBound(a3, b0, b1, b2, b3, b4);
    RowBound(a4, b0, b1, b2, b3, b4);
    var x1: u64, x2: u64, x3: u64, x4: u64 := b1 * 19, b2 * 19, b3 * 19, b4 * 19;
    var b1_19: int, b2_19: int, b3_19: int, b4_19: int := x1, x2, x3, x4;
    t0 := a0 * b0 + a4 * b1_19 + a3 * b2_19 + a2 * b3_19 + a1 * b4_19;
    t1 := a1 * b0 + a0 * b1 + a4 * b2_19 + a3 * b3_19 + a2 * b4_19;
    t2 := a2 * b0 + a1 * b1 + a0 * b2 + a4 * b3_19 + a3 * b4_19;
    t3 := a3 * b0 + a2 * b1 + a1 * b2 + a0 * b3 + a4 * b4_19;
    t4 := a4 * b0 + a3 * b1 + a2 * b2 + a1 * b3 + a0 * b4;
    TimesOne(a0, a1, a2, a3, a4, b0, b1, b2, b3, b4, b1_19, b2_19, b3_19, b4_19);
  }

  lemma TimesOne(a0: int, a1: int, a2: int, a3: int, a4: int, b0: int, b1: int, b2: int, b3: int, b4: int,
                 c1: int, c2: int, c3: int, c4: int)
    requires c1 == b1 * 19 && c2 == b2 * 19 && c3 == b3 * 19 && c4 == b4 * 19
    ensures b0 == 1 && b1 == b2 == b3 == b4 == 0 ==>
              a0 * b0 + a4 * c1 + a3 * c2 + a2 * c3 + a1 * c4 == a0 &&
              a1 * b0 + a0 * b1 + a4 * c2 + a3 * c3 + a2 * c4 == a1 &&
              a2 * b0 + a1 * b1 + a0 * b2 + a4 * c3 + a3 * c4 == a2 &&
              a3 * b0 + a2 * b1 + a1 * b2 + a0 * b3 + a4 * c4 == a3 &&
              a4 * b0 + a3 * b1 + a2 * b2 + a1 * b3 + a0 * b4 == a4
  {
  }

  /** The carries fit their words and the limbs come out below 2^51, limb 1 by 2^13 more at most. */
  lemma CarryBounds(t0: int, t1: int, t2: int, t3: int, t4: int, u1: int, u2: int, u3: int, u4: int, v0: int)
    requires 0 <= t0 <= 77 * TWO108 && 0 <= t1 <= 59 * TWO108 && 0 <= t2 <= 41 * TWO108
    requires 0 <= t3 <= 23 * TWO108 && 0 <= t4 <= 5 * TWO108
    requires u1 == t1 + t0 / TWO51 && u2 == t2 + u1 / TWO51 && u3 == t3 + u2 / TWO51 && u4 == t4 + u3 / TWO51
    requires v0 == t0 % TWO51 + u4 / TWO51 * 19
    ensures 0 <= t0 / TWO51 < TWO64 && 0 <= u1 < 60 * TWO108
    ensures 0 <= u1 / TWO51 < TWO64 && 0 <= u2 < 42 * TWO108
    ensures 0 <= u2 / TWO51 < TWO64 && 0 <= u3 < 24 * TWO108
    ensures 0 <= u3 / TWO51 < TWO64 && 0 <= u4 < 6 * TWO108
    ensures 0 <= u4 / TWO51 <= 0xC00_0000_0000_0000 && 0 <= v0 < TWO64 && v0 / TWO51 < 0x2000
  {
  }

  method Reduce(c0: u128, c1: u128, c2: u128, c3: u128, c4: u128)
    returns (r0: u64, r1: u64, r2: u64, r3: u64, r4: u64)
    requires c0 <= 77 * TWO108 && c1 <= 59 * TWO108 && c2 <= 41 * TWO108 && c3 <= 23 * TWO108 && c4 <= 5 * TWO108
    ensures Tight([r0, r1, r2, r3, r4])
    ensures Elem([r0, r1, r2, r3, r4]) == Val5(c0, c1, c2, c3, c4) % P
    ensures c0 < TWO51 && c1 < TWO51 && c2 < TWO51 && c3 < TWO51 && c4 < TWO51 ==>
              r0 == c0 && r1 == c1 && r2 == c2 && r3 == c3 && r4 == c4
  {
    ghost var u1: int := c1 + c0 / TWO51;
    ghost var u2: int := c2 + u1 / TWO51;
    ghost var u3: int := c3 + u2 / TWO51;
    ghost var u4: int := c4 + u3 / TWO51;
    ghost var v0: int := c0 % TWO51 + u4 / TWO51 * 19;
    CarryBounds(c0, c1, c2, c3, c4, u1, u2, u3, u4, v0);
    var c: u64 := c0 / TWO51;
    r0 := c0 % TWO51;
    var t1: u128 := c1 + c;
    assert t1 == u1;
    c := t1 / TWO51;
    r1 := t1 % TWO51;
    var t2: u128 := c2 + c;
    assert t2 == u2;
    c := t2 / TWO51;
    r2 := t2 % TWO51;
    var t3: u128 := c3 + c;
    assert t3 == u3;
    c := t3 / TWO51;
    r3 := t3 % TWO51;
    var t4: u128 := c4 + c;
    assert t4 == u4;
    c := t4 / TWO51;
    r4 := t4 % TWO51;
    r0 := r0 + c * 19;
    assert r0 == v0;
    c := r0 / TWO51;
    r0 := r0 % TWO51;
    r1 := r1 + c;
    CarryResult(c0, c1, c2, c3, c4, u1, u2, u3, u4, v0, [r0, r1, r2, r3, r4]);
    if c0 < TWO51 && c1 < TWO51 && c2 < TWO51 && c3 < TWO51 && c4 < TWO51 {
      NothingCarried(c0, c1, c2, c3, c4, u1, u2, u3, u4, v0);
    }
  }

  lemma SmallCarry(x: int)
    requires 0 <= x < TWO51
    ensures x / TWO51 == 0 && x % TWO51 == x
  {
  }

  lemma NothingCarried(t0: int, t1: int, t2: int, t3: int, t4: int, u1: int, u2: int, u3: int, u4: int, v0: int)
    requires 0 <= t0 < TWO51 && 0 <= t1 < TWO51 && 0 <= t2 < TWO51 && 0 <= t3 < TWO51 && 0 <= t4 < TWO51
    requires u1 == t1 + t0 / TWO51 && u2 == t2 + u1 / TWO51 && u3 == t3 + u2 / TWO51 && u4 == t4 + u3 / TWO51
    requires v0 == t0 % TWO51 + u4 / TWO51 * 19
    ensures v0 % TWO51 == t0 && u1 % TWO51 + v0 / TWO51 == t1
    ensures u2 % TWO51 == t2 && u3 % TWO51 == t3 && u4 % TWO51 == t4
  {
    SmallCarry(t0);
    SmallCarry(t1);
    SmallCarry(t2);
    SmallCarry(t3);
    SmallCarry(t4);
  }

  lemma CarryResult(t0: int, t1: int, t2: int, t3: int, t4: int, u1: int, u2: int, u3: int, u4: int, v0: int, h: Limbs)
    requires u1 == t1 + t0 / TWO51 && u2 == t2 + u1 / TWO51 && u3 == t3 + u2 / TWO51 && u4 == t4 + u3 / TWO51
    requires v0 == t0 % TWO51 + u4 / TWO51 * 19 && v0 / TWO51 < 0x2000
    requires h[0] == v0 % TWO51 && h[1] == u1 % TWO51 + v0 / TWO51
    requires h[2] == u2 % TWO51 && h[3] == u3 % TWO51 && h[4] == u4 % TWO51
    ensures Tight(h) && Elem(h) == Val5(t0, t1, t2, t3, t4) % P
  {
    CarryColumns(t0, t1, t2, t3, t4, u1, u2, u3, u4, v0);
  }

  const ONE: Limbs := [1, 0, 0, 0, 0]

  /** The product; multiplied by one, limbs below 2^51 stay as they are. */
  method Mul(h: array<u64>, a: array<u64>, b: array<u64>)
    requires h.Length == a.Length == b.Length == 5
    requires Loose(a[..]) && Loose(b[..])
    modifies h
    ensures Tight(h[..])
    ensures Elem(h[..]) == (old(Val(a[..])) * old(Val(b[..]))) % P
    ensures old(b[..]) == ONE && (forall i :: 0 <= i < 5 ==> old(a[..])[i] < TWO51) ==> h[..] == old(a[..])
  {
    ghost var A, B := a[..], b[..];
    assert forall i :: 0 <= i < 5 ==> a[i] == A[i] && b[i] == B[i];
    var t0, t1, t2, t3, t4 := Columns(a[0], a[1], a[2], a[3], a[4], b[0], b[1], b[2], b[3], b[4]);
    var r0, r1, r2, r3, r4 := Reduce(t0, t1, t2, t3, t4);
    h[0], h[1], h[2], h[3], h[4] := r0, r1, r2, r3, r4;
    assert h[..] == [r0, r1, r2, r3, r4];
  }

  method Square(h: array<u64>, a: array<u64>)
    requires h.Length == a.Length == 5
    requires Loose(a[..])
    modifies h
    ensures Tight(h[..])
    ensures Elem(h[..]) == (old(Val(a[..])) * old(Val(a[..]))) % P
  {
    Mul(h, a, a);
  }

  method Mul121666(h: array<u64>, a: array<u64>)
    requires h.Length == a.Length == 5
    requires Loose(a[..])
    modifies h
    ensures Tight(h[..])
    ensures Elem(h[..]) == (121666 * old(Val(a[..]))) % P
  {
    ghost var A := a[..];
    assert forall i :: 0 <= i < 5 ==> a[i] == A[i];
    var a0: int, a1: int, a2: int, a3: int, a4: int := a[0], a[1], a[2], a[3], a[4];
    var r0, r1, r2, r3, r4 := Reduce(a0 * 121666, a1 * 121666, a2 * 121666, a3 * 121666, a4 * 121666);
    assert Val5(a0 * 121666, a1 * 121666, a2 * 121666, a3 * 121666, a4 * 121666) == 121666 * Val(A);
    h[0], h[1], h[2], h[3], h[4] := r0, r1, r2, r3, r4;
    assert h[..] == [r0, r1, r2, r3, r4];
  }

  // ----- sums and differences

  /** The limbs of 2p, added before subtracting so that no limb goes below zero. */
  const TWO_P: Limbs := [0xF_FFFF_FFFF_FFDA, 0xF_FFFF_FFFF_FFFE, 0xF_FFFF_FFFF_FFFE, 0xF_FFFF_FFFF_FFFE,
                         0xF_FFFF_FFFF_FFFE]

  lemma TwoPIsTwiceP()
    ensures Val(TWO_P) == 2 * P
  {
    PValue();
  }

  method Add(h: array<u64>, a: array<u64>, b: array<u64>)
    requires h.Length == a.Length == b.Length == 5
    requires forall i :: 0 <= i < 5 ==> a[i] as int + b[i] as int < TWO64
    modifies h
    ensures forall i :: 0 <= i < 5 ==> h[i] as int == old(a[i]) as int + old(b[i]) as int
    ensures Val(h[..]) == old(Val(a[..])) + old(Val(b[..]))
  {
    for i := 0 to 5
      invariant forall j :: 0 <= j < i ==> h[j] as int == old(a[j]) as int + old(b[j]) as int
      invariant forall j :: i <= j < 5 ==> a[j] == old(a[j]) && b[j] == old(b[j])
    {
      var x: int, y: int := a[i], b[i];
      h[i] := x + y;
    }
  }

  method Sub(h: array<u64>, a: array<u64>, b: array<u64>)
    requires h.Length == a.Length == b.Length == 5
    requires forall i :: 0 <= i < 5 ==> b[i] as int <= a[i] as int + TWO_P[i] as int < TWO64
    modifies h
    ensures forall i :: 0 <= i < 5 ==> h[i] as int == old(a[i]) as int + TWO_P[i] as int - old(b[i]) as int
    ensures Val(h[..]) == old(Val(a[..])) + 2 * P - old(Val(b[..]))
  {
    for i := 0 to 5
      invariant forall j :: 0 <= j < i ==> h[j] as int == old(a[j]) as int + TWO_P[j] as int - old(b[j]) as int
      invariant forall j :: i <= j < 5 ==> a[j] == old(a[j]) && b[j] == old(b[j])
    {
      var x: int, y: int, p: int := a[i], b[i], TWO_P[i];
      h[i] := x + p - y;
    }
    TwoPIsTwiceP();
  }

  // ----- conditional swap

  /** One limb of the masked exchange: x = (a ^ b) & m, then a ^= x and b ^= x. */
  lemma MaskedExchange(a: u64, b: u64, m: nat)
    requires m == 0 || m == Pow2(64) - 1
    ensures var x := And(Xor(a, b), m);
            Xor(a, x) == (if m == 0 then a else b) && Xor(b, x) == (if m == 0 then b else a)
  {
    Pow2Of64();
    if m == 0 {
    } else {
      XorBound(a, b, 64);
      AndOnes(Xor(a, b), 64);
      XorCancel(a, b);
      XorComm(a, b);
      XorCancel(b, a);
    }
  }

  method ExchangeLimb(a: u64, b: u64, m: u64) returns (a': u64, b': u64)
    requires m as int == 0 || m as int == TWO64 - 1
    ensures a' == (if m == 0 then a else b) && b' == (if m == 0 then b else a)
  {
    Pow2Of64();
    MaskedExchange(a, b, m);
    var x := And(Xor(a, b), m);
    a', b' := Xor(a, x), Xor(b, x);
  }

  method CondSwap(a: array<u64>, b: array<u64>, sw: u64)
    requires a.Length == b.Length == 5 && a != b
    modifies a, b
    ensures a[..] == old(if sw % 2 == 1 then b[..] else a[..])
    ensures b[..] == old(if sw % 2 == 1 then a[..] else b[..])
  {
    var m: u64 := (TWO64 - sw as int % 2) % TWO64;
    for i := 0 to 5
      invariant forall j :: 0 <= j < i ==> a[j] == old(if sw % 2 == 1 then b[j] else a[j])
      invariant forall j :: 0 <= j < i ==> b[j] == old(if sw % 2 == 1 then a[j] else b[j])
      invariant forall j :: i <= j < 5 ==> a[j] == old(a[j]) && b[j] == old(b[j])
    {
      a[i], b[i] := ExchangeLimb(a[i], b[i], m);
    }
  }
}
