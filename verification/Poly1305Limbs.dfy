/** One block of Poly1305 on five 26-bit limbs: `BlockLimbs` is the limb computation, and
    `BlockMeaning` says which product modulo 2^130 - 5 it is. */
module Poly1305Limbs {
  import opened Words
  import opened Bits
  import opened LittleEndian
  import opened Modular

  const P: int := 0x3fffffffffffffffffffffffffffffffb
  const TWO26: int := 0x400_0000

  type Limbs = s: seq<u32> | |s| == 5 witness [0, 0, 0, 0, 0]

  function Val5(a0: int, a1: int, a2: int, a3: int, a4: int): int {
    a0 + 0x4000000 * a1 + 0x10000000000000 * a2 + 0x40000000000000000000 * a3 + 0x100000000000000000000000000 * a4
  }

  function Val(h: Limbs): (v: nat) {
    Val5(h[0], h[1], h[2], h[3], h[4])
  }

  /** What the accumulator limbs stay within between blocks. */
  predicate Accumulator(h: Limbs) {
    h[0] < TWO26 && h[1] < TWO26 + 64 && h[2] < TWO26 && h[3] < TWO26 && h[4] < TWO26
  }

  /** What clamping leaves of the multiplier. */
  predicate Clamped(r: Limbs) {
    r[0] < TWO26 && r[1] <= 0x3ffff03 && r[2] <= 0x3ffc0ff && r[3] <= 0x3f03fff && r[4] <= 0xfffff
  }

  // ----- cutting 16 bytes into limbs

  /** The top limb with the bit above the block set or not. */
  function TopLimb(x: nat, hibit: nat): (t: nat)
    requires x < 0x100_0000 && hibit < 2
    ensures t == x + 0x100_0000 * hibit < TWO26
  {
    Pow2Bytes();
    OrShifted(x, hibit, 24, 0x100_0000);
    Or(x, hibit * 0x100_0000)
  }

  /** The limbs of a 16-byte block with `hibit` above them. */
  function BlockWords(m: bytes, hibit: nat): (w: Limbs)
    requires |m| == 16 && hibit < 2
    ensures forall i :: 0 <= i < 5 ==> w[i] < TWO26
    ensures Val(w) == LE(m) + 0x100000000000000000000000000000000 * hibit
  {
    CutBlock(m);
    var w0, w1, w2, w3, w4 := Load32(m, 0), Load32(m, 3), Load32(m, 6), Load32(m, 9), Load32(m, 12);
    [w0 as int % TWO26, w1 as int / 4 % TWO26, w2 as int / 16 % TWO26, w3 as int / 64 % TWO26,
     TopLimb(w4 as int / 0x100, hibit)]
  }

  lemma CutBlock(m: bytes)
    requires |m| == 16
    ensures Val5(Load32(m, 0) as int % TWO26, Load32(m, 3) as int / 4 % TWO26, Load32(m, 6) as int / 16 % TWO26,
                 Load32(m, 9) as int / 64 % TWO26, Load32(m, 12) as int / 0x100) == LE(m)
    ensures Load32(m, 12) as int / 0x100 < 0x100_0000
  {
    hide LE;
    Cut0(m[0], m[1], m[2], m[3]);
    Cut1(m[3], m[4], m[5], m[6]);
    Cut2(m[6], m[7], m[8], m[9]);
    Cut3(m[9], m[10], m[11], m[12]);
    Cut4(m[12], m[13], m[14], m[15]);
    LESixteen(m);
  }

  lemma LESixteen(m: bytes)
    requires |m| == 16
    ensures LE(m) == Word(m[0], m[1], m[2], m[3]) + 0x100000000 * Word(m[4], m[5], m[6], m[7])
                     + 0x10000000000000000 * Word(m[8], m[9], m[10], m[11])
                     + 0x1000000000000000000000000 * Word(m[12], m[13], m[14], m[15])
  {
    LETail4(m, 0);
    LETail4(m, 4);
    LETail4(m, 8);
    LETail4(m, 12);
    assert m[0..] == m && m[16..] == [];
  }

  lemma LETail4(m: bytes, i: nat)
    requires i + 4 <= |m|
    ensures LE(m[i..]) == Word(m[i], m[i + 1], m[i + 2], m[i + 3]) + 0x100000000 * LE(m[i + 4..])
  {
    LEHead4(m[i..]);
    assert m[i..][4..] == m[i + 4..];
  }

  lemma Cut0(a: int, b: int, c: int, d: int)
    requires 0 <= a < 256 && 0 <= b < 256 && 0 <= c < 256 && 0 <= d < 256
    ensures Word(a, b, c, d) % TWO26 == a + 0x100 * b + 0x1_0000 * c + 0x100_0000 * (d % 4)
  {
    assert Word(a, b, c, d) == (a + 0x100 * b + 0x1_0000 * c) + d * 0x100_0000;
    MaskJoined(a + 0x100 * b + 0x1_0000 * c, d, 0x100_0000, 4, TWO26);
  }

  lemma Cut1(a: int, b: int, c: int, d: int)
    requires 0 <= a < 256 && 0 <= b < 256 && 0 <= c < 256 && 0 <= d < 256
    ensures Word(a, b, c, d) / 4 % TWO26 == a / 4 + 0x40 * b + 0x4000 * c + 0x40_0000 * (d % 16)
  {
    assert Word(a, b, c, d) / 4 == (a / 4 + 0x40 * b + 0x4000 * c) + d * 0x40_0000;
    MaskJoined(a / 4 + 0x40 * b + 0x4000 * c, d, 0x40_0000, 16, TWO26);
  }

  lemma Cut2(a: int, b: int, c: int, d: int)
    requires 0 <= a < 256 && 0 <= b < 256 && 0 <= c < 256 && 0 <= d < 256
    ensures Word(a, b, c, d) / 16 % TWO26 == a / 16 + 0x10 * b + 0x1000 * c + 0x10_0000 * (d % 64)
  {
    assert Word(a, b, c, d) / 16 == (a / 16 + 0x10 * b + 0x1000 * c) + d * 0x10_0000;
    MaskJoined(a / 16 + 0x10 * b + 0x1000 * c, d, 0x10_0000, 64, TWO26);
  }

  lemma Cut3(a: int, b: int, c: int, d: int)
    requires 0 <= a < 256 && 0 <= b < 256 && 0 <= c < 256 && 0 <= d < 256
    ensures Word(a, b, c, d) / 64 % TWO26 == a / 64 + 4 * b + 0x400 * c + 0x4_0000 * d
  {
  }

  lemma Cut4(a: int, b: int, c: int, d: int)
    requires 0 <= a < 256 && 0 <= b < 256 && 0 <= c < 256 && 0 <= d < 256
    ensures Word(a, b, c, d) / 0x100 == b + 0x100 * c + 0x1_0000 * d < 0x100_0000
  {
  }

  // ----- the product of a block

  lemma FoldIdentity(
    p00: int, p01: int, p02: int, p03: int, p04: int,
    p10: int, p11: int, p12: int, p13: int, p14: int,
    p20: int, p21: int, p22: int, p23: int, p24: int,
    p30: int, p31: int, p32: int, p33: int, p34: int,
    p40: int, p41: int, p42: int, p43: int, p44: int)
    ensures Val5(Val5(p00, p10, p20, p30, p40), Val5(p01, p11, p21, p31, p41), Val5(p02, p12, p22, p32, p42),
                 Val5(p03, p13, p23, p33, p43), Val5(p04, p14, p24, p34, p44))
         == Val5(p00 + 5 * p14 + 5 * p23 + 5 * p32 + 5 * p41,
                 p01 + p10 + 5 * p24 + 5 * p33 + 5 * p42,
                 p02 + p11 + p20 + 5 * p34 + 5 * p43,
                 p03 + p12 + p21 + p30 + 5 * p44,
                 p04 + p13 + p22 + p31 + p40)
            + P * Val5(p14 + p23 + p32 + p41, p24 + p33 + p42, p34 + p43, p44, 0)
  {
  }

  lemma DistributeRight(x: int, b0: int, b1: int, b2: int, b3: int, b4: int)
    ensures x * Val5(b0, b1, b2, b3, b4) == Val5(x * b0, x * b1, x * b2, x * b3, x * b4)
  {
  }

  lemma DistributeLeft(a0: int, a1: int, a2: int, a3: int, a4: int, y: int)
    ensures Val5(a0, a1, a2, a3, a4) * y == Val5(a0 * y, a1 * y, a2 * y, a3 * y, a4 * y)
  {
  }

  /** A sum of five products of 32-bit words. */
  function Column(a0: int, b0: int, a1: int, b1: int, a2: int, b2: int, a3: int, b3: int, a4: int, b4: int): int {
    a0 * b0 + a1 * b1 + a2 * b2 + a3 * b3 + a4 * b4
  }

  /** The five columns of h * r, with the part from 2^130 up replaced by 5 times itself. */
  function D0(h: Limbs, r: Limbs): nat {
    h[0] as int * r[0] as int + h[1] as int * (r[4] as int * 5) + h[2] as int * (r[3] as int * 5)
    + h[3] as int * (r[2] as int * 5) + h[4] as int * (r[1] as int * 5)
  }

  function D1(h: Limbs, r: Limbs): nat {
    h[0] as int * r[1] as int + h[1] as int * r[0] as int + h[2] as int * (r[4] as int * 5)
    + h[3] as int * (r[3] as int * 5) + h[4] as int * (r[2] as int * 5)
  }

  function D2(h: Limbs, r: Limbs): nat {
    h[0] as int * r[2] as int + h[1] as int * r[1] as int + h[2] as int * r[0] as int
    + h[3] as int * (r[4] as int * 5) + h[4] as int * (r[3] as int * 5)
  }

  function D3(h: Limbs, r: Limbs): nat {
    h[0] as int * r[3] as int + h[1] as int * r[2] as int + h[2] as int * r[1] as int
    + h[3] as int * r[0] as int + h[4] as int * (r[4] as int * 5)
  }

  function D4(h: Limbs, r: Limbs): nat {
    h[0] as int * r[4] as int + h[1] as int * r[3] as int + h[2] as int * r[2] as int
    + h[3] as int * r[1] as int + h[4] as int * r[0] as int
  }

  lemma FiveColumnsOf(h: Limbs, r: Limbs, s1: u32, s2: u32, s3: u32, s4: u32)
    requires s1 == r[1] as int * 5 && s2 == r[2] as int * 5 && s3 == r[3] as int * 5 && s4 == r[4] as int * 5
    ensures D0(h, r) == Column(h[0], r[0], h[1], s4, h[2], s3, h[3], s2, h[4], s1)
    ensures D1(h, r) == Column(h[0], r[1], h[1], r[0], h[2], s4, h[3], s3, h[4], s2)
    ensures D2(h, r) == Column(h[0], r[2], h[1], r[1], h[2], r[0], h[3], s4, h[4], s3)
    ensures D3(h, r) == Column(h[0], r[3], h[1], r[2], h[2], r[1], h[3], r[0], h[4], s4)
    ensures D4(h, r) == Column(h[0], r[4], h[1], r[3], h[2], r[2], h[3], r[1], h[4], r[0])
  {
  }

  /** The columns represent the product up to a multiple of p. */
  lemma BlockProduct(h: Limbs, r: Limbs) returns (k: int)
    ensures Val(h) * Val(r) == Val5(D0(h, r), D1(h, r), D2(h, r), D3(h, r), D4(h, r)) + P * k
  {
    var h0: int, h1: int, h2: int, h3: int, h4: int := h[0], h[1], h[2], h[3], h[4];
    var r0: int, r1: int, r2: int, r3: int, r4: int := r[0], r[1], r[2], r[3], r[4];
    DistributeRight(Val(h), r0, r1, r2, r3, r4);
    DistributeLeft(h0, h1, h2, h3, h4, r0);
    DistributeLeft(h0, h1, h2, h3, h4, r1);
    DistributeLeft(h0, h1, h2, h3, h4, r2);
    DistributeLeft(h0, h1, h2, h3, h4, r3);
    DistributeLeft(h0, h1, h2, h3, h4, r4);
    FoldIdentity(h0 * r0, h0 * r1, h0 * r2, h0 * r3, h0 * r4,
                 h1 * r0, h1 * r1, h1 * r2, h1 * r3, h1 * r4,
                 h2 * r0, h2 * r1, h2 * r2, h2 * r3, h2 * r4,
                 h3 * r0, h3 * r1, h3 * r2, h3 * r3, h3 * r4,
                 h4 * r0, h4 * r1, h4 * r2, h4 * r3, h4 * r4);
    FiveColumns(h, r);
    k := Val5(h1 * r4 + h2 * r3 + h3 * r2 + h4 * r1, h2 * r4 + h3 * r3 + h4 * r2, h3 * r4 + h4 * r3, h4 * r4, 0);
  }

  lemma FiveTimes(x: int, y: int)
    ensures x * (y * 5) == 5 * (x * y)
  {
  }

  lemma FiveColumns(h: Limbs, r: Limbs)
    ensures forall i, j :: 0 <= i < 5 && 0 <= j < 5 ==>
            h[i] as int * (r[j] as int * 5) == 5 * (h[i] as int * r[j] as int)
  {
    forall i, j | 0 <= i < 5 && 0 <= j < 5
      ensures h[i] as int * (r[j] as int * 5) == 5 * (h[i] as int * r[j] as int)
    {
      FiveTimes(h[i], r[j]);
    }
  }

  /** The largest value a column reaches. */
  const COLUMN_MAX: int := 21 * 0x800_0040 * TWO26

  lemma TermBound(x: int, y: int)
    requires 0 <= x <= 0x800_0040 && 0 <= y < TWO26
    ensures 0 <= x * y <= 0x800_0040 * TWO26
    ensures 0 <= x * (y * 5) <= 5 * 0x800_0040 * TWO26
  {
    MulMonotone(x, y, TWO26);
    MulMonotone(TWO26, x, 0x800_0040);
    FiveTimes(x, y);
  }

  lemma RowBound(x: int, r: Limbs)
    requires 0 <= x <= 0x800_0040 && forall i :: 0 <= i < 5 ==> r[i] < TWO26
    ensures forall i :: 0 <= i < 5 ==> 0 <= x * r[i] as int <= 0x800_0040 * TWO26
    ensures forall i :: 0 <= i < 5 ==> 0 <= x * (r[i] as int * 5) <= 5 * 0x800_0040 * TWO26
  {
    forall i | 0 <= i < 5
      ensures 0 <= x * r[i] as int <= 0x800_0040 * TWO26
      ensures 0 <= x * (r[i] as int * 5) <= 5 * 0x800_0040 * TWO26
    {
      TermBound(x, r[i]);
    }
  }

  lemma ColumnBounds(h: Limbs, r: Limbs)
    requires forall i :: 0 <= i < 5 ==> h[i] <= 0x800_0040 && r[i] < TWO26
    ensures D0(h, r) <= COLUMN_MAX && D1(h, r) <= COLUMN_MAX && D2(h, r) <= COLUMN_MAX
    ensures D3(h, r) <= COLUMN_MAX && D4(h, r) <= 5 * 0x800_0040 * TWO26
  {
    RowBound(h[0], r);
    RowBound(h[1], r);
    RowBound(h[2], r);
    RowBound(h[3], r);
    RowBound(h[4], r);
  }

  // ----- carrying

  /** The carry chain that ends a block; all words fit the types of the C code. */
  function Reduce(d0: nat, d1: nat, d2: nat, d3: nat, d4: nat): (o: Limbs)
    requires d0 <= COLUMN_MAX && d1 <= COLUMN_MAX && d2 <= COLUMN_MAX && d3 <= COLUMN_MAX
    requires d4 <= 5 * 0x800_0040 * TWO26
    ensures Accumulator(o)
    ensures Val(o) % P == Val5(d0, d1, d2, d3, d4) % P
  {
    var c0: u32 := d0 / TWO26;
    var e1: u64 := d1 + c0;
    var c1: u32 := e1 as int / TWO26;
    var e2: u64 := d2 + c1;
    var c2: u32 := e2 as int / TWO26;
    var e3: u64 := d3 + c2;
    var c3: u32 := e3 as int / TWO26;
    var e4: u64 := d4 + c3;
    var c4: u32 := e4 as int / TWO26;
    var h0: u32 := d0 % TWO26 + c4 as int * 5;
    CarryValue(d0, d1, d2, d3, d4, e1, e2, e3, e4, h0);
    [h0 as int % TWO26, e1 as int % TWO26 + h0 as int / TWO26, e2 as int % TWO26, e3 as int % TWO26, e4 as int % TWO26]
  }

  lemma CarryValue(d0: int, d1: int, d2: int, d3: int, d4: int, e1: int, e2: int, e3: int, e4: int, h0: int)
    requires e1 == d1 + d0 / TWO26 && e2 == d2 + e1 / TWO26 && e3 == d3 + e2 / TWO26 && e4 == d4 + e3 / TWO26
    requires h0 == d0 % TWO26 + e4 / TWO26 * 5
    ensures Val5(h0 % TWO26, e1 % TWO26 + h0 / TWO26, e2 % TWO26, e3 % TWO26, e4 % TWO26) % P
         == Val5(d0, d1, d2, d3, d4) % P
  {
    ModEqual(Val5(d0, d1, d2, d3, d4),
             Val5(h0 % TWO26, e1 % TWO26 + h0 / TWO26, e2 % TWO26, e3 % TWO26, e4 % TWO26), e4 / TWO26, P);
  }

  /** The accumulator with a block added in. */
  function Added(h: Limbs, w: Limbs): (x: Limbs)
    requires Accumulator(h) && forall i :: 0 <= i < 5 ==> w[i] < TWO26
    ensures Val(x) == Val(h) + Val(w)
    ensures forall i :: 0 <= i < 5 ==> x[i] <= 0x800_0040
  {
    [h[0] as int + w[0] as int, h[1] as int + w[1] as int, h[2] as int + w[2] as int,
     h[3] as int + w[3] as int, h[4] as int + w[4] as int]
  }

  /** One block: (h + block) * r, partially reduced. */
  function BlockLimbs(h: Limbs, r: Limbs, m: bytes, hibit: nat): (o: Limbs)
    requires Accumulator(h) && Clamped(r) && |m| == 16 && hibit < 2
    ensures Accumulator(o)
  {
    var x := Added(h, BlockWords(m, hibit));
    BlockFits(x, r);
    Reduce(D0(x, r), D1(x, r), D2(x, r), D3(x, r), D4(x, r))
  }

  /** The integer of a 16-byte block with its high bit. */
  function BlockValue(m: bytes, hibit: nat): nat {
    LE(m) + 0x100000000000000000000000000000000 * hibit
  }

  lemma BlockMeaning(h: Limbs, r: Limbs, m: bytes, hibit: nat)
    requires Accumulator(h) && Clamped(r) && |m| == 16 && hibit < 2
    ensures Val(BlockLimbs(h, r, m, hibit)) % P == ((Val(h) + BlockValue(m, hibit)) * Val(r)) % P
  {
    hide Val, Val5, D0, D1, D2, D3, D4, BlockWords, Added, Reduce, Clamped, LE;
    var x := Added(h, BlockWords(m, hibit));
    BlockFits(x, r);
    var k := BlockProduct(x, r);
    ModEqual(Val(x) * Val(r), Val5(D0(x, r), D1(x, r), D2(x, r), D3(x, r), D4(x, r)), k, P);
  }

  lemma BlockFits(x: Limbs, r: Limbs)
    requires Clamped(r) && forall i :: 0 <= i < 5 ==> x[i] <= 0x800_0040
    ensures D0(x, r) <= COLUMN_MAX && D1(x, r) <= COLUMN_MAX && D2(x, r) <= COLUMN_MAX
    ensures D3(x, r) <= COLUMN_MAX && D4(x, r) <= 5 * 0x800_0040 * TWO26
  {
    ColumnBounds(x, r);
  }
}
