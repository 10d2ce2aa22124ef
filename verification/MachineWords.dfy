/** The 32-bit operations of the cipher are those of machine words. */
module MachineWords {
  import opened Words
  import opened Bits
  import opened Modular
  import opened ChaCha20

  /** The integer that the k low bits of a word stand for. */
  function Low(w: bv32, k: nat): (n: nat)
    ensures n < Pow2(k)
  {
    if k == 0 then 0 else (if w & 1 == 1 then 1 else 0) + 2 * Low(w >> 1, k - 1)
  }

  /** The word as an integer. */
  function Int(w: bv32): (n: u32) {
    Pow2Of64();
    Low(w, 32)
  }

  // ----- exclusive or

  lemma XorHalf(a: bv32, b: bv32)
    ensures (a ^ b) >> 1 == (a >> 1) ^ (b >> 1)
    ensures (a ^ b) & 1 == 1 <==> (a & 1 == 1) != (b & 1 == 1)
  {
  }

  lemma LowHalves(w: bv32, k: nat)
    requires k > 0
    ensures Low(w, k) / 2 == Low(w >> 1, k - 1) && (Low(w, k) % 2 == 1 <==> w & 1 == 1)
  {
  }

  lemma SameHalves(x: nat, y: nat)
    requires x / 2 == y / 2 && (x % 2 == 1 <==> y % 2 == 1)
    ensures x == y
  {
  }

  lemma XorNone(a: bv32, b: bv32)
    ensures Xor(Low(a, 0), Low(b, 0)) == Low(a ^ b, 0)
  {
  }

  lemma {:induction false} XorLow(a: bv32, b: bv32, k: nat)
    ensures Xor(Low(a, k), Low(b, k)) == Low(a ^ b, k)
    decreases k
  {
    if k == 0 {
      XorNone(a, b);
    } else {
      XorLow(a >> 1, b >> 1, k - 1);
      XorHalf(a, b);
      LowHalves(a, k);
      LowHalves(b, k);
      LowHalves(a ^ b, k);
      XorHalves(Low(a, k), Low(b, k));
      hide Xor, Low;
      SameHalves(Xor(Low(a, k), Low(b, k)), Low(a ^ b, k));
    }
  }

  lemma XorWord(a: bv32, b: bv32)
    ensures Xor32(Int(a), Int(b)) == Int(a ^ b)
  {
    XorLow(a, b, 32);
    hide Xor, Low;
  }

  // ----- words that agree in their low bits

  /** The k low bits of the mask are set. */
  predicate Masks(m: bv32, k: nat) {
    k == 0 || (m & 1 == 1 && Masks(m >> 1, k - 1))
  }

  lemma AgreeHalves(x: bv32, y: bv32, m: bv32)
    requires (x ^ y) & m == 0
    ensures ((x >> 1) ^ (y >> 1)) & (m >> 1) == 0
    ensures m & 1 == 1 ==> (x & 1 == 1 <==> y & 1 == 1)
  {
  }

  lemma {:induction false} LowAgrees(x: bv32, y: bv32, m: bv32, k: nat)
    requires Masks(m, k) && (x ^ y) & m == 0
    ensures Low(x, k) == Low(y, k)
    decreases k
  {
    if k > 0 {
      AgreeHalves(x, y, m);
      LowAgrees(x >> 1, y >> 1, m >> 1, k - 1);
    }
  }

  lemma {:induction false} MaskBelow(m: bv32, j: nat, k: nat)
    requires j <= k && Masks(m, k)
    ensures Masks(m, j)
    decreases k
  {
    if j > 0 {
      MaskBelow(m >> 1, j - 1, k - 1);
    }
  }

  lemma MaskMore(m: bv32, k: nat)
    requires Masks(m >> 4, k) && m & 15 == 15
    ensures Masks(m, k + 4)
  {
    assert (m >> 3) >> 1 == m >> 4 && (m >> 3) & 1 == 1;
    assert Masks(m >> 3, k + 1);
    assert (m >> 2) >> 1 == m >> 3 && (m >> 2) & 1 == 1;
    assert Masks(m >> 2, k + 2);
    assert (m >> 1) >> 1 == m >> 2 && (m >> 1) & 1 == 1;
    assert Masks(m >> 1, k + 3);
  }

  lemma MaskSmall()
    ensures Masks(0x7, 3)
  {
    assert (0x1 as bv32) >> 1 == 0 && (0x3 as bv32) >> 1 == 1 && (0x7 as bv32) >> 1 == 3;
    assert Masks(0x1, 1);
    assert Masks(0x3, 2);
  }

  // ----- sums

  /** s is a + b, checked bit by bit: c is the word of the carries, as far as the mask reaches. */
  predicate Carries(a: bv32, b: bv32, s: bv32, c: bv32, m: bv32) {
    (s ^ (a ^ b ^ c)) & m == 0 && ((c >> 1) ^ ((a & b) | ((a | b) & !s))) & (m >> 1) == 0
  }

  predicate Adds(a: bv32, b: bv32, s: bv32) {
    var c := a ^ b ^ s;
    c & 1 == 0 && ((c >> 1) ^ ((a & b) | ((a | b) & !s))) & 0x7FFF_FFFF == 0
  }

  lemma AddsCarries(a: bv32, b: bv32, s: bv32)
    requires Adds(a, b, s)
    ensures (a ^ b ^ s) & 1 == 0 && Carries(a, b, s, a ^ b ^ s, 0xFFFF_FFFF)
  {
  }

  function Half(w: bv32): bv32 {
    w >> 1
  }

  function Digit(w: bv32): nat {
    if w & 1 == 1 then 1 else 0
  }

  lemma LowForm(w: bv32, k: nat)
    requires k > 0
    ensures Low(w, k) == Digit(w) + 2 * Low(Half(w), k - 1)
  {
  }

  lemma CarriesHalf(a: bv32, b: bv32, s: bv32, c: bv32, m: bv32)
    requires Carries(a, b, s, c, m)
    ensures Carries(Half(a), Half(b), Half(s), Half(c), Half(m))
  {
  }

  lemma CarriesDigits(a: bv32, b: bv32, s: bv32, c: bv32, m: bv32)
    requires Carries(a, b, s, c, m) && m & 1 == 1
    ensures m & 2 == 2 ==> Digit(a) + Digit(b) + Digit(c) == Digit(s) + 2 * Digit(Half(c))
    ensures (Digit(a) + Digit(b) + Digit(c)) % 2 == Digit(s)
  {
  }

  lemma PowNext(k: nat)
    requires k > 0
    ensures Pow2(k) == 2 * Pow2(k - 1)
  {
  }

  lemma SumStep(x: nat, y: nat, z: nat, d: nat, a: nat, b: nat, s: nat, t: nat, p: nat)
    requires x <= 1 && y <= 1 && z <= 1 && p > 0 && x + y + z == s + 2 * d && s <= 1
    requires (a + b + d) % p == t
    ensures ((x + 2 * a) + (y + 2 * b) + z) % (2 * p) == s + 2 * t
  {
    var q := (a + b + d) / p;
    assert a + b + d == p * q + t;
    assert 2 * (p * q) == (2 * p) * q;
    var u := (x + 2 * a) + (y + 2 * b) + z;
    QuotientUnique(2 * p, q, s + 2 * t, u / (2 * p), u % (2 * p));
  }

  lemma SumNone(a: bv32, b: bv32, s: bv32, c: bv32)
    ensures (Low(a, 0) + Low(b, 0) + Digit(c)) % Pow2(0) == Low(s, 0)
  {
    assert Digit(c) % 1 == 0;
  }

  lemma SumLast(a: bv32, b: bv32, s: bv32, c: bv32, m: bv32)
    requires Carries(a, b, s, c, m) && m & 1 == 1
    ensures (Low(a, 1) + Low(b, 1) + Digit(c)) % Pow2(1) == Low(s, 1)
  {
    CarriesDigits(a, b, s, c, m);
    assert Low(a, 1) == Digit(a) && Low(b, 1) == Digit(b) && Low(s, 1) == Digit(s) && Pow2(1) == 2;
  }

  lemma MaskHalf(m: bv32, k: nat)
    requires Masks(m, k) && k > 0
    ensures m & 1 == 1 && Masks(Half(m), k - 1) && (k > 1 ==> m & 2 == 2)
  {
    assert m & 2 == 2 <==> (m >> 1) & 1 == 1;
  }

  /** Both summands and the carry, below position k. */
  lemma {:induction false} SumLow(a: bv32, b: bv32, s: bv32, c: bv32, m: bv32, k: nat)
    requires Masks(m, k) && Carries(a, b, s, c, m)
    ensures (Low(a, k) + Low(b, k) + Digit(c)) % Pow2(k) == Low(s, k)
    decreases k
  {
    hide Low, Digit, Pow2, Half, Carries, Masks;
    if k == 0 {
      SumNone(a, b, s, c);
    } else if k == 1 {
      MaskHalf(m, k);
      SumLast(a, b, s, c, m);
    } else {
      MaskHalf(m, k);
      CarriesHalf(a, b, s, c, m);
      CarriesDigits(a, b, s, c, m);
      SumLow(Half(a), Half(b), Half(s), Half(c), Half(m), k - 1);
      LowForm(a, k);
      LowForm(b, k);
      LowForm(s, k);
      DigitBound(a);
      DigitBound(b);
      DigitBound(c);
      DigitBound(s);
      SumStep(Digit(a), Digit(b), Digit(c), Digit(Half(c)), Low(Half(a), k - 1), Low(Half(b), k - 1), Digit(s),
              Low(Half(s), k - 1), Pow2(k - 1));
      PowNext(k);
    }
  }

  lemma DigitBound(w: bv32)
    ensures Digit(w) <= 1 && (w & 1 == 0 ==> Digit(w) == 0)
  {
  }

  lemma MaskOf32()
    ensures Masks(0xFFFF_FFFF, 32)
  {
    assert Masks(0, 0);
    hide Masks;
    MaskMore(0xF, 0);
    MaskMore(0xFF, 4);
    MaskMore(0xFFF, 8);
    MaskMore(0xFFFF, 12);
    MaskMore(0xF_FFFF, 16);
    MaskMore(0xFF_FFFF, 20);
    MaskMore(0xFFF_FFFF, 24);
    MaskMore(0xFFFF_FFFF, 28);
  }

  lemma AddWord(a: bv32, b: bv32, s: bv32)
    requires Adds(a, b, s)
    ensures Add32(Int(a), Int(b)) == Int(s)
  {
    hide Low, Pow2, Digit, Carries, Masks, Adds;
    Pow2Of64();
    AddsCarries(a, b, s);
    MaskOf32();
    DigitBound(a ^ b ^ s);
    SumLow(a, b, s, a ^ b ^ s, 0xFFFF_FFFF, 32);
  }

  // ----- rotations

  /** w without its n low bits. */
  function Shifted(w: bv32, n: nat): bv32 {
    if n == 0 then w else Shifted(w >> 1, n - 1)
  }

  lemma {:induction false} LowSplit(w: bv32, n: nat, k: nat)
    ensures Low(w, n + k) == Low(w, n) + Pow2(n) * Low(Shifted(w, n), k)
    decreases n
  {
    if n == 0 {
      SplitNone(w, k);
    } else {
      LowSplit(w >> 1, n - 1, k);
      hide Low, Pow2;
      assert Half(w) == w >> 1;
      LowForm(w, n + k);
      LowForm(w, n);
      PowNext(n);
      Doubled(Pow2(n - 1), Low(Shifted(w, n), k));
    }
  }

  lemma SplitNone(w: bv32, k: nat)
    ensures Low(w, 0 + k) == Low(w, 0) + Pow2(0) * Low(Shifted(w, 0), k)
  {
  }

  lemma Doubled(p: nat, x: nat)
    ensures (2 * p) * x == 2 * (p * x)
  {
  }

  /** Rotating is exchanging the upper and the lower part. */
  lemma RotateParts(w: bv32, r: bv32, n: nat, p: nat, q: nat)
    requires n <= 32 && Pow2(n) == p && p > 0 && q > 0 && p * q == TWO32 && Pow2(32 - n) == q
    requires Low(r, n) == Low(Shifted(w, 32 - n), n) && Low(Shifted(r, n), 32 - n) == Low(w, 32 - n)
    ensures Rotl(Int(w), n, p, q) == Int(r)
  {
    hide Low, Pow2, Shifted, Rotl;
    LowSplit(w, 32 - n, n);
    LowSplit(r, n, 32 - n);
    RotlParts(Int(w), n, p, q, Low(Shifted(w, 32 - n), n), Low(w, 32 - n));
  }

  lemma RotlParts(v: u32, n: nat, p: nat, q: nat, upper: nat, lower: nat)
    requires Pow2(n) == p && p > 0 && q > 0 && p * q == TWO32 && lower < q && v as int == lower + q * upper
    ensures Rotl(v, n, p, q) as int == upper + p * lower
  {
    hide Pow2, Rotl;
    QuotientUnique(q, upper, lower, v as int / q, v as int % q);
  }

  lemma {:induction false} ShiftedAdd(w: bv32, m: nat, n: nat)
    ensures Shifted(w, m + n) == Shifted(Shifted(w, m), n)
    decreases m
  {
    if m > 0 {
      ShiftedAdd(w >> 1, m - 1, n);
    }
  }

  lemma Shifted1(w: bv32)
    ensures Shifted(w, 1) == w >> 1
  {
    assert Shifted(w, 1) == Shifted(w >> 1, 0);
  }

  lemma ShiftTwice(w: bv32)
    ensures (w >> 1) >> 1 == w >> 2 && (w >> 2) >> 2 == w >> 4 && (w >> 4) >> 4 == w >> 8 && (w >> 8) >> 8 == w >> 16
    ensures (w >> 2) >> 1 == w >> 3 && (w >> 4) >> 3 == w >> 7 && (w >> 8) >> 4 == w >> 12 && (w >> 16) >> 4 == w >> 20
    ensures (w >> 16) >> 8 == w >> 24 && (w >> 24) >> 1 == w >> 25
  {
  }

  lemma Shifted2(w: bv32)
    ensures Shifted(w, 2) == w >> 2
  {
    hide *;
    ShiftTwice(w);
    Shifted1(w);
    Shifted1(w >> 1);
    ShiftedAdd(w, 1, 1);
  }

  lemma Shifted4(w: bv32)
    ensures Shifted(w, 4) == w >> 4
  {
    hide *;
    ShiftTwice(w);
    Shifted2(w);
    Shifted2(w >> 2);
    ShiftedAdd(w, 2, 2);
  }

  lemma Shifted8(w: bv32)
    ensures Shifted(w, 8) == w >> 8
  {
    hide *;
    ShiftTwice(w);
    Shifted4(w);
    Shifted4(w >> 4);
    ShiftedAdd(w, 4, 4);
  }

  lemma Shifted16(w: bv32)
    ensures Shifted(w, 16) == w >> 16
  {
    hide *;
    ShiftTwice(w);
    Shifted8(w);
    Shifted8(w >> 8);
    ShiftedAdd(w, 8, 8);
  }

  lemma Shifted3(w: bv32)
    ensures Shifted(w, 3) == w >> 3
  {
    hide *;
    ShiftTwice(w);
    Shifted2(w);
    Shifted1(w >> 2);
    ShiftedAdd(w, 2, 1);
  }

  lemma Shifted7(w: bv32)
    ensures Shifted(w, 7) == w >> 7
  {
    hide *;
    ShiftTwice(w);
    Shifted4(w);
    Shifted3(w >> 4);
    ShiftedAdd(w, 4, 3);
  }

  lemma Shifted12(w: bv32)
    ensures Shifted(w, 12) == w >> 12
  {
    hide *;
    ShiftTwice(w);
    Shifted8(w);
    Shifted4(w >> 8);
    ShiftedAdd(w, 8, 4);
  }

  lemma Shifted20(w: bv32)
    ensures Shifted(w, 20) == w >> 20
  {
    hide *;
    ShiftTwice(w);
    Shifted16(w);
    Shifted4(w >> 16);
    ShiftedAdd(w, 16, 4);
  }

  lemma Shifted24(w: bv32)
    ensures Shifted(w, 24) == w >> 24
  {
    hide *;
    ShiftTwice(w);
    Shifted16(w);
    Shifted8(w >> 16);
    ShiftedAdd(w, 16, 8);
  }

  lemma Shifted25(w: bv32)
    ensures Shifted(w, 25) == w >> 25
  {
    hide *;
    ShiftTwice(w);
    Shifted24(w);
    Shifted1(w >> 24);
    ShiftedAdd(w, 24, 1);
  }

  /** The masks of the parts that are exchanged. */
  lemma PartMasks()
    ensures Masks(0x7F, 7) && Masks(0xFF, 8) && Masks(0xFFF, 12) && Masks(0xFFFF, 16)
    ensures Masks(0xF_FFFF, 20) && Masks(0xFF_FFFF, 24) && Masks(0x1FF_FFFF, 25)
  {
    MaskSmall();
    assert Masks(0x1, 1) && Masks(0, 0);
    hide Masks;
    MaskMore(0x7F, 3);
    MaskMore(0xF, 0);
    MaskMore(0xFF, 4);
    MaskMore(0xFFF, 8);
    MaskMore(0xFFFF, 12);
    MaskMore(0xF_FFFF, 16);
    MaskMore(0xFF_FFFF, 20);
    MaskMore(0x1F, 1);
    MaskMore(0x1FF, 5);
    MaskMore(0x1FFF, 9);
    MaskMore(0x1_FFFF, 13);
    MaskMore(0x1F_FFFF, 17);
    MaskMore(0x1FF_FFFF, 21);
  }

  lemma Rotate16(w: bv32)
    ensures Pow2(16) == 0x1_0000 && Rotl(Int(w), 16, 0x1_0000, 0x1_0000) == Int((w << 16) | (w >> 16))
  {
    hide Low, Shifted, Masks, Rotl;
    var r := (w << 16) | (w >> 16);
    PartMasks();
    Shifted16(w);
    Shifted16(r);
    LowAgrees(r, w >> 16, 0xFFFF, 16);
    LowAgrees(r >> 16, w, 0xFFFF, 16);
    Distances();
    RotateParts(w, r, 16, 0x1_0000, 0x1_0000);
  }

  lemma Rotate12(w: bv32)
    ensures Pow2(12) == 0x1000 && Rotl(Int(w), 12, 0x1000, 0x10_0000) == Int((w << 12) | (w >> 20))
  {
    hide Low, Shifted, Masks, Rotl;
    var r := (w << 12) | (w >> 20);
    PartMasks();
    Shifted20(w);
    Shifted12(r);
    LowAgrees(r, w >> 20, 0xFFF, 12);
    LowAgrees(r >> 12, w, 0xF_FFFF, 20);
    Distances();
    RotateParts(w, r, 12, 0x1000, 0x10_0000);
  }

  lemma Rotate8(w: bv32)
    ensures Pow2(8) == 0x100 && Rotl(Int(w), 8, 0x100, 0x100_0000) == Int((w << 8) | (w >> 24))
  {
    hide Low, Shifted, Masks, Rotl;
    var r := (w << 8) | (w >> 24);
    PartMasks();
    Shifted24(w);
    Shifted8(r);
    LowAgrees(r, w >> 24, 0xFF, 8);
    LowAgrees(r >> 8, w, 0xFF_FFFF, 24);
    Distances();
    RotateParts(w, r, 8, 0x100, 0x100_0000);
  }

  lemma Rotate7(w: bv32)
    ensures Pow2(7) == 0x80 && Rotl(Int(w), 7, 0x80, 0x200_0000) == Int((w << 7) | (w >> 25))
  {
    hide Low, Shifted, Masks, Rotl;
    var r := (w << 7) | (w >> 25);
    PartMasks();
    Shifted25(w);
    Shifted7(r);
    LowAgrees(r, w >> 25, 0x7F, 7);
    LowAgrees(r >> 7, w, 0x1FF_FFFF, 25);
    Distances();
    RotateParts(w, r, 7, 0x80, 0x200_0000);
  }

  lemma Distances()
    ensures Pow2(7) == 0x80 && Pow2(8) == 0x100 && Pow2(12) == 0x1000 && Pow2(16) == 0x1_0000
    ensures Pow2(20) == 0x10_0000 && Pow2(24) == 0x100_0000 && Pow2(25) == 0x200_0000
  {
    Pow2Rotations();
    Pow2Sum(12, 8);
    Pow2Sum(12, 12);
    hide Pow2;
    Pow2Sum(12, 13);
    Pow2Sum(12, 1);
    assert Pow2(1) == 2;
  }

  // ----- the value of a word, digit by digit

  function Bit(b: bool): nat {
    if b then 1 else 0
  }

  predicate B0(w: bv32) {
    w & 1 == 1
  }

  predicate B1(w: bv32) {
    w & 2 == 2
  }

  predicate B2(w: bv32) {
    w & 4 == 4
  }

  predicate B3(w: bv32) {
    w & 8 == 8
  }

  function Nibble(w: bv32): nat {
    Bit(B0(w)) + 2 * Bit(B1(w)) + 4 * Bit(B2(w)) + 8 * Bit(B3(w))
  }

  lemma NibbleBits(w: bv32)
    ensures (B0(Half(w)) <==> B1(w)) && (B0(Half(Half(w))) <==> B2(w)) && (B0(Half(Half(Half(w)))) <==> B3(w))
  {
  }

  lemma LowStep(w: bv32, k: nat)
    ensures Low(w, k + 1) == Bit(B0(w)) + 2 * Low(Half(w), k) && Low(w, 0) == 0
  {
  }

  lemma LowNibble(w: bv32)
    ensures Low(w, 4) == Nibble(w)
  {
    hide Low, Half, B0, B1, B2, B3, Bit;
    NibbleBits(w);
    LowStep(w, 3);
    LowStep(Half(w), 2);
    LowStep(Half(Half(w)), 1);
    LowStep(Half(Half(Half(w))), 0);
    LowStep(Half(Half(Half(Half(w)))), 0);
  }

  function By4(w: bv32): bv32 {
    w >> 4
  }

  lemma ShiftedBy4(w: bv32)
    ensures Shifted(w, 4) == By4(w)
  {
    Shifted4(w);
  }

  lemma NibbleStep(w: bv32, n: nat, k: nat)
    requires n == 4 + k
    ensures Low(w, n) == Nibble(w) + 16 * Low(By4(w), k)
  {
    hide Low, Nibble, Shifted, By4;
    LowSplit(w, 4, k);
    LowNibble(w);
    ShiftedBy4(w);
    assert Pow2(4) == 16;
  }

  /** The same, with the shifts written out. */
  function Value(w: bv32): nat {
    Nibble(w) + 0x10 * Nibble(w >> 4) + 0x100 * Nibble(w >> 8) + 0x1000 * Nibble(w >> 12)
    + 0x1_0000 * Nibble(w >> 16) + 0x10_0000 * Nibble(w >> 20) + 0x100_0000 * Nibble(w >> 24)
    + 0x1000_0000 * Nibble(w >> 28)
  }

  lemma By4Again(w: bv32)
    ensures By4(w) == w >> 4 && By4(w >> 4) == w >> 8 && By4(w >> 8) == w >> 12 && By4(w >> 12) == w >> 16
    ensures By4(w >> 16) == w >> 20 && By4(w >> 20) == w >> 24 && By4(w >> 24) == w >> 28
  {
  }

  lemma NibbleSum(l8: nat, l7: nat, l6: nat, l5: nat, l4: nat, l3: nat, l2: nat, n0: nat, n1: nat, n2: nat, n3: nat,
                  n4: nat, n5: nat, n6: nat, n7: nat)
    requires l8 == n0 + 16 * l7 && l7 == n1 + 16 * l6 && l6 == n2 + 16 * l5 && l5 == n3 + 16 * l4
    requires l4 == n4 + 16 * l3 && l3 == n5 + 16 * l2 && l2 == n6 + 16 * n7
    ensures l8 == n0 + 0x10 * n1 + 0x100 * n2 + 0x1000 * n3 + 0x1_0000 * n4 + 0x10_0000 * n5 + 0x100_0000 * n6
                  + 0x1000_0000 * n7
  {
  }

  lemma EightNibbles(w: bv32, a: bv32, b: bv32, c: bv32, d: bv32, e: bv32, f: bv32, g: bv32)
    requires a == By4(w) && b == By4(a) && c == By4(b) && d == By4(c) && e == By4(d) && f == By4(e) && g == By4(f)
    ensures Low(w, 32) == Nibble(w) + 0x10 * Nibble(a) + 0x100 * Nibble(b) + 0x1000 * Nibble(c) + 0x1_0000 * Nibble(d)
                          + 0x10_0000 * Nibble(e) + 0x100_0000 * Nibble(f) + 0x1000_0000 * Nibble(g)
  {
    hide Low, Nibble, By4;
    NibbleStep(w, 32, 28);
    NibbleStep(a, 28, 24);
    NibbleStep(b, 24, 20);
    NibbleStep(c, 20, 16);
    NibbleStep(d, 16, 12);
    NibbleStep(e, 12, 8);
    NibbleStep(f, 8, 4);
    LowNibble(g);
    NibbleSum(Low(w, 32), Low(a, 28), Low(b, 24), Low(c, 20), Low(d, 16), Low(e, 12), Low(f, 8), Nibble(w), Nibble(a),
              Nibble(b), Nibble(c), Nibble(d), Nibble(e), Nibble(f), Nibble(g));
  }

  lemma LowValue(w: bv32)
    ensures Low(w, 32) == Value(w)
  {
    hide Low, Nibble, By4;
    By4Again(w);
    EightNibbles(w, w >> 4, w >> 8, w >> 12, w >> 16, w >> 20, w >> 24, w >> 28);
  }

  lemma IntValue(w: bv32)
    ensures Int(w) == Value(w)
  {
    hide Low, Value;
    LowValue(w);
  }

  // ----- the quarter round

  datatype Four = Four(a: bv32, b: bv32, c: bv32, d: bv32)

  function Ints(w: Four): Words4 {
    Words4(Int(w.a), Int(w.b), Int(w.c), Int(w.d))
  }

  function Rotated(w: bv32, k: nat): bv32 {
    if k == 16 then (w << 16) | (w >> 16)
    else if k == 12 then (w << 12) | (w >> 20)
    else if k == 8 then (w << 8) | (w >> 24)
    else (w << 7) | (w >> 25)
  }

  predicate Mixes(w: bv32, x: bv32, k: nat, r: bv32) {
    r == Rotated(w ^ x, k)
  }

  lemma Mix16(w: bv32, x: bv32, r: bv32)
    requires Mixes(w, x, 16, r)
    ensures Pow2(16) == 0x1_0000 && Rotl(Xor32(Int(w), Int(x)), 16, 0x1_0000, 0x1_0000) == Int(r)
  {
    hide Int, Xor32, Rotl, Pow2;
    XorWord(w, x);
    Rotate16(w ^ x);
  }

  lemma Mix12(w: bv32, x: bv32, r: bv32)
    requires Mixes(w, x, 12, r)
    ensures Pow2(12) == 0x1000 && Rotl(Xor32(Int(w), Int(x)), 12, 0x1000, 0x10_0000) == Int(r)
  {
    hide Int, Xor32, Rotl, Pow2;
    XorWord(w, x);
    Rotate12(w ^ x);
  }

  lemma Mix8(w: bv32, x: bv32, r: bv32)
    requires Mixes(w, x, 8, r)
    ensures Pow2(8) == 0x100 && Rotl(Xor32(Int(w), Int(x)), 8, 0x100, 0x100_0000) == Int(r)
  {
    hide Int, Xor32, Rotl, Pow2;
    XorWord(w, x);
    Rotate8(w ^ x);
  }

  lemma Mix7(w: bv32, x: bv32, r: bv32)
    requires Mixes(w, x, 7, r)
    ensures Pow2(7) == 0x80 && Rotl(Xor32(Int(w), Int(x)), 7, 0x80, 0x200_0000) == Int(r)
  {
    hide Int, Xor32, Rotl, Pow2;
    XorWord(w, x);
    Rotate7(w ^ x);
  }

  /** The first half of a quarter round takes i to h, the second h to o. */
  predicate Half1(i: Four, h: Four) {
    Adds(i.a, i.b, h.a) && Mixes(i.d, h.a, 16, h.d) && Adds(i.c, h.d, h.c) && Mixes(i.b, h.c, 12, h.b)
  }

  predicate Half2(h: Four, o: Four) {
    Adds(h.a, h.b, o.a) && Mixes(h.d, o.a, 8, o.d) && Adds(h.c, o.d, o.c) && Mixes(h.b, o.c, 7, o.b)
  }

  /** On machine words, with the words in the middle given. */
  lemma QuarterMeaning(i: Four, h: Four, o: Four)
    requires Half1(i, h) && Half2(h, o)
    ensures QuarterOf(Ints(i)) == Ints(o)
  {
    hide Int, Adds, Mixes, Add32, Xor32, Rotl, Pow2;
    AddWord(i.a, i.b, h.a);
    Mix16(i.d, h.a, h.d);
    AddWord(i.c, h.d, h.c);
    Mix12(i.b, h.c, h.b);
    AddWord(h.a, h.b, o.a);
    Mix8(h.d, o.a, o.d);
    AddWord(h.c, o.d, o.c);
    Mix7(h.b, o.c, o.b);
  }
}
