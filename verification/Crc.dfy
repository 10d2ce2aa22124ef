/** CRC-16/CCITT-FALSE as a linear map over bit streams.

    `Crc16` and `FrameCrc` are the byte loops of the C code; `FeedBits` feeds the same
    register one bit at a time, most significant bit first. */
module Crc {
  import opened Words
  import opened Bits
  import Modular

  const POLY: u16 := 0x1021

  /** One turn of the inner loop. */
  function Shift(r: u16): (s: u16) {
    Pow2Of16();
    XorBound((r as int * 2) % TWO16, POLY, 16);
    if r >= 0x8000 then Xor((r as int * 2) % TWO16, POLY) else r as int * 2
  }

  lemma Pow2Of16()
    ensures Pow2(16) == TWO16 && Pow2(15) == 0x8000
  {
    Pow2Bytes();
    assert Pow2(16) == 2 * Pow2(15);
  }

  function Shifts(n: nat, r: u16): (s: u16) {
    if n == 0 then r else Shifts(n - 1, Shift(r))
  }

  function Xor16(a: u16, b: u16): (c: u16) {
    Pow2Of16();
    XorBound(a, b, 16);
    Xor(a, b)
  }

  /** crc ^= byte << 8, then eight shifts. */
  function FeedByte(r: u16, b: u8): u16 {
    Shifts(8, Xor16(r, b as int * 0x100))
  }

  function FeedBytes(r: u16, m: bytes): u16
    decreases |m|
  {
    if m == [] then r else FeedBytes(FeedByte(r, m[0]), m[1..])
  }

  /** The checksum of a byte string. */
  function Checksum(m: bytes): u16 {
    FeedBytes(0xFFFF, m)
  }

  lemma {:induction false} FeedBytesAppend(r: u16, a: bytes, b: bytes)
    ensures FeedBytes(r, a + b) == FeedBytes(FeedBytes(r, a), b)
    decreases |a|
  {
    if a == [] {
      assert a + b == b;
    } else {
      FeedBytesAppend(FeedByte(r, a[0]), a[1..], b);
      assert (a + b)[0] == a[0] && (a + b)[1..] == a[1..] + b;
    }
  }

  // ----- the loops

  method ShiftEight(r: u16) returns (crc: u16)
    ensures crc == Shifts(8, r)
  {
    crc := r;
    for b := 0 to 8
      invariant Shifts(8 - b, crc) == Shifts(8, r)
    {
      crc := Shift(crc);
    }
  }

  /** fl_crc16. */
  method Crc16(data: bytes) returns (crc: u16)
    ensures crc == Checksum(data)
  {
    crc := 0xFFFF;
    for i := 0 to |data|
      invariant crc == FeedBytes(0xFFFF, data[..i])
    {
      FeedBytesAppend(0xFFFF, data[..i], [data[i]]);
      assert data[..i + 1] == data[..i] + [data[i]];
      crc := ShiftEight(Xor16(crc, data[i] as int * 0x100));
    }
    assert data[..|data|] == data;
  }

  /** frame_crc: the first eight header bytes, then the payload, without joining them. */
  method FrameCrc(header: bytes, payload: bytes) returns (crc: u16)
    requires |header| >= 8
    ensures crc == Checksum(header[..8] + payload)
  {
    crc := 0xFFFF;
    for i := 0 to 8
      invariant crc == FeedBytes(0xFFFF, header[..i])
    {
      FeedBytesAppend(0xFFFF, header[..i], [header[i]]);
      assert header[..i + 1] == header[..i] + [header[i]];
      crc := ShiftEight(Xor16(crc, header[i] as int * 0x100));
    }
    ghost var start := crc;
    for i := 0 to |payload|
      invariant crc == FeedBytes(start, payload[..i])
    {
      FeedBytesAppend(start, payload[..i], [payload[i]]);
      assert payload[..i + 1] == payload[..i] + [payload[i]];
      crc := ShiftEight(Xor16(crc, payload[i] as int * 0x100));
    }
    assert payload[..|payload|] == payload;
    FeedBytesAppend(0xFFFF, header[..8], payload);
  }

  // ----- the register is linear

  lemma {:induction false} XorModulo(a: nat, b: nat, k: nat)
    ensures Xor(a, b) % Pow2(k) == Xor(a % Pow2(k), b % Pow2(k))
  {
    if k == 0 {
      assert a % 1 == 0 && b % 1 == 0 && Xor(a, b) % 1 == 0;
    } else {
      XorModulo(a / 2, b / 2, k - 1);
      XorHalves(a, b);
      HalfModulo(a, Pow2(k - 1));
      HalfModulo(b, Pow2(k - 1));
      HalfModulo(Xor(a, b), Pow2(k - 1));
      XorHalves(a % Pow2(k), b % Pow2(k));
    }
  }

  lemma HalfModulo(a: nat, p: nat)
    requires p > 0
    ensures (a % (2 * p)) / 2 == (a / 2) % p && (a % (2 * p)) % 2 == a % 2
  {
    var q, r := (a / 2) / p, (a / 2) % p;
    assert a == (2 * p) * q + (2 * r + a % 2) by {
      assert p * (2 * q) == (2 * p) * q;
    }
    Modular.QuotientUnique(2 * p, q, 2 * r + a % 2, a / (2 * p), a % (2 * p));
  }

  lemma XorDouble(a: nat, b: nat)
    ensures Xor(2 * a, 2 * b) == 2 * Xor(a, b)
  {
    XorHalves(2 * a, 2 * b);
  }

  lemma TopBit(a: u16, b: u16)
    ensures Xor16(a, b) >= 0x8000 <==> (a >= 0x8000) != (b >= 0x8000)
  {
    Pow2Of16();
    hide Xor;
    XorTop(a, b, 15);
  }

  lemma {:induction false} XorTop(a: nat, b: nat, k: nat)
    requires a < 2 * Pow2(k) && b < 2 * Pow2(k)
    ensures Xor(a, b) >= Pow2(k) <==> (a >= Pow2(k)) != (b >= Pow2(k))
  {
    XorHalves(a, b);
    if k == 0 {
    } else {
      XorTop(a / 2, b / 2, k - 1);
    }
  }

  /** Shift as a doubling plus the polynomial when the top bit falls out. */
  function Fold(top: bool): u16 {
    if top then POLY else 0
  }

  lemma ShiftForm(r: u16)
    ensures Shift(r) == Xor16((r as int * 2) % TWO16, Fold(r >= 0x8000))
  {
    XorComm((r as int * 2) % TWO16, 0);
  }

  lemma FoldLinear(p: bool, q: bool)
    ensures Fold(p != q) == Xor16(Fold(p), Fold(q))
  {
    XorSelf(POLY);
    XorComm(POLY, 0);
  }

  /** (a ^ b) ^ (c ^ d) == (a ^ c) ^ (b ^ d). */
  lemma XorMiddle(a: nat, b: nat, c: nat, d: nat)
    ensures Xor(Xor(a, b), Xor(c, d)) == Xor(Xor(a, c), Xor(b, d))
  {
    XorAssoc(a, b, Xor(c, d));
    XorAssoc(b, c, d);
    XorComm(b, c);
    XorAssoc(c, b, d);
    XorAssoc(a, c, Xor(b, d));
  }

  lemma ShiftLinear(a: u16, b: u16)
    ensures Shift(Xor16(a, b)) == Xor16(Shift(a), Shift(b))
  {
    hide Xor, Shift;
    var da, db := (a as int * 2) % TWO16, (b as int * 2) % TWO16;
    ShiftForm(a);
    ShiftForm(b);
    ShiftForm(Xor16(a, b));
    TopBit(a, b);
    FoldLinear(a >= 0x8000, b >= 0x8000);
    XorDouble(a, b);
    Pow2Of16();
    XorModulo(2 * a as int, 2 * b as int, 16);
    XorMiddle(da, db, Fold(a >= 0x8000), Fold(b >= 0x8000));
  }

  /** No non-zero register shifts to zero: the polynomial has a constant term. */
  lemma ShiftNonZero(r: u16)
    requires r != 0
    ensures Shift(r) != 0
  {
    if r >= 0x8000 {
      XorZero((r as int * 2) % TWO16, POLY);
    }
  }

  lemma {:induction false} ShiftsNonZero(n: nat, r: u16)
    requires r != 0
    ensures Shifts(n, r) != 0
  {
    if n == 0 {
    } else {
      ShiftNonZero(r);
      ShiftsNonZero(n - 1, Shift(r));
    }
  }

  // ----- the register fed bit by bit

  function FeedBit(r: u16, b: bool): u16 {
    Shift(Xor16(r, if b then 0x8000 else 0))
  }

  function FeedBits(r: u16, w: seq<bool>): u16
    decreases |w|
  {
    if w == [] then r else FeedBits(FeedBit(r, w[0]), w[1..])
  }

  /** The n low bits of b, the highest first. */
  function LowBits(b: nat, n: nat): (w: seq<bool>)
    ensures |w| == n
  {
    if n == 0 then [] else [b / Pow2(n - 1) % 2 == 1] + LowBits(b, n - 1)
  }

  /** A byte string as a bit stream. */
  function Stream(m: bytes): (w: seq<bool>)
    ensures |w| == 8 * |m|
    decreases |m|
  {
    if m == [] then [] else LowBits(m[0], 8) + Stream(m[1..])
  }

  /** Up to sixteen bits, the first one in the top position of a 16-bit word. */
  function Word(w: seq<bool>): (x: nat)
    requires |w| <= 16
    ensures x < TWO16
    decreases |w|
  {
    if w == [] then 0 else (if w[0] then 0x8000 else 0) + Word(w[1..]) / 2
  }

  /** Fewer than sixteen bits leave the bottom position clear. */
  lemma {:induction false} WordBottom(w: seq<bool>)
    requires |w| <= 16
    ensures Word(w) % Pow2(16 - |w|) == 0
    decreases |w|
  {
    Pow2Of16();
    if w == [] {
    } else {
      WordBottom(w[1..]);
      BottomStep(Word(w[1..]), 16 - |w|);
      TopMultiple(16 - |w|);
      Modular.ModAdd(if w[0] then 0x8000 else 0, 0, Word(w[1..]) / 2, 0, Pow2(16 - |w|));
    }
  }

  lemma BottomStep(x: nat, n: nat)
    requires x % Pow2(n + 1) == 0
    ensures x / 2 % Pow2(n) == 0
  {
    HalfModulo(x, Pow2(n));
  }

  lemma TopMultiple(n: nat)
    requires n <= 15
    ensures 0x8000 % Pow2(n) == 0
  {
    Pow2Of16();
    Pow2Sum(n, 15 - n);
    Modular.ModMultiple(0, Pow2(15 - n), Pow2(n));
  }

  lemma EvenWord(w: seq<bool>)
    requires |w| < 16
    ensures Word(w) % 2 == 0
  {
    WordBottom(w);
    HalfModulo(Word(w), Pow2(15 - |w|));
  }

  lemma {:induction false} WordZero(w: seq<bool>)
    requires |w| <= 16
    ensures Word(w) == 0 <==> forall i :: 0 <= i < |w| ==> !w[i]
    decreases |w|
  {
    if w == [] {
    } else {
      WordZero(w[1..]);
      EvenWord(w[1..]);
      if forall i :: 0 <= i < |w[1..]| ==> !w[1..][i] {
        assert !w[0] ==> forall i :: 0 <= i < |w| ==> !w[i] by {
          assert forall i :: 1 <= i < |w| ==> w[i] == w[1..][i - 1];
        }
      } else {
        var i :| 0 <= i < |w[1..]| && w[1..][i];
        assert w[i + 1];
      }
    }
  }

  /** Feeding up to sixteen bits is xoring them in at the top and shifting. */
  lemma {:induction false} FeedWord(r: u16, w: seq<bool>)
    requires |w| <= 16
    ensures FeedBits(r, w) == Shifts(|w|, Xor16(r, Word(w)))
    decreases |w|
  {
    if w == [] {
      XorComm(r, 0);
    } else {
      var top: u16 := if w[0] then 0x8000 else 0;
      var half: u16 := Word(w[1..]) / 2;
      EvenWord(w[1..]);
      assert Shift(half) == Word(w[1..]);
      FeedWord(FeedBit(r, w[0]), w[1..]);
      JoinTop(w[0], half);
      hide Shift, Xor;
      XorAssoc(r, top, half);
      ShiftLinear(Xor16(r, top), half);
    }
  }

  lemma JoinTop(b: bool, half: nat)
    requires half < 0x8000
    ensures Xor(if b then 0x8000 else 0, half) == (if b then 0x8000 else 0) + half
  {
    if b {
      Pow2Of16();
      XorDisjoint(half, 15);
      XorComm(0x8000, half);
    }
  }

  lemma {:induction false} XorDisjoint(low: nat, k: nat)
    requires low < Pow2(k)
    ensures Xor(low, Pow2(k)) == low + Pow2(k)
  {
    if k == 0 {
    } else {
      assert Pow2(k) == 2 * Pow2(k - 1);
      hide Xor, Pow2;
      XorDisjoint(low / 2, k - 1);
      XorHalves(low, Pow2(k));
    }
  }

  // ----- bytes against bits

  lemma {:induction false} WordOfLowBits(b: nat, n: nat)
    requires n <= 16
    ensures Word(LowBits(b, n)) == (b % Pow2(n)) * Pow2(16 - n)
  {
    if n == 0 {
      assert b % 1 == 0;
    } else {
      var w := LowBits(b, n);
      assert w[1..] == LowBits(b, n - 1) && w[0] == (b / Pow2(n - 1) % 2 == 1);
      WordOfLowBits(b, n - 1);
      WordStep(w);
      hide Word, LowBits, Pow2;
      PowersAround(n);
      TopDigit(b, Pow2(n - 1));
      AssembleWord(b / Pow2(n - 1) % 2, b % Pow2(n - 1), Pow2(n - 1), Pow2(16 - n), Word(w[1..]));
    }
  }

  lemma WordStep(w: seq<bool>)
    requires 0 < |w| <= 16
    ensures Word(w) == (if w[0] then 0x8000 else 0) + Word(w[1..]) / 2
  {
  }

  lemma PowersAround(n: nat)
    requires 1 <= n <= 16
    ensures Pow2(n) == 2 * Pow2(n - 1) && Pow2(17 - n) == 2 * Pow2(16 - n)
    ensures Pow2(n - 1) * Pow2(16 - n) == 0x8000
  {
    Pow2Of16();
    Pow2Sum(n - 1, 16 - n);
  }

  lemma AssembleWord(d: nat, low: nat, p: nat, q: nat, rest: nat)
    requires d < 2 && rest == low * (2 * q) && p * q == 0x8000
    ensures (if d == 1 then 0x8000 else 0) + rest / 2 == (p * d + low) * q
  {
    assert rest == 2 * (low * q);
    if d == 0 {
      assert p * d + low == low;
    } else {
      assert (p + low) * q == p * q + low * q;
    }
  }

  /** The lowest n + 1 binary digits are digit n and the n below it. */
  lemma TopDigit(b: nat, p: nat)
    requires p > 0
    ensures b % (2 * p) == p * (b / p % 2) + b % p
  {
    var d, k := b / p % 2, b / p / 2;
    assert b == (2 * p) * k + (p * d + b % p) by {
      assert b / p == 2 * k + d;
      assert p * (2 * k + d) == (2 * p) * k + p * d;
    }
    if d == 0 { assert p * d == 0; } else { assert p * d == p; }
    Modular.QuotientUnique(2 * p, k, p * d + b % p, b / (2 * p), b % (2 * p));
  }

  lemma FeedByteBits(r: u16, b: u8)
    ensures FeedByte(r, b) == FeedBits(r, LowBits(b, 8))
  {
    hide Shifts, Word, LowBits, FeedBits, Xor;
    WordOfLowBits(b, 8);
    Pow2Bytes();
    FeedWord(r, LowBits(b, 8));
  }

  lemma {:induction false} FeedBitsAppend(r: u16, a: seq<bool>, b: seq<bool>)
    ensures FeedBits(r, a + b) == FeedBits(FeedBits(r, a), b)
    decreases |a|
  {
    if a == [] {
      assert a + b == b;
    } else {
      FeedBitsAppend(FeedBit(r, a[0]), a[1..], b);
      assert (a + b)[0] == a[0] && (a + b)[1..] == a[1..] + b;
    }
  }

  /** Feeding bytes is feeding their bits. */
  lemma {:induction false} FeedStream(r: u16, m: bytes)
    ensures FeedBytes(r, m) == FeedBits(r, Stream(m))
    decreases |m|
  {
    if m == [] {
    } else {
      FeedByteBits(r, m[0]);
      FeedBitsAppend(r, LowBits(m[0], 8), Stream(m[1..]));
      FeedStream(FeedByte(r, m[0]), m[1..]);
    }
  }

  // ----- errors

  /** The positions where two streams differ. */
  function Difference(a: seq<bool>, b: seq<bool>): (e: seq<bool>)
    requires |a| == |b|
    ensures |e| == |a|
  {
    seq(|a|, i requires 0 <= i < |a| => a[i] != b[i])
  }

  lemma {:induction false} FeedLinear(r: u16, s: u16, a: seq<bool>, b: seq<bool>)
    requires |a| == |b|
    ensures Xor16(FeedBits(r, a), FeedBits(s, b)) == FeedBits(Xor16(r, s), Difference(a, b))
    decreases |a|
  {
    if a == [] {
    } else {
      var x: u16, y: u16 := if a[0] then 0x8000 else 0, if b[0] then 0x8000 else 0;
      FeedLinear(FeedBit(r, a[0]), FeedBit(s, b[0]), a[1..], b[1..]);
      assert Difference(a, b)[1..] == Difference(a[1..], b[1..]);
      assert Xor16(x, y) == if a[0] != b[0] then 0x8000 else 0 by {
        XorSelf(0x8000);
        XorComm(x, y);
      }
      hide Shift, Xor;
      ShiftLinear(Xor16(r, x), Xor16(s, y));
      XorMiddle(r, x, s, y);
    }
  }

  /** What an error does to the checksum depends on the error alone. */
  lemma Syndrome(a: bytes, b: bytes)
    requires |a| == |b|
    ensures Xor16(Checksum(a), Checksum(b)) == FeedBits(0, Difference(Stream(a), Stream(b)))
  {
    FeedStream(0xFFFF, a);
    FeedStream(0xFFFF, b);
    FeedLinear(0xFFFF, 0xFFFF, Stream(a), Stream(b));
    XorSelf(0xFFFF);
  }

  /** Zero bits only shift. */
  lemma {:induction false} FeedZeros(r: u16, w: seq<bool>)
    requires forall i :: 0 <= i < |w| ==> !w[i]
    ensures FeedBits(r, w) == Shifts(|w|, r)
    decreases |w|
  {
    if w == [] {
    } else {
      XorComm(r, 0);
      assert FeedBit(r, w[0]) == Shift(r);
      FeedZeros(Shift(r), w[1..]);
    }
  }

  lemma {:induction false} ShiftsOfZero(n: nat)
    ensures Shifts(n, 0) == 0
  {
    if n == 0 {
    } else {
      ShiftsOfZero(n - 1);
    }
  }

  /** An error confined to sixteen consecutive bits always changes the checksum. */
  lemma BurstShows(e: seq<bool>, start: nat, j: nat)
    requires forall i :: 0 <= i < |e| && e[i] ==> start <= i < start + 16
    requires j < |e| && e[j]
    ensures FeedBits(0, e) != 0
  {
    var k := if start + 16 <= |e| then start + 16 else |e|;
    var front, mid, back := e[..start], e[start..k], e[k..];
    assert e == front + (mid + back);
    FeedBitsAppend(0, front, mid + back);
    FeedBitsAppend(0, mid, back);
    FeedZeros(0, front);
    ShiftsOfZero(|front|);
    FeedWord(0, mid);
    WordZero(mid);
    assert mid[j - start];
    ShiftsNonZero(|mid|, Word(mid));
    FeedZeros(FeedBits(0, mid), back);
    ShiftsNonZero(|back|, FeedBits(0, mid));
  }

  // ----- parity

  /** Whether a number has an odd number of one bits. */
  function Odd(x: nat): bool {
    x > 0 && ((x % 2 == 1) != Odd(x / 2))
  }

  function OddBits(w: seq<bool>): bool
    decreases |w|
  {
    w != [] && (w[0] != OddBits(w[1..]))
  }

  lemma {:induction false} OddXor(a: nat, b: nat)
    ensures Odd(Xor(a, b)) == (Odd(a) != Odd(b))
    decreases a + b
  {
    if a == 0 || b == 0 {
    } else {
      XorHalves(a, b);
      OddXor(a / 2, b / 2);
      OddHalf(Xor(a, b));
    }
  }

  lemma OddHalf(x: nat)
    ensures Odd(x) == ((x % 2 == 1) != Odd(x / 2))
  {
  }

  lemma OddWithTop(low: nat)
    requires low < 0x8000
    ensures Odd(low + 0x8000) == !Odd(low)
  {
    hide Odd, Xor;
    Pow2Of16();
    XorDisjoint(low, 15);
    OddXor(low, 0x8000);
    OddTop();
  }

  lemma OddDouble(x: nat)
    ensures Odd(2 * x) == Odd(x)
  {
    OddHalf(2 * x);
  }

  lemma DoubleWraps(r: int)
    requires 0 <= r < TWO16
    ensures (r * 2) % TWO16 == 2 * (if r >= 0x8000 then r - 0x8000 else r)
  {
  }

  lemma OddDoubled(r: u16)
    ensures Odd((r as int * 2) % TWO16) == (Odd(r) != (r >= 0x8000))
  {
    hide Odd;
    var low: nat := if r >= 0x8000 then r as int - 0x8000 else r;
    DoubleWraps(r);
    OddDouble(low);
    if r >= 0x8000 {
      OddWithTop(low);
    }
  }

  /** Shifting keeps the parity: the polynomial has an even number of terms. */
  lemma OddShift(r: u16)
    ensures Odd(Shift(r)) == Odd(r)
  {
    hide Odd, Shift, Xor;
    ShiftForm(r);
    OddDoubled(r);
    OddXor((r as int * 2) % TWO16, Fold(r >= 0x8000));
    OddTop();
    OddPoly();
  }

  lemma {:induction false} OddPow2(k: nat)
    ensures Odd(Pow2(k))
  {
    if k == 0 {
      OddHalf(1);
    } else {
      OddPow2(k - 1);
      OddHalf(Pow2(k));
    }
  }

  lemma OddTop()
    ensures Odd(0x8000) && !Odd(0)
  {
    Pow2Of16();
    OddPow2(15);
  }

  /** 0x1021 has three one bits. */
  lemma OddPoly()
    ensures Odd(POLY)
  {
    hide Odd, Xor;
    OddPow2(6);
    assert Pow2(6) == 0x40;
    OddHalf(0x81);
    OddHalf(0x102);
    OddHalf(0x204);
    OddHalf(0x408);
    OddHalf(0x810);
    OddHalf(0x1021);
  }

  lemma {:induction false} OddFeed(r: u16, w: seq<bool>)
    ensures Odd(FeedBits(r, w)) == (Odd(r) != OddBits(w))
    decreases |w|
  {
    if w == [] {
    } else {
      var x: u16 := if w[0] then 0x8000 else 0;
      OddTop();
      OddXor(r, x);
      OddShift(Xor16(r, x));
      OddFeed(FeedBit(r, w[0]), w[1..]);
    }
  }

  lemma {:induction false} OddAppend(a: seq<bool>, b: seq<bool>)
    ensures OddBits(a + b) == (OddBits(a) != OddBits(b))
    decreases |a|
  {
    if a == [] {
      assert a + b == b;
    } else {
      assert (a + b)[0] == a[0] && (a + b)[1..] == a[1..] + b;
      OddAppend(a[1..], b);
    }
  }
}
