/** Field elements as 32 little-endian bytes: fe51_load and fe51_store. */
module FieldBytes {
  import opened Words
  import opened Bits
  import opened LittleEndian
  import opened Modular
  import opened Field25519

  const TWO255: int := 0x8000000000000000000000000000000000000000000000000000000000000000

  lemma LE8(b: bytes)
    requires |b| == 8
    ensures LE(b) == Load32(b, 0) as int + TWO32 * Load32(b, 4) as int
  {
    LEHead4(b);
    LEHead4(b[4..]);
    assert b[4..][0..4] == b[4..8] && b[4..][4..] == [];
  }

  /** Thirty-two bytes as four 64-bit words. */
  lemma LEQuads(s: bytes)
    requires |s| == 32
    ensures LE(s) == Quads(LE(s[0..8]), LE(s[8..16]), LE(s[16..24]), LE(s[24..32]))
  {
    LETail8(s, 0);
    LETail8(s, 8);
    LETail8(s, 16);
    LETail8(s, 24);
    assert s[0..] == s && s[32..] == [];
  }

  lemma LETail8(s: bytes, i: nat)
    requires i + 8 <= |s|
    ensures LE(s[i..]) == LE(s[i..i + 8]) + TWO64 * LE(s[i + 8..])
  {
    Pow256Of8();
    LEAppend(s[i..i + 8], s[i + 8..]);
    assert s[i..] == s[i..i + 8] + s[i + 8..];
  }

  lemma Pow256Of8()
    ensures Pow256(8) == TWO64
  {
    assert Pow256(4) == TWO32;
    assert Pow256(8) == 256 * (256 * (256 * (256 * Pow256(4))));
  }

  function Quads(w0: int, w1: int, w2: int, w3: int): int {
    w0 + 0x10000000000000000 * w1 + 0x100000000000000000000000000000000 * w2
    + 0x1000000000000000000000000000000000000000000000000 * w3
  }

  // ----- loading

  lemma Pow2Slices()
    ensures Pow2(13) == 0x2000 && Pow2(26) == 0x400_0000 && Pow2(39) == 0x80_0000_0000
  {
    Pow2Double(13, 0x2000);
    Pow2Sum(26, 13);
  }

  lemma SliceSum(w0: nat, w1: nat, w2: nat, w3: nat)
    requires w3 < 0x8000_0000_0000_0000
    ensures Val5(w0 % TWO51, w0 / TWO51 + (w1 % 0x40_0000_0000) * 0x2000,
                 w1 / 0x40_0000_0000 + (w2 % 0x200_0000) * 0x400_0000,
                 w2 / 0x200_0000 + (w3 % 0x1000) * 0x80_0000_0000, w3 / 0x1000)
         == Quads(w0, w1, w2, w3)
  {
  }

  lemma DropTopBit(w0: nat, w1: nat, w2: nat, w3: nat)
    requires w0 < TWO64 && w1 < TWO64 && w2 < TWO64 && w3 < TWO64
    ensures Quads(w0, w1, w2, w3) % TWO255 == Quads(w0, w1, w2, w3 % 0x8000_0000_0000_0000)
    ensures w3 % 0x1000 == w3 % 0x8000_0000_0000_0000 % 0x1000
    ensures w3 / 0x1000 % TWO51 == w3 % 0x8000_0000_0000_0000 / 0x1000
  {
  }

  /** Limbs 1, 2 and 3, each cut out of two neighbouring words. */
  method Limb1(w: u64, v: u64) returns (h: u64)
    ensures h == w as int / TWO51 + (v as int % 0x40_0000_0000) * 0x2000
  {
    hide Or;
    Pow2Slices();
    QuotientBound(w, 0x2000, TWO51, TWO64);
    ShiftWithin(v, 0x2000, TWO51, TWO64);
    OrShifted(w as int / TWO51, v as int % TWO51, 13, 0x2000);
    MaskJoined(w as int / TWO51, v as int % TWO51, 0x2000, 0x40_0000_0000, TWO51);
    ModOfMod(v, 0x40_0000_0000, 0x2000, TWO51);
    h := Or(w as int / TWO51, (v as int * 0x2000) % TWO64) % TWO51;
  }

  method Limb2(w: u64, v: u64) returns (h: u64)
    ensures h == w as int / 0x40_0000_0000 + (v as int % 0x200_0000) * 0x400_0000
  {
    hide Or;
    Pow2Slices();
    QuotientBound(w, 0x400_0000, 0x40_0000_0000, TWO64);
    ShiftWithin(v, 0x400_0000, 0x40_0000_0000, TWO64);
    OrShifted(w as int / 0x40_0000_0000, v as int % 0x40_0000_0000, 26, 0x400_0000);
    MaskJoined(w as int / 0x40_0000_0000, v as int % 0x40_0000_0000, 0x400_0000, 0x200_0000, TWO51);
    ModOfMod(v, 0x200_0000, 0x2000, 0x40_0000_0000);
    h := Or(w as int / 0x40_0000_0000, (v as int * 0x400_0000) % TWO64) % TWO51;
  }

  method Limb3(w: u64, v: u64) returns (h: u64)
    ensures h == w as int / 0x200_0000 + (v as int % 0x1000) * 0x80_0000_0000
  {
    hide Or;
    Pow2Slices();
    QuotientBound(w, 0x80_0000_0000, 0x200_0000, TWO64);
    ShiftWithin(v, 0x80_0000_0000, 0x200_0000, TWO64);
    OrShifted(w as int / 0x200_0000, v as int % 0x200_0000, 39, 0x80_0000_0000);
    MaskJoined(w as int / 0x200_0000, v as int % 0x200_0000, 0x80_0000_0000, 0x1000, TWO51);
    ModOfMod(v, 0x1000, 0x2000, 0x200_0000);
    h := Or(w as int / 0x200_0000, (v as int * 0x80_0000_0000) % TWO64) % TWO51;
  }

  method Load64(s: bytes, i: nat) returns (w: u64)
    requires i + 8 <= |s|
    ensures w == LE(s[i..i + 8])
  {
    hide Or, LE;
    var low: int, high: int := Load32(s, i), Load32(s, i + 4);
    Pow2Of64();
    OrShifted(low, high, 32, TWO32);
    LE8(s[i..i + 8]);
    assert s[i..i + 8][0..4] == s[i..i + 4] && s[i..i + 8][4..8] == s[i + 4..i + 8];
    w := Or(low, high * TWO32);
  }

  method LoadQuads(s: bytes) returns (w0: u64, w1: u64, w2: u64, w3: u64)
    requires |s| == 32
    ensures LE(s) == Quads(w0, w1, w2, w3)
  {
    LEQuads(s);
    w0 := Load64(s, 0);
    w1 := Load64(s, 8);
    w2 := Load64(s, 16);
    w3 := Load64(s, 24);
  }

  /** The five slices make up the low 255 bits. */
  lemma SlicesJoin(w0: nat, w1: nat, w2: nat, w3: nat, h: Limbs)
    requires w0 < TWO64 && w1 < TWO64 && w2 < TWO64 && w3 < TWO64
    requires h[0] == w0 % TWO51 && h[4] == w3 / 0x1000 % TWO51
    requires h[1] == w0 / TWO51 + (w1 % 0x40_0000_0000) * 0x2000
    requires h[2] == w1 / 0x40_0000_0000 + (w2 % 0x200_0000) * 0x400_0000
    requires h[3] == w2 / 0x200_0000 + (w3 % 0x1000) * 0x80_0000_0000
    ensures Val(h) == Quads(w0, w1, w2, w3) % TWO255
    ensures forall i :: 0 <= i < 5 ==> h[i] < TWO51
  {
    DropTopBit(w0, w1, w2, w3);
    SliceSum(w0, w1, w2, w3 % 0x8000_0000_0000_0000);
  }

  method Load(h: array<u64>, s: bytes)
    requires h.Length == 5 && |s| == 32
    modifies h
    ensures forall i :: 0 <= i < 5 ==> h[i] < TWO51
    ensures Val(h[..]) == LE(s) % TWO255
  {
    var w0, w1, w2, w3 := LoadQuads(s);
    var h1 := Limb1(w0, w1);
    var h2 := Limb2(w1, w2);
    var h3 := Limb3(w2, w3);
    var l: Limbs := [w0 as int % TWO51, h1, h2, h3, w3 as int / 0x1000 % TWO51];
    SlicesJoin(w0, w1, w2, w3, l);
    h[0], h[1], h[2], h[3], h[4] := l[0], l[1], l[2], l[3], l[4];
    assert h[..] == l;
  }

  // ----- storing

  lemma PackFits(h: nat)
    requires h < TWO51
    ensures (h * TWO51) % TWO64 == (h % 0x2000) * TWO51
    ensures h / 0x2000 < 0x40_0000_0000 && (h * 0x40_0000_0000) % TWO64 == (h % 0x400_0000) * 0x40_0000_0000
    ensures h / 0x400_0000 < 0x200_0000 && (h * 0x200_0000) % TWO64 == (h % 0x80_0000_0000) * 0x200_0000
    ensures h / 0x80_0000_0000 < 0x1000 && (h * 0x1000) % TWO64 == h * 0x1000
  {
    ShiftWithin(h, TWO51, 0x2000, TWO64);
    ShiftWithin(h, 0x40_0000_0000, 0x400_0000, TWO64);
    ShiftWithin(h, 0x200_0000, 0x80_0000_0000, TWO64);
  }

  lemma Pow2Packs()
    ensures Pow2(51) == TWO51 && Pow2(38) == 0x40_0000_0000 && Pow2(25) == 0x200_0000 && Pow2(12) == 0x1000
  {
    Pow2Slices();
    Pow2Sum(13, 25);
    Pow2Sum(12, 39);
  }

  lemma PackWords(h0: nat, h1: nat, h2: nat, h3: nat, h4: nat)
    requires h0 < TWO51 && h1 < TWO51 && h2 < TWO51 && h3 < TWO51 && h4 < TWO51
    ensures Or(h0, (h1 * TWO51) % TWO64) == h0 + (h1 % 0x2000) * TWO51
    ensures Or(h1 / 0x2000, (h2 * 0x40_0000_0000) % TWO64) == h1 / 0x2000 + (h2 % 0x400_0000) * 0x40_0000_0000
    ensures Or(h2 / 0x400_0000, (h3 * 0x200_0000) % TWO64) == h2 / 0x400_0000 + (h3 % 0x80_0000_0000) * 0x200_0000
    ensures Or(h3 / 0x80_0000_0000, (h4 * 0x1000) % TWO64) == h3 / 0x80_0000_0000 + h4 * 0x1000
  {
    Pow2Packs();
    PackFits(h1);
    PackFits(h2);
    PackFits(h3);
    PackFits(h4);
    OrShifted(h0, h1 % 0x2000, 51, TWO51);
    OrShifted(h1 / 0x2000, h2 % 0x400_0000, 38, 0x40_0000_0000);
    OrShifted(h2 / 0x400_0000, h3 % 0x80_0000_0000, 25, 0x200_0000);
    OrShifted(h3 / 0x80_0000_0000, h4, 12, 0x1000);
  }

  lemma PackValue(h0: nat, h1: nat, h2: nat, h3: nat, h4: nat)
    requires h0 < TWO51 && h1 < TWO51 && h2 < TWO51 && h3 < TWO51 && h4 < TWO51
    ensures Quads(h0 + (h1 % 0x2000) * TWO51, h1 / 0x2000 + (h2 % 0x400_0000) * 0x40_0000_0000,
                  h2 / 0x400_0000 + (h3 % 0x80_0000_0000) * 0x200_0000, h3 / 0x80_0000_0000 + h4 * 0x1000)
         == Val5(h0, h1, h2, h3, h4) < TWO255
  {
  }

  function Store64(w: u64): (r: bytes)
    ensures |r| == 8 && LE(r) == w
  {
    StorePair(w);
    Store32(w as int % TWO32) + Store32(w as int / TWO32)
  }

  lemma StorePair(w: u64)
    ensures LE(Store32(w as int % TWO32) + Store32(w as int / TWO32)) == w
  {
    hide LE, Store32;
    LEAppend(Store32(w as int % TWO32), Store32(w as int / TWO32));
    assert Pow256(4) == TWO32;
  }

  lemma LEOfQuads(a: bytes, b: bytes, c: bytes, d: bytes)
    requires |a| == |b| == |c| == |d| == 8
    ensures LE(a + (b + (c + d))) == Quads(LE(a), LE(b), LE(c), LE(d))
  {
    Pow256Of8();
    LEAppend(a, b + (c + d));
    LEAppend(b, c + d);
    LEAppend(c, d);
  }

  /** The carries out of a tight element are at most one, and limb 0 has none. */
  lemma SmallCarries(h: Limbs, c0: int, c1: int, c2: int, c3: int, c4: int)
    requires Tight(h)
    requires c0 == h[0] as int / TWO51 && c1 == (h[1] as int + c0) / TWO51 && c2 == (h[2] as int + c1) / TWO51
    requires c3 == (h[3] as int + c2) / TWO51 && c4 == (h[4] as int + c3) / TWO51
    ensures c0 == 0 && 0 <= c4 <= c3 <= c2 <= c1 <= 1
    ensures c1 == 1 ==> h[1] as int >= TWO51
  {
  }

  /** A carry out of limb 4 reaches limb 1 only when limb 1 itself has just overflowed,
      so one pass settles every limb below 2^51. */
  lemma SettledBounds(h: Limbs, c4: int, c1: int, v0: int)
    requires Tight(h) && 0 <= c4 <= c1 == h[1] as int / TWO51 <= 1 && v0 == h[0] as int + c4 * 19
    ensures 0 <= h[1] as int % TWO51 + v0 / TWO51 < TWO51 && 0 <= v0 < TWO64
  {
    if c4 == 0 {
      assert v0 / TWO51 == 0;
    } else {
      assert h[1] as int % TWO51 < 0x2000 && v0 / TWO51 <= 1;
    }
  }

  predicate AreCarries(h: Limbs, c0: int, c1: int, c2: int, c3: int, c4: int) {
    c0 == h[0] as int / TWO51 && c1 == (h[1] as int + c0) / TWO51 && c2 == (h[2] as int + c1) / TWO51
    && c3 == (h[3] as int + c2) / TWO51 && c4 == (h[4] as int + c3) / TWO51
  }

  /** The limbs after the carries c0 to c4 have been passed on. */
  function Passed(h: Limbs, c0: int, c1: int, c2: int, c3: int, c4: int): (g: Limbs)
    requires Tight(h) && AreCarries(h, c0, c1, c2, c3, c4)
    ensures forall i :: 0 <= i < 5 ==> g[i] < TWO51
  {
    var v0 := h[0] as int % TWO51 + c4 * 19;
    SmallCarries(h, c0, c1, c2, c3, c4);
    SettledBounds(h, c4, c1, v0);
    [v0 % TWO51, (h[1] as int + c0) % TWO51 + v0 / TWO51, (h[2] as int + c1) % TWO51,
     (h[3] as int + c2) % TWO51, (h[4] as int + c3) % TWO51]
  }

  lemma PassedValue(h: Limbs, c0: int, c1: int, c2: int, c3: int, c4: int)
    requires Tight(h) && AreCarries(h, c0, c1, c2, c3, c4)
    ensures Val(h) == Val(Passed(h, c0, c1, c2, c3, c4)) + P_DIGITS * c4
  {
    hide Val5, Tight;
    CarryDifference(h[0], h[1], h[2], h[3], h[4], h[1] as int + c0, h[2] as int + c1, h[3] as int + c2,
                    h[4] as int + c3, h[0] as int % TWO51 + c4 * 19);
  }

  lemma PassedElem(h: Limbs, c0: int, c1: int, c2: int, c3: int, c4: int)
    requires Tight(h) && AreCarries(h, c0, c1, c2, c3, c4)
    ensures Elem(Passed(h, c0, c1, c2, c3, c4)) == Elem(h)
  {
    hide Val, Passed, AreCarries, Tight;
    PassedValue(h, c0, c1, c2, c3, c4);
    PValue();
    ModEqual(Val(h), Val(Passed(h, c0, c1, c2, c3, c4)), c4, P);
  }

  function Settled(h: Limbs): (g: Limbs)
    requires Tight(h)
    ensures forall i :: 0 <= i < 5 ==> g[i] < TWO51
  {
    var c0 := h[0] as int / TWO51;
    var c1 := (h[1] as int + c0) / TWO51;
    var c2 := (h[2] as int + c1) / TWO51;
    var c3 := (h[3] as int + c2) / TWO51;
    Passed(h, c0, c1, c2, c3, (h[4] as int + c3) / TWO51)
  }

  lemma SettledElem(h: Limbs)
    requires Tight(h)
    ensures Elem(Settled(h)) == Elem(h)
  {
    hide Elem, Passed, Tight;
    var c0 := h[0] as int / TWO51;
    var c1 := (h[1] as int + c0) / TWO51;
    var c2 := (h[2] as int + c1) / TWO51;
    var c3 := (h[3] as int + c2) / TWO51;
    PassedElem(h, c0, c1, c2, c3, (h[4] as int + c3) / TWO51);
  }

  /** The carry pass that precedes packing. */
  method Settle(h: array<u64>)
    requires h.Length == 5 && Tight(h[..])
    modifies h
    ensures h[..] == Settled(old(h[..])) && Elem(h[..]) == old(Elem(h[..]))
  {
    var g := Settled(h[..]);
    SettledElem(h[..]);
    h[0], h[1], h[2], h[3], h[4] := g[0], g[1], g[2], g[3], g[4];
    assert h[..] == g;
  }

  lemma PackBounds(h0: nat, h1: nat, h2: nat, h3: nat, h4: nat, w0: nat, w1: nat, w2: nat, w3: nat)
    requires h0 < TWO51 && h1 < TWO51 && h2 < TWO51 && h3 < TWO51 && h4 < TWO51
    requires w0 == Or(h0, (h1 * TWO51) % TWO64) && w1 == Or(h1 / 0x2000, (h2 * 0x40_0000_0000) % TWO64)
    requires w2 == Or(h2 / 0x400_0000, (h3 * 0x200_0000) % TWO64) &&
             w3 == Or(h3 / 0x80_0000_0000, (h4 * 0x1000) % TWO64)
    ensures w0 < TWO64 && w1 < TWO64 && w2 < TWO64 && w3 < TWO64
    ensures Quads(w0, w1, w2, w3) == Val5(h0, h1, h2, h3, h4) < TWO255
  {
    PackWords(h0, h1, h2, h3, h4);
    PackValue(h0, h1, h2, h3, h4);
  }

  /** The 32 bytes of five settled limbs. */
  function Pack(h0: nat, h1: nat, h2: nat, h3: nat, h4: nat): (s: bytes)
    requires h0 < TWO51 && h1 < TWO51 && h2 < TWO51 && h3 < TWO51 && h4 < TWO51
    ensures |s| == 32 && LE(s) == Val5(h0, h1, h2, h3, h4) < TWO255
  {
    var w0 := Or(h0, (h1 * TWO51) % TWO64);
    var w1 := Or(h1 / 0x2000, (h2 * 0x40_0000_0000) % TWO64);
    var w2 := Or(h2 / 0x400_0000, (h3 * 0x200_0000) % TWO64);
    var w3 := Or(h3 / 0x80_0000_0000, (h4 * 0x1000) % TWO64);
    PackBounds(h0, h1, h2, h3, h4, w0, w1, w2, w3);
    LEOfQuads(Store64(w0), Store64(w1), Store64(w2), Store64(w3));
    Store64(w0) + (Store64(w1) + (Store64(w2) + Store64(w3)))
  }

  /** The integers below 2^255 that stand for a field element: the element itself, and for the
      first nineteen also the element plus p. */
  predicate Represents(v: nat, e: nat) {
    v == e || (v == e + P && e < 19)
  }

  lemma RepresentsExactly(v: nat, e: nat)
    requires e < P
    ensures Represents(v, e) <==> v < TWO255 && v % P == e
  {
    PValue();
    if v < TWO255 {
      assert v / P <= 1;
    }
  }

  /** Settled limbs that stand for p or more. */
  predicate FromModulus(h: Limbs) {
    h[0] >= TWO51 - 19 && h[1] == h[2] == h[3] == h[4] == TWO51 - 1
  }

  /** The bytes are the element itself exactly when the settled limbs are below p. */
  lemma CanonicalExactly(h: Limbs)
    requires forall i :: 0 <= i < 5 ==> h[i] < TWO51
    ensures LE(Pack(h[0], h[1], h[2], h[3], h[4])) == Elem(h) <==> !FromModulus(h)
  {
    PValue();
    ModulusLimbs(h);
    hide Val, Pack, LE, FromModulus;
    if Val(h) < P {
      ModSmall(Val(h), P);
    }
  }

  lemma ModulusLimbs(h: Limbs)
    requires forall i :: 0 <= i < 5 ==> h[i] < TWO51
    ensures FromModulus(h) <==> Val(h) >= P_DIGITS
  {
  }

  lemma SettledStays(h: Limbs)
    requires forall i :: 0 <= i < 5 ==> h[i] < TWO51
    ensures Tight(h) && Settled(h) == h
  {
  }

  /** The limbs of p itself, which stand for zero, are stored as they are. */
  const MODULUS: Limbs := [TWO51 - 19, TWO51 - 1, TWO51 - 1, TWO51 - 1, TWO51 - 1]

  lemma ModulusStored()
    ensures var h := MODULUS;
            (forall i :: 0 <= i < 5 ==> h[i] < TWO51) &&
            Tight(h) && Elem(h) == 0 && Settled(h) == h && FromModulus(h) &&
            LE(Pack(h[0], h[1], h[2], h[3], h[4])) == P
  {
    PValue();
    var h := MODULUS;
    SettledStays(h);
    hide Settled, Pack, LE;
    assert Val(h) == P_DIGITS;
  }

  method Store(h: array<u64>) returns (s: bytes)
    requires h.Length == 5 && Tight(h[..])
    modifies h
    ensures |s| == 32 && Represents(LE(s), old(Elem(h[..])))
    ensures LE(s) == old(Elem(h[..])) <==> !FromModulus(Settled(old(h[..])))
  {
    Settle(h);
    CanonicalExactly(h[..]);
    s := Pack(h[0], h[1], h[2], h[3], h[4]);
    assert LE(s) == Val(h[..]);
    RepresentsExactly(LE(s), Elem(h[..]));
  }

  method FromLimbs(v: Limbs) returns (h: array<u64>)
    ensures fresh(h) && h.Length == 5 && h[..] == v
  {
    h := new u64[5](i requires 0 <= i < 5 => v[i]);
    assert h[..] == v;
  }

  /** p times 1 is stored as p. */
  method ModulusTimesOne() returns (s: bytes)
    ensures |s| == 32 && LE(s) == P
  {
    ModulusStored();
    OneIsLoose();
    hide Val, Elem, Pack, LE, Settled, FromModulus, Loose, Tight;
    var a := FromLimbs(MODULUS);
    var one := FromLimbs(ONE);
    Mul(a, a, one);
    s := Store(a);
  }

  lemma OneIsLoose()
    ensures Loose(ONE) && Loose(MODULUS)
  {
  }
}
