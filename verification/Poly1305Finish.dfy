/** poly1305_init and poly1305_finish: clamping the key, the last block, the full
    reduction and the tag. */
module Poly1305Finish {
  import opened Words
  import opened Bits
  import opened LittleEndian
  import opened Modular
  import opened Poly1305Limbs
  import opened Poly1305State

  // ----- the last block

  function Padded(c: bytes): (b: bytes)
    requires |c| < 16
    ensures |b| == 16
  {
    c + [1] + seq(15 - |c|, _ => 0)
  }

  /** The padded block without its high bit has the value the polynomial asks for. */
  lemma PaddedValue(c: bytes)
    requires |c| < 16
    ensures BlockValue(Padded(c), 0) == LE(c + [1])
  {
    LEAppendZeros(c + [1], 15 - |c|);
  }

  /** The accumulator after the last block.  With a whole block held back the C code
      would write outside its buffer; here that state is left as it is, and `Finish`
      requires that it does not arise. */
  function LastBlock(st: State): (h: Limbs)
    requires st.Ok()
    ensures Accumulator(h)
  {
    if 0 < st.used < 16 then BlockLimbs(st.h, st.r, Padded(st.buf[..st.used]), 0) else st.h
  }

  lemma LastBlockMeaning(st: State, m: bytes)
    requires Holds(st, m) && st.used < 16
    ensures Val(LastBlock(st)) % P == Hash(m, Val(st.r))
  {
    hide Val, BlockLimbs, LE, Hash, Clamped, Accumulator, BlockValue, Padded;
    if st.used > 0 {
      var c, k := st.buf[..st.used], |m| - st.used;
      HashUnfold(m, Val(st.r));
      BlockMeaning(st.h, st.r, Padded(c), 0);
      PaddedValue(c);
      Congruent(Val(st.h), Hash(m[..k], Val(st.r)), BlockValue(Padded(c), 0), Val(st.r));
    } else {
      assert m[..|m| - 0] == m;
    }
  }

  // ----- the full reduction

  predicate AllBelow26(h: Limbs) {
    forall i :: 0 <= i < 5 ==> h[i] < TWO26
  }

  /** The carry pass of poly1305_finish, from limb 1 around to limb 1. */
  function Settled(h: Limbs): (o: Limbs)
    requires Accumulator(h)
    ensures AllBelow26(o)
    ensures Val(o) % P == Val(h) % P
  {
    var h0: int, h1: int, h2: int, h3: int, h4: int := h[0], h[1], h[2], h[3], h[4];
    var c1 := h1 / TWO26;
    var c2 := (h2 + c1) / TWO26;
    var c3 := (h3 + c2) / TWO26;
    var c4 := (h4 + c3) / TWO26;
    var v0 := h0 + c4 * 5;
    SettledBounds(h0, h1, h2, h3, h4, c1, c2, c3, c4);
    SettledValue(h0, h1, h2, h3, h4, c1, c2, c3, c4);
    [v0 % TWO26, h1 % TWO26 + v0 / TWO26, (h2 + c1) % TWO26, (h3 + c2) % TWO26, (h4 + c3) % TWO26]
  }

  lemma SettledBounds(h0: int, h1: int, h2: int, h3: int, h4: int, c1: int, c2: int, c3: int, c4: int)
    requires 0 <= h0 < TWO26 && 0 <= h1 < TWO26 + 64 && 0 <= h2 < TWO26 && 0 <= h3 < TWO26 && 0 <= h4 < TWO26
    requires c1 == h1 / TWO26 && c2 == (h2 + c1) / TWO26 && c3 == (h3 + c2) / TWO26 && c4 == (h4 + c3) / TWO26
    ensures 0 <= c4 <= c3 <= c2 <= c1 <= 1
    ensures h1 % TWO26 + (h0 + c4 * 5) / TWO26 < TWO26
  {
    if c1 == 0 {
    } else {
      assert h1 % TWO26 < 64;
    }
  }

  lemma SettledValue(h0: int, h1: int, h2: int, h3: int, h4: int, c1: int, c2: int, c3: int, c4: int)
    requires c1 == h1 / TWO26 && c2 == (h2 + c1) / TWO26 && c3 == (h3 + c2) / TWO26 && c4 == (h4 + c3) / TWO26
    ensures Val5((h0 + c4 * 5) % TWO26, h1 % TWO26 + (h0 + c4 * 5) / TWO26, (h2 + c1) % TWO26, (h3 + c2) % TWO26,
                 (h4 + c3) % TWO26) % P
         == Val5(h0, h1, h2, h3, h4) % P
  {
    ModEqual(Val5(h0, h1, h2, h3, h4),
             Val5((h0 + c4 * 5) % TWO26, h1 % TWO26 + (h0 + c4 * 5) / TWO26, (h2 + c1) % TWO26, (h3 + c2) % TWO26,
                  (h4 + c3) % TWO26),
             c4, P);
  }

  /** The masked choice between h and h - p. */
  function Select(h: u32, g: u32, mask: u32): (r: u32)
    requires mask == 0 || mask as int == TWO32 - 1
    ensures r == if mask == 0 then h else g
  {
    Pow2Of64();
    AndOnes(h, 32);
    AndOnes(g, 32);
    Or(And(h, TWO32 - 1 - mask as int), And(g, mask))
  }

  /** Adding 5 and dropping bit 130 subtracts p; the mask keeps the result when the
      subtraction did not go below zero. */
  function Subtracted(h: Limbs): (o: Limbs)
    requires AllBelow26(h)
    ensures AllBelow26(o)
    ensures Val(o) == Val(h) % P
  {
    var g0 := h[0] as int + 5;
    var g1 := h[1] as int + g0 / TWO26;
    var g2 := h[2] as int + g1 / TWO26;
    var g3 := h[3] as int + g2 / TWO26;
    var g4 := (h[4] as int + g3 / TWO26 - TWO26) % TWO32;
    var mask := (g4 / 0x8000_0000 - 1) % TWO32;
    SubtractedMask(h, g0, g1, g2, g3, g4, mask);
    SubtractedValue(h, g0, g1, g2, g3, g4, mask);
    [Select(h[0], g0 % TWO26, mask), Select(h[1], g1 % TWO26, mask), Select(h[2], g2 % TWO26, mask),
     Select(h[3], g3 % TWO26, mask), Select(h[4], g4, mask)]
  }

  lemma SubtractedValue(h: Limbs, g0: int, g1: int, g2: int, g3: int, g4: int, mask: u32)
    requires mask == 0 ==> Val(h) < P
    requires mask != 0 ==> Val5(g0 % TWO26, g1 % TWO26, g2 % TWO26, g3 % TWO26, g4) == Val(h) - P < P
    ensures mask == 0 ==> Val(h) == Val(h) % P
    ensures mask != 0 && Val(h) >= P ==> Val5(g0 % TWO26, g1 % TWO26, g2 % TWO26, g3 % TWO26, g4) == Val(h) % P
  {
    hide Val;
    if mask == 0 {
      ModSmall(Val(h), P);
    } else if Val(h) >= P {
      ModSmall(Val(h) - P, P);
      ModMultiple(Val(h) - P, 1, P);
    }
  }

  lemma SubtractedMask(h: Limbs, g0: int, g1: int, g2: int, g3: int, g4: int, mask: int)
    requires AllBelow26(h)
    requires g0 == h[0] as int + 5 && g1 == h[1] as int + g0 / TWO26 && g2 == h[2] as int + g1 / TWO26
    requires g3 == h[3] as int + g2 / TWO26 && g4 == (h[4] as int + g3 / TWO26 - TWO26) % TWO32
    requires mask == (g4 / 0x8000_0000 - 1) % TWO32
    ensures mask == 0 || mask == TWO32 - 1
    ensures mask == 0 ==> Val(h) < P
    ensures mask != 0 ==> g4 < TWO26 && Val(h) >= P
    ensures mask != 0 ==> Val5(g0 % TWO26, g1 % TWO26, g2 % TWO26, g3 % TWO26, g4) == Val(h) - P < P
  {
    if h[4] as int + g3 / TWO26 < TWO26 {
      assert g4 == h[4] as int + g3 / TWO26 - TWO26 + TWO32;
    } else {
      assert g4 == h[4] as int + g3 / TWO26 - TWO26;
    }
  }

  /** Any accumulator reduced fully: the one representative below p. */
  function FinalLimbs(h: Limbs): (o: Limbs)
    requires Accumulator(h)
    ensures AllBelow26(o) && Val(o) == Val(h) % P
  {
    Subtracted(Settled(h))
  }

  // ----- the tag

  function Quad(w0: int, w1: int, w2: int, w3: int): int {
    w0 + 0x100000000 * w1 + 0x10000000000000000 * w2 + 0x1000000000000000000000000 * w3
  }

  lemma Pow2Tag()
    ensures Pow2(26) == TWO26 && Pow2(20) == 0x10_0000 && Pow2(14) == 0x4000 && Pow2(8) == 0x100
  {
    assert Pow2(8) == 256;
    Pow2Sum(6, 8);
    Pow2Sum(6, 14);
    Pow2Sum(6, 20);
  }

  /** The four words packed from the limbs. */
  function TagWords(h: Limbs): (w: seq<u32>)
    requires AllBelow26(h)
    ensures |w| == 4
    ensures w[0] as int == h[0] as int + (h[1] as int % 64) * TWO26
    ensures w[1] as int == h[1] as int / 64 + (h[2] as int % 0x1000) * 0x10_0000
    ensures w[2] as int == h[2] as int / 0x1000 + (h[3] as int % 0x4_0000) * 0x4000
    ensures w[3] as int == h[3] as int / 0x4_0000 + (h[4] as int % 0x100_0000) * 0x100
  {
    Pow2Tag();
    [JoinWord(h[0], h[1], 26, TWO26, 64), JoinWord(h[1] as int / 64, h[2], 20, 0x10_0000, 0x1000),
     JoinWord(h[2] as int / 0x1000, h[3], 14, 0x4000, 0x4_0000),
     JoinWord(h[3] as int / 0x4_0000, h[4], 8, 0x100, 0x100_0000)]
  }

  /** A word made of a low part below p and the bits of `high` shifted up by p. */
  function JoinWord(low: nat, high: nat, k: nat, p: nat, q: nat): (w: u32)
    requires Pow2(k) == p && low < p && q > 0 && p * q == TWO32
    ensures w as int == low + (high % q) * p
  {
    ShiftWithin(high, p, q, TWO32);
    OrShifted(low, high % q, k, p);
    JoinFits(low, high % q, p, q);
    Or(low, (high * p) % TWO32)
  }

  lemma JoinFits(low: nat, r: nat, p: nat, q: nat)
    requires low < p && r < q && p * q == TWO32
    ensures 0 <= low + r * p < TWO32
  {
    MulMonotone(p, r, q - 1);
    assert p * (q - 1) == TWO32 - p;
  }

  /** They are the low 128 bits of the reduced accumulator. */
  lemma TagWordsValue(h: Limbs)
    requires AllBelow26(h)
    ensures var w := TagWords(h); Quad(w[0], w[1], w[2], w[3]) == Val(h) % TWO128
  {
    var w := TagWords(h);
    var top := h[4] as int / 0x100_0000;
    assert h[4] as int == h[4] as int % 0x100_0000 + 0x100_0000 * top;
    assert Val(h) == Quad(w[0], w[1], w[2], w[3]) + TWO128 * top;
    ModMultiple(Quad(w[0], w[1], w[2], w[3]), top, TWO128);
    ModSmall(Quad(w[0], w[1], w[2], w[3]), TWO128);
  }

  /** The pad is added word by word, and no carry passes from word to word. */
  function Tag(w: seq<u32>, pad: seq<u32>): (t: bytes)
    requires |w| == |pad| == 4
    ensures |t| == 16
  {
    Store32((w[0] as int + pad[0] as int) % TWO32) + (Store32((w[1] as int + pad[1] as int) % TWO32)
    + (Store32((w[2] as int + pad[2] as int) % TWO32) + Store32((w[3] as int + pad[3] as int) % TWO32)))
  }

  lemma TagValue(w: seq<u32>, pad: seq<u32>)
    requires |w| == |pad| == 4
    ensures LE(Tag(w, pad)) == Quad((w[0] as int + pad[0] as int) % TWO32, (w[1] as int + pad[1] as int) % TWO32,
                                    (w[2] as int + pad[2] as int) % TWO32, (w[3] as int + pad[3] as int) % TWO32)
  {
    hide LE, Store32;
    var a, b := Store32((w[0] as int + pad[0] as int) % TWO32), Store32((w[1] as int + pad[1] as int) % TWO32);
    var c, d := Store32((w[2] as int + pad[2] as int) % TWO32), Store32((w[3] as int + pad[3] as int) % TWO32);
    assert Pow256(4) == TWO32;
    LEAppend(a, b + (c + d));
    LEAppend(b, c + d);
    LEAppend(c, d);
  }

  /** Section 2.5.1 of RFC 7539 adds the pad as one 128-bit number.  The coded tag is
      that sum exactly when none of the three low words carries. */
  lemma TagMatchesRfc7539(w: seq<u32>, pad: seq<u32>)
    requires |w| == |pad| == 4
    ensures LE(Tag(w, pad)) == (Quad(w[0], w[1], w[2], w[3]) + Quad(pad[0], pad[1], pad[2], pad[3])) % TWO128
       <==> forall i :: 0 <= i < 3 ==> w[i] as int + pad[i] as int < TWO32
  {
    hide Tag, LE;
    TagValue(w, pad);
    QuadSum(w[0], w[1], w[2], w[3], pad[0], pad[1], pad[2], pad[3]);
    WordCarries(w[0] as int + pad[0] as int, w[1] as int + pad[1] as int,
                w[2] as int + pad[2] as int, w[3] as int + pad[3] as int);
    hide Quad;
    assert (forall i :: 0 <= i < 3 ==> w[i] as int + pad[i] as int < TWO32)
      <==> w[0] as int + pad[0] as int < TWO32 && w[1] as int + pad[1] as int < TWO32 &&
           w[2] as int + pad[2] as int < TWO32;
  }

  lemma QuadSum(a: int, b: int, c: int, d: int, e: int, f: int, g: int, h: int)
    ensures Quad(a, b, c, d) + Quad(e, f, g, h) == Quad(a + e, b + f, c + g, d + h)
  {
  }

  lemma QuadSplit(s0: int, s1: int, s2: int, s3: int)
    requires 0 <= s0 < 2 * TWO32 && 0 <= s1 < 2 * TWO32 && 0 <= s2 < 2 * TWO32 && 0 <= s3 < 2 * TWO32
    ensures var low := Quad(s0 % TWO32, s1 % TWO32, s2 % TWO32, s3 % TWO32);
            var carried := 0x100000000 * (s0 / TWO32) + 0x10000000000000000 * (s1 / TWO32) +
                0x1000000000000000000000000 * (s2 / TWO32);
            Quad(s0, s1, s2, s3) == low + carried + TWO128 * (s3 / TWO32) &&
            0 <= low < TWO128 && 0 <= carried < TWO128 &&
            (carried == 0 <==> s0 < TWO32 && s1 < TWO32 && s2 < TWO32)
  {
  }

  lemma SumWraps(low: int, carried: int)
    requires 0 <= low < TWO128 && 0 <= carried < TWO128
    ensures low == (low + carried) % TWO128 <==> carried == 0
  {
    if low + carried < TWO128 {
      ModSmall(low + carried, TWO128);
    } else {
      ModMultiple(low + carried - TWO128, 1, TWO128);
      ModSmall(low + carried - TWO128, TWO128);
    }
  }

  lemma WordCarries(s0: int, s1: int, s2: int, s3: int)
    requires 0 <= s0 < 2 * TWO32 && 0 <= s1 < 2 * TWO32 && 0 <= s2 < 2 * TWO32 && 0 <= s3 < 2 * TWO32
    ensures Quad(s0 % TWO32, s1 % TWO32, s2 % TWO32, s3 % TWO32) == Quad(s0, s1, s2, s3) % TWO128
       <==> s0 < TWO32 && s1 < TWO32 && s2 < TWO32
  {
    QuadSplit(s0, s1, s2, s3);
    var low := Quad(s0 % TWO32, s1 % TWO32, s2 % TWO32, s3 % TWO32);
    var carried := 0x100000000 * (s0 / TWO32) + 0x10000000000000000 * (s1 / TWO32) +
        0x1000000000000000000000000 * (s2 / TWO32);
    hide Quad;
    ModMultiple(low + carried, s3 / TWO32, TWO128);
    SumWraps(low, carried);
  }

  // ----- the key

  function ClampKey(key: bytes): (c: bytes)
    requires |key| == 32
    ensures |c| == 16
    ensures c[3] < 16 && c[7] < 16 && c[11] < 16 && c[15] < 16
    ensures c[4] as int % 4 == 0 && c[8] as int % 4 == 0 && c[12] as int % 4 == 0
  {
    ClampByte(key[3]);
    ClampByte(key[7]);
    ClampByte(key[11]);
    ClampByte(key[15]);
    ClampByte(key[4]);
    ClampByte(key[8]);
    ClampByte(key[12]);
    [key[0], key[1], key[2], And(key[3], 15), And(key[4], 252), key[5], key[6], And(key[7], 15),
     And(key[8], 252), key[9], key[10], And(key[11], 15), And(key[12], 252), key[13], key[14], And(key[15], 15)]
  }

  /** The mask of section 2.5 of RFC 7539, as bytes and as a number. */
  const KEY_MASK: bytes := [255, 255, 255, 15, 252, 255, 255, 15, 252, 255, 255, 15, 252, 255, 255, 15]

  /** The first half of the key as the number r of the standard. */
  function KeyR(key: bytes): nat
    requires |key| == 32
  {
    And(LE(key[..16]), 0x0ffffffc_0ffffffc_0ffffffc_0fffffff)
  }

  lemma KeyMaskValue()
    ensures LE(KEY_MASK) == 0x0ffffffc_0ffffffc_0ffffffc_0fffffff
  {
    hide LE;
    LE16(KEY_MASK);
  }

  /** Byte by byte or as a number, the clamping is the same. */
  lemma ClampMeaning(key: bytes)
    requires |key| == 32
    ensures LE(ClampKey(key)) == KeyR(key)
  {
    AndEachMeaning(key[..16], KEY_MASK);
    KeyMaskValue();
    hide And, LE;
    MaskedKey(key, AndEach(key[..16], KEY_MASK));
  }

  lemma MaskedKey(key: bytes, m: bytes)
    requires |key| == 32 && |m| == 16 && forall i :: 0 <= i < 16 ==> m[i] as int == And(key[i], KEY_MASK[i])
    ensures ClampKey(key) == m
  {
    hide And;
    AndByte(key[0]);
    AndByte(key[1]);
    AndByte(key[2]);
    AndByte(key[5]);
    AndByte(key[6]);
    AndByte(key[9]);
    AndByte(key[10]);
    AndByte(key[13]);
    AndByte(key[14]);
    assert m == [m[0], m[1], m[2], m[3], m[4], m[5], m[6], m[7], m[8], m[9], m[10], m[11], m[12], m[13], m[14], m[15]];
  }

  lemma ClampByte(b: u8)
    ensures And(b, 15) < 16
    ensures And(b, 252) as int % 4 == 0 && And(b, 252) < 256
  {
    hide And;
    KeepLow4(b as int % 16, b as int / 16);
    ClearLow2(b as int % 4, b as int / 4);
    AndAtMost(b, 252);
  }

  lemma KeepLow4(low: nat, high: nat)
    requires low < 16
    ensures And(low + 16 * high, 15) == low
  {
    Pow2Key();
    AndLow(low, high, 4);
  }

  lemma ClearLow2(low: nat, high: nat)
    requires low < 4
    ensures And(low + 4 * high, 252) == 4 * And(high, 63)
  {
    Pow2Key();
    AndSplit(low, high, 0, 63, 2);
  }

  lemma Pow2Key()
    ensures Pow2(2) == 4 && Pow2(4) == 16 && Pow2(6) == 64 && Pow2(8) == 256
    ensures Pow2(12) == 0x1000 && Pow2(14) == 0x4000 && Pow2(18) == 0x4_0000 && Pow2(20) == 0x10_0000
  {
    Pow2Tag();
    Pow2Sum(6, 6);
    Pow2Sum(12, 6);
  }

  /** The masks of poly1305_init change nothing beyond the clamping already done on the
      bytes: each limb is the plain 26-bit slice of the clamped key. */
  lemma Mask1(a: int, b: int, c: int, d: int)
    requires 0 <= a < 16 && 0 <= b < 256 && b % 4 == 0 && 0 <= c < 256 && 0 <= d < 256
    ensures And(Word(a, b, c, d) / 4, 0x3ffff03) == Word(a, b, c, d) / 4 % TWO26 <= 0x3ffff03
  {
    hide And;
    Pow2Key();
    Cut1(a, b, c, d);
    var high := b / 4 + 0x40 * c + 0x4000 * (d % 16);
    assert Word(a, b, c, d) / 4 == a / 4 + 0x100 * (high + 0x4_0000 * (d / 16));
    MaskHigh(a / 4, high, d / 16);
  }

  /** Bits above the upper run are masked off as well. */
  lemma MaskHigh(low: nat, high: nat, above: nat)
    requires low < 4 && high < 0x4_0000
    ensures And(low + 0x100 * (high + 0x4_0000 * above), 0x3ffff03) == low + 0x100 * high
  {
    Pow2Key();
    AndSplit(low, high + 0x4_0000 * above, 3, 0x3_ffff, 8);
    AndOnes(low, 2);
    AndLow(high, above, 18);
  }

  lemma Mask2(a: int, b: int, c: int, d: int)
    requires 0 <= a < 256 && 0 <= b < 16 && 0 <= c < 256 && c % 4 == 0 && 0 <= d < 256
    ensures And(Word(a, b, c, d) / 16, 0x3ffc0ff) == Word(a, b, c, d) / 16 % TWO26 <= 0x3ffc0ff
  {
    hide And;
    Pow2Key();
    Cut2(a, b, c, d);
    var low, high, above := a / 16 + 0x10 * b, c / 4 + 0x40 * (d % 64), d / 64;
    assert Word(a, b, c, d) / 16 == low + 0x4000 * (high + 0x1000 * above);
    AndSplit(low, high + 0x1000 * above, 0xff, 0xfff, 14);
    AndOnes(low, 8);
    AndLow(high, above, 12);
  }

  lemma Mask3(a: int, b: int, c: int, d: int)
    requires 0 <= a < 256 && 0 <= b < 256 && 0 <= c < 16 && 0 <= d < 256 && d % 4 == 0
    ensures And(Word(a, b, c, d) / 64, 0x3f03fff) == Word(a, b, c, d) / 64 % TWO26 <= 0x3f03fff
  {
    hide And;
    Pow2Key();
    Cut3(a, b, c, d);
    var low, high := a / 64 + 4 * b + 0x400 * c, d / 4;
    assert Word(a, b, c, d) / 64 == low + 0x10_0000 * high;
    AndSplit(low, high, 0x3fff, 0x3f, 20);
    AndOnes(low, 14);
    AndOnes(high, 6);
  }

  lemma Mask4(a: int, b: int, c: int, d: int)
    requires 0 <= a < 256 && 0 <= b < 256 && 0 <= c < 256 && 0 <= d < 16
    ensures And(Word(a, b, c, d) / 256, 0xfffff) == Word(a, b, c, d) / 256 <= 0xfffff
  {
    hide And;
    Pow2Key();
    Cut4(a, b, c, d);
    AndOnes(Word(a, b, c, d) / 256, 20);
  }

  function KeyLimbs(c: bytes): (r: Limbs)
    requires |c| == 16
  {
    AndAtMost(Load32(c, 3) as int / 4, 0x3ffff03);
    AndAtMost(Load32(c, 6) as int / 16, 0x3ffc0ff);
    AndAtMost(Load32(c, 9) as int / 64, 0x3f03fff);
    AndAtMost(Load32(c, 12) as int / 0x100, 0xfffff);
    [Load32(c, 0) as int % TWO26, And(Load32(c, 3) as int / 4, 0x3ffff03), And(Load32(c, 6) as int / 16, 0x3ffc0ff),
     And(Load32(c, 9) as int / 64, 0x3f03fff), And(Load32(c, 12) as int / 0x100, 0xfffff)]
  }

  lemma KeyMeaning(key: bytes)
    requires |key| == 32
    ensures Clamped(KeyLimbs(ClampKey(key))) && Val(KeyLimbs(ClampKey(key))) == LE(ClampKey(key))
  {
    hide LE;
    var c := ClampKey(key);
    hide ClampKey, And;
    Mask1(c[3], c[4], c[5], c[6]);
    Mask2(c[6], c[7], c[8], c[9]);
    Mask3(c[9], c[10], c[11], c[12]);
    Mask4(c[12], c[13], c[14], c[15]);
    CutBlock(c);
  }

  function PadWords(key: bytes): (p: seq<u32>)
    requires |key| == 32
    ensures |p| == 4
  {
    [Load32(key, 16), Load32(key, 20), Load32(key, 24), Load32(key, 28)]
  }

  /** Nothing absorbed and nothing buffered. */
  predicate Blank(st: State) {
    st.h == [0, 0, 0, 0, 0] && st.buf == seq(16, _ => 0)
  }

  lemma BlankValue(st: State)
    requires Blank(st)
    ensures Val(st.h) == 0
  {
  }

  function Fresh(r: Limbs, pad: seq<u32>): (st: State)
    requires Clamped(r) && |pad| == 4
    ensures st.Ok() && st.used == 0 && st.pad == pad && st.r == r
    ensures Blank(st)
  {
    State(r, [0, 0, 0, 0, 0], pad, seq(16, _ => 0), 0)
  }

  /** The state after poly1305_init. */
  function InitState(key: bytes): (st: State)
    requires |key| == 32
    ensures st.Ok() && st.used == 0 && st.pad == PadWords(key) && st.r == KeyLimbs(ClampKey(key))
    ensures Blank(st)
  {
    KeyMeaning(key);
    Fresh(KeyLimbs(ClampKey(key)), PadWords(key))
  }

  lemma InitMeaning(key: bytes)
    requires |key| == 32
    ensures Val(InitState(key).h) == 0 && Val(InitState(key).r) == LE(ClampKey(key))
  {
    hide ClampKey, KeyLimbs, PadWords, LE;
    KeyMeaning(key);
    BlankValue(InitState(key));
  }

  /** The tag poly1305_finish gives for a message under a one-time key. */
  function MacTag(key: bytes, m: bytes): (t: bytes)
    requires |key| == 32
    ensures |t| == 16
  {
    Tag(TagWords(FinalLimbs(LastBlock(FeedAll(InitState(key), m)))), PadWords(key))
  }

  /** The reduced accumulator after a whole message. */
  function FinalAccumulator(key: bytes, m: bytes): (o: Limbs)
    requires |key| == 32
    ensures AllBelow26(o)
  {
    FinalLimbs(LastBlock(FeedAll(InitState(key), m)))
  }

  /** For every key and every message that is empty or does not end on a block
      boundary, the limbs after the conditional subtraction are exactly the polynomial
      reduced below 2^130 - 5. */
  lemma AccumulatorMeaning(key: bytes, m: bytes)
    requires |key| == 32 && (m == [] || |m| % 16 != 0)
    ensures FeedAll(InitState(key), m).used < 16
    ensures Val(FinalAccumulator(key, m)) == Hash(m, KeyR(key))
  {
    hide Val, LE, Hash, FeedAll, BlockLimbs, ClampKey, KeyLimbs, KeyR, LastBlock, Settled, Subtracted;
    InitMeaning(key);
    ClampMeaning(key);
    hide InitState;
    HeldBlock(InitState(key), m);
    FeedMeaning(InitState(key), m);
    hide Holds, Accumulator, Clamped;
    LastBlockMeaning(FeedAll(InitState(key), m), m);
  }

  /** Word i of a number, from the least significant one. */
  function WordAt(x: nat, i: nat): u32 {
    if i == 0 then x % TWO32 else if i == 1 then x / TWO32 % TWO32 else x / TWO64 % TWO32
  }

  lemma DivUnique(x: int, m: int, q: int, r: int)
    requires 0 <= r < m && x == m * q + r
    ensures x / m == q && x % m == r
  {
    assert x == m * (x / m) + x % m;
    QuotientUnique(m, x / m, x % m, q, r);
  }

  lemma WordsOfQuad(w0: nat, w1: nat, w2: nat, w3: nat, x: nat)
    requires w0 < TWO32 && w1 < TWO32 && w2 < TWO32 && w3 < TWO32
    requires Quad(w0, w1, w2, w3) == x % TWO128
    ensures w0 == WordAt(x, 0) && w1 == WordAt(x, 1) && w2 == WordAt(x, 2)
  {
    var top := w3 + TWO32 * (x / TWO128);
    DivUnique(x, TWO32, w1 + TWO32 * (w2 + TWO32 * top), w0);
    DivUnique(w1 + TWO32 * (w2 + TWO32 * top), TWO32, w2 + TWO32 * top, w1);
    DivUnique(x, TWO64, w2 + TWO32 * top, w0 + TWO32 * w1);
    DivUnique(w2 + TWO32 * top, TWO32, top, w2);
  }

  lemma PadValue(key: bytes)
    requires |key| == 32
    ensures var pad := PadWords(key); LE(key[16..]) == Quad(pad[0], pad[1], pad[2], pad[3]) < TWO128
  {
    var a, b, c, d := key[16..20], key[20..24], key[24..28], key[28..32];
    assert key[16..] == a + (b + (c + d));
    hide LE;
    assert Pow256(4) == TWO32;
    LEAppend(a, b + (c + d));
    LEAppend(b, c + d);
    LEAppend(c, d);
  }

  /** The tag of section 2.5 of RFC 7539: the polynomial and the second half of the key,
      added as 128-bit numbers. */
  function RfcTag(key: bytes, m: bytes): nat
    requires |key| == 32
  {
    (Hash(m, KeyR(key)) + LE(key[16..])) % TWO128
  }

  /** No word of the sum but the last carries. */
  predicate NoCarry(x: nat, y: nat) {
    forall i :: 0 <= i < 3 ==> WordAt(x, i) as int + WordAt(y, i) as int < TWO32
  }

  lemma TagOfSum(w: seq<u32>, pad: seq<u32>, h: nat, s: nat)
    requires |w| == |pad| == 4
    requires Quad(w[0], w[1], w[2], w[3]) == h % TWO128 && Quad(pad[0], pad[1], pad[2], pad[3]) == s % TWO128
    ensures LE(Tag(w, pad)) == (h + s) % TWO128 <==> NoCarry(h, s)
  {
    hide Quad, WordAt, LE, Tag;
    WordsOfQuad(w[0], w[1], w[2], w[3], h);
    WordsOfQuad(pad[0], pad[1], pad[2], pad[3], s);
    ModAddReduce(h, s, TWO128);
    TagMatchesRfc7539(w, pad);
    assert NoCarry(h, s) <==> forall i :: 0 <= i < 3 ==> w[i] as int + pad[i] as int < TWO32;
  }

  lemma MacTagWords(key: bytes, m: bytes) returns (w: seq<u32>, pad: seq<u32>)
    requires |key| == 32 && (m == [] || |m| % 16 != 0)
    ensures |w| == |pad| == 4 && MacTag(key, m) == Tag(w, pad)
    ensures Quad(w[0], w[1], w[2], w[3]) == Hash(m, KeyR(key)) % TWO128
    ensures Quad(pad[0], pad[1], pad[2], pad[3]) == LE(key[16..]) % TWO128
  {
    hide Val, LE, Hash, Tag, ClampKey, PadWords, TagWords, Settled, Subtracted, FinalLimbs, LastBlock, FeedAll,
         InitState, Quad;
    AccumulatorMeaning(key, m);
    PadValue(key);
    ModSmall(LE(key[16..]), TWO128);
    w, pad := TagWords(FinalAccumulator(key, m)), PadWords(key);
    TagWordsValue(FinalAccumulator(key, m));
  }

  /** For every key and every message that is empty or does not end on a block boundary,
      the coded tag is the tag of the standard exactly when the words added to the
      polynomial do not carry. */
  lemma MacMatchesRfc7539(key: bytes, m: bytes)
    requires |key| == 32 && (m == [] || |m| % 16 != 0)
    ensures LE(MacTag(key, m)) == RfcTag(key, m) <==> NoCarry(Hash(m, KeyR(key)), LE(key[16..]))
  {
    hide LE, Hash, Tag, MacTag, ClampKey, NoCarry, Quad;
    var w, pad := MacTagWords(key, m);
    TagOfSum(w, pad, Hash(m, KeyR(key)), LE(key[16..]));
  }

  /** A one-time key with r = 1 and a first pad word of all ones. */
  const DEPARTING_KEY: bytes :=
    [1, 0, 0, 0, 0, 0, 0, 0, 0, 0, 0, 0, 0, 0, 0, 0, 255, 255, 255, 255, 0, 0, 0, 0, 0, 0, 0, 0, 0, 0, 0, 0]

  lemma DepartingR()
    ensures KeyR(DEPARTING_KEY) == 1
  {
    ClampMeaning(DEPARTING_KEY);
    hide LE, KeyR;
    DepartingClamp();
    LEAppendZeros([1], 15);
    HashOfZero();
  }

  lemma DepartingClamp()
    ensures ClampKey(DEPARTING_KEY) == [1] + seq(15, _ => 0)
  {
  }

  lemma DepartingPad()
    ensures LE(DEPARTING_KEY[16..]) == 0xFFFF_FFFF
  {
    assert DEPARTING_KEY[16..] == [255, 255, 255, 255] + seq(12, _ => 0);
    LEAppendZeros([255, 255, 255, 255], 12);
    LE4([255, 255, 255, 255]);
  }

  /** Under that key the polynomial of the one-byte message 0 is 256, the first word carries,
      and the coded tag is not the tag of the standard. */
  lemma MacDeparts()
    ensures LE(MacTag(DEPARTING_KEY, [0])) != RfcTag(DEPARTING_KEY, [0])
  {
    DepartingR();
    DepartingPad();
    HashOfZero();
    hide MacTag, KeyR, LE, Hash;
    MacMatchesRfc7539(DEPARTING_KEY, [0]);
    assert WordAt(256, 0) as int + WordAt(0xFFFF_FFFF, 0) as int >= TWO32;
  }

  lemma HashOfZero()
    ensures Hash([0], 1) == 256 && LE([1]) == 1
  {
    assert [0 as u8][..0] == [] && [0 as u8][0..] == [0];
    assert LE([0, 1]) == 256 by {
      assert [0 as u8, 1][1..] == [1];
    }
    assert Hash([], 1) == 0;
  }
}
