/** The test vector of Poly1305 in RFC 7539, on the functions that the code is proved to compute. */
module MacVectors {
  import opened Words
  import opened Bits
  import opened LittleEndian
  import opened Modular
  import opened Poly1305Limbs
  import opened Poly1305State
  import opened Poly1305Finish

  // ----- section 2.5.2: "Cryptographic Forum Research Group"

  const R_BYTES: bytes := [
    0x85, 0xd6, 0xbe, 0x78, 0x57, 0x55, 0x6d, 0x33,
    0x7f, 0x44, 0x52, 0xfe, 0x42, 0xd5, 0x06, 0xa8]
  const S_BYTES: bytes := [
    0x01, 0x03, 0x80, 0x8a, 0xfb, 0x0d, 0xb2, 0xfd,
    0x4a, 0xbf, 0xf6, 0xaf, 0x41, 0x49, 0xf5, 0x1b]
  const FIRST: bytes := [
    0x43, 0x72, 0x79, 0x70, 0x74, 0x6f, 0x67, 0x72,
    0x61, 0x70, 0x68, 0x69, 0x63, 0x20, 0x46, 0x6f]
  const SECOND: bytes := [
    0x72, 0x75, 0x6d, 0x20, 0x52, 0x65, 0x73, 0x65,
    0x61, 0x72, 0x63, 0x68, 0x20, 0x47, 0x72, 0x6f]
  const THIRD: bytes := [0x75, 0x70]

  const R := 0x806d5400e52447c036d555408bed685
  const S := 0x1bf54941aff6bf4afdb20dfb8a800301

  lemma FirstBlock()
    ensures LE(FIRST + [1]) == 0x16f4620636968706172676f7470797243
  {
    hide LE;
    LE16(FIRST);
    BlockWithOne(FIRST);
  }

  lemma SecondBlock()
    ensures LE(SECOND + [1]) == 0x16f7247206863726165736552206d7572
  {
    hide LE;
    LE16(SECOND);
    BlockWithOne(SECOND);
  }

  lemma ThirdBlock()
    ensures LE(THIRD + [1]) == 0x17075
  {
    var t := THIRD + [1];
    assert t[1..][1..] == [t[2]] && t[1..][1..][1..] == [];
    assert LE(t[1..][1..]) == 1;
  }

  lemma BlockWithOne(b: bytes)
    requires |b| == 16
    ensures LE(b + [1]) == LE(b) + TWO128
  {
    LEAppend(b, [1]);
    Pow256Sum(4, 4);
    Pow256Sum(8, 8);
    assert Pow256(4) == TWO32;
    assert LE([1]) == 1;
  }

  lemma AfterFirst()
    ensures ((0x0 + 0x16f4620636968706172676f7470797243) * R) % P ==
            0x2c88c77849d64ae9147ddeb88e69c83fc
  {
    Remainder((0x0 + 0x16f4620636968706172676f7470797243) * R, P,
              0x2e0ffa647299a001224557735a7a109, 0x2c88c77849d64ae9147ddeb88e69c83fc);
  }

  lemma AfterSecond()
    ensures ((0x2c88c77849d64ae9147ddeb88e69c83fc + 0x16f7247206863726165736552206d7572) * R) % P ==
            0x2d8adaf23b0337fa7cccfb4ea344b30de
  {
    Remainder((0x2c88c77849d64ae9147ddeb88e69c83fc + 0x16f7247206863726165736552206d7572) * R, P,
              0x8773264b431966e900dbd96edfe2158, 0x2d8adaf23b0337fa7cccfb4ea344b30de);
  }

  lemma AfterThird()
    ensures ((0x2d8adaf23b0337fa7cccfb4ea344b30de + 0x17075) * R) % P ==
            0x28d31b7caff946c77c8844335369d03a7
  {
    Remainder((0x2d8adaf23b0337fa7cccfb4ea344b30de + 0x17075) * R, P,
              0x5b6382283cff87793f9285521ab29e8, 0x28d31b7caff946c77c8844335369d03a7);
  }

  lemma Remainder(x: int, m: int, q: int, r: int)
    requires 0 <= r < m && x == m * q + r
    ensures x % m == r
  {
    QuotientUnique(m, q, r, x / m, x % m);
  }

  lemma HashSteps(a: bytes, b: bytes, r: nat)
    requires |a| % 16 == 0 && 0 < |b| <= 16
    ensures Hash(a + b, r) == ((Hash(a, r) + LE(b + [1])) * r) % P
  {
    assert |a + b| - Pending(|a + b|) == |a|;
    assert (a + b)[..|a|] == a && (a + b)[|a|..] == b;
    hide LE;
  }

  lemma VectorHash()
    ensures Hash(FIRST + SECOND + THIRD, R) == 0x28d31b7caff946c77c8844335369d03a7
  {
    hide LE, Hash;
    FirstBlock();
    SecondBlock();
    ThirdBlock();
    AfterFirst();
    AfterSecond();
    AfterThird();
    HashNone();
    HashSteps([], FIRST, R);
    assert [] + FIRST == FIRST;
    HashSteps(FIRST, SECOND, R);
    HashSteps(FIRST + SECOND, THIRD, R);
  }

  lemma HashNone()
    ensures Hash([], R) == 0
  {
  }

  lemma SecondHalf()
    ensures LE(S_BYTES) == S
  {
    hide LE;
    LE16(S_BYTES);
  }

  /** The first half with the masked bits cleared. */
  const CLAMPED: bytes := [
    0x85, 0xd6, 0xbe, 0x08, 0x54, 0x55, 0x6d, 0x03,
    0x7c, 0x44, 0x52, 0x0e, 0x40, 0xd5, 0x06, 0x08]

  lemma KeepsLow(b: nat, r: nat)
    requires r == b % 16
    ensures And(b, 15) == r
  {
    KeepLow4(b % 16, b / 16);
    hide And;
  }

  lemma ClearsLow(b: nat, r: nat)
    requires b < 256 && r == b - b % 4
    ensures And(b, 252) == r
  {
    ClearLow2(b % 4, b / 4);
    Pow2Key();
    AndOnes(b / 4, 6);
    hide And;
  }

  lemma MaskedBytes()
    ensures And(0x78, 15) == 0x08 && And(0x57, 252) == 0x54 && And(0x33, 15) == 0x03 && And(0x7f, 252) == 0x7c
    ensures And(0xfe, 15) == 0x0e && And(0x42, 252) == 0x40 && And(0xa8, 15) == 0x08
  {
    hide And;
    KeepsLow(0x78, 0x08);
    ClearsLow(0x57, 0x54);
    KeepsLow(0x33, 0x03);
    ClearsLow(0x7f, 0x7c);
    KeepsLow(0xfe, 0x0e);
    ClearsLow(0x42, 0x40);
    KeepsLow(0xa8, 0x08);
  }

  lemma ClampedHalf()
    ensures ClampKey(R_BYTES + S_BYTES) == CLAMPED
  {
    hide And;
    MaskedBytes();
  }

  lemma FirstHalf()
    ensures LE(CLAMPED) == R
  {
    hide LE;
    LE16(CLAMPED);
  }

  /** The tag of the example. */
  lemma PolyVector()
    ensures RfcTag(R_BYTES + S_BYTES, FIRST + SECOND + THIRD) == 0xa927010caf8b2bc2c6365130c11d06a8
  {
    hide LE, Hash, KeyR;
    VectorHash();
    FirstHalf();
    SecondHalf();
    ClampedHalf();
    ClampMeaning(R_BYTES + S_BYTES);
    assert (R_BYTES + S_BYTES)[16..] == S_BYTES;
    Remainder(0x28d31b7caff946c77c8844335369d03a7 + S, TWO128, 0x2, 0xa927010caf8b2bc2c6365130c11d06a8);
  }
}
