/** Little-endian byte strings: load32_le, store32_le and the integer they stand for. */
module LittleEndian {
  import opened Words
  import opened Bits

  /** The integer a byte string stands for, least significant byte first. */
  function LE(b: bytes): nat {
    if |b| == 0 then 0 else b[0] + 256 * LE(b[1..])
  }

  function Pow256(n: nat): (p: nat)
    ensures p > 0
  {
    if n == 0 then 1 else 256 * Pow256(n - 1)
  }

  lemma ScaleAssoc(p: int, x: int)
    ensures (256 * p) * x == 256 * (p * x)
  {
  }

  lemma {:induction false} Pow256Sum(m: nat, n: nat)
    ensures Pow256(m + n) == Pow256(m) * Pow256(n)
  {
    if m == 0 {
    } else {
      Pow256Sum(m - 1, n);
      ScaleAssoc(Pow256(m - 1), Pow256(n));
    }
  }

  lemma {:induction false} LEAppend(a: bytes, b: bytes)
    ensures LE(a + b) == LE(a) + Pow256(|a|) * LE(b)
  {
    if a == [] {
      assert a + b == b;
    } else {
      LEAppend(a[1..], b);
      assert (a + b)[1..] == a[1..] + b;
      ScaleAssoc(Pow256(|a| - 1), LE(b));
      assert LE(a + b) == a[0] as int + 256 * (LE(a[1..]) + Pow256(|a| - 1) * LE(b));
    }
  }

  lemma {:induction false} LEBound(b: bytes)
    ensures LE(b) < Pow256(|b|)
  {
    if b == [] {
    } else {
      LEBound(b[1..]);
    }
  }

  lemma LEZeros(n: nat)
    ensures LE(seq(n, _ => 0)) == 0
  {
    if n == 0 {
    } else {
      assert seq(n, _ => 0)[1..] == seq(n - 1, _ => 0);
      LEZeros(n - 1);
    }
  }

  lemma LEAppendZeros(a: bytes, n: nat)
    ensures LE(a + seq(n, _ => 0)) == LE(a)
  {
    var zeros: bytes := seq(n, _ => 0);
    LEAppend(a, zeros);
    LEZeros(n);
    TimesZero(Pow256(|a|), LE(zeros));
  }

  lemma TimesZero(p: int, z: int)
    requires z == 0
    ensures p * z == 0
  {
  }

  function Word(b0: int, b1: int, b2: int, b3: int): int {
    b0 + 0x100 * b1 + 0x1_0000 * b2 + 0x100_0000 * b3
  }

  lemma WordEnds(z: int, t: int)
    requires z == 0
    ensures Word(z, z, z, t) == 0x100_0000 * t
  {
  }

  lemma LETwo(a: u8, b: u8)
    ensures LE([a, b]) == a as int + 0x100 * b as int
  {
    assert [a, b][1..] == [b] && [b][1..] == [];
    assert LE([b]) == b as int;
  }

  lemma LE4(b: bytes)
    requires |b| == 4
    ensures LE(b) == Word(b[0], b[1], b[2], b[3])
  {
    assert b[1..][1..] == b[2..] && b[2..][1..] == b[3..] && b[3..][1..] == [];
    assert LE(b[1..]) == b[1] + 256 * LE(b[2..]);
    assert LE(b[2..]) == b[2] + 256 * LE(b[3..]);
    assert LE(b[3..]) == b[3] + 256 * LE([]);
  }

  lemma OrWord(b0: nat, b1: nat, b2: nat, b3: nat)
    requires b0 < 0x100 && b1 < 0x100 && b2 < 0x100 && b3 < 0x100
    ensures Or(Or(Or(b0, b1 * 0x100), b2 * 0x1_0000), b3 * 0x100_0000) == Word(b0, b1, b2, b3) < TWO32
  {
    Pow2Bytes();
    OrShifted(b0, b1, 8, 0x100);
    OrShifted(b0 + b1 * 0x100, b2, 16, 0x1_0000);
    OrShifted(b0 + b1 * 0x100 + b2 * 0x1_0000, b3, 24, 0x100_0000);
  }

  function Load32(p: bytes, i: nat): (r: u32)
    requires i + 4 <= |p|
    ensures r == LE(p[i..i + 4]) == Word(p[i], p[i + 1], p[i + 2], p[i + 3])
  {
    var b0: nat, b1: nat, b2: nat, b3: nat := p[i], p[i + 1], p[i + 2], p[i + 3];
    OrWord(b0, b1, b2, b3);
    LE4(p[i..i + 4]);
    Or(Or(Or(b0, b1 * 0x100), b2 * 0x1_0000), b3 * 0x100_0000)
  }

  function Store32(v: u32): (r: bytes)
    ensures |r| == 4 && LE(r) == v
  {
    WordDigits(v);
    var r := [v % 0x100, v / 0x100 % 0x100, v / 0x1_0000 % 0x100, v / 0x100_0000 % 0x100];
    LE4(r);
    r
  }

  lemma WordDigits(v: int)
    requires 0 <= v < TWO32
    ensures Word(v % 0x100, v / 0x100 % 0x100, v / 0x1_0000 % 0x100, v / 0x100_0000 % 0x100) == v
  {
    var n1, n2, n3 := v / 0x100, v / 0x1_0000, v / 0x100_0000;
    assert n1 / 0x100 == n2;
    assert n2 / 0x100 == n3;
    assert n3 % 0x100 == n3;
    assert v == v % 0x100 + 0x100 * n1 && n1 == n1 % 0x100 + 0x100 * n2 && n2 == n2 % 0x100 + 0x100 * n3;
  }

  lemma LEHead4(b: bytes)
    requires |b| >= 4
    ensures LE(b) == Load32(b, 0) as int + TWO32 * LE(b[4..])
  {
    assert Pow256(4) == TWO32;
    assert b == b[0..4] + b[4..];
    LEAppend(b[0..4], b[4..]);
  }

  /** Sixteen bytes as four words. */
  lemma LE16(b: bytes)
    requires |b| == 16
    ensures LE(b) == Word(b[0], b[1], b[2], b[3]) + TWO32 * (Word(b[4], b[5], b[6], b[7]) +
                       TWO32 * (Word(b[8], b[9], b[10], b[11]) + TWO32 * Word(b[12], b[13], b[14], b[15])))
  {
    hide LE;
    LEHead4(b);
    LEHead4(b[4..]);
    LEHead4(b[4..][4..]);
    LE4(b[4..][4..][4..]);
  }

  lemma LE32(b: bytes)
    requires |b| == 32
    ensures LE(b) == LE(b[..16]) + TWO128 * LE(b[16..])
  {
    assert b == b[..16] + b[16..];
    LEAppend(b[..16], b[16..]);
    Pow256Sum(4, 4);
    Pow256Sum(8, 8);
    assert Pow256(4) == TWO32;
  }

  // ----- masks

  /** Byte by byte. */
  function AndEach(b: bytes, mask: bytes): (c: bytes)
    requires |b| == |mask|
    ensures |c| == |b| && forall i :: 0 <= i < |b| ==> c[i] as int == And(b[i], mask[i])
  {
    if b == [] then [] else AndAtMost(b[0], mask[0]); [And(b[0], mask[0]) as u8] + AndEach(b[1..], mask[1..])
  }

  function OrEach(b: bytes, mask: bytes): (c: bytes)
    requires |b| == |mask|
    ensures |c| == |b| && forall i :: 0 <= i < |b| ==> c[i] as int == Or(b[i], mask[i])
  {
    if b == [] then [] else
      Pow2Bytes();
      OrBound(b[0], mask[0], 8);
      [Or(b[0], mask[0]) as u8] + OrEach(b[1..], mask[1..])
  }

  /** A mask on the bytes is a mask on the integer. */
  lemma {:induction false} AndEachMeaning(b: bytes, mask: bytes)
    requires |b| == |mask|
    ensures LE(AndEach(b, mask)) == And(LE(b), LE(mask))
    decreases |b|
  {
    if b != [] {
      AndEachMeaning(b[1..], mask[1..]);
      Pow2Bytes();
      AndSplit(b[0], LE(b[1..]), mask[0], LE(mask[1..]), 8);
      assert AndEach(b, mask)[1..] == AndEach(b[1..], mask[1..]);
      hide And, Pow2;
    }
  }

  lemma {:induction false} OrEachMeaning(b: bytes, mask: bytes)
    requires |b| == |mask|
    ensures LE(OrEach(b, mask)) == Or(LE(b), LE(mask))
    decreases |b|
  {
    if b != [] {
      OrEachMeaning(b[1..], mask[1..]);
      Pow2Bytes();
      OrSplit(b[0], LE(b[1..]), mask[0], LE(mask[1..]), 8);
      assert OrEach(b, mask)[1..] == OrEach(b[1..], mask[1..]);
      hide Or, Pow2;
    }
  }

  lemma AndByte(b: u8)
    ensures And(b, 255) == b
  {
    Pow2Bytes();
    AndOnes(b, 8);
  }
}
