/** The ChaCha20 stream of section 2.4 of RFC 7539, working in place on a buffer. */
module ChaCha20 {
  import opened Words
  import opened Bits
  import opened LittleEndian
  import opened Modular

  type Block = s: seq<u32> | |s| == 16 witness seq(16, _ => 0)

  function Add32(a: u32, b: u32): u32 {
    (a as int + b as int) % TWO32
  }

  function Xor32(a: u32, b: u32): u32 {
    Pow2Of64();
    XorBound(a, b, 32);
    Xor(a, b)
  }

  /** Rotation left by k bits, for p = 2^k and q = 2^(32 - k). */
  function Rotl(v: u32, k: nat, p: nat, q: nat): (r: u32)
    requires Pow2(k) == p && p > 0 && q > 0 && p * q == TWO32
    ensures r as int == (v as int % q) * p + v as int / q
  {
    ShiftWithin(v, p, q, TWO32);
    QuotientBound(v, p, q, TWO32);
    OrShifted(v as int / q, v as int % q, k, p);
    RotationFits(v as int / q, v as int % q, p, q);
    Or((v as int * p) % TWO32, v as int / q)
  }

  lemma RotationFits(low: nat, high: nat, p: nat, q: nat)
    requires low < p && high < q && p * q == TWO32
    ensures 0 <= low + high * p < TWO32
  {
    MulMonotone(p, high, q - 1);
    assert p * (q - 1) == TWO32 - p;
  }

  lemma Pow2Rotations()
    ensures Pow2(16) == 0x1_0000 && Pow2(12) == 0x1000 && Pow2(8) == 0x100 && Pow2(7) == 0x80
  {
    Pow2Bytes();
    assert Pow2(7) == 0x80;
    Pow2Sum(6, 6);
  }

  function QuarterRound(x: Block, a: nat, b: nat, c: nat, d: nat): (y: Block)
    requires a < 16 && b < 16 && c < 16 && d < 16
  {
    Pow2Rotations();
    var x := x[a := Add32(x[a], x[b])];
    var x := x[d := Rotl(Xor32(x[d], x[a]), 16, 0x1_0000, 0x1_0000)];
    var x := x[c := Add32(x[c], x[d])];
    var x := x[b := Rotl(Xor32(x[b], x[c]), 12, 0x1000, 0x10_0000)];
    var x := x[a := Add32(x[a], x[b])];
    var x := x[d := Rotl(Xor32(x[d], x[a]), 8, 0x100, 0x100_0000)];
    var x := x[c := Add32(x[c], x[d])];
    x[b := Rotl(Xor32(x[b], x[c]), 7, 0x80, 0x200_0000)]
  }

  datatype Words4 = Words4(a: u32, b: u32, c: u32, d: u32)

  /** The quarter round of section 2.1 of RFC 7539 on four words. */
  function QuarterOf(i: Words4): Words4 {
    Pow2Rotations();
    var a1 := Add32(i.a, i.b);
    var d1 := Rotl(Xor32(i.d, a1), 16, 0x1_0000, 0x1_0000);
    var c1 := Add32(i.c, d1);
    var b1 := Rotl(Xor32(i.b, c1), 12, 0x1000, 0x10_0000);
    var a2 := Add32(a1, b1);
    var d2 := Rotl(Xor32(d1, a2), 8, 0x100, 0x100_0000);
    var c2 := Add32(c1, d2);
    Words4(a2, Rotl(Xor32(b1, c2), 7, 0x80, 0x200_0000), c2, d2)
  }

  // ----- the quarter round undone

  function Sub32(a: u32, b: u32): u32 {
    (a as int - b as int) % TWO32
  }

  /** Rotation right by k bits, for p = 2^k and q = 2^(32 - k). */
  function Rotr(v: u32, p: nat, q: nat): (r: int)
    requires p > 0
  {
    (v as int % p) * q + v as int / p
  }

  lemma AddThenSub(a: u32, b: u32)
    ensures Sub32(Add32(a, b), b) == a
  {
  }

  lemma XorTwice(a: u32, b: u32)
    ensures Xor32(Xor32(a, b), b) == a
  {
    XorCancel(a, b);
    hide Xor;
  }

  lemma LeftThenRight(v: u32, k: nat, p: nat, q: nat)
    requires Pow2(k) == p && p > 0 && q > 0 && p * q == TWO32
    ensures Rotr(Rotl(v, k, p, q), p, q) == v
  {
    hide Pow2, Rotl;
    var r := Rotl(v, k, p, q) as int;
    QuotientBound(v, p, q, TWO32);
    QuotientUnique(p, v as int % q, v as int / q, r / p, r % p);
  }

  function Right(v: u32, k: nat, p: nat, q: nat): u32
    requires Pow2(k) == p && p > 0 && q > 0 && p * q == TWO32
  {
    ShiftWithin(v, q, p, TWO32);
    QuotientBound(v, q, p, TWO32);
    RotationFits(v as int / p, v as int % p, q, p);
    Rotr(v, p, q)
  }

  /** Rotations right by 7, 8, 12 and 16, and subtractions. */
  function Unquarter(o: Words4): Words4 {
    Pow2Rotations();
    var b1 := Xor32(Right(o.b, 7, 0x80, 0x200_0000), o.c);
    var c1 := Sub32(o.c, o.d);
    var d1 := Xor32(Right(o.d, 8, 0x100, 0x100_0000), o.a);
    var a1 := Sub32(o.a, b1);
    var b := Xor32(Right(b1, 12, 0x1000, 0x10_0000), c1);
    var c := Sub32(c1, d1);
    var d := Xor32(Right(d1, 16, 0x1_0000, 0x1_0000), a1);
    Words4(Sub32(a1, b), b, c, d)
  }

  /** The quarter round can be undone, so it loses nothing. */
  lemma QuarterUndone(i: Words4)
    ensures Unquarter(QuarterOf(i)) == i
  {
    Pow2Rotations();
    hide Add32, Sub32, Xor32, Rotl, Rotr, Pow2;
    var a1 := Add32(i.a, i.b);
    var x1 := Xor32(i.d, a1);
    var d1 := Rotl(x1, 16, 0x1_0000, 0x1_0000);
    var c1 := Add32(i.c, d1);
    var y1 := Xor32(i.b, c1);
    var b1 := Rotl(y1, 12, 0x1000, 0x10_0000);
    var a2 := Add32(a1, b1);
    var x2 := Xor32(d1, a2);
    var d2 := Rotl(x2, 8, 0x100, 0x100_0000);
    var c2 := Add32(c1, d2);
    var y2 := Xor32(b1, c2);
    LeftThenRight(y2, 7, 0x80, 0x200_0000);
    XorTwice(b1, c2);
    AddThenSub(c1, d2);
    LeftThenRight(x2, 8, 0x100, 0x100_0000);
    XorTwice(d1, a2);
    AddThenSub(a1, b1);
    LeftThenRight(y1, 12, 0x1000, 0x10_0000);
    XorTwice(i.b, c1);
    AddThenSub(i.c, d1);
    LeftThenRight(x1, 16, 0x1_0000, 0x1_0000);
    XorTwice(i.d, a1);
    AddThenSub(i.a, i.b);
  }

  // ----- where a rotation takes the bits

  predicate BitAt(x: nat, i: nat)
    decreases i
  {
    if i == 0 then x % 2 == 1 else BitAt(x / 2, i - 1)
  }

  /** The bits of a number from a lower and an upper part. */
  lemma {:induction false} BitsJoined(low: nat, high: nat, n: nat, i: nat)
    requires low < Pow2(n)
    ensures Pow2(n) * high >= 0
    ensures BitAt(low + Pow2(n) * high, i) == if i < n then BitAt(low, i) else BitAt(high, i - n)
    decreases n, i
  {
    if n > 0 {
      ShiftedHalf(high, n);
      var half := Pow2(n - 1) * high;
      assert (low + 2 * half) / 2 == low / 2 + half && (low + 2 * half) % 2 == low % 2;
      if i > 0 {
        BitsJoined(low / 2, high, n - 1, i - 1);
      }
    }
  }

  lemma BitsOf(x: nat, low: nat, high: nat, n: nat, p: nat, i: nat)
    requires Pow2(n) == p && low < p && x == low + p * high
    ensures BitAt(x, i) == if i < n then BitAt(low, i) else BitAt(high, i - n)
  {
    BitsJoined(low, high, n, i);
  }

  /** Bit j goes to position j + k, modulo 32. */
  lemma RotlBit(v: u32, k: nat, p: nat, q: nat, j: nat)
    requires k <= 32 && Pow2(k) == p && Pow2(32 - k) == q && p * q == TWO32 && j < 32
    ensures BitAt(Rotl(v, k, p, q), (j + k) % 32) == BitAt(v, j)
  {
    hide Pow2, Rotl, BitAt;
    var low, high := v as int % q, v as int / q;
    QuotientBound(v, p, q, TWO32);
    BitsOf(v, low, high, 32 - k, q, j);
    BitsOf(Rotl(v, k, p, q), high, low, k, p, (j + k) % 32);
  }

  predicate Apart(a: nat, b: nat, c: nat, d: nat) {
    a < 16 && b < 16 && c < 16 && d < 16 && a != b && a != c && a != d && b != c && b != d && c != d
  }

  lemma QuarterRoundOf(x: Block, a: nat, b: nat, c: nat, d: nat)
    requires Apart(a, b, c, d)
    ensures var q := QuarterOf(Words4(x[a], x[b], x[c], x[d]));
            QuarterRound(x, a, b, c, d) == x[a := q.a][b := q.b][c := q.c][d := q.d]
  {
    hide Add32, Xor32, Rotl;
  }

  function DoubleRound(x: Block): Block {
    var x := QuarterRound(QuarterRound(QuarterRound(QuarterRound(x, 0, 4, 8, 12), 1, 5, 9, 13), 2, 6, 10, 14),
                          3, 7, 11, 15);
    QuarterRound(QuarterRound(QuarterRound(QuarterRound(x, 0, 5, 10, 15), 1, 6, 11, 12), 2, 7, 8, 13), 3, 4, 9, 14)
  }

  // ----- the schedule

  /** A block from its four columns. */
  function State(p: Words4, q: Words4, r: Words4, s: Words4): Block {
    [p.a, q.a, r.a, s.a, p.b, q.b, r.b, s.b, p.c, q.c, r.c, s.c, p.d, q.d, r.d, s.d]
  }

  lemma Column0(p: Words4, q: Words4, r: Words4, s: Words4)
    ensures QuarterRound(State(p, q, r, s), 0, 4, 8, 12) == State(QuarterOf(p), q, r, s)
  {
    hide QuarterRound, QuarterOf;
    QuarterRoundOf(State(p, q, r, s), 0, 4, 8, 12);
  }

  lemma Column1(p: Words4, q: Words4, r: Words4, s: Words4)
    ensures QuarterRound(State(p, q, r, s), 1, 5, 9, 13) == State(p, QuarterOf(q), r, s)
  {
    hide QuarterRound, QuarterOf;
    QuarterRoundOf(State(p, q, r, s), 1, 5, 9, 13);
  }

  lemma Column2(p: Words4, q: Words4, r: Words4, s: Words4)
    ensures QuarterRound(State(p, q, r, s), 2, 6, 10, 14) == State(p, q, QuarterOf(r), s)
  {
    hide QuarterRound, QuarterOf;
    QuarterRoundOf(State(p, q, r, s), 2, 6, 10, 14);
  }

  lemma Column3(p: Words4, q: Words4, r: Words4, s: Words4)
    ensures QuarterRound(State(p, q, r, s), 3, 7, 11, 15) == State(p, q, r, QuarterOf(s))
  {
    hide QuarterRound, QuarterOf;
    QuarterRoundOf(State(p, q, r, s), 3, 7, 11, 15);
  }

  lemma Diagonal0(p: Words4, q: Words4, r: Words4, s: Words4)
    ensures var d := QuarterOf(Words4(p.a, q.b, r.c, s.d));
            QuarterRound(State(p, q, r, s), 0, 5, 10, 15) ==
              State(p.(a := d.a), q.(b := d.b), r.(c := d.c), s.(d := d.d))
  {
    hide QuarterRound, QuarterOf;
    QuarterRoundOf(State(p, q, r, s), 0, 5, 10, 15);
  }

  lemma Diagonal1(p: Words4, q: Words4, r: Words4, s: Words4)
    ensures var d := QuarterOf(Words4(q.a, r.b, s.c, p.d));
            QuarterRound(State(p, q, r, s), 1, 6, 11, 12) ==
              State(p.(d := d.d), q.(a := d.a), r.(b := d.b), s.(c := d.c))
  {
    hide QuarterRound, QuarterOf;
    QuarterRoundOf(State(p, q, r, s), 1, 6, 11, 12);
  }

  lemma Diagonal2(p: Words4, q: Words4, r: Words4, s: Words4)
    ensures var d := QuarterOf(Words4(r.a, s.b, p.c, q.d));
            QuarterRound(State(p, q, r, s), 2, 7, 8, 13) ==
              State(p.(c := d.c), q.(d := d.d), r.(a := d.a), s.(b := d.b))
  {
    hide QuarterRound, QuarterOf;
    QuarterRoundOf(State(p, q, r, s), 2, 7, 8, 13);
  }

  lemma Diagonal3(p: Words4, q: Words4, r: Words4, s: Words4)
    ensures var d := QuarterOf(Words4(s.a, p.b, q.c, r.d));
            QuarterRound(State(p, q, r, s), 3, 4, 9, 14) ==
              State(p.(b := d.b), q.(c := d.c), r.(d := d.d), s.(a := d.a))
  {
    hide QuarterRound, QuarterOf;
    QuarterRoundOf(State(p, q, r, s), 3, 4, 9, 14);
  }

  /** A diagonal that starts in the first of these columns. */
  function Diagonal(p: Words4, q: Words4, r: Words4, s: Words4): Words4 {
    QuarterOf(Words4(p.a, q.b, r.c, s.d))
  }

  /** The column that four diagonals leave. */
  function Gathered(p: Words4, q: Words4, r: Words4, s: Words4): Words4 {
    Words4(p.a, s.b, r.c, q.d)
  }

  /** A double round is a quarter round on each column and then one on each diagonal. */
  lemma DoubleRoundOf(p: Words4, q: Words4, r: Words4, s: Words4)
    ensures var i, j, k, l := QuarterOf(p), QuarterOf(q), QuarterOf(r), QuarterOf(s);
            var t, u, v, w := Diagonal(i, j, k, l), Diagonal(j, k, l, i), Diagonal(k, l, i, j), Diagonal(l, i, j, k);
            DoubleRound(State(p, q, r, s)) ==
              State(Gathered(t, u, v, w), Gathered(u, v, w, t), Gathered(v, w, t, u), Gathered(w, t, u, v))
  {
    hide QuarterRound, QuarterOf, State;
    var i, j, k, l := QuarterOf(p), QuarterOf(q), QuarterOf(r), QuarterOf(s);
    Column0(p, q, r, s);
    Column1(i, q, r, s);
    Column2(i, j, r, s);
    Column3(i, j, k, s);
    Diagonal0(i, j, k, l);
    var t, u, v := Diagonal(i, j, k, l), Diagonal(j, k, l, i), Diagonal(k, l, i, j);
    Diagonal1(i.(a := t.a), j.(b := t.b), k.(c := t.c), l.(d := t.d));
    Diagonal2(i.(a := t.a, d := u.d), j.(b := t.b, a := u.a), k.(c := t.c, b := u.b), l.(d := t.d, c := u.c));
    Diagonal3(i.(a := t.a, d := u.d, c := v.c), j.(b := t.b, a := u.a, d := v.d), k.(c := t.c, b := u.b, a := v.a),
              l.(d := t.d, c := u.c, b := v.b));
  }

  /** The columns of a block, moved one place on. */
  function Turned(x: Block): Block {
    [x[1], x[2], x[3], x[0], x[5], x[6], x[7], x[4], x[9], x[10], x[11], x[8], x[13], x[14], x[15], x[12]]
  }

  lemma Columns(x: Block) returns (p: Words4, q: Words4, r: Words4, s: Words4)
    ensures x == State(p, q, r, s) && Turned(x) == State(q, r, s, p)
  {
    p, q := Words4(x[0], x[4], x[8], x[12]), Words4(x[1], x[5], x[9], x[13]);
    r, s := Words4(x[2], x[6], x[10], x[14]), Words4(x[3], x[7], x[11], x[15]);
  }

  /** No column is special: a double round of the turned block is the turned double round. */
  lemma DoubleRoundTurns(x: Block)
    ensures DoubleRound(Turned(x)) == Turned(DoubleRound(x))
  {
    var p, q, r, s := Columns(x);
    DoubleRoundOf(p, q, r, s);
    DoubleRoundOf(q, r, s, p);
    hide DoubleRound, QuarterOf, Diagonal;
  }

  function Rounds(x: Block, n: nat): Block {
    if n == 0 then x else DoubleRound(Rounds(x, n - 1))
  }

  /** Ten double rounds, then the input added word by word. */
  function BlockOf(x: Block): (y: Block)
  {
    AddWords(Rounds(x, 10), x)
  }

  function AddWords(z: Block, x: Block): (y: Block) {
    seq(16, i requires 0 <= i < 16 => Add32(z[i], x[i]))
  }

  /** The words "expand 32-byte k". */
  const SIGMA: bytes := [0x65, 0x78, 0x70, 0x61, 0x6e, 0x64, 0x20, 0x33, 0x32, 0x2d, 0x62, 0x79, 0x74, 0x65, 0x20, 0x6b]

  /** The input block for a key, a nonce and a block counter. */
  function Input(key: bytes, nonce: bytes, counter: u32): (x: Block)
    requires |key| == 32 && |nonce| == 12
  {
    [Load32(SIGMA, 0), Load32(SIGMA, 4), Load32(SIGMA, 8), Load32(SIGMA, 12)]
    + seq(8, i requires 0 <= i < 8 => Load32(key, 4 * i))
    + [counter, Load32(nonce, 0), Load32(nonce, 4), Load32(nonce, 8)]
  }

  /** The first n words of a block as bytes. */
  function Serialized(x: Block, n: nat): (s: bytes)
    requires n <= 16
    ensures |s| == 4 * n
  {
    if n == 0 then [] else Serialized(x, n - 1) + Store32(x[n - 1])
  }

  /** Byte i of the stream that starts at block `counter`: byte i mod 64 of block
      counter + i / 64, the counter taken modulo 2^32. */
  function StreamByte(key: bytes, nonce: bytes, counter: u32, i: nat): u8
    requires |key| == 32 && |nonce| == 12
  {
    Serialized(BlockOf(Input(key, nonce, (counter as int + i / 64) % TWO32)), 16)[i % 64]
  }

  function XorByte(a: u8, b: u8): u8 {
    assert Pow2(8) == 0x100;
    XorBound(a, b, 8);
    Xor(a, b)
  }

  /** The message under the stream, byte by byte. */
  function Ciphered(key: bytes, nonce: bytes, counter: u32, m: bytes): (c: bytes)
    requires |key| == 32 && |nonce| == 12
    ensures |c| == |m|
    ensures forall i :: 0 <= i < |m| ==> c[i] == XorByte(m[i], StreamByte(key, nonce, counter, i))
  {
    seq(|m|, i requires 0 <= i < |m| => XorByte(m[i], StreamByte(key, nonce, counter, i)))
  }

  /** Enciphering twice under the same stream restores the message. */
  lemma CipherTwice(key: bytes, nonce: bytes, counter: u32, m: bytes)
    requires |key| == 32 && |nonce| == 12
    ensures Ciphered(key, nonce, counter, Ciphered(key, nonce, counter, m)) == m
  {
    hide StreamByte, Xor;
    var c := Ciphered(key, nonce, counter, m);
    forall i | 0 <= i < |m|
      ensures XorByte(c[i], StreamByte(key, nonce, counter, i)) == m[i]
    {
      XorCancel(m[i], StreamByte(key, nonce, counter, i));
    }
  }

  // ----- the code

  method QuarterRoundInPlace(x: array<u32>, a: nat, b: nat, c: nat, d: nat)
    requires x.Length == 16 && a < 16 && b < 16 && c < 16 && d < 16
    modifies x
    ensures x[..] == QuarterRound(old(x[..]), a, b, c, d)
  {
    hide Rotl, Add32, Xor32;
    Pow2Rotations();
    ghost var s0: Block := x[..];
    x[a] := Add32(x[a], x[b]);
    ghost var s1 := s0[a := Add32(s0[a], s0[b])];
    assert x[..] == s1;
    x[d] := Rotl(Xor32(x[d], x[a]), 16, 0x1_0000, 0x1_0000);
    ghost var s2 := s1[d := Rotl(Xor32(s1[d], s1[a]), 16, 0x1_0000, 0x1_0000)];
    assert x[..] == s2;
    x[c] := Add32(x[c], x[d]);
    ghost var s3 := s2[c := Add32(s2[c], s2[d])];
    assert x[..] == s3;
    x[b] := Rotl(Xor32(x[b], x[c]), 12, 0x1000, 0x10_0000);
    ghost var s4 := s3[b := Rotl(Xor32(s3[b], s3[c]), 12, 0x1000, 0x10_0000)];
    assert x[..] == s4;
    x[a] := Add32(x[a], x[b]);
    ghost var s5 := s4[a := Add32(s4[a], s4[b])];
    assert x[..] == s5;
    x[d] := Rotl(Xor32(x[d], x[a]), 8, 0x100, 0x100_0000);
    ghost var s6 := s5[d := Rotl(Xor32(s5[d], s5[a]), 8, 0x100, 0x100_0000)];
    assert x[..] == s6;
    x[c] := Add32(x[c], x[d]);
    ghost var s7 := s6[c := Add32(s6[c], s6[d])];
    assert x[..] == s7;
    x[b] := Rotl(Xor32(x[b], x[c]), 7, 0x80, 0x200_0000);
    assert x[..] == s7[b := Rotl(Xor32(s7[b], s7[c]), 7, 0x80, 0x200_0000)];
  }

  method MakeBlock(input: Block) returns (out: array<u32>)
    ensures fresh(out) && out.Length == 16 && out[..] == BlockOf(input)
  {
    hide QuarterRound;
    var x := new u32[16](i requires 0 <= i < 16 => input[i]);
    assert x[..] == input;
    for i := 0 to 10
      invariant x[..] == Rounds(input, i)
    {
      QuarterRoundInPlace(x, 0, 4, 8, 12);
      QuarterRoundInPlace(x, 1, 5, 9, 13);
      QuarterRoundInPlace(x, 2, 6, 10, 14);
      QuarterRoundInPlace(x, 3, 7, 11, 15);
      QuarterRoundInPlace(x, 0, 5, 10, 15);
      QuarterRoundInPlace(x, 1, 6, 11, 12);
      QuarterRoundInPlace(x, 2, 7, 8, 13);
      QuarterRoundInPlace(x, 3, 4, 9, 14);
    }
    out := new u32[16](_ => 0);
    ghost var z := x[..];
    for i := 0 to 16
      invariant x[..] == z
      invariant forall j :: 0 <= j < i ==> out[j] == Add32(z[j], input[j])
    {
      assert x[i] == z[i];
      out[i] := Add32(x[i], input[i]);
    }
    assert out[..] == BlockOf(input);
  }

  /** The inner loop: one chunk of at most 64 bytes. */
  method XorChunk(buf: array<u8>, pos: nat, stream: bytes, chunk: nat)
    requires pos + chunk <= buf.Length && chunk <= |stream|
    modifies buf
    ensures forall j :: pos <= j < pos + chunk ==> buf[j] == XorByte(old(buf[j]), stream[j - pos])
    ensures forall j :: 0 <= j < buf.Length && !(pos <= j < pos + chunk) ==> buf[j] == old(buf[j])
  {
    hide XorByte;
    for i := 0 to chunk
      invariant forall j :: pos <= j < pos + i ==> buf[j] == XorByte(old(buf[j]), stream[j - pos])
      invariant forall j :: 0 <= j < buf.Length && !(pos <= j < pos + i) ==> buf[j] == old(buf[j])
    {
      buf[pos + i] := XorByte(buf[pos + i], stream[i]);
    }
  }

  /** chacha20_xor: buf[i] ^= stream[i] for every byte of the buffer. */
  method XorStream(key: bytes, nonce: bytes, counter: u32, buf: array<u8>)
    requires |key| == 32 && |nonce| == 12 && buf.Length < TWO16
    modifies buf
    ensures buf[..] == Ciphered(key, nonce, counter, old(buf[..]))
  {
    hide StreamByte, XorByte, BlockOf, Input, Serialized;
    ghost var m := buf[..];
    var pos, n := 0, counter;
    while pos < buf.Length
      invariant pos <= buf.Length && (pos % 64 == 0 || pos == buf.Length)
      invariant pos < buf.Length ==> n as int == (counter as int + pos / 64) % TWO32
      invariant forall i :: 0 <= i < pos ==> buf[i] == XorByte(m[i], StreamByte(key, nonce, counter, i))
      invariant forall i :: pos <= i < buf.Length ==> buf[i] == m[i]
    {
      var block := MakeBlock(Input(key, nonce, n));
      var stream := Serialized(block[..], 16);
      forall j | pos <= j < pos + 64
        ensures stream[j - pos] == StreamByte(key, nonce, counter, j)
      {
        StreamAt(key, nonce, counter, pos, j - pos);
      }
      n := (n as int + 1) % TWO32;
      var chunk := if buf.Length - pos > 64 then 64 else buf.Length - pos;
      XorChunk(buf, pos, stream, chunk);
      pos := pos + chunk;
    }
    assert buf[..] == Ciphered(key, nonce, counter, m);
  }

  lemma StreamAt(key: bytes, nonce: bytes, counter: u32, pos: nat, i: nat)
    requires |key| == 32 && |nonce| == 12 && pos % 64 == 0 && i < 64
    ensures StreamByte(key, nonce, counter, pos + i)
         == Serialized(BlockOf(Input(key, nonce, (counter as int + pos / 64) % TWO32)), 16)[i]
  {
    hide BlockOf, Input, Serialized;
    assert (pos + i) / 64 == pos / 64 && (pos + i) % 64 == i;
  }
}
