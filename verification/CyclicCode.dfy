/** Which code the checksum is: a stream leaves a zero register exactly when it is a multiple of
    the generator x^16 + x^12 + x^5 + 1. */
module CyclicCode {
  import opened Words
  import opened Bits
  import opened Crc

  /** The generator, from its highest term down. */
  const GENERATOR: seq<bool> :=
    [true, false, false, false, true, false, false, false, false, false, false, true, false, false, false, false, true]

  function Zeros(n: nat): (z: seq<bool>)
    ensures |z| == n && forall i :: 0 <= i < n ==> !z[i]
  {
    seq(n, _ => false)
  }

  /** What the last digit of the factor adds. */
  function Term(b: bool): (t: seq<bool>)
    ensures |t| == 17
  {
    if b then GENERATOR else Zeros(17)
  }

  /** The product of a polynomial and the generator, without carries. */
  function Product(q: seq<bool>): (e: seq<bool>)
    ensures |e| == |q| + 16
  {
    if q == [] then Zeros(16)
    else
      var last := |q| - 1;
      Difference(Product(q[..last]) + [false], Zeros(last) + Term(q[last]))
  }

  ghost predicate IsMultiple(e: seq<bool>) {
    if |e| < 16 then forall i :: 0 <= i < |e| ==> !e[i]
    else exists q: seq<bool> :: |q| + 16 == |e| && Product(q) == e
  }

  // ----- the generator leaves nothing

  /** The lower sixteen terms as a word, one bit after the other. */
  lemma WordCons(b: bool, rest: seq<bool>, x: nat, w: seq<bool>, y: nat)
    requires |rest| < 16 && Word(rest) == x && w == [b] + rest && y == (if b then 0x8000 else 0) + x / 2
    ensures Word(w) == y
  {
    assert w[1..] == rest;
  }

  const LOW_TERMS: seq<bool> :=
    [false, false, false, true, false, false, false, false, false, false, true, false, false, false, false, true]

  lemma FourTerms12(w16: seq<bool>) returns (w12: seq<bool>)
    requires |w16| == 0 && Word(w16) == 0x0
    ensures w12 == [false, false, false, true] + w16 && Word(w12) == 0x1000
  {
    hide Word;
    var w15 := [true] + w16;
    WordCons(true, w16, 0x0, w15, 0x8000);
    var w14 := [false] + w15;
    WordCons(false, w15, 0x8000, w14, 0x4000);
    var w13 := [false] + w14;
    WordCons(false, w14, 0x4000, w13, 0x2000);
    w12 := [false] + w13;
    WordCons(false, w13, 0x2000, w12, 0x1000);
  }

  lemma FourTerms8(w12: seq<bool>) returns (w8: seq<bool>)
    requires |w12| == 4 && Word(w12) == 0x1000
    ensures w8 == [false, false, true, false] + w12 && Word(w8) == 0x2100
  {
    hide Word;
    var w11 := [false] + w12;
    WordCons(false, w12, 0x1000, w11, 0x800);
    var w10 := [true] + w11;
    WordCons(true, w11, 0x800, w10, 0x8400);
    var w9 := [false] + w10;
    WordCons(false, w10, 0x8400, w9, 0x4200);
    w8 := [false] + w9;
    WordCons(false, w9, 0x4200, w8, 0x2100);
  }

  lemma FourTerms4(w8: seq<bool>) returns (w4: seq<bool>)
    requires |w8| == 8 && Word(w8) == 0x2100
    ensures w4 == [false, false, false, false] + w8 && Word(w4) == 0x210
  {
    hide Word;
    var w7 := [false] + w8;
    WordCons(false, w8, 0x2100, w7, 0x1080);
    var w6 := [false] + w7;
    WordCons(false, w7, 0x1080, w6, 0x840);
    var w5 := [false] + w6;
    WordCons(false, w6, 0x840, w5, 0x420);
    w4 := [false] + w5;
    WordCons(false, w5, 0x420, w4, 0x210);
  }

  lemma FourTerms0(w4: seq<bool>) returns (w0: seq<bool>)
    requires |w4| == 12 && Word(w4) == 0x210
    ensures w0 == [false, false, false, true] + w4 && Word(w0) == 0x1021
  {
    hide Word;
    var w3 := [true] + w4;
    WordCons(true, w4, 0x210, w3, 0x8108);
    var w2 := [false] + w3;
    WordCons(false, w3, 0x8108, w2, 0x4084);
    var w1 := [false] + w2;
    WordCons(false, w2, 0x4084, w1, 0x2042);
    w0 := [false] + w1;
    WordCons(false, w1, 0x2042, w0, 0x1021);
  }

  lemma LowTermsWord()
    ensures Word(LOW_TERMS) == 0x1021
  {
    assert Word([]) == 0;
    hide Word;
    var w12 := FourTerms12([]);
    var w8 := FourTerms8(w12);
    var w4 := FourTerms4(w8);
    var w0 := FourTerms0(w4);
    assert w0 == LOW_TERMS;
  }

  lemma XorStart(x: nat)
    ensures Xor(0, x) == x
  {
  }

  lemma DoubleTop(r: u16)
    requires r == 0x8000
    ensures (r as int * 2) % TWO16 == 0
  {
  }

  lemma TopTerm()
    ensures FeedBit(0, true) == 0x1021
  {
    XorStart(0x8000);
    XorStart(POLY);
    hide Xor;
    assert Xor16(0, 0x8000) == 0x8000;
    DoubleTop(0x8000);
  }

  lemma GeneratorFeeds()
    ensures FeedBits(0, GENERATOR) == 0
  {
    assert GENERATOR == [true] + LOW_TERMS;
    FeedBitsAppend(0, [true], LOW_TERMS);
    FeedOne(0, true);
    TopTerm();
    FeedWord(0x1021, LOW_TERMS);
    LowTermsWord();
    XorSelf(0x1021);
    ShiftsOfZero(16);
    hide FeedBits, FeedBit, Shifts, Xor, Word;
  }

  lemma FeedOne(r: u16, b: bool)
    ensures FeedBits(r, [b]) == FeedBit(r, b)
  {
    assert [b][1..] == [];
  }

  // ----- multiples leave nothing

  lemma TermFeeds(n: nat, b: bool)
    ensures FeedBits(0, Zeros(n) + Term(b)) == 0
  {
    FeedBitsAppend(0, Zeros(n), Term(b));
    FeedZeros(0, Zeros(n));
    ShiftsOfZero(n);
    if b {
      GeneratorFeeds();
    } else {
      FeedZeros(0, Zeros(17));
      ShiftsOfZero(17);
    }
  }

  lemma ZeroFollows(e: seq<bool>)
    requires FeedBits(0, e) == 0
    ensures FeedBits(0, e + [false]) == 0
  {
    FeedBitsAppend(0, e, [false]);
    FeedZeros(0, [false]);
    ShiftsOfZero(1);
  }

  lemma BothZero(a: seq<bool>, b: seq<bool>)
    requires |a| == |b| && FeedBits(0, a) == 0
    ensures FeedBits(0, Difference(a, b)) == FeedBits(0, b)
  {
    FeedLinear(0, 0, a, b);
    XorSelf(0);
    XorComm(0, FeedBits(0, b));
    hide FeedBits;
  }

  lemma {:induction false} ProductFeeds(q: seq<bool>)
    ensures FeedBits(0, Product(q)) == 0
    decreases |q|
  {
    if q == [] {
      FeedZeros(0, Zeros(16));
      ShiftsOfZero(16);
    } else {
      var last := |q| - 1;
      ProductFeeds(q[..last]);
      hide FeedBits, Term, Zeros;
      ZeroFollows(Product(q[..last]));
      TermFeeds(last, q[last]);
      BothZero(Product(q[..last]) + [false], Zeros(last) + Term(q[last]));
    }
  }

  // ----- division with remainder

  /** The last sixteen terms hold the remainder. */
  function Padded(n: nat, r: seq<bool>): (e: seq<bool>)
    ensures |e| == n + |r|
  {
    Zeros(n) + r
  }

  lemma DivideNone(e: seq<bool>)
    requires |e| == 16
    ensures Divides(e, [], e)
  {
  }

  lemma DivideStep(p: seq<bool>, n: nat, r: seq<bool>, b: bool, t: seq<bool>, next: seq<bool>, e: seq<bool>)
    requires |p| == n + 16 && |r| == 16 && |t| == 17 && t[0] == r[0]
    requires next == Difference(r + [b], t)[1..]
    requires e == Difference(p, Padded(n, r)) + [b]
    ensures e == Difference(Difference(p + [false], Zeros(n) + t), Padded(n + 1, next))
  {
    var d := Difference(Difference(p + [false], Zeros(n) + t), Padded(n + 1, next));
    forall i | 0 <= i < n + 17
      ensures e[i] == d[i]
    {
      if i > n {
        assert next[i - n - 1] == ((r + [b])[i - n] != t[i - n]);
      }
    }
  }

  lemma ProductGrows(q: seq<bool>, b: bool)
    ensures Product(q + [b]) == Difference(Product(q) + [false], Zeros(|q|) + Term(b))
  {
    assert (q + [b])[..|q|] == q;
  }

  lemma TermTop(b: bool)
    ensures Term(b)[0] == b
  {
  }

  ghost predicate Divides(e: seq<bool>, q: seq<bool>, r: seq<bool>) {
    |q| + 16 == |e| && |r| == 16 && e == Difference(Product(q), Padded(|q|, r))
  }

  lemma DivideMore(front: seq<bool>, b: bool, q: seq<bool>, r: seq<bool>) returns (next: seq<bool>)
    requires Divides(front, q, r)
    ensures Divides(front + [b], q + [r[0]], next)
  {
    hide Product, Term, Padded;
    next := Difference(r + [b], Term(r[0]))[1..];
    ProductGrows(q, r[0]);
    TermTop(r[0]);
    DivideStep(Product(q), |q|, r, b, Term(r[0]), next, front + [b]);
  }

  lemma {:induction false} Divide(e: seq<bool>) returns (q: seq<bool>, r: seq<bool>)
    requires |e| >= 16
    ensures Divides(e, q, r)
    decreases |e|
  {
    if |e| == 16 {
      q, r := [], e;
      DivideNone(e);
    } else {
      var front, b := e[..|e| - 1], e[|e| - 1];
      var q0, r0 := Divide(front);
      r := DivideMore(front, b, q0, r0);
      q := q0 + [r0[0]];
      assert e == front + [b];
    }
  }

  lemma RemainderFeeds(n: nat, r: seq<bool>)
    requires |r| == 16
    ensures FeedBits(0, Padded(n, r)) == 0 <==> forall i :: 0 <= i < 16 ==> !r[i]
  {
    FeedBitsAppend(0, Zeros(n), r);
    FeedZeros(0, Zeros(n));
    ShiftsOfZero(n);
    FeedWord(0, r);
    WordZero(r);
    hide FeedBits, Word;
    ShiftsOfZero(16);
    if Word(r) != 0 {
      ShiftsNonZero(16, Word(r));
    }
  }

  lemma ShortFeeds(e: seq<bool>)
    requires |e| < 16
    ensures FeedBits(0, e) == 0 <==> forall i :: 0 <= i < |e| ==> !e[i]
  {
    FeedWord(0, e);
    WordZero(e);
    hide FeedBits, Word;
    ShiftsOfZero(|e|);
    if Word(e) != 0 {
      ShiftsNonZero(|e|, Word(e));
    }
  }

  lemma NoRemainder(p: seq<bool>, n: nat, r: seq<bool>)
    requires |p| == n + 16 && |r| == 16 && forall i :: 0 <= i < 16 ==> !r[i]
    ensures Difference(p, Padded(n, r)) == p
  {
  }

  /** For every stream: the register ends at zero, from zero, if and only if the stream is a
      multiple of the generator. */
  lemma MultipleExactly(e: seq<bool>)
    ensures FeedBits(0, e) == 0 <==> IsMultiple(e)
  {
    hide FeedBits, Padded, Product;
    if |e| < 16 {
      ShortFeeds(e);
    } else {
      var q, r := Divide(e);
      ProductFeeds(q);
      BothZero(Product(q), Padded(|q|, r));
      RemainderFeeds(|q|, r);
      if FeedBits(0, e) == 0 {
        NoRemainder(Product(q), |q|, r);
      }
      if IsMultiple(e) {
        var k: seq<bool> :| |k| + 16 == |e| && Product(k) == e;
        ProductFeeds(k);
      }
    }
  }
}
