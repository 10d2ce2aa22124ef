/** The Montgomery ladder of x25519.

    On field elements the ladder is `After`: it swaps before and after every bit.
    The code delays each second swap and merges it with the next first one.  The
    step is the one in the code, which differs from section 5 of RFC 7748: see
    `StepMatchesRfc7748`. */
module X25519 {
  import opened Words
  import opened Bits
  import opened LittleEndian
  import opened Modular
  import opened Field25519
  import opened FieldBytes
  import opened FieldElements
  import opened FieldInverse

  // ----- the scalar

  function Clamp(s: bytes): (c: bytes)
    requires |s| == 32
    ensures |c| == 32
  {
    ClampBytes(s[0], s[31]);
    s[0 := And(s[0], 248)][31 := Or(And(s[31], 127), 64)]
  }

  /** The scalar that the bytes stand for: the three low bits and the top bit cleared, and bit
      254 set. */
  function ScalarOf(s: bytes): nat {
    Or(And(LE(s), 0x7fffffff_ffffffff_ffffffff_ffffffff_ffffffff_ffffffff_ffffffff_fffffff8),
       0x40000000_00000000_00000000_00000000_00000000_00000000_00000000_00000000)
  }

  const LOW_MASK: bytes := [248, 255, 255, 255, 255, 255, 255, 255, 255, 255, 255, 255, 255, 255, 255, 255]
  const HIGH_MASK: bytes := [255, 255, 255, 255, 255, 255, 255, 255, 255, 255, 255, 255, 255, 255, 255, 127]
  const NO_BITS: bytes := [0, 0, 0, 0, 0, 0, 0, 0, 0, 0, 0, 0, 0, 0, 0, 0]
  const TOP_BIT: bytes := [0, 0, 0, 0, 0, 0, 0, 0, 0, 0, 0, 0, 0, 0, 0, 64]
  const SCALAR_MASK: bytes := LOW_MASK + HIGH_MASK
  const SCALAR_BIT: bytes := NO_BITS + TOP_BIT

  lemma LowMask()
    ensures LE(LOW_MASK) == TWO128 - 8
  {
    hide LE;
    LE16(LOW_MASK);
  }

  lemma HighMask()
    ensures LE(HIGH_MASK) == TWO128 / 2 - 1
  {
    hide LE;
    LE16(HIGH_MASK);
  }

  lemma NoMask()
    ensures LE(NO_BITS) == 0
  {
    hide LE;
    LE16(NO_BITS);
  }

  lemma TopMask()
    ensures LE(TOP_BIT) == TWO128 / 4
  {
    hide LE, Word;
    LE16(TOP_BIT);
    WordEnds(TOP_BIT[0], 0);
    WordEnds(TOP_BIT[0], 64);
  }

  lemma ScalarMasks()
    ensures LE(SCALAR_MASK) == 0x7fffffff_ffffffff_ffffffff_ffffffff_ffffffff_ffffffff_ffffffff_fffffff8
    ensures LE(SCALAR_BIT) == 0x40000000_00000000_00000000_00000000_00000000_00000000_00000000_00000000
  {
    hide LE;
    LowMask();
    HighMask();
    NoMask();
    TopMask();
    LE32(SCALAR_MASK);
    LE32(SCALAR_BIT);
    assert SCALAR_MASK[..16] == LOW_MASK && SCALAR_MASK[16..] == HIGH_MASK;
    assert SCALAR_BIT[..16] == NO_BITS && SCALAR_BIT[16..] == TOP_BIT;
  }

  /** Byte by byte or as a number, the clamping is the same. */
  lemma ClampMeaning(s: bytes)
    requires |s| == 32
    ensures LE(Clamp(s)) == ScalarOf(s)
  {
    var masked := AndEach(s, SCALAR_MASK);
    AndEachMeaning(s, SCALAR_MASK);
    OrEachMeaning(masked, SCALAR_BIT);
    ScalarMasks();
    hide And, Or, LE;
    MaskedScalar(s, masked, OrEach(masked, SCALAR_BIT));
  }

  lemma MaskedScalar(s: bytes, a: bytes, o: bytes)
    requires |s| == |a| == |o| == 32 && forall i :: 0 <= i < 32 ==> a[i] as int == And(s[i], SCALAR_MASK[i])
    requires forall i :: 0 <= i < 32 ==> o[i] as int == Or(a[i], SCALAR_BIT[i])
    ensures Clamp(s) == o
  {
    hide And, Or;
    forall i | 0 <= i < 32
      ensures Clamp(s)[i] == o[i]
    {
      AndByte(s[i]);
      OrNothing(a[i]);
    }
  }

  lemma OrNothing(b: nat)
    ensures Or(b, 0) == b
  {
  }

  lemma ClampBytes(b: u8, t: u8)
    ensures And(b, 248) < 256 && And(b, 248) % 8 == 0
    ensures 64 <= Or(And(t, 127), 64) < 128
  {
    ClampLow(b as int);
    Pow2Low();
    AndLow(t as int % 128, t as int / 128, 7);
    OrTop(And(t, 127), 6);
  }

  lemma Pow2Low()
    ensures Pow2(3) == 8 && Pow2(6) == 64 && Pow2(7) == 128
  {
  }

  lemma ClampLow(b: nat)
    requires b < 256
    ensures And(b, 248) < 256 && And(b, 248) % 8 == 0
  {
    Pow2Low();
    AndSplit(b % 8, b / 8, 0, 31, 3);
    AndAtMost(b / 8, 31);
  }

  lemma {:induction false} OrTop(y: nat, k: nat)
    requires y < 2 * Pow2(k)
    ensures Pow2(k) <= Or(y, Pow2(k)) < 2 * Pow2(k)
  {
    if k == 0 {
    } else {
      OrHalves(y, Pow2(k));
      OrTop(y / 2, k - 1);
    }
  }

  lemma LEOne(b: u8)
    ensures LE([b]) == b as int
  {
    assert LE([b]) == b as int + 256 * LE([]);
  }

  lemma TopByte(c: bytes)
    requires |c| == 32
    ensures (TWO255 / 128) * c[31] as int <= LE(c) < (TWO255 / 128) * (c[31] as int + 1)
  {
    hide LE, Pow256;
    assert c == c[..31] + [c[31]];
    LEOne(c[31]);
    LEAppend(c[..31], [c[31]]);
    LEBound(c[..31]);
    Pow256Of31();
  }

  lemma TopRange(n: int, b: int)
    requires 64 <= b < 128
    requires (TWO255 / 128) * b <= n < (TWO255 / 128) * (b + 1)
    ensures TWO255 / 2 <= n < TWO255
  {
  }

  lemma RangeFromEnds(c: bytes)
    requires |c| == 32 && c[0] as int % 8 == 0 && 64 <= c[31] < 128
    ensures LE(c) % 8 == 0 && TWO255 / 2 <= LE(c) < TWO255
  {
    hide LE;
    TopByte(c);
    TopRange(LE(c), c[31]);
    LEFirst(c);
  }

  lemma LEFirst(c: bytes)
    requires c != []
    ensures LE(c) % 8 == c[0] as int % 8
  {
    assert LE(c) == c[0] as int + 256 * LE(c[1..]);
  }

  /** Every clamped scalar is a multiple of 8 between 2^254 and 2^255. */
  lemma ClampedRange(s: bytes)
    requires |s| == 32
    ensures LE(Clamp(s)) % 8 == 0 && TWO255 / 2 <= LE(Clamp(s)) < TWO255
  {
    hide LE;
    ClampBytes(s[0], s[31]);
    RangeFromEnds(Clamp(s));
  }

  lemma Pow256Of31()
    ensures Pow256(31) == TWO255 / 128
  {
    Pow256Sum(8, 8);
    Pow256Sum(16, 8);
    Pow256Sum(24, 7);
    Pow256Of8();
    assert Pow256(7) == 256 * 256 * 256 * 256 * 256 * 256 * 256;
  }

  /** Bit t as the loop extracts it. */
  function BitAt(s: bytes, t: nat): (b: nat)
    requires t < 8 * |s|
    ensures b < 2
  {
    s[t / 8] as int / Pow2(t % 8) % 2
  }

  /** It is bit t of the little-endian integer. */
  lemma {:induction false} BitOfInteger(s: bytes, t: nat)
    requires t < 8 * |s|
    ensures BitAt(s, t) == LE(s) / Pow2(t) % 2
  {
    if t < 8 {
      LowByteBit(s[0], LE(s[1..]), t);
    } else {
      BitOfInteger(s[1..], t - 8);
      HighByteBits(s[0], LE(s[1..]), t);
    }
  }

  lemma DivTwice(x: nat, p: nat, q: nat)
    requires p > 0 && q > 0
    ensures p * q > 0 && x / (p * q) == x / p / q
  {
    var y := x / p;
    var m := p * q;
    assert x == p * (q * (y / q) + y % q) + x % p;
    assert p * (q * (y / q)) == m * (y / q);
    assert p * (y % q) + x % p < m by {
      MulMonotone(p, y % q, q - 1);
    }
    QuotientUnique(m, y / q, p * (y % q) + x % p, x / m, x % m);
  }

  lemma HighByteBits(b: u8, rest: nat, t: nat)
    requires t >= 8
    ensures (b as int + 256 * rest) / Pow2(t) == rest / Pow2(t - 8)
  {
    hide Pow2;
    Pow2Sum(8, t - 8);
    Pow2Bytes();
    DivTwice(b as int + 256 * rest, 256, Pow2(t - 8));
    DropByte(b, rest);
  }

  lemma DropByte(b: u8, rest: nat)
    ensures (b as int + 256 * rest) / 256 == rest
  {
  }

  lemma LowByteBit(b: u8, rest: nat, t: nat)
    requires t < 8
    ensures (b as int + 256 * rest) / Pow2(t) % 2 == b as int / Pow2(t) % 2
  {
    Pow2Sum(t, 8 - t);
    Pow2Bytes();
    SplitAt(b, rest, Pow2(t), Pow2(7 - t));
  }

  lemma SplitAt(n: nat, rest: nat, p: nat, q: nat)
    requires p > 0 && p * (2 * q) == 256
    ensures (n + 256 * rest) / p % 2 == n / p % 2
  {
    Reassociate(p, q, rest);
    AddMultiple(n, 2 * (q * rest), p);
    EvenQuotient(n / p, q * rest);
  }

  lemma Reassociate(p: nat, q: nat, rest: nat)
    ensures (p * (2 * q)) * rest == p * (2 * (q * rest))
  {
  }

  lemma EvenQuotient(n: nat, k: nat)
    ensures (n + 2 * k) % 2 == n % 2
  {
  }

  lemma AddMultiple(n: nat, k: nat, p: nat)
    requires p > 0
    ensures (n + p * k) / p == n / p + k
  {
    assert p * (n / p + k) + n % p == n + p * k;
    QuotientUnique(p, n / p + k, n % p, (n + p * k) / p, (n + p * k) % p);
  }

  // ----- the ladder on field elements

  datatype Ladder = Ladder(x2: nat, z2: nat, x3: nat, z3: nat)

  function Swapped(b: bool, s: Ladder): Ladder {
    if b then Ladder(s.x3, s.z3, s.x2, s.z2) else s
  }

  /** One step, as coded: z2 is E * (AA + 121666 * E). */
  function Step(x1: nat, s: Ladder): Ladder {
    var a, b := FAdd(s.x2, s.z2), FSub(s.x2, s.z2);
    var aa, bb := FMul(a, a), FMul(b, b);
    var e := FSub(aa, bb);
    var da, cb := FMul(FSub(s.x3, s.z3), a), FMul(FAdd(s.x3, s.z3), b);
    var sum, difference := FAdd(da, cb), FSub(da, cb);
    Ladder(FMul(aa, bb), FMul(e, FAdd(aa, FMul(121666, e))),
           FMul(sum, sum), FMul(FMul(difference, difference), x1))
  }

  /** The state after the n top bits of the scalar, 254 down to 255 - n. */
  function After(x1: nat, k: nat, n: nat): Ladder
    requires n <= 255
  {
    if n == 0 then Ladder(1, 0, x1, 1)
    else
      var b := k / Pow2(255 - n) % 2 == 1;
      Swapped(b, Step(x1, Swapped(b, After(x1, k, n - 1))))
  }

  lemma SwapTwice(p: bool, b: bool, s: Ladder)
    ensures Swapped(p != b, Swapped(p, s)) == Swapped(b, s)
  {
  }

  // ----- the code

  /** The element state of the four arrays. */
  ghost function State(x2: array<u64>, z2: array<u64>, x3: array<u64>, z3: array<u64>): Ladder
    requires x2.Length == z2.Length == x3.Length == z3.Length == 5
    reads x2, z2, x3, z3
  {
    Ladder(El(x2), El(z2), El(x3), El(z3))
  }

  ghost predicate AllTight(x2: array<u64>, z2: array<u64>, x3: array<u64>, z3: array<u64>)
    requires x2.Length == z2.Length == x3.Length == z3.Length == 5
    reads x2, z2, x3, z3
  {
    IsTight(x2) && IsTight(z2) && IsTight(x3) && IsTight(z3)
  }

  /** A = x2 + z2, AA = A^2, B = x2 - z2, BB = B^2, E = AA - BB. */
  method SumAndDifference(x2: array<u64>, z2: array<u64>)
    returns (A: array<u64>, AA: array<u64>, B: array<u64>, BB: array<u64>, E: array<u64>)
    requires x2.Length == z2.Length == 5 && IsTight(x2) && IsTight(z2)
    ensures fresh(A) && fresh(AA) && fresh(B) && fresh(BB) && fresh(E)
    ensures A.Length == AA.Length == B.Length == BB.Length == E.Length == 5
    ensures IsLoose(A) && IsTight(AA) && IsLoose(AA) && IsLoose(B) && IsLoose(BB) && IsLoose(E)
    ensures El(A) == FAdd(El(x2), El(z2)) && El(AA) == FMul(El(A), El(A))
    ensures El(B) == FSub(El(x2), El(z2)) && El(BB) == FMul(El(B), El(B))
    ensures El(E) == FSub(El(AA), El(BB))
  {
    hide El, IsLoose, IsTight, FMul, FAdd, FSub;
    A := new u64[5];
    AddElem(A, x2, z2);
    AA := new u64[5];
    MulElem(AA, A, A);
    B := new u64[5];
    SubElem(B, x2, z2);
    BB := new u64[5];
    MulElem(BB, B, B);
    E := new u64[5];
    SubElem(E, AA, BB);
  }

  /** x3 = (DA + CB)^2 and z3 = x1 * (DA - CB)^2, for DA = (x3 - z3) * A and CB = (x3 + z3) * B. */
  method AddDifferential(x1: array<u64>, x3: array<u64>, z3: array<u64>, A: array<u64>, B: array<u64>)
    requires x1.Length == x3.Length == z3.Length == A.Length == B.Length == 5
    requires x3 != z3 && x1 != x3 && x1 != z3 && A != x3 && A != z3 && B != x3 && B != z3
    requires IsLoose(x1) && IsTight(x3) && IsTight(z3) && IsLoose(A) && IsLoose(B)
    modifies x3, z3
    ensures IsTight(x3) && IsTight(z3)
    ensures var da := FMul(FSub(old(El(x3)), old(El(z3))), old(El(A)));
            var cb := FMul(FAdd(old(El(x3)), old(El(z3))), old(El(B)));
            El(x3) == FMul(FAdd(da, cb), FAdd(da, cb)) &&
            El(z3) == FMul(FMul(FSub(da, cb), FSub(da, cb)), old(El(x1)))
  {
    hide El, IsLoose, IsTight, FMul, FAdd, FSub;
    var C, D := new u64[5], new u64[5];
    AddElem(C, x3, z3);
    SubElem(D, x3, z3);
    var DA, CB := new u64[5], new u64[5];
    MulElem(DA, D, A);
    MulElem(CB, C, B);
    SumSquared(x3, DA, CB);
    SubElem(z3, DA, CB);
    MulElem(z3, z3, z3);
    MulElem(z3, z3, x1);
  }

  method SumSquared(h: array<u64>, a: array<u64>, b: array<u64>)
    requires h.Length == a.Length == b.Length == 5
    requires IsTight(a) && IsTight(b)
    modifies h
    ensures IsTight(h)
    ensures var s := FAdd(old(El(a)), old(El(b))); El(h) == FMul(s, s)
  {
    hide El, IsLoose, IsTight, FMul, FAdd, FSub;
    AddElem(h, a, b);
    MulElem(h, h, h);
  }

  /** x2 = AA * BB and z2 = E * (AA + 121666 * E). */
  method Double(x2: array<u64>, z2: array<u64>, AA: array<u64>, BB: array<u64>, E: array<u64>)
    requires x2.Length == z2.Length == AA.Length == BB.Length == E.Length == 5
    requires x2 != z2 && AA != x2 && AA != z2 && BB != x2 && BB != z2 && E != x2 && E != z2
    requires IsTight(AA) && IsLoose(AA) && IsLoose(BB) && IsLoose(E)
    modifies x2, z2
    ensures IsTight(x2) && IsTight(z2)
    ensures El(x2) == FMul(old(El(AA)), old(El(BB)))
    ensures El(z2) == FMul(old(El(E)), FAdd(old(El(AA)), FMul(121666, old(El(E)))))
  {
    hide El, IsLoose, IsTight, FMul, FAdd, FSub;
    MulElem(x2, AA, BB);
    var tmp0, tmp1 := new u64[5], new u64[5];
    Mul121666Elem(tmp0, E);
    AddElem(tmp1, AA, tmp0);
    MulElem(z2, E, tmp1);
  }

  method LadderStep(x1: array<u64>, x2: array<u64>, z2: array<u64>, x3: array<u64>, z3: array<u64>)
    requires x1.Length == x2.Length == z2.Length == x3.Length == z3.Length == 5
    requires x1 != x2 && x1 != z2 && x1 != x3 && x1 != z3
    requires x2 != z2 && x2 != x3 && x2 != z3 && z2 != x3 && z2 != z3 && x3 != z3
    requires IsLoose(x1) && AllTight(x2, z2, x3, z3)
    modifies x2, z2, x3, z3
    ensures AllTight(x2, z2, x3, z3)
    ensures State(x2, z2, x3, z3) == Step(El(x1), old(State(x2, z2, x3, z3)))
  {
    hide El, IsLoose, IsTight, FMul, FAdd, FSub;
    var A, AA, B, BB, E := SumAndDifference(x2, z2);
    AddDifferential(x1, x3, z3, A, B);
    Double(x2, z2, AA, BB, E);
  }

  method SwapPairs(x2: array<u64>, z2: array<u64>, x3: array<u64>, z3: array<u64>, sw: u64)
    requires x2.Length == z2.Length == x3.Length == z3.Length == 5
    requires x2 != z2 && x2 != x3 && x2 != z3 && z2 != x3 && z2 != z3 && x3 != z3
    requires AllTight(x2, z2, x3, z3)
    modifies x2, z2, x3, z3
    ensures AllTight(x2, z2, x3, z3)
    ensures State(x2, z2, x3, z3) == Swapped(sw % 2 == 1, old(State(x2, z2, x3, z3)))
  {
    hide Tight, Elem;
    CondSwap(x2, x3, sw);
    CondSwap(z2, z3, sw);
  }

  /** The shared secret of a scalar and a point: the u-coordinate of the multiple of the point
      that the scalar names, as a field element. */
  function SharedElement(scalar: bytes, point: bytes): (x: nat)
    requires |scalar| == |point| == 32
    ensures x < P
  {
    var r := Multiples(LE(point) % TWO255 % P, ScalarOf(scalar));
    FMul(r.x2, PowMod(r.z2, P - 2, P))
  }

  /** One turn of the loop: with a swap of `swap` pending, the arrays stand for
      Swapped(swap, state); afterwards a swap of b is pending. */
  method LadderBit(x1: array<u64>, x2: array<u64>, z2: array<u64>, x3: array<u64>, z3: array<u64>,
                   swap: u64, b: u64, ghost x: nat, ghost k: nat, ghost n: nat)
    requires x1.Length == x2.Length == z2.Length == x3.Length == z3.Length == 5
    requires x1 != x2 && x1 != z2 && x1 != x3 && x1 != z3
    requires x2 != z2 && x2 != x3 && x2 != z3 && z2 != x3 && z2 != z3 && x3 != z3
    requires IsLoose(x1) && El(x1) == x && AllTight(x2, z2, x3, z3)
    requires n < 255 && swap < 2 && b as int == k / Pow2(254 - n) % 2
    requires Swapped(swap == 1, State(x2, z2, x3, z3)) == After(x, k, n)
    modifies x2, z2, x3, z3
    ensures AllTight(x2, z2, x3, z3)
    ensures Swapped(b == 1, State(x2, z2, x3, z3)) == After(x, k, n + 1)
  {
    hide El, IsLoose, IsTight, Step;
    var sw := Xor(swap, b);
    ghost var before := State(x2, z2, x3, z3);
    SwapTwice(swap == 1, b == 1, before);
    SwapPairs(x2, z2, x3, z3, sw);
    LadderStep(x1, x2, z2, x3, z3);
  }

  /** The 255 turns and the swap that is still pending after them. */
  method RunLadder(x1: array<u64>, x2: array<u64>, z2: array<u64>, x3: array<u64>, z3: array<u64>, s: bytes)
    requires |s| == 32
    requires x1.Length == x2.Length == z2.Length == x3.Length == z3.Length == 5
    requires x1 != x2 && x1 != z2 && x1 != x3 && x1 != z3
    requires x2 != z2 && x2 != x3 && x2 != z3 && z2 != x3 && z2 != z3 && x3 != z3
    requires IsLoose(x1) && AllTight(x2, z2, x3, z3)
    requires State(x2, z2, x3, z3) == Ladder(1, 0, El(x1), 1)
    modifies x2, z2, x3, z3
    ensures AllTight(x2, z2, x3, z3)
    ensures State(x2, z2, x3, z3) == After(El(x1), LE(s), 255)
  {
    hide El, IsLoose, IsTight, Step, BitAt, LE;
    ghost var x, k := El(x1), LE(s);
    var swap: u64 := 0;
    for t := 255 downto 0
      invariant IsLoose(x1) && El(x1) == x && AllTight(x2, z2, x3, z3)
      invariant swap < 2
      invariant Swapped(swap == 1, State(x2, z2, x3, z3)) == After(x, k, 255 - t)
    {
      BitOfInteger(s, t);
      var b: u64 := BitAt(s, t);
      LadderBit(x1, x2, z2, x3, z3, swap, b, x, k, 254 - t);
      swap := b;
    }
    SwapPairs(x2, z2, x3, z3, swap);
  }

  /** out = x2 * z2^(p - 2). */
  method Quotient(x2: array<u64>, z2: array<u64>) returns (out: bytes)
    requires x2.Length == z2.Length == 5 && x2 != z2 && IsTight(x2) && IsTight(z2)
    modifies x2
    ensures |out| == 32 && Represents(LE(out), FMul(old(El(x2)), PowMod(El(z2), P - 2, P)))
  {
    hide El, PowMod, FMul, LE;
    var tmp0 := new u64[5];
    TightIsLoose(x2);
    TightIsLoose(z2);
    Invert(tmp0, z2);
    MulElem(x2, x2, tmp0);
    out := StoreElem(x2);
  }

  /** x2 = 1, z2 = 0, x3 = x1, z3 = 1. */
  method StartLadder(x1: array<u64>, x2: array<u64>, z2: array<u64>, x3: array<u64>, z3: array<u64>)
    requires x1.Length == x2.Length == z2.Length == x3.Length == z3.Length == 5
    requires x1 != x2 && x1 != z2 && x1 != x3 && x1 != z3
    requires x2 != z2 && x2 != x3 && x2 != z3 && z2 != x3 && z2 != z3 && x3 != z3
    requires IsTight(x1)
    modifies x2, z2, x3, z3
    ensures AllTight(x2, z2, x3, z3) && State(x2, z2, x3, z3) == Ladder(1, 0, El(x1), 1)
  {
    hide El, IsTight;
    SetSmall(x2, 1);
    SetSmall(z2, 0);
    Copy(x3, x1);
    SetSmall(z3, 1);
  }

  method SharedSecret(scalar: bytes, point: bytes) returns (out: bytes)
    requires |scalar| == |point| == 32
    ensures |out| == 32 && Represents(LE(out), SharedElement(scalar, point))
  {
    hide El, IsLoose, IsTight, After, Clamp, LE, PowMod, FMul;
    var s := Clamp(scalar);
    var x1, x2, z2, x3, z3 := new u64[5], new u64[5], new u64[5], new u64[5], new u64[5];
    LoadElem(x1, point);
    StartLadder(x1, x2, z2, x3, z3);
    RunLadder(x1, x2, z2, x3, z3, s);
    SharedMeaning(scalar, LE(point) % TWO255 % P);
    out := Quotient(x2, z2);
  }

  // ----- what a step computes

  /** A point of a Montgomery curve, up to its sign: the u-coordinate x / z. */
  datatype Point = Point(x: nat, z: nat)

  function Sq(x: int): nat {
    x * x
  }

  /** Twice a point of the curve v^2 = u^3 + a u^2 + u. */
  function Doubled(a: nat, p: Point): Point {
    Point(Sq(p.x * p.x - p.z * p.z) % P, (4 * (p.x * p.z) * (p.x * p.x + a * (p.x * p.z) + p.z * p.z)) % P)
  }

  /** The sum of two points whose difference has the u-coordinate x1. */
  function Joined(x1: nat, p: Point, q: Point): Point {
    Point(Sq(2 * (p.x * q.x - p.z * q.z)) % P, (x1 * Sq(2 * (p.x * q.z - p.z * q.x))) % P)
  }

  /** The coefficient a of the curve on which the code computes, and that of the standard. */
  const CODED_CURVE := 486666
  const CURVE25519 := 486662

  /** A step doubles the first point and adds the two. */
  function StepOn(a: nat, x1: nat, s: Ladder): Ladder {
    var p, q := Point(s.x2, s.z2), Point(s.x3, s.z3);
    Ladder(Doubled(a, p).x, Doubled(a, p).z, Joined(x1, p, q).x, Joined(x1, p, q).z)
  }

  lemma MulResidues(x: int, y: int)
    ensures FMul(x % P, y % P) == (x * y) % P
  {
    ModReduce(x, y, P);
    ModReduce(x % P, y, P);
  }

  lemma AddResidues(x: int, y: int)
    ensures FAdd(x % P, y % P) == (x + y) % P && FSub(x % P, y % P) == (x - y) % P
  {
    ModAddReduce(x, y, P);
  }

  lemma SumOfCross(x2: int, z2: int, x3: int, z3: int)
    ensures (x3 - z3) * (x2 + z2) + (x3 + z3) * (x2 - z2) == 2 * (x2 * x3 - z2 * z3)
    ensures (x3 - z3) * (x2 + z2) - (x3 + z3) * (x2 - z2) == -(2 * (x2 * z3 - z2 * x3))
  {
  }

  lemma JoinedOf(x1: nat, u: int, v: int)
    ensures var da, cb := u % P, v % P;
            FMul(FAdd(da, cb), FAdd(da, cb)) == Sq(u + v) % P &&
            FMul(FMul(FSub(da, cb), FSub(da, cb)), x1) == (x1 * Sq(u - v)) % P
  {
    AddResidues(u, v);
    MulResidues(u + v, u + v);
    MulResidues(u - v, u - v);
    ModReduce(Sq(u - v), x1, P);
  }

  /** The second half of a step: x3 and z3. */
  lemma JoinedMeaning(x1: nat, s: Ladder)
    ensures var j := Joined(x1, Point(s.x2, s.z2), Point(s.x3, s.z3)); Step(x1, s).x3 == j.x && Step(x1, s).z3 == j.z
  {
    var u, v := (s.x3 - s.z3) * (s.x2 + s.z2), (s.x3 + s.z3) * (s.x2 - s.z2);
    MulResidues(s.x3 - s.z3, s.x2 + s.z2);
    MulResidues(s.x3 + s.z3, s.x2 - s.z2);
    JoinedOf(x1, u, v);
    SumOfCross(s.x2, s.z2, s.x3, s.z3);
    NegatedSquare(2 * (s.x2 * s.z3 - s.z2 * s.x3));
    hide FMul, Sq;
  }

  lemma NegatedSquare(d: int)
    ensures Sq(-d) == Sq(d)
  {
  }

  lemma DoubleIdentity(x: int, z: int, a: int)
    ensures (x + z) * (x + z) + a * (4 * (x * z)) == x * x + (4 * a + 2) * (x * z) + z * z
    ensures ((x + z) * (x + z)) * ((x - z) * (x - z)) == (x * x - z * z) * (x * x - z * z)
  {
    var s, d := x + z, x - z;
    assert s * d == x * x - z * z;
    assert (s * s) * (d * d) == (s * d) * (s * d);
  }

  /** The first half, for either constant. */
  lemma DoubledMeaning(x: nat, z: nat, c: nat)
    ensures var aa, bb := FMul(FAdd(x, z), FAdd(x, z)), FMul(FSub(x, z), FSub(x, z));
            var e := FSub(aa, bb);
            FMul(aa, bb) == Doubled(4 * c + 2, Point(x, z)).x &&
            FMul(e, FAdd(aa, FMul(c, e))) == Doubled(4 * c + 2, Point(x, z)).z
  {
    MulResidues(x + z, x + z);
    MulResidues(x - z, x - z);
    FourTimesProduct(x, z);
    DoubleIdentity(x, z, c);
    var s, d, f := (x + z) * (x + z), (x - z) * (x - z), 4 * (x * z);
    MulResidues(s, d);
    ModReduce(c, f, P);
    AddResidues(s, c * f);
    MulResidues(f, s + c * f);
  }

  /** Modulo p, the coded step doubles the first point of the curve with the coefficient 486666
      and adds the two points. */
  lemma StepMeaning(x1: nat, s: Ladder)
    ensures Step(x1, s) == StepOn(CODED_CURVE, x1, s)
  {
    JoinedMeaning(x1, s);
    DoubledMeaning(s.x2, s.z2, 121666);
    hide FMul, FAdd, FSub, Doubled, Joined;
  }

  // ----- what the ladder computes

  /** m times the point with the u-coordinate x1, and m + 1 times, from half of m. */
  function Multiples(x1: nat, m: nat): Ladder {
    if m == 0 then Ladder(1, 0, x1, 1)
    else
      var h := Multiples(x1, m / 2);
      var p, q := Point(h.x2, h.z2), Point(h.x3, h.z3);
      var both := Joined(x1, p, q);
      if m % 2 == 0 then Ladder(Doubled(CODED_CURVE, p).x, Doubled(CODED_CURVE, p).z, both.x, both.z)
      else Ladder(both.x, both.z, Doubled(CODED_CURVE, q).x, Doubled(CODED_CURVE, q).z)
  }

  lemma Commuted(a: int, b: int, c: int, d: int)
    ensures 2 * (a * b - c * d) == 2 * (b * a - d * c)
    ensures 2 * (b * c - d * a) == -(2 * (a * d - c * b))
  {
  }

  lemma JoinedEitherWay(x1: nat, p: Point, q: Point)
    ensures Joined(x1, p, q) == Joined(x1, q, p)
  {
    NegatedSquare(2 * (p.x * q.z - p.z * q.x));
    Commuted(p.x, q.x, p.z, q.z);
    hide Sq;
  }

  lemma MultiplesStep(x1: nat, m: nat)
    requires m > 0
    ensures var h := Multiples(x1, m / 2);
            Swapped(m % 2 == 1, StepOn(CODED_CURVE, x1, Swapped(m % 2 == 1, h))) == Multiples(x1, m)
  {
    var h := Multiples(x1, m / 2);
    JoinedEitherWay(x1, Point(h.x2, h.z2), Point(h.x3, h.z3));
    hide Joined, Doubled;
  }

  lemma HalfQuotient(k: nat, p: nat)
    requires p > 0
    ensures k / p / 2 == k / (2 * p)
  {
    var q := k / p;
    assert k == p * q + k % p;
    assert p * q == (2 * p) * (q / 2) + p * (q % 2) by {
      assert q == 2 * (q / 2) + q % 2;
    }
    if q % 2 == 1 {
      QuotientUnique(2 * p, q / 2, p + k % p, k / (2 * p), k % (2 * p));
    } else {
      QuotientUnique(2 * p, q / 2, k % p, k / (2 * p), k % (2 * p));
    }
  }

  lemma PositiveQuotient(k: nat, p: nat)
    requires 0 < p <= k
    ensures k / p > 0
  {
  }

  lemma TopMultiple(k: nat, n: nat)
    requires 0 < n <= 255 && TWO255 / 2 <= k
    ensures k / Pow2(255 - n) > 0
  {
    hide Pow2;
    Pow2Of254();
    Pow2Sum(255 - n, n - 1);
    MulAtLeast(Pow2(255 - n), Pow2(n - 1));
    PositiveQuotient(k, Pow2(255 - n));
  }

  lemma Pow2Of254()
    ensures Pow2(254) == TWO255 / 2 && Pow2(255) == TWO255 && Pow2(0) == 1
  {
    Pow2Of255();
    assert Pow2(255) == 2 * Pow2(254);
  }

  /** The bits of k that have been read after n turns, as a number. */
  function Read(k: nat, n: nat): nat
    requires n <= 255
  {
    k / Pow2(255 - n)
  }

  lemma LadderStart(x1: nat, k: nat, n: nat)
    requires k < TWO255 && n == 0
    ensures After(x1, k, n) == Multiples(x1, Read(k, n))
  {
    hide Pow2;
    Pow2Of254();
    assert Pow2(255 - n) == TWO255;
    QuotientUnique(TWO255, 0, k, k / TWO255, k % TWO255);
  }

  lemma LadderNext(x1: nat, k: nat, n: nat)
    requires 0 < n <= 255 && TWO255 / 2 <= k < TWO255
    requires After(x1, k, n - 1) == Multiples(x1, Read(k, n) / 2)
    ensures After(x1, k, n) == Multiples(x1, Read(k, n))
  {
    hide Pow2, Step, StepOn, Multiples;
    var m := Read(k, n);
    TopMultiple(k, n);
    StepMeaning(x1, Swapped(m % 2 == 1, Multiples(x1, m / 2)));
    MultiplesStep(x1, m);
  }

  lemma ReadHalf(k: nat, n: nat)
    requires 0 < n <= 255
    ensures Read(k, n) / 2 == Read(k, n - 1)
  {
    HalfQuotient(k, Pow2(255 - n));
    assert Pow2(256 - n) == 2 * Pow2(255 - n);
  }

  /** The ladder holds the multiples that belong to the bits of the scalar read so far; the top
      bit of a clamped scalar is set. */
  lemma {:induction false} LadderMeaning(x1: nat, k: nat, n: nat)
    requires n <= 255 && TWO255 / 2 <= k < TWO255
    ensures After(x1, k, n) == Multiples(x1, Read(k, n))
    decreases n
  {
    hide After, Multiples, Read;
    if n == 0 {
      LadderStart(x1, k, n);
    } else {
      LadderMeaning(x1, k, n - 1);
      ReadHalf(k, n);
      LadderNext(x1, k, n);
    }
  }

  /** The whole ladder computes the multiple that the scalar names. */
  lemma SharedMeaning(scalar: bytes, x1: nat)
    requires |scalar| == 32
    ensures After(x1, LE(Clamp(scalar)), 255) == Multiples(x1, ScalarOf(scalar))
  {
    hide LE, Clamp, After, Multiples, Pow2, ScalarOf;
    ClampedRange(scalar);
    ClampMeaning(scalar);
    Pow2Of254();
    LadderMeaning(x1, LE(Clamp(scalar)), 255);
  }

  // ----- the step against section 5 of RFC 7748

  /** The step of section 5 of RFC 7748, where a24 is 121665, on integers. */
  function RfcStep(x1: nat, s: Ladder): Ladder {
    var a, b, c, d := s.x2 + s.z2, s.x2 - s.z2, s.x3 + s.z3, s.x3 - s.z3;
    var aa, bb := a * a, b * b;
    var e, da, cb := aa - bb, d * a, c * b;
    Ladder((aa * bb) % P, (e * (aa + 121665 * e)) % P, ((da + cb) * (da + cb)) % P, (x1 * ((da - cb) * (da - cb))) % P)
  }

  /** The inverse of 16 modulo p. */
  const INVERSE_OF_16: int := 0x57fffffffffffffffffffffffffffffffffffffffffffffffffffffffffffff3

  lemma InverseOfSixteen()
    ensures (16 * INVERSE_OF_16) % P == 1 % P
  {
    PValue();
  }

  lemma CancelSixteen(y: int)
    ensures (16 * y) % P == 0 <==> y % P == 0
  {
    InverseOfSixteen();
    ModMul(16 * INVERSE_OF_16, 1, y, y, P);
    assert (16 * INVERSE_OF_16) * y == INVERSE_OF_16 * (16 * y);
    ModSmall(0, P);
    if (16 * y) % P == 0 {
      ModMul(INVERSE_OF_16, INVERSE_OF_16, 16 * y, 0, P);
    }
    if y % P == 0 {
      ModMul(16, 16, y, 0, P);
    }
  }

  lemma ZeroDifference(u: int, v: int)
    ensures u % P == v % P <==> (u - v) % P == 0
  {
    ModSmall(0, P);
    if u % P == v % P {
      ModSub(u, v, v, v, P);
    }
    if (u - v) % P == 0 {
      ModAdd(u - v, 0, v, v, P);
    }
  }

  /** E is 4 * x2 * z2. */
  lemma FourTimesProduct(x: nat, z: nat)
    ensures FSub(FMul(FAdd(x, z), FAdd(x, z)), FMul(FSub(x, z), FSub(x, z))) == (4 * (x * z)) % P
  {
    var s, d := x + z, x - z;
    ReduceSquare(s);
    ReduceSquare(d);
    ModAddReduce(s * s, d * d, P);
    SquareIdentity(x, z);
  }

  lemma ReduceSquare(s: int)
    ensures FMul(s % P, s % P) == (s * s) % P
  {
    ModReduce(s, s, P);
    ModReduce(s % P, s, P);
  }

  lemma SquareIdentity(x: int, z: int)
    ensures (x + z) * (x + z) - (x - z) * (x - z) == 4 * (x * z)
  {
  }

  /** The step of the standard doubles and adds on its curve. */
  lemma RfcStepMeaning(x1: nat, s: Ladder)
    ensures RfcStep(x1, s) == StepOn(CURVE25519, x1, s)
  {
    DoubleIdentity(s.x2, s.z2, 121665);
    SquareIdentity(s.x2, s.z2);
    SumOfCross(s.x2, s.z2, s.x3, s.z3);
    NegatedSquare(2 * (s.x2 * s.z3 - s.z2 * s.x3));
  }

  /** Doubling on the two curves agrees only where the mixed term vanishes. */
  lemma CurvesAgree(x: nat, z: nat)
    ensures Doubled(CODED_CURVE, Point(x, z)) == Doubled(CURVE25519, Point(x, z)) <==> ((x * z) * (x * z)) % P == 0
  {
    var y, q := x * z, x * x + z * z;
    var u, v := 4 * y * (x * x + CODED_CURVE * y + z * z), 4 * y * (x * x + CURVE25519 * y + z * z);
    MixedTerm(y, x * x, z * z);
    ZeroDifference(u, v);
    CancelSixteen(y * y);
  }

  lemma MixedTerm(y: int, a: int, b: int)
    ensures 4 * y * (a + CODED_CURVE * y + b) - 4 * y * (a + CURVE25519 * y + b) == 16 * (y * y)
  {
    var f := a + CURVE25519 * y + b;
    assert 4 * y * (f + 4 * y) == 4 * y * f + 4 * y * (4 * y);
  }

  /** The coded step agrees with the step of RFC 7748 exactly on the states whose
      first coordinate pair has (x2 * z2)^2 zero modulo p. */
  lemma StepMatchesRfc7748(x1: nat, s: Ladder)
    ensures Step(x1, s) == RfcStep(x1, s) <==> ((s.x2 * s.z2) * (s.x2 * s.z2)) % P == 0
  {
    StepMeaning(x1, s);
    RfcStepMeaning(x1, s);
    hide Step, RfcStep, Joined;
    CurvesAgree(s.x2, s.z2);
  }

  /** Bit 254 of a clamped scalar is set, so the first step starts from (x1, 1, 1, 0):
      whatever the scalar, it departs from RFC 7748 unless x1 squared is zero modulo p. */
  lemma FirstStepDeparts(scalar: bytes, x1: nat)
    requires |scalar| == 32
    ensures var k := LE(Clamp(scalar));
            var start := Swapped(k / Pow2(254) % 2 == 1, After(x1, k, 0));
            Step(x1, start) == RfcStep(x1, start) <==> (x1 * x1) % P == 0
  {
    hide LE, Clamp;
    ClampedRange(scalar);
    TopBit(LE(Clamp(scalar)));
    StepMatchesRfc7748(x1, Ladder(x1, 1, 1, 0));
  }

  lemma TopBit(k: nat)
    requires TWO255 / 2 <= k < TWO255
    ensures k / Pow2(254) % 2 == 1
  {
    Pow2Of255();
    assert Pow2(255) == 2 * Pow2(254);
  }

  /** In particular for the base point 9. */
  lemma BasePointDeparts()
    ensures Step(9, Ladder(9, 1, 1, 0)) != RfcStep(9, Ladder(9, 1, 1, 0))
  {
    PValue();
    ModSmall(81, P);
    hide Step, RfcStep;
    StepMatchesRfc7748(9, Ladder(9, 1, 1, 0));
  }
}
