/** The addition chain of fe51_invert. */
module FieldInverse {
  import opened Words
  import opened Bits
  import opened Modular
  import opened Field25519
  import opened FieldElements

  /** Ones(n) is 2^n - 1, the number with n one bits. */
  function Ones(n: nat): nat {
    Pow2(n) - 1
  }

  /** The element is z to the e-th power. */
  ghost predicate IsPow(h: array<u64>, z: int, e: nat)
    requires h.Length == 5
    reads h
  {
    IsTight(h) && IsLoose(h) && El(h) == PowMod(z, e, P)
  }

  method SquarePow(h: array<u64>, a: array<u64>, ghost z: int, ghost e: nat)
    requires h.Length == a.Length == 5
    requires IsLoose(a) && El(a) == PowMod(z, e, P)
    modifies h
    ensures IsPow(h, z, 2 * e)
  {
    hide PowMod, El, IsLoose;
    PowModSum(z, e, e, P);
    MulElem(h, a, a);
  }

  /** h := a squared n times. */
  method SquareTimes(h: array<u64>, a: array<u64>, n: nat, ghost z: int, ghost e: nat)
    requires h.Length == a.Length == 5 && n > 0
    requires IsLoose(a) && El(a) == PowMod(z, e, P)
    modifies h
    ensures IsPow(h, z, e * Pow2(n))
  {
    hide PowMod, El, IsLoose, IsTight;
    SquarePow(h, a, z, e);
    ghost var f: nat := 2 * e;
    for i := 1 to n
      invariant f == e * Pow2(i)
      invariant IsPow(h, z, f)
    {
      SquarePow(h, h, z, f);
      f := 2 * f;
    }
  }

  method MulPow(h: array<u64>, a: array<u64>, b: array<u64>, ghost z: int, ghost e: nat, ghost f: nat)
    requires h.Length == a.Length == b.Length == 5
    requires IsLoose(a) && El(a) == PowMod(z, e, P)
    requires IsLoose(b) && El(b) == PowMod(z, f, P)
    modifies h
    ensures IsPow(h, z, e + f)
  {
    hide PowMod, El, IsLoose, IsTight;
    PowModSum(z, e, f, P);
    MulElem(h, a, b);
  }

  /** One stage of the chain: t := a squared n times, then h := t * b. */
  method GrowOnes(h: array<u64>, t: array<u64>, a: array<u64>, b: array<u64>, n: nat, ghost z: int, ghost m: nat)
    requires h.Length == t.Length == a.Length == b.Length == 5 && n > 0 && t != b
    requires IsPow(a, z, Ones(m)) && IsPow(b, z, Ones(n))
    modifies h, t
    ensures IsPow(h, z, Ones(m + n))
    ensures h != t ==> IsTight(t)
  {
    hide PowMod, El, IsLoose, IsTight;
    SquareTimes(t, a, n, z, Ones(m));
    OnesJoin(m, n);
    MulPow(h, t, b, z, Ones(m) * Pow2(n), Ones(n));
  }

  /** Appending n one bits to m of them. */
  lemma OnesJoin(m: nat, n: nat)
    ensures Ones(m) * Pow2(n) >= 0
    ensures Ones(m) * Pow2(n) + Ones(n) == Ones(m + n)
  {
    Pow2Sum(m, n);
    LessOne(Pow2(m), Pow2(n));
  }

  lemma LessOne(p: nat, q: nat)
    requires p > 0
    ensures (p - 1) * q == p * q - q && (p - 1) * q >= 0
  {
  }

  lemma PowOne(x: nat)
    requires x < P
    ensures x == PowMod(x, 1, P)
  {
    ModSmall(x, P);
    assert PowMod(x, 0, P) == 1 by {
      PValue();
    }
    assert PowMod(x, 1, P) == (x * PowMod(x, 0, P)) % P;
  }

  /** The first multiplications: t0 = z^11 and t1 = z^31. */
  method StartChain(t0: array<u64>, t1: array<u64>, t2: array<u64>, z: array<u64>)
    requires t0.Length == t1.Length == t2.Length == z.Length == 5
    requires t0 != t1 && t0 != t2 && t1 != t2 && z != t0 && z != t1 && z != t2
    requires IsLoose(z)
    modifies t0, t1, t2
    ensures IsPow(t0, El(z), 11) && IsPow(t1, El(z), 31)
  {
    hide PowMod, El, IsLoose, IsTight;
    ghost var x := El(z);
    ElBound(z);
    PowOne(x);
    MulPow(t0, z, z, x, 1, 1);
    MulPow(t1, t0, t0, x, 2, 2);
    MulPow(t1, t1, t1, x, 4, 4);
    MulPow(t1, z, t1, x, 1, 8);
    MulPow(t0, t0, t1, x, 2, 9);
    MulPow(t2, t0, t0, x, 11, 11);
    MulPow(t1, t1, t2, x, 9, 22);
  }

  method GrowTo50(t1: array<u64>, t2: array<u64>, t3: array<u64>, ghost x: int)
    requires t1.Length == t2.Length == t3.Length == 5
    requires t1 != t2 && t1 != t3 && t2 != t3
    requires IsPow(t1, x, 31)
    modifies t1, t2, t3
    ensures IsPow(t1, x, Ones(50))
  {
    hide PowMod, El, IsLoose, IsTight, Modulus;
    assert Ones(5) == 31;
    GrowOnes(t1, t2, t1, t1, 5, x, 5);
    GrowOnes(t2, t2, t1, t1, 10, x, 10);
    GrowOnes(t2, t3, t2, t2, 20, x, 20);
    GrowOnes(t1, t2, t2, t1, 10, x, 40);
  }

  method GrowTo250(t1: array<u64>, t2: array<u64>, t3: array<u64>, ghost x: int)
    requires t1.Length == t2.Length == t3.Length == 5
    requires t1 != t2 && t1 != t3 && t2 != t3
    requires IsPow(t1, x, Ones(50))
    modifies t1, t2, t3
    ensures IsPow(t1, x, Ones(250))
  {
    hide PowMod, El, IsLoose, IsTight;
    GrowOnes(t2, t2, t1, t1, 50, x, 50);
    GrowOnes(t2, t3, t2, t2, 100, x, 100);
    GrowOnes(t1, t2, t2, t1, 50, x, 200);
  }

  method Invert(out: array<u64>, z: array<u64>)
    requires out.Length == z.Length == 5
    requires IsLoose(z)
    modifies out
    ensures IsPow(out, old(El(z)), P - 2)
  {
    hide PowMod, El, IsLoose, IsTight;
    var t0, t1, t2, t3 := new u64[5], new u64[5], new u64[5], new u64[5];
    ghost var x := El(z);
    StartChain(t0, t1, t2, z);
    GrowTo50(t1, t2, t3, x);
    GrowTo250(t1, t2, t3, x);
    FinishChain(out, t1, t0, x);
  }

  /** The last five squarings and the multiplication by z^11. */
  method FinishChain(out: array<u64>, t1: array<u64>, t0: array<u64>, ghost x: int)
    requires out.Length == t1.Length == t0.Length == 5 && t0 != t1
    requires IsPow(t1, x, Ones(250)) && IsPow(t0, x, 11)
    modifies out, t1
    ensures IsPow(out, x, P - 2)
  {
    hide PowMod, El, IsLoose, IsTight;
    InverseExponent();
    ghost var e: nat := Ones(250) * Pow2(5);
    SquareTimes(t1, t1, 5, x, Ones(250));
    MulPow(out, t1, t0, x, e, 11);
  }

  lemma InverseExponent()
    ensures Ones(250) * Pow2(5) + 11 == P - 2
  {
    OnesJoin(250, 5);
    Pow2Of255();
  }
}
