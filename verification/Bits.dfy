/** Bitwise operations on words, bit by bit from the least significant end. */
module Bits {
  import opened Words

  function Pow2(n: nat): (p: nat)
    ensures p > 0
  {
    if n == 0 then 1 else 2 * Pow2(n - 1)
  }

  function And(a: nat, b: nat): nat {
    if a == 0 || b == 0 then 0
    else 2 * And(a / 2, b / 2) + (if a % 2 == 1 && b % 2 == 1 then 1 else 0)
  }

  function Or(a: nat, b: nat): nat
    decreases a + b
  {
    if a == 0 then b else if b == 0 then a
    else 2 * Or(a / 2, b / 2) + (if a % 2 == 1 || b % 2 == 1 then 1 else 0)
  }

  function Xor(a: nat, b: nat): nat
    decreases a + b
  {
    if a == 0 then b else if b == 0 then a
    else 2 * Xor(a / 2, b / 2) + (if a % 2 != b % 2 then 1 else 0)
  }

  lemma {:induction false} Pow2Sum(m: nat, n: nat)
    ensures Pow2(m + n) == Pow2(m) * Pow2(n)
  {
    if m == 0 {
    } else {
      Pow2Sum(m - 1, n);
      assert 2 * (Pow2(m - 1) * Pow2(n)) == (2 * Pow2(m - 1)) * Pow2(n);
    }
  }

  lemma Pow2Double(n: nat, p: int)
    requires Pow2(n) == p
    ensures Pow2(2 * n) == p * p
  {
    Pow2Sum(n, n);
  }

  lemma Pow2Of255()
    ensures Pow2(255) == 0x8000000000000000000000000000000000000000000000000000000000000000
  {
    Pow2Of64();
    Pow2Double(64, TWO64);
    Pow2Double(128, TWO128);
    assert Pow2(256) == 2 * Pow2(255);
  }

  lemma Pow2Of64()
    ensures Pow2(32) == TWO32 && Pow2(64) == TWO64
  {
    assert Pow2(8) == 256;
    Pow2Double(8, 256);
    Pow2Double(16, 256 * 256);
    Pow2Double(32, 256 * 256 * 256 * 256);
  }

  lemma Pow2Bytes()
    ensures Pow2(8) == 0x100 && Pow2(16) == 0x1_0000 && Pow2(24) == 0x100_0000
  {
  }

  lemma OrHalves(a: nat, b: nat)
    ensures Or(a, b) == 2 * Or(a / 2, b / 2) + (if a % 2 == 1 || b % 2 == 1 then 1 else 0)
  {
    if a == 0 || b == 0 {
    } else {
    }
  }

  lemma AndHalves(a: nat, b: nat)
    ensures And(a, b) == 2 * And(a / 2, b / 2) + (if a % 2 == 1 && b % 2 == 1 then 1 else 0)
  {
    if a == 0 || b == 0 {
    } else {
    }
  }

  lemma ShiftedHalf(high: nat, k: nat)
    requires k > 0
    ensures Pow2(k) * high == 2 * (Pow2(k - 1) * high)
    ensures Pow2(k - 1) * high >= 0
  {
  }

  /** Or of a value below 2^k with a multiple of 2^k is their sum. */
  lemma {:induction false} OrDisjoint(low: nat, high: nat, k: nat)
    requires low < Pow2(k)
    ensures Pow2(k) * high >= 0
    ensures Or(low, Pow2(k) * high) == Or(Pow2(k) * high, low) == low + Pow2(k) * high
  {
    if k == 0 {
    } else {
      OrDisjoint(low / 2, high, k - 1);
      ShiftedHalf(high, k);
      OrDisjointStep(low, Pow2(k - 1) * high);
    }
  }

  /** OrDisjoint for a shift whose power of two is known. */
  lemma OrShifted(low: nat, high: nat, k: nat, p: int)
    requires Pow2(k) == p && low < p
    ensures Or(low, high * p) == Or(high * p, low) == low + high * p
  {
    OrDisjoint(low, high, k);
  }

  lemma OrDisjointStep(low: nat, half: nat)
    requires Or(low / 2, half) == Or(half, low / 2) == low / 2 + half
    ensures Or(low, 2 * half) == Or(2 * half, low) == low + 2 * half
  {
    OrHalves(low, 2 * half);
    OrHalves(2 * half, low);
  }

  /** A mask acts separately on the bits below and above position k. */
  lemma {:induction false} AndSplit(low: nat, high: nat, maskLow: nat, maskHigh: nat, k: nat)
    requires low < Pow2(k) && maskLow < Pow2(k)
    ensures Pow2(k) * high >= 0 && Pow2(k) * maskHigh >= 0
    ensures And(low + Pow2(k) * high, maskLow + Pow2(k) * maskHigh) == And(low, maskLow) + Pow2(k) * And(high, maskHigh)
  {
    if k == 0 {
    } else {
      AndSplit(low / 2, high, maskLow / 2, maskHigh, k - 1);
      ShiftedHalf(high, k);
      ShiftedHalf(maskHigh, k);
      ShiftedHalf(And(high, maskHigh), k);
      AndSplitStep(low, Pow2(k - 1) * high, maskLow, Pow2(k - 1) * maskHigh, Pow2(k - 1) * And(high, maskHigh));
    }
  }

  lemma AndSplitStep(low: nat, half: nat, maskLow: nat, maskHalf: nat, both: nat)
    requires And(low / 2 + half, maskLow / 2 + maskHalf) == And(low / 2, maskLow / 2) + both
    ensures And(low + 2 * half, maskLow + 2 * maskHalf) == And(low, maskLow) + 2 * both
  {
    AndHalves(low + 2 * half, maskLow + 2 * maskHalf);
    AndHalves(low, maskLow);
  }

  /** Likewise for bits that are set. */
  lemma {:induction false} OrSplit(low: nat, high: nat, maskLow: nat, maskHigh: nat, k: nat)
    requires low < Pow2(k) && maskLow < Pow2(k)
    ensures Pow2(k) * high >= 0 && Pow2(k) * maskHigh >= 0
    ensures Or(low + Pow2(k) * high, maskLow + Pow2(k) * maskHigh) == Or(low, maskLow) + Pow2(k) * Or(high, maskHigh)
  {
    if k == 0 {
    } else {
      OrSplit(low / 2, high, maskLow / 2, maskHigh, k - 1);
      ShiftedHalf(high, k);
      ShiftedHalf(maskHigh, k);
      ShiftedHalf(Or(high, maskHigh), k);
      OrSplitStep(low, Pow2(k - 1) * high, maskLow, Pow2(k - 1) * maskHigh, Pow2(k - 1) * Or(high, maskHigh));
    }
  }

  lemma OrSplitStep(low: nat, half: nat, maskLow: nat, maskHalf: nat, both: nat)
    requires Or(low / 2 + half, maskLow / 2 + maskHalf) == Or(low / 2, maskLow / 2) + both
    ensures Or(low + 2 * half, maskLow + 2 * maskHalf) == Or(low, maskLow) + 2 * both
  {
    OrHalves(low + 2 * half, maskLow + 2 * maskHalf);
    OrHalves(low, maskLow);
  }

  lemma {:induction false} OrBound(a: nat, b: nat, k: nat)
    requires a < Pow2(k) && b < Pow2(k)
    ensures Or(a, b) < Pow2(k)
  {
    if k == 0 || a == 0 || b == 0 {
    } else {
      OrBound(a / 2, b / 2, k - 1);
    }
  }

  /** Masking with 2^k - 1 keeps the k low bits. */
  lemma {:induction false} AndLow(low: nat, high: nat, k: nat)
    requires low < Pow2(k)
    ensures Pow2(k) * high >= 0 && And(low + Pow2(k) * high, Pow2(k) - 1) == low
  {
    AndOnes(low, k);
    AndSplit(low, high, Pow2(k) - 1, 0, k);
  }

  lemma {:induction false} AndOnes(low: nat, k: nat)
    requires low < Pow2(k)
    ensures And(low, Pow2(k) - 1) == low
  {
    if k == 0 {
    } else {
      AndOnes(low / 2, k - 1);
      AndHalves(low, Pow2(k) - 1);
    }
  }

  lemma {:induction false} AndAtMost(a: nat, b: nat)
    ensures And(a, b) <= a
  {
    if a == 0 || b == 0 {
    } else {
      AndAtMost(a / 2, b / 2);
    }
  }

  lemma {:induction false} XorBound(a: nat, b: nat, k: nat)
    requires a < Pow2(k) && b < Pow2(k)
    ensures Xor(a, b) < Pow2(k)
  {
    if k == 0 || a == 0 || b == 0 {
    } else {
      XorBound(a / 2, b / 2, k - 1);
    }
  }

  lemma {:induction false} XorComm(a: nat, b: nat)
    ensures Xor(a, b) == Xor(b, a)
    decreases a + b
  {
    if a == 0 || b == 0 {
    } else {
      XorComm(a / 2, b / 2);
    }
  }

  lemma {:induction false} XorSelf(a: nat)
    ensures Xor(a, a) == 0
  {
    if a == 0 {
    } else {
      XorSelf(a / 2);
    }
  }

  lemma {:induction false} XorHalves(a: nat, b: nat)
    ensures Xor(a, b) / 2 == Xor(a / 2, b / 2)
    ensures Xor(a, b) % 2 == (if a % 2 != b % 2 then 1 else 0)
  {
    if a == 0 || b == 0 {
    } else {
    }
  }

  lemma {:induction false} XorAssoc(a: nat, b: nat, c: nat)
    ensures Xor(Xor(a, b), c) == Xor(a, Xor(b, c))
    decreases a + b + c
  {
    if a == 0 || b == 0 || c == 0 {
    } else {
      XorHalves(a, b);
      XorHalves(b, c);
      XorHalves(Xor(a, b), c);
      XorHalves(a, Xor(b, c));
      XorAssoc(a / 2, b / 2, c / 2);
    }
  }

  /** Applying the same mask twice restores the value. */
  lemma {:induction false} XorCancel(a: nat, b: nat)
    ensures Xor(Xor(a, b), b) == a
    ensures Xor(a, Xor(a, b)) == b
  {
    XorAssoc(a, b, b);
    XorSelf(b);
    XorAssoc(a, a, b);
    XorSelf(a);
  }

  lemma XorZero(a: nat, b: nat)
    ensures Xor(a, b) == 0 <==> a == b
  {
    XorCancel(a, b);
    XorSelf(a);
    if Xor(a, b) == 0 {
      assert Xor(a, 0) == b;
    }
  }

  lemma {:induction false} OrZero(a: nat, b: nat)
    ensures Or(a, b) == 0 <==> a == 0 && b == 0
    decreases a + b
  {
    if a == 0 || b == 0 {
    } else {
      OrZero(a / 2, b / 2);
    }
  }
}
