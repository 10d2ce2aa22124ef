/** Counters of 32 bits, which wrap around. */
module Counters {
  import opened Words

  /** A counter after n more events. */
  function Plus(x: u32, n: nat): u32 {
    (x as int + n) % TWO32
  }

  function Next(x: u32): u32 {
    Plus(x, 1)
  }

  function One(b: bool): nat {
    if b then 1 else 0
  }

  lemma PlusNothing(x: u32)
    ensures Plus(x, 0) == x
  {
  }

  lemma NextIsPlus(x: u32)
    ensures Next(x) == Plus(x, 1)
  {
  }

  lemma PlusPlus(x: u32, m: nat, n: nat)
    ensures Plus(Plus(x, m), n) == Plus(x, m + n)
  {
    var a := x as int + m;
    assert a % TWO32 + n == a + n - a / TWO32 * TWO32;
    SameRemainder(a % TWO32 + n, a + n, a / TWO32);
  }

  lemma SameRemainder(a: int, b: int, k: int)
    requires a == b - k * TWO32
    ensures a % TWO32 == b % TWO32
  {
    assert b == (b / TWO32) * TWO32 + b % TWO32;
    assert a == (b / TWO32 - k) * TWO32 + b % TWO32;
  }

  /** While it has not wrapped, a counter that started at zero is the number of events. */
  lemma PlusExact(n: nat)
    ensures Plus(0, n) == n <==> n < TWO32
  {
  }
}
