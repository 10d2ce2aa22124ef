/** Congruences modulo a positive m, stated as equality of remainders. */
module Modular {
  lemma MulAtLeast(m: int, d: int)
    requires 0 < m && 0 < d
    ensures m * d >= m
  {
  }

  lemma MulMonotone(m: int, x: int, y: int)
    requires 0 <= m && x <= y
    ensures m * x <= m * y
  {
  }

  lemma QuotientUnique(m: int, q: int, r: int, q': int, r': int)
    requires 0 <= r < m && 0 <= r' < m
    requires m * q + r == m * q' + r'
    ensures q == q' && r == r'
  {
    var d := q' - q;
    assert m * d == m * q' - m * q;
    if d > 0 {
      MulAtLeast(m, d);
    } else if d < 0 {
      MulAtLeast(m, -d);
    }
  }

  /** Adding a multiple of m does not change the remainder. */
  lemma ModMultiple(x: int, k: int, m: int)
    requires m > 0
    ensures (x + m * k) % m == x % m
  {
    var y := x + m * k;
    assert m * (x / m + k) == m * (x / m) + m * k;
    QuotientUnique(m, x / m + k, x % m, y / m, y % m);
  }

  lemma ModEqual(x: int, y: int, k: int, m: int)
    requires m > 0 && x == y + m * k
    ensures x % m == y % m
  {
    ModMultiple(y, k, m);
  }

  /** Congruent numbers differ by a multiple of m. */
  lemma ModDifference(x: int, y: int, m: int) returns (k: int)
    requires m > 0 && x % m == y % m
    ensures x == y + m * k
  {
    k := x / m - y / m;
    assert m * k == m * (x / m) - m * (y / m);
  }

  lemma ModMul(x: int, x': int, y: int, y': int, m: int)
    requires m > 0 && x % m == x' % m && y % m == y' % m
    ensures (x * y) % m == (x' * y') % m
  {
    var k := ModDifference(x, x', m);
    var l := ModDifference(y, y', m);
    assert x * y == x' * y' + m * (x' * l + k * y) by {
      assert x * y == x' * y + (m * k) * y;
      assert x' * y == x' * y' + x' * (m * l);
    }
    ModMultiple(x' * y', x' * l + k * y, m);
  }

  lemma SumOfMultiples(x: int, k: int, y: int, l: int, m: int)
    ensures (x + m * k) + (y + m * l) == (x + y) + m * (k + l)
    ensures (x + m * k) - (y + m * l) == (x - y) + m * (k - l)
  {
  }

  lemma ModAdd(x: int, x': int, y: int, y': int, m: int)
    requires m > 0 && x % m == x' % m && y % m == y' % m
    ensures (x + y) % m == (x' + y') % m
  {
    var k := ModDifference(x, x', m);
    var l := ModDifference(y, y', m);
    SumOfMultiples(x', k, y', l, m);
    ModEqual(x + y, x' + y', k + l, m);
  }

  lemma ModSub(x: int, x': int, y: int, y': int, m: int)
    requires m > 0 && x % m == x' % m && y % m == y' % m
    ensures (x - y) % m == (x' - y') % m
  {
    var k := ModDifference(x, x', m);
    var l := ModDifference(y, y', m);
    SumOfMultiples(x', k, y', l, m);
    ModEqual(x - y, x' - y', k - l, m);
  }

  /** The e-th power of x modulo m. */
  function PowMod(x: int, e: nat, m: int): (r: nat)
    requires m > 0
    ensures r < m
  {
    if e == 0 then 1 % m else (x * PowMod(x, e - 1, m)) % m
  }

  lemma ModReduce(x: int, y: int, m: int)
    requires m > 0
    ensures ((x % m) * y) % m == (x * y) % m
    ensures (x * (y % m)) % m == (x * y) % m
  {
    QuotientUnique(m, 0, x % m, (x % m) / m, (x % m) % m);
    ModMul(x % m, x, y, y, m);
    QuotientUnique(m, 0, y % m, (y % m) / m, (y % m) % m);
    ModMul(x, x, y % m, y, m);
  }

  lemma ModSmall(x: int, m: int)
    requires 0 <= x < m
    ensures x % m == x
  {
    QuotientUnique(m, 0, x, x / m, x % m);
  }

  lemma QuotientBound(w: int, p: int, s: int, word: int)
    requires s > 0 && word == p * s && 0 <= w < word
    ensures 0 <= w / s < p
  {
    if w / s >= p {
      MulMonotone(s, p, w / s);
    }
  }

  /** Shifting left by p within a word of p * q values drops the digits from q up. */
  lemma ShiftWithin(w: int, p: int, q: int, word: int)
    requires p > 0 && q > 0 && word == p * q
    ensures (w * p) % word == (w % q) * p
  {
    var r := w % q;
    assert 0 <= r * p < word by {
      MulAtLeast(p, q - r);
      assert p * (q - r) == word - r * p;
    }
    assert word * (w / q) + r * p == w * p by {
      assert w == q * (w / q) + r;
      assert (q * (w / q)) * p == (p * q) * (w / q);
    }
    QuotientUnique(word, w / q, r * p, (w * p) / word, (w * p) % word);
  }

  /** Masking a value assembled from a low part below p and a shifted high part. */
  lemma MaskJoined(low: int, high: int, p: int, q: int, word: int)
    requires 0 <= low < p && q > 0 && word == p * q
    ensures (low + high * p) % word == low + (high % q) * p
  {
    var r := high % q;
    assert 0 <= low + r * p < word by {
      MulAtLeast(p, q - r);
      assert p * (q - r) == word - r * p;
    }
    assert word * (high / q) + (low + r * p) == low + high * p by {
      assert high == q * (high / q) + r;
      assert (q * (high / q)) * p == (p * q) * (high / q);
    }
    QuotientUnique(word, high / q, low + r * p, (low + high * p) / word, (low + high * p) % word);
  }

  lemma ModOfMod(v: int, q: int, r: int, word: int)
    requires q > 0 && r > 0 && word == q * r
    ensures v % word % q == v % q
  {
    assert v == v % word + q * (r * (v / word));
    ModMultiple(v % word, r * (v / word), q);
  }

  lemma ModAddReduce(x: int, y: int, m: int)
    requires m > 0
    ensures (x + y) % m == (x % m + y % m) % m
    ensures (x - y) % m == (x % m - y % m) % m
  {
    ModSmall(x % m, m);
    ModSmall(y % m, m);
    ModAdd(x, x % m, y, y % m, m);
    ModSub(x, x % m, y, y % m, m);
  }

  lemma {:induction false} PowModSum(x: int, e: nat, f: nat, m: int)
    requires m > 0
    ensures (PowMod(x, e, m) * PowMod(x, f, m)) % m == PowMod(x, e + f, m)
  {
    var pf := PowMod(x, f, m);
    if e == 0 {
      ModReduce(1, pf, m);
      ModSmall(pf, m);
    } else {
      var p := PowMod(x, e - 1, m);
      PowModSum(x, e - 1, f, m);
      PowModStep(x, p, pf, m);
      assert e + f - 1 == e - 1 + f;
    }
  }

  lemma PowModStep(x: int, p: int, q: int, m: int)
    requires m > 0
    ensures (((x * p) % m) * q) % m == (x * ((p * q) % m)) % m
  {
    ModReduce(x * p, q, m);
    ModReduce(x, p * q, m);
    assert (x * p) * q == x * (p * q);
  }
}
