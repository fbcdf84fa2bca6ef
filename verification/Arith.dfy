/** Small facts about division with a variable divisor, and about sums and cyclic order. */
module Arith {

  lemma MulAtLeast(a: int, d: int)
    requires a >= 1 && d > 0
    ensures a * d >= d
  {
  }

  lemma DivModUnique(x: int, d: int, q: int, r: int)
    requires d > 0 && 0 <= r < d && x == q * d + r
    ensures x / d == q && x % d == r
  {
    var p := x / d;
    assert x == p * d + x % d;
    assert (p - q) * d == r - x % d;
    if p > q {
      MulAtLeast(p - q, d);
    } else if p < q {
      assert (q - p) * d == -((p - q) * d);
      MulAtLeast(q - p, d);
    }
  }

  lemma ModShift(k: int, d: int)
    requires d > 0
    ensures (k + d) % d == k % d
  {
    var q := k / d;
    assert k == q * d + k % d;
    assert (q + 1) * d == q * d + d;
    DivModUnique(k + d, d, q + 1, k % d);
  }

  /** Two numbers less than d apart are congruent only when equal. */
  lemma ModNear(k: int, v: int, d: int)
    requires d > 0 && k <= v < k + d && k % d == v % d
    ensures k == v
  {
    var p, q := k / d, v / d;
    assert k == p * d + k % d && v == q * d + v % d;
    assert (q - p) * d == v - k;
    if q > p {
      MulAtLeast(q - p, d);
    } else if q < p {
      assert (p - q) * d == -((q - p) * d);
      MulAtLeast(p - q, d);
    }
  }

  lemma ModOnce(k: int, d: int)
    requires d > 0 && 0 <= k < 2 * d
    ensures k % d == if k < d then k else k - d
  {
    if k < d {
      DivModUnique(k, d, 0, k);
    } else {
      DivModUnique(k, d, 1, k - d);
    }
  }
}
