/** Quotients and remainders. */
module Arithmetic {

  lemma MultipleIsLarge(k: int, d: int)
    requires k != 0 && d > 0
    ensures k * d >= d || k * d <= -d
  {
    if k > 0 {
      assert (k - 1) * d >= 0;
    } else {
      assert (-k - 1) * d >= 0;
    }
  }

  lemma QuotientUnique(q: int, q': int, d: int, r: int, r': int)
    requires q * d + r == q' * d + r' && 0 <= r < d && 0 <= r' < d
    ensures q == q'
  {
    assert (q - q') * d == r' - r;
    if q != q' {
      MultipleIsLarge(q - q', d);
    }
  }

  /** A number is its quotient times the divisor plus its remainder, and in no other way. */
  lemma Division(n: int, q: int, r: int, d: int)
    requires n == q * d + r && 0 <= r < d
    ensures n / d == q && n % d == r
  {
    assert n == n / d * d + n % d;
    QuotientUnique(q, n / d, d, r, n % d);
  }
}
