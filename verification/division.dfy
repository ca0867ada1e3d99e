/** Quotients and remainders of products, in small steps. */
module Division {

  lemma NonNegative(a: nat, b: nat)
    ensures 0 <= a * b
  {
  }

  lemma NoSmallMultiple(k: int, n: nat)
    requires k != 0
    ensures k * n >= n || k * n <= 0 - n
  {
    if k > 0 {
      NonNegative(k - 1, n);
      assert (k - 1) * n == k * n - n;
    } else {
      NonNegative(-1 - k, n);
      assert (-1 - k) * n == -(k * n) - n;
    }
  }

  /** A quotient and a remainder below the divisor are the quotient and the remainder. */
  lemma QuotientAndRemainder(d: nat, q: nat, r: nat, n: nat)
    requires r < n && d == q * n + r
    ensures d / n == q && d % n == r
  {
    var q', r' := d / n, d % n;
    assert (q - q') * n == r' - r;
    if q != q' {
      NoSmallMultiple(q - q', n);
    }
  }
}
