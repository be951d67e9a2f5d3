/** Quotients and remainders that the solver does not find on its own. */
module Division {

  lemma MultipleIsFar(d: int, k: int)
    requires k > 0
    ensures d >= 1 ==> d * k >= k
    ensures d <= -1 ==> d * k <= -k
  {
  }

  lemma QuotientIs(n: int, k: int, q: int, r: int)
    requires k > 0 && 0 <= r < k && n == q * k + r
    ensures n / k == q && n % k == r
  {
    var d := n / k - q;
    assert n == (n / k) * k + n % k;
    assert d * k == r - n % k by { assert d * k == (n / k) * k - q * k; }
    MultipleIsFar(d, k);
  }
}
