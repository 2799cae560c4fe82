/** Facts about division that the solver needs to be told. */
module Arithmetic {

  lemma RemainderIsUnique(n: int, m: int, q: int, r: int)
    requires 0 <= r < m && n == q * m + r
    ensures n % m == r && n / m == q
  {
    var d := n / m - q;
    assert d * m == r - n % m;
    if d >= 1 {
      ProductAtLeast(d, m);
    } else if d <= -1 {
      ProductAtLeast(-d, m);
    }
  }

  lemma ProductAtLeast(d: int, m: int)
    requires d >= 1 && m >= 0
    ensures d * m >= m && -d * m <= -m
  {
    assert (d - 1) * m >= 0;
  }
}
