/** Facts about quotients and remainders by a variable divisor that the models share. */
module Arithmetic {

  lemma WholeMultiple(d: int, m: nat)
    ensures d >= 1 ==> d * m >= m
    ensures d <= -1 ==> d * m + m <= 0
  {
  }

  /** A quotient and an in-range remainder are the quotient and the remainder. */
  lemma DivModUnique(t: int, q: int, r: int, m: nat)
    requires t == q * m + r && 0 <= r < m
    ensures t / m == q && t % m == r
  {
    var k, z := t / m, t % m;
    assert t == m * k + z;
    assert (q - k) * m == z - r;
    WholeMultiple(q - k, m);
  }
}
