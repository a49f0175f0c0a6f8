/** Facts about products, quotients and remainders that the other modules rest on. */
module Arithmetic {

  lemma Scales(a: int, b: int, d: nat)
    ensures a <= b ==> a * d <= b * d
  {
  }

  /** A quotient reaches `k` exactly when the dividend reaches `k` times the divisor. */
  lemma QuotientReaches(n: nat, d: nat, k: int)
    requires d > 0
    ensures n / d >= k <==> n >= k * d
  {
    var q := n / d;
    Scales(k, q, d);
    Scales(q + 1, k, d);
    assert (q + 1) * d == q * d + d;
    assert n == q * d + n % d;
  }

  lemma ProductOf(d: nat, k: int)
    requires d > 0
    ensures k >= 1 ==> d * k >= d
    ensures k >= 2 ==> d * k >= 2 * d
    ensures k <= 0 ==> d * k <= 0
  {
  }

  lemma RemainderIs(d: nat, q: int, s: nat)
    requires s < d
    ensures (d * q + s) % d == s
  {
    var j := d * q + s;
    var gap := d * (j / d - q);
    ProductOf(d, j / d - q);
    ProductOf(d, q - j / d);
    assert gap == d * (j / d) - d * q;
    assert d * (q - j / d) == -gap;
  }

  function PowerOfTwo(k: nat): (p: nat)
    ensures p > 0
  {
    if k == 0 then 1 else 2 * PowerOfTwo(k - 1)
  }
}
