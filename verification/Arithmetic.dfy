/** Division with remainder, for divisors that are not literals. */
module Arithmetic {
  lemma Quotient(n: nat, d: nat, q: nat, m: nat)
    requires d > 0 && n == q * d + m && m < d
    ensures n / d == q && n % d == m
  {
    var p, k := n / d, n % d;
    assert n == p * d + k;
    assert (q - p) * d == k - m;
    SmallMultiple(q - p, d);
  }

  lemma SmallMultiple(t: int, d: int)
    requires d > 0 && -d < t * d < d
    ensures t == 0
  {
    Multiple(t, d);
  }

  lemma Multiple(t: int, d: int)
    requires d > 0
    ensures t >= 1 ==> t * d >= d
    ensures t <= -1 ==> t * d <= -d
  {
  }
}
