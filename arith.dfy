/** Facts about integer division and multiplication by a positive number
    that the fitness scaling and the average rely on. */
module Arith {

  /** `n / m` is the largest `q` with `q * m <= n`. */
  lemma QuotientBelow(n: nat, m: nat, k: nat)
    requires 0 < m
    ensures n <= k * m ==> n / m <= k
    ensures n < k * m ==> n / m < k
  {
    var q := n / m;
    assert q * m <= n;
    MulMonotone(q, k, m);
    if n < k * m {
      assert q * m < k * m;
    }
  }

  lemma QuotientOfMultiple(k: nat, m: nat)
    requires 0 < m
    ensures (k * m) / m == k
  {
    var q := (k * m) / m;
    assert q * m <= k * m < q * m + m;
    MulMonotone(q, k, m);
    MulMonotone(k, q + 1, m);
  }

  lemma Quotient(n: nat, m: nat)
    requires 0 < m
    ensures (n / m) * m <= n < (n / m) * m + m
    ensures n < (n / m + 1) * m
  {
    assert (n / m + 1) * m == (n / m) * m + m;
  }

  /** Multiplying by a positive number keeps the order. */
  lemma MulMonotone(a: int, b: int, m: int)
    requires 0 < m
    ensures a <= b <==> a * m <= b * m
    ensures a < b <==> a * m < b * m
  {
    assert b * m - a * m == (b - a) * m;
  }
}
