/** Quotient and remainder. */
module Division {
  lemma MulMod(k: int, p: int)
    requires p > 0
    ensures (k * p) % p == 0
  {
    DivUnique(k * p, p, k, 0);
  }

  lemma MulStep(a: int, b: int, p: int)
    requires a < b && p > 0
    ensures a * p + p <= b * p
  {
    assert (b - a - 1) * p >= 0;
    assert (b - a - 1) * p == b * p - a * p - p;
  }

  lemma DivUnique(n: int, p: int, q: int, r: int)
    requires p > 0 && n == q * p + r && 0 <= r < p
    ensures n / p == q && n % p == r
  {
    var q1, r1 := n / p, n % p;
    Quotient(n, p);
    if q1 < q {
      MulStep(q1, q, p);
    } else if q < q1 {
      MulStep(q, q1, p);
    }
  }

  lemma Quotient(n: int, p: int)
    requires p > 0
    ensures n == n / p * p + n % p && 0 <= n % p < p
  {
  }
}
