/** Integer division of naturals by a positive divisor. */
module Arithmetic {

  lemma MulMonotone(a: nat, b: nat, d: nat)
    requires a <= b
    ensures a * d <= b * d
  {
    assert b * d == a * d + (b - a) * d;
  }

  lemma DivIs(n: nat, q: nat, d: nat)
    requires d > 0 && q * d <= n < q * d + d
    ensures n / d == q
  {
    var p := n / d;
    assert p * d <= n < p * d + d;
    if p < q { MulMonotone(p + 1, q, d); }
    if q < p { MulMonotone(q + 1, p, d); }
  }

  lemma DivMonotone(n: nat, m: nat, d: nat)
    requires d > 0 && n >= m
    ensures n / d >= m / d
  {
    if n / d < m / d { MulMonotone(n / d + 1, m / d, d); }
  }

  lemma DivStep(n: nat, m: nat, d: nat)
    requires d > 0 && n >= m + d
    ensures n / d >= m / d + 1
  {
    DivMonotone(n, m + d, d);
    DivIs(m + d, m / d + 1, d);
  }

  lemma CeilingStep(n: nat, d: nat)
    requires d > 0
    ensures (n + d + d - 1) / d == (n + d - 1) / d + 1
  {
    DivIs(n + d + d - 1, (n + d - 1) / d + 1, d);
  }

  lemma CeilingOfOne(n: nat, d: nat)
    requires 1 <= n <= d
    ensures (n + d - 1) / d == 1
  {
    DivIs(n + d - 1, 1, d);
  }

  lemma CeilingOfNone(d: nat)
    requires d > 0
    ensures (d - 1) / d == 0
  {
    DivIs(d - 1, 0, d);
  }

  lemma ModAtMost(n: nat, d: nat)
    requires d > 0
    ensures 0 <= n % d <= n
  {
    MulMonotone(0, n / d, d);
  }
}
