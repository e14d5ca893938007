/** The few facts about products and quotients that the arithmetic bounds rest on. */
module Arithmetic {
  lemma MulMonotone(m: int, a: int, b: int)
    requires 0 <= m && a <= b
    ensures m * a <= m * b
  {
  }

  /** `q` is the quotient of `n` by `d` exactly when `n` lies in the `q`-th multiple's range. */
  lemma Quotient(n: int, d: int, q: int)
    requires 0 < d && q * d <= n < q * d + d
    ensures n / d == q
  {
    var p := n / d;
    assert p * d <= n < p * d + d;
    if p < q {
      MulMonotone(d, p + 1, q);
    } else if q < p {
      MulMonotone(d, q + 1, p);
    }
  }

  lemma DivNext(n: int, d: int)
    requires 0 < d
    ensures (n + d) / d == n / d + 1
  {
    var q := n / d;
    assert q * d <= n < q * d + d;
    assert (q + 1) * d == q * d + d;
    Quotient(n + d, d, q + 1);
  }

  lemma DivMonotone(a: int, b: int, d: int)
    requires a <= b && 0 < d
    ensures a / d <= b / d
  {
    var p, q := a / d, b / d;
    assert p * d <= a && b < q * d + d;
    if q < p {
      MulMonotone(d, q + 1, p);
    }
  }

  lemma DivisionBounds(n: int, d: int)
    requires 0 < d
    ensures n / d * d <= n < n / d * d + d
  {
  }

  lemma Remainder(n: int, d: int, q: int)
    requires 1 < d && n == q * d + 1
    ensures n % d == 1
  {
    Quotient(n, d, q);
  }
}
