/** Facts about products and quotients that the solver needs in small pieces. */
module Arithmetic {
  function Pow2(k: nat): (p: nat)
    ensures p >= 1
  {
    if k == 0 then 1 else 2 * Pow2(k - 1)
  }

  lemma {:induction false} MulMonotone(a: nat, b: nat, c: nat)
    requires b <= c
    ensures a * b <= a * c && b * a <= c * a
  {
    assert a * c == a * b + a * (c - b);
  }

  /** q is at most the quotient exactly when q * d fits into n. */
  lemma {:induction false} QuotientAtLeast(n: nat, d: nat, q: nat)
    requires d >= 1
    ensures q <= n / d <==> q * d <= n
  {
    var r := n / d;
    assert n == d * r + n % d;
    if q <= r {
      MulMonotone(d, q, r);
    } else {
      MulMonotone(d, r + 1, q);
      assert d * (r + 1) == d * r + d;
    }
  }

  lemma {:induction false} QuotientMonotone(a: nat, b: nat, d: nat)
    requires a <= b && d >= 1
    ensures a / d <= b / d
  {
    QuotientAtLeast(a, d, a / d);
    QuotientAtLeast(b, d, a / d);
  }

  lemma {:induction false} QuotientAntitone(n: nat, c: nat, d: nat)
    requires 1 <= c <= d
    ensures n / d <= n / c
  {
    QuotientAtLeast(n, d, n / d);
    MulMonotone(n / d, c, d);
    QuotientAtLeast(n, c, n / d);
  }

  lemma {:induction false} QuotientOfProduct(n: nat, d: nat)
    requires d >= 1
    ensures n * d / d == n
  {
    QuotientAtLeast(n * d, d, n);
    QuotientAtLeast(n * d, d, n + 1);
    assert (n + 1) * d == n * d + d;
  }

  lemma {:induction false} QuotientPlusOne(n: nat, d: nat)
    requires d >= 1
    ensures (n + d) / d == n / d + 1
  {
    var q := n / d;
    QuotientAtLeast(n, d, q);
    QuotientAtLeast(n, d, q + 1);
    assert (q + 1) * d == q * d + d && (q + 2) * d == (q + 1) * d + d;
    QuotientAtLeast(n + d, d, q + 1);
    QuotientAtLeast(n + d, d, q + 2);
  }
}
