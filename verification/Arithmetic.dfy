/** The few facts about products and quotients that several proofs need. */
module Arithmetic {
  /** The integer part of a quotient of naturals. */
  function Div(n: nat, d: nat): nat
    requires d > 0
  {
    n / d
  }

  lemma MulMonotone(a: nat, b: nat, k: nat)
    requires a <= b
    ensures a * k <= b * k
  {}

  /** Quotient and remainder are unique. */
  lemma Quotient(n: nat, d: nat, q: nat, r: nat)
    requires d > 0 && r < d && n == q * d + r
    ensures n / d == q && n % d == r
  {
    var q', r' := n / d, n % d;
    assert n == q' * d + r';
    if q' < q {
      MulMonotone(q' + 1, q, d);
    } else if q < q' {
      MulMonotone(q + 1, q', d);
    }
  }
}
