/** Division facts that the solver does not find by itself. */
module Arithmetic {

  function Min(a: nat, b: nat): nat
  {
    if a < b then a else b
  }

  lemma Multiples(a: int, b: int, d: int)
    requires a <= b && d > 0
    ensures a * d <= b * d
  {
  }

  /** Quotient and remainder are unique. */
  lemma ModUnique(x: int, d: int, q: int, r: int)
    requires d > 0 && x == q * d + r && 0 <= r < d
    ensures x % d == r && x / d == q
  {
    var q', r' := x / d, x % d;
    if q > q' {
      Multiples(q' + 1, q, d);
    } else if q < q' {
      Multiples(q + 1, q', d);
    }
  }

  lemma QuotientIsNat(x: nat, d: nat)
    requires d > 0
    ensures x / d >= 0
  {
  }
}
