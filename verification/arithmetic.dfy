/** Facts about products and floor division that the solver needs spelt out. */
module Arithmetic {
  lemma FloorBounds(n: int, d: int)
    requires d > 0
    ensures n / d * d <= n < n / d * d + d
  {
  }

  lemma MulMonotone(a: int, b: int, c: int)
    requires a <= b && 0 <= c
    ensures a * c <= b * c
  {
  }

  lemma MulSuccessor(a: int, c: int)
    ensures (a + 1) * c == a * c + c
  {
  }

  /** A floor quotient is the only one that brackets its dividend. */
  lemma FloorUnique(n: int, d: int, q: int)
    requires d > 0 && q * d <= n < q * d + d
    ensures n / d == q
  {
    FloorBounds(n, d);
    if n / d < q {
      MulMonotone(n / d + 1, q, d);
      MulSuccessor(n / d, d);
    } else if n / d > q {
      MulMonotone(q + 1, n / d, d);
      MulSuccessor(q, d);
    }
  }

  /** `q * d <= n` exactly for the quotients up to the floor. */
  lemma FloorGalois(n: int, d: int, q: int)
    requires d > 0
    ensures q * d <= n <==> q <= n / d
  {
    FloorBounds(n, d);
    if q <= n / d {
      MulMonotone(q, n / d, d);
    } else {
      MulMonotone(n / d + 1, q, d);
      MulSuccessor(n / d, d);
    }
  }
}
