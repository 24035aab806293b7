/** Multiplication, quotients and remainders. */
module Arithmetic {

  lemma Scale(d: int, m: int, n: int)
    requires 0 <= d && m <= n
    ensures d * m <= d * n
  {
  }

  lemma SameQuotient(d: nat, q: int, r: int, q': int, r': int)
    requires d > 0 && 0 <= r < d && 0 <= r' < d && q * d + r == q' * d + r'
    ensures q == q'
  {
    if q > q' {
      Scale(d, 1, q - q');
    } else if q < q' {
      Scale(d, 1, q' - q);
    }
  }

  lemma DivMod(x: nat, d: nat, q: nat, r: nat)
    requires d > 0 && r < d && x == q * d + r
    ensures x / d == q && x % d == r
  {
    SameQuotient(d, q, r, x / d, x % d);
  }
}
