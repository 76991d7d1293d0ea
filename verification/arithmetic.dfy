/** The few facts about products and quotients that sizes and offsets need. */
module Arithmetic {

  function Min(a: nat, b: nat): nat {
    if a < b then a else b
  }

  function Max(a: nat, b: nat): nat {
    if a > b then a else b
  }

  lemma MulMonotone(a: nat, b: nat, c: nat)
    requires a <= b
    ensures a * c <= b * c
  {
  }

  lemma MulNext(a: int, c: int)
    ensures (a + 1) * c == a * c + c
  {
  }

  lemma MulAssoc(a: int, b: int, c: int)
    ensures a * b * c == a * (b * c)
  {
  }

  /** Different multiples are at least one apart. */
  lemma MulApart(a: nat, b: nat, c: nat)
    ensures a < b ==> a * c + c <= b * c
  {
    if a < b {
      MulMonotone(a + 1, b, c);
      MulNext(a, c);
    }
  }

  lemma QuotientBounds(n: nat, d: nat)
    requires 0 < d
    ensures 0 <= n / d && n / d * d <= n < n / d * d + d && n == n / d * d + n % d
  {
  }

  /** A quotient is determined by the multiples around the dividend. */
  lemma QuotientIs(n: nat, q: nat, d: nat)
    requires 0 < d && q * d <= n < q * d + d
    ensures n / d == q && n % d == n - q * d
  {
    QuotientBounds(n, d);
    MulApart(n / d, q, d);
    MulApart(q, n / d, d);
  }

  lemma DivMonotone(x: nat, y: nat, d: nat)
    requires x <= y && 0 < d
    ensures x / d <= y / d
  {
    QuotientBounds(x, d);
    QuotientBounds(y, d);
    MulApart(y / d, x / d, d);
  }

  /** DIV_ROUND_UP. */
  function Ceil(n: nat, d: nat): nat
    requires 0 < d
  {
    n / d + if n % d != 0 then 1 else 0
  }

  lemma CeilBounds(n: nat, d: nat)
    requires 0 < d
    ensures n <= Ceil(n, d) * d < n + d
  {
    QuotientBounds(n, d);
    MulNext(n / d, d);
  }

  lemma CeilIs(n: nat, q: nat, d: nat)
    requires 0 < d && q * d < n + d && n <= q * d
    ensures Ceil(n, d) == q
  {
    CeilBounds(n, d);
    MulApart(q, Ceil(n, d), d);
    MulApart(Ceil(n, d), q, d);
  }

  lemma BelowCeil(i: nat, n: nat, d: nat)
    requires i < n && 0 < d
    ensures i / d < Ceil(n, d)
  {
    QuotientBounds(i, d);
    CeilBounds(n, d);
    MulApart(i / d, Ceil(n, d), d);
    if Ceil(n, d) < i / d { MulApart(Ceil(n, d), i / d, d); }
  }

  lemma CeilRoundsUp(n: nat, d: nat)
    requires 0 < d
    ensures Ceil(n, d) == (n + d - 1) / d
  {
    CeilBounds(n, d);
    QuotientIs(n + d - 1, Ceil(n, d), d);
  }
}
