/** Facts about multiplication and Euclidean division that the solver needs spelled out. */
module Arithmetic {

  const WORD := 0x1_0000_0000   // the values of a 32-bit word

  lemma MulMono(a: nat, b: nat, c: nat)
    requires a <= b
    ensures a * c <= b * c
  {
  }

  lemma DivMod(a: nat, b: nat)
    requires b > 0
    ensures a == a / b * b + a % b && a % b < b
  {
  }

  lemma DivBounds(a: nat, b: nat)
    requires b > 0
    ensures a / b * b <= a < a / b * b + b
  {
    DivMod(a, b);
  }

  /** Quotient and remainder are determined by their defining equation. */
  lemma DivUnique(a: nat, b: nat, q: nat, r: nat)
    requires r < b && a == q * b + r
    ensures a / b == q && a % b == r
  {
    DivMod(a, b);
    var p := a / b;
    if p < q { MulMono(p + 1, q, b); }
    if q < p { MulMono(q + 1, p, b); }
  }

  lemma DivLess(t: nat, d: nat, m: nat)
    requires d > 0 && t < m * d
    ensures t / d < m
  {
    DivBounds(t, d);
    if t / d >= m { MulMono(m, t / d, d); }
  }

  lemma DivAtLeast(t: nat, d: nat, m: nat)
    requires d > 0 && m * d <= t
    ensures t / d >= m
  {
    DivBounds(t, d);
    if t / d + 1 <= m { MulMono(t / d + 1, m, d); }
  }

  /** The smallest multiple of g that is at least n, as (n + g - 1) & ~(g - 1) is for a power of two g */
  function RoundUp(n: nat, g: nat): nat
    requires g > 0
  {
    (n + g - 1) / g * g
  }

  lemma RoundUpLeast(n: nat, g: nat)
    requires g > 0
    ensures n <= RoundUp(n, g) < n + g && RoundUp(n, g) / g == (n + g - 1) / g
  {
    var q := (n + g - 1) / g;
    DivBounds(n + g - 1, g);
    DivUnique(q * g, g, q, 0);
  }
}
