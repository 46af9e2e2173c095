/** Small facts about products and floors, so that no other proof needs them inline. */
module Arithmetic {

  /** a / b for naturals, by repeated subtraction so that the solver sees no division. */
  function Floor(a: nat, b: nat): nat
    requires b > 0
  {
    if a < b then 0 else 1 + Floor(a - b, b)
  }

  lemma MulMono(x: nat, y: nat, u: nat)
    requires x <= y
    ensures x * u <= y * u
  {
  }

  lemma {:induction false} FloorBounds(a: nat, b: nat)
    requires b > 0
    ensures Floor(a, b) * b <= a < Floor(a, b) * b + b
  {
    if a >= b {
      FloorBounds(a - b, b);
      assert (1 + Floor(a - b, b)) * b == b + Floor(a - b, b) * b;
    }
  }

  /** q is at most the floor when q * b fits, and at least when a is short of (q + 1) * b. */
  lemma FloorAtLeast(a: nat, b: nat, q: nat)
    requires b > 0 && q * b <= a
    ensures q <= Floor(a, b)
  {
    FloorBounds(a, b);
    if q > Floor(a, b) { MulMono(Floor(a, b) + 1, q, b); }
  }

  lemma FloorIsQuotient(a: nat, b: nat)
    requires b > 0
    ensures Floor(a, b) == a / b
  {
    FloorBounds(a, b);
    FloorAtLeast(a, b, a / b);
    if Floor(a, b) > a / b { MulMono(a / b + 1, Floor(a, b), b); }
  }

  lemma FloorMono(a: nat, c: nat, b: nat)
    requires b > 0 && a <= c
    ensures Floor(a, b) <= Floor(c, b)
  {
    FloorBounds(a, b);
    FloorAtLeast(c, b, Floor(a, b));
  }

  lemma {:induction false} FloorSuper(a: nat, c: nat, b: nat)
    requires b > 0
    ensures Floor(a, b) + Floor(c, b) <= Floor(a + c, b)
  {
    if a >= b { FloorSuper(a - b, c, b); } else { FloorMono(c, a + c, b); }
  }

  /** A product can be cancelled from both sides. */
  lemma Cancel(a: nat, b: nat, t: nat)
    requires t > 0 && a * t <= b * t
    ensures a <= b
  {
    if a > b { MulMono(b + 1, a, t); }
  }

  function Pow2(n: nat): (p: nat)
    ensures p > 0
  {
    if n == 0 then 1 else 2 * Pow2(n - 1)
  }

  // ---- Over the reals ----

  /** A product the solver need not look into. */
  function Times(a: real, b: real): real { a * b }

  lemma CastProduct(a: nat, b: nat)
    ensures (a * b) as real == a as real * b as real
  {
  }

  lemma CastTimes(a: nat, b: nat)
    ensures (a * b) as real == Times(a as real, b as real)
  {
  }

  lemma DivideBounds(a: real, b: real, m: real)
    requires m > 0.0 && a * m <= b * m
    ensures a <= b
  {
    assert (a - b) * m <= 0.0;
  }

  lemma ScaleReal(a: real, b: real, m: real)
    requires a <= b && m >= 0.0
    ensures a * m <= b * m
  {
    assert (b - a) * m >= 0.0;
  }

  /** Scaling by at most 1 does not enlarge a distance. */
  lemma TimesStep(s: real, x: real, q: real, e: real)
    requires 0.0 <= q <= 1.0 && 0.0 <= e && s <= x <= s + e
    ensures Times(s, q) <= Times(x, q) <= Times(s, q) + e
  {
    assert Times(x, q) - Times(s, q) == Times(x - s, q);
    TimesSmall(x - s, q);
  }

  lemma TimesSmall(y: real, q: real)
    requires 0.0 <= q <= 1.0 && 0.0 <= y
    ensures 0.0 <= Times(y, q) <= y
  {
    assert Times(y, q) == y - y * (1.0 - q);
  }
}
