/** Rounding, floored division and remainders of reals, and the small product facts the proofs rest on. */
module Reals {

  function Abs(x: real): (r: real)
    ensures r >= 0.0
  {
    if x < 0.0 then -x else x
  }

  function Ceil(x: real): int {
    -((-x).Floor)
  }

  /** Round half to even. */
  function Round(x: real): int {
    var f := x.Floor;
    var d := x - f as real;
    if d < 0.5 then f else if d > 0.5 then f + 1 else if f % 2 == 0 then f else f + 1
  }

  /** Floored division. */
  function Div(x: real, m: real): int
    requires m > 0.0
  {
    (x / m).Floor
  }

  /** Its remainder. */
  function Mod(x: real, m: real): real
    requires m > 0.0
  {
    x - Div(x, m) as real * m
  }

  lemma CeilBounds(x: real)
    ensures x <= Ceil(x) as real < x + 1.0
  {
  }

  lemma Quotient(x: real, m: real, q: real)
    requires m != 0.0 && x == q * m
    ensures x / m == q
  {
  }

  lemma NonNegative(a: real, b: real)
    requires a >= 0.0 && b >= 0.0
    ensures a * b >= 0.0
  {
  }

  /** The sign of a factor from that of the product. */
  lemma FactorSign(q: real, m: real)
    requires m > 0.0 && q * m >= 0.0
    ensures q >= 0.0
    ensures q * m > 0.0 ==> q > 0.0
  {
  }

  /** A fraction of `m`. */
  lemma Fraction(u: real, m: real)
    requires 0.0 <= u < 1.0 && m > 0.0
    ensures 0.0 <= u * m < m
  {
    var v := 1.0 - u;
    assert v * m > 0.0;
  }

  lemma ModRange(x: real, m: real)
    requires m > 0.0
    ensures 0.0 <= Mod(x, m) < m
  {
    var t := x / m;
    var u := t - t.Floor as real;
    assert x == t * m;
    Fraction(u, m);
    assert Mod(x, m) == u * m;
  }

  lemma SmallQuotient(r: real, m: real)
    requires m > 0.0 && 0.0 <= r < m
    ensures 0.0 <= r / m < 1.0
  {
    var q := r / m;
    assert q * m == r;
    FactorSign(q, m);
    var v := 1.0 - q;
    assert v * m == m - r;
    FactorSign(v, m);
  }

  /** A remainder is the number itself less whole turns, the only such number in range. */
  lemma ModUnique(x: real, m: real, k: int, r: real)
    requires m > 0.0 && x == r + k as real * m && 0.0 <= r < m
    ensures Mod(x, m) == r && Div(x, m) == k
  {
    Quotient(r, m, r / m);
    SmallQuotient(r, m);
    Quotient(x, m, r / m + k as real);
  }

  lemma ModTurns(x: real, m: real, k: int)
    requires m > 0.0
    ensures Mod(x + k as real * m, m) == Mod(x, m)
  {
    ModRange(x, m);
    var n := Div(x, m) + k;
    assert n as real * m == Div(x, m) as real * m + k as real * m;
    ModUnique(x + k as real * m, m, n, Mod(x, m));
  }
}
