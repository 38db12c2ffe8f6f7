/** Polynomials over the reals as coefficient lists, lowest power first. */
module Polynomials {

  type Poly = seq<real>

  function Eval(p: Poly, x: real): real {
    if p == [] then 0.0 else p[0] + x * Eval(p[1..], x)
  }

  /** Value of the derivative. */
  function Slope(p: Poly, x: real): real {
    if p == [] then 0.0 else Eval(p[1..], x) + x * Slope(p[1..], x)
  }

  function Scale(c: real, p: Poly): (r: Poly)
    ensures |r| == |p|
  {
    if p == [] then [] else [c * p[0]] + Scale(c, p[1..])
  }

  /** `p - q`, as long as the longer one. */
  function Minus(p: Poly, q: Poly): (r: Poly)
    ensures |r| == if |p| > |q| then |p| else |q|
  {
    if q == [] then p
    else if p == [] then Scale(-1.0, q)
    else [p[0] - q[0]] + Minus(p[1..], q[1..])
  }

  /** `(X - r) * p`. */
  function TimesRoot(p: Poly, r: real): (q: Poly)
    ensures |q| == |p| + 1
  {
    Minus([0.0] + p, Scale(r, p))
  }

  lemma EvalEmpty(x: real)
    ensures Eval([], x) == 0.0 && Slope([], x) == 0.0
  {
  }

  lemma EvalCons(c: real, t: Poly, x: real)
    ensures Eval([c] + t, x) == c + x * Eval(t, x)
    ensures Slope([c] + t, x) == Eval(t, x) + x * Slope(t, x)
  {
    assert ([c] + t)[1..] == t;
  }

  lemma ScaleCons(c: real, a: real, t: Poly)
    ensures Scale(c, [a] + t) == [c * a] + Scale(c, t)
  {
    var p := [a] + t;
    assert p[0] == a && p[1..] == t;
    assert Scale(c, p)[0] == c * a;
  }

  lemma {:induction false} ScaleEval(c: real, p: Poly, x: real)
    ensures Eval(Scale(c, p), x) == c * Eval(p, x)
    ensures Slope(Scale(c, p), x) == c * Slope(p, x)
  {
    hide Eval, Slope;
    EvalEmpty(x);
    if p != [] {
      var a, t := p[0], p[1..];
      assert p == [a] + t;
      ScaleCons(c, a, t);
      EvalCons(a, t, x);
      EvalCons(c * a, Scale(c, t), x);
      ScaleEval(c, t, x);
      Factor(c, a, x, Eval(t, x));
      Factor(c, Eval(t, x), x, Slope(t, x));
    }
  }

  lemma Factor(c: real, a: real, x: real, y: real)
    ensures c * a + x * (c * y) == c * (a + x * y)
  {
    assert x * (c * y) == c * (x * y);
  }

  lemma Apart(x: real, y: real, z: real)
    ensures x * (y - z) == x * y - x * z
  {
  }

  lemma {:induction false} MinusEval(p: Poly, q: Poly, x: real)
    ensures Eval(Minus(p, q), x) == Eval(p, x) - Eval(q, x)
    ensures Slope(Minus(p, q), x) == Slope(p, x) - Slope(q, x)
    decreases |p| + |q|
  {
    hide Eval, Slope;
    EvalEmpty(x);
    if q == [] {
    } else if p == [] {
      ScaleEval(-1.0, q, x);
    } else {
      var t, u := p[1..], q[1..];
      assert p == [p[0]] + t && q == [q[0]] + u;
      EvalCons(p[0], t, x);
      EvalCons(q[0], u, x);
      EvalCons(p[0] - q[0], Minus(t, u), x);
      MinusEval(t, u, x);
      Apart(x, Eval(t, x), Eval(u, x));
      Apart(x, Slope(t, x), Slope(u, x));
    }
  }

  lemma TimesRootEval(p: Poly, r: real, x: real)
    ensures Eval(TimesRoot(p, r), x) == (x - r) * Eval(p, x)
    ensures Slope(TimesRoot(p, r), x) == Eval(p, x) + (x - r) * Slope(p, x)
  {
    hide Eval, Slope;
    EvalCons(0.0, p, x);
    MinusEval([0.0] + p, Scale(r, p), x);
    ScaleEval(r, p, x);
  }

  // ---- roots ----

  /** Synthetic division by `X - r`. */
  function Div(p: Poly, r: real): (q: Poly)
    ensures |q| == if p == [] then 0 else |p| - 1
  {
    if |p| <= 1 then [] else [Eval(p[1..], r)] + Div(p[1..], r)
  }

  lemma DivCons(c: real, t: Poly, r: real)
    ensures Div([c] + t, r) == if t == [] then [] else [Eval(t, r)] + Div(t, r)
  {
    assert ([c] + t)[1..] == t;
  }

  lemma {:induction false} Divided(p: Poly, r: real, x: real)
    ensures Eval(p, x) - Eval(p, r) == (x - r) * Eval(Div(p, r), x)
    decreases |p|
  {
    if p == [] {
    } else {
      hide Eval, Slope, Div;
      EvalEmpty(x);
      EvalEmpty(r);
      var t := p[1..];
      assert p == [p[0]] + t;
      EvalCons(p[0], t, x);
      EvalCons(p[0], t, r);
      DivCons(p[0], t, r);
      if t != [] {
        Divided(t, r, x);
        EvalCons(Eval(t, r), Div(t, r), x);
        Ring(x, r, Eval(t, x), Eval(t, r), Eval(Div(t, r), x));
      }
    }
  }

  lemma Ring(x: real, r: real, t: real, u: real, d: real)
    requires t - u == (x - r) * d
    ensures x * t - r * u == (x - r) * (u + x * d)
  {
    assert x * t == x * (u + (x - r) * d);
    assert x * ((x - r) * d) == (x - r) * (x * d);
  }

  predicate Zero(p: Poly) {
    forall k :: 0 <= k < |p| ==> p[k] == 0.0
  }

  lemma {:induction false} ZeroEval(p: Poly, x: real)
    requires Zero(p)
    ensures Eval(p, x) == 0.0 && Slope(p, x) == 0.0
  {
    if p != [] {
      ZeroEval(p[1..], x);
    }
  }

  lemma {:induction false} ZeroQuotient(p: Poly, r: real)
    requires Eval(p, r) == 0.0 && Zero(Div(p, r))
    ensures Zero(p)
    decreases |p|
  {
    if |p| > 1 {
      assert Div(p, r)[0] == Eval(p[1..], r);
      assert Div(p, r)[1..] == Div(p[1..], r);
      ZeroQuotient(p[1..], r);
    } else if |p| == 1 {
      assert p[1..] == [];
    }
  }

  predicate Distinct(xs: seq<real>) {
    forall i, j :: 0 <= i < j < |xs| ==> xs[i] != xs[j]
  }

  /** A polynomial with as many distinct roots as coefficients is zero. */
  lemma {:induction false} TooManyRoots(p: Poly, roots: seq<real>)
    requires Distinct(roots) && |roots| == |p|
    requires forall k :: 0 <= k < |roots| ==> Eval(p, roots[k]) == 0.0
    ensures Zero(p)
    decreases |p|
  {
    if p != [] {
      var q := Div(p, roots[0]);
      forall k | 0 <= k < |roots[1..]|
        ensures Eval(q, roots[1..][k]) == 0.0
      {
        Divided(p, roots[0], roots[k + 1]);
        NoZeroDivisor(roots[k + 1] - roots[0], Eval(q, roots[k + 1]));
      }
      TooManyRoots(q, roots[1..]);
      ZeroQuotient(p, roots[0]);
    }
  }

  lemma NoZeroDivisor(a: real, b: real)
    requires a != 0.0 && a * b == 0.0
    ensures b == 0.0
  {
  }

  /** Two polynomials of at most `n` coefficients that agree on `n` distinct points agree everywhere, slopes too. */
  lemma Unique(p: Poly, q: Poly, xs: seq<real>, x: real)
    requires Distinct(xs) && |p| <= |xs| && |q| <= |xs|
    requires forall k :: 0 <= k < |xs| ==> Eval(p, xs[k]) == Eval(q, xs[k])
    ensures Eval(p, x) == Eval(q, x) && Slope(p, x) == Slope(q, x)
  {
    var d := Minus(p, q);
    forall k | 0 <= k < |d|
      ensures Eval(d, xs[..|d|][k]) == 0.0
    {
      MinusEval(p, q, xs[k]);
    }
    TooManyRoots(d, xs[..|d|]);
    ZeroEval(d, x);
    MinusEval(p, q, x);
  }

  // ---- moving the origin ----

  /** The polynomial `q` with its argument counted from `t`. */
  function Moved(q: Poly, t: real): (p: Poly)
    ensures |p| == |q|
  {
    if q == [] then [] else PlusConst(q[0], TimesRoot(Moved(q[1..], t), -t))
  }

  function PlusConst(c: real, p: Poly): (r: Poly)
    requires p != []
    ensures |r| == |p|
  {
    [c + p[0]] + p[1..]
  }

  lemma PlusConstEval(c: real, p: Poly, x: real)
    requires p != []
    ensures Eval(PlusConst(c, p), x) == c + Eval(p, x)
    ensures Slope(PlusConst(c, p), x) == Slope(p, x)
  {
    hide Eval, Slope;
    assert p == [p[0]] + p[1..];
    EvalCons(p[0], p[1..], x);
    EvalCons(c + p[0], p[1..], x);
  }

  lemma {:induction false} MovedEval(q: Poly, t: real, x: real)
    ensures Eval(Moved(q, t), x) == Eval(q, t + x)
    ensures Slope(Moved(q, t), x) == Slope(q, t + x)
  {
    hide Eval, Slope, TimesRoot, PlusConst;
    EvalEmpty(x);
    EvalEmpty(t + x);
    if q != [] {
      var u := q[1..];
      assert q == [q[0]] + u;
      EvalCons(q[0], u, t + x);
      MovedEval(u, t, x);
      TimesRootEval(Moved(u, t), -t, x);
      PlusConstEval(q[0], TimesRoot(Moved(u, t), -t), x);
      assert x - (-t) == t + x;
    }
  }
}
