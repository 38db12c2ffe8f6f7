/** Interpolation of precise orbits: Neville's tableau with its derivative, merging of products, and the
    sample window a state is computed from. */
module Precise {
  import opened Bits
  import R = Reals
  import opened Polynomials

  // ---- Neville's tableau ----

  /** The polynomial through points `i` to `i + m`, built the way the tableau is. */
  function Through(xs: seq<real>, ys: seq<real>, i: nat, m: nat): (p: Poly)
    requires |xs| == |ys| && i + m < |xs|
    ensures |p| == m + 1
    decreases m
  {
    if m == 0 then [ys[i]]
    else Blend(xs[i], xs[i + m], Through(xs, ys, i, m - 1), Through(xs, ys, i + 1, m - 1))
  }

  function Blend(xl: real, xr: real, a: Poly, b: Poly): (p: Poly)
    requires |a| == |b|
    ensures |p| == |a| + 1
  {
    Scale(if xl == xr then 0.0 else 1.0 / (xl - xr), Minus(TimesRoot(a, xr), TimesRoot(b, xl)))
  }

  /** The tableau's two recurrences. */
  function Value(xl: real, xr: real, x: real, a: real, b: real): real
    requires xl != xr
  {
    ((x - xr) * a - (x - xl) * b) / (xl - xr)
  }

  function Rate(xl: real, xr: real, x: real, a: real, b: real, da: real, db: real): real
    requires xl != xr
  {
    ((a - b) + (x - xr) * da - (x - xl) * db) / (xl - xr)
  }

  lemma BlendEval(xl: real, xr: real, a: Poly, b: Poly, x: real)
    requires xl != xr && |a| == |b|
    ensures Eval(Blend(xl, xr, a, b), x) == Value(xl, xr, x, Eval(a, x), Eval(b, x))
    ensures Slope(Blend(xl, xr, a, b), x) == Rate(xl, xr, x, Eval(a, x), Eval(b, x), Slope(a, x), Slope(b, x))
  {
    hide Eval, Slope, Minus, TimesRoot;
    TimesRootEval(a, xr, x);
    TimesRootEval(b, xl, x);
    MinusEval(TimesRoot(a, xr), TimesRoot(b, xl), x);
    ScaleEval(1.0 / (xl - xr), Minus(TimesRoot(a, xr), TimesRoot(b, xl)), x);
  }

  lemma BlendAt(xl: real, xr: real, xk: real, yk: real, a: real, b: real)
    requires xl != xr
    requires xk == xr || a == yk
    requires xk == xl || b == yk
    ensures Value(xl, xr, xk, a, b) == yk
  {
    var c := xl - xr;
    assert (xk - xr) * a == (xk - xr) * yk;
    assert (xk - xl) * b == (xk - xl) * yk;
    R.Quotient((xk - xr) * a - (xk - xl) * b, c, yk);
  }

  lemma ThroughOne(xs: seq<real>, ys: seq<real>, i: nat)
    requires |xs| == |ys| && i < |xs|
    ensures Eval(Through(xs, ys, i, 0), xs[i]) == ys[i]
  {
    assert [ys[i]][1..] == [];
  }

  lemma Differ(xs: seq<real>, i: nat, j: nat)
    requires Distinct(xs) && i < j < |xs|
    ensures xs[i] != xs[j]
  {
  }

  lemma ThroughBlend(xs: seq<real>, ys: seq<real>, i: nat, m: nat)
    requires |xs| == |ys| && i + m < |xs| && m > 0
    ensures Through(xs, ys, i, m)
         == Blend(xs[i], xs[i + m], Through(xs, ys, i, m - 1), Through(xs, ys, i + 1, m - 1))
  {
  }

  /** The polynomial of the tableau passes through its points. */
  lemma {:induction false} ThroughPoints(xs: seq<real>, ys: seq<real>, i: nat, m: nat, k: nat)
    requires |xs| == |ys| && i + m < |xs| && i <= k <= i + m && Distinct(xs)
    ensures Eval(Through(xs, ys, i, m), xs[k]) == ys[k]
    decreases m
  {
    hide *;
    if m == 0 {
      ThroughOne(xs, ys, i);
    } else {
      ThroughBlend(xs, ys, i, m);
      Differ(xs, i, i + m);
      var a, b := Through(xs, ys, i, m - 1), Through(xs, ys, i + 1, m - 1);
      BlendEval(xs[i], xs[i + m], a, b, xs[k]);
      if k < i + m {
        ThroughPoints(xs, ys, i, m - 1, k);
      }
      if k > i {
        ThroughPoints(xs, ys, i + 1, m - 1, k);
      }
      BlendAt(xs[i], xs[i + m], xs[k], ys[k], Eval(a, xs[k]), Eval(b, xs[k]));
    }
  }

  /** No two of the nodes up to distance `m` coincide, those at distance `m` counted below `i`. */
  predicate Apart(xs: seq<real>, m: nat, i: nat) {
    && (forall a, b :: 0 <= a < b < |xs| && b - a < m ==> xs[a] != xs[b])
    && (forall a :: 0 <= a < i && a + m < |xs| ==> xs[a] != xs[a + m])
  }

  /** Tableau column `m` up to row `i`, column `m - 1` below: what the two arrays hold. */
  ghost predicate Column(xs: seq<real>, ys: seq<real>, x: real, m: nat, i: nat, ps: seq<real>, ds: seq<real>)
    requires |xs| == |ys| == |ps| == |ds| && m >= 1
  {
    && (forall k :: 0 <= k < i && k + m < |xs| ==>
          ps[k] == Eval(Through(xs, ys, k, m), x) && ds[k] == Slope(Through(xs, ys, k, m), x))
    && (forall k :: i <= k && k + m - 1 < |xs| ==>
          ps[k] == Eval(Through(xs, ys, k, m - 1), x) && ds[k] == Slope(Through(xs, ys, k, m - 1), x))
  }

  lemma ColumnStep(xs: seq<real>, ys: seq<real>, x: real, m: nat, i: nat, ps: seq<real>, ds: seq<real>)
    requires |xs| == |ys| == |ps| == |ds| && m >= 1 && i + m < |xs| && xs[i] != xs[i + m]
    requires Column(xs, ys, x, m, i, ps, ds)
    ensures Column(xs, ys, x, m, i + 1, ps[i := Value(xs[i], xs[i + m], x, ps[i], ps[i + 1])],
                   ds[i := Rate(xs[i], xs[i + m], x, ps[i], ps[i + 1], ds[i], ds[i + 1])])
  {
    hide Eval, Slope, Blend, Value, Rate;
    BlendEval(xs[i], xs[i + m], Through(xs, ys, i, m - 1), Through(xs, ys, i + 1, m - 1), x);
  }

  lemma FirstColumn(xs: seq<real>, ys: seq<real>, x: real, ds: seq<real>)
    requires |xs| == |ys| == |ds| && forall k :: 0 <= k < |ds| ==> ds[k] == 0.0
    ensures Column(xs, ys, x, 1, 0, ys, ds)
  {
    forall k | 0 <= k < |xs|
      ensures ys[k] == Eval(Through(xs, ys, k, 0), x) && ds[k] == Slope(Through(xs, ys, k, 0), x)
    {
      assert [ys[k]][1..] == [];
    }
  }

  /** The interpolating polynomial. */
  function Interpolant(xs: seq<real>, ys: seq<real>): (p: Poly)
    requires |xs| == |ys| > 0
    ensures |p| == |xs|
  {
    Through(xs, ys, 0, |xs| - 1)
  }

  /** Value and slope at `x`, or the error for empty or unequal lists and for coinciding nodes; the tableau
      is overwritten column by column. */
  method Neville(xs: seq<real>, ys: seq<real>, x: real) returns (r: Option<(real, real)>)
    ensures r.Some? <==> |xs| == |ys| > 0 && Distinct(xs)
    ensures r.Some? ==> r.value == (Eval(Interpolant(xs, ys), x), Slope(Interpolant(xs, ys), x))
  {
    hide Eval, Slope, Through, Value, Rate;
    var n := |xs|;
    if n != |ys| || n == 0 {
      return None;
    }
    var P := new real[n](i requires 0 <= i < n => ys[i]);
    var D := new real[n](i => 0.0);
    assert P[..] == ys;
    FirstColumn(xs, ys, x, D[..]);
    for m := 1 to n
      invariant Apart(xs, m, 0) && Column(xs, ys, x, m, 0, P[..], D[..])
    {
      for i := 0 to n - m
        invariant Apart(xs, m, i) && Column(xs, ys, x, m, i, P[..], D[..])
      {
        var xl, xr := xs[i], xs[i + m];
        if xl == xr {
          return None;
        }
        ColumnStep(xs, ys, x, m, i, P[..], D[..]);
        var value, rate := Value(xl, xr, x, P[i], P[i + 1]), Rate(xl, xr, x, P[i], P[i + 1], D[i], D[i + 1]);
        P[i], D[i] := value, rate;
      }
    }
    r := Some((P[0], D[0]));
  }

  /** The tableau's polynomial is the only one: any polynomial of degree below the number of points that
      passes through all of them has its value and its slope. */
  lemma NevilleExact(xs: seq<real>, ys: seq<real>, x: real, p: Poly)
    requires |xs| == |ys| > 0 && Distinct(xs) && |p| <= |xs|
    requires forall k :: 0 <= k < |xs| ==> Eval(p, xs[k]) == ys[k]
    ensures Eval(Interpolant(xs, ys), x) == Eval(p, x) && Slope(Interpolant(xs, ys), x) == Slope(p, x)
  {
    forall k | 0 <= k < |xs|
      ensures Eval(Interpolant(xs, ys), xs[k]) == ys[k]
    {
      ThroughPoints(xs, ys, 0, |xs| - 1, k);
    }
    Unique(Interpolant(xs, ys), p, xs, x);
  }
}
