/** Distance properties of the convolutional code: linearity, free distance 10,
    observability in six symbol pairs, transparency to inversion. */
module Distance {
  import opened Bits
  import opened Conv

  // ---- linearity: a pair of encoders differs as one encoder of the difference ----

  function Xor(s: State, t: State): State {
    State(s.b1 != t.b1, s.b2 != t.b2, s.b3 != t.b3, s.b4 != t.b4, s.b5 != t.b5, s.b6 != t.b6)
  }

  function RegXor(r: Reg, t: Reg): Reg {
    Reg(r.b0 != t.b0, Xor(r.s, t.s))
  }

  /** In how many of their two symbols two registers disagree. */
  function PairCost(r: Reg, t: Reg, inv: bool): nat {
    Num(Out1(r) != Out1(t)) + Num(Out2(r, inv) != Out2(t, inv))
  }

  function Weight(r: Reg): nat {
    Num(Out1(r)) + Num(Out2(r, false))
  }

  lemma Xor5Linear(a: Bit, b: Bit, c: Bit, d: Bit, e: Bit, p: Bit, q: Bit, r: Bit, s: Bit, t: Bit)
    ensures Xor5(a != p, b != q, c != r, d != s, e != t) == (Xor5(a, b, c, d, e) != Xor5(p, q, r, s, t))
  {
    var ab, pq := a != b, p != q;
    assert ((a != p) != (b != q)) == (ab != pq);
    var abc, pqr := ab != c, pq != r;
    assert ((ab != pq) != (c != r)) == (abc != pqr);
    assert ((abc != pqr) != (d != s)) == ((abc != d) != (pqr != s));
  }

  lemma Out1Linear(r: Reg, t: Reg)
    ensures Out1(RegXor(r, t)) == (Out1(r) != Out1(t))
  {
    Xor5Linear(r.b0, r.s.b1, r.s.b2, r.s.b3, r.s.b6, t.b0, t.s.b1, t.s.b2, t.s.b3, t.s.b6);
  }

  lemma Out2Linear(r: Reg, t: Reg)
    ensures Out2(RegXor(r, t), false) == (Out2(r, false) != Out2(t, false))
  {
    Xor5Linear(r.b0, r.s.b2, r.s.b3, r.s.b5, r.s.b6, t.b0, t.s.b2, t.s.b3, t.s.b5, t.s.b6);
  }

  lemma InversionCancels(r: Reg, t: Reg, inv: bool)
    ensures PairCost(r, t, inv) == PairCost(r, t, false)
  {
  }

  lemma Linear(r: Reg, t: Reg, inv: bool)
    ensures PairCost(r, t, inv) == Weight(RegXor(r, t))
  {
    InversionCancels(r, t, inv);
    Out1Linear(r, t);
    Out2Linear(r, t);
  }

  /** Number of ones sent for the difference input `d` from the difference state `x`. */
  function PathWeight(x: State, d: seq<Bit>): nat {
    if d == [] then 0
    else
      var n := |d| - 1;
      PathWeight(x, d[..n]) + Weight(Reg(d[n], After(x, d[..n])))
  }

  lemma PathWeightSnoc(x: State, d: seq<Bit>, p: Bit)
    ensures PathWeight(x, d + [p]) == PathWeight(x, d) + Weight(Reg(p, After(x, d)))
    ensures After(x, d + [p]) == Next(Reg(p, After(x, d)))
  {
    assert (d + [p])[..|d|] == d;
  }

  lemma DistTwo(x: seq<Bit>, y: seq<Bit>, a0: Bit, a1: Bit, b0: Bit, b1: Bit)
    requires |x| == |y|
    ensures Dist(x + [a0, a1], y + [b0, b1]) == Dist(x, y) + Num(a0 != b0) + Num(a1 != b1)
  {
    assert (x + [a0, a1])[..|x| + 1] == x + [a0] && (y + [b0, b1])[..|x| + 1] == y + [b0];
    assert (x + [a0])[..|x|] == x && (y + [b0])[..|x|] == y;
  }

  /** What one more bit on each side adds to the distance of two symbol streams. */
  lemma DistSnoc(s: State, t: State, a: seq<Bit>, b: seq<Bit>, p: Bit, q: Bit, inv: bool)
    requires |a| == |b|
    ensures Dist(Encode(s, a + [p], inv), Encode(t, b + [q], inv))
            == Dist(Encode(s, a, inv), Encode(t, b, inv)) + Weight(Reg(p != q, Xor(After(s, a), After(t, b))))
  {
    var r, z := Reg(p, After(s, a)), Reg(q, After(t, b));
    Snoc(s, a, p, inv);
    Snoc(t, b, q, inv);
    DistTwo(Encode(s, a, inv), Encode(t, b, inv), Out1(r), Out2(r, inv), Out1(z), Out2(z, inv));
    Linear(r, z, inv);
  }

  lemma {:induction false} LinearAfter(s: State, t: State, a: seq<Bit>, b: seq<Bit>)
    requires |a| == |b|
    ensures Xor(After(s, a), After(t, b)) == After(Xor(s, t), Diff(a, b))
  {
    if a != [] {
      var n := |a| - 1;
      LinearAfter(s, t, a[..n], b[..n]);
      assert Diff(a, b)[..n] == Diff(a[..n], b[..n]);
    }
  }

  lemma LinearSnoc(s: State, t: State, a: seq<Bit>, b: seq<Bit>, p: Bit, q: Bit, inv: bool)
    requires |a| == |b|
    requires Dist(Encode(s, a, inv), Encode(t, b, inv)) == PathWeight(Xor(s, t), Diff(a, b))
    ensures Dist(Encode(s, a + [p], inv), Encode(t, b + [q], inv)) == PathWeight(Xor(s, t), Diff(a + [p], b + [q]))
  {
    hide Encode, PathWeight, Dist, Weight;
    LinearAfter(s, t, a, b);
    DistSnoc(s, t, a, b, p, q, inv);
    PathWeightSnoc(Xor(s, t), Diff(a, b), p != q);
    assert Diff(a + [p], b + [q]) == Diff(a, b) + [p != q];
  }

  /** Linearity: how far two encoded streams are apart depends only on the difference of the start
      states and the inputs. */
  lemma LinearEmpty(s: State, t: State, inv: bool)
    ensures Dist(Encode(s, [], inv), Encode(t, [], inv)) == 0 == PathWeight(Xor(s, t), Diff([], []))
  {
  }

  lemma {:induction false} LinearCode(s: State, t: State, a: seq<Bit>, b: seq<Bit>, inv: bool)
    requires |a| == |b|
    ensures Dist(Encode(s, a, inv), Encode(t, b, inv)) == PathWeight(Xor(s, t), Diff(a, b))
  {
    hide Encode, PathWeight, Dist;
    LinearEmpty(s, t, inv);
    if a != [] {
      var n := |a| - 1;
      LinearCode(s, t, a[..n], b[..n], inv);
      LinearSnoc(s, t, a[..n], b[..n], a[n], b[n], inv);
      assert a == a[..n] + [a[n]] && b == b[..n] + [b[n]];
    }
  }

  // ---- free distance ----

  /** The least output weight of any path from `s` back to the zero state. */
  function Potential(s: State): nat {
    if !s.b6 && !s.b5 && !s.b4 then
      if s.b3 then (if s.b2 then 6 else (if s.b1 then 7 else 5))
      else (if s.b2 then 7 else (if s.b1 then 8 else 0))
    else if !s.b6 && !s.b5 && s.b4 then
      if s.b3 then (if s.b2 then (if s.b1 then 7 else 5) else 6)
      else (if s.b2 then 6 else (if s.b1 then 5 else 3))
    else if !s.b6 && s.b5 && !s.b4 then
      if s.b3 then (if s.b2 then (if s.b1 then 7 else 5) else 6)
      else (if s.b2 then (if s.b1 then 6 else 4) else (if s.b1 then 7 else 3))
    else if !s.b6 && s.b5 && s.b4 then
      if s.b3 then (if s.b2 then 6 else (if s.b1 then 7 else 5))
      else (if s.b2 then (if s.b1 then 5 else 7) else (if s.b1 then 6 else 4))
    else if s.b6 && !s.b5 && !s.b4 then
      if s.b3 then (if s.b2 then 6 else (if s.b1 then 7 else 3))
      else (if s.b2 then (if s.b1 then 7 else 5) else (if s.b1 then 8 else 2))
    else if s.b6 && !s.b5 && s.b4 then
      if s.b3 then (if s.b2 then 7 else (if s.b1 then 6 else 4))
      else (if s.b2 then 6 else 5)
    else if s.b6 && s.b5 && !s.b4 then
      if s.b3 then (if s.b2 then (if s.b1 then 7 else 5) else 6)
      else (if s.b2 then (if s.b1 then 6 else 4) else (if s.b1 then 5 else 3))
    else
      if s.b3 then (if s.b2 then 6 else (if s.b1 then 7 else 5))
      else (if s.b2 then 7 else 4)
  }

  /** No transition loses more potential than it puts on the channel. */
  lemma PotentialStep(r: Reg)
    ensures Potential(r.s) <= Weight(r) + Potential(Next(r))
  {
  }

  /** A path that has left the zero state has sent, or still has to send, ten ones in all. */
  lemma {:induction false} Detour(d: seq<Bit>)
    ensures true !in d ==> After(ZERO, d) == ZERO
    ensures true in d ==> PathWeight(ZERO, d) + Potential(After(ZERO, d)) >= 10
  {
    if d != [] {
      var n := |d| - 1;
      Detour(d[..n]);
      PotentialStep(Reg(d[n], After(ZERO, d[..n])));
      assert d == d[..n] + [d[n]];
    }
  }

  /** Free distance: two different inputs that start together and end together are at least 10
      symbols apart. */
  lemma FreeDistance(s: State, a: seq<Bit>, b: seq<Bit>, inv: bool)
    requires |a| == |b| && a != b
    requires After(s, a) == After(s, b)
    ensures Dist(Encode(s, a, inv), Encode(s, b, inv)) >= 10
  {
    LinearCode(s, s, a, b, inv);
    LinearAfter(s, s, a, b);
    var i :| 0 <= i < |a| && a[i] != b[i];
    assert Diff(a, b)[i];
    Detour(Diff(a, b));
  }

  lemma {:induction false} AtRest(n: nat)
    ensures PathWeight(ZERO, Zeros(n)) == 0 && After(ZERO, Zeros(n)) == ZERO
  {
    if n != 0 {
      AtRest(n - 1);
      assert Zeros(n) == Zeros(n - 1) + [false];
      PathWeightSnoc(ZERO, Zeros(n - 1), false);
    }
  }

  lemma OneMore(d: seq<Bit>, y: State, w: nat, p: Bit)
    requires After(ZERO, d) == y && PathWeight(ZERO, d) == w
    ensures After(ZERO, d + [p]) == Next(Reg(p, y)) && PathWeight(ZERO, d + [p]) == w + Weight(Reg(p, y))
  {
    PathWeightSnoc(ZERO, d, p);
  }

  /** A one is out of the register after seven steps and has sent ten ones by then. */
  lemma Impulse(d: seq<Bit>)
    requires After(ZERO, d) == ZERO && PathWeight(ZERO, d) == 0
    ensures var e := d + [true] + [false] + [false] + [false] + [false] + [false] + [false];
      After(ZERO, e) == ZERO && PathWeight(ZERO, e) == 10
  {
    hide After, PathWeight;
    var f := false;
    OneMore(d, ZERO, 0, true);
    OneMore(d + [true], State(true, f, f, f, f, f), 2, f);
    OneMore(d + [true] + [f], State(f, true, f, f, f, f), 3, f);
    OneMore(d + [true] + [f] + [f], State(f, f, true, f, f, f), 5, f);
    OneMore(d + [true] + [f] + [f] + [f], State(f, f, f, true, f, f), 7, f);
    OneMore(d + [true] + [f] + [f] + [f] + [f], State(f, f, f, f, true, f), 7, f);
    OneMore(d + [true] + [f] + [f] + [f] + [f] + [f], State(f, f, f, f, f, true), 8, f);
  }

  lemma {:induction false} RestAfter(d: seq<Bit>, n: nat)
    requires After(ZERO, d) == ZERO
    ensures PathWeight(ZERO, d + Zeros(n)) == PathWeight(ZERO, d) && After(ZERO, d + Zeros(n)) == ZERO
  {
    if n == 0 {
      assert d + Zeros(0) == d;
    } else {
      RestAfter(d, n - 1);
      assert d + Zeros(n) == d + Zeros(n - 1) + [false];
      PathWeightSnoc(ZERO, d + Zeros(n - 1), false);
    }
  }

  /** Ten is reached: one input bit with six more behind it moves the symbols by exactly ten, and leaves the end
      state. */
  lemma FreeDistanceReached(s: State, a: seq<Bit>, i: nat, inv: bool)
    requires i + 7 <= |a|
    ensures var b := a[i := !a[i]];
      After(s, b) == After(s, a) && Dist(Encode(s, a, inv), Encode(s, b, inv)) == 10
  {
    hide After, PathWeight, Encode, Dist, Next;
    var b := a[i := !a[i]];
    var f := false;
    var e := Zeros(i) + [true] + [f] + [f] + [f] + [f] + [f] + [f];
    AtRest(i);
    Impulse(Zeros(i));
    RestAfter(e, |a| - i - 7);
    assert Diff(a, b) == e + Zeros(|a| - i - 7);
    assert Xor(s, s) == ZERO;
    LinearCode(s, s, a, b, inv);
    LinearAfter(s, s, a, b);
    XorNothing(After(s, a), After(s, b));
  }

  lemma XorNothing(s: State, t: State)
    ensures Xor(s, t) == ZERO <==> s == t
  {
  }

  // ---- observability ----

  lemma {:induction false} PathWeightPrefix(x: State, d: seq<Bit>, k: nat)
    requires k <= |d|
    ensures PathWeight(x, d[..k]) <= PathWeight(x, d)
  {
    if k == |d| {
      assert d[..k] == d;
    } else {
      var n := |d| - 1;
      PathWeightPrefix(x, d[..n], k);
      assert d[..n][..k] == d[..k];
    }
  }

  /** Six silent transitions in a row start in the zero state. */
  lemma SixSilent(x0: State, b0: Bit, b1: Bit, b2: Bit, b3: Bit, b4: Bit, b5: Bit)
    requires
      && Weight(Reg(b0, x0)) == 0
      && var x1 := Next(Reg(b0, x0));
      && Weight(Reg(b1, x1)) == 0
      && var x2 := Next(Reg(b1, x1));
      && Weight(Reg(b2, x2)) == 0
      && var x3 := Next(Reg(b2, x2));
      && Weight(Reg(b3, x3)) == 0
      && var x4 := Next(Reg(b3, x3));
      && Weight(Reg(b4, x4)) == 0
      && Weight(Reg(b5, Next(Reg(b4, x4)))) == 0
    ensures x0 == ZERO
  {
  }

  lemma PathWeight3(x: State, a: seq<Bit>, p: Bit, q: Bit, r: Bit)
    requires PathWeight(x, a + [p] + [q] + [r]) == 0
    ensures var s0 := After(x, a);
      var s1 := Next(Reg(p, s0));
      var s2 := Next(Reg(q, s1));
      && PathWeight(x, a) == 0
      && Weight(Reg(p, s0)) == 0 && Weight(Reg(q, s1)) == 0 && Weight(Reg(r, s2)) == 0
      && After(x, a + [p] + [q] + [r]) == Next(Reg(r, s2))
  {
    PathWeightSnoc(x, a, p);
    PathWeightSnoc(x, a + [p], q);
    PathWeightSnoc(x, a + [p] + [q], r);
  }

  lemma AfterNothing(x: State)
    ensures After(x, []) == x
  {
  }

  lemma SilentStartsAtZero(x: State, d: seq<Bit>)
    requires |d| >= 6 && PathWeight(x, d) == 0
    ensures x == ZERO
  {
    hide PathWeight, Weight, Next;
    PathWeightPrefix(x, d, 6);
    var h := [d[0]] + [d[1]] + [d[2]];
    assert d[..6] == h + [d[3]] + [d[4]] + [d[5]] && h == [] + [d[0]] + [d[1]] + [d[2]];
    hide PathWeight, After;
    PathWeight3(x, h, d[3], d[4], d[5]);
    PathWeight3(x, [], d[0], d[1], d[2]);
    AfterNothing(x);
    SixSilent(x, d[0], d[1], d[2], d[3], d[4], d[5]);
  }

  lemma {:induction false} SilentStaysZero(d: seq<Bit>)
    requires PathWeight(ZERO, d) == 0
    ensures true !in d && After(ZERO, d) == ZERO
  {
    if d != [] {
      var n := |d| - 1;
      SilentStaysZero(d[..n]);
      assert d == d[..n] + [d[n]];
    }
  }

  /** Six symbol pairs determine the start state and every input bit. */
  lemma Observable(s: State, t: State, a: seq<Bit>, b: seq<Bit>, inv: bool)
    requires |a| == |b| >= 6
    requires Encode(s, a, inv) == Encode(t, b, inv)
    ensures s == t && a == b
  {
    DistZero(Encode(s, a, inv), Encode(t, b, inv));
    LinearCode(s, t, a, b, inv);
    SilentStartsAtZero(Xor(s, t), Diff(a, b));
    SilentStaysZero(Diff(a, b));
    assert forall i :: 0 <= i < |a| ==> Diff(a, b)[i] == (a[i] != b[i]);
  }

  lemma SilentSnoc(x: State, d: seq<Bit>, y: State, p: Bit)
    requires PathWeight(x, d) == 0 && After(x, d) == y && Weight(Reg(p, y)) == 0
    ensures PathWeight(x, d + [p]) == 0 && After(x, d + [p]) == Next(Reg(p, y))
  {
    PathWeightSnoc(x, d, p);
  }

  /** Five silent transitions that do not start in the zero state. */
  lemma FiveSilent(d: seq<Bit>)
    requires d == [] + [true] + [true] + [false] + [true] + [false]
    ensures PathWeight(State(true, false, true, true, true, true), d) == 0
  {
    var x := State(true, false, true, true, true, true);
    SilentSnoc(x, [], x, true);
    SilentSnoc(x, [] + [true], State(true, true, false, true, true, true), true);
    SilentSnoc(x, [] + [true] + [true], State(true, true, true, false, true, true), false);
    SilentSnoc(x, [] + [true] + [true] + [false], State(false, true, true, true, false, true), true);
    SilentSnoc(x, [] + [true] + [true] + [false] + [true], State(true, false, true, true, true, false), false);
  }

  /** Five pairs do not determine the input: these ten symbols belong to two different inputs. */
  lemma FivePairsAmbiguous(inv: bool)
    ensures Encode(State(true, false, true, true, true, true), [true, true, false, true, false], inv)
            == Encode(ZERO, Zeros(5), inv)
  {
    var x, d := State(true, false, true, true, true, true), [true, true, false, true, false];
    assert d == [] + [true] + [true] + [false] + [true] + [false];
    FiveSilent(d);
    assert Diff(d, Zeros(5)) == d && Xor(x, ZERO) == x;
    LinearCode(x, ZERO, d, Zeros(5), inv);
    DistZero(Encode(x, d, inv), Encode(ZERO, Zeros(5), inv));
  }

  // ---- transparency ----

  function Not(s: State): State {
    State(!s.b1, !s.b2, !s.b3, !s.b4, !s.b5, !s.b6)
  }

  lemma TransparentStep(r: Reg, inv: bool)
    ensures Next(Reg(!r.b0, Not(r.s))) == Not(Next(r))
    ensures Symbols(Reg(!r.b0, Not(r.s)), inv) == Complement(Symbols(r, inv))
  {
  }

  lemma ComplementConcat(a: seq<Bit>, b: seq<Bit>)
    ensures Complement(a + b) == Complement(a) + Complement(b)
  {
  }

  /** Both generators have an odd number of taps: inverting state and input inverts the output. */
  lemma {:induction false} Transparent(s: State, data: seq<Bit>, inv: bool)
    ensures Encode(Not(s), Complement(data), inv) == Complement(Encode(s, data, inv))
    ensures After(Not(s), Complement(data)) == Not(After(s, data))
  {
    if data != [] {
      var n := |data| - 1;
      var d, b := data[..n], data[n];
      var r := Reg(b, After(s, d));
      Transparent(s, d, inv);
      assert data == d + [b];
      assert Complement(data) == Complement(d) + [!b];
      Snoc(s, d, b, inv);
      Snoc(Not(s), Complement(d), !b, inv);
      TransparentStep(r, inv);
      ComplementConcat(Encode(s, d, inv), Symbols(r, inv));
    }
  }
}
