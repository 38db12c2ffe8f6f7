/** Precise orbit samples: merging several products, choosing the interpolation window, and the state at an
    epoch. */
module Orbit {
  import opened Bits
  import opened Polynomials
  import opened Precise

  /** A sample; a clock flagged bad is absent. */
  datatype Row = Row(t: real, x: real, y: real, z: real, clk: Option<real>)

  /** A satellite by system letter and number. */
  type Key = (char, nat)

  type Product = map<Key, seq<Row>>

  // ---- merging ----

  /** The first row stamped `t`. */
  function First(rows: seq<Row>, t: real): Option<Row> {
    if rows == [] then None else if rows[0].t == t then Some(rows[0]) else First(rows[1..], t)
  }

  predicate Sorted(rows: seq<Row>) {
    forall i, j :: 0 <= i < j < |rows| ==> rows[i].t <= rows[j].t
  }

  predicate Increasing(rows: seq<Row>) {
    forall i, j :: 0 <= i < j < |rows| ==> rows[i].t < rows[j].t
  }

  /** Stable insertion: after every row not later than `r`. */
  function Insert(r: Row, rows: seq<Row>): seq<Row> {
    if rows == [] then [r]
    else if rows[0].t <= r.t then [rows[0]] + Insert(r, rows[1..])
    else [r] + rows
  }

  /** The stable sort by epoch. */
  function Sort(rows: seq<Row>): seq<Row> {
    if rows == [] then [] else Insert(rows[|rows| - 1], Sort(rows[..|rows| - 1]))
  }

  /** The rows kept so far and, unless it repeats the epoch of the last of them, one more. */
  function Kept(d: seq<Row>, r: Row): (e: seq<Row>)
    ensures |d| <= |e| <= |d| + 1 && e != []
  {
    if d != [] && d[|d| - 1].t == r.t then d else d + [r]
  }

  /** Rows with those dropped that repeat the epoch kept before them. */
  function Dedup(rows: seq<Row>): (d: seq<Row>)
    ensures |d| <= |rows| && (rows != [] ==> d != [])
  {
    if rows == [] then [] else Kept(Dedup(rows[..|rows| - 1]), rows[|rows| - 1])
  }

  method DedupRows(rows: seq<Row>) returns (deduped: seq<Row>)
    ensures deduped == Dedup(rows)
  {
    deduped := [];
    var last: Option<real> := None;
    for i := 0 to |rows|
      invariant deduped == Dedup(rows[..i])
      invariant last == if deduped == [] then None else Some(deduped[|deduped| - 1].t)
    {
      var r := rows[i];
      assert rows[..i + 1][..i] == rows[..i];
      if last != Some(r.t) {
        deduped := deduped + [r];
        last := Some(r.t);
      }
    }
    assert rows[..|rows|] == rows;
  }

  lemma {:induction false} FirstConcat(a: seq<Row>, b: seq<Row>, t: real)
    ensures First(a + b, t) == if First(a, t).Some? then First(a, t) else First(b, t)
  {
    if a == [] {
      assert a + b == b;
    } else {
      assert (a + b)[1..] == a[1..] + b;
      FirstConcat(a[1..], b, t);
    }
  }

  lemma {:induction false} InsertFirst(r: Row, rows: seq<Row>, t: real)
    requires Sorted(rows)
    ensures First(Insert(r, rows), t) == First(rows + [r], t)
  {
    FirstConcat(rows, [r], t);
    assert [r][1..] == [];
    if rows == [] {
    } else if rows[0].t <= r.t {
      InsertFirst(r, rows[1..], t);
      FirstConcat(rows[1..], [r], t);
      var s := Insert(r, rows[1..]);
      assert ([rows[0]] + s)[1..] == s;
    } else {
      assert ([r] + rows)[1..] == rows;
      if t == r.t {
        NotAfter(rows, t);
      }
    }
  }

  lemma {:induction false} NotAfter(rows: seq<Row>, t: real)
    requires forall i :: 0 <= i < |rows| ==> rows[i].t > t
    ensures First(rows, t) == None
  {
    if rows != [] {
      NotAfter(rows[1..], t);
    }
  }

  lemma {:induction false} InsertSorted(r: Row, rows: seq<Row>)
    requires Sorted(rows)
    ensures Sorted(Insert(r, rows))
    ensures forall q :: q in Insert(r, rows) <==> q in rows || q == r
  {
    if rows != [] && rows[0].t <= r.t {
      var s := Insert(r, rows[1..]);
      InsertSorted(r, rows[1..]);
      assert forall i :: 0 <= i < |s| ==> s[i] in s;
    }
  }

  lemma {:induction false} SortStable(rows: seq<Row>, t: real)
    ensures Sorted(Sort(rows)) && First(Sort(rows), t) == First(rows, t)
  {
    if rows != [] {
      var n := |rows| - 1;
      SortStable(rows[..n], t);
      InsertSorted(rows[n], Sort(rows[..n]));
      InsertFirst(rows[n], Sort(rows[..n]), t);
      FirstConcat(Sort(rows[..n]), [rows[n]], t);
      FirstConcat(rows[..n], [rows[n]], t);
      assert rows == rows[..n] + [rows[n]];
    }
  }

  lemma {:induction false} DedupFirst(rows: seq<Row>, t: real)
    requires Sorted(rows)
    ensures Increasing(Dedup(rows)) && First(Dedup(rows), t) == First(rows, t)
    ensures rows != [] ==> Dedup(rows)[|Dedup(rows)| - 1].t == rows[|rows| - 1].t
  {
    hide First, Dedup;
    if rows == [] {
      DedupBy(rows);
    } else {
      var n := |rows| - 1;
      var d, r := Dedup(rows[..n]), rows[n];
      DedupBy(rows);
      DedupFirst(rows[..n], t);
      FirstConcat(rows[..n], [r], t);
      FirstConcat(d, [r], t);
      FirstOne(r, t);
      assert rows == rows[..n] + [r];
      if d != [] && d[|d| - 1].t == r.t && t == r.t {
        FirstHas(d, |d| - 1);
      }
    }
  }

  lemma DedupBy(rows: seq<Row>)
    ensures Dedup(rows) == if rows == [] then [] else Kept(Dedup(rows[..|rows| - 1]), rows[|rows| - 1])
  {
    hide Kept;
  }

  lemma FirstOne(r: Row, t: real)
    ensures First([r], t) == if r.t == t then Some(r) else None
  {
    assert [r][1..] == [];
  }

  lemma {:induction false} FirstHas(rows: seq<Row>, i: nat)
    requires i < |rows|
    ensures First(rows, rows[i].t).Some?
  {
    if i > 0 {
      FirstHas(rows[1..], i - 1);
    }
  }

  function Get(p: Product, k: Key): seq<Row> {
    if k in p then p[k] else []
  }

  /** The rows of one satellite in all products, in product order. */
  function Collected(ps: seq<Product>, k: Key): seq<Row> {
    if ps == [] then [] else Collected(ps[..|ps| - 1], k) + Get(ps[|ps| - 1], k)
  }

  function Keys(ps: seq<Product>): set<Key> {
    if ps == [] then {} else Keys(ps[..|ps| - 1]) + ps[|ps| - 1].Keys
  }

  function Live(ps: seq<Option<Product>>): seq<Product> {
    if ps == [] then []
    else Live(ps[..|ps| - 1]) + (match ps[|ps| - 1] case None => [] case Some(p) => [p])
  }

  /** One product is passed through as it is; several are united satellite by satellite. */
  function Merged(ps: seq<Option<Product>>): Option<Product> {
    var live := Live(ps);
    if live == [] then None
    else if |live| == 1 then Some(live[0])
    else Some(map k | k in Keys(live) :: Dedup(Sort(Collected(live, k))))
  }

  function Extended(merged: Product, p: Product): Product {
    map k | k in merged.Keys + p.Keys :: Get(merged, k) + Get(p, k)
  }

  /** `m` is `merged` with the satellites of `p` added, except those still to do. */
  ghost predicate PartlyExtended(merged: Product, p: Product, todo: set<Key>, m: Product) {
    && todo <= p.Keys && m.Keys == merged.Keys + (p.Keys - todo)
    && forall k :: k in m ==> m[k] == if k in p && k !in todo then Get(merged, k) + p[k] else Get(merged, k)
  }

  lemma ExtendStep(merged: Product, p: Product, todo: set<Key>, m: Product, k: Key)
    requires PartlyExtended(merged, p, todo, m) && k in todo
    ensures PartlyExtended(merged, p, todo - {k}, m[k := Get(m, k) + p[k]])
  {
  }

  lemma ExtendDone(merged: Product, p: Product, m: Product)
    requires PartlyExtended(merged, p, {}, m)
    ensures m == Extended(merged, p)
  {
    var e := Extended(merged, p);
    assert m.Keys == e.Keys;
    forall k | k in m
      ensures m[k] == e[k]
    {
      assert Get(merged, k) + [] == Get(merged, k);
    }
  }

  lemma ExtendStart(merged: Product, p: Product)
    ensures PartlyExtended(merged, p, p.Keys, merged)
  {
  }

  method Extend(merged: Product, p: Product) returns (m: Product)
    ensures m == Extended(merged, p)
  {
    hide PartlyExtended, Extended, Get;
    m := merged;
    var todo := p.Keys;
    ExtendStart(merged, p);
    while todo != {}
      invariant todo <= p.Keys && PartlyExtended(merged, p, todo, m)
      decreases |todo|
    {
      var k :| k in todo;
      ExtendStep(merged, p, todo, m, k);
      m := m[k := Get(m, k) + p[k]];
      todo := todo - {k};
    }
    assert todo == {};
    ExtendDone(merged, p, m);
  }

  method Tidy(merged: Product) returns (m: Product)
    ensures m == map k | k in merged :: Dedup(Sort(merged[k]))
  {
    m := map[];
    var todo := merged.Keys;
    while todo != {}
      invariant todo <= merged.Keys
      invariant m == map k | k in merged.Keys - todo :: Dedup(Sort(merged[k]))
      decreases |todo|
    {
      var k :| k in todo;
      var rows := DedupRows(Sort(merged[k]));
      m := m[k := rows];
      todo := todo - {k};
    }
  }

  method Present(ps: seq<Option<Product>>) returns (live: seq<Product>)
    ensures live == Live(ps)
  {
    live := [];
    for i := 0 to |ps|
      invariant live == Live(ps[..i])
    {
      assert ps[..i + 1][..i] == ps[..i];
      if ps[i].Some? {
        live := live + [ps[i].value];
      }
    }
    assert ps[..|ps|] == ps;
  }

  function Union(ps: seq<Product>): Product {
    map k | k in Keys(ps) :: Collected(ps, k)
  }

  lemma UnionStep(ps: seq<Product>)
    requires ps != []
    ensures Union(ps) == Extended(Union(ps[..|ps| - 1]), ps[|ps| - 1])
  {
    Absent(ps[..|ps| - 1]);
  }

  method Collect(ps: seq<Product>) returns (merged: Product)
    ensures merged == Union(ps)
  {
    merged := map[];
    for i := 0 to |ps|
      invariant merged == Union(ps[..i])
    {
      assert ps[..i + 1][..i] == ps[..i];
      UnionStep(ps[..i + 1]);
      hide Extended, Union;
      merged := Extend(merged, ps[i]);
    }
    assert ps[..|ps|] == ps;
  }

  method MergeSp3(ps: seq<Option<Product>>) returns (r: Option<Product>)
    ensures r == Merged(ps)
  {
    var live := Present(ps);
    if live == [] {
      return None;
    }
    if |live| == 1 {
      return Some(live[0]);
    }
    var merged := Collect(live);
    merged := Tidy(merged);
    assert merged == map k | k in Keys(live) :: Dedup(Sort(Collected(live, k)));
    r := Some(merged);
  }

  lemma {:induction false} Absent(ps: seq<Product>)
    ensures forall k :: k !in Keys(ps) ==> Collected(ps, k) == []
  {
    if ps != [] {
      Absent(ps[..|ps| - 1]);
    }
  }

  /** The merged rows of a satellite are strictly increasing in time exactly when there were two products or more
      or the only one's rows were: a single product's repeated epochs stay. */
  lemma MergedIncreasing(ps: seq<Option<Product>>, k: Key)
    requires Merged(ps).Some? && k in Merged(ps).value
    ensures Increasing(Merged(ps).value[k]) <==> |Live(ps)| >= 2 || Increasing(Get(Live(ps)[0], k))
  {
    if |Live(ps)| >= 2 {
      MergedRows(ps, k, 0.0);
    }
  }

  /** Rows merged from two or more products are strictly increasing in time, and for every epoch hold the
      row of the first product that has one. */
  lemma MergedRows(ps: seq<Option<Product>>, k: Key, t: real)
    requires |Live(ps)| >= 2 && k in Keys(Live(ps))
    ensures var rows := Merged(ps).value[k];
      Increasing(rows) && First(rows, t) == First(Collected(Live(ps), k), t)
  {
    var all := Collected(Live(ps), k);
    SortStable(all, t);
    DedupFirst(Sort(all), t);
  }

  lemma {:induction false} CollectedFirst(ps: seq<Product>, k: Key, t: real, i: nat)
    requires i < |ps| && First(Get(ps[i], k), t).Some?
    requires forall j :: 0 <= j < i ==> First(Get(ps[j], k), t).None?
    ensures First(Collected(ps, k), t) == First(Get(ps[i], k), t)
    decreases |ps|
  {
    var n := |ps| - 1;
    FirstConcat(Collected(ps[..n], k), Get(ps[n], k), t);
    if i < n {
      CollectedFirst(ps[..n], k, t, i);
    } else {
      NotCollected(ps[..n], k, t);
    }
  }

  lemma {:induction false} NotCollected(ps: seq<Product>, k: Key, t: real)
    requires forall j :: 0 <= j < |ps| ==> First(Get(ps[j], k), t).None?
    ensures First(Collected(ps, k), t).None?
  {
    if ps != [] {
      var n := |ps| - 1;
      FirstConcat(Collected(ps[..n], k), Get(ps[n], k), t);
      NotCollected(ps[..n], k, t);
    }
  }

  // ---- the state at an epoch ----

  /** Leading epochs not later than `t`. */
  function BisectRight(rows: seq<Row>, t: real): (n: nat)
    ensures n <= |rows|
  {
    if rows == [] || rows[0].t > t then 0 else 1 + BisectRight(rows[1..], t)
  }

  lemma {:induction false} BisectSplits(rows: seq<Row>, t: real)
    requires Sorted(rows)
    ensures var n := BisectRight(rows, t);
      (forall i :: 0 <= i < n ==> rows[i].t <= t) && (forall i :: n <= i < |rows| ==> t < rows[i].t)
  {
    if rows != [] && rows[0].t <= t {
      BisectSplits(rows[1..], t);
    }
  }

  datatype Fault = NotInProduct | OutOfCoverage | NoCentredWindow | SameEpochs | ClockUnavailable

  datatype Result<+T> = Ok(value: T) | Err(fault: Fault)

  function Min(a: int, b: int): int {
    if a < b then a else b
  }

  function Max(a: int, b: int): int {
    if a > b then a else b
  }

  const DEFAULT_ORDER: nat := 10

  /** Number of samples wanted. */
  function Want(n: nat, order: Option<nat>): int {
    Min((if order.Some? then order.value else DEFAULT_ORDER) + 1, n)
  }

  /** The sample before `t` that another one follows. */
  function Bracket(rows: seq<Row>, t: real): (j: nat)
    ensures rows != [] ==> j < |rows|
  {
    Max(0, Min(BisectRight(rows, t) - 1, |rows| - 2))
  }

  /** The samples [start, end) a state at `t` is interpolated from. */
  function Window(rows: seq<Row>, t: real, order: Option<nat>, allowBoundary: bool): (w: Result<(int, int)>)
    ensures w.Ok? ==> 0 <= w.value.0 < w.value.1 <= |rows| && w.value.1 - w.value.0 == Want(|rows|, order)
  {
    if rows == [] then Err(NotInProduct)
    else if t < rows[0].t || t > rows[|rows| - 1].t then Err(OutOfCoverage)
    else
      var want := Want(|rows|, order);
      var start := Bracket(rows, t) - want / 2 + 1;
      if !(0 <= start && start + want <= |rows|) && !allowBoundary then Err(NoCentredWindow)
      else
        var from := Max(0, Min(start, |rows| - want));
        Ok((from, from + want))
  }

  /** The window holds samples on both sides of the epoch exactly when it has two samples or more, or the
      epoch is the last sample itself: with order 0 the one sample taken is the one after the epoch. */
  lemma WindowBrackets(rows: seq<Row>, t: real, order: Option<nat>, allowBoundary: bool)
    requires Increasing(rows) && Window(rows, t, order, allowBoundary).Ok?
    ensures var (start, end) := Window(rows, t, order, allowBoundary).value;
      rows[start].t <= t <= rows[end - 1].t <==> end - start >= 2 || t == rows[|rows| - 1].t
  {
    BisectSplits(rows, t);
    var n := BisectRight(rows, t);
    assert n >= 1;
  }

  /** For example at the first of any two samples: order 0 takes the second one alone. */
  lemma OrderZeroMisses(a: Row, b: Row)
    requires a.t < b.t
    ensures Increasing([a, b]) && Window([a, b], a.t, Some(0), false) == Ok((1, 2))
  {
    assert [a, b][1..] == [b];
    assert BisectRight([a, b], a.t) == 1;
  }

  /** Times of a window counted from `t`. */
  function Shifted(rows: seq<Row>, t: real): (xs: seq<real>)
    ensures |xs| == |rows|
  {
    seq(|rows|, i requires 0 <= i < |rows| => rows[i].t - t)
  }

  /** One coordinate of the rows. */
  function Coordinate(rows: seq<Row>, c: Row -> real): (ys: seq<real>)
    ensures |ys| == |rows|
  {
    seq(|rows|, i requires 0 <= i < |rows| => c(rows[i]))
  }

  lemma ShiftedDistinct(rows: seq<Row>, t: real)
    ensures Increasing(rows) ==> Distinct(Shifted(rows, t))
  {
    if Increasing(rows) {
      forall i, j | 0 <= i < j < |rows|
        ensures Shifted(rows, t)[i] != Shifted(rows, t)[j]
      {
        assert rows[i].t < rows[j].t;
      }
    }
  }

  // ---- clock ----

  /** Slope of the line through two points. */
  function Secant(ta: real, ca: real, tb: real, cb: real): real
    requires tb != ta
  {
    (cb - ca) / (tb - ta)
  }

  function Ahead(c: real, slope: real, dt: real): real {
    c + slope * dt
  }

  /** Bias and drift at `t` on the line between two samples. */
  function Line(a: Row, b: Row, t: real): Result<(real, real)> {
    if a.clk.None? || b.clk.None? then Err(ClockUnavailable)
    else if b.t == a.t then Ok((a.clk.value, 0.0))
    else
      var slope := Secant(a.t, a.clk.value, b.t, b.clk.value);
      Ok((Ahead(a.clk.value, slope, t - a.t), slope))
  }

  function Clock(rows: seq<Row>, t: real): Result<(real, real)>
    requires rows != []
  {
    Line(rows[Bracket(rows, t)], rows[Min(Bracket(rows, t) + 1, |rows| - 1)], t)
  }

  method InterpClock(rows: seq<Row>, j: nat, t: real) returns (r: Result<(real, real)>)
    requires j < |rows|
    ensures r == Line(rows[j], rows[Min(j + 1, |rows| - 1)], t)
  {
    var a, b := rows[j], rows[Min(j + 1, |rows| - 1)];
    if a.clk.None? || b.clk.None? {
      return Err(ClockUnavailable);
    }
    if b.t == a.t {
      return Ok((a.clk.value, 0.0));
    }
    var slope := Secant(a.t, a.clk.value, b.t, b.clk.value);
    r := Ok((Ahead(a.clk.value, slope, t - a.t), slope));
  }

  /** The two samples a clock comes from are neighbours around the epoch, the earlier one strictly before the
      later one unless there is but one. */
  lemma BracketHolds(rows: seq<Row>, t: real)
    requires rows != [] && Increasing(rows) && rows[0].t <= t <= rows[|rows| - 1].t
    ensures var j := Bracket(rows, t);
      var i := Min(j + 1, |rows| - 1);
      rows[j].t <= t <= rows[i].t && (i == j + 1 || (|rows| == 1 && i == j))
    ensures forall i :: 0 <= i < |rows| && rows[i].t == t ==>
      i == Bracket(rows, t) || i == Min(Bracket(rows, t) + 1, |rows| - 1)
  {
    BisectSplits(rows, t);
  }

  lemma LineExact(ca: real, cb: real, ta: real, tb: real, t: real, bias: real, drift: real)
    requires tb != ta
    ensures Ahead(ca, Secant(ta, ca, tb, cb), ta - ta) == ca && Ahead(ca, Secant(ta, ca, tb, cb), tb - ta) == cb
    ensures ca == bias + drift * ta && cb == bias + drift * tb ==>
      Secant(ta, ca, tb, cb) == drift && Ahead(ca, drift, t - ta) == bias + drift * t
  {
    var d, s := tb - ta, Secant(ta, ca, tb, cb);
    assert s * d == cb - ca;
    if ca == bias + drift * ta && cb == bias + drift * tb {
      assert drift * tb - drift * ta == drift * d;
      assert (s - drift) * d == 0.0;
      assert drift * (t - ta) == drift * t - drift * ta;
    }
  }

  /** A clock is refused exactly when one of the two samples around the epoch is bad; it is the sample's own at
      every sample, and a clock with constant drift comes out exactly everywhere, drift included. */
  lemma ClockExact(rows: seq<Row>, t: real, bias: real, drift: real)
    requires rows != [] && Increasing(rows) && rows[0].t <= t <= rows[|rows| - 1].t
    ensures var a, b := rows[Bracket(rows, t)], rows[Min(Bracket(rows, t) + 1, |rows| - 1)];
      && a.t <= t <= b.t
      && (Clock(rows, t).Ok? <==> a.clk.Some? && b.clk.Some?)
      && (Clock(rows, t).Err? ==> Clock(rows, t).fault == ClockUnavailable)
      && (Clock(rows, t).Ok? && |rows| >= 2 && a.clk.value == bias + drift * a.t && b.clk.value == bias + drift * b.t
          ==> Clock(rows, t) == Ok((bias + drift * t, drift)))
    ensures forall i :: 0 <= i < |rows| && rows[i].t == t && Clock(rows, t).Ok? ==>
      rows[i].clk == Some(Clock(rows, t).value.0)
  {
    BracketHolds(rows, t);
    hide Bracket, Increasing, Secant, Ahead;
    var a, b := rows[Bracket(rows, t)], rows[Min(Bracket(rows, t) + 1, |rows| - 1)];
    if a.clk.Some? && b.clk.Some? && a.t != b.t {
      LineExact(a.clk.value, b.clk.value, a.t, b.t, t, bias, drift);
    }
  }

  // ---- position and velocity ----

  datatype State = State(position: (real, real, real), velocity: (real, real, real), clock: (real, real),
                         validFrom: real, validTo: real)

  /** Coordinate and its rate at `t` from the interpolating polynomial of a window. */
  function Axis(win: seq<Row>, t: real, c: Row -> real): (real, real)
    requires win != []
  {
    var p := Interpolant(Shifted(win, t), Coordinate(win, c));
    (Eval(p, 0.0), Slope(p, 0.0))
  }

  function StateOf(win: seq<Row>, t: real, clock: (real, real)): State
    requires win != []
  {
    var (px, vx) := Axis(win, t, (r: Row) => r.x);
    var (py, vy) := Axis(win, t, (r: Row) => r.y);
    var (pz, vz) := Axis(win, t, (r: Row) => r.z);
    State((px, py, pz), (vx, vy, vz), clock, win[0].t, win[|win| - 1].t)
  }

  /** The state at an epoch, or the first thing that stands in its way. */
  function StateResult(rows: seq<Row>, t: real, order: Option<nat>, allowBoundary: bool): Result<State> {
    var w := Window(rows, t, order, allowBoundary);
    if w.Err? then Err(w.fault)
    else
      var win := rows[w.value.0..w.value.1];
      if !Distinct(Shifted(win, t)) then Err(SameEpochs)
      else
        match Clock(rows, t)
        case Err(fault) => Err(fault)
        case Ok(clock) => Ok(StateOf(win, t, clock))
  }

  method GetState(product: Product, k: Key, t: real, order: Option<nat>, allowBoundary: bool) returns (r: Result<State>)
    ensures r == StateResult(Get(product, k), t, order, allowBoundary)
  {
    hide Window, Interpolant, Line;
    var rows := Get(product, k);
    var w := Window(rows, t, order, allowBoundary);
    if w.Err? {
      return Err(w.fault);
    }
    var win := rows[w.value.0..w.value.1];
    var x := Neville(Shifted(win, t), Coordinate(win, (r: Row) => r.x), 0.0);
    var y := Neville(Shifted(win, t), Coordinate(win, (r: Row) => r.y), 0.0);
    var z := Neville(Shifted(win, t), Coordinate(win, (r: Row) => r.z), 0.0);
    if x.None? || y.None? || z.None? {
      return Err(SameEpochs);
    }
    var clock := InterpClock(rows, Bracket(rows, t), t);
    if clock.Err? {
      return Err(clock.fault);
    }
    r := Ok(State((x.value.0, y.value.0, z.value.0), (x.value.1, y.value.1, z.value.1), clock.value,
                  win[0].t, win[|win| - 1].t));
  }

  /** One product that stamps two rows alike, whatever they hold: merging leaves them, and the state there
      fails. */
  lemma RepeatedEpochFails(k: Key, a: Row, b: Row)
    requires a.t == b.t
    ensures var ps: seq<Option<Product>> := [Some(map[k := [a, b]])];
      && Merged(ps) == Some(map[k := [a, b]])
      && StateResult(Get(Merged(ps).value, k), a.t, None, false) == Err(SameEpochs)
  {
    var ps: seq<Option<Product>> := [Some(map[k := [a, b]])];
    assert ps[..0] == [];
    assert Live(ps) == [map[k := [a, b]]];
    TwoAlike(a, b);
  }

  lemma TwoAlike(a: Row, b: Row)
    requires a.t == b.t
    ensures StateResult([a, b], a.t, None, false) == Err(SameEpochs)
  {
    assert [a, b][1..] == [b] && [b][1..] == [];
    assert BisectRight([a, b], a.t) == 2;
    assert [a, b][0..2] == [a, b];
    assert Shifted([a, b], a.t)[0] == Shifted([a, b], a.t)[1];
  }

  /** A coordinate that moves on a polynomial of degree below the window's size comes out exactly, rate too. */
  lemma AxisExact(win: seq<Row>, t: real, c: Row -> real, q: Poly)
    requires win != [] && Increasing(win) && |q| <= |win|
    requires forall i :: 0 <= i < |win| ==> Eval(q, win[i].t) == c(win[i])
    ensures Axis(win, t, c) == (Eval(q, t), Slope(q, t))
  {
    hide Interpolant, Eval, Slope, Moved;
    var xs, ys := Shifted(win, t), Coordinate(win, c);
    ShiftedDistinct(win, t);
    forall i | 0 <= i < |xs|
      ensures Eval(Moved(q, t), xs[i]) == ys[i]
    {
      MovedEval(q, t, xs[i]);
    }
    NevilleExact(xs, ys, 0.0, Moved(q, t));
    MovedEval(q, t, 0.0);
  }

  lemma Slice(rows: seq<Row>, a: nat, b: nat)
    requires Increasing(rows) && a <= b <= |rows|
    ensures Increasing(rows[a..b])
  {
  }

  /** On rows merged from two or more products, or from one whose rows increase, no window has two samples at
      the same epoch, so every epoch with a window and a clock has a state; a satellite that moves on polynomials
      of degree below the window's size is placed exactly. */
  lemma MergedState(ps: seq<Option<Product>>, k: Key, t: real, order: Option<nat>, allowBoundary: bool,
                    qx: Poly, qy: Poly, qz: Poly)
    requires Merged(ps).Some? && k in Merged(ps).value
    requires |Live(ps)| >= 2 || Increasing(Get(Live(ps)[0], k))
    requires Window(Merged(ps).value[k], t, order, allowBoundary).Ok?
    ensures var rows := Merged(ps).value[k];
      var w := Window(rows, t, order, allowBoundary).value;
      var s := StateResult(rows, t, order, allowBoundary);
      && (s.Ok? <==> Clock(rows, t).Ok?) && (s.Err? ==> s.fault == ClockUnavailable)
      && (s.Ok? && OnTrack(rows[w.0..w.1], qx, qy, qz) ==>
          s.value.position == (Eval(qx, t), Eval(qy, t), Eval(qz, t))
          && s.value.velocity == (Slope(qx, t), Slope(qy, t), Slope(qz, t)))
  {
    hide Eval, Slope, Axis, Window;
    MergedIncreasing(ps, k);
    hide Merged;
    var rows := Merged(ps).value[k];
    var w := Window(rows, t, order, allowBoundary).value;
    var win := rows[w.0..w.1];
    Slice(rows, w.0, w.1);
    ShiftedDistinct(win, t);
    hide Clock, StateOf, OnTrack, Increasing;
    if OnTrack(win, qx, qy, qz) && Clock(rows, t).Ok? {
      StateExact(win, t, Clock(rows, t).value, qx, qy, qz);
    }
    assert Clock(rows, t).Err? ==> Clock(rows, t).fault == ClockUnavailable by {
      ClockFault(rows, t);
    }
  }

  lemma ClockFault(rows: seq<Row>, t: real)
    requires rows != []
    ensures Clock(rows, t).Err? ==> Clock(rows, t).fault == ClockUnavailable
  {
  }

  lemma StateExact(win: seq<Row>, t: real, clock: (real, real), qx: Poly, qy: Poly, qz: Poly)
    requires win != [] && Increasing(win) && OnTrack(win, qx, qy, qz)
    ensures var s := StateOf(win, t, clock);
      && s.position == (Eval(qx, t), Eval(qy, t), Eval(qz, t))
      && s.velocity == (Slope(qx, t), Slope(qy, t), Slope(qz, t))
  {
    hide Eval, Slope, Axis;
    AxisExact(win, t, (r: Row) => r.x, qx);
    AxisExact(win, t, (r: Row) => r.y, qy);
    AxisExact(win, t, (r: Row) => r.z, qz);
  }

  /** The rows are samples of three polynomials of degree below their number. */
  predicate OnTrack(rows: seq<Row>, qx: Poly, qy: Poly, qz: Poly) {
    && |qx| <= |rows| && |qy| <= |rows| && |qz| <= |rows|
    && forall i :: 0 <= i < |rows| ==>
         Eval(qx, rows[i].t) == rows[i].x && Eval(qy, rows[i].t) == rows[i].y && Eval(qz, rows[i].t) == rows[i].z
  }
}
