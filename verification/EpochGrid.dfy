/** Reference epochs on the broadcast grids: relabelling of records to the start of a run, BeiDou time, and
    the GLONASS 15-minute index. Times are seconds of the GPS week. */
module EpochGrid {
  import opened Bits
  import opened Reals

  const WEEK: real := 604800.0
  const DAY: real := 86400.0
  const LEAP: real := 18.0
  const MSK: real := 10800.0
  const TB_GRID: real := 900.0

  // ---- broadcast fields ----

  /** How a field brings an out-of-range number into its bits. */
  datatype Overflow = Mask | Clamp

  /** An unsigned time field: its unit and width. */
  datatype Field = Field(unit: real, bits: nat, overflow: Overflow) {
    predicate Valid() {
      unit > 0.0
    }

    function Encode(t: real): (q: nat)
      requires Valid()
      ensures q < Pow2(bits)
    {
      var q := Round(t / unit);
      match overflow
      case Mask => q % Pow2(bits)
      case Clamp => if q < 0 then 0 else if q >= Pow2(bits) then Pow2(bits) - 1 else q
    }

    function Decode(q: nat): real {
      q as real * unit
    }

    /** A time comes back from the field exactly when it is a multiple of the unit that fits the bits. */
    lemma Exact(t: real)
      requires Valid()
      ensures Decode(Encode(t)) == t <==> OnGrid(t)
    {
      if OnGrid(t) {
        var k: int :| 0 <= k < Pow2(bits) && IsMultiple(t, k);
        Quotient(t, unit, k as real);
        ModSmall(k, Pow2(bits));
      } else if Decode(Encode(t)) == t {
        assert IsMultiple(t, Encode(t));
      }
    }

    predicate IsMultiple(t: real, k: int) {
      t == k as real * unit
    }

    predicate OnGrid(t: real) {
      exists k: int :: 0 <= k < Pow2(bits) && IsMultiple(t, k)
    }
  }

  lemma ModSmall(k: int, m: nat)
    requires 0 <= k < m
    ensures k % m == k
  {
  }

  const LNAV: Field := Field(16.0, 16, Mask)
  const CNAV: Field := Field(300.0, 11, Clamp)
  const INAV: Field := Field(60.0, 14, Mask)
  const D1: Field := Field(8.0, 17, Clamp)

  lemma Powers()
    ensures Pow2(16) == 65536 && Pow2(11) == 2048 && Pow2(14) == 16384 && Pow2(17) == 131072
  {
    Pow2Sum(8, 8);
    assert Pow2(8) == 256;
    Pow2Sum(8, 3);
    Pow2Sum(8, 6);
    Pow2Sum(16, 1);
  }

  /** A multiple of 20 minutes within the week is on every broadcast grid. */
  lemma EveryGrid(t: real, k: int)
    requires t == k as real * 1200.0 && 0.0 <= t < WEEK
    ensures LNAV.OnGrid(t) && CNAV.OnGrid(t) && INAV.OnGrid(t) && D1.OnGrid(t)
  {
    Powers();
    assert LNAV.IsMultiple(t, 75 * k) && CNAV.IsMultiple(t, 4 * k);
    assert INAV.IsMultiple(t, 20 * k) && D1.IsMultiple(t, 150 * k);
  }

  // ---- relabelling ----

  /** A record: Keplerian elements with their epochs and issue numbers, or a state vector at `toeRef`. */
  datatype Record =
    | Kepler(system: char, toe: real, toc: real, gpsWeek: Option<real>, iode: int, iodc: Option<int>,
             iodnav: Option<int>)
    | StateVector(system: char, toeRef: real)

  function GlonassToeRef(utcSow: real, sow: real, grid: real, keep: real): real {
    var d := Mod(utcSow + LEAP - sow + WEEK / 2.0, WEEK) - WEEK / 2.0;
    if keep > 0.0 && Abs(d) <= 900.0 then sow + d
    else if grid > 0.0 then Div(sow - LEAP, TB_GRID) as real * TB_GRID + LEAP
    else sow
  }

  function GridFloor(sow: real, grid: real): real {
    if grid > 0.0 then Div(sow, grid) as real * grid else sow
  }

  /** The grid on BeiDou's own time scale, 14 s behind. */
  function GridFloorBds(sow: real, grid: real): real {
    if grid > 0.0 then Div(sow - 14.0, grid) as real * grid + 14.0 else sow
  }

  /** The next even hour. */
  function EvenHour(sow: real): int {
    Ceil(sow / 7200.0) * 7200
  }

  /** A real record close to the run is kept. */
  predicate Kept(e: Record, week: int, sow: real, keep: real)
    requires e.Kepler?
  {
    && keep > 0.0 && e.system in {'G', 'J', 'E'} && e.gpsWeek.Some?
    && Truncated(e.gpsWeek.value) == week
    && Abs((e.gpsWeek.value - week as real) * WEEK + e.toe - sow) <= keep
  }

  function Truncated(x: real): int {
    if x < 0.0 then Ceil(x) else x.Floor
  }

  function Align(e: Record, week: int, sow: real, grid: real, keep: real): Record {
    match e
    case StateVector(system, toeRef) =>
      if system == 'R' then e.(toeRef := GlonassToeRef(toeRef, sow, grid, keep))
      else e.(toeRef := Div(sow, 16.0) as real * 16.0)
    case Kepler(system, _, _, _, _, iodc, iodnav) =>
      if Kept(e, week, sow, keep) then e.(gpsWeek := Some(Truncated(e.gpsWeek.value) as real))
      else if system == 'G' && EvenHour(sow) as real < WEEK then
        var toe := EvenHour(sow);
        var iod := toe / 7200 % 256;
        e.(toe := toe as real, toc := toe as real, gpsWeek := Some(week as real), iode := iod,
           iodc := if iodc.Some? then Some(iod) else None)
      else
        var k := if system == 'C' then GridFloorBds(sow, grid) else GridFloor(sow, grid);
        var f := e.(toe := k, toc := k, gpsWeek := Some(week as real));
        if system == 'E' then
          var iod := Div(k, 600.0) % 1024;
          f.(iode := iod, iodnav := if iodnav.Some? then Some(iod) else None)
        else f
  }

  /** Every record of a set relabelled, by key. */
  method AlignEpochs<K(==)>(byPrn: map<K, Record>, week: int, sow: real, grid: real, keep: real)
    returns (out: map<K, Record>)
    ensures out.Keys == byPrn.Keys
    ensures forall prn :: prn in byPrn ==> out[prn] == Align(byPrn[prn], week, sow, grid, keep)
  {
    hide Align;
    out := map[];
    var todo := byPrn.Keys;
    while todo != {}
      invariant todo <= byPrn.Keys && out.Keys == byPrn.Keys - todo
      invariant forall prn :: prn in out ==> out[prn] == Align(byPrn[prn], week, sow, grid, keep)
      decreases |todo|
    {
      var prn :| prn in todo;
      out := out[prn := Align(byPrn[prn], week, sow, grid, keep)];
      todo := todo - {prn};
    }
  }

  /** Epochs on BeiDou time. */
  function ToBdt(t: real): real {
    Mod(t - 14.0, WEEK)
  }

  lemma FloorBelow(x: real, g: real)
    requires g > 0.0
    ensures var k := Div(x, g) as real * g; k <= x < k + g
    ensures x >= 0.0 ==> Div(x, g) >= 0
  {
    ModRange(x, g);
    if x >= 0.0 {
      assert x / g * g == x;
      FactorSign(x / g, g);
    }
  }

  /** The grid-floor epoch lies on the grid, at most one step before the start of the run. */
  lemma GridEpoch(sow: real, m: nat) returns (k: int)
    requires 0.0 <= sow < WEEK && m > 0
    ensures GridFloor(sow, (1200 * m) as real) == k as real * 1200.0
    ensures 0.0 <= GridFloor(sow, (1200 * m) as real) <= sow < GridFloor(sow, (1200 * m) as real) + (1200 * m) as real
  {
    var g := (1200 * m) as real;
    FloorBelow(sow, g);
    k := Div(sow, g) * m;
    assert Div(sow, g) as real * g == k as real * 1200.0;
    assert Div(sow, g) * m >= 0;
  }

  lemma EvenHourAhead(sow: real)
    requires 0.0 <= sow < WEEK
    ensures 0.0 <= EvenHour(sow) as real - sow < 7200.0
    ensures EvenHour(sow) as real == (EvenHour(sow) / 1200) as real * 1200.0
  {
    var c := Ceil(sow / 7200.0);
    assert EvenHour(sow) == 7200 * c;
    assert EvenHour(sow) / 1200 == 6 * c;
  }

  /** A BeiDou epoch on the grid of its own scale is a whole step of the week there, before the week start too. */
  lemma BdtEpoch(sow: real, m: nat) returns (k: int)
    requires 0.0 <= sow < WEEK && m > 0
    ensures ToBdt(GridFloorBds(sow, (1200 * m) as real)) == k as real * 1200.0
    ensures 0.0 <= ToBdt(GridFloorBds(sow, (1200 * m) as real)) < WEEK
    ensures 0.0 <= sow - GridFloorBds(sow, (1200 * m) as real) < (1200 * m) as real
  {
    var g := (1200 * m) as real;
    var n := Div(sow - 14.0, g);
    FloorBelow(sow - 14.0, g);
    var t := n as real * g;
    assert GridFloorBds(sow, g) - 14.0 == t;
    ModRange(t, WEEK);
    k := n * m - Div(t, WEEK) * 504;
    assert t == (n * m) as real * 1200.0;
    assert Div(t, WEEK) as real * WEEK == (Div(t, WEEK) * 504) as real * 1200.0;
  }

  predicate Survives(f: Field, t: real)
    requires f.Valid()
  {
    f.Decode(f.Encode(t)) == t
  }

  lemma SurvivesAll(t: real, k: int)
    requires t == k as real * 1200.0 && 0.0 <= t < WEEK
    ensures Survives(LNAV, t) && Survives(CNAV, t) && Survives(INAV, t) && Survives(D1, t)
  {
    EveryGrid(t, k);
    LNAV.Exact(t);
    CNAV.Exact(t);
    INAV.Exact(t);
    D1.Exact(t);
  }

  /** On a grid of whole 20 minutes (an hour is three of them) every record that is relabelled carries epochs
      that its broadcast fields bring back exactly: GPS and QZSS on LNAV and CNAV, Galileo on I/NAV, BeiDou,
      on its own scale, on D1. A GPS epoch is at most two hours ahead, any other at most one step behind. */
  lemma RelabelledSurvive(e: Record, week: int, sow: real, m: nat, keep: real)
    requires 0.0 <= sow < WEEK && m > 0 && e.Kepler? && !Kept(e, week, sow, keep)
    ensures var g := (1200 * m) as real;
      var a := Align(e, week, sow, g, keep);
      && a.Kepler? && a.toe == a.toc && a.gpsWeek == Some(week as real)
      && (e.system != 'C' ==> Survives(LNAV, a.toe) && Survives(CNAV, a.toe) && Survives(INAV, a.toe))
      && (e.system == 'C' ==> Survives(D1, ToBdt(a.toe)) && 0.0 <= ToBdt(a.toe) < WEEK)
      && (if e.system == 'G' && EvenHour(sow) as real < WEEK then 0.0 <= a.toe - sow < 7200.0
          else 0.0 <= sow - a.toe < g)
  {
    hide Survives, Kept;
    if e.system == 'G' && EvenHour(sow) as real < WEEK {
      EvenHourAhead(sow);
      SurvivesAll(EvenHour(sow) as real, EvenHour(sow) / 1200);
    } else if e.system == 'C' {
      var k := BdtEpoch(sow, m);
      SurvivesAll(ToBdt(GridFloorBds(sow, (1200 * m) as real)), k);
    } else {
      var k := GridEpoch(sow, m);
      SurvivesAll(GridFloor(sow, (1200 * m) as real), k);
    }
  }

  /** Within a week the issue number of a relabelled GPS or Galileo record names its epoch: records with the
      same number carry the same epoch. */
  lemma IssueNamesEpoch(e: Record, week: int, sow1: real, sow2: real, m: nat)
    requires 0.0 <= sow1 < WEEK && 0.0 <= sow2 < WEEK && m > 0 && e.Kepler?
    requires e.system == 'E' || (e.system == 'G' && EvenHour(sow1) as real < WEEK && EvenHour(sow2) as real < WEEK)
    ensures var g := (1200 * m) as real;
      var a, b := Align(e, week, sow1, g, 0.0), Align(e, week, sow2, g, 0.0);
      a.iode == b.iode ==> a.toe == b.toe
  {
    hide GridFloor, EvenHour;
    if e.system == 'G' {
      TwoHours(sow1);
      TwoHours(sow2);
    } else {
      var k1 := GridEpoch(sow1, m);
      var k2 := GridEpoch(sow2, m);
      TenMinutes(GridFloor(sow1, (1200 * m) as real), k1);
      TenMinutes(GridFloor(sow2, (1200 * m) as real), k2);
    }
  }

  lemma TwoHours(sow: real)
    requires 0.0 <= sow < WEEK && EvenHour(sow) as real < WEEK
    ensures var c := EvenHour(sow) / 7200;
      EvenHour(sow) == 7200 * c && 0 <= c < 84 && c % 256 == c
  {
    EvenHourAhead(sow);
    var c := Ceil(sow / 7200.0);
    assert EvenHour(sow) == 7200 * c;
    DivModUnique(7200 * c, 7200, c, 0);
  }

  lemma TenMinutes(t: real, k: int)
    requires t == k as real * 1200.0 && 0.0 <= t < WEEK
    ensures Div(t, 600.0) == 2 * k && 0 <= 2 * k < 1008 && 2 * k % 1024 == 2 * k
  {
    Quotient(t, 600.0, (2 * k) as real);
  }

  /** An SBAS state is labelled on the 16-second grid, less than a step before the run. */
  lemma SbasEpoch(toeRef: real, week: int, sow: real, grid: real, keep: real)
    ensures var t := Align(StateVector('S', toeRef), week, sow, grid, keep).toeRef;
      t == Div(t, 16.0) as real * 16.0 && 0.0 <= sow - t < 16.0
  {
    FloorBelow(sow, 16.0);
    var d := Div(sow, 16.0);
    Quotient(d as real * 16.0, 16.0, d as real);
  }

  // ---- GLONASS ----

  /** 15-minute index of the Moscow day. */
  function TbIndex(toeRef: real): int {
    Round(Mod(toeRef - LEAP + MSK, DAY) / TB_GRID) % 96
  }

  /** The epoch of index `tb` nearest `approx`. */
  function ToeRefFromTb(tb: int, approx: real): real {
    var tod := Mod(approx - LEAP + MSK, DAY);
    approx + (Mod(tb as real * TB_GRID - tod + 43200.0, DAY) - 43200.0)
  }

  lemma TbOfGrid(toeRef: real, u: int)
    requires toeRef == u as real * TB_GRID + LEAP
    ensures TbIndex(toeRef) == (u + 12) % 96
  {
    var n := (u + 12) / 96;
    var r := (u + 12) % 96;
    ModUnique(toeRef - LEAP + MSK, DAY, n, r as real * TB_GRID);
    Quotient(r as real * TB_GRID, TB_GRID, r as real);
  }

  /** An epoch on the 15-minute grid is recovered from its index exactly when it lies less than 12 hours after
      the approximate time, or at most 12 hours before it. */
  lemma TbRecovered(toeRef: real, u: int, approx: real)
    requires toeRef == u as real * TB_GRID + LEAP
    ensures ToeRefFromTb(TbIndex(toeRef), approx) == toeRef <==> -43200.0 <= toeRef - approx < 43200.0
  {
    TbOfGrid(toeRef, u);
    var r, n := (u + 12) % 96, (u + 12) / 96;
    var c := Div(approx - LEAP + MSK, DAY);
    var d := toeRef - approx;
    assert r as real * TB_GRID - Mod(approx - LEAP + MSK, DAY) + 43200.0 == d + 43200.0 + (c - n) as real * DAY;
    ModTurns(d + 43200.0, DAY, c - n);
    ModRange(d + 43200.0, DAY);
    if -43200.0 <= d < 43200.0 {
      ModUnique(d + 43200.0, DAY, 0, d + 43200.0);
    }
  }

  /** A GLONASS state relabelled on the native grid lies on the 15-minute grid, less than a quarter of an hour
      before the run, and is recovered from its broadcast index at any time within 12 hours. */
  lemma GlonassRelabelled(toeRef: real, week: int, sow: real, grid: real, approx: real)
    requires grid > 0.0
    ensures var a := Align(StateVector('R', toeRef), week, sow, grid, 0.0);
      && 0.0 <= sow - a.toeRef < TB_GRID
      && (ToeRefFromTb(TbIndex(a.toeRef), approx) == a.toeRef <==> -43200.0 <= a.toeRef - approx < 43200.0)
  {
    var u := Div(sow - LEAP, TB_GRID);
    FloorBelow(sow - LEAP, TB_GRID);
    TbRecovered(u as real * TB_GRID + LEAP, u, approx);
  }

  /** A GLONASS state kept at its real epoch stays within a quarter of an hour of the run and is its own UTC
      epoch on the GPS scale, up to whole weeks. */
  lemma GlonassKept(utcSow: real, sow: real, grid: real, keep: real) returns (k: int)
    requires keep > 0.0 && Abs(Mod(utcSow + LEAP - sow + WEEK / 2.0, WEEK) - WEEK / 2.0) <= 900.0
    ensures Abs(GlonassToeRef(utcSow, sow, grid, keep) - sow) <= 900.0
    ensures GlonassToeRef(utcSow, sow, grid, keep) == utcSow + LEAP - k as real * WEEK
  {
    k := Div(utcSow + LEAP - sow + WEEK / 2.0, WEEK);
  }
}
