/** Hard-decision Viterbi decoding by add-compare-select and traceback, and the table-driven decoder
    for error-free symbols. */
module Viterbi {
  import opened Bits
  import opened Conv

  type Pair = (Bit, Bit)

  /** An accumulated path metric; `Inf` marks a state no admissible path has reached. */
  datatype Metric = Inf | Fin(v: nat) {
    function Add(w: nat): Metric {
      match this
      case Inf => Inf
      case Fin(x) => Fin(x + w)
    }

    predicate Less(m: Metric) {
      match this
      case Inf => false
      case Fin(x) => m.Fin? ==> x < m.v
    }
  }

  /** The received symbols taken two at a time; an odd one at the end is dropped. */
  function Pairs(coded: seq<Bit>): (ys: seq<Pair>)
    ensures |ys| == |coded| / 2
  {
    seq(|coded| / 2, i requires 0 <= i < |coded| / 2 => (coded[2 * i], coded[2 * i + 1]))
  }

  function PairIndex(y: Pair): (i: nat)
    ensures i < 4
  {
    2 * Num(y.0) + Num(y.1)
  }

  /** Hamming distance between the symbols of one transition and a received pair. */
  function BranchCost(r: Reg, y: Pair, inv: bool): (c: nat)
    ensures c <= 2
  {
    Num(Out1(r) != y.0) + Num(Out2(r, inv) != y.1)
  }

  /** The two states that lead to `d`: they differ in the oldest bit, which drops out. */
  function Pred(d: State, oldest: Bit): State {
    State(d.b2, d.b3, d.b4, d.b5, d.b6, oldest)
  }

  function Into(d: State, oldest: Bit): Reg {
    Reg(d.b1, Pred(d, oldest))
  }

  // ---- what the recursion computes ----

  function InitialMetric(start: Option<State>, d: State): Metric {
    if start.Some? && start.value != d then Inf else Fin(0)
  }

  function Candidate(ys: seq<Pair>, start: Option<State>, inv: bool, d: State, oldest: Bit): Metric
    requires ys != []
    decreases |ys|, 0
  {
    var n := |ys| - 1;
    MetricAt(ys[..n], start, inv, Pred(d, oldest)).Add(BranchCost(Into(d, oldest), ys[n], inv))
  }

  /** True when the predecessor with oldest bit 1 is strictly better; a tie keeps the other one. */
  function Choice(ys: seq<Pair>, start: Option<State>, inv: bool, d: State): Bit
    requires ys != []
    decreases |ys|, 1
  {
    Candidate(ys, start, inv, d, true).Less(Candidate(ys, start, inv, d, false))
  }

  function MetricAt(ys: seq<Pair>, start: Option<State>, inv: bool, d: State): Metric
    decreases |ys|, 2
  {
    if ys == [] then InitialMetric(start, d)
    else Candidate(ys, start, inv, d, Choice(ys, start, inv, d))
  }

  /** The bits read off while walking back from state `d`. */
  function Traceback(ys: seq<Pair>, start: Option<State>, inv: bool, d: State): (bits: seq<Bit>)
    ensures |bits| == |ys|
  {
    if ys == [] then []
    else
      Traceback(ys[..|ys| - 1], start, inv, Pred(d, Choice(ys, start, inv, d))) + [d.b1]
  }

  /** The state the walk back arrives at. */
  function TraceStart(ys: seq<Pair>, start: Option<State>, inv: bool, d: State): State {
    if ys == [] then d
    else TraceStart(ys[..|ys| - 1], start, inv, Pred(d, Choice(ys, start, inv, d)))
  }

  function Metrics(ys: seq<Pair>, start: Option<State>, inv: bool): (m: seq<Metric>)
    ensures |m| == 64
  {
    seq(64, i requires 0 <= i < 64 => MetricAt(ys, start, inv, FromIndex(i)))
  }

  /** Position of the first smallest entry. */
  function ArgMin(m: seq<Metric>): (i: nat)
    requires m != []
    ensures i < |m|
    ensures forall j :: 0 <= j < |m| ==> !m[j].Less(m[i])
  {
    if |m| == 1 then 0
    else
      var n := |m| - 1;
      var i := ArgMin(m[..n]);
      if m[n].Less(m[i]) then n else i
  }

  function EndState(ys: seq<Pair>, start: Option<State>, end: Option<State>, inv: bool): State {
    if end.Some? then end.value else FromIndex(ArgMin(Metrics(ys, start, inv)))
  }

  /** The decoder's result as a function of its arguments. */
  function Decoded(coded: seq<Bit>, inv: bool, start: Option<State>, end: Option<State>): (bits: seq<Bit>)
    ensures |bits| == |coded| / 2
  {
    var ys := Pairs(coded);
    Traceback(ys, start, inv, EndState(ys, start, end, inv))
  }

  // ---- the decoder itself ----

  /** Column `d` of a branch-metric table: the cost of the transition `r` for each received pair. */
  ghost predicate Column(bm: array2<nat>, d: nat, r: Reg, inv: bool)
    requires bm.Length0 == 4 && d < bm.Length1
    reads bm
  {
    forall y: Pair :: bm[PairIndex(y), d] == BranchCost(r, y, inv)
  }

  /** The first `n` columns: entering each state from the predecessor with the given oldest bit. */
  ghost predicate Table(bm: array2<nat>, n: nat, oldest: Bit, inv: bool)
    requires bm.Length0 == 4 && n <= bm.Length1
    reads bm
  {
    forall d :: 0 <= d < n ==> Column(bm, d, Into(FromIndex(d), oldest), inv)
  }

  method FillColumn(bm: array2<nat>, d: nat, r: Reg, inv: bool)
    requires bm.Length0 == 4 && d < bm.Length1
    modifies bm
    ensures Column(bm, d, r, inv)
    ensures forall i, e :: 0 <= i < 4 && 0 <= e < bm.Length1 && e != d ==> bm[i, e] == old(bm[i, e])
  {
    bm[0, d] := BranchCost(r, (false, false), inv);
    bm[1, d] := BranchCost(r, (false, true), inv);
    bm[2, d] := BranchCost(r, (true, false), inv);
    bm[3, d] := BranchCost(r, (true, true), inv);
  }

  method BranchMetrics(inv: bool) returns (bm0: array2<nat>, bm1: array2<nat>)
    ensures fresh(bm0) && fresh(bm1)
    ensures bm0.Length0 == bm1.Length0 == 4 && bm0.Length1 == bm1.Length1 == 64
    ensures Table(bm0, 64, false, inv) && Table(bm1, 64, true, inv)
  {
    bm0, bm1 := new nat[4, 64], new nat[4, 64];
    for d := 0 to 64
      invariant Table(bm0, d, false, inv) && Table(bm1, d, true, inv)
    {
      FillColumn(bm0, d, Into(FromIndex(d), false), inv);
      FillColumn(bm1, d, Into(FromIndex(d), true), inv);
    }
  }

  /** Predecessors by index: d >> 1 and (d >> 1) | 32. */
  lemma PredIndex(i: nat)
    requires i < 64
    ensures FromIndex(i / 2) == Pred(FromIndex(i), false)
    ensures FromIndex(i / 2 + 32) == Pred(FromIndex(i), true)
    ensures (i % 2 == 1) == FromIndex(i).b1
  {
  }

  lemma AcsStep(ys: seq<Pair>, k: nat, start: Option<State>, inv: bool, metric: seq<Metric>, d: nat)
    requires k < |ys| && d < 64
    requires metric == Metrics(ys[..k], start, inv)
    ensures Candidate(ys[..k + 1], start, inv, FromIndex(d), false)
            == metric[d / 2].Add(BranchCost(Into(FromIndex(d), false), ys[k], inv))
    ensures Candidate(ys[..k + 1], start, inv, FromIndex(d), true)
            == metric[d / 2 + 32].Add(BranchCost(Into(FromIndex(d), true), ys[k], inv))
  {
    assert ys[..k + 1][..k] == ys[..k];
    PredIndex(d);
  }

  lemma AcsOne(ys: seq<Pair>, k: nat, start: Option<State>, inv: bool, metric: seq<Metric>, d: nat,
               c0: Metric, c1: Metric)
    requires k < |ys| && d < 64 && metric == Metrics(ys[..k], start, inv)
    requires c0 == metric[d / 2].Add(BranchCost(Into(FromIndex(d), false), ys[k], inv))
    requires c1 == metric[d / 2 + 32].Add(BranchCost(Into(FromIndex(d), true), ys[k], inv))
    ensures c1.Less(c0) == Choice(ys[..k + 1], start, inv, FromIndex(d))
    ensures Metrics(ys[..k + 1], start, inv)[d] == if c1.Less(c0) then c1 else c0
  {
    AcsStep(ys, k, start, inv, metric, d);
    hide FromIndex, Into, BranchCost, Metric.Add, Metric.Less, Candidate;
  }

  lemma AcsVector(ys: seq<Pair>, k: nat, start: Option<State>, inv: bool, metric: seq<Metric>,
                  c0: seq<Metric>, c1: seq<Metric>)
    requires k < |ys| && |c0| == |c1| == 64
    requires metric == Metrics(ys[..k], start, inv)
    requires forall d :: 0 <= d < 64 ==> c0[d] == metric[d / 2].Add(BranchCost(Into(FromIndex(d), false), ys[k], inv))
    requires forall d :: 0 <= d < 64 ==>
      c1[d] == metric[d / 2 + 32].Add(BranchCost(Into(FromIndex(d), true), ys[k], inv))
    ensures forall d :: 0 <= d < 64 ==> c1[d].Less(c0[d]) == Choice(ys[..k + 1], start, inv, FromIndex(d))
    ensures forall d :: 0 <= d < 64 ==>
      Metrics(ys[..k + 1], start, inv)[d] == if c1[d].Less(c0[d]) then c1[d] else c0[d]
  {
    hide Metrics, Choice, Candidate, FromIndex, Into, BranchCost, Metric.Add, Metric.Less;
    forall d | 0 <= d < 64
      ensures c1[d].Less(c0[d]) == Choice(ys[..k + 1], start, inv, FromIndex(d))
      ensures Metrics(ys[..k + 1], start, inv)[d] == if c1[d].Less(c0[d]) then c1[d] else c0[d]
    {
      AcsOne(ys, k, start, inv, metric, d, c0[d], c1[d]);
    }
  }

  ghost predicate Survivors(ys: seq<Pair>, start: Option<State>, inv: bool, prev: seq<seq<nat>>)
    requires |prev| <= |ys|
  {
    forall j :: 0 <= j < |prev| ==> SurvivorRow(ys[..j + 1], start, inv, prev[j])
  }

  ghost predicate SurvivorRow(ys: seq<Pair>, start: Option<State>, inv: bool, row: seq<nat>)
    requires ys != []
  {
    |row| == 64 &&
    forall d :: 0 <= d < 64 ==> row[d] == if Choice(ys, start, inv, FromIndex(d)) then d / 2 + 32 else d / 2
  }

  /** One add-compare-select step over all 64 states. */
  method Step(ghost ys: seq<Pair>, ghost k: nat, y: Pair, ghost start: Option<State>, ghost inv: bool,
              metric: seq<Metric>, bm0: array2<nat>, bm1: array2<nat>)
    returns (next: seq<Metric>, row: seq<nat>)
    requires k < |ys| && y == ys[k]
    requires metric == Metrics(ys[..k], start, inv)
    requires bm0.Length0 == bm1.Length0 == 4 && bm0.Length1 == bm1.Length1 == 64
    requires Table(bm0, 64, false, inv) && Table(bm1, 64, true, inv)
    ensures next == Metrics(ys[..k + 1], start, inv)
    ensures SurvivorRow(ys[..k + 1], start, inv, row)
  {
    var idx := PairIndex(y);
    var c0 := seq(64, d requires 0 <= d < 64 reads bm0 => metric[d / 2].Add(bm0[idx, d]));
    var c1 := seq(64, d requires 0 <= d < 64 reads bm1 => metric[d / 2 + 32].Add(bm1[idx, d]));
    forall d | 0 <= d < 64
      ensures bm0[idx, d] == BranchCost(Into(FromIndex(d), false), y, inv)
      ensures bm1[idx, d] == BranchCost(Into(FromIndex(d), true), y, inv)
    {
      assert Column(bm0, d, Into(FromIndex(d), false), inv);
      assert Column(bm1, d, Into(FromIndex(d), true), inv);
    }
    AcsVector(ys, k, start, inv, metric, c0, c1);
    next := seq(64, d requires 0 <= d < 64 => if c1[d].Less(c0[d]) then c1[d] else c0[d]);
    row := seq(64, d requires 0 <= d < 64 => if c1[d].Less(c0[d]) then d / 2 + 32 else d / 2);
  }

  /** Forward pass: metrics of the 64 states, and for every step the predecessor each state kept. */
  method Forward(ys: seq<Pair>, inv: bool, start: Option<State>) returns (metric: seq<Metric>, prev: array<seq<nat>>)
    ensures fresh(prev) && prev.Length == |ys|
    ensures metric == Metrics(ys, start, inv)
    ensures Survivors(ys, start, inv, prev[..])
  {
    var bm0, bm1 := BranchMetrics(inv);
    metric := seq(64, i requires 0 <= i < 64 => InitialMetric(start, FromIndex(i)));
    prev := new seq<nat>[|ys|];
    for k := 0 to |ys|
      invariant metric == Metrics(ys[..k], start, inv)
      invariant Survivors(ys, start, inv, prev[..k])
      invariant Table(bm0, 64, false, inv) && Table(bm1, 64, true, inv)
    {
      var row;
      metric, row := Step(ys, k, ys[k], start, inv, metric, bm0, bm1);
      prev[k] := row;
      assert prev[..k + 1] == prev[..k] + [row];
    }
    assert ys[..|ys|] == ys && prev[..|ys|] == prev[..];
  }

  /** Backward pass: the newest bit of each state on the way back. */
  lemma RowAt(ys: seq<Pair>, start: Option<State>, inv: bool, prev: seq<seq<nat>>, k: nat)
    requires k < |prev| <= |ys| && Survivors(ys, start, inv, prev)
    ensures SurvivorRow(ys[..k + 1], start, inv, prev[k])
  {
  }

  lemma BackEmpty(start: Option<State>, inv: bool, d: State)
    ensures Traceback([], start, inv, d) == []
  {
  }

  /** One step back by the survivor table is one step of the walk. */
  lemma BackStep(ys: seq<Pair>, start: Option<State>, inv: bool, st: nat, row: seq<nat>)
    requires ys != [] && st < 64 && SurvivorRow(ys, start, inv, row)
    ensures row[st] < 64
    ensures Traceback(ys, start, inv, FromIndex(st))
         == Traceback(ys[..|ys| - 1], start, inv, FromIndex(row[st])) + [st % 2 == 1]
  {
    hide Choice, FromIndex, Pred;
    PredIndex(st);
  }

  method WalkBack(ys: seq<Pair>, inv: bool, start: Option<State>, prev: array<seq<nat>>, last: nat)
    returns (bits: seq<Bit>)
    requires prev.Length == |ys| && last < 64
    requires Survivors(ys, start, inv, prev[..])
    ensures bits == Traceback(ys, start, inv, FromIndex(last))
  {
    hide Traceback, Choice, Pred, FromIndex, Survivors;
    var n := |ys|;
    var st := last;
    var out := new Bit[n];
    assert ys[..n] == ys;
    for k := n downto 0
      invariant st < 64
      invariant Traceback(ys, start, inv, FromIndex(last)) == Traceback(ys[..k], start, inv, FromIndex(st)) + out[k..]
    {
      RowAt(ys, start, inv, prev[..], k);
      BackStep(ys[..k + 1], start, inv, st, prev[k]);
      out[k] := st % 2 == 1;
      assert ys[..k + 1][..k] == ys[..k];
      assert out[k..] == [out[k]] + out[k + 1..];
      st := prev[k][st];
    }
    BackEmpty(start, inv, FromIndex(st));
    bits := out[..];
  }

  method Decode(coded: seq<Bit>, inv: bool, start: Option<State>, end: Option<State>) returns (bits: seq<Bit>)
    ensures bits == Decoded(coded, inv, start, end)
  {
    if |coded| < 2 {
      return [];
    }
    var ys := Pairs(coded);
    var metric, prev := Forward(ys, inv, start);
    var st := if end.Some? then Index(end.value) else ArgMin(metric);
    IndexRoundTrip(EndState(ys, start, end, inv));
    bits := WalkBack(ys, inv, start, prev, st);
  }
}
