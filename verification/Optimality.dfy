/** What the Viterbi decoder guarantees: a nearest admissible path for every input, exact correction
    of four symbol errors in a terminated block, exact recovery from an unknown state. */
module Optimality {
  import opened Bits
  import opened Conv
  import opened Viterbi
  import D = Distance

  /** Cost of sending `bits` from state `s` when `ys` was received. */
  function PathCost(s: State, bits: seq<Bit>, ys: seq<Pair>, inv: bool): nat
    requires |bits| == |ys|
  {
    if bits == [] then 0
    else
      var n := |bits| - 1;
      PathCost(s, bits[..n], ys[..n], inv) + BranchCost(Reg(bits[n], After(s, bits[..n])), ys[n], inv)
  }

  predicate Admissible(s: State, bits: seq<Bit>, start: Option<State>, end: Option<State>) {
    && (start.Some? ==> s == start.value)
    && (end.Some? ==> After(s, bits) == end.value)
  }

  // ---- the recursion computes the cheapest path into each state ----

  lemma EnterState(r: Reg)
    ensures Into(Next(r), r.s.b6) == r
  {
  }

  lemma LessOrEqual(a: Metric, b: Metric)
    ensures var m := if b.Less(a) then b else a; !a.Less(m) && !b.Less(m)
  {
  }

  /** No admissible path is cheaper than the metric of the state it ends in. */
  lemma {:induction false} LowerBound(s: State, bits: seq<Bit>, ys: seq<Pair>, start: Option<State>, inv: bool)
    requires |bits| == |ys|
    requires start.Some? ==> s == start.value
    ensures !Fin(PathCost(s, bits, ys, inv)).Less(MetricAt(ys, start, inv, After(s, bits)))
    ensures MetricAt(ys, start, inv, After(s, bits)).Fin?
  {
    if bits != [] {
      var n := |bits| - 1;
      var r := Reg(bits[n], After(s, bits[..n]));
      LowerBound(s, bits[..n], ys[..n], start, inv);
      EnterState(r);
      LessOrEqual(Candidate(ys, start, inv, Next(r), false), Candidate(ys, start, inv, Next(r), true));
      assert Candidate(ys, start, inv, Next(r), r.s.b6)
             == MetricAt(ys[..n], start, inv, r.s).Add(BranchCost(r, ys[n], inv));
    }
  }

  lemma TraceSnoc(ys: seq<Pair>, y: Pair, start: Option<State>, inv: bool, d: State)
    ensures var c := Choice(ys + [y], start, inv, d);
      && Traceback(ys + [y], start, inv, d) == Traceback(ys, start, inv, Pred(d, c)) + [d.b1]
      && TraceStart(ys + [y], start, inv, d) == TraceStart(ys, start, inv, Pred(d, c))
      && MetricAt(ys + [y], start, inv, d)
         == MetricAt(ys, start, inv, Pred(d, c)).Add(BranchCost(Into(d, c), y, inv))
  {
    assert (ys + [y])[..|ys|] == ys;
  }

  /** `bits` from `s` is an admissible path into `d` that costs exactly `m`. */
  predicate Path(s: State, bits: seq<Bit>, ys: seq<Pair>, start: Option<State>, inv: bool, d: State, m: Metric) {
    && |bits| == |ys|
    && (start.Some? ==> s == start.value)
    && After(s, bits) == d
    && m == Fin(PathCost(s, bits, ys, inv))
  }

  lemma PathStep(s: State, bits: seq<Bit>, ys: seq<Pair>, y: Pair, start: Option<State>, inv: bool,
                 d: State, c: Bit, m: Metric)
    requires Path(s, bits, ys, start, inv, Pred(d, c), m)
    ensures Path(s, bits + [d.b1], ys + [y], start, inv, d, m.Add(BranchCost(Into(d, c), y, inv)))
  {
    hide After, PathCost, BranchCost;
    Snoc(s, bits, d.b1, inv);
    CostSnoc(s, bits, d.b1, ys, y, inv);
  }

  /** The traceback from a reached state is an admissible path that costs exactly its metric. */
  lemma {:induction false} Achieved(ys: seq<Pair>, start: Option<State>, inv: bool, d: State)
    requires MetricAt(ys, start, inv, d).Fin?
    ensures Path(TraceStart(ys, start, inv, d), Traceback(ys, start, inv, d), ys, start, inv, d,
                 MetricAt(ys, start, inv, d))
  {
    if ys != [] {
      var n := |ys| - 1;
      var ys', y := ys[..n], ys[n];
      assert ys == ys' + [y];
      var c := Choice(ys, start, inv, d);
      TraceSnoc(ys', y, start, inv, d);
      var p := Pred(d, c);
      Achieved(ys', start, inv, p);
      PathStep(TraceStart(ys', start, inv, p), Traceback(ys', start, inv, p), ys', y, start, inv, d, c,
               MetricAt(ys', start, inv, p));
    }
  }

  // ---- path cost is Hamming distance on the channel ----

  lemma CostEmpty(s: State, inv: bool)
    ensures PathCost(s, [], [], inv) == 0 == Dist(Encode(s, [], inv), [])
  {
  }

  lemma CostSnoc(s: State, bits: seq<Bit>, b: Bit, ys: seq<Pair>, y: Pair, inv: bool)
    requires |bits| == |ys|
    ensures PathCost(s, bits + [b], ys + [y], inv)
         == PathCost(s, bits, ys, inv) + BranchCost(Reg(b, After(s, bits)), y, inv)
  {
    assert (bits + [b])[..|bits|] == bits && (ys + [y])[..|bits|] == ys;
  }

  lemma {:induction false} CostIsDistance(s: State, bits: seq<Bit>, coded: seq<Bit>, inv: bool)
    requires |coded| == 2 * |bits|
    ensures PathCost(s, bits, Pairs(coded), inv) == Dist(Encode(s, bits, inv), coded)
  {
    hide PathCost, Encode, After, Dist;
    CostEmpty(s, inv);
    if bits != [] {
      var n := |bits| - 1;
      var r, front := Reg(bits[n], After(s, bits[..n])), coded[..2 * n];
      var y := (coded[2 * n], coded[2 * n + 1]);
      CostIsDistance(s, bits[..n], front, inv);
      assert Pairs(coded) == Pairs(front) + [y];
      assert coded == front + [y.0, y.1] && bits == bits[..n] + [bits[n]];
      CostSnoc(s, bits[..n], bits[n], Pairs(front), y, inv);
      Snoc(s, bits[..n], bits[n], inv);
      D.DistTwo(Encode(s, bits[..n], inv), front, Out1(r), Out2(r, inv), y.0, y.1);
    } else {
      assert coded == [] && Pairs(coded) == [];
    }
  }

  lemma EvenPart(coded: seq<Bit>)
    ensures Pairs(coded[..2 * (|coded| / 2)]) == Pairs(coded)
  {
  }

  /** Symbols of a path compared with what was received. */
  function ChannelErrors(s: State, bits: seq<Bit>, coded: seq<Bit>, inv: bool): nat
    requires |bits| == |coded| / 2
  {
    Dist(Encode(s, bits, inv), coded[..2 * |bits|])
  }

  lemma ErrorsAreCost(s: State, bits: seq<Bit>, coded: seq<Bit>, inv: bool)
    requires |bits| == |coded| / 2
    ensures ChannelErrors(s, bits, coded, inv) == PathCost(s, bits, Pairs(coded), inv)
  {
    EvenPart(coded);
    CostIsDistance(s, bits, coded[..2 * |bits|], inv);
  }

  // ---- optimality ----

  lemma EndIsBest(ys: seq<Pair>, start: Option<State>, inv: bool, d: State)
    ensures !MetricAt(ys, start, inv, d).Less(MetricAt(ys, start, inv, EndState(ys, start, None, inv)))
  {
    var m := Metrics(ys, start, inv);
    IndexRoundTrip(d);
    assert m[Index(d)] == MetricAt(ys, start, inv, d);
    assert m[ArgMin(m)] == MetricAt(ys, start, inv, FromIndex(ArgMin(m)));
  }

  /** Maximum likelihood: whenever the required end state can be reached at all, the decoded bits are
      those of an admissible path, and no admissible path is closer to the received symbols. */
  lemma NearestPath(coded: seq<Bit>, inv: bool, start: Option<State>, end: Option<State>, t: State, other: seq<Bit>)
    requires |other| == |coded| / 2 && Admissible(t, other, start, end)
    ensures exists s ::
      && Admissible(s, Decoded(coded, inv, start, end), start, end)
      && ChannelErrors(s, Decoded(coded, inv, start, end), coded, inv) <= ChannelErrors(t, other, coded, inv)
  {
    var ys := Pairs(coded);
    var d := EndState(ys, start, end, inv);
    LowerBound(t, other, ys, start, inv);
    EndIsBest(ys, start, inv, After(t, other));
    Achieved(ys, start, inv, d);
    var s := TraceStart(ys, start, inv, d);
    ErrorsAreCost(s, Decoded(coded, inv, start, end), coded, inv);
    ErrorsAreCost(t, other, coded, inv);
  }

  /** One and the same path of the decoder is nearest to the received symbols among all of them. */
  lemma MaximumLikelihood(coded: seq<Bit>, inv: bool, start: Option<State>, end: Option<State>)
    requires exists t, other: seq<Bit> :: |other| == |coded| / 2 && Admissible(t, other, start, end)
    ensures exists s ::
      && Admissible(s, Decoded(coded, inv, start, end), start, end)
      && forall t, other: seq<Bit> :: |other| == |coded| / 2 && Admissible(t, other, start, end) ==>
           ChannelErrors(s, Decoded(coded, inv, start, end), coded, inv) <= ChannelErrors(t, other, coded, inv)
  {
    var ys := Pairs(coded);
    var d := EndState(ys, start, end, inv);
    var s := TraceStart(ys, start, inv, d);
    var bits := Decoded(coded, inv, start, end);
    forall t, other: seq<Bit> | |other| == |coded| / 2 && Admissible(t, other, start, end)
      ensures Admissible(s, bits, start, end)
      ensures ChannelErrors(s, bits, coded, inv) <= ChannelErrors(t, other, coded, inv)
    {
      LowerBound(t, other, ys, start, inv);
      EndIsBest(ys, start, inv, After(t, other));
      Achieved(ys, start, inv, d);
      ErrorsAreCost(s, bits, coded, inv);
      ErrorsAreCost(t, other, coded, inv);
    }
  }

  /** Six pairs are enough to reach every end state from every start state. */
  lemma EveryEndReachable(s: State, end: State, n: nat)
    requires n >= 6
    ensures exists bits: seq<Bit> :: |bits| == n && After(s, bits) == end
  {
    var tail := [end.b6, end.b5, end.b4, end.b3, end.b2, end.b1];
    var bits := Zeros(n - 6) + tail;
    LastSixBits(s, bits);
    assert bits[n - 6] == tail[0] && bits[n - 5] == tail[1] && bits[n - 4] == tail[2];
    assert bits[n - 3] == tail[3] && bits[n - 2] == tail[4] && bits[n - 1] == tail[5];
    assert TailState(bits) == end;
  }

  // ---- error correction in a terminated block ----

  lemma ZeroTail(data: seq<Bit>)
    requires |data| >= 6 && data[|data| - 6..] == Zeros(6)
    ensures forall s :: After(s, data) == ZERO
  {
    var n, tail := |data|, data[|data| - 6..];
    assert data[n - 6] == tail[0] && data[n - 5] == tail[1] && data[n - 4] == tail[2];
    assert data[n - 3] == tail[3] && data[n - 2] == tail[4] && data[n - 1] == tail[5];
    assert TailState(data) == ZERO;
    forall s ensures After(s, data) == ZERO {
      LastSixBits(s, data);
    }
  }

  /** Up to four wrong symbols anywhere in a block that starts in the zero state and ends with six
      zero bits are corrected. */
  lemma FourErrorsCorrected(data: seq<Bit>, received: seq<Bit>, inv: bool)
    requires |data| >= 6 && data[|data| - 6..] == Zeros(6)
    requires |received| == 2 * |data|
    requires Dist(Encode(ZERO, data, inv), received) <= 4
    ensures Decoded(received, inv, Some(ZERO), Some(ZERO)) == data
  {
    var bits := Decoded(received, inv, Some(ZERO), Some(ZERO));
    ZeroTail(data);
    NearestPath(received, inv, Some(ZERO), Some(ZERO), ZERO, data);
    assert received[..2 * |data|] == received;
    var e, f := Encode(ZERO, data, inv), Encode(ZERO, bits, inv);
    DistTriangle(f, received, e);
    DistSymmetric(e, received);
    if bits != data {
      D.FreeDistance(ZERO, bits, data, inv);
    }
  }

  /** A list that lies `k` places from `a` on a shortest way to `b`. */
  function Between(a: seq<Bit>, b: seq<Bit>, k: nat): (r: seq<Bit>)
    requires |a| == |b| && k <= Dist(a, b)
    ensures |r| == |a| && Dist(a, r) == k && Dist(b, r) == Dist(a, b) - k
    decreases |a|
  {
    if a == [] then []
    else
      var n := |a| - 1;
      if a[n] != b[n] && k > 0 then Between(a[..n], b[..n], k - 1) + [b[n]]
      else Between(a[..n], b[..n], k) + [a[n]]
  }

  /** Four is the limit, at every length that carries a data bit at all: some block with five wrong symbols is
      not decoded right. */
  lemma FiveErrorsMistaken(n: nat, inv: bool) returns (data: seq<Bit>, received: seq<Bit>)
    requires n >= 7
    ensures |data| == n && data[n - 6..] == Zeros(6) && |received| == 2 * n
    ensures Dist(Encode(ZERO, data, inv), received) == 5
    ensures Decoded(received, inv, Some(ZERO), Some(ZERO)) != data
  {
    hide Encode, Dist, Decoded;
    var none, one := Zeros(n), Zeros(n)[n - 7 := true];
    D.FreeDistanceReached(ZERO, none, n - 7, inv);
    received := Between(Encode(ZERO, none, inv), Encode(ZERO, one, inv), 5);
    assert none[n - 7] != one[n - 7];
    data := if Decoded(received, inv, Some(ZERO), Some(ZERO)) == none then one else none;
    assert one[n - 6..] == Zeros(6) == none[n - 6..];
  }

  // ---- error-free reception from an unknown state ----

  /** A clean stream of six or more pairs decodes exactly, whatever state the sender was in. */
  lemma UnknownStart(s: State, data: seq<Bit>, inv: bool)
    requires |data| >= 6
    ensures Decoded(Encode(s, data, inv), inv, None, None) == data
  {
    var coded := Encode(s, data, inv);
    var bits := Decoded(coded, inv, None, None);
    NearestPath(coded, inv, None, None, s, data);
    var t :| Admissible(t, bits, None, None)
          && ChannelErrors(t, bits, coded, inv) <= ChannelErrors(s, data, coded, inv);
    assert coded[..2 * |data|] == coded;
    DistZero(coded, coded);
    DistZero(Encode(t, bits, inv), coded);
    D.Observable(t, s, bits, data, inv);
  }

  /** A stream received with inverted carrier sign decodes to the complement. */
  lemma InvertedStream(s: State, data: seq<Bit>, inv: bool)
    requires |data| >= 6
    ensures Decoded(Complement(Encode(s, data, inv)), inv, None, None) == Complement(data)
  {
    D.Transparent(s, data, inv);
    UnknownStart(D.Not(s), Complement(data), inv);
  }

  /** With five pairs no decoder can do this: two inputs, one stream, and only one is returned. */
  lemma SixPairsNeeded(inv: bool)
    ensures exists s, data: seq<Bit> :: |data| == 5 && Decoded(Encode(s, data, inv), inv, None, None) != data
  {
    var s, data := State(true, false, true, true, true, true), [true, true, false, true, false];
    D.FivePairsAmbiguous(inv);
    assert data[0] != Zeros(5)[0];
    if Decoded(Encode(s, data, inv), inv, None, None) == data {
      assert Decoded(Encode(ZERO, Zeros(5), inv), inv, None, None) != Zeros(5);
    }
  }
}
