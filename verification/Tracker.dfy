/** The channel tracker's streaming loop: samples pushed in pieces, one code period integrated at a time.
    Correlators and loop filters are a function of the loop state, the samples and the code phase. */
module Tracker {
  import opened Reals

  const CODE_LEN: real := 1023.0
  const CHIP_HZ: real := 1023000.0

  /** Samples from code phase `phase` to the end of the code period. */
  function SamplesLeft(phase: real, fs: real, rate: real): int
    requires rate != 0.0
  {
    Ceil((CODE_LEN - phase) * fs / rate)
  }

  /** Code phase `n` samples on, in the next code period. */
  function Carried(phase: real, n: int, fs: real, rate: real): real
    requires fs != 0.0
  {
    phase + n as real * rate / fs - CODE_LEN
  }

  /** One measurement record: where its samples lie, the code phase they start at, and what was measured. */
  datatype Epoch<M> = Epoch(sampleIndex: int, n: nat, codePhase: real, measured: M)

  /** Where the loop stands: samples consumed so far, code phase and rate of the next epoch, filter state. */
  datatype State<L> = State(pos: nat, codePhase: real, codeRate: real, loop: L)

  /** What the correlators and filters give for one block of samples. */
  datatype Filtered<L, M> = Filtered(loop: L, codeRate: real, measured: M)

  datatype Channel<!S(!new), !L(!new), !M> =
    Channel(fs: real, start: int, filter: (L, seq<S>, real, real) -> Filtered<L, M>)
  {
    predicate Valid() {
      fs > 0.0 && CHIP_HZ < fs * CODE_LEN
    }

    /** A code phase within the code, a code rate that is positive and below one code length per sample. */
    predicate Good(s: State<L>) {
      fs > 0.0 && 0.0 <= s.codePhase < CODE_LEN && 0.0 < s.codeRate < fs * CODE_LEN
    }

    function Init(loop: L): State<L> {
      State(0, 0.0, CHIP_HZ, loop)
    }

    lemma InitGood(loop: L)
      requires Valid()
      ensures Good(Init(loop))
    {
    }

    /** Samples up to the end of the code period. */
    function BlockLen(s: State<L>): (n: int)
      requires Good(s)
      ensures n >= 1
    {
      Overshoot(s.codePhase, s.codeRate, fs);
      SamplesLeft(s.codePhase, fs, s.codeRate)
    }

    /** One pass over the samples from `s.pos` on: the next state and the epoch. */
    function Next(stream: seq<S>, s: State<L>): State<L>
      requires Good(s) && s.pos + BlockLen(s) <= |stream|
    {
      var n := BlockLen(s);
      var f := filter(s.loop, stream[s.pos..s.pos + n], s.codePhase, s.codeRate);
      State(s.pos + n, Carried(s.codePhase, n, fs, s.codeRate), f.codeRate, f.loop)
    }

    function Measure(stream: seq<S>, s: State<L>): Epoch<M>
      requires Good(s) && s.pos + BlockLen(s) <= |stream|
    {
      var n := BlockLen(s);
      Epoch(start + s.pos, n, s.codePhase, filter(s.loop, stream[s.pos..s.pos + n], s.codePhase, s.codeRate).measured)
    }

    /** The filters keep the code rate in its bounds in every state that the samples from `s` on lead to. */
    ghost predicate Holds(stream: seq<S>, s: State<L>)
      requires Good(s)
      decreases |stream| - s.pos
    {
      s.pos + BlockLen(s) <= |stream| ==>
        && 0.0 < Next(stream, s).codeRate < fs * CODE_LEN
        && (PhaseAfter(stream, s); Holds(stream, Next(stream, s)))
    }

    /** The code phase left over after a pass lies in [0, rate / fs), so the rate alone can leave its bounds. */
    lemma PhaseAfter(stream: seq<S>, s: State<L>)
      requires Good(s) && s.pos + BlockLen(s) <= |stream|
      ensures 0.0 <= Next(stream, s).codePhase < s.codeRate / fs
      ensures Good(Next(stream, s)) <==> 0.0 < Next(stream, s).codeRate < fs * CODE_LEN
    {
      hide SamplesLeft, Carried;
      Overshoot(s.codePhase, s.codeRate, fs);
      Below(s.codeRate, fs, CODE_LEN);
    }

    /** Filters that keep the bounds from every state do so on every run. */
    lemma {:induction false} BoundedHolds(stream: seq<S>, s: State<L>)
      requires Good(s)
      requires forall l, seg, phase, rate :: 0.0 < filter(l, seg, phase, rate).codeRate < fs * CODE_LEN
      ensures Holds(stream, s)
      decreases |stream| - s.pos
    {
      if s.pos + BlockLen(s) <= |stream| {
        PhaseAfter(stream, s);
        BoundedHolds(stream, Next(stream, s));
      }
    }

    /** The epochs of a stream that is all there, and the state after them. */
    ghost function Run(stream: seq<S>, s: State<L>): (r: (seq<Epoch<M>>, State<L>))
      requires Good(s) && Holds(stream, s)
      ensures Good(r.1)
      decreases |stream| - s.pos
    {
      if s.pos + BlockLen(s) > |stream| then ([], s)
      else
        PhaseAfter(stream, s);
        var (epochs, end) := Run(stream, Next(stream, s));
        ([Measure(stream, s)] + epochs, end)
    }

    /** More samples behind do not change what was made of those before. */
    lemma {:induction false} RunExtended(a: seq<S>, b: seq<S>, s: State<L>)
      requires Good(s) && Holds(a + b, s)
      ensures Holds(a, s) && Good(Run(a, s).1) && Holds(a + b, Run(a, s).1)
      ensures Run(a + b, s).0 == Run(a, s).0 + Run(a + b, Run(a, s).1).0
      ensures Run(a + b, s).1 == Run(a + b, Run(a, s).1).1
      decreases |a| - s.pos
    {
      if s.pos + BlockLen(s) <= |a| {
        PhaseAfter(a, s);
        SamePass(a, b, s);
        RunExtended(a, b, Next(a, s));
        hide BlockLen, Next, Measure;
        RunStep(a, s);
        RunStep(a + b, s);
      } else {
        assert Run(a, s) == ([], s);
      }
    }

    /** The bounds hold over all the samples when they hold over the first and then over the rest. */
    lemma {:induction false} HoldsJoined(a: seq<S>, b: seq<S>, s: State<L>)
      requires Good(s) && Holds(a, s) && Holds(a + b, Run(a, s).1)
      ensures Holds(a + b, s)
      decreases |a| - s.pos
    {
      if s.pos + BlockLen(s) <= |a| {
        PhaseAfter(a, s);
        SamePass(a, b, s);
        HoldsJoined(a, b, Next(a, s));
      } else {
        assert Run(a, s) == ([], s);
      }
    }

    lemma RunStop(stream: seq<S>, s: State<L>)
      requires Good(s) && s.pos + BlockLen(s) > |stream|
      ensures Holds(stream, s) && Run(stream, s) == ([], s)
    {
    }

    lemma RunStep(stream: seq<S>, s: State<L>)
      requires Good(s) && Holds(stream, s) && s.pos + BlockLen(s) <= |stream|
      ensures Good(Next(stream, s)) && Holds(stream, Next(stream, s))
      ensures Run(stream, s).0 == [Measure(stream, s)] + Run(stream, Next(stream, s)).0
      ensures Run(stream, s).1 == Run(stream, Next(stream, s)).1
    {
      hide BlockLen, Next, Measure;
      PhaseAfter(stream, s);
    }

    lemma SamePass(a: seq<S>, b: seq<S>, s: State<L>)
      requires Good(s) && s.pos + BlockLen(s) <= |a|
      ensures Next(a + b, s) == Next(a, s) && Measure(a + b, s) == Measure(a, s)
    {
      assert (a + b)[s.pos..s.pos + BlockLen(s)] == a[s.pos..s.pos + BlockLen(s)];
    }

    /** The states at the epoch starts, and the last one. */
    ghost function Trace(stream: seq<S>, s: State<L>): (t: seq<State<L>>)
      requires Good(s) && Holds(stream, s)
      ensures t != [] && t[0] == s
      decreases |stream| - s.pos
    {
      if s.pos + BlockLen(s) > |stream| then [s]
      else
        PhaseAfter(stream, s);
        [s] + Trace(stream, Next(stream, s))
    }

    /** The epochs tile the stream: each starts where the one before ended, every one holds at least a sample,
        what is left at the end is less than one block; and each code phase is below one sample's advance. */
    lemma {:induction false} Tiling(stream: seq<S>, s: State<L>)
      requires Good(s) && Holds(stream, s)
      ensures var (es, t) := (Run(stream, s).0, Trace(stream, s));
        && |t| == |es| + 1
        && (forall k :: 0 <= k < |es| ==> Tiles(es[k], t[k], t[k + 1]))
        && t[|es|] == Run(stream, s).1
        && Good(t[|es|]) && t[|es|].pos + BlockLen(t[|es|]) > |stream|
      decreases |stream| - s.pos
    {
      if s.pos + BlockLen(s) <= |stream| {
        PhaseAfter(stream, s);
        var u := Next(stream, s);
        Tiling(stream, u);
        var es, t := Run(stream, u).0, Trace(stream, u);
        assert Run(stream, s).0 == [Measure(stream, s)] + es && Trace(stream, s) == [s] + t;
        assert Tiles(Measure(stream, s), s, u);
        forall k | 0 <= k < |es| + 1
          ensures Tiles(([Measure(stream, s)] + es)[k], ([s] + t)[k], ([s] + t)[k + 1])
        {
          if k > 0 {
            assert Tiles(es[k - 1], t[k - 1], t[k]);
          }
        }
      }
    }

    /** Epoch `e` runs from state `a` to state `b`. */
    predicate Tiles(e: Epoch<M>, a: State<L>, b: State<L>)
    {
      && fs > 0.0
      && e.sampleIndex == start + a.pos && e.n >= 1 && b.pos == a.pos + e.n
      && e.codePhase == a.codePhase
      && 0.0 <= b.codePhase < a.codeRate / fs
    }
  }

  /** The block reaches past the end of the code period by less than one sample. */
  lemma Overshoot(phase: real, rate: real, fs: real)
    requires phase < CODE_LEN && rate > 0.0 && fs > 0.0
    ensures var n := SamplesLeft(phase, fs, rate);
      n >= 1 && 0.0 <= Carried(phase, n, fs, rate) < rate / fs
  {
    var x := (CODE_LEN - phase) * fs / rate;
    Undivided((CODE_LEN - phase) * fs, rate, x);
    hide Ceil, Carried;
    OvershootAt(phase, rate, fs, x);
  }

  lemma Undivided(a: real, rate: real, x: real)
    requires rate > 0.0 && x == a / rate
    ensures x * rate == a
  {
  }

  lemma OvershootAt(phase: real, rate: real, fs: real, x: real)
    requires phase < CODE_LEN && rate > 0.0 && fs > 0.0 && x * rate == (CODE_LEN - phase) * fs
    ensures Ceil(x) >= 1 && 0.0 <= Carried(phase, Ceil(x), fs, rate) < rate / fs
  {
    hide Carried;
    SameGap(CODE_LEN - phase, fs, rate, x, rate / fs);
    FactorSign(x, rate / fs);
    CeilBounds(x);
    CarriedBounds(phase, rate, fs, Ceil(x), x, rate / fs);
  }

  lemma CarriedBounds(phase: real, rate: real, fs: real, n: int, x: real, d: real)
    requires fs > 0.0 && d == rate / fs && d > 0.0 && x * d == CODE_LEN - phase && x <= n as real < x + 1.0
    ensures 0.0 <= Carried(phase, n, fs, rate) < d
  {
    var p, q := n as real * d, x * d;
    Within(n as real, x, d, p, q);
    Turned(n as real, rate, fs, d, p);
  }

  lemma SameGap(gap: real, fs: real, rate: real, x: real, d: real)
    requires fs > 0.0 && rate > 0.0 && x * rate == gap * fs && d == rate / fs
    ensures x * d == gap && d > 0.0
  {
    assert d * fs == rate;
    FactorSign(d, fs);
    assert x * d * fs == gap * fs;
    Cancel(x * d, gap, fs);
  }

  lemma Turned(n: real, rate: real, fs: real, d: real, p: real)
    requires fs > 0.0 && d == rate / fs && p == n * d
    ensures n * rate / fs == p
  {
    assert d * fs == rate;
    assert p * fs == n * rate;
    Cancel(n * rate / fs, p, fs);
  }

  lemma Within(n: real, x: real, d: real, p: real, q: real)
    requires x <= n < x + 1.0 && d > 0.0 && p == n * d && q == x * d
    ensures 0.0 <= p - q < d
  {
    var u := n - x;
    assert u * d == p - q;
    Fraction(u, d);
  }

  lemma Cancel(a: real, b: real, c: real)
    requires c != 0.0 && a * c == b * c
    ensures a == b
  {
    assert (a - b) * c == 0.0;
  }

  lemma Below(rate: real, fs: real, length: real)
    requires fs > 0.0 && rate < fs * length
    ensures rate / fs < length
  {
    assert rate / fs * fs == rate;
    FactorSign(length - rate / fs, fs);
  }

  class Tracker<S(!new), L(!new), M> {
    const channel: Channel<S, L, M>
    const loop0: L
    var buf: seq<S>
    var buf0: int
    var codePhase: real
    var codeRate: real
    var loop: L
    var epochs: seq<Epoch<M>>
    /** Every sample pushed so far. */
    ghost var pushed: seq<S>

    ghost predicate Placed()
      reads this
    {
      && channel.start <= buf0 <= channel.start + |pushed|
      && buf == pushed[buf0 - channel.start..]
      && channel.Valid() && channel.Good(Now()) && channel.Holds(pushed, Now())
    }

    /** The loop state; samples are counted from the start sample. */
    ghost function Now(): State<L>
      reads this
    {
      State(if buf0 >= channel.start then buf0 - channel.start else 0, codePhase, codeRate, loop)
    }

    /** What is recorded, with what the samples still give, is what the whole stream at once gives. */
    ghost predicate Valid()
      reads this
    {
      && Placed() && channel.Good(channel.Init(loop0)) && channel.Holds(pushed, channel.Init(loop0))
      && channel.Run(pushed, channel.Init(loop0)).0 == epochs + channel.Run(pushed, Now()).0
      && channel.Run(pushed, channel.Init(loop0)).1 == channel.Run(pushed, Now()).1
    }

    constructor (channel: Channel<S, L, M>, loop0: L)
      requires channel.Valid()
      ensures Valid() && this.channel == channel && this.loop0 == loop0 && pushed == []
    {
      hide Channel.Run, Channel.Valid, Channel.Good, Channel.BlockLen;
      channel.InitGood(loop0);
      this.channel, this.loop0 := channel, loop0;
      buf, buf0 := [], channel.start;
      codePhase, codeRate, loop := 0.0, CHIP_HZ, loop0;
      epochs, pushed := [], [];
      new;
      assert Now() == channel.Init(loop0);
    }

    method Push(x: seq<S>)
      requires Valid() && channel.Holds(pushed + x, channel.Init(loop0))
      modifies this`buf, this`pushed
      ensures Valid() && pushed == old(pushed) + x
    {
      hide Channel.Run, Channel.Valid, Channel.Good, Channel.BlockLen, Channel.Holds;
      channel.RunExtended(pushed, x, channel.Init(loop0));
      channel.HoldsJoined(pushed, x, Now());
      channel.RunExtended(pushed, x, Now());
      buf := buf + x;
      pushed := pushed + x;
    }

    method BlockLen() returns (n: int)
      requires Placed()
      ensures n == channel.BlockLen(Now()) && n >= 1
    {
      hide SamplesLeft, Carried;
      n := SamplesLeft(codePhase, channel.fs, codeRate);
    }

    /** Integrates the next `n` samples. */
    method Process(seg: seq<S>, n: nat) returns (e: Epoch<M>)
      requires channel.fs > 0.0
      modifies this`codePhase, this`codeRate, this`loop
      ensures var f := channel.filter(old(loop), seg, old(codePhase), old(codeRate));
        && e == Epoch(buf0, n, old(codePhase), f.measured)
        && codePhase == Carried(old(codePhase), n, channel.fs, old(codeRate))
        && codeRate == f.codeRate && loop == f.loop
    {
      var f := channel.filter(loop, seg, codePhase, codeRate);
      e := Epoch(buf0, n, codePhase, f.measured);
      codePhase := Carried(codePhase, n, channel.fs, codeRate);
      codeRate := f.codeRate;
      loop := f.loop;
    }

    /** Every epoch the buffered samples complete. */
    method Step() returns (out: seq<Epoch<M>>)
      requires Valid()
      modifies this`buf, this`buf0, this`codePhase, this`codeRate, this`loop, this`epochs
      ensures Valid() && epochs == old(epochs) + out
      ensures epochs == channel.Run(pushed, channel.Init(loop0)).0
      ensures Now() == channel.Run(pushed, channel.Init(loop0)).1
    {
      hide SamplesLeft, Carried, Channel.Run, Channel.Valid;
      out := [];
      while true
        invariant Placed() && channel.Good(channel.Init(loop0)) && channel.Holds(pushed, channel.Init(loop0))
        invariant epochs == old(epochs)
        invariant channel.Run(pushed, channel.Init(loop0)).0 == (epochs + out) + channel.Run(pushed, Now()).0
        invariant channel.Run(pushed, channel.Init(loop0)).1 == channel.Run(pushed, Now()).1
        decreases |buf|
      {
        var n := BlockLen();
        if |buf| < n {
          channel.RunStop(pushed, Now());
          break;
        }
        ghost var was := Now();
        assert buf[..n] == pushed[was.pos..was.pos + n];
        channel.RunStep(pushed, was);
        var e := Process(buf[..n], n);
        out := out + [e];
        buf := buf[n..];
        buf0 := buf0 + n;
        assert Now() == channel.Next(pushed, was) && e == channel.Measure(pushed, was);
      }
      epochs := epochs + out;
    }
  }

  function Joined<S>(cuts: seq<seq<S>>): seq<S> {
    if cuts == [] then [] else Joined(cuts[..|cuts| - 1]) + cuts[|cuts| - 1]
  }

  lemma {:induction false} PrefixHolds<S(!new), L(!new), M>(channel: Channel<S, L, M>, cuts: seq<seq<S>>, i: nat,
                                                             s: State<L>)
    requires i <= |cuts| && channel.Good(s) && channel.Holds(Joined(cuts), s)
    ensures channel.Holds(Joined(cuts[..i]), s)
    decreases |cuts|
  {
    hide Channel.Good, Channel.Holds, Channel.Run;
    if i == |cuts| {
      assert cuts[..i] == cuts;
    } else {
      var n := |cuts| - 1;
      channel.RunExtended(Joined(cuts[..n]), cuts[n], s);
      PrefixHolds(channel, cuts[..n], i, s);
      assert cuts[..n][..i] == cuts[..i];
    }
  }

  lemma Nothing<S(!new), L(!new), M>(t: Tracker<S, L, M>, cuts: seq<seq<S>>)
    requires t.Valid() && t.pushed == []
    ensures Joined(cuts[..0]) == [] && t.channel.Run([], t.channel.Init(t.loop0)).0 == []
  {
    t.channel.RunStop([], t.channel.Init(t.loop0));
  }

  lemma JoinedNext<S>(cuts: seq<seq<S>>, i: nat)
    requires i < |cuts|
    ensures Joined(cuts[..i + 1]) == Joined(cuts[..i]) + cuts[i]
  {
    assert cuts[..i + 1][..i] == cuts[..i];
  }

  /** However the samples are cut into pushes, a step after each, the epochs are those of all the samples at
      once. */
  method Feed<S(!new), L(!new), M>(t: Tracker<S, L, M>, cuts: seq<seq<S>>)
    requires t.Valid() && t.pushed == [] && t.epochs == []
    requires t.channel.Holds(Joined(cuts), t.channel.Init(t.loop0))
    modifies t
    ensures t.Valid() && t.pushed == Joined(cuts)
    ensures t.epochs == t.channel.Run(Joined(cuts), t.channel.Init(t.loop0)).0
  {
    hide Channel.Good, Channel.Holds, Channel.Run, Channel.Valid, Channel.Init, Joined;
    Nothing(t, cuts);
    for i := 0 to |cuts|
      invariant t.Valid() && t.pushed == Joined(cuts[..i])
      invariant t.epochs == t.channel.Run(t.pushed, t.channel.Init(t.loop0)).0
    {
      JoinedNext(cuts, i);
      PrefixHolds(t.channel, cuts, i + 1, t.channel.Init(t.loop0));
      t.Push(cuts[i]);
      var out := t.Step();
    }
    assert cuts[..|cuts|] == cuts;
  }
}
