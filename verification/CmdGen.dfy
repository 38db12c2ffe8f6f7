/** The block command generator: kinematics of a channel, oscillator ramp, fading, and the loop over blocks. */
module CmdGen {
  import opened Bits
  import opened CmdWords
  import opened CmdSign
  import opened Widths
  import opened Reals
  import C = CmdFmt

  // ---- trajectories ----

  datatype Knot = Knot(carrHz: real, carrCycles: real, codeRate: real, codePhase: real)

  /** One satellite signal: piecewise trajectory knots, or (none) constant rates from sample 0. */
  datatype Signal = Signal(
    knots: seq<Knot>, knotSamples: nat, carrierHz: real, carrierCycles: real, codeDoppler: real, codePhase: real,
    txOffset: real)

  /** Carrier frequency and phase, chip rate and code phase at the first sample of a block. */
  datatype Kin = Kin(f: real, ph: real, rate: real, cp: real)

  /** The knot a sample uses: the last one holds on, and a zero knot spacing means the first. */
  function Segment(sv: Signal, sample: nat): (j: nat)
    requires sv.knots != []
    ensures j < |sv.knots|
  {
    var j := if sv.knotSamples == 0 then 0 else sample / sv.knotSamples;
    if j <= |sv.knots| - 1 then j else |sv.knots| - 1
  }

  /** Code phase at sample 0 of a signal without knots, below one code length. */
  function Effective(codePhase: real, length: nat): real
    requires length > 0
  {
    var eff := length as real - Mod(codePhase, length as real);
    if eff >= length as real then eff - length as real else eff
  }

  function Kinematics(sv: Signal, length: nat, rateNom: real, sample: nat, fs: real): Kin
    requires length > 0 && fs > 0.0
  {
    var t := sample as real * (1.0 / fs);
    if sv.knots != [] then
      var j := Segment(sv, sample);
      var k, t0 := sv.knots[j], (j * sv.knotSamples) as real / fs;
      Kin(k.carrHz, k.carrCycles + k.carrHz * (t - t0), k.codeRate, k.codePhase + k.codeRate * (t - t0))
    else
      var rate := rateNom + sv.codeDoppler;
      Kin(sv.carrierHz, sv.carrierCycles + sv.carrierHz * (t - 0.0), rate, Effective(sv.codePhase, length) + rate * t)
  }

  /** At the sample a knot stands for, carrier and code are the knot's own. */
  lemma AtKnot(sv: Signal, length: nat, rateNom: real, j: nat, fs: real)
    requires length > 0 && fs > 0.0 && j < |sv.knots| && sv.knotSamples > 0
    ensures var k := sv.knots[j];
      Kinematics(sv, length, rateNom, j * sv.knotSamples, fs) == Kin(k.carrHz, k.carrCycles, k.codeRate, k.codePhase)
  {
    var n := j * sv.knotSamples;
    DivModUnique(n, sv.knotSamples, j, 0);
    assert n as real * (1.0 / fs) == n as real / fs;
    assert sv.knots[j].carrHz * 0.0 == 0.0 && sv.knots[j].codeRate * 0.0 == 0.0;
  }

  /** The code phase at sample 0 of a signal without knots and the lag it was given for add up to whole code
      lengths. */
  lemma EffectivePhase(codePhase: real, length: nat) returns (k: int)
    requires length > 0
    ensures 0.0 <= Effective(codePhase, length) < length as real
    ensures Effective(codePhase, length) + codePhase == k as real * length as real
  {
    ModRange(codePhase, length as real);
    var d := Div(codePhase, length as real);
    k := if Mod(codePhase, length as real) == 0.0 then d else d + 1;
    assert (d + 1) as real * length as real == d as real * length as real + length as real;
  }

  /** Samples at which a channel keeps its rates. */
  predicate SameRates(sv: Signal, a: nat, b: nat) {
    sv.knots == [] || Segment(sv, a) == Segment(sv, b)
  }

  lemma Times(a: nat, n: nat, fs: real, rate: real, t0: real)
    requires fs > 0.0
    ensures rate * ((a + n) as real * (1.0 / fs) - t0) == rate * (a as real * (1.0 / fs) - t0) + n as real * (rate / fs)
  {
    var d := 1.0 / fs;
    assert rate / fs == rate * d;
    assert (a + n) as real * d == a as real * d + n as real * d;
    assert rate * (n as real * d) == n as real * (rate * d);
  }

  /** With constant rates the phases `n` samples later are the phases now plus `n` steps. */
  lemma Linear(sv: Signal, length: nat, rateNom: real, a: nat, n: nat, fs: real)
    requires length > 0 && fs > 0.0 && SameRates(sv, a, a + n)
    ensures var k, l := Kinematics(sv, length, rateNom, a, fs), Kinematics(sv, length, rateNom, a + n, fs);
      && l.f == k.f && l.rate == k.rate
      && l.ph == k.ph + n as real * (k.f / fs)
      && l.cp == k.cp + n as real * (k.rate / fs)
  {
    hide Segment, Effective;
    if sv.knots != [] {
      var k := sv.knots[Segment(sv, a)];
      var t0 := (Segment(sv, a) * sv.knotSamples) as real / fs;
      Times(a, n, fs, k.carrHz, t0);
      Times(a, n, fs, k.codeRate, t0);
    } else {
      Times(a, n, fs, sv.carrierHz, 0.0);
      Times(a, n, fs, rateNom + sv.codeDoppler, 0.0);
    }
  }

  // ---- oscillator ramp ----

  datatype Ramp = Ramp(ratePerS: real, accelPerS2: real, offsetHz: real) {
    predicate Active() {
      ratePerS != 0.0 || accelPerS2 != 0.0 || offsetHz != 0.0
    }

    function Eps(t: real): real {
      ratePerS * t + 0.5 * accelPerS2 * t * t
    }

    /** Integral of `Eps` from 0. */
    function EpsInt(t: real): real {
      0.5 * ratePerS * t * t + accelPerS2 * t * t * t / 6.0
    }

    /** Correction of one block that starts at `t` and lasts `d`: rates from the middle of the block, phases
        from the exact integral. */
    function Apply(k: Kin, centreHz: real, rateNom: real, t: real, d: real): Kin {
      var mid := Eps(t + 0.5 * d);
      var fRf := centreHz + k.f;
      Kin(k.f - mid * fRf + offsetHz,
          k.ph - fRf * EpsInt(t) + offsetHz * t,
          k.rate - mid * rateNom,
          k.cp - rateNom * EpsInt(t))
    }

    /** The integral over a block is the midpoint rate over the block and one cubic term. */
    lemma Midpoint(t: real, d: real)
      ensures EpsInt(t + d) - EpsInt(t) == Eps(t + 0.5 * d) * d + accelPerS2 * d * d * d / 24.0
    {
      var r, a := ratePerS, accelPerS2;
      assert (t + d) * (t + d) == t * t + 2.0 * (t * d) + d * d;
      assert (t + d) * (t + d) * (t + d) == t * t * t + 3.0 * (t * t * d) + 3.0 * (t * d * d) + d * d * d;
      Spread(r, t * t, t * d, d * d);
      CubicSpread(a, t * t * t, t * t * d, t * d * d, d * d * d);
      assert EpsInt(t + d) == 0.5 * (r * ((t + d) * (t + d))) + a * ((t + d) * (t + d) * (t + d)) / 6.0;
      assert EpsInt(t) == 0.5 * (r * (t * t)) + a * (t * t * t) / 6.0;
      var m := t + 0.5 * d;
      assert m * d == t * d + 0.5 * (d * d);
      assert m * m * d == t * t * d + t * d * d + 0.25 * (d * d * d);
      assert Eps(m) * d == r * (m * d) + 0.5 * (a * (m * m * d));
      assert r * (m * d) == r * (t * d) + 0.5 * (r * (d * d));
      assert a * (m * m * d) == a * (t * t * d) + a * (t * d * d) + 0.25 * (a * (d * d * d));
    }
  }

  lemma Spread(r: real, x: real, y: real, z: real)
    ensures r * (x + 2.0 * y + z) == r * x + 2.0 * (r * y) + r * z
  {
  }

  lemma CubicSpread(a: real, x: real, y: real, z: real, w: real)
    ensures a * (x + 3.0 * y + 3.0 * z + w) == a * x + 3.0 * (a * y) + 3.0 * (a * z) + a * w
  {
  }

  /** Difference between the ramp's integral over `d` seconds and its midpoint rate over them. */
  function Cubic(r: Ramp, d: real): real {
    r.accelPerS2 * d * d * d / 24.0
  }

  /** At a block boundary with constant rates the corrected phases step by the cubic term and nothing else,
      whatever came before. */
  lemma RampBoundary(r: Ramp, k: Kin, l: Kin, centreHz: real, rateNom: real, t: real, d: real)
    requires l.f == k.f && l.rate == k.rate && l.ph == k.ph + k.f * d && l.cp == k.cp + k.rate * d
    ensures var a, b := r.Apply(k, centreHz, rateNom, t, d), r.Apply(l, centreHz, rateNom, t + d, d);
      && b.ph == a.ph + a.f * d - (centreHz + k.f) * Cubic(r, d)
      && b.cp == a.cp + a.rate * d - rateNom * Cubic(r, d)
  {
    r.Midpoint(t, d);
    var mid, e0, e1, c := r.Eps(t + 0.5 * d), r.EpsInt(t), r.EpsInt(t + d), Cubic(r, d);
    Corrected(centreHz + k.f, mid, e0, e1, c, d);
    Corrected(rateNom, mid, e0, e1, c, d);
    assert (k.f - mid * (centreHz + k.f) + r.offsetHz) * d
        == k.f * d - mid * (centreHz + k.f) * d + r.offsetHz * d;
    assert (k.rate - mid * rateNom) * d == k.rate * d - mid * rateNom * d;
    assert r.offsetHz * (t + d) == r.offsetHz * t + r.offsetHz * d;
  }

  lemma StepTimes(n: nat, f: real, fs: real)
    requires fs > 0.0
    ensures n as real * (f / fs) == f * (n as real / fs)
  {
    var d := 1.0 / fs;
    assert f / fs == f * d && n as real / fs == n as real * d;
  }

  lemma Corrected(x: real, mid: real, e0: real, e1: real, c: real, d: real)
    requires e1 - e0 == mid * d + c
    ensures x * e1 == x * e0 + mid * x * d + x * c
  {
    assert x * (e0 + mid * d + c) == x * e0 + x * (mid * d) + x * c;
    assert x * (mid * d) == mid * x * d;
  }

  // ---- fading ----

  type Magnitude = x: real | x >= 0.0

  /** A complex channel gain: magnitude, and angle in cycles. */
  datatype Gain = Gain(amp: Magnitude, cycles: real)

  function StartAngle(h0: Gain): real {
    if h0.amp == 0.0 then 0.0 else h0.cycles
  }

  function EndAngle(h0: Gain, h1: Gain): real {
    if h1.amp == 0.0 then StartAngle(h0) else h1.cycles
  }

  /** The phase step from `a0` to `a1`, at most half a cycle. */
  function Unwrapped(a0: real, a1: real): real {
    Mod(a1 - a0 + 0.5, 1.0) - 0.5
  }

  /** A block of `d` seconds starts at the angle of its first edge and turns to that of its last. */
  function Faded(k: Kin, h0: Gain, h1: Gain, d: real): Kin
    requires d > 0.0
  {
    var a0, a1 := StartAngle(h0), EndAngle(h0, h1);
    k.(f := k.f + Unwrapped(a0, a1) / d, ph := k.ph + a0)
  }

  /** The gain process on the block edges, fetched in chunks and kept until an edge outside is asked for. */
  class Fade {
    const gain: int -> Gain
    var k0: int
    var h: seq<Gain>

    ghost predicate Valid()
      reads this
    {
      forall i :: 0 <= i < |h| ==> h[i] == gain(k0 + i)
    }

    constructor (gain: int -> Gain)
      ensures Valid() && this.gain == gain
    {
      this.gain := gain;
      k0, h := 0, [];
    }

    /** The gains at both edges of block `k`, whichever blocks were asked for before. */
    method Edges(k: int) returns (h0: Gain, h1: Gain)
      requires Valid()
      modifies this
      ensures Valid() && h0 == gain(k) && h1 == gain(k + 1)
    {
      if h == [] || !(k0 <= k < k0 + |h| - 1) {
        h := seq(257, i => gain(k + i));
        k0 := k;
      }
      h0, h1 := h[k - k0], h[k - k0 + 1];
    }
  }

  // ---- a channel in a block ----

  /** Sampling, blocks and labels of a run, the oscillator ramp, and the amplitude scale. */
  datatype Plan = Plan(fs: real, blockSamples: nat, offset: nat, first: nat, centreHz: real, ramp: Option<Ramp>,
                       scale: real) {
    predicate Valid() {
      fs > 0.0 && blockSamples > 0 && scale > 0.0
    }

    function Duration(): (d: real)
      requires Valid()
      ensures d > 0.0
    {
      blockSamples as real / fs
    }

    /** Time of block `j` since block 0 of the session. */
    function Start(j: nat): real
      requires Valid()
    {
      ((first + j) * blockSamples) as real / fs
    }

    function Sample(j: nat): nat {
      j * blockSamples + offset
    }
  }

  /** What does not change from block to block: channel index, ROM number, signal kind, sub-carrier, gain. */
  datatype Static = Static(ch: nat, prn: int, kind: int, sv: Signal, code: Code, rateNom: real, boc: bool, cboc: int,
                           gain: real)

  function Base(p: Plan, st: Static, j: nat): Kin
    requires p.Valid() && st.code.Valid()
  {
    Kinematics(st.sv, st.code.length, st.rateNom, p.Sample(j), p.fs)
  }

  function Corrections(p: Plan, st: Static, j: nat): Kin
    requires p.Valid() && st.code.Valid()
  {
    var k := Base(p, st, j);
    if p.ramp.Some? && p.ramp.value.Active() then
      p.ramp.value.Apply(k, p.centreHz, st.rateNom, p.Start(j), p.Duration())
    else k
  }

  function BlockKin(p: Plan, st: Static, gain: Option<int -> Gain>, j: nat): Kin
    requires p.Valid() && st.code.Valid()
  {
    var k := Corrections(p, st, j);
    if gain.Some? then Faded(k, gain.value(p.first + j), gain.value(p.first + j + 1), p.Duration()) else k
  }

  // ---- amplitude ----

  const CBOC_A: real := 0.95346258924559231
  const CBOC_B: real := 0.30151134457776363
  const PEAK: int := TWO17 - 1

  /** What a gain is multiplied by, in 1/64 of an output unit. */
  function Unit(scale: real): real {
    scale * 64.0
  }

  function Level(g: real, scale: real): real {
    g * Unit(scale)
  }

  function Largest(cboc: int): real {
    if cboc != 0 then CBOC_A + CBOC_B else 1.0
  }

  /** A gain held so low that its largest coefficient fits. */
  function Saturated(g: real, scale: real, cboc: int): real
    requires scale > 0.0
  {
    var top := PEAK as real / (Unit(scale) * Largest(cboc));
    if top < g then top else g
  }

  function FitsCoef(v: int): bool {
    -PEAK - 1 <= v <= PEAK
  }

  /** The three coefficients of an amplitude in 1/64 output units, or nothing when one does not fit its 18 bits. */
  function Parts(h: real, cboc: int): (c: Option<(int, int, int)>)
    ensures c.Some? ==> FitsCoef(c.value.0) && FitsCoef(c.value.1) && FitsCoef(c.value.2)
  {
    var c := if cboc != 0 then (Rnd(h), Rnd(h * (CBOC_A + CBOC_B)), Rnd(h * (CBOC_A - CBOC_B)))
             else (Rnd(h), Rnd(h), Rnd(h));
    if FitsCoef(c.0) && FitsCoef(c.1) && FitsCoef(c.2) then Some(c) else None
  }

  function Coefs(g: real, scale: real, cboc: int, clamp: bool): (c: Option<(int, int, int)>)
    requires scale > 0.0
    ensures c.Some? ==> FitsCoef(c.value.0) && FitsCoef(c.value.1) && FitsCoef(c.value.2)
  {
    Parts(Level(if clamp then Saturated(g, scale, cboc) else g, scale), cboc)
  }

  /** A saturated gain never stops the run, however high the fading peak. */
  lemma SaturatedFits(g: real, scale: real, cboc: int)
    requires scale > 0.0 && g >= 0.0
    ensures Coefs(g, scale, cboc, true).Some?
  {
    hide Parts;
    HeldBelow(g, Unit(scale), Largest(cboc));
    PartsFit(Level(Saturated(g, scale, cboc), scale), cboc);
  }

  lemma HeldBelow(g: real, u: real, m: real)
    requires g >= 0.0 && u > 0.0 && m > 0.0
    ensures u * m > 0.0
    ensures var top := PEAK as real / (u * m);
      var s := if top < g then top else g;
      s * u >= 0.0 && s * u * m <= PEAK as real
  {
    var w := u * m;
    var top := PEAK as real / w;
    var s := if top < g then top else g;
    assert top * w == PEAK as real;
    assert top > 0.0 by {
      FactorSign(top, w);
    }
    NonNegative(top - s, w);
    assert (top - s) * w == top * w - s * w;
    assert s * w == s * u * m;
    NonNegative(s, u);
  }

  lemma PartsFit(h: real, cboc: int)
    requires h >= 0.0 && h * Largest(cboc) <= PEAK as real
    ensures Parts(h, cboc).Some?
  {
  }

  // ---- one record ----

  /** Amplitude of channel `st` in block `j`: fixed, or the mean of the gains at both edges. */
  function Amplitude(p: Plan, st: Static, gain: Option<int -> Gain>, j: nat): Option<(int, int, int)>
    requires p.Valid()
  {
    if gain.Some? then Mean(p, st, gain.value(p.first + j), gain.value(p.first + j + 1))
    else Coefs(st.gain, p.scale, st.cboc, false)
  }

  function Mean(p: Plan, st: Static, h0: Gain, h1: Gain): Option<(int, int, int)>
    requires p.Valid()
  {
    Coefs(MeanGain(st.gain, h0, h1), p.scale, st.cboc, true)
  }

  function MeanGain(gain: real, h0: Gain, h1: Gain): real {
    gain * 0.5 * (h0.amp + h1.amp)
  }

  /** The record of channel `st` in a block with these kinematics and coefficients, or nothing where the
      generator raises; the sign index is always 0. */
  function RecordOf(p: Plan, st: Static, k: Kin, coef: Option<(int, int, int)>): Option<C.Channel>
    requires p.Valid() && st.code.Valid()
  {
    if coef.None? then None
    else match SignFor(st.code, k.cp + st.sv.txOffset, k.rate, p.fs, p.blockSamples)
      case None => None
      case Some((sp, bits)) =>
        var (inc, ph) := CarrWords(k.f, k.ph, p.fs);
        Some(C.Channel(st.ch, st.prn, st.kind, st.code.length, true, inc, ph, CodeInc(k.rate, p.fs),
                       CodeWord(k.cp, st.code.length), sp, 0, bits, Num(st.boc), st.cboc,
                       coef.value.0, coef.value.1, coef.value.2))
  }

  function Record(p: Plan, st: Static, gain: Option<int -> Gain>, j: nat): Option<C.Channel>
    requires p.Valid() && st.code.Valid()
  {
    RecordOf(p, st, BlockKin(p, st, gain, j), Amplitude(p, st, gain, j))
  }

  // ---- block boundaries ----

  /** What the ramp adds to the carrier phase at the end of a block, in cycles. */
  function RampStep(p: Plan, st: Static, j: nat): real
    requires p.Valid() && st.code.Valid()
  {
    if p.ramp.Some? then -((p.centreHz + Base(p, st, j).f) * Cubic(p.ramp.value, p.Duration())) else 0.0
  }

  /** What fading adds: nothing, unless the gain vanishes where the blocks meet. */
  function FadeStep(p: Plan, gain: Option<int -> Gain>, j: nat): real {
    if gain.Some? && gain.value(p.first + j + 1).amp == 0.0 then -StartAngle(gain.value(p.first + j)) else 0.0
  }

  function CodeStep(p: Plan, st: Static): real
    requires p.Valid()
  {
    if p.ramp.Some? then -(st.rateNom * Cubic(p.ramp.value, p.Duration())) else 0.0
  }

  /** Blocks `j` and `j + 1` of the channel run at the same trajectory rates. */
  predicate Steady(p: Plan, st: Static, j: nat) {
    SameRates(st.sv, p.Sample(j), p.Sample(j + 1))
  }

  lemma StartNext(p: Plan, j: nat)
    requires p.Valid()
    ensures p.Start(j + 1) == p.Start(j) + p.Duration()
  {
    var d := 1.0 / p.fs;
    assert ((p.first + j + 1) * p.blockSamples) as real
        == ((p.first + j) * p.blockSamples) as real + p.blockSamples as real;
  }

  lemma BaseBoundary(p: Plan, st: Static, j: nat)
    requires p.Valid() && st.code.Valid() && Steady(p, st, j)
    ensures var k, l := Base(p, st, j), Base(p, st, j + 1);
      && l.f == k.f && l.rate == k.rate
      && l.ph == k.ph + k.f * p.Duration() && l.cp == k.cp + k.rate * p.Duration()
  {
    hide Kinematics, SameRates;
    var n := p.blockSamples;
    assert p.Sample(j + 1) == p.Sample(j) + n;
    Linear(st.sv, st.code.length, st.rateNom, p.Sample(j), n, p.fs);
    StepTimes(n, Base(p, st, j).f, p.fs);
    StepTimes(n, Base(p, st, j).rate, p.fs);
  }

  lemma CorrectedBoundary(p: Plan, st: Static, j: nat)
    requires p.Valid() && st.code.Valid() && Steady(p, st, j)
    ensures var a, b := Corrections(p, st, j), Corrections(p, st, j + 1);
      && b.ph == a.ph + a.f * p.Duration() + RampStep(p, st, j)
      && b.cp == a.cp + a.rate * p.Duration() + CodeStep(p, st)
  {
    hide Base, Plan.Duration, Plan.Start, Ramp.Apply, Cubic;
    BaseBoundary(p, st, j);
    StartNext(p, j);
    if p.ramp.Some? {
      RampOrNone(p.ramp.value, Base(p, st, j), Base(p, st, j + 1), p.centreHz, st.rateNom, p.Start(j), p.Duration());
    }
  }

  /** A ramp that is switched off steps by nothing either. */
  lemma RampOrNone(r: Ramp, k: Kin, l: Kin, centreHz: real, rateNom: real, t: real, d: real)
    requires l.f == k.f && l.rate == k.rate && l.ph == k.ph + k.f * d && l.cp == k.cp + k.rate * d
    ensures var a := if r.Active() then r.Apply(k, centreHz, rateNom, t, d) else k;
      var b := if r.Active() then r.Apply(l, centreHz, rateNom, t + d, d) else l;
      && b.ph == a.ph + a.f * d + -((centreHz + k.f) * Cubic(r, d))
      && b.cp == a.cp + a.rate * d + -(rateNom * Cubic(r, d))
  {
    if r.Active() {
      RampBoundary(r, k, l, centreHz, rateNom, t, d);
    } else {
      assert Cubic(r, d) == 0.0;
    }
  }

  /** The turn over a block ends on the angle the next block starts with, whole cycles aside, unless the
      gain vanishes there. */
  lemma FadeTurn(h0: Gain, h1: Gain) returns (w: int)
    ensures StartAngle(h1)
         == StartAngle(h0) + Unwrapped(StartAngle(h0), EndAngle(h0, h1)) + w as real
            + (if h1.amp == 0.0 then -StartAngle(h0) else 0.0)
  {
    var x := EndAngle(h0, h1) - StartAngle(h0) + 0.5;
    w := Div(x, 1.0);
    assert Mod(x, 1.0) == x - w as real;
  }

  lemma TurnRate(f: real, u: real, d: real)
    requires d > 0.0
    ensures (f + u / d) * d == f * d + u
  {
  }

  lemma FadedBoundary(p: Plan, st: Static, gain: Option<int -> Gain>, j: nat) returns (w: int)
    requires p.Valid() && st.code.Valid() && Steady(p, st, j)
    ensures var a, b := BlockKin(p, st, gain, j), BlockKin(p, st, gain, j + 1);
      && b.ph == a.ph + a.f * p.Duration() + w as real + (RampStep(p, st, j) + FadeStep(p, gain, j))
      && b.cp == a.cp + a.rate * p.Duration() + CodeStep(p, st)
  {
    hide Kinematics, Corrections, RampStep, CodeStep, Unwrapped;
    CorrectedBoundary(p, st, j);
    w := 0;
    if gain.Some? {
      var h0, h1 := gain.value(p.first + j), gain.value(p.first + j + 1);
      w := FadeTurn(h0, h1);
      TurnRate(Corrections(p, st, j).f, Unwrapped(StartAngle(h0), EndAngle(h0, h1)), p.Duration());
    }
  }

  lemma KinBoundary(p: Plan, st: Static, gain: Option<int -> Gain>, j: nat) returns (w: int)
    requires p.Valid() && st.code.Valid() && Steady(p, st, j)
    ensures var a, b := BlockKin(p, st, gain, j), BlockKin(p, st, gain, j + 1);
      && b.ph == a.ph + p.blockSamples as real * (a.f / p.fs) + w as real + (RampStep(p, st, j) + FadeStep(p, gain, j))
      && b.cp == a.cp + p.blockSamples as real * (a.rate / p.fs) + CodeStep(p, st)
  {
    hide Kinematics, Corrections, RampStep, FadeStep, CodeStep, BlockKin;
    w := FadedBoundary(p, st, gain, j);
    var a := BlockKin(p, st, gain, j);
    StepTimes(p.blockSamples, a.f, p.fs);
    StepTimes(p.blockSamples, a.rate, p.fs);
  }

  lemma RecordWords(p: Plan, st: Static, k: Kin, coef: Option<(int, int, int)>)
    requires p.Valid() && st.code.Valid() && RecordOf(p, st, k, coef).Some?
    ensures var r := RecordOf(p, st, k, coef).value;
      && (r.carrInc, r.carrPhase0) == CarrWords(k.f, k.ph, p.fs)
      && r.codeInc == CodeInc(k.rate, p.fs) && r.codePhase0 == CodeWord(k.cp, st.code.length)
  {
    hide CarrWords, CodeWord, CodeInc, SignFor;
  }

  lemma WordsBoundary(p: Plan, st: Static, k: Kin, l: Kin, w: int, s: real, c: real,
                      x: Option<(int, int, int)>, y: Option<(int, int, int)>)
    requires p.Valid() && st.code.Valid()
    requires l.ph == k.ph + p.blockSamples as real * (k.f / p.fs) + w as real + s
    requires l.cp == k.cp + p.blockSamples as real * (k.rate / p.fs) + c
    requires RecordOf(p, st, k, x).Some? && RecordOf(p, st, l, y).Some?
    ensures Meet(p, st, RecordOf(p, st, k, x).value, RecordOf(p, st, l, y).value, s, c)
  {
    hide CarrWords, CodeWord, CodeInc, RecordOf, Near, Slack;
    RecordWords(p, st, k, x);
    RecordWords(p, st, l, y);
    CarrierBoundary(k.f, k.ph, p.fs, p.blockSamples, w, s, l.f, l.ph);
    CodeBoundary(k.rate, k.cp, st.code.length, p.fs, p.blockSamples, c, l.cp);
  }

  /** The words `a` ends on and those `b` starts with differ by at most half a unit per sample and one unit,
      around the circle, beyond phase steps of `s` cycles and `c` chips. */
  predicate Meet(p: Plan, st: Static, a: C.Channel, b: C.Channel, s: real, c: real)
    requires st.code.Valid()
  {
    var n := p.blockSamples;
    && Near(a.carrPhase0, a.carrInc, n, b.carrPhase0, TWO32, Slack(n, s, TWO32))
    && Near(a.codePhase0, a.codeInc, n, b.codePhase0, st.code.length * FRAC, Slack(n, c, FRAC))
  }

  /** For every two consecutive blocks of a steadily moving channel, the word each block starts with lies
      within half a unit per sample and one unit of the word the block before ends on; only the cubic term
      of the ramp, and a gain that vanishes at the boundary, add to that. */
  lemma BlockBoundary(p: Plan, st: Static, gain: Option<int -> Gain>, j: nat)
    requires p.Valid() && st.code.Valid() && Steady(p, st, j)
    requires Record(p, st, gain, j).Some? && Record(p, st, gain, j + 1).Some?
    ensures Meet(p, st, Record(p, st, gain, j).value, Record(p, st, gain, j + 1).value,
                 RampStep(p, st, j) + FadeStep(p, gain, j), CodeStep(p, st))
  {
    hide BlockKin, RecordOf, RampStep, FadeStep, CodeStep, Meet, Amplitude;
    var w := KinBoundary(p, st, gain, j);
    WordsBoundary(p, st, BlockKin(p, st, gain, j), BlockKin(p, st, gain, j + 1), w,
                  RampStep(p, st, j) + FadeStep(p, gain, j), CodeStep(p, st),
                  Amplitude(p, st, gain, j), Amplitude(p, st, gain, j + 1));
  }

  // ---- what the command format makes of a record ----

  /** Fixed fields the format can carry. */
  predicate Carried(st: Static) {
    0 <= st.ch < MAX_CH && 0 <= st.prn < 64 && 0 <= st.kind <= 3 && st.code.length == C.CodeLen(st.kind)
    && -1 <= st.cboc <= 1
  }

  /** Phases, carrier increment and sign bits of a generated record are always in range. */
  lemma RecordInRange(p: Plan, st: Static, k: Kin, coef: Option<(int, int, int)>)
    requires p.Valid() && st.code.Valid() && RecordOf(p, st, k, coef).Some?
    ensures var w := RecordOf(p, st, k, coef).value;
      && -TWO31 <= w.carrInc < TWO31 && 0 <= w.carrPhase0 < TWO32
      && 0 <= w.codePhase0 < st.code.length * FRAC && 0 <= w.signPhase0 < st.code.length * FRAC
      && 0 <= w.signBits < Pow2(SIGN_BITS)
  {
    hide CarrWords, CodeWord, SignState, Code.Window;
    var i := CodeMeaning(k.cp, st.code.length);
    SignStateMeaning(k.cp + st.sv.txOffset, st.code.length);
  }

  /** What the packer says to a record with the fixed fields of `st`. */
  lemma RecordFault(p: Plan, st: Static, k: Kin, coef: Option<(int, int, int)>)
    requires p.Valid() && st.code.Valid() && Carried(st) && RecordOf(p, st, k, coef).Some?
    requires FitsCoef(coef.value.0) && FitsCoef(coef.value.1) && FitsCoef(coef.value.2)
    ensures var r := RecordOf(p, st, k, coef).value;
      C.FirstFault(r) == if 0 <= r.codeInc < TWO43 then None else Some(C.CodeInc)
  {
    RecordInRange(p, st, k, coef);
    C.FieldPowers();
    hide CarrWords, CodeWord, SignFor, CodeInc, Pow2;
  }

  lemma AmplitudeFits(p: Plan, st: Static, gain: Option<int -> Gain>, j: nat)
    requires p.Valid() && Amplitude(p, st, gain, j).Some?
    ensures var c := Amplitude(p, st, gain, j).value;
      FitsCoef(c.0) && FitsCoef(c.1) && FitsCoef(c.2)
  {
    hide Coefs;
  }

  /** The packer takes a generated record exactly when its code increment fits 43 bits and is not negative;
      nothing else in it is ever refused. */
  lemma RecordPacked(p: Plan, st: Static, gain: Option<int -> Gain>, j: nat)
    requires p.Valid() && st.code.Valid() && Carried(st) && Record(p, st, gain, j).Some?
    ensures var r := Record(p, st, gain, j).value;
      && r.codeInc == CodeInc(BlockKin(p, st, gain, j).rate, p.fs)
      && C.FirstFault(r) == if 0 <= r.codeInc < TWO43 then None else Some(C.CodeInc)
  {
    hide BlockKin, Amplitude, CarrWords, CodeWord, SignFor, CodeInc;
    AmplitudeFits(p, st, gain, j);
    RecordFault(p, st, BlockKin(p, st, gain, j), Amplitude(p, st, gain, j));
  }

  lemma Increment(sp: int, n: int, inc: int, turn: int)
    requires n > 0 && turn > 0 && sp >= 0 && (sp + n * inc) / turn + 1 <= 32
    ensures n * inc < 32 * turn
  {
    Above((sp + n * inc) / turn, turn, sp + n * inc);
    MulMonotone((sp + n * inc) / turn + 1, 32, turn);
  }

  lemma MulMonotone(a: int, b: int, m: int)
    requires m >= 0 && a <= b
    ensures a * m <= b * m
  {
    assert (b - a) * m >= 0;
  }

  /** With the engine's block of 65536 samples the packer refuses nothing but a code that runs backward: 32
      periods are too few for an increment of 2^43. */
  lemma LongBlockPacked(p: Plan, st: Static, gain: Option<int -> Gain>, j: nat)
    requires p.Valid() && st.code.Valid() && Carried(st) && p.blockSamples == 65536
    requires Record(p, st, gain, j).Some?
    ensures var r := Record(p, st, gain, j).value;
      C.FirstFault(r) == if 0 <= r.codeInc then None else Some(C.CodeInc)
  {
    hide Record, BlockKin, Amplitude, RecordOf, C.FirstFault;
    RecordPacked(p, st, gain, j);
    RecordIs(p, st, gain, j);
    IncrementBound(p, st, BlockKin(p, st, gain, j), Amplitude(p, st, gain, j));
  }

  lemma RecordIs(p: Plan, st: Static, gain: Option<int -> Gain>, j: nat)
    requires p.Valid() && st.code.Valid()
    ensures Record(p, st, gain, j) == RecordOf(p, st, BlockKin(p, st, gain, j), Amplitude(p, st, gain, j))
  {
  }

  lemma IncrementBound(p: Plan, st: Static, k: Kin, coef: Option<(int, int, int)>)
    requires p.Valid() && st.code.Valid() && p.blockSamples == 65536 && st.code.length <= 4092
    requires RecordOf(p, st, k, coef).Some?
    ensures RecordOf(p, st, k, coef).value.codeInc < TWO43
  {
    hide CarrWords, CodeWord, CodeInc, SignState, Code.Window;
    RecordInRange(p, st, k, coef);
    var r := RecordOf(p, st, k, coef).value;
    Increment(r.signPhase0, 65535, r.codeInc, st.code.Turn());
  }

  /** One channel whose code runs at `rate` chips per sample, in blocks of one sample. */
  const ONE_SAMPLE: Plan := Plan(1.0, 1, 0, 0, 0.0, None, 1.0)

  function AtRate(rate: real): Static {
    Static(0, 1, 0, Signal([], 0, 0.0, 0.0, rate - 1.0, 0.0, 0.0), Code(1023, [], [], 1), 1.0, false, 0, 0.0)
  }

  /** A block of one sample spans one period at any rate. */
  lemma OneSampleTaken(p: Plan, st: Static, k: Kin, coef: Option<(int, int, int)>)
    requires p.Valid() && st.code.Valid() && p.blockSamples == 1 && coef.Some?
    ensures RecordOf(p, st, k, coef).Some?
  {
    hide CarrWords, CodeWord, CodeInc, Code.Window, SignState;
    SignStateMeaning(k.cp + st.sv.txOffset, st.code.length);
    var sp := SignState(k.cp + st.sv.txOffset, st.code.length).1;
    DivModUnique(sp, st.code.Turn(), 0, sp);
  }

  lemma RateGiven(rate: real)
    ensures BlockKin(ONE_SAMPLE, AtRate(rate), None, 0).rate == rate
  {
    hide Effective;
  }

  lemma IncrementOf(n: int)
    ensures CodeInc(n as real, 1.0) == n * FRAC
  {
    assert n as real / 1.0 * FRAC as real == (n * FRAC) as real;
  }

  lemma NoAmplitude(rate: real)
    ensures Amplitude(ONE_SAMPLE, AtRate(rate), None, 0) == Some((0, 0, 0))
  {
  }

  /** Every rate is generated in short blocks, whether or not a record can carry it. */
  lemma EveryRate(rate: real)
    ensures Carried(AtRate(rate)) && Record(ONE_SAMPLE, AtRate(rate), None, 0).Some?
    ensures C.FirstFault(Record(ONE_SAMPLE, AtRate(rate), None, 0).value)
         == if 0 <= CodeInc(rate, 1.0) < TWO43 then None else Some(C.CodeInc)
  {
    hide BlockKin, Amplitude, RecordOf, CodeInc, C.FirstFault;
    NoAmplitude(rate);
    RateGiven(rate);
    OneSampleTaken(ONE_SAMPLE, AtRate(rate), BlockKin(ONE_SAMPLE, AtRate(rate), None, 0), Some((0, 0, 0)));
    RecordPacked(ONE_SAMPLE, AtRate(rate), None, 0);
  }

  /** Codes of whole chips per sample that run backward, or eight chips or more, are generated and then refused. */
  lemma RefusedRate(n: int)
    requires n < 0 || 8 <= n
    ensures Record(ONE_SAMPLE, AtRate(n as real), None, 0).Some?
    ensures C.FirstFault(Record(ONE_SAMPLE, AtRate(n as real), None, 0).value) == Some(C.CodeInc)
  {
    hide Record, C.FirstFault;
    EveryRate(n as real);
    IncrementOf(n);
  }

  // ---- what can stop a run ----

  /** What is tested before the first block: the number of channels, every code length, and that every gain
      without fading fits its coefficients. */
  predicate Starts(p: Plan, sts: seq<Static>)
    requires p.scale > 0.0
  {
    && |sts| <= MAX_CH
    && (forall s :: s in sts ==> s.code.length == C.CodeLen(s.kind))
    && (forall s :: s in sts ==> Coefs(s.gain, p.scale, s.cboc, false).Some?)
  }

  lemma MeanFits(p: Plan, st: Static, h0: Gain, h1: Gain)
    requires p.Valid() && st.gain >= 0.0
    ensures Mean(p, st, h0, h1).Some?
  {
    hide Coefs;
    NonNegative(st.gain * 0.5, h0.amp + h1.amp);
    SaturatedFits(MeanGain(st.gain, h0, h1), p.scale, st.cboc);
  }

  /** Once started only the sign window stops a run: never an amplitude, however high a fading peak. */
  lemma OnlyWindowStops(p: Plan, sts: seq<Static>, st: Static, gain: Option<int -> Gain>, j: nat)
    requires p.Valid() && Starts(p, sts) && st in sts && st.code.Valid() && (gain.Some? ==> st.gain >= 0.0)
    ensures var k := BlockKin(p, st, gain, j);
      Record(p, st, gain, j).None? <==> SignFor(st.code, k.cp + st.sv.txOffset, k.rate, p.fs, p.blockSamples).None?
  {
    hide BlockKin, Coefs, Mean, SignFor, CarrWords, CodeWord, CodeInc;
    if gain.Some? {
      MeanFits(p, st, gain.value(p.first + j), gain.value(p.first + j + 1));
    }
    assert Amplitude(p, st, gain, j).Some?;
  }

  // ---- the loop over blocks ----

  /** The records of the first `i` channels in block `j`: a dropped channel has none, one that raises ends it. */
  function Records(p: Plan, sts: seq<Static>, gains: seq<Option<int -> Gain>>, active: (nat, nat) -> bool,
                   j: nat, i: nat): Option<seq<C.Channel>>
    requires p.Valid() && |gains| == |sts| && i <= |sts| && (forall s :: s in sts ==> s.code.Valid())
  {
    if i == 0 then Some([])
    else match Records(p, sts, gains, active, j, i - 1)
      case None => None
      case Some(front) =>
        if !active(sts[i - 1].ch, j) then Some(front)
        else match Record(p, sts[i - 1], gains[i - 1], j)
          case None => None
          case Some(w) => Some(front + [w])
  }

  ghost function Objects(fades: seq<Option<Fade>>): set<Fade> {
    set i | 0 <= i < |fades| && fades[i].Some? :: fades[i].value
  }

  function Gains(fades: seq<Option<Fade>>): (gs: seq<Option<int -> Gain>>)
    ensures |gs| == |fades|
  {
    seq(|fades|, i requires 0 <= i < |fades| =>
      match fades[i] case None => None case Some(f) => Some(f.gain))
  }

  ghost predicate AllValid(fades: seq<Option<Fade>>)
    reads Objects(fades)
  {
    forall f :: f in Objects(fades) ==> f.Valid()
  }

  method MakeRecord(p: Plan, st: Static, fade: Option<Fade>, j: nat) returns (r: Option<C.Channel>)
    requires p.Valid() && st.code.Valid() && (fade.Some? ==> fade.value.Valid())
    modifies if fade.Some? then {fade.value} else {}
    ensures fade.Some? ==> fade.value.Valid()
    ensures r == Record(p, st, if fade.Some? then Some(fade.value.gain) else None, j)
  {
    hide RecordOf, Corrections, Faded;
    var k := Corrections(p, st, j);
    var coef := Coefs(st.gain, p.scale, st.cboc, false);
    if fade.Some? {
      var h0, h1 := fade.value.Edges(p.first + j);
      k := Faded(k, h0, h1, p.Duration());
      coef := Mean(p, st, h0, h1);
    }
    r := RecordOf(p, st, k, coef);
  }

  method MakeBlock(p: Plan, sts: seq<Static>, fades: seq<Option<Fade>>, active: (nat, nat) -> bool, j: nat)
    returns (r: Option<seq<C.Channel>>)
    requires p.Valid() && |fades| == |sts| && (forall s :: s in sts ==> s.code.Valid()) && AllValid(fades)
    modifies Objects(fades)
    ensures AllValid(fades)
    ensures r == Records(p, sts, Gains(fades), active, j, |sts|)
  {
    hide Record;
    var recs: seq<C.Channel> := [];
    for i := 0 to |sts|
      invariant AllValid(fades)
      invariant Records(p, sts, Gains(fades), active, j, i) == Some(recs)
    {
      if active(sts[i].ch, j) {
        assert fades[i].Some? ==> fades[i].value in Objects(fades);
        var w := MakeRecord(p, sts[i], fades[i], j);
        if w.None? {
          NoneStays(p, sts, Gains(fades), active, j, i + 1);
          return None;
        }
        recs := recs + [w.value];
      }
    }
    r := Some(recs);
  }

  lemma {:induction false} NoneStays(p: Plan, sts: seq<Static>, gains: seq<Option<int -> Gain>>,
                                     active: (nat, nat) -> bool, j: nat, i: nat)
    requires p.Valid() && |gains| == |sts| && i <= |sts| && (forall s :: s in sts ==> s.code.Valid())
    requires Records(p, sts, gains, active, j, i).None?
    ensures Records(p, sts, gains, active, j, |sts|).None?
    decreases |sts| - i
  {
    if i < |sts| {
      NoneStays(p, sts, gains, active, j, i + 1);
    }
  }

  /** Block `j` ends within the plan. */
  predicate Whole(p: Plan, total: nat, j: nat) {
    p.Sample(j + 1) <= total
  }

  /** Blocks the plan holds from `offset` on, at most `limit` of them; a trailing partial block is not one. */
  function BlockCount(total: nat, p: Plan, limit: Option<int>): (n: int)
    requires p.Valid()
    ensures forall j: nat :: j < n ==> Whole(p, total, j)
    ensures limit.Some? ==> n <= limit.value
    ensures (limit.None? || n < limit.value) ==> n < 0 || !Whole(p, total, n)
  {
    var n := (total - p.offset) / p.blockSamples;
    AllWhole(total, p, n);
    if limit.Some? && limit.value < n then limit.value else n
  }

  lemma AllWhole(total: nat, p: Plan, n: int)
    requires p.Valid() && n == (total - p.offset) / p.blockSamples
    ensures forall j: nat :: j < n ==> Whole(p, total, j)
    ensures n < 0 || !Whole(p, total, n)
  {
    var b := p.blockSamples;
    forall j: nat | j < n
      ensures Whole(p, total, j)
    {
      Below(j + 1, n, b, total - p.offset);
    }
    if n >= 0 {
      Above(n, b, total - p.offset);
    }
  }

  lemma Below(j: int, n: int, b: int, x: int)
    requires b > 0 && j <= n == x / b
    ensures j * b <= x
  {
    assert (n - j) * b >= 0;
  }

  lemma Above(n: int, b: int, x: int)
    requires b > 0 && n == x / b
    ensures x < (n + 1) * b
  {
  }

  /** The generator: block after block, labelled from `first` on, each a function of its own index alone
      whatever the fading cache holds. A set of channels that cannot be sent is refused before the first
      block; after that it ends early only at the first block that raises. */
  method GenerateBlocks(p: Plan, sts: seq<Static>, fades: seq<Option<Fade>>, active: (nat, nat) -> bool,
                        total: nat, limit: Option<int>)
    returns (started: bool, out: seq<(nat, seq<C.Channel>)>)
    requires p.Valid() && |fades| == |sts| && (forall s :: s in sts ==> s.code.Valid()) && AllValid(fades)
    modifies Objects(fades)
    ensures AllValid(fades)
    ensures started == Starts(p, sts) && (!started ==> out == [])
    ensures forall j :: 0 <= j < |out| ==>
      out[j].0 == p.first + j && Records(p, sts, Gains(fades), active, j, |sts|) == Some(out[j].1)
    ensures started ==>
         |out| == BlockCount(total, p, limit) || (BlockCount(total, p, limit) < 0 && out == [])
         || (|out| < BlockCount(total, p, limit) && Records(p, sts, Gains(fades), active, |out|, |sts|).None?)
  {
    out := [];
    started := Starts(p, sts);
    if !started {
      return;
    }
    var n := BlockCount(total, p, limit);
    var j := 0;
    while j < n
      invariant AllValid(fades)
      invariant j == |out| && (j <= n || j == 0)
      invariant forall i :: 0 <= i < |out| ==>
        out[i].0 == p.first + i && Records(p, sts, Gains(fades), active, i, |sts|) == Some(out[i].1)
    {
      var r := MakeBlock(p, sts, fades, active, j);
      if r.None? {
        return;
      }
      out := out + [(p.first + j, r.value)];
      j := j + 1;
    }
  }
}
