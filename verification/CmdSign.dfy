/** The 32-bit sign window of a block: which polarity every code period of the block has, and which period
    every sample lies in. */
module CmdSign {
  import opened Bits
  import opened CmdWords
  import opened Widths
  import opened Reals
  import F = Fields

  /** Secondary code and navigation symbols of a channel (empty: none), and the code periods per symbol. */
  datatype Code = Code(length: nat, sec: seq<int>, nav: seq<int>, perSymbol: nat) {
    predicate Valid() {
      length > 0 && perSymbol > 0
    }

    /** Polarity of primary-code period `p`: the secondary chip times the sign of the navigation symbol. */
    function Sign(p: int): int
      requires Valid()
    {
      (if sec == [] then 1 else sec[p % |sec|])
      * (if nav == [] || nav[(p / perSymbol) % |nav|] >= 0 then 1 else -1)
    }

    /** Periods `p0` to `p0 + n` as bits, the first one lowest; 1 is positive. */
    function Window(p0: int, n: nat): (w: nat)
      requires Valid()
      ensures w < Pow2(n)
    {
      if n == 0 then 0 else Window(p0, n - 1) + (if Sign(p0 + n - 1) > 0 then Pow2(n - 1) else 0)
    }

    /** Code units in one period. */
    function Turn(): (t: int)
      requires Valid()
      ensures t > 0
    {
      length * FRAC
    }
  }

  predicate Bit(w: nat, i: nat) {
    F.Field(w, i, 1) == 1
  }

  /** Bit `i` of the sum is bit `i` of the low part, or the new bit. */
  lemma {:induction false} BitOfSum(low: nat, n: nat, b: bool, i: nat)
    requires low < Pow2(n) && i <= n
    ensures var w := low + (if b then Pow2(n) else 0);
      Bit(w, i) == if i == n then b else Bit(low, i)
    decreases n
  {
    var w := low + (if b then Pow2(n) else 0);
    if n == 0 {
    } else if i == 0 {
      assert Pow2(n) == 2 * Pow2(n - 1);
    } else {
      assert w / 2 == low / 2 + (if b then Pow2(n - 1) else 0);
      BitOfSum(low / 2, n - 1, b, i - 1);
    }
  }

  lemma {:induction false} WindowBit(c: Code, p0: int, n: nat, i: nat)
    requires c.Valid() && i < n
    ensures Bit(c.Window(p0, n), i) == (c.Sign(p0 + i) > 0)
    decreases n
  {
    BitOfSum(c.Window(p0, n - 1), n - 1, c.Sign(p0 + n - 1) > 0, i);
    if i < n - 1 {
      WindowBit(c, p0, n - 1, i);
    }
  }

  /** The generator's loop: one bit or-ed in for every positive period. */
  method SignBits(c: Code, p0: int) returns (bits: nat)
    requires c.Valid()
    ensures bits == c.Window(p0, SIGN_BITS)
  {
    bits := 0;
    for i := 0 to SIGN_BITS
      invariant bits == c.Window(p0, i)
    {
      if c.Sign(p0 + i) > 0 {
        F.OrDisjoint(bits, 1, i);
        bits := F.Or(bits, Pow2(i));
      }
    }
  }

  // ---- where the first sample lies ----

  /** Period and 40-bit code phase of a sample at `u0` chips. */
  function SignState(u0: real, length: nat): (int, int)
    requires length > 0
  {
    var l := length as real;
    var p := (u0 / l).Floor;
    var r := u0 - p as real * l;
    var (p1, r1) := if r < 0.0 then (p - 1, r + l) else if r >= l then (p + 1, r - l) else (p, r);
    var fx := Rnd(r1 * FRAC as real);
    if fx >= length * FRAC then (p1 + 1, fx - length * FRAC) else (p1, fx)
  }

  /** Period and phase together stand for the real phase to half a unit, also where rounding carries the
      phase into the next period. */
  lemma SignStateMeaning(u0: real, length: nat)
    requires length > 0
    ensures var (p, fx) := SignState(u0, length);
      && 0 <= fx < length * FRAC
      && -0.5 <= (p * (length * FRAC) + fx) as real - u0 * FRAC as real <= 0.5
  {
    ModRange(u0, length as real);
    var p := Div(u0, length as real);
    var r := u0 - p as real * length as real;
    assert r == Mod(u0, length as real);
    var fx := Rnd(r * FRAC as real);
    assert r * FRAC as real == u0 * FRAC as real - (p * (length * FRAC)) as real;
    assert 0.0 <= r * FRAC as real < (length * FRAC) as real;
    assert (p + 1) * (length * FRAC) == p * (length * FRAC) + length * FRAC;
  }

  // ---- one block ----

  /** Sign phase and sign bits of a block of `n` samples, or nothing when it spans more periods than bits. */
  function SignFor(c: Code, u0: real, rate: real, fs: real, n: nat): Option<(int, nat)>
    requires c.Valid() && fs > 0.0
  {
    var (p0, sp) := SignState(u0, c.length);
    var end := sp + (n - 1) * CodeInc(rate, fs);
    if end / c.Turn() + 1 > SIGN_BITS then None else Some((sp, c.Window(p0, SIGN_BITS)))
  }

  /** The bit the engine uses at sample `k` of a block. */
  function BitIndex(c: Code, sp: int, inc: int, k: nat): int
    requires c.Valid()
  {
    (sp + k * inc) / c.Turn()
  }

  lemma DivMonotone(a: int, b: int, m: int)
    requires m > 0 && a <= b
    ensures a / m <= b / m
  {
    var d := a / m - b / m;
    assert m * d == (b % m - a % m) + (a - b);
    SmallMultiple(m, d);
  }

  lemma StepsBetween(inc: int, k: nat, n: nat)
    requires k <= n
    ensures if inc >= 0 then 0 <= k * inc <= n * inc else n * inc <= k * inc <= 0
  {
    assert n * inc == k * inc + (n - k) * inc;
  }

  /** The index moves one way through the block, from 0 at its first sample. */
  lemma IndexBetween(c: Code, sp: int, inc: int, k: nat, n: nat)
    requires c.Valid() && k <= n && 0 <= sp < c.Turn()
    ensures if inc >= 0 then 0 <= BitIndex(c, sp, inc, k) <= BitIndex(c, sp, inc, n)
            else BitIndex(c, sp, inc, n) <= BitIndex(c, sp, inc, k) <= 0
  {
    StepsBetween(inc, k, n);
    OneWay(sp, k * inc, n * inc, c.Turn());
  }

  lemma OneWay(sp: int, x: int, y: int, t: int)
    requires 0 <= sp < t && (0 <= x <= y || y <= x <= 0)
    ensures if 0 <= x <= y then 0 <= (sp + x) / t <= (sp + y) / t else (sp + y) / t <= (sp + x) / t <= 0
  {
    DivModUnique(sp, t, 0, sp);
    if 0 <= x <= y {
      DivMonotone(sp + x, sp + y, t);
      DivMonotone(sp, sp + x, t);
    } else {
      DivMonotone(sp + y, sp + x, t);
      DivMonotone(sp + x, sp, t);
    }
  }

  lemma DivSign(a: int, m: int)
    requires m > 0
    ensures 0 <= a / m <==> 0 <= a
  {
    if a >= 0 {
      DivMonotone(0, a, m);
    }
  }

  /** The bit at the index that sample `k` leads to is the polarity of period `p0` plus that index. */
  predicate RightBit(c: Code, p0: int, sp: int, inc: int, bits: nat, k: nat)
    requires c.Valid()
  {
    var i := BitIndex(c, sp, inc, k);
    0 <= i ==> Bit(bits, i) == (c.Sign(p0 + i) > 0)
  }

  /** A block is taken exactly when no sample's index passes the window, every index that is not negative finds
      the polarity of the period the first sample's period and the index lead to, and no index is negative
      exactly when the last sample's sign phase is not. */
  lemma SignWindow(c: Code, u0: real, rate: real, fs: real, n: nat)
    requires c.Valid() && fs > 0.0 && n > 0
    ensures var (p0, sp) := SignState(u0, c.length);
      var inc := CodeInc(rate, fs);
      && (SignFor(c, u0, rate, fs, n).Some? <==> forall k :: 0 <= k < n ==> BitIndex(c, sp, inc, k) < SIGN_BITS)
      && ((forall k :: 0 <= k < n ==> 0 <= BitIndex(c, sp, inc, k)) <==> 0 <= sp + (n - 1) * inc)
      && (SignFor(c, u0, rate, fs, n).Some? ==>
          && SignFor(c, u0, rate, fs, n).value.0 == sp
          && forall k :: 0 <= k < n ==> RightBit(c, p0, sp, inc, SignFor(c, u0, rate, fs, n).value.1, k))
  {
    SignStateMeaning(u0, c.length);
    var (p0, sp) := SignState(u0, c.length);
    var inc := CodeInc(rate, fs);
    hide SignState, CodeInc, Code.Sign, Code.Window, Bit;
    assert BitIndex(c, sp, inc, n - 1) == (sp + (n - 1) * inc) / c.Turn();
    DivSign(sp + (n - 1) * inc, c.Turn());
    forall k | 0 <= k < n
      ensures if inc >= 0 then 0 <= BitIndex(c, sp, inc, k) <= BitIndex(c, sp, inc, n - 1)
              else BitIndex(c, sp, inc, n - 1) <= BitIndex(c, sp, inc, k) <= 0
    {
      IndexBetween(c, sp, inc, k, n - 1);
    }
    forall i | 0 <= i < SIGN_BITS
      ensures Bit(c.Window(p0, SIGN_BITS), i) == (c.Sign(p0 + i) > 0)
    {
      WindowBit(c, p0, SIGN_BITS, i);
    }
  }

  /** `k` rounded steps drift at most half a unit each. */
  lemma Drift(u0: real, rate: real, fs: real, k: nat, start: int)
    requires fs > 0.0 && -0.5 <= start as real - u0 * FRAC as real <= 0.5
    ensures -((k + 1) as real) / 2.0
         <= (start + k * CodeInc(rate, fs)) as real - (u0 + k as real * (rate / fs)) * FRAC as real
         <= (k + 1) as real / 2.0
  {
    var z := rate / fs * FRAC as real;
    RoundedSteps(z, k);
    assert k as real * (rate / fs) * FRAC as real == k as real * z;
  }

  lemma FloorOf(a: int, m: int, q: int)
    requires m > 0 && q * m <= a < (q + 1) * m
    ensures a / m == q
  {
    DivModUnique(a, m, q, a - q * m);
  }

  lemma PeriodIndex(c: Code, p0: int, sp: int, inc: int, k: nat, period: int)
    requires c.Valid() && period * c.Turn() <= p0 * c.Turn() + sp + k * inc < (period + 1) * c.Turn()
    ensures BitIndex(c, sp, inc, k) == period - p0
  {
    var t, x := c.Turn(), k * inc;
    MulSub(t, period, p0);
    MulSub(t, period + 1, p0);
    FloorOf(sp + x, t, period - p0);
  }

  /** Away from the period boundaries by the accumulated rounding, half a unit per sample, the bit used at
      sample `k` is the polarity of the period the true code phase lies in; a code that runs forward always
      finds one. */
  lemma SignAtSample(c: Code, u0: real, rate: real, fs: real, n: nat, k: nat, period: int)
    requires c.Valid() && fs > 0.0 && k < n
    requires SignFor(c, u0, rate, fs, n).Some?
    requires var u, slack := (u0 + k as real * (rate / fs)) * FRAC as real, (k + 1) as real / 2.0;
      (period * c.Turn()) as real + slack <= u < ((period + 1) * c.Turn()) as real - slack
    ensures var w := SignFor(c, u0, rate, fs, n).value;
      var i := BitIndex(c, w.0, CodeInc(rate, fs), k);
      i < SIGN_BITS && (CodeInc(rate, fs) >= 0 ==> 0 <= i) && (0 <= i ==> Bit(w.1, i) == (c.Sign(period) > 0))
  {
    hide SignState, SignFor, CodeInc, BitIndex, Bit, Code.Sign;
    SignWindow(c, u0, rate, fs, n);
    SignStateMeaning(u0, c.length);
    var (p0, sp) := SignState(u0, c.length);
    Drift(u0, rate, fs, k, p0 * (c.length * FRAC) + sp);
    PeriodIndex(c, p0, sp, CodeInc(rate, fs), k, period);
    IndexBetween(c, sp, CodeInc(rate, fs), k, k);
    assert RightBit(c, p0, sp, CodeInc(rate, fs), SignFor(c, u0, rate, fs, n).value.1, k);
  }
}
