/** Phases and rates as the command words carry them: 32-bit carrier words in units of 2^-32 cycle and
    code words in units of 2^-40 chip. Carrier phases are in cycles; the reals stand for the generator's
    floating-point numbers. */
module CmdWords {
  import B = Bits
  import opened Reals
  import opened Widths

  /** Round half up. */
  function Rnd(x: real): int {
    (x + 0.5).Floor
  }

  /** Remainder of a division that truncates, by 1. */
  function Fmod1(x: real): real {
    if x < 0.0 then x + (-x).Floor as real else x - x.Floor as real
  }

  /** Distance around a circle of `m` steps. */
  function CircDist(d: int, m: int): (r: int)
    requires m > 0
    ensures 0 <= r <= m
  {
    if d % m <= m - d % m then d % m else m - d % m
  }

  /** The word `n` increments on from `phase` lies within `slack` of `next` on a circle of `m` steps. */
  predicate Near(phase: int, inc: int, n: nat, next: int, m: int, slack: real)
    requires m > 0
  {
    CircDist(phase + n * inc - next, m) as real <= slack
  }

  /** Half a unit per sample and one unit, and a phase step of `s` in units. */
  function Slack(n: nat, s: real, units: int): real {
    n as real / 2.0 + 1.0 + Abs(s) * units as real
  }

  lemma CircBound(d: int, k: int, m: int, s: real)
    requires m > 0 && -s <= (d - k * m) as real <= s
    ensures CircDist(d, m) as real <= s
  {
    var e := d - k * m;
    assert d == e + k * m;
    ModShift(e, k, m);
    CircSmall(e, d, m);
  }

  lemma CircSmall(e: int, d: int, m: int)
    requires m > 0 && e % m == d % m
    ensures CircDist(d, m) <= (if e < 0 then -e else e)
  {
    if e < 0 {
      ModShift(e, 0, m);
      var q := e / m;
      assert e == m * q + e % m;
      assert q <= -1;
      B.MulSub(m, q, -1);
      B.SmallMultiple(m, q + 1);
    } else {
      ModShift(e, 0, m);
    }
  }

  lemma ModShift(d: int, k: int, m: int)
    requires m > 0
    ensures (d + k * m) % m == d % m
    ensures d >= 0 ==> d % m <= d
  {
    var q, r := d / m, d % m;
    assert d + k * m == m * (q + k) + r;
    B.DivModUnique(d + k * m, m, q + k, r);
  }

  // ---- carrier ----

  /** (increment, start phase): the increment as a signed 32-bit word, the phase unsigned. */
  function CarrWords(f: real, ph: real, fs: real): (w: (int, int))
    requires fs > 0.0
    ensures -TWO31 <= w.0 < TWO31 && 0 <= w.1 < TWO32
  {
    var frac := f / fs - (f / fs).Floor as real;
    var inc := Rnd(frac * TWO32 as real) % TWO32;
    var p := Fmod1(ph);
    var cyc := p - p.Floor as real;
    (if inc >= TWO31 then inc - TWO32 else inc, (cyc * TWO32 as real).Floor % TWO32)
  }

  /** The words stand for the frequency and the phase up to whole cycles: the increment rounded, the phase
      rounded down. */
  lemma CarrMeaning(f: real, ph: real, fs: real) returns (i: int, j: int)
    requires fs > 0.0
    ensures CarrWords(f, ph, fs).0 == Rnd(f / fs * TWO32 as real) + i * TWO32
    ensures CarrWords(f, ph, fs).1 == (ph * TWO32 as real).Floor + j * TWO32
  {
    var z := f / fs;
    var inc := Rnd((z - z.Floor as real) * TWO32 as real);
    assert inc == Rnd(z * TWO32 as real) - z.Floor * TWO32;
    i := -z.Floor - inc / TWO32;
    if inc % TWO32 >= TWO31 {
      i := i - 1;
    }
    var p := Fmod1(ph);
    var whole := if ph < 0.0 then -(-ph).Floor else ph.Floor;
    assert p == ph - whole as real;
    var cyc := p - p.Floor as real;
    var word := (cyc * TWO32 as real).Floor;
    assert word == (ph * TWO32 as real).Floor - (whole + p.Floor) * TWO32;
    j := -(whole + p.Floor) - word / TWO32;
  }

  /** `n` rounded steps drift at most half a unit each. */
  lemma RoundedSteps(z: real, n: nat)
    ensures -(n as real) / 2.0 <= (n * Rnd(z)) as real - n as real * z <= n as real / 2.0
  {
    var d := Rnd(z) as real - z;
    assert -0.5 <= d <= 0.5;
    NonNegative(n as real, d + 0.5);
    NonNegative(n as real, 0.5 - d);
    assert (n * Rnd(z)) as real == n as real * Rnd(z) as real;
  }

  /** `n` rounded steps from a rounded-down start against the rounded-down end of `n` exact steps and `c` more. */
  lemma RoundedSum(a: real, z: real, n: nat, c: real, slack: real)
    requires slack == n as real / 2.0 + 1.0 + Abs(c)
    ensures -slack <= (a.Floor + n * Rnd(z) - (a + n as real * z + c).Floor) as real <= slack
  {
    RoundedSteps(z, n);
  }

  lemma Advanced(ph: real, step: real, n: nat, w: int, s: real, ph1: real)
    requires ph1 == ph + n as real * step + w as real + s
    ensures var M := TWO32 as real;
      (ph1 * M).Floor == (ph * M + n as real * (step * M) + s * M).Floor + w * TWO32
  {
    var M := TWO32 as real;
    assert n as real * step * M == n as real * (step * M);
    assert ph1 * M == ph * M + n as real * (step * M) + s * M + (w * TWO32) as real;
  }

  lemma AbsScale(s: real, m: real)
    requires m > 0.0
    ensures Abs(s * m) == Abs(s) * m
  {
  }

  /** The word reached after `n` samples from the start word of a phase, against the start word of a phase
      that lies `n` ideal steps, `w` whole cycles and `s` cycles further on. */
  lemma CarrierBoundary(f: real, ph: real, fs: real, n: nat, w: int, s: real, f1: real, ph1: real)
    requires fs > 0.0 && ph1 == ph + n as real * (f / fs) + w as real + s
    ensures var now, next := CarrWords(f, ph, fs), CarrWords(f1, ph1, fs);
      Near(now.1, now.0, n, next.1, TWO32, Slack(n, s, TWO32))
  {
    hide CarrWords, Near, Slack, Rnd;
    var i, j := CarrMeaning(f, ph, fs);
    var i1, j1 := CarrMeaning(f1, ph1, fs);
    Apart(ph, f / fs, n, w, s, ph1, CarrWords(f, ph, fs).0, CarrWords(f, ph, fs).1, CarrWords(f1, ph1, fs).1, i, j, j1);
  }

  lemma Apart(ph: real, step: real, n: nat, w: int, s: real, ph1: real, inc: int, now: int, next: int,
              i: int, j: int, j1: int)
    requires ph1 == ph + n as real * step + w as real + s
    requires inc == Rnd(step * TWO32 as real) + i * TWO32
    requires now == (ph * TWO32 as real).Floor + j * TWO32
    requires next == (ph1 * TWO32 as real).Floor + j1 * TWO32
    ensures Near(now, inc, n, next, TWO32, Slack(n, s, TWO32))
  {
    hide CircDist, Rnd, Abs;
    var M := TWO32 as real;
    var z, slack := step * M, Slack(n, s, TWO32);
    AbsScale(s, M);
    RoundedSum(ph * M, z, n, s * M, slack);
    Advanced(ph, step, n, w, s, ph1);
    var a, b := (ph * M).Floor, (ph * M + n as real * z + s * M).Floor;
    WordsApart(a, Rnd(z), n, i, j, b, w, j1, slack);
    assert n * inc == n * (Rnd(z) + i * TWO32);
    assert now + n * inc - next == (a + j * TWO32) + n * (Rnd(z) + i * TWO32) - (b + w * TWO32 + j1 * TWO32);
  }

  /** Whole turns drop out of the distance. */
  lemma WordsApart(a: int, r: int, n: nat, i: int, j: int, b: int, w: int, j1: int, slack: real)
    requires -slack <= (a + n * r - b) as real <= slack
    ensures CircDist((a + j * TWO32) + n * (r + i * TWO32) - (b + w * TWO32 + j1 * TWO32), TWO32) as real <= slack
  {
    var d := (a + j * TWO32) + n * (r + i * TWO32) - (b + w * TWO32 + j1 * TWO32);
    assert n * (r + i * TWO32) == n * r + n * i * TWO32;
    CircBound(d, j + n * i - j1 - w, TWO32, slack);
  }

  // ---- code ----

  function CodeInc(rate: real, fs: real): int
    requires fs > 0.0
  {
    Rnd(rate / fs * FRAC as real)
  }

  /** Start word of the code phase, below one code length. */
  function CodeWord(cp0: real, length: nat): (w: int)
    requires length > 0
  {
    var x := Rnd(Mod(cp0, length as real) * FRAC as real);
    if x >= length * FRAC then x - length * FRAC else x
  }

  /** The code word is the rounded phase up to whole code lengths. */
  lemma CodeMeaning(cp0: real, length: nat) returns (j: int)
    requires length > 0
    ensures CodeWord(cp0, length) == Rnd(cp0 * FRAC as real) + j * (length * FRAC)
    ensures 0 <= CodeWord(cp0, length) < length * FRAC
  {
    ModRange(cp0, length as real);
    var q := Div(cp0, length as real);
    var x := Rnd(Mod(cp0, length as real) * FRAC as real);
    assert Mod(cp0, length as real) * FRAC as real == cp0 * FRAC as real - (q * (length * FRAC)) as real;
    assert x == Rnd(cp0 * FRAC as real) - q * (length * FRAC);
    assert Mod(cp0, length as real) * FRAC as real < (length * FRAC) as real;
    j := if x >= length * FRAC then -q - 1 else -q;
  }

  /** The same bound for the code, around one code length. */
  lemma CodeBoundary(rate: real, cp0: real, length: nat, fs: real, n: nat, s: real, cp1: real)
    requires length > 0 && fs > 0.0 && cp1 == cp0 + n as real * (rate / fs) + s
    ensures Near(CodeWord(cp0, length), CodeInc(rate, fs), n, CodeWord(cp1, length), length * FRAC, Slack(n, s, FRAC))
  {
    hide CircDist, Abs, CodeWord;
    var M := FRAC as real;
    var j := CodeMeaning(cp0, length);
    var j1 := CodeMeaning(cp1, length);
    var z := rate / fs * M;
    var slack := Slack(n, s, FRAC);
    AbsScale(s, M);
    RoundedSum(cp0 * M + 0.5, z, n, s * M, slack);
    assert n as real * z == n as real * (rate / fs) * M;
    assert cp1 * M == cp0 * M + n as real * z + s * M;
    var d := CodeWord(cp0, length) + n * CodeInc(rate, fs) - CodeWord(cp1, length);
    var e := Rnd(cp0 * M) + n * Rnd(z) - Rnd(cp1 * M);
    assert d == e + (j - j1) * (length * FRAC);
    CircBound(d, j - j1, length * FRAC, slack);
  }
}
