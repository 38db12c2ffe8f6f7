/** The rate-1/2, constraint-length-7 convolutional code shared by Galileo I/NAV, GPS CNAV and
    SBAS: the shift register, the encoder, and how encodings of pieces fit together. */
module Conv {
  import opened Bits

  /** The last six input bits, `b1` the newest. As a number, `b1` is bit 0. */
  datatype State = State(b1: Bit, b2: Bit, b3: Bit, b4: Bit, b5: Bit, b6: Bit)

  /** A state together with the bit just shifted in. */
  datatype Reg = Reg(b0: Bit, s: State)

  const ZERO := State(false, false, false, false, false, false)

  function Next(r: Reg): State {
    State(r.b0, r.s.b1, r.s.b2, r.s.b3, r.s.b4, r.s.b5)
  }

  function Xor5(a: Bit, b: Bit, c: Bit, d: Bit, e: Bit): Bit {
    (((a != b) != c) != d) != e
  }

  /** First output: the taps of the time-reversed generator 0o117. */
  function Out1(r: Reg): Bit {
    Xor5(r.b0, r.s.b1, r.s.b2, r.s.b3, r.s.b6)
  }

  /** Second output: the taps of the time-reversed generator 0o155, optionally inverted. */
  function Out2(r: Reg, inv: bool): Bit {
    Xor5(r.b0, r.s.b2, r.s.b3, r.s.b5, r.s.b6) != inv
  }

  /** The two symbols sent while the register holds `r`. */
  function Symbols(r: Reg, inv: bool): (p: seq<Bit>)
    ensures |p| == 2
  {
    [Out1(r), Out2(r, inv)]
  }

  /** The state after shifting in `data`. */
  function After(start: State, data: seq<Bit>): State {
    if data == [] then start
    else Next(Reg(data[|data| - 1], After(start, data[..|data| - 1])))
  }

  /** The symbols sent for `data` by an encoder that starts in state `start`. */
  function Encode(start: State, data: seq<Bit>, inv: bool): (sym: seq<Bit>)
    ensures |sym| == 2 * |data|
  {
    if data == [] then []
    else
      var n := |data| - 1;
      Encode(start, data[..n], inv) + Symbols(Reg(data[n], After(start, data[..n])), inv)
  }

  /** An encoder object: its register survives from one call of `Push` to the next. */
  class Encoder {
    var reg: Reg
    const inv: bool

    constructor (inv: bool)
      ensures this.inv == inv && Memory() == ZERO
    {
      this.inv := inv;
      reg := Reg(false, ZERO);
    }

    /** The six register bits that the next step still looks at. */
    function Memory(): State
      reads this
    {
      Next(reg)
    }

    method Push(data: seq<Bit>) returns (out: seq<Bit>)
      modifies this
      ensures out == Encode(old(Memory()), data, inv)
      ensures Memory() == After(old(Memory()), data)
    {
      out := [];
      for i := 0 to |data|
        invariant out == Encode(old(Memory()), data[..i], inv)
        invariant Memory() == After(old(Memory()), data[..i])
      {
        assert data[..i + 1][..i] == data[..i];
        reg := Reg(data[i], Next(reg));
        out := out + [Out1(reg), Out2(reg, inv)];
      }
      assert data[..|data|] == data;
    }
  }

  // ---- the register as the number the program computes with ----

  function Index(s: State): (i: nat)
    ensures i < 64
  {
    Num(s.b1) + 2 * Num(s.b2) + 4 * Num(s.b3) + 8 * Num(s.b4) + 16 * Num(s.b5) + 32 * Num(s.b6)
  }

  function FromIndex(i: nat): State {
    State(i % 2 == 1, i / 2 % 2 == 1, i / 2 / 2 % 2 == 1, i / 2 / 2 / 2 % 2 == 1, i / 2 / 2 / 2 / 2 % 2 == 1,
          i / 2 / 2 / 2 / 2 / 2 % 2 == 1)
  }

  lemma IndexRoundTrip(s: State)
    ensures FromIndex(Index(s)) == s
  {
    var i := Index(s);
    assert i / 2 == Num(s.b2) + 2 * Num(s.b3) + 4 * Num(s.b4) + 8 * Num(s.b5) + 16 * Num(s.b6);
    assert i / 2 / 2 == Num(s.b3) + 2 * Num(s.b4) + 4 * Num(s.b5) + 8 * Num(s.b6);
    assert i / 2 / 2 / 2 == Num(s.b4) + 2 * Num(s.b5) + 4 * Num(s.b6);
    assert i / 2 / 2 / 2 / 2 == Num(s.b5) + 2 * Num(s.b6);
  }

  /** The 7-bit register word. */
  function Word(r: Reg): bv7 {
    (if r.b0 then 1 else 0) | (if r.s.b1 then 2 else 0) | (if r.s.b2 then 4 else 0) | (if r.s.b3 then 8 else 0)
    | (if r.s.b4 then 16 else 0) | (if r.s.b5 then 32 else 0) | (if r.s.b6 then 64 else 0)
  }

  /** Parity of the number of ones of `w`. */
  function Parity(w: bv7): Bit {
    var x := w ^ (w >> 4);
    var y := x ^ (x >> 2);
    (y ^ (y >> 1)) & 1 == 1
  }

  /** The outputs are the parities of the masked register word. */
  lemma TapsAreGenerators(r: Reg, inv: bool)
    ensures Out1(r) == Parity(Word(r) & 0x4F)
    ensures Out2(r, inv) == (Parity(Word(r) & 0x6D) != inv)
  {
  }

  // ---- concatenation: the register is all the memory there is ----

  /** One more bit at the end. */
  lemma Snoc(s: State, a: seq<Bit>, b: Bit, inv: bool)
    ensures After(s, a + [b]) == Next(Reg(b, After(s, a)))
    ensures Encode(s, a + [b], inv) == Encode(s, a, inv) + Symbols(Reg(b, After(s, a)), inv)
  {
    assert (a + [b])[..|a|] == a;
  }

  lemma {:induction false} AfterConcat(s: State, a: seq<Bit>, b: seq<Bit>)
    ensures After(s, a + b) == After(After(s, a), b)
  {
    if b == [] {
      assert a + b == a;
    } else {
      assert (a + b)[..|a + b| - 1] == a + b[..|b| - 1];
      AfterConcat(s, a, b[..|b| - 1]);
    }
  }

  lemma {:induction false} EncodeConcat(s: State, a: seq<Bit>, b: seq<Bit>, inv: bool)
    ensures Encode(s, a + b, inv) == Encode(s, a, inv) + Encode(After(s, a), b, inv)
  {
    if b == [] {
      assert a + b == a;
    } else {
      var n := |b| - 1;
      assert a + b == (a + b[..n]) + [b[n]] && b == b[..n] + [b[n]];
      EncodeConcat(s, a, b[..n], inv);
      AfterConcat(s, a, b[..n]);
      Snoc(s, a + b[..n], b[n], inv);
      Snoc(After(s, a), b[..n], b[n], inv);
    }
  }

  /** The state is the last six bits shifted in; everything older is forgotten. */
  lemma LastSixBits(s: State, a: seq<Bit>)
    requires |a| >= 6
    ensures After(s, a) == TailState(a)
  {
    var n := |a|;
    var a1, a2, a3, a4, a5, a6 := a[..n - 1], a[..n - 2], a[..n - 3], a[..n - 4], a[..n - 5], a[..n - 6];
    assert a1[..n - 2] == a2 && a2[..n - 3] == a3 && a3[..n - 4] == a4 && a4[..n - 5] == a5 && a5[..n - 6] == a6;
    assert After(s, a4) == Next(Reg(a[n - 5], After(s, a5)));
    assert After(s, a2) == Next(Reg(a[n - 3], After(s, a3)));
  }

  function TailState(a: seq<Bit>): State
    requires |a| >= 6
  {
    var n := |a|;
    State(a[n - 1], a[n - 2], a[n - 3], a[n - 4], a[n - 5], a[n - 6])
  }
}
