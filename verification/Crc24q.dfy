/** CRC-24Q (generator 0x1864CFB): the bit-serial register, the byte-table form of it, and what a
    passing check rules out. A register is the list of its 24 bits, most significant first. */
module Crc24q {
  import opened Bits

  /** Generator without its leading term: 0x864CFB. */
  const POLY: seq<Bit> := [
    true, false, false, false, false, true, true, false, false, true, false, false,
    true, true, false, false, true, true, true, true, true, false, true, true]

  /** Shift left by one place, reducing by the generator when a one falls out. */
  function Shift(r: seq<Bit>): (s: seq<Bit>)
    requires |r| == 24
    ensures |s| == 24
  {
    if r[0] then Diff(r[1..] + [false], POLY) else r[1..] + [false]
  }

  function Shifts(r: seq<Bit>, n: nat): (s: seq<Bit>)
    requires |r| == 24
    ensures |s| == 24
    decreases n
  {
    if n == 0 then r else Shifts(Shift(r), n - 1)
  }

  /** Register after feeding `bits` one by one into `r`. */
  function Feed(r: seq<Bit>, bits: seq<Bit>): (s: seq<Bit>)
    requires |r| == 24
    ensures |s| == 24
  {
    if bits == [] then r
    else
      var f := Feed(r, bits[..|bits| - 1]);
      Shift([f[0] != bits[|bits| - 1]] + f[1..])
  }

  function Crc(bits: seq<Bit>): (s: seq<Bit>)
    ensures |s| == 24
  {
    Feed(Zeros(24), bits)
  }

  function Checks(bits: seq<Bit>, dataBits: nat, crcBits: nat): bool {
    |bits| >= dataBits + crcBits && Crc(bits[..dataBits]) == bits[dataBits..dataBits + crcBits]
  }

  // ---- the two implementations ----

  method BitSerial(bits: seq<Bit>) returns (crc: seq<Bit>)
    ensures crc == Crc(bits)
  {
    crc := SerialFrom(Zeros(24), bits);
  }

  /** Bit-serial loop: a 25-bit word holds the bit that falls out. */
  method SerialFrom(start: seq<Bit>, bits: seq<Bit>) returns (reg: seq<Bit>)
    requires |start| == 24
    ensures |reg| == 24 && reg == Feed(start, bits)
  {
    reg := start;
    for i := 0 to |bits|
      invariant |reg| == 24 && reg == Feed(start, bits[..i])
    {
      assert bits[..i + 1][..i] == bits[..i];
      reg := [reg[0] != bits[i]] + reg[1..];
      var wide := reg + [false];
      if wide[0] {
        wide := Diff(wide, [true] + POLY);
        assert wide[1..] == Diff((reg + [false])[1..], POLY);
      }
      assert (reg + [false])[1..] == reg[1..] + [false];
      reg := wide[1..];
    }
    assert bits[..|bits|] == bits;
  }

  /** Eight shifts of a byte placed at the top of the register. */
  function TableEntry(byte: int): (s: seq<Bit>)
    ensures |s| == 24
  {
    Shifts(BitsOf(byte, 8) + Zeros(16), 8)
  }

  method BuildTable() returns (table: seq<seq<Bit>>)
    ensures |table| == 256
    ensures forall i :: 0 <= i < 256 ==> table[i] == TableEntry(i)
  {
    hide TableEntry;
    table := [];
    for byte := 0 to 256
      invariant |table| == byte
      invariant forall i :: 0 <= i < byte ==> table[i] == TableEntry(i)
    {
      var reg := EntryLoop(byte);
      table := table + [reg];
    }
  }

  /** Eight shifts of a byte at the top of the register. */
  method EntryLoop(byte: int) returns (reg: seq<Bit>)
    ensures |reg| == 24 && reg == TableEntry(byte)
  {
    hide Shift;
    reg := BitsOf(byte, 8) + Zeros(16);
    for k := 0 to 8
      invariant |reg| == 24 && Shifts(reg, 8 - k) == TableEntry(byte)
    {
      reg := Shift(reg);
    }
  }

  lemma FeedNothing(r: seq<Bit>)
    requires |r| == 24
    ensures Feed(r, []) == r
  {
  }

  /** Whole bytes by table look-up, the last 0 to 7 bits serially. */
  method ByteTable(bits: seq<Bit>) returns (crc: seq<Bit>)
    ensures crc == Crc(bits)
  {
    hide Feed, TableEntry;
    var table := BuildTable();
    var reg := Zeros(24);
    FeedNothing(Zeros(24));
    var idx := 0;
    while idx + 8 <= |bits|
      invariant 0 <= idx <= |bits|
      invariant |reg| == 24 && reg == Feed(Zeros(24), bits[..idx])
    {
      var byte := bits[idx..idx + 8];
      var top := Diff(reg[..8], byte);
      BitsOfUInt(top);
      assert Pow2(8) == 256;
      ByteStep(reg, byte);
      FeedConcat(Zeros(24), bits[..idx], byte);
      assert bits[..idx + 8] == bits[..idx] + byte;
      reg := Diff(reg[8..] + Zeros(8), table[UInt(top)]);
      idx := idx + 8;
    }
    FeedConcat(Zeros(24), bits[..idx], bits[idx..]);
    assert bits == bits[..idx] + bits[idx..];
    crc := SerialFrom(reg, bits[idx..]);
  }

  method Check(bits: seq<Bit>, dataBits: nat, crcBits: nat) returns (ok: bool)
    ensures ok == Checks(bits, dataBits, crcBits)
  {
    if |bits| < dataBits + crcBits {
      return false;
    }
    var computed := ByteTable(bits[..dataBits]);
    ok := computed == bits[dataBits..dataBits + crcBits];
  }

  // ---- linearity ----

  lemma ShiftLinear(a: seq<Bit>, b: seq<Bit>)
    requires |a| == |b| == 24
    ensures Shift(Diff(a, b)) == Diff(Shift(a), Shift(b))
  {
  }

  lemma {:induction false} ShiftsLinear(a: seq<Bit>, b: seq<Bit>, n: nat)
    requires |a| == |b| == 24
    ensures Shifts(Diff(a, b), n) == Diff(Shifts(a, n), Shifts(b, n))
    decreases n
  {
    if n != 0 {
      ShiftLinear(a, b);
      ShiftsLinear(Shift(a), Shift(b), n - 1);
    }
  }

  /** Leading zeros just fall out. */
  lemma {:induction false} ShiftsPlain(r: seq<Bit>, n: nat)
    requires |r| == 24 && n <= 24 && (forall i :: 0 <= i < n ==> !r[i])
    ensures Shifts(r, n) == r[n..] + Zeros(n)
    decreases n
  {
    if n != 0 {
      var q := r[1..] + [false];
      ShiftsPlain(q, n - 1);
      assert q[n - 1..] + Zeros(n - 1) == r[n..] + Zeros(n);
    }
  }

  lemma {:induction false} ShiftsAdd(r: seq<Bit>, m: nat, n: nat)
    requires |r| == 24
    ensures Shifts(Shifts(r, m), n) == Shifts(r, m + n)
    decreases m
  {
    if m != 0 {
      ShiftsAdd(Shift(r), m - 1, n);
    }
  }

  lemma {:induction false} FeedConcat(r: seq<Bit>, a: seq<Bit>, b: seq<Bit>)
    requires |r| == 24
    ensures Feed(r, a + b) == Feed(Feed(r, a), b)
  {
    if b == [] {
      assert a + b == a;
    } else {
      assert (a + b)[..|a + b| - 1] == a + b[..|b| - 1];
      FeedConcat(r, a, b[..|b| - 1]);
    }
  }

  function Pad(bits: seq<Bit>): (s: seq<Bit>)
    requires |bits| <= 24
    ensures |s| == 24
  {
    bits + Zeros(24 - |bits|)
  }

  lemma XorShift(f: seq<Bit>, k: nat, b: Bit)
    requires |f| == 24 && k < 24
    ensures [f[0] != b] + f[1..] == Diff(f, Pad([b]))
  {
  }

  /** A bit fed later is a bit that was there before the earlier shifts, further down. */
  lemma SinkBit(k: nat, b: Bit)
    requires k < 24
    ensures Shifts(Zeros(k) + [b] + Zeros(23 - k), k) == Pad([b])
  {
    var r := Zeros(k) + [b] + Zeros(23 - k);
    ShiftsPlain(r, k);
    assert r[k..] + Zeros(k) == Pad([b]);
  }

  /** Feeding up to 24 bits is adding them at the top of the register and shifting. */
  lemma {:induction false} FeedIsShifts(r: seq<Bit>, bits: seq<Bit>)
    requires |r| == 24 && |bits| <= 24
    ensures Feed(r, bits) == Shifts(Diff(r, Pad(bits)), |bits|)
  {
    hide Shift;
    if bits == [] {
      assert Diff(r, Pad(bits)) == r;
    } else {
      var k := |bits| - 1;
      var b := bits[k];
      var x, y := Diff(r, Pad(bits[..k])), Zeros(k) + [b] + Zeros(23 - k);
      FeedIsShifts(r, bits[..k]);
      XorShift(Shifts(x, k), k, b);
      SinkBit(k, b);
      ShiftsLinear(x, y, k);
      assert Diff(x, y) == Diff(r, Pad(bits));
      ShiftsAdd(Diff(x, y), k, 1);
      assert Shifts(Shifts(Diff(x, y), k), 1) == Shift(Shifts(Diff(x, y), k));
    }
  }

  /** One byte is one table look-up. */
  lemma ByteStep(r: seq<Bit>, byte: seq<Bit>)
    requires |r| == 24 && |byte| == 8
    ensures Feed(r, byte) == Diff(r[8..] + Zeros(8), TableEntry(UInt(Diff(r[..8], byte))))
  {
    var top := Diff(r[..8], byte);
    var low := Zeros(8) + r[8..];
    BitsOfUInt(top);
    FeedIsShifts(r, byte);
    assert Diff(r, Pad(byte)) == Diff(low, top + Zeros(16));
    ShiftsLinear(low, top + Zeros(16), 8);
    ShiftsPlain(low, 8);
    assert low[8..] == r[8..];
  }

  // ---- what the check detects ----

  lemma ConstantTerm(r: seq<Bit>)
    requires |r| == 24
    ensures Shift(r)[23] == r[0]
    ensures !r[0] ==> forall i :: 0 <= i < 23 ==> Shift(r)[i] == r[i + 1]
  {
  }

  /** Only the zero register shifts to zero: the generator has a constant term. */
  lemma ShiftKernel(r: seq<Bit>)
    requires |r| == 24 && Shift(r) == Zeros(24)
    ensures r == Zeros(24)
  {
    ConstantTerm(r);
    assert forall i :: 1 <= i < 24 ==> r[i] == Shift(r)[i - 1];
  }

  lemma {:induction false} ShiftsInjective(a: seq<Bit>, b: seq<Bit>, n: nat)
    requires |a| == |b| == 24 && Shifts(a, n) == Shifts(b, n)
    ensures a == b
    decreases n
  {
    if n != 0 {
      ShiftsInjective(Shift(a), Shift(b), n - 1);
      ShiftLinear(a, b);
      assert Diff(Shift(a), Shift(b)) == Zeros(24);
      ShiftKernel(Diff(a, b));
      XorZero(a, b);
    }
  }

  lemma XorZero(a: seq<Bit>, b: seq<Bit>)
    requires |a| == |b|
    ensures Diff(a, b) == Zeros(|a|) <==> a == b
  {
    if Diff(a, b) == Zeros(|a|) {
      assert forall i :: 0 <= i < |a| ==> Diff(a, b)[i] == (a[i] != b[i]);
    }
  }

  lemma XorCancel(r: seq<Bit>, a: seq<Bit>, b: seq<Bit>)
    requires |r| == |a| == |b| && Diff(r, a) == Diff(r, b)
    ensures a == b
  {
    assert a == Diff(r, Diff(r, a)) && b == Diff(r, Diff(r, b));
  }

  /** The register before can be told from the register after and the bits fed in between. */
  lemma {:induction false} FeedInjective(a: seq<Bit>, b: seq<Bit>, bits: seq<Bit>)
    requires |a| == |b| == 24 && Feed(a, bits) == Feed(b, bits)
    ensures a == b
  {
    if bits != [] {
      var n := |bits| - 1;
      var f, g := Feed(a, bits[..n]), Feed(b, bits[..n]);
      XorShift(f, 0, bits[n]);
      XorShift(g, 0, bits[n]);
      var p := Pad([bits[n]]);
      ShiftsInjective(Diff(f, p), Diff(g, p), 1);
      assert forall i :: 0 <= i < 24 ==> Diff(f, p)[i] == Diff(g, p)[i];
      assert f == g;
      FeedInjective(a, b, bits[..n]);
    }
  }

  /** Up to 24 bits fed into the same register can be told apart by the result. */
  lemma WindowInjective(r: seq<Bit>, v: seq<Bit>, w: seq<Bit>)
    requires |r| == 24 && |v| == |w| <= 24 && Feed(r, v) == Feed(r, w)
    ensures v == w
  {
    FeedIsShifts(r, v);
    FeedIsShifts(r, w);
    ShiftsInjective(Diff(r, Pad(v)), Diff(r, Pad(w)), |v|);
    XorCancel(r, Pad(v), Pad(w));
    assert v == Pad(v)[..|v|] && w == Pad(w)[..|v|];
  }

  /** A message followed by its own checksum leaves remainder zero, and no other 24 bits do. */
  lemma RemainderZero(message: seq<Bit>, tail: seq<Bit>)
    requires |tail| == 24
    ensures Crc(message + tail) == Zeros(24) <==> tail == Crc(message)
  {
    var r := Crc(message);
    FeedConcat(Zeros(24), message, tail);
    FeedIsShifts(r, tail);
    assert Pad(tail) == tail;
    ZeroStays(24);
    if Crc(message + tail) == Zeros(24) {
      ShiftsInjective(Diff(r, tail), Zeros(24), 24);
    }
    XorZero(r, tail);
  }

  lemma {:induction false} ZeroStays(n: nat)
    ensures Shifts(Zeros(24), n) == Zeros(24)
  {
    if n != 0 {
      assert Shift(Zeros(24)) == Zeros(24);
      ZeroStays(n - 1);
    }
  }

  /** Two blocks of the same length that both pass the check never differ only inside a window of
      24 consecutive bits, wherever the window lies. */
  lemma BurstDetected(x: seq<Bit>, y: seq<Bit>, dataBits: nat, lo: nat, hi: nat)
    requires |x| == |y| == dataBits + 24 && Checks(x, dataBits, 24) && Checks(y, dataBits, 24)
    requires lo <= hi <= |x| && hi - lo <= 24
    requires x[..lo] == y[..lo] && x[hi..] == y[hi..]
    ensures x == y
  {
    hide Feed, Zeros;
    assert x == x[..dataBits] + x[dataBits..] && y == y[..dataBits] + y[dataBits..];
    RemainderZero(x[..dataBits], x[dataBits..]);
    RemainderZero(y[..dataBits], y[dataBits..]);
    var r := Feed(Zeros(24), x[..lo]);
    assert x == x[..lo] + (x[lo..hi] + x[hi..]) && y == y[..lo] + (y[lo..hi] + y[hi..]);
    FeedConcat(Zeros(24), x[..lo], x[lo..hi] + x[hi..]);
    FeedConcat(Zeros(24), y[..lo], y[lo..hi] + y[hi..]);
    FeedConcat(r, x[lo..hi], x[hi..]);
    FeedConcat(r, y[lo..hi], y[hi..]);
    FeedInjective(Feed(r, x[lo..hi]), Feed(r, y[lo..hi]), x[hi..]);
    WindowInjective(r, x[lo..hi], y[lo..hi]);
  }

  /** The window length 24 is the limit: adding the 25-bit generator anywhere leaves a passing block
      passing. */
  lemma GeneratorUndetected(r: seq<Bit>, b: Bit, w: seq<Bit>, rest: seq<Bit>)
    requires |r| == 24 && |w| == 24
    ensures Feed(r, [!b] + Diff(w, POLY) + rest) == Feed(r, [b] + w + rest)
  {
    var f, g := Diff(r, Pad([b])), Diff(r, Pad([!b]));
    FeedIsShifts(r, [b]);
    FeedIsShifts(r, [!b]);
    assert g == Diff(f, Pad([true]));
    ShiftLinear(f, Pad([true]));
    assert Shift(Pad([true])) == POLY;
    assert Shifts(f, 1) == Shift(f) && Shifts(g, 1) == Shift(g);
    FeedIsShifts(Shift(f), w);
    FeedIsShifts(Shift(g), Diff(w, POLY));
    assert Diff(Shift(g), Pad(Diff(w, POLY))) == Diff(Shift(f), Pad(w));
    FeedConcat(r, [b], w);
    FeedConcat(r, [!b], Diff(w, POLY));
    FeedConcat(r, [b] + w, rest);
    FeedConcat(r, [!b] + Diff(w, POLY), rest);
  }

  lemma {:induction false} StaysOnTop(r: seq<Bit>, n: nat)
    requires |r| == 24 && n <= 4 && r[0] && forall i :: 1 <= i <= n ==> !r[i]
    ensures Shifts(r, n)[0]
    decreases n
  {
    if n != 0 {
      assert Shift(r) == Diff(r[1..] + [false], POLY);
      StaysOnTop(Shift(r), n - 1);
    }
  }

  /** The sixth bit from the end always shows in the last bit of the checksum. */
  lemma SixthFromEnd(r: seq<Bit>)
    requires |r| == 24
    ensures Feed(r, [true] + Zeros(5))[23] != Feed(r, [false] + Zeros(5))[23]
  {
    hide Shift, Feed;
    var one, none := Diff(r, Pad([true] + Zeros(5))), Diff(r, Pad([false] + Zeros(5)));
    FeedIsShifts(r, [true] + Zeros(5));
    FeedIsShifts(r, [false] + Zeros(5));
    ShiftsLinear(one, none, 6);
    assert Diff(one, none) == Pad([true]);
    LastOfSix();
    assert Diff(Shifts(one, 6), Shifts(none, 6))[23];
  }

  lemma LastOfSix()
    ensures Shifts(Pad([true]), 6)[23]
  {
    assert Shift(Pad([true])) == POLY;
    hide Shift;
    StaysOnTop(POLY, 4);
    assert Shifts(Pad([true]), 5) == Shifts(POLY, 4);
    ShiftsAdd(Pad([true]), 5, 1);
    assert Shifts(Shifts(Pad([true]), 5), 1) == Shift(Shifts(Pad([true]), 5));
    ConstantTerm(Shifts(Pad([true]), 5));
  }
}
