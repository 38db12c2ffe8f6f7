/** The decoders for error-free symbols: one step per symbol pair, by table over 6-bit states or by
    trying both bits in a 7-bit register. */
module FreeDecoder {
  import opened Bits
  import opened Conv
  import opened Viterbi

  predicate Matches(r: Reg, y: Pair, inv: bool) {
    Out1(r) == y.0 && Out2(r, inv) == y.1
  }

  /** The bit chosen for a received pair: the one that explains it, 0 when neither does. */
  function Guess(s: State, y: Pair, inv: bool): Bit {
    !Matches(Reg(false, s), y, inv) && Matches(Reg(true, s), y, inv)
  }

  function FreeState(ys: seq<Pair>, inv: bool): State {
    if ys == [] then ZERO
    else
      var s := FreeState(ys[..|ys| - 1], inv);
      Next(Reg(Guess(s, ys[|ys| - 1], inv), s))
  }

  function FreeBits(ys: seq<Pair>, inv: bool): (bits: seq<Bit>)
    ensures |bits| == |ys|
  {
    if ys == [] then []
    else FreeBits(ys[..|ys| - 1], inv) + [Guess(FreeState(ys[..|ys| - 1], inv), ys[|ys| - 1], inv)]
  }

  /** What the clean-channel decoders return. */
  function Recovered(coded: seq<Bit>, inv: bool): (bits: seq<Bit>)
    ensures |bits| == |coded| / 2
  {
    FreeBits(Pairs(coded), inv)
  }

  // ---- decoder 1: transition table over 6-bit states ----

  datatype Entry = Entry(bit: Bit, next: nat)

  ghost predicate EntryFor(e: Entry, s: State, y: Pair, inv: bool) {
    e.bit == Guess(s, y, inv) && e.next == Index(Next(Reg(e.bit, s)))
  }

  method TableEntry(s: State, y: Pair, inv: bool) returns (e: Entry)
    ensures EntryFor(e, s, y, inv)
  {
    var found := false;
    var bit := false;
    if Matches(Reg(false, s), y, inv) {
      found := true;
    } else if Matches(Reg(true, s), y, inv) {
      bit, found := true, true;
    }
    e := if found then Entry(bit, Index(Next(Reg(bit, s)))) else Entry(false, Index(Next(Reg(false, s))));
  }

  ghost predicate Row(row: seq<Entry>, s: State, inv: bool) {
    |row| == 4 && forall y: Pair :: EntryFor(row[PairIndex(y)], s, y, inv)
  }

  method BuildTable(inv: bool) returns (table: seq<seq<Entry>>)
    ensures |table| == 64
    ensures forall i :: 0 <= i < 64 ==> Row(table[i], FromIndex(i), inv)
  {
    table := [];
    for st := 0 to 64
      invariant |table| == st
      invariant forall i :: 0 <= i < st ==> Row(table[i], FromIndex(i), inv)
    {
      var e0 := TableEntry(FromIndex(st), (false, false), inv);
      var e1 := TableEntry(FromIndex(st), (false, true), inv);
      var e2 := TableEntry(FromIndex(st), (true, false), inv);
      var e3 := TableEntry(FromIndex(st), (true, true), inv);
      assert Row([e0, e1, e2, e3], FromIndex(st), inv) by {
        RowOf(e0, e1, e2, e3, FromIndex(st), inv);
      }
      table := table + [[e0, e1, e2, e3]];
    }
  }

  lemma RowOf(e0: Entry, e1: Entry, e2: Entry, e3: Entry, s: State, inv: bool)
    requires EntryFor(e0, s, (false, false), inv) && EntryFor(e1, s, (false, true), inv)
    requires EntryFor(e2, s, (true, false), inv) && EntryFor(e3, s, (true, true), inv)
    ensures Row([e0, e1, e2, e3], s, inv)
  {
    forall y: Pair ensures EntryFor([e0, e1, e2, e3][PairIndex(y)], s, y, inv) {
      assert y == (y.0, y.1);
      if !y.0 && !y.1 {
        assert y == (false, false);
      } else if !y.0 {
        assert y == (false, true);
      } else if !y.1 {
        assert y == (true, false);
      } else {
        assert y == (true, true);
      }
    }
  }

  method TableDecode(coded: seq<Bit>, inv: bool) returns (out: seq<Bit>)
    ensures out == Recovered(coded, inv)
  {
    hide FreeState, FreeBits, Guess, Index, FromIndex, Next;
    var table := BuildTable(inv);
    var ys := Pairs(coded);
    var reg: nat := 0;
    out := [];
    FreeEmpty(inv);
    for i := 0 to |ys|
      invariant reg < 64 && FromIndex(reg) == FreeState(ys[..i], inv)
      invariant out == FreeBits(ys[..i], inv)
    {
      assert ys[..i + 1] == ys[..i] + [ys[i]];
      FreeSnoc(ys[..i], ys[i], inv);
      assert Row(table[reg], FromIndex(reg), inv);
      var e := table[reg][PairIndex(ys[i])];
      assert EntryFor(e, FromIndex(reg), ys[i], inv);
      IndexRoundTrip(Next(Reg(e.bit, FromIndex(reg))));
      reg := e.next;
      out := out + [e.bit];
    }
    assert ys[..|ys|] == ys;
  }

  // ---- decoder 2: search with a 7-bit register ----

  /** One pair: try bit 0, then bit 1, and fall back to 0. */
  method SearchStep(reg: Reg, c1: Bit, c2: Bit, inv: bool) returns (bit: Bit, next: Reg)
    ensures bit == Guess(Next(reg), (c1, c2), inv) && next == Reg(bit, Next(reg))
  {
    var r0, r1 := Reg(false, Next(reg)), Reg(true, Next(reg));
    if Out1(r0) == c1 && Out2(r0, inv) == c2 {
      bit, next := false, r0;
    } else if Out1(r1) == c1 && Out2(r1, inv) == c2 {
      bit, next := true, r1;
    } else {
      bit, next := false, Reg(false, Next(reg));
    }
  }

  /** Both decoders return the same bits for every stream of whole pairs, also one no encoder sends. */
  method SearchDecode(coded: seq<Bit>, inv: bool) returns (out: seq<Bit>)
    requires |coded| % 2 == 0
    ensures out == Recovered(coded, inv)
  {
    var reg := Reg(false, ZERO);
    ghost var ys := Pairs(coded);
    out := [];
    for k := 0 to |coded| / 2
      invariant out == FreeBits(ys[..k], inv)
      invariant Next(reg) == FreeState(ys[..k], inv)
    {
      var bit;
      bit, reg := SearchStep(reg, coded[2 * k], coded[2 * k + 1], inv);
      assert ys[..k + 1] == ys[..k] + [(coded[2 * k], coded[2 * k + 1])];
      FreeSnoc(ys[..k], (coded[2 * k], coded[2 * k + 1]), inv);
      out := out + [bit];
    }
    assert ys[..|ys|] == ys;
  }

  // ---- what they recover ----

  lemma GuessRight(r: Reg, inv: bool)
    ensures Guess(r.s, (Out1(r), Out2(r, inv)), inv) == r.b0
  {
  }

  lemma FreeEmpty(inv: bool)
    ensures FreeState([], inv) == FromIndex(0) && FreeBits([], inv) == []
  {
  }

  lemma FreeSnoc(ys: seq<Pair>, y: Pair, inv: bool)
    ensures var s := FreeState(ys, inv);
      && FreeBits(ys + [y], inv) == FreeBits(ys, inv) + [Guess(s, y, inv)]
      && FreeState(ys + [y], inv) == Next(Reg(Guess(s, y, inv), s))
  {
    assert (ys + [y])[..|ys|] == ys;
  }

  lemma PairsSnoc(coded: seq<Bit>, a: Bit, b: Bit)
    requires |coded| % 2 == 0
    ensures Pairs(coded + [a, b]) == Pairs(coded) + [(a, b)]
  {
  }

  lemma UndoneEmpty(inv: bool)
    ensures Recovered(Encode(ZERO, [], inv), inv) == []
    ensures FreeState(Pairs(Encode(ZERO, [], inv)), inv) == ZERO == After(ZERO, [])
  {
  }

  /** Encoding from the zero state is undone exactly. */
  lemma {:induction false} EncodingUndone(data: seq<Bit>, inv: bool)
    ensures Recovered(Encode(ZERO, data, inv), inv) == data
    ensures FreeState(Pairs(Encode(ZERO, data, inv)), inv) == After(ZERO, data)
  {
    hide Encode, After, Pairs, FreeBits, FreeState;
    UndoneEmpty(inv);
    if data != [] {
      var n := |data| - 1;
      var r := Reg(data[n], After(ZERO, data[..n]));
      EncodingUndone(data[..n], inv);
      Snoc(ZERO, data[..n], data[n], inv);
      PairsSnoc(Encode(ZERO, data[..n], inv), Out1(r), Out2(r, inv));
      FreeSnoc(Pairs(Encode(ZERO, data[..n], inv)), (Out1(r), Out2(r, inv)), inv);
      GuessRight(r, inv);
      assert data == data[..n] + [data[n]];
    }
  }

  /** Re-encoding what was recovered reproduces the symbols exactly when they are a codeword. */
  lemma ReencodeDetects(coded: seq<Bit>, inv: bool)
    ensures Encode(ZERO, Recovered(coded, inv), inv) == coded
            <==> exists data: seq<Bit> :: Encode(ZERO, data, inv) == coded
  {
    forall data: seq<Bit> | Encode(ZERO, data, inv) == coded
      ensures Encode(ZERO, Recovered(coded, inv), inv) == coded
    {
      EncodingUndone(data, inv);
    }
  }
}
