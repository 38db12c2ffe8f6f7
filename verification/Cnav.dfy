/** GPS CNAV messages: payload fields, framing, and the receiver that finds messages in symbols of unknown
    carrier sign and pair phase. */
module Cnav {
  import opened Bits
  import opened Conv
  import opened Reals
  import Crc24q
  import V = Viterbi
  import O = Optimality

  // ---- payload fields ----

  /** A field of a payload layout: two's complement or unsigned, unit, width. */
  datatype Item = Item(signed: bool, scale: real, bits: nat) {
    predicate Valid() {
      scale > 0.0 && bits > 0
    }

    function Lowest(): int
      requires Valid()
    {
      if signed then 0 - Pow2(bits - 1) else 0
    }

    function Highest(): int
      requires Valid()
    {
      if signed then Pow2(bits - 1) - 1 else Pow2(bits) - 1
    }

    /** The whole number of units sent for `v`: the nearest one, held within the field. */
    function Units(v: real): (q: int)
      requires Valid()
      ensures Lowest() <= q <= Highest()
    {
      var q := Round(v / scale);
      if q < Lowest() then Lowest() else if q > Highest() then Highest() else q
    }

    /** The value those units stand for. */
    function Value(v: real): real
      requires Valid()
    {
      Units(v) as real * scale
    }

    function Encode(v: real): (b: seq<Bit>)
      requires Valid()
      ensures |b| == bits
    {
      BitsOf(Units(v) % Pow2(bits), bits)
    }

    function Decode(b: seq<Bit>): real
      requires Valid() && |b| == bits
    {
      var u := UInt(b);
      (if signed && b[0] then u - Pow2(bits) else u) as real * scale
    }
  }

  lemma {:induction false} TopBit(b: seq<Bit>)
    requires b != []
    ensures b[0] == (UInt(b) >= Pow2(|b| - 1)) && UInt(b) < Pow2(|b|)
    decreases |b|
  {
    if |b| > 1 {
      TopBit(b[..|b| - 1]);
    } else {
      assert b[..0] == [];
    }
  }

  /** What was sent for a value comes back, whatever the sign; it is within half a unit of every value that
      lies between the field's limits. */
  lemma FieldBack(it: Item, v: real)
    requires it.Valid()
    ensures it.Decode(it.Encode(v)) == it.Value(v)
    ensures it.Lowest() as real * it.scale <= v <= it.Highest() as real * it.scale ==>
      -it.scale / 2.0 <= it.Value(v) - v <= it.scale / 2.0
  {
    hide Item.Units, UInt, BitsOf, Pow2;
    WordBack(it.signed, it.bits, it.Units(v));
    Nearest(it, v);
  }

  /** A number within the field's limits comes back from its bits. */
  lemma WordBack(signed: bool, n: nat, q: int)
    requires n > 0
    requires if signed then -(Pow2(n - 1) as int) <= q < Pow2(n - 1) else 0 <= q < Pow2(n)
    ensures var b := BitsOf(q % Pow2(n), n);
      q == if signed && b[0] then UInt(b) - Pow2(n) else UInt(b)
  {
    var p := Pow2(n);
    assert p == 2 * Pow2(n - 1);
    hide Pow2, UInt, BitsOf;
    UIntOfBitsOf(q % p, n);
    TopBit(BitsOf(q % p, n));
    if q >= 0 {
      DivModUnique(q, p, 0, q);
      DivModUnique(q % p, p, 0, q);
    } else {
      DivModUnique(q, p, -1, q + p);
      DivModUnique(q % p, p, 0, q + p);
    }
  }

  lemma Nearest(it: Item, v: real)
    requires it.Valid()
    ensures it.Lowest() as real * it.scale <= v <= it.Highest() as real * it.scale ==>
      -it.scale / 2.0 <= it.Units(v) as real * it.scale - v <= it.scale / 2.0
  {
    hide Item.Lowest, Item.Highest;
    var x, lo, hi := v / it.scale, it.Lowest(), it.Highest();
    assert v == x * it.scale;
    if lo as real * it.scale <= v <= hi as real * it.scale {
      LessFactor(lo as real, x, it.scale, lo as real * it.scale, v);
      LessFactor(x, hi as real, it.scale, v, hi as real * it.scale);
      RoundNear(x, lo, hi);
      Scaled(it.Units(v) as real, x, it.scale, v);
    }
  }

  lemma RoundNear(x: real, lo: int, hi: int)
    requires lo as real <= x <= hi as real
    ensures lo <= Round(x) <= hi && -0.5 <= Round(x) as real - x <= 0.5
  {
  }

  lemma LessFactor(a: real, b: real, s: real, p: real, q: real)
    requires s > 0.0 && p == a * s && q == b * s && p <= q
    ensures a <= b
  {
    var d := b - a;
    assert d * s == q - p;
  }

  lemma Scaled(u: real, x: real, s: real, v: real)
    requires s > 0.0 && -0.5 <= u - x <= 0.5 && v == x * s
    ensures -s / 2.0 <= u * s - v <= s / 2.0
  {
    var d := u - x;
    assert d * s == u * s - v;
    NonNegative(d + 0.5, s);
    NonNegative(0.5 - d, s);
  }

  predicate Layout(items: seq<Item>) {
    forall i :: 0 <= i < |items| ==> items[i].Valid()
  }

  function Fields(items: seq<Item>, vs: seq<real>): seq<Bit>
    requires Layout(items) && |vs| == |items|
  {
    if items == [] then [] else items[0].Encode(vs[0]) + Fields(items[1..], vs[1..])
  }

  function Values(items: seq<Item>, payload: seq<Bit>, off: nat): (vs: seq<real>)
    requires Layout(items) && off + TotalBits(items) <= |payload|
    ensures |vs| == |items|
    decreases items
  {
    if items == [] then []
    else [items[0].Decode(payload[off..off + items[0].bits])] + Values(items[1..], payload, off + items[0].bits)
  }

  function TotalBits(items: seq<Item>): nat {
    if items == [] then 0 else items[0].bits + TotalBits(items[1..])
  }

  /** The values a payload carries: each the whole number of units nearest to the one sent. */
  function Sent(items: seq<Item>, vs: seq<real>): (ws: seq<real>)
    requires Layout(items) && |vs| == |items|
    ensures |ws| == |vs|
  {
    if items == [] then [] else [items[0].Value(vs[0])] + Sent(items[1..], vs[1..])
  }

  /** The decoder's loop over a layout. */
  method DecodePayload(items: seq<Item>, payload: seq<Bit>) returns (vs: seq<real>)
    requires Layout(items) && TotalBits(items) <= |payload|
    ensures vs == Values(items, payload, 0)
  {
    hide Values, TotalBits, Item.Decode, Item.Valid;
    vs := [];
    var off: nat := 0;
    assert items[0..] == items;
    for i := 0 to |items|
      invariant off + TotalBits(items[i..]) <= |payload|
      invariant Values(items, payload, 0) == vs + Values(items[i..], payload, off)
    {
      ValuesStep(items, i, payload, off);
      vs := vs + [items[i].Decode(payload[off..off + items[i].bits])];
      off := off + items[i].bits;
    }
    ValuesEnd(items[|items|..], payload, off);
  }

  lemma ValuesStep(items: seq<Item>, i: nat, payload: seq<Bit>, off: nat)
    requires Layout(items) && i < |items| && off + TotalBits(items[i..]) <= |payload|
    ensures off + items[i].bits + TotalBits(items[i + 1..]) <= |payload|
    ensures items[i].Valid()
    ensures Values(items[i..], payload, off)
         == [items[i].Decode(payload[off..off + items[i].bits])]
            + Values(items[i + 1..], payload, off + items[i].bits)
  {
    hide Item.Decode, Item.Valid;
    assert items[i..][1..] == items[i + 1..] && items[i..][0] == items[i];
  }

  lemma ValuesEnd(items: seq<Item>, payload: seq<Bit>, off: nat)
    requires items == [] && off <= |payload|
    ensures Layout(items) && TotalBits(items) == 0 && Values(items, payload, off) == []
  {
  }

  /** Field after field comes back from its place in the payload. */
  lemma {:induction false} PayloadBack(items: seq<Item>, vs: seq<real>, pre: seq<Bit>, post: seq<Bit>,
                                       payload: seq<Bit>)
    requires Layout(items) && |vs| == |items| && payload == pre + Fields(items, vs) + post
    ensures |Fields(items, vs)| == TotalBits(items)
    ensures Values(items, payload, |pre|) == Sent(items, vs)
    decreases |items|
  {
    hide Item.Encode, Item.Decode, Item.Value;
    if items != [] {
      var b, rest := items[0].Encode(vs[0]), Fields(items[1..], vs[1..]);
      assert payload == (pre + b) + rest + post;
      PayloadBack(items[1..], vs[1..], pre + b, post, payload);
      assert payload[|pre|..|pre| + items[0].bits] == b;
      FieldBack(items[0], vs[0]);
      var x: real := items[0].Decode(b);
      assert |pre + b| == |pre| + items[0].bits;
      assert Values(items, payload, |pre|) == [x] + Values(items[1..], payload, |pre| + items[0].bits);
      assert Sent(items, vs) == [x] + Sent(items[1..], vs[1..]);
    }
  }

  // ---- messages ----

  datatype Message = Message(kind: nat, prn: nat, tow: nat, alert: Bit, payload: seq<Bit>)

  predicate Fits(m: Message) {
    m.kind < 64 && m.prn < 64 && m.tow < 131072 && |m.payload| == 238
  }

  const PREAMBLE: nat := 0x8B

  function Head(m: Message): (h: seq<Bit>)
    requires Fits(m)
    ensures |h| == 276
  {
    BitsOf(PREAMBLE, 8) + BitsOf(m.prn, 6) + BitsOf(m.kind, 6) + BitsOf(m.tow, 17) + [m.alert] + m.payload
  }

  function Build(m: Message): (b: seq<Bit>)
    requires Fits(m)
    ensures |b| == 300
  {
    Head(m) + Crc24q.Crc(Head(m))
  }

  /** The message in 300 bits, if they start with the preamble and pass the checksum. */
  function Parsed(b: seq<Bit>): Option<Message>
    requires |b| == 300
  {
    if UInt(b[..8]) == PREAMBLE && Crc24q.Crc(b[..276]) == b[276..] then
      Some(Message(UInt(b[14..20]), UInt(b[8..14]), UInt(b[20..37]), b[37], b[38..276]))
    else None
  }

  lemma HeadParts(m: Message)
    requires Fits(m)
    ensures var h := Head(m);
      h[..8] == BitsOf(PREAMBLE, 8) && h[8..14] == BitsOf(m.prn, 6) && h[14..20] == BitsOf(m.kind, 6)
      && h[20..37] == BitsOf(m.tow, 17) && h[37] == m.alert && h[38..] == m.payload
  {
    hide BitsOf;
  }

  lemma Widths()
    ensures Pow2(6) == 64 && Pow2(8) == 256 && Pow2(17) == 131072
  {
    Pow2Sum(8, 8);
    Pow2Sum(16, 1);
  }

  /** A message built is read back with all its fields. */
  lemma MessageBack(m: Message)
    requires Fits(m)
    ensures Parsed(Build(m)) == Some(m)
  {
    hide Head, Crc24q.Crc, BitsOf, UInt;
    var b, h := Build(m), Head(m);
    HeadParts(m);
    assert b[..8] == h[..8] && b[8..14] == h[8..14] && b[14..20] == h[14..20] && b[20..37] == h[20..37];
    assert b[..276] == h && b[276..] == Crc24q.Crc(h) && b[38..276] == h[38..];
    Widths();
    UIntOfBitsOf(PREAMBLE, 8);
    UIntOfBitsOf(m.prn, 6);
    UIntOfBitsOf(m.kind, 6);
    UIntOfBitsOf(m.tow, 17);
  }

  /** Every message found from bit `i` on: past a whole message, or one bit on. */
  function Scan(bits: seq<Bit>, i: nat): seq<Message>
    decreases |bits| - i
  {
    if i + 300 > |bits| then []
    else match Parsed(bits[i..i + 300])
      case Some(m) => [m] + Scan(bits, i + 300)
      case None => Scan(bits, i + 1)
  }

  method ScanBits(bits: seq<Bit>) returns (msgs: seq<Message>)
    ensures msgs == Scan(bits, 0)
  {
    hide Parsed;
    msgs := [];
    var i := 0;
    while i + 300 <= |bits|
      invariant Scan(bits, 0) == msgs + Scan(bits, i)
      decreases |bits| - i
    {
      var m := Parsed(bits[i..i + 300]);
      if m.Some? {
        msgs := msgs + [m.value];
        i := i + 300;
      } else {
        i := i + 1;
      }
    }
  }

  /** Symbols read with a carrier sign and a pair phase. */
  function Phased(sym: seq<Bit>, flip: bool, off: nat): seq<Bit>
    requires off <= 1
  {
    var s := if off <= |sym| then sym[off..] else [];
    if flip then Complement(s) else s
  }

  function Attempt(sym: seq<Bit>, flip: bool, off: nat): seq<Message>
    requires off <= 1
  {
    Scan(V.Decoded(Phased(sym, flip, off), true, None, None), 0)
  }

  /** The first of the four readings that holds a message. */
  function Received(sym: seq<Bit>): seq<Message> {
    if Attempt(sym, false, 0) != [] then Attempt(sym, false, 0)
    else if Attempt(sym, false, 1) != [] then Attempt(sym, false, 1)
    else if Attempt(sym, true, 0) != [] then Attempt(sym, true, 0)
    else Attempt(sym, true, 1)
  }

  method DecodeMessages(sym: seq<Bit>) returns (msgs: seq<Message>)
    ensures msgs == Received(sym)
  {
    hide Scan, Attempt, V.Decoded;
    msgs := [];
    for k := 0 to 4
      invariant msgs == [] && forall j :: 0 <= j < k ==> Nth(sym, j) == []
    {
      var bits := V.Decode(Phased(sym, k >= 2, k % 2), true, None, None);
      msgs := ScanBits(bits);
      NthIs(sym, k);
      if msgs != [] {
        FirstFound(sym, k);
        return;
      }
    }
    FirstFound(sym, 3);
  }

  /** The four readings in the order they are tried. */
  function Nth(sym: seq<Bit>, k: nat): seq<Message>
    requires k < 4
  {
    Attempt(sym, k >= 2, k % 2)
  }

  lemma NthIs(sym: seq<Bit>, k: nat)
    requires k < 4
    ensures Nth(sym, k) == Scan(V.Decoded(Phased(sym, k >= 2, k % 2), true, None, None), 0)
  {
  }

  lemma FirstFound(sym: seq<Bit>, k: nat)
    requires k < 4 && (forall j :: 0 <= j < k ==> Nth(sym, j) == []) && (k == 3 || Nth(sym, k) != [])
    ensures Received(sym) == Nth(sym, k)
  {
    hide Attempt;
    assert Nth(sym, 0) == Attempt(sym, false, 0) && Nth(sym, 1) == Attempt(sym, false, 1);
    assert Nth(sym, 2) == Attempt(sym, true, 0) && Nth(sym, 3) == Attempt(sym, true, 1);
  }

  // ---- streams ----

  /** `bits` are the messages `ms`, one after the other, and perhaps part of one more. */
  predicate Holds(bits: seq<Bit>, ms: seq<Message>) {
    && 300 * |ms| <= |bits| < 300 * |ms| + 300
    && forall k :: 0 <= k < |ms| ==> Fits(ms[k]) && bits[300 * k..300 * k + 300] == Build(ms[k])
  }

  lemma {:induction false} ScanFinds(bits: seq<Bit>, ms: seq<Message>, k: nat)
    requires Holds(bits, ms) && k <= |ms|
    ensures Scan(bits, 300 * k) == ms[k..]
    decreases |ms| - k
  {
    hide Build, Parsed;
    if k < |ms| {
      MessageBack(ms[k]);
      assert Parsed(bits[300 * k..300 * k + 300]) == Some(ms[k]);
      ScanFinds(bits, ms, k + 1);
      assert ms[k..] == [ms[k]] + ms[k + 1..];
    }
  }

  lemma HalfDropped(sym: seq<Bit>, half: seq<Bit>)
    requires |sym| % 2 == 0 && |half| <= 1
    ensures V.Decoded(sym + half, true, None, None) == V.Decoded(sym, true, None, None)
  {
    assert V.Pairs(sym + half) == V.Pairs(sym);
  }

  lemma ScanShort(bits: seq<Bit>)
    requires |bits| < 300
    ensures Scan(bits, 0) == []
  {
  }

  lemma NoneShort(sym: seq<Bit>)
    requires |sym| < 600
    ensures Attempt(sym, false, 0) == Attempt(sym, false, 1) == Attempt(sym, true, 0) == Attempt(sym, true, 1) == []
  {
    hide V.Decoded, Scan;
    ScanShort(V.Decoded(Phased(sym, false, 0), true, None, None));
    ScanShort(V.Decoded(Phased(sym, false, 1), true, None, None));
    ScanShort(V.Decoded(Phased(sym, true, 0), true, None, None));
    ScanShort(V.Decoded(Phased(sym, true, 1), true, None, None));
  }

  /** The reading that fits the symbols gives the messages. */
  lemma RightReading(s: State, bits: seq<Bit>, ms: seq<Message>, half: seq<Bit>)
    requires Holds(bits, ms) && |half| <= 1
    ensures Scan(V.Decoded(Encode(s, bits, true) + half, true, None, None), 0) == ms
  {
    hide Encode, V.Decoded, Scan, Holds;
    Length(bits, ms);
    ScanFinds(bits, ms, 0);
    assert ms[0..] == ms;
    if ms == [] {
      ScanShort(V.Decoded(Encode(s, bits, true) + half, true, None, None));
    } else {
      O.UnknownStart(s, bits, true);
      HalfDropped(Encode(s, bits, true), half);
    }
  }

  /** Symbols that start on a message boundary, whatever state the encoder was in and wherever they end, give back
      every whole message and every header field, in order. */
  lemma StreamDecoded(s: State, bits: seq<Bit>, ms: seq<Message>, half: seq<Bit>)
    requires Holds(bits, ms) && |half| <= 1
    ensures Received(Encode(s, bits, true) + half) == ms
  {
    hide Encode, V.Decoded, Scan, Holds;
    var sym := Encode(s, bits, true) + half;
    Length(bits, ms);
    RightReading(s, bits, ms, half);
    assert Phased(sym, false, 0) == sym;
    if ms == [] {
      NoneShort(sym);
    }
  }

  lemma Length(bits: seq<Bit>, ms: seq<Message>)
    requires Holds(bits, ms)
    ensures 300 * |ms| <= |bits| < 300 * |ms| + 300
  {
  }

  /** The same symbols with the carrier inverted. The first upright reading is the complement of the bits sent
      and wins if a message happens to show there, the second is that of pairs cut one symbol late; otherwise
      the inverted reading gives back every message. */
  lemma InvertedReceived(s: State, bits: seq<Bit>, ms: seq<Message>, half: seq<Bit>)
    requires Holds(bits, ms) && |half| <= 1
    ensures var sym, upright := Complement(Encode(s, bits, true) + half), Scan(Complement(bits), 0);
      Received(sym) == if upright != [] then upright
                       else if Attempt(sym, false, 1) != [] then Attempt(sym, false, 1)
                       else ms
  {
    hide Encode, V.Decoded, Scan, Holds;
    var sym := Encode(s, bits, true) + half;
    Length(bits, ms);
    RightReading(s, bits, ms, half);
    assert Phased(Complement(sym), true, 0) == sym;
    if ms == [] {
      NoneShort(Complement(sym));
      ScanShort(Complement(bits));
    } else {
      O.InvertedStream(s, bits, true);
      HalfDropped(Complement(Encode(s, bits, true)), Complement(half));
      assert Complement(sym) == Complement(Encode(s, bits, true)) + Complement(half);
      assert Phased(Complement(sym), false, 0) == Complement(sym);
    }
  }

  /** A message is never one upside down: the preamble is not. */
  lemma NotInverted(m: Message)
    requires Fits(m)
    ensures Scan(Complement(Build(m)), 0) == []
  {
    hide Parsed;
    var b := Complement(Build(m));
    assert b[0..300] == b;
    PreambleInverted(m);
  }

  lemma PreambleInverted(m: Message)
    requires Fits(m)
    ensures Parsed(Complement(Build(m))) == None
  {
    hide Crc24q.Crc, BitsOf, UInt, Head;
    HeadParts(m);
    var b := Complement(Build(m));
    assert Build(m)[..8] == Head(m)[..8];
    PreambleBits();
    BitsOfUInt(b[..8]);
    assert b[0] != Build(m)[0] && b[..8][0] == b[0] && Build(m)[0] == Build(m)[..8][0];
  }

  lemma PreambleBits()
    ensures BitsOf(PREAMBLE, 8)[0]
  {
  }

  /** So a message alone, whatever it says and whatever state the encoder was in, is read from inverted
      symbols too: neither upright reading can hold one. */
  lemma InvertedSingle(s: State, m: Message)
    requires Fits(m)
    ensures Received(Complement(Encode(s, Build(m), true))) == [m]
  {
    var sym := Complement(Encode(s, Build(m), true));
    assert Build(m)[300 * 0..300 * 0 + 300] == Build(m);
    assert Holds(Build(m), [m]);
    hide Holds, Build, Encode, Scan, Received, V.Decoded;
    InvertedReceived(s, Build(m), [m], []);
    assert Encode(s, Build(m), true) + [] == Encode(s, Build(m), true);
    NotInverted(m);
    ScanShort(V.Decoded(Phased(sym, false, 1), true, None, None));
  }
}
