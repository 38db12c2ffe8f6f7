/** GPS LNAV: parity chained across words, the two solved bits of words 2 and 10, subframes, and the
    receiver that finds them (IS-GPS-200, section 20.3.5). */
module Lnav {
  import opened Bits

  type SourceBit = n: nat | 1 <= n <= 24 witness 1

  predicate Distinct(eq: seq<SourceBit>) {
    forall i, j :: 0 <= i < j < |eq| ==> eq[i] != eq[j]
  }

  /** The XOR of `start` and the first `n` listed source bits. */
  function XorOver(start: Bit, d: seq<Bit>, eq: seq<SourceBit>, n: nat): Bit
    requires |d| == 24 && n <= |eq|
  {
    if n == 0 then start else XorOver(start, d, eq, n - 1) != d[eq[n - 1] - 1]
  }

  /** Data bits as transmitted, or source bits as received: inverted when D30* is one. */
  function Invert(s: seq<Bit>, d30: Bit): (t: seq<Bit>)
    ensures |t| == |s|
  {
    seq(|s|, i requires 0 <= i < |s| => s[i] != d30)
  }

  /** A word whose last two computed parity bits are zero. */
  predicate EndsInZero(w: seq<Bit>)
    requires |w| == 30
  {
    !w[28] && !w[29]
  }

  /** What the builder is given for a word: all 24 source bits, or 22 and two to be solved. */
  datatype Item = Plain(bits: seq<Bit>) | Open(bits: seq<Bit>) {
    predicate Valid() {
      match this
      case Plain(s) => |s| == 24
      case Open(s) => |s| == 22
    }
  }

  predicate Items(items: seq<Item>) {
    forall k :: 0 <= k < |items| ==> items[k].Valid()
  }

  /** A parity code: for each of D25..D30 the source bits it adds up, and whether it folds in D29* or
      D30* of the previous word. */
  datatype Code = Code(eqs: seq<seq<SourceBit>>, foldsD29: seq<bool>) {

    /** What solving the two trailing bits rests on: D29 depends on source bit 24 alone, D30 on both. */
    predicate Valid() {
      && |eqs| == |foldsD29| == 6
      && Distinct(eqs[4]) && Distinct(eqs[5])
      && 23 !in eqs[4] && 24 in eqs[4]
      && 23 in eqs[5] && 24 in eqs[5]
    }

    function ParityBit(src: seq<Bit>, d29: Bit, d30: Bit, k: nat): Bit
      requires Valid() && |src| == 24 && k < 6
    {
      XorOver(if foldsD29[k] then d29 else d30, src, eqs[k], |eqs[k]|)
    }

    /** The first `n` parity bits of a word whose predecessor ended in D29*, D30*. */
    function Parity(src: seq<Bit>, d29: Bit, d30: Bit, n: nat := 6): (p: seq<Bit>)
      requires Valid() && |src| == 24 && n <= 6
      ensures |p| == n
    {
      seq(n, k requires 0 <= k < n => ParityBit(src, d29, d30, k))
    }

    function MakeWord(src: seq<Bit>, d29: Bit, d30: Bit): (w: seq<Bit>)
      requires Valid() && |src| == 24
      ensures |w| == 30
    {
      Invert(src, d30) + Parity(src, d29, d30)
    }

    predicate CheckParity(w: seq<Bit>, d29: Bit, d30: Bit)
      requires Valid() && |w| == 30
    {
      w[24..] == Parity(Invert(w[..24], d30), d29, d30)
    }

    method ParityLoop(src: seq<Bit>, d29: Bit, d30: Bit) returns (p: seq<Bit>)
      requires Valid() && |src| == 24
      ensures p == Parity(src, d29, d30)
    {
      p := [];
      for k := 0 to 6
        invariant p == Parity(src, d29, d30, k)
      {
        var acc := if foldsD29[k] then d29 else d30;
        for i := 0 to |eqs[k]|
          invariant acc == XorOver(if foldsD29[k] then d29 else d30, src, eqs[k], i)
        {
          acc := acc != src[eqs[k][i] - 1];
        }
        p := p + [acc];
      }
    }

    lemma WordChecks(src: seq<Bit>, d29: Bit, d30: Bit)
      requires Valid() && |src| == 24
      ensures CheckParity(MakeWord(src, d29, d30), d29, d30)
      ensures Invert(MakeWord(src, d29, d30)[..24], d30) == src
    {
      var w := MakeWord(src, d29, d30);
      assert w[..24] == Invert(src, d30);
      assert Invert(Invert(src, d30), d30) == src;
      assert w[24..] == Parity(src, d29, d30);
    }

    // ---- solving the two trailing bits ----

    /** The pair of trailing source bits that zeroes D29 and D30. */
    function Solution(base: seq<Bit>, d29: Bit, d30: Bit): (Bit, Bit)
      requires Valid() && |base| == 22
    {
      var open := base + [false, false];
      var t24 := ParityBit(open, d29, d30, 4);
      (ParityBit(open, d29, d30, 5) != t24, t24)
    }

    function Source(it: Item, d29: Bit, d30: Bit): (src: seq<Bit>)
      requires Valid() && it.Valid()
      ensures |src| == 24
    {
      match it
      case Plain(s) => s
      case Open(s) => s + [Solution(s, d29, d30).0, Solution(s, d29, d30).1]
    }

    /** For every 22 bits and every D29*, D30* exactly one pair of trailing bits zeroes D29 and D30. */
    lemma SolveUnique(base: seq<Bit>, d29: Bit, d30: Bit, t23: Bit, t24: Bit)
      requires Valid() && |base| == 22
      ensures EndsInZero(MakeWord(base + [t23, t24], d29, d30)) <==> (t23, t24) == Solution(base, d29, d30)
    {
      TrailingBits(if foldsD29[4] then d29 else d30, base, t23, t24, eqs[4]);
      TrailingBits(if foldsD29[5] then d29 else d30, base, t23, t24, eqs[5]);
    }

    /** The search over the four candidates never runs out. */
    method SolveTrailing(base: seq<Bit>, d29: Bit, d30: Bit) returns (src: seq<Bit>)
      requires Valid() && |base| == 22
      ensures src == Source(Open(base), d29, d30)
    {
      for a := 0 to 2
        invariant a == 1 ==> Solution(base, d29, d30).0
        invariant a < 2
      {
        for c := 0 to 2
          invariant c >= 1 ==> Solution(base, d29, d30) != (a == 1, false)
          invariant c == 2 ==> Solution(base, d29, d30) != (a == 1, true)
        {
          src := base + [a == 1, c == 1];
          SolveUnique(base, d29, d30, a == 1, c == 1);
          if EndsInZero(MakeWord(src, d29, d30)) {
            return;
          }
        }
      }
      assert false;
    }

    // ---- consecutive words ----

    /** The bits of the items from number `k` on, each word built on the last two bits of the one before. */
    function Transmit(items: seq<Item>, k: nat, d29: Bit, d30: Bit): (s: seq<Bit>)
      requires Valid() && Items(items) && k <= |items|
      ensures |s| == 30 * (|items| - k)
      decreases |items| - k
    {
      if k == |items| then []
      else
        var w := MakeWord(Source(items[k], d29, d30), d29, d30);
        w + Transmit(items, k + 1, w[28], w[29])
    }

    lemma Associate(out: seq<Bit>, items: seq<Item>, k: nat, d29: Bit, d30: Bit)
      requires Valid() && Items(items) && k < |items|
      ensures var w := MakeWord(Source(items[k], d29, d30), d29, d30);
        out + Transmit(items, k, d29, d30) == (out + w) + Transmit(items, k + 1, w[28], w[29])
    {
      var w := MakeWord(Source(items[k], d29, d30), d29, d30);
      var rest := Transmit(items, k + 1, w[28], w[29]);
      assert out + (w + rest) == (out + w) + rest;
    }

    method WordSource(it: Item, d29: Bit, d30: Bit) returns (src: seq<Bit>)
      requires Valid() && it.Valid()
      ensures src == Source(it, d29, d30)
    {
      match it
      case Plain(s) => src := s;
      case Open(s) => src := SolveTrailing(s, d29, d30);
    }

    /** Word by word, carrying D29 and D30. */
    method SendItems(items: seq<Item>) returns (out: seq<Bit>)
      requires Valid() && Items(items)
      ensures out == Transmit(items, 0, false, false)
    {
      hide Code.Transmit, Code.Source, Code.MakeWord, Code.Valid;
      var d29, d30 := false, false;
      ghost var whole := Transmit(items, 0, false, false);
      out := [];
      assert out + whole == whole;
      for k := 0 to |items|
        invariant whole == out + Transmit(items, k, d29, d30)
      {
        var src := WordSource(items[k], d29, d30);
        Associate(out, items, k, d29, d30);
        var w := MakeWord(src, d29, d30);
        out, d29, d30 := out + w, w[28], w[29];
      }
      TransmitEnd(items, d29, d30);
    }

    lemma TransmitEnd(items: seq<Item>, d29: Bit, d30: Bit)
      requires Valid() && Items(items)
      ensures Transmit(items, |items|, d29, d30) == []
    {
    }

    /** Parity of the words of `s` from number `k` on, the first of them following D29*, D30*. */
    predicate Checks(s: seq<Bit>, k: nat, d29: Bit, d30: Bit)
      requires Valid() && 30 * k <= |s| && |s| % 30 == 0
      decreases |s| - 30 * k
    {
      30 * k == |s| ||
      (var w := s[30 * k..30 * k + 30];
       CheckParity(w, d29, d30) && Checks(s, k + 1, w[28], w[29]))
    }

    /** The source words the builder uses from item `k` on. */
    function Filled(items: seq<Item>, k: nat, d29: Bit, d30: Bit): (srcs: seq<seq<Bit>>)
      requires Valid() && Items(items) && k <= |items|
      decreases |items| - k
    {
      if k == |items| then []
      else
        var src := Source(items[k], d29, d30);
        var w := MakeWord(src, d29, d30);
        [src] + Filled(items, k + 1, w[28], w[29])
    }

    /** Every word of a transmission passes parity, and its source bits are recovered. */
    lemma {:induction false} TransmitChecks(items: seq<Item>, k: nat, d29: Bit, d30: Bit, s: seq<Bit>)
      requires Valid() && Items(items) && k <= |items| && |s| == 30 * |items|
      requires s[30 * k..] == Transmit(items, k, d29, d30)
      ensures Checks(s, k, d29, d30)
      ensures SourceWords(s, k, d30) == Filled(items, k, d29, d30)
      decreases |items| - k
    {
      hide Code.MakeWord, Code.Source, Code.CheckParity, Invert, Code.Valid;
      if k < |items| {
        var src := Source(items[k], d29, d30);
        var w := MakeWord(src, d29, d30);
        assert s[30 * k..30 * k + 30] == s[30 * k..][..30] == w;
        assert s[30 * k..30 * k + 24] == w[..24];
        assert s[30 * (k + 1)..] == s[30 * k..][30..];
        WordChecks(src, d29, d30);
        TransmitChecks(items, k + 1, w[28], w[29], s);
      }
    }

    /** A transmission that ends with a solved word ends in two zero bits, so the next one may start
        from D29* = D30* = 0. */
    lemma {:induction false} EndsAtZero(items: seq<Item>, k: nat, d29: Bit, d30: Bit)
      requires Valid() && Items(items) && k < |items| && items[|items| - 1].Open?
      ensures var s := Transmit(items, k, d29, d30);
        !s[|s| - 2] && !s[|s| - 1]
      decreases |items| - k
    {
      hide Code.MakeWord, Code.Solution, Code.Valid;
      var w := MakeWord(Source(items[k], d29, d30), d29, d30);
      if k == |items| - 1 {
        var sol := Solution(items[k].bits, d29, d30);
        SolveUnique(items[k].bits, d29, d30, sol.0, sol.1);
      } else {
        EndsAtZero(items, k + 1, w[28], w[29]);
      }
    }

    // ---- subframes ----

    function Subframe(c: Content): (s: seq<Bit>)
      requires Valid() && c.Valid()
      ensures |s| == 300
    {
      Transmit(c.ToItems(), 0, false, false)
    }

    /** The subframe, upright or inverted, that `chunk` is; `at` says where it was found. */
    function SubframeIn(chunk: seq<Bit>, at: nat): Option<Hit>
      requires Valid() && |chunk| == 300
    {
      var inverted := chunk[..8] == Complement(PREAMBLE);
      if chunk[..8] != PREAMBLE && !inverted then None
      else
        var raw := Signed(chunk, inverted);
        if Checks(raw, 0, false, false) then
          var how := Invert(raw[30..54], raw[29]);
          Some(Hit(at, inverted, UInt(how[19..22]), UInt(how[..17]), raw))
        else None
    }

    function Scan(b: seq<Bit>, i: nat): seq<Hit>
      requires Valid()
      decreases |b| - i
    {
      if i + 300 > |b| then []
      else
        match SubframeIn(b[i..i + 300], i)
        case Some(h) => [h] + Scan(b, i + 300)
        case None => Scan(b, i + 1)
    }

    method CheckWords(raw: seq<Bit>) returns (ok: bool)
      requires Valid() && |raw| == 300
      ensures ok == Checks(raw, 0, false, false)
    {
      var d29, d30 := false, false;
      for k := 0 to 10
        invariant Checks(raw, 0, false, false) == Checks(raw, k, d29, d30)
      {
        var w := raw[30 * k..30 * k + 30];
        if !CheckParity(w, d29, d30) {
          return false;
        }
        d29, d30 := w[28], w[29];
      }
      ok := true;
    }

    method TryChunk(chunk: seq<Bit>, at: nat) returns (h: Option<Hit>)
      requires Valid() && |chunk| == 300
      ensures h == SubframeIn(chunk, at)
    {
      var inverted := chunk[..8] == Complement(PREAMBLE);
      if chunk[..8] != PREAMBLE && !inverted {
        return None;
      }
      var raw := Signed(chunk, inverted);
      var ok := CheckWords(raw);
      if !ok {
        return None;
      }
      var how := Invert(raw[30..54], raw[29]);
      h := Some(Hit(at, inverted, UInt(how[19..22]), UInt(how[..17]), raw));
    }

    method FindFrame(b: seq<Bit>) returns (hits: seq<Hit>)
      requires Valid()
      ensures hits == Scan(b, 0)
    {
      hits := [];
      var i := 0;
      while i + 300 <= |b|
        invariant 0 <= i
        invariant Scan(b, 0) == hits + Scan(b, i)
        decreases |b| - i
      {
        var h := TryChunk(b[i..i + 300], i);
        if h.None? {
          i := i + 1;
          continue;
        }
        assert hits + ([h.value] + Scan(b, i + 300)) == (hits + [h.value]) + Scan(b, i + 300);
        hits := hits + [h.value];
        i := i + 300;
      }
    }

    // ---- every subframe of a stream is found ----

    /** What the receiver should report for a subframe sent at bit `at`. */
    function Report(c: Content, at: nat, inverted: bool): Hit
      requires Valid() && c.Valid()
    {
      Hit(at, inverted, c.id % 8, (c.count + 1) % Pow2(17), Subframe(c))
    }

    /** The receiver recovers the ten source words the builder used. */
    lemma SourceWordsBack(c: Content)
      requires Valid() && c.Valid()
      ensures SourceWords(Subframe(c), 0, false) == Filled(c.ToItems(), 0, false, false)
    {
      assert Subframe(c)[0..] == Subframe(c);
      TransmitChecks(c.ToItems(), 0, false, false, Subframe(c));
    }

    lemma ChunkReport(raw: seq<Bit>, at: nat, inverted: bool, id: nat, count: nat)
      requires Valid() && |raw| == 300 && raw[..8] == PREAMBLE && Checks(raw, 0, false, false)
      requires UInt(Invert(raw[30..54], raw[29])[19..22]) == id
      requires UInt(Invert(raw[30..54], raw[29])[..17]) == count
      ensures SubframeIn(Signed(raw, inverted), at) == Some(Hit(at, inverted, id, count, raw))
    {
      var chunk := Signed(raw, inverted);
      SignedTwice(raw, inverted, 8);
      assert PREAMBLE[0] && !Complement(PREAMBLE)[0];
      assert (chunk[..8] == Complement(PREAMBLE)) == inverted;
    }

    lemma TlmStart(tlm: int)
      requires Valid()
      ensures MakeWord(TlmSource(tlm), false, false)[..8] == PREAMBLE
    {
      hide BitsOf, Code.Parity, Code.Valid;
    }

    lemma HowFields(count: int, id: int, d29: Bit, d30: Bit)
      requires Valid()
      ensures Open(HowBase(count, id)).Valid()
      ensures var how := Source(Open(HowBase(count, id)), d29, d30);
        UInt(how[19..22]) == id % 8 && UInt(how[..17]) == count % Pow2(17)
    {
      hide BitsOf, UInt, Code.Solution, Code.Valid;
      var how := Source(Open(HowBase(count, id)), d29, d30);
      assert how[19..22] == BitsOf(id, 3) && how[..17] == BitsOf(count, 17);
      UIntOfBitsOf(id, 3);
      UIntOfBitsOf(count, 17);
      assert Pow2(3) == 8;
    }

    lemma HeaderSlices(raw: seq<Bit>, w: seq<Bit>, v: seq<Bit>, rest: seq<Bit>)
      requires |w| == |v| == 30 && raw == w + v + rest
      ensures raw[..8] == w[..8] && raw[30..54] == v[..24] && raw[29] == w[29]
    {
    }

    /** A chunk that starts with the two header words of a subframe and passes parity is reported with
        the id and count written in the second word. */
    lemma HeaderReport(c: Content, raw: seq<Bit>, w: seq<Bit>, v: seq<Bit>, rest: seq<Bit>, at: nat, inverted: bool)
      requires Valid() && |raw| == 300 && |w| == |v| == 30 && raw == w + v + rest
      requires w == MakeWord(TlmSource(c.tlm), false, false)
      requires v == MakeWord(Source(Open(HowBase(c.count + 1, c.id)), w[28], w[29]), w[28], w[29])
      requires Checks(raw, 0, false, false)
      ensures SubframeIn(Signed(raw, inverted), at) == Some(Hit(at, inverted, c.id % 8, (c.count + 1) % Pow2(17), raw))
    {
      TlmStart(c.tlm);
      HowFields(c.count + 1, c.id, w[28], w[29]);
      hide *;
      var how := Source(Open(HowBase(c.count + 1, c.id)), w[28], w[29]);
      WordChecks(how, w[28], w[29]);
      HeaderSlices(raw, w, v, rest);
      ChunkReport(raw, at, inverted, c.id % 8, (c.count + 1) % Pow2(17));
    }

    lemma SubframeFound(c: Content, at: nat, inverted: bool)
      requires Valid() && c.Valid()
      ensures SubframeIn(Signed(Subframe(c), inverted), at) == Some(Report(c, at, inverted))
    {
      hide Code.SubframeIn, Code.MakeWord, Code.Valid, Code.Checks, Code.Transmit, TlmSource, Source;
      var items, raw := c.ToItems(), Subframe(c);
      assert raw[0..] == raw;
      TransmitChecks(items, 0, false, false, raw);
      var w := MakeWord(TlmSource(c.tlm), false, false);
      var v := MakeWord(Source(Open(HowBase(c.count + 1, c.id)), w[28], w[29]), w[28], w[29]);
      var rest := Transmit(items, 2, v[28], v[29]);
      FirstWords(c);
      assert raw == w + (v + rest);
      HeaderReport(c, raw, w, v, rest, at, inverted);
    }

    lemma FirstWords(c: Content)
      requires Valid() && c.Valid()
      ensures var w := MakeWord(TlmSource(c.tlm), false, false);
        var v := MakeWord(Source(Open(HowBase(c.count + 1, c.id)), w[28], w[29]), w[28], w[29]);
        Subframe(c) == w + (v + Transmit(c.ToItems(), 2, v[28], v[29]))
    {
      hide Code.MakeWord, Code.Valid, Code.Transmit, Code.Solution, Content.ToItems, TlmSource, HowBase;
      var w := MakeWord(TlmSource(c.tlm), false, false);
      TransmitBy(c.ToItems(), 0, false, false);
      TransmitBy(c.ToItems(), 1, w[28], w[29]);
    }

    lemma TransmitBy(items: seq<Item>, k: nat, d29: Bit, d30: Bit)
      requires Valid() && Items(items) && k < |items|
      ensures var w := MakeWord(Source(items[k], d29, d30), d29, d30);
        Transmit(items, k, d29, d30) == w + Transmit(items, k + 1, w[28], w[29])
    {
    }

    function Stream(cs: seq<Content>): (s: seq<Bit>)
      requires Valid() && forall k :: 0 <= k < |cs| ==> cs[k].Valid()
      ensures |s| == 300 * |cs|
    {
      if cs == [] then [] else Subframe(cs[0]) + Stream(cs[1..])
    }

    function Reports(cs: seq<Content>, at: nat, inverted: bool): seq<Hit>
      requires Valid() && forall k :: 0 <= k < |cs| ==> cs[k].Valid()
    {
      if cs == [] then [] else [Report(cs[0], at, inverted)] + Reports(cs[1..], at + 300, inverted)
    }

    lemma ScanHit(b: seq<Bit>, i: nat, h: Hit)
      requires Valid() && i + 300 <= |b| && SubframeIn(b[i..i + 300], i) == Some(h)
      ensures Scan(b, i) == [h] + Scan(b, i + 300)
    {
    }

    /** On a stream that starts with a subframe, sent upright or inverted, the scan returns every whole
        subframe in order, with its position, id, count and words. */
    lemma {:induction false} StreamFound(b: seq<Bit>, pre: seq<Bit>, cs: seq<Content>, tail: seq<Bit>, inverted: bool)
      requires Valid() && (forall k :: 0 <= k < |cs| ==> cs[k].Valid()) && |tail| < 300
      requires b == pre + Signed(Stream(cs), inverted) + tail
      ensures Scan(b, |pre|) == Reports(cs, |pre|, inverted)
      decreases cs
    {
      hide Code.Subframe, Code.SubframeIn, Code.Valid, Content.Valid, Code.Report, Signed;
      if cs != [] {
        var sf, rest := Subframe(cs[0]), Stream(cs[1..]);
        CutOne(b, pre, sf, rest, tail, inverted);
        SubframeFound(cs[0], |pre|, inverted);
        ScanHit(b, |pre|, Report(cs[0], |pre|, inverted));
        StreamFound(b, pre + Signed(sf, inverted), cs[1..], tail, inverted);
      }
    }
  }

  /** Inverting and inverting again, and cutting after `k` bits. */
  lemma SignedTwice(s: seq<Bit>, inverted: bool, k: nat)
    requires k <= |s|
    ensures Signed(Signed(s, inverted), inverted) == s
    ensures Signed(s, inverted)[..k] == Signed(s[..k], inverted)
  {
  }

  lemma CutOne(b: seq<Bit>, pre: seq<Bit>, sf: seq<Bit>, rest: seq<Bit>, tail: seq<Bit>, inverted: bool)
    requires b == pre + Signed(sf + rest, inverted) + tail
    ensures b[|pre|..|pre| + |sf|] == Signed(sf, inverted)
    ensures b == (pre + Signed(sf, inverted)) + Signed(rest, inverted) + tail
  {
    assert Signed(sf + rest, inverted) == Signed(sf, inverted) + Signed(rest, inverted);
  }

  const PREAMBLE: seq<Bit> := [true, false, false, false, true, false, true, true]

  /** A subframe found: where, whether inverted, and its fields. `raw` holds the ten 30-bit words. */
  datatype Hit = Hit(offset: nat, inverted: bool, id: nat, count: nat, raw: seq<Bit>)

  function Signed(s: seq<Bit>, inverted: bool): (t: seq<Bit>)
    ensures |t| == |s|
  {
    if inverted then Complement(s) else s
  }

  function TlmSource(tlm: int): (s: seq<Bit>)
    ensures |s| == 24
  {
    PREAMBLE + BitsOf(tlm, 14) + [false, false]
  }

  /** TOW count, alert 0, anti-spoof 1, subframe id: the 22 free bits of the hand-over word. */
  function HowBase(count: int, id: int): (s: seq<Bit>)
    ensures |s| == 22
  {
    BitsOf(count, 17) + [false, true] + BitsOf(id, 3)
  }

  /** What a subframe carries: the TLM message, its TOW count, its id and the source words 3 to 10. */
  datatype Content = Content(tlm: int, count: int, id: int, words: seq<seq<Bit>>) {
    predicate Valid() {
      |words| == 8 && forall k :: 0 <= k < 8 ==> |words[k]| == 24
    }

    /** Ten words; of word 10 only the first 22 bits are used. The hand-over word announces the next
        subframe's count. */
    function ToItems(): (items: seq<Item>)
      requires Valid()
      ensures |items| == 10 && Items(items)
      ensures items[0] == Plain(TlmSource(tlm)) && items[1] == Open(HowBase(count + 1, id))
      ensures items[9].Open?
    {
      [Plain(TlmSource(tlm)), Open(HowBase(count + 1, id))]
      + seq(8, k requires 0 <= k < 8 => if k == 7 then Open(words[k][..22]) else Plain(words[k]))
    }
  }

  /** Source bits of the words of `s` from number `k` on. */
  function SourceWords(s: seq<Bit>, k: nat, d30: Bit): seq<seq<Bit>>
    requires 30 * k <= |s| && |s| % 30 == 0
    decreases |s| - 30 * k
  {
    if 30 * k == |s| then []
    else [Invert(s[30 * k..30 * k + 24], d30)] + SourceWords(s, k + 1, s[30 * k + 29])
  }

  /** Changing source bit `b` changes exactly the equations that list it. */
  lemma {:induction false} FlipBit(start: Bit, d: seq<Bit>, b: SourceBit, x: Bit, eq: seq<SourceBit>, n: nat)
    requires |d| == 24 && Distinct(eq) && n <= |eq|
    ensures XorOver(start, d[b - 1 := x], eq, n) == (XorOver(start, d, eq, n) != (b in eq[..n] && d[b - 1] != x))
  {
    if n != 0 {
      assert eq[..n] == eq[..n - 1] + [eq[n - 1]];
      FlipBit(start, d, b, x, eq, n - 1);
    }
  }

  lemma TrailingBits(start: Bit, base: seq<Bit>, t23: Bit, t24: Bit, eq: seq<SourceBit>)
    requires |base| == 22 && Distinct(eq)
    ensures XorOver(start, base + [t23, t24], eq, |eq|)
            == ((XorOver(start, base + [false, false], eq, |eq|) != (23 in eq && t23)) != (24 in eq && t24))
  {
    var open := base + [false, false];
    assert eq[..|eq|] == eq;
    FlipBit(start, open, 23, t23, eq, |eq|);
    FlipBit(start, open[22 := t23], 24, t24, eq, |eq|);
    assert open[22 := t23][23 := t24] == base + [t23, t24];
  }

  // ---- the GPS instance ----

  const GPS := Code(
    [[1, 2, 3, 5, 6, 10, 11, 12, 13, 14, 17, 18, 20, 23],
     [2, 3, 4, 6, 7, 11, 12, 13, 14, 15, 18, 19, 21, 24],
     [1, 3, 4, 5, 7, 8, 12, 13, 14, 15, 16, 19, 20, 22],
     [2, 4, 5, 6, 8, 9, 13, 14, 15, 16, 17, 20, 21, 23],
     [1, 3, 5, 6, 7, 9, 10, 14, 15, 16, 17, 18, 21, 22, 24],
     [3, 5, 6, 8, 9, 10, 11, 13, 15, 19, 22, 23, 24]],
    [true, false, true, false, false, true])

  predicate Ascending(eq: seq<SourceBit>) {
    forall i, j :: 0 <= i && j == i + 1 < |eq| ==> eq[i] < eq[j]
  }

  lemma {:induction false} AscendingDistinct(eq: seq<SourceBit>, n: nat)
    requires n <= |eq| && Ascending(eq)
    ensures forall i, j :: 0 <= i < j < n ==> eq[i] < eq[j]
  {
    if n >= 2 {
      AscendingDistinct(eq, n - 1);
      assert eq[n - 2] < eq[n - 1];
    }
  }

  /** The GPS parity equations have the property everything above rests on. */
  lemma GpsValid()
    ensures GPS.Valid()
  {
    assert Ascending(GPS.eqs[4]);
    AscendingDistinct(GPS.eqs[4], |GPS.eqs[4]|);
    assert Ascending(GPS.eqs[5]);
    AscendingDistinct(GPS.eqs[5], |GPS.eqs[5]|);
  }
}
