/** Galileo I/NAV: pages of two convolutionally coded, interleaved halves, and the receiver that
    finds and decodes them. */
module Inav {
  import opened Bits
  import opened Conv
  import Crc = Crc24q
  import Free = FreeDecoder
  import V = Viterbi
  import Opt = Optimality

  const SYNC: seq<Bit> := [false, true, false, true, true, false, false, false, false, false]

  /** Written column by column (30 columns of 8), sent row by row. */
  function Interleave(s: seq<Bit>): (r: seq<Bit>)
    requires |s| == 240
    ensures |r| == 240
  {
    seq(240, k requires 0 <= k < 240 => s[k % 30 * 8 + k / 30])
  }

  function Deinterleave(s: seq<Bit>): (r: seq<Bit>)
    requires |s| == 240
    ensures |r| == 240
  {
    seq(240, k requires 0 <= k < 240 => s[k % 8 * 30 + k / 8])
  }

  lemma InterleaverUndone(s: seq<Bit>)
    requires |s| == 240
    ensures Deinterleave(Interleave(s)) == s && Interleave(Deinterleave(s)) == s
  {
    forall k | 0 <= k < 240
      ensures Deinterleave(Interleave(s))[k] == s[k]
      ensures Interleave(Deinterleave(s))[k] == s[k]
    {
      DivModUnique(k % 8 * 30 + k / 8, 30, k % 8, k / 8);
      DivModUnique(k % 30 * 8 + k / 30, 8, k % 30, k / 30);
    }
  }

  // ---- pages ----

  /** The 196 bits the checksum covers. */
  function CrcInput(dataK: seq<Bit>, dataJ: seq<Bit>, osnma: seq<Bit>, sar: seq<Bit>, spare: seq<Bit>): seq<Bit> {
    [false, false] + dataK + [true, false] + dataJ + osnma + sar + spare
  }

  function EvenData(word: seq<Bit>): (d: seq<Bit>)
    requires |word| == 128
    ensures |d| == 120
  {
    [false, false] + word[..112] + Zeros(6)
  }

  function OddData(word: seq<Bit>, osnma: seq<Bit>): (d: seq<Bit>)
    requires |word| == 128 && |osnma| == 40
    ensures |d| == 120
  {
    var crc := Crc.Crc(CrcInput(word[..112], word[112..], osnma, Zeros(22), Zeros(2)));
    [true, false] + word[112..] + osnma + Zeros(22) + Zeros(2) + crc + Zeros(8) + Zeros(6)
  }

  function Half(data: seq<Bit>): (s: seq<Bit>)
    requires |data| == 120
    ensures |s| == 250
  {
    SYNC + Interleave(Encode(ZERO, data, true))
  }

  /** One nominal page of 500 symbols for a 128-bit word and 40 authentication bits. */
  function BuildPage(word: seq<Bit>, osnma: seq<Bit>): (s: seq<Bit>)
    requires |word| == 128 && |osnma| == 40
    ensures |s| == 500
  {
    Half(EvenData(word)) + Half(OddData(word, osnma))
  }

  // ---- decoding one page ----

  datatype Page = Page(wtype: nat, crcOk: bool, word: seq<Bit>, osnma: seq<Bit>, pageBits: seq<Bit>)

  /** What a pair of decoded 120-bit halves says; nothing when the even/odd flags are wrong. */
  function TryBits(even: seq<Bit>, odd: seq<Bit>): Option<Page> {
    if |even| < 120 || |odd| < 120 then None
    else if even[0] || !odd[0] then None
    else
      var dataK, dataJ := even[2..114], odd[2..18];
      var crc := Crc.Crc(CrcInput(dataK, dataJ, odd[18..58], odd[58..80], odd[80..82]));
      var word := dataK + dataJ;
      Some(Page(UInt(word[..6]), crc == odd[82..106], word, odd[18..58], even[..120] + odd[..120]))
  }

  /** Result of the page decoder on the two deinterleaved halves: the clean-channel decoder first, the
      Viterbi decoder when its checksum fails. */
  function DecodeHalves(even: seq<Bit>, odd: seq<Bit>): Option<Page> {
    var quick := TryBits(Free.Recovered(even, true), Free.Recovered(odd, true));
    if quick.Some? && quick.value.crcOk then quick
    else
      var full := TryBits(V.Decoded(even, true, Some(ZERO), Some(ZERO)), V.Decoded(odd, true, Some(ZERO), Some(ZERO)));
      if full.Some? then full else quick
  }

  function DecodedPage(evenSyms: seq<Bit>, oddSyms: seq<Bit>): Option<Page> {
    if |evenSyms| != 250 || |oddSyms| != 250 then None
    else DecodeHalves(Deinterleave(evenSyms[10..]), Deinterleave(oddSyms[10..]))
  }

  method CheckBits(even: seq<Bit>, odd: seq<Bit>) returns (p: Option<Page>)
    ensures p == TryBits(even, odd)
  {
    if |even| < 120 || |odd| < 120 {
      return None;
    }
    if even[0] || !odd[0] {
      return None;
    }
    var dataK, dataJ := even[2..114], odd[2..18];
    var crc := Crc.ByteTable(CrcInput(dataK, dataJ, odd[18..58], odd[58..80], odd[80..82]));
    var word := dataK + dataJ;
    p := Some(Page(UInt(word[..6]), crc == odd[82..106], word, odd[18..58], even[..120] + odd[..120]));
  }

  method DecodePage(evenSyms: seq<Bit>, oddSyms: seq<Bit>) returns (p: Option<Page>)
    ensures p == DecodedPage(evenSyms, oddSyms)
  {
    if |evenSyms| != 250 || |oddSyms| != 250 {
      return None;
    }
    var even, odd := Deinterleave(evenSyms[10..]), Deinterleave(oddSyms[10..]);
    var evenBits := Free.TableDecode(even, true);
    var oddBits := Free.TableDecode(odd, true);
    var quick := CheckBits(evenBits, oddBits);
    if quick.Some? && quick.value.crcOk {
      return quick;
    }
    evenBits := V.Decode(even, true, Some(ZERO), Some(ZERO));
    oddBits := V.Decode(odd, true, Some(ZERO), Some(ZERO));
    var full := CheckBits(evenBits, oddBits);
    if full.Some? && full.value.crcOk {
      return full;
    }
    p := if full.Some? then full else quick;
  }

  // ---- scanning a stream ----

  datatype Message = Message(page: Page, symIdx: nat)

  /** The page that starts at symbol `i`, if both synchronisation patterns and the checksum are right. */
  function PageAt(stream: seq<Bit>, i: nat): Option<Page>
    requires i + 500 <= |stream|
  {
    if stream[i..i + 10] == SYNC && stream[i + 250..i + 260] == SYNC then
      var p := DecodedPage(stream[i..i + 250], stream[i + 250..i + 500]);
      if p.Some? && p.value.crcOk then p else None
    else None
  }

  function Scan(stream: seq<Bit>, i: nat): seq<Message>
    decreases |stream| - i
  {
    if i + 500 > |stream| then []
    else
      match PageAt(stream, i)
      case Some(p) => [Message(p, i)] + Scan(stream, i + 500)
      case None => Scan(stream, i + 1)
  }

  /** Pages found with the carrier sign as received or, when there are none, inverted. */
  function Received(sym: seq<Bit>): seq<Message> {
    if Scan(sym, 0) != [] then Scan(sym, 0) else Scan(Complement(sym), 0)
  }

  method DecodeMessages(sym: seq<Bit>) returns (msgs: seq<Message>)
    ensures msgs == Received(sym)
  {
    var flip := 0;
    while flip < 2
      invariant 0 <= flip <= 2
      invariant flip == 1 ==> Scan(sym, 0) == []
      invariant flip == 2 ==> Scan(sym, 0) == [] && Scan(Complement(sym), 0) == []
    {
      var stream := if flip == 0 then sym else Complement(sym);
      msgs := ScanStream(stream);
      if msgs != [] {
        return;
      }
      flip := flip + 1;
    }
    msgs := [];
  }

  method ScanStream(stream: seq<Bit>) returns (msgs: seq<Message>)
    ensures msgs == Scan(stream, 0)
  {
    msgs := [];
    var i := 0;
    while i + 500 <= |stream|
      invariant 0 <= i
      invariant msgs + Scan(stream, i) == Scan(stream, 0)
      decreases |stream| - i
    {
      ghost var found := PageAt(stream, i);
      if stream[i..i + 10] == SYNC {
        if stream[i + 250..i + 260] == SYNC {
          var page := DecodePage(stream[i..i + 250], stream[i + 250..i + 500]);
          if page.Some? && page.value.crcOk {
            assert msgs + ([Message(page.value, i)] + Scan(stream, i + 500))
                   == (msgs + [Message(page.value, i)]) + Scan(stream, i + 500);
            msgs := msgs + [Message(page.value, i)];
            i := i + 500;
            continue;
          }
        }
      }
      assert found == None;
      i := i + 1;
    }
    assert Scan(stream, i) == [];
  }

  // ---- round trips ----

  /** The page a receiver should report. */
  function Sent(word: seq<Bit>, osnma: seq<Bit>): Page
    requires |word| == 128 && |osnma| == 40
  {
    Page(UInt(word[..6]), true, word, osnma, EvenData(word) + OddData(word, osnma))
  }

  lemma BitsAccepted(word: seq<Bit>, osnma: seq<Bit>)
    requires |word| == 128 && |osnma| == 40
    ensures TryBits(EvenData(word), OddData(word, osnma)) == Some(Sent(word, osnma))
  {
    var even, odd := EvenData(word), OddData(word, osnma);
    assert even[2..114] == word[..112];
    assert odd[2..18] == word[112..];
    assert odd[18..58] == osnma;
    assert odd[58..80] == Zeros(22);
    assert odd[80..82] == Zeros(2);
    var crc := Crc.Crc(CrcInput(word[..112], word[112..], osnma, Zeros(22), Zeros(2)));
    assert odd[82..106] == crc;
    assert word == word[..112] + word[112..];
    assert even[..120] == even && odd[..120] == odd;
  }

  /** A page without symbol errors comes back with its type, word and authentication bits. */
  lemma PageRoundTrip(word: seq<Bit>, osnma: seq<Bit>)
    requires |word| == 128 && |osnma| == 40
    ensures var page := BuildPage(word, osnma);
      && page[..10] == SYNC && page[250..260] == SYNC
      && DecodedPage(page[..250], page[250..]) == Some(Sent(word, osnma))
  {
    var even, odd := EvenData(word), OddData(word, osnma);
    var page := BuildPage(word, osnma);
    assert page[..250] == Half(even) && page[250..] == Half(odd);
    assert page[..10] == Half(even)[..10] && page[250..260] == Half(odd)[..10];
    assert Half(even)[10..] == Interleave(Encode(ZERO, even, true));
    assert Half(odd)[10..] == Interleave(Encode(ZERO, odd, true));
    InterleaverUndone(Encode(ZERO, even, true));
    InterleaverUndone(Encode(ZERO, odd, true));
    Free.EncodingUndone(even, true);
    Free.EncodingUndone(odd, true);
    BitsAccepted(word, osnma);
  }

  /** Up to four wrong symbols in each half: the page comes back exactly, unless the clean-channel attempt passes
      its checksum before, and then that is taken. */
  lemma PageCorrected(word: seq<Bit>, osnma: seq<Bit>, even: seq<Bit>, odd: seq<Bit>)
    requires |word| == 128 && |osnma| == 40 && |even| == |odd| == 240
    requires Dist(Encode(ZERO, EvenData(word), true), even) <= 4
    requires Dist(Encode(ZERO, OddData(word, osnma), true), odd) <= 4
    ensures var quick := TryBits(Free.Recovered(even, true), Free.Recovered(odd, true));
      DecodeHalves(even, odd) == if quick.Some? && quick.value.crcOk then quick else Some(Sent(word, osnma))
  {
    var e, o := EvenData(word), OddData(word, osnma);
    assert e[114..] == Zeros(6) && o[114..] == Zeros(6);
    Opt.FourErrorsCorrected(e, even, true);
    Opt.FourErrorsCorrected(o, odd, true);
    BitsAccepted(word, osnma);
  }

  datatype Content = Content(word: seq<Bit>, osnma: seq<Bit>)

  /** The contents of a page of full length. */
  type Full = c: Content | |c.word| == 128 && |c.osnma| == 40 witness Content(Zeros(128), Zeros(40))

  predicate WellFormed(pages: seq<Content>) {
    forall c :: c in pages ==> |c.word| == 128 && |c.osnma| == 40
  }

  function Stream(pages: seq<Content>): (s: seq<Bit>)
    requires WellFormed(pages)
    ensures |s| == 500 * |pages|
  {
    if pages == [] then [] else BuildPage(pages[0].word, pages[0].osnma) + Stream(pages[1..])
  }

  function Expected(pages: seq<Content>, at: nat): seq<Message>
    requires WellFormed(pages)
  {
    if pages == [] then []
    else [Message(Sent(pages[0].word, pages[0].osnma), at)] + Expected(pages[1..], at + 500)
  }

  lemma ScanHit(stream: seq<Bit>, i: nat, p: Page)
    requires i + 500 <= |stream| && PageAt(stream, i) == Some(p)
    ensures Scan(stream, i) == [Message(p, i)] + Scan(stream, i + 500)
  {
  }

  lemma PageFound(stream: seq<Bit>, pre: seq<Bit>, c: Content, post: seq<Bit>)
    requires |c.word| == 128 && |c.osnma| == 40
    requires stream == pre + BuildPage(c.word, c.osnma) + post
    ensures PageAt(stream, |pre|) == Some(Sent(c.word, c.osnma))
  {
    var page := BuildPage(c.word, c.osnma);
    var i := |pre|;
    assert stream[i..i + 250] == page[..250] && stream[i + 250..i + 500] == page[250..];
    assert stream[i..i + 10] == page[..10] && stream[i + 250..i + 260] == page[250..260];
    PageRoundTrip(c.word, c.osnma);
  }

  lemma {:induction false} ScanFrom(stream: seq<Bit>, pre: seq<Bit>, pages: seq<Content>, tail: seq<Bit>)
    requires WellFormed(pages) && |tail| < 500
    requires stream == pre + Stream(pages) + tail
    ensures Scan(stream, |pre|) == Expected(pages, |pre|)
    decreases pages
  {
    if pages != [] {
      var c, rest := pages[0], pages[1..];
      var page := BuildPage(c.word, c.osnma);
      assert stream == pre + page + (Stream(rest) + tail);
      assert stream == (pre + page) + Stream(rest) + tail;
      PageFound(stream, pre, c, Stream(rest) + tail);
      ScanHit(stream, |pre|, Sent(c.word, c.osnma));
      ScanFrom(stream, pre + page, rest, tail);
    }
  }

  /** Every page of a stream that begins on a page boundary is reported, in order, with its position;
      an incomplete page at the end is not. */
  lemma StreamRoundTrip(pages: seq<Content>, tail: seq<Bit>)
    requires WellFormed(pages) && |tail| < 500
    ensures Received(Stream(pages) + tail) == Expected(pages, 0)
  {
    var stream := Stream(pages) + tail;
    ScanFrom(stream, [], pages, tail);
    if pages == [] {
      assert |Complement(stream)| < 500;
    } else {
      assert Scan(stream, 0)[0] == Expected(pages, 0)[0];
    }
  }

  lemma {:induction false} StreamSnoc(pages: seq<Content>, c: Content)
    requires WellFormed(pages + [c])
    ensures WellFormed(pages) && WellFormed([c])
    ensures Stream(pages + [c]) == Stream(pages) + BuildPage(c.word, c.osnma)
  {
    hide BuildPage;
    assert c in pages + [c] && forall d :: d in pages ==> d in pages + [c];
    if pages == [] {
      assert [] + [c] == [c] && [c][1..] == [];
    } else {
      assert (pages + [c])[1..] == pages[1..] + [c];
      StreamSnoc(pages[1..], c);
    }
  }

  lemma {:induction false} ExpectedAt(pages: seq<Content>, at: nat, i: nat)
    requires WellFormed(pages)
    ensures |Expected(pages, at)| == |pages|
    ensures i < |pages| ==> Expected(pages, at)[i] == Message(Sent(pages[i].word, pages[i].osnma), at + 500 * i)
  {
    if pages != [] {
      ExpectedAt(pages[1..], at + 500, if i > 0 then i - 1 else 0);
    }
  }

  /** With the carrier inverted every page is reported too, unless the symbols show a page upside down. */
  lemma StreamInverted(pages: seq<Content>, tail: seq<Bit>)
    requires WellFormed(pages) && |tail| < 500
    ensures var sym := Complement(Stream(pages) + tail);
      Received(sym) == if Scan(sym, 0) != [] then Scan(sym, 0) else Expected(pages, 0)
  {
    hide Scan;
    var stream := Stream(pages) + tail;
    assert Complement(Complement(stream)) == stream;
    ScanFrom(stream, [], pages, tail);
  }
}
