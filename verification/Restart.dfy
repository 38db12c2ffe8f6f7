/** Stream restart: a navigation stream started later carries the same symbols at the same instants as one
    started earlier. Every system follows a schedule of equal blocks on its own time grid; GPS CNAV and SBAS
    send theirs through a convolutional encoder whose register remembers six bits. Message contents are
    functions of the schedule's own numbers. Times are GPS seconds of week, BeiDou's its own. */
module Restart {
  import opened Bits
  import opened Conv
  import opened Reals
  import D = Distance
  import Crc24q
  import Viterbi
  import Optimality
  import Cnav
  import Inav
  import G = Glonass
  import D1 = BdsD1
  import Lnav

  // ---- schedules of equal blocks ----

  type Schedule<!T> = int -> seq<T>

  ghost predicate Uniform<T>(block: Schedule<T>, len: nat) {
    forall k :: |block(k)| == len
  }

  /** Blocks `first` to `first + n`, one after the other. */
  function Stream<T>(block: Schedule<T>, first: int, n: nat): seq<T> {
    if n == 0 then [] else Stream(block, first, n - 1) + block(first + n - 1)
  }

  /** Stream `b` carries what stream `a` carries `off` symbols on, wherever both have symbols. */
  predicate Continues<T(==)>(a: seq<T>, b: seq<T>, off: int) {
    forall i :: 0 <= i < |b| && 0 <= off + i < |a| ==> b[i] == a[off + i]
  }

  /** The same for the symbols `lo` to `hi` of `b`. */
  predicate Agree<T(==)>(a: seq<T>, b: seq<T>, off: int, lo: int, hi: int) {
    forall i :: lo <= i < hi && 0 <= i < |b| && 0 <= off + i < |a| ==> b[i] == a[off + i]
  }

  lemma {:induction false} StreamAt<T>(block: Schedule<T>, len: nat, first: int, n: nat, i: nat)
    requires Uniform(block, len) && len > 0
    ensures |Stream(block, first, n)| == n * len
    ensures i < n * len ==> Stream(block, first, n)[i] == block(first + i / len)[i % len]
    decreases n
  {
    if n != 0 {
      StreamAt(block, len, first, n - 1, i);
      assert |block(first + n - 1)| == len;
      assert n * len == (n - 1) * len + len;
      if (n - 1) * len <= i < n * len {
        DivModUnique(i, len, n - 1, i - (n - 1) * len);
      }
    }
  }

  lemma Later(len: nat, d: nat, i: nat)
    requires len > 0
    ensures (d * len + i) / len == d + i / len && (d * len + i) % len == i % len
  {
    assert d * len + i == len * (d + i / len) + i % len;
    DivModUnique(d * len + i, len, d + i / len, i % len);
  }

  lemma StreamsContinue<T>(block: Schedule<T>, len: nat, f1: int, n1: nat, f2: int, n2: nat)
    requires Uniform(block, len) && len > 0 && f1 <= f2
    ensures Continues(Stream(block, f1, n1), Stream(block, f2, n2), (f2 - f1) * len)
  {
    var d := f2 - f1;
    StreamAt(block, len, f1, n1, 0);
    StreamAt(block, len, f2, n2, 0);
    hide Stream;
    forall i | 0 <= i < n2 * len && 0 <= d * len + i < n1 * len
      ensures Stream(block, f2, n2)[i] == Stream(block, f1, n1)[d * len + i]
    {
      StreamAt(block, len, f2, n2, i);
      StreamAt(block, len, f1, n1, d * len + i);
      Later(len, d, i);
    }
  }

  lemma {:induction false} StreamSplit<T>(block: Schedule<T>, first: int, m: nat, n: nat)
    ensures Stream(block, first, m + n) == Stream(block, first, m) + Stream(block, first + m, n)
    decreases n
  {
    if n != 0 {
      StreamSplit(block, first, m, n - 1);
    }
  }

  // ---- times ----

  function Max0(n: int): nat {
    if n > 0 then n else 0
  }

  /** Floored division. */
  function Steps(t: real, period: int): int
    requires period > 0
  {
    (t / period as real).Floor
  }

  datatype System = GpsLnav | GpsCnav(period: int) | Galileo | Beidou(grid: int) | Glonass | Sbas {
    predicate Valid() {
      (GpsCnav? ==> period in {6, 12}) && (Beidou? ==> grid in {3, 6})
    }

    /** When symbol 0 of a stream asked for at `t` leaves the satellite. */
    function StreamT0(t: real): int
      requires Valid()
    {
      match this
      case GpsLnav => Steps(t, 6) * 6
      case GpsCnav(period) => Steps(t, period) * period
      case Galileo => var r := Round(t); r - (r - 1) % 2
      case Beidou(grid) => Steps(t - 14.0, grid) * grid + 14
      case Glonass => Steps(t, 2) * 2
      case Sbas => t.Floor
    }
  }

  // ---- Galileo I/NAV ----

  const CYCLE: seq<nat> := [1, 2, 3, 4, 5, 6, 1, 2, 3, 4, 5, 0]

  function PageIndex(tow: int): (p: nat)
    ensures p < 15
  {
    (tow - 1) % 30 / 2
  }

  /** Pages by word type, time of week and week number: 500 symbols each. */
  type Pages = (nat, int, int) -> seq<Bit>

  /** Word type of the page in the two seconds from absolute second `2 k + 1` on. */
  function InavType(k: int): nat {
    CYCLE[PageIndex((2 * k + 1) % 604800) % 12]
  }

  /** The page sent in those two seconds. */
  function InavPage(page: Pages, k: int): seq<Bit> {
    var s := 2 * k + 1;
    page(InavType(k), s % 604800, s / 604800)
  }

  function InavBlocks(page: Pages): (f: Schedule<Bit>) {
    (k: int) => InavPage(page, k)
  }

  /** Number of the first page: its absolute second is `2 k + 1`. */
  function InavFirst(week: int, tow0Sow: real): int {
    (week * 604800 + Galileo.StreamT0(tow0Sow) - 1) / 2
  }

  function InavCount(duration: real): nat {
    Max0(Ceil((Ceil(duration) + 30) as real / 2.0))
  }

  function InavSymbols(page: Pages, week: int, tow0Sow: real, duration: real): seq<Bit> {
    Stream(InavBlocks(page), InavFirst(week, tow0Sow), InavCount(duration))
  }

  /** Pages start on odd seconds. */
  lemma InavGrid(week: int, t: real)
    ensures 2 * InavFirst(week, t) + 1 == week * 604800 + Galileo.StreamT0(t)
  {
    hide Round;
    var r := Round(t);
    assert week * 604800 + r - (r - 1) % 2 - 1 == 2 * (week * 302400 + (r - 1) / 2);
  }

  lemma InavPageAt(page: Pages, week: int, ab: int, k: int)
    requires 2 * k + 1 == week * 604800 + ab
    ensures InavBlocks(page)(k) == page(CYCLE[PageIndex(ab % 604800) % 12], ab % 604800, week + ab / 604800)
  {
    DivModUnique(2 * k + 1, 604800, week + ab / 604800, ab % 604800);
  }

  lemma InavUniform(page: Pages)
    requires forall ty, tow, wk :: |page(ty, tow, wk)| == 500
    ensures Uniform(InavBlocks(page), 500)
  {
  }

  /** The generator's loop over pages, week by week. */
  method InavStream(page: Pages, week: int, tow0Sow: real, duration: real) returns (syms: seq<Bit>)
    ensures syms == InavSymbols(page, week, tow0Sow, duration)
  {
    hide InavBlocks, InavFirst, Round;
    var npages := InavCount(duration);
    var r := Round(tow0Sow);
    var tow0 := r - (r - 1) % 2;
    syms := [];
    ghost var k0 := InavFirst(week, tow0Sow);
    InavGrid(week, tow0Sow);
    for p := 0 to npages
      invariant syms == Stream(InavBlocks(page), k0, p)
    {
      var ab := tow0 + 2 * p;
      var wk, tow := week + ab / 604800, ab % 604800;
      InavPageAt(page, week, ab, k0 + p);
      syms := syms + page(CYCLE[PageIndex(tow) % 12], tow, wk);
    }
  }

  /** An I/NAV stream restarted later continues the earlier one exactly, 250 symbols a second, across the end
      of the week too. */
  lemma InavRestart(page: Pages, w1: int, t1: real, d1: real, w2: int, t2: real, d2: real)
    requires forall ty, tow, wk :: |page(ty, tow, wk)| == 500
    requires w1 * 604800 + Galileo.StreamT0(t1) <= w2 * 604800 + Galileo.StreamT0(t2)
    ensures Continues(InavSymbols(page, w1, t1, d1), InavSymbols(page, w2, t2, d2),
                      (w2 * 604800 + Galileo.StreamT0(t2) - w1 * 604800 - Galileo.StreamT0(t1)) * 250)
  {
    InavUniform(page);
    InavGrid(w1, t1);
    InavGrid(w2, t2);
    hide InavBlocks, InavFirst, InavCount, System.StreamT0, Continues, Stream;
    StreamsContinue(InavBlocks(page), 500, InavFirst(w1, t1), InavCount(d1), InavFirst(w2, t2), InavCount(d2));
  }

  lemma InavTypeTurns(k: int)
    ensures InavType(k) == CYCLE[k % 15 % 12]
  {
    ModOfMultiple(2, k, 302400);
    ModNested(k, 15, 20160);
    var r := k % 302400;
    DivModUnique(2 * k + 1, 604800, k / 302400, 2 * r + 1);
    ModOfMultiple(2, r, 15);
  }

  /** Any 30 seconds of pages carry every word type from 0 to 6, wherever they start: the ephemeris is complete
      in a stream that long. */
  lemma InavComplete(k: int, ty: nat) returns (j: int)
    requires ty <= 6
    ensures k <= j < k + 15 && InavType(j) == ty
  {
    var at := if ty == 0 then 11 else ty - 1;
    j := k + (at - k) % 15;
    assert j % 15 == at;
    InavTypeTurns(j);
  }

  /** Contents of the pages by word type, time of week and week number. */
  type Contents = (nat, int, int) -> Inav.Full

  function InavBuilt(content: Contents): Pages {
    (ty: nat, tow: int, wk: int) => Inav.BuildPage(content(ty, tow, wk).word, content(ty, tow, wk).osnma)
  }

  /** What the page in the two seconds from absolute second `2 k + 1` on holds. */
  function InavContent(content: Contents, k: int): (c: Inav.Full)
    ensures |c.word| == 128 && |c.osnma| == 40
  {
    content(InavType(k), (2 * k + 1) % 604800, (2 * k + 1) / 604800)
  }

  function InavContents(content: Contents, first: int, n: nat): (cs: seq<Inav.Content>)
    ensures |cs| == n && Inav.WellFormed(cs)
    ensures forall i :: 0 <= i < n ==> cs[i] == InavContent(content, first + i)
  {
    if n == 0 then [] else InavContents(content, first, n - 1) + [InavContent(content, first + n - 1)]
  }

  lemma {:induction false} InavPages(content: Contents, first: int, n: nat)
    ensures Stream(InavBlocks(InavBuilt(content)), first, n) == Inav.Stream(InavContents(content, first, n))
    decreases n
  {
    hide Inav.BuildPage, InavContent;
    if n != 0 {
      InavPages(content, first, n - 1);
      var c := InavContent(content, first + n - 1);
      Inav.StreamSnoc(InavContents(content, first, n - 1), c);
      InavBlock(content, first + n - 1);
    }
  }

  lemma InavBlock(content: Contents, k: int)
    ensures var c := InavContent(content, k);
      InavBlocks(InavBuilt(content))(k) == Inav.BuildPage(c.word, c.osnma)
  {
    hide Inav.BuildPage;
  }

  /** From a built I/NAV stream the receiver reports every page, in order, at its position, with word and
      authentication bits; from the stream of the other carrier sign it reports the same, unless those symbols
      themselves hold a page, and then what they hold. */
  lemma InavReceived(content: Contents, week: int, sow: real, duration: real)
    ensures var sym := InavSymbols(InavBuilt(content), week, sow, duration);
      var r, other := Inav.Received(sym), Inav.Scan(Complement(sym), 0);
      && |r| == InavCount(duration)
      && (forall i :: 0 <= i < |r| ==>
            var c := InavContent(content, InavFirst(week, sow) + i);
            r[i] == Inav.Message(Inav.Sent(c.word, c.osnma), 500 * i))
      && Inav.Received(Complement(sym)) == if other != [] then other else r
  {
    hide Inav.Received, Inav.Expected, Inav.Sent, Inav.Scan, InavFirst, InavCount, Stream, Inav.Stream, InavContent,
      InavBlocks;
    var first, n := InavFirst(week, sow), InavCount(duration);
    var cs := InavContents(content, first, n);
    InavPages(content, first, n);
    Inav.StreamRoundTrip(cs, []);
    Inav.StreamInverted(cs, []);
    assert Inav.Stream(cs) + [] == Inav.Stream(cs);
    Inav.ExpectedAt(cs, 0, 0);
    forall i | 0 <= i < n
      ensures Inav.Expected(cs, 0)[i] == Inav.Message(Inav.Sent(cs[i].word, cs[i].osnma), 500 * i)
    {
      Inav.ExpectedAt(cs, 0, i);
    }
  }

  /** The pages carry the word type they are asked for. */
  ghost predicate TypesTold(content: Contents) {
    forall ty, tow, wk :: ty <= 6 ==> UInt(content(ty, tow, wk).word[..6]) == ty
  }

  /** Pages of empty words. */
  function EmptyWord(ty: nat): Inav.Full {
    Inav.Content(BitsOf(ty, 6) + Zeros(122), Zeros(40))
  }

  lemma SmallWord(ty: nat)
    requires ty <= 6
    ensures UInt(BitsOf(ty, 6)) == ty
  {
    hide BitsOf, UInt;
    UIntOfBitsOf(ty, 6);
    assert Pow2(6) == 64;
  }

  /** There are such pages. */
  lemma EmptyWordsTold()
    ensures TypesTold((ty: nat, tow: int, wk: int) => EmptyWord(ty))
  {
    forall ty: nat | ty <= 6
      ensures UInt(EmptyWord(ty).word[..6]) == ty
    {
      assert EmptyWord(ty).word[..6] == BitsOf(ty, 6);
      SmallWord(ty);
    }
  }

  /** So a receiver that listens from any second on gets every word type from 0 to 6, when the pages carry the
      type they were asked for. */
  lemma InavEphemeris(content: Contents, week: int, sow: real, duration: real, ty: nat) returns (i: nat)
    requires duration >= 0.0 && ty <= 6
    requires TypesTold(content)
    ensures var r := Inav.Received(InavSymbols(InavBuilt(content), week, sow, duration));
      i < |r| && r[i].page.wtype == ty && r[i].page.crcOk
  {
    hide InavSymbols, InavBuilt, InavFirst, InavType, InavContent, TypesTold, Inav.Received, Inav.Scan, UInt;
    InavReceived(content, week, sow, duration);
    assert InavCount(duration) >= 15;
    var j := InavComplete(InavFirst(week, sow), ty);
    i := j - InavFirst(week, sow);
    TypeTold(content, j);
  }

  lemma TypeTold(content: Contents, k: int)
    requires TypesTold(content) && InavType(k) <= 6
    ensures UInt(InavContent(content, k).word[..6]) == InavType(k)
  {
    hide InavType, UInt;
  }

  // ---- GLONASS ----

  /** Strings by number and absolute second: 200 symbols each. */
  type Strings = (int, int) -> seq<Bit>

  /** Second of the Moscow day at absolute second `t`. */
  function MoscowTime(t: int): int {
    (t - 18 + 10800) % 86400
  }

  /** Number of the string in the two seconds from absolute second `2 k` on. */
  function StringNumber(k: int): int {
    MoscowTime(2 * k) / 2 % 15 + 1
  }

  /** The string sent in those two seconds. */
  function GlonassString(text: Strings, k: int): seq<Bit> {
    text(StringNumber(k), 2 * k)
  }

  function GlonassBlocks(text: Strings): Schedule<Bit> {
    (k: int) => GlonassString(text, k)
  }

  /** Strings count up from 1 to 15 and around, and number 1 starts a frame on every half minute of Moscow time. */
  lemma StringsTurn(k: int)
    ensures 1 <= StringNumber(k) <= 15 && StringNumber(k + 1) == StringNumber(k) % 15 + 1
    ensures StringNumber(k) == 1 <==> MoscowTime(2 * k) % 30 == 0
  {
    StringNumberIs(k);
    StringNumberIs(k + 1);
    ModNext(k + 5391, 15);
  }

  lemma StringNumberIs(k: int)
    ensures StringNumber(k) == (k + 5391) % 15 + 1
    ensures MoscowTime(2 * k) % 30 == 2 * ((k + 5391) % 15)
  {
    var u := k + 5391;
    assert 2 * k - 18 + 10800 == 2 * u;
    ModOfMultiple(2, u, 43200);
    ModNested(u, 15, 2880);
    ModOfMultiple(2, u % 43200, 15);
  }

  method GlonassStream(text: Strings, week: int, tow0Sow: real, duration: real) returns (syms: seq<Bit>)
    ensures syms == GlonassSymbols(text, week, tow0Sow, duration)
  {
    var nstr := Ceil((Ceil(duration) + 30) as real / 2.0);
    var t0 := Steps(tow0Sow, 2) * 2;
    syms := [];
    for i := 0 to Max0(nstr)
      invariant syms == Stream(GlonassBlocks(text), week * 302400 + Steps(tow0Sow, 2), i)
    {
      var t := week * 604800 + t0 + 2 * i;
      var tod := (t - 18 + 10800) % 86400;
      assert t == 2 * (week * 302400 + Steps(tow0Sow, 2) + i);
      syms := syms + text(tod / 2 % 15 + 1, t);
    }
  }

  /** Number of the first string: its absolute second is twice that. */
  function GlonassFirst(week: int, sow: real): int {
    week * 302400 + Steps(sow, 2)
  }

  function GlonassCount(duration: real): nat {
    Max0(Ceil((Ceil(duration) + 30) as real / 2.0))
  }

  function GlonassSymbols(text: Strings, week: int, tow0Sow: real, duration: real): seq<Bit> {
    Stream(GlonassBlocks(text), GlonassFirst(week, tow0Sow), GlonassCount(duration))
  }

  lemma GlonassUniform(text: Strings)
    requires forall n, t :: |text(n, t)| == 200
    ensures Uniform(GlonassBlocks(text), 200)
  {
  }

  /** A GLONASS stream restarted later continues the earlier one exactly, 100 symbols a second. */
  lemma GlonassRestart(text: Strings, w1: int, t1: real, d1: real, w2: int, t2: real, d2: real)
    requires forall n, t :: |text(n, t)| == 200
    requires w1 * 604800 + Glonass.StreamT0(t1) <= w2 * 604800 + Glonass.StreamT0(t2)
    ensures Continues(GlonassSymbols(text, w1, t1, d1), GlonassSymbols(text, w2, t2, d2),
                      (w2 * 604800 + Glonass.StreamT0(t2) - w1 * 604800 - Glonass.StreamT0(t1)) * 100)
  {
    GlonassUniform(text);
    hide GlonassBlocks, Stream, Continues, Uniform, Steps;
    StreamsContinue(GlonassBlocks(text), 200, GlonassFirst(w1, t1), GlonassCount(d1), GlonassFirst(w2, t2),
                    GlonassCount(d2));
  }

  /** Data bits of the strings by number and absolute second. */
  type StringData = (int, int) -> StringBits

  type StringBits = s: seq<Bit> | |s| == 76 witness Zeros(76)

  function GlonassBuilt(data: StringData): Strings {
    (n: int, t: int) => G.StringSymbols(G.HammingString(data(n, t)))
  }

  /** Data bits of the string in the two seconds from `2 k` on. */
  function GlonassContent(data: StringData, k: int): (d: seq<Bit>)
    ensures |d| == 76
  {
    data(StringNumber(k), 2 * k)
  }

  function GlonassContents(data: StringData, first: int, n: nat): (ds: seq<seq<Bit>>)
    ensures |ds| == n
    ensures forall i :: 0 <= i < n ==> |ds[i]| == 76 && ds[i] == GlonassContent(data, first + i)
  {
    if n == 0 then [] else GlonassContents(data, first, n - 1) + [GlonassContent(data, first + n - 1)]
  }

  lemma {:induction false} GlonassStrings(data: StringData, first: int, n: nat)
    ensures Stream(GlonassBlocks(GlonassBuilt(data)), first, n) == G.Stream(GlonassContents(data, first, n))
    decreases n
  {
    hide G.HammingString, G.StringSymbols, GlonassContent;
    if n != 0 {
      GlonassStrings(data, first, n - 1);
      G.StreamSnoc(GlonassContents(data, first, n - 1), GlonassContent(data, first + n - 1));
      GlonassBlock(data, first + n - 1);
    }
  }

  lemma GlonassBlock(data: StringData, k: int)
    ensures GlonassBlocks(GlonassBuilt(data))(k) == G.StringSymbols(G.HammingString(GlonassContent(data, k)))
  {
    hide G.HammingString, G.StringSymbols;
  }

  /** From a built GLONASS stream of any start, of either carrier sign, the receiver collects every string under
      its number. */
  lemma GlonassReceived(data: StringData, week: int, sow: real, duration: real)
    ensures var sym := GlonassSymbols(GlonassBuilt(data), week, sow, duration);
      var frame := G.Numbered(GlonassContents(data, GlonassFirst(week, sow), GlonassCount(duration)));
      G.Best(sym, 200).frame == frame && G.Best(Complement(sym), 200).frame == frame
  {
    hide G.Best, G.Numbered, G.Stream, Stream, GlonassBlocks, GlonassContents;
    var ds := GlonassContents(data, GlonassFirst(week, sow), GlonassCount(duration));
    GlonassStrings(data, GlonassFirst(week, sow), GlonassCount(duration));
    G.CleanStreamDecoded(G.Stream(ds), ds);
  }

  /** The strings carry the number they are asked for. */
  ghost predicate NumbersTold(data: StringData) {
    forall n, t :: 1 <= n <= 15 ==> UInt(data(n, t)[..4]) == n
  }

  /** A string of nothing but its number. */
  function EmptyString(n: int): StringBits {
    BitsOf(n, 4) + Zeros(72)
  }

  /** There are such strings. */
  lemma EmptyStringsTold()
    ensures NumbersTold((n: int, t: int) => EmptyString(n))
  {
    forall n | 1 <= n <= 15
      ensures UInt(EmptyString(n)[..4]) == n
    {
      assert EmptyString(n)[..4] == BitsOf(n, 4);
      SmallNumber(n);
    }
  }

  lemma SmallNumber(n: int)
    requires 1 <= n <= 15
    ensures UInt(BitsOf(n, 4)) == n
  {
    hide BitsOf, UInt;
    UIntOfBitsOf(n, 4);
    assert Pow2(4) == 16;
  }

  /** So it gets all fifteen strings of a frame from any stream whose strings carry their numbers: of each
      number the first one sent. */
  lemma GlonassFrame(data: StringData, week: int, sow: real, duration: real, m: nat) returns (k: int)
    requires duration >= 0.0 && 1 <= m <= 15
    requires NumbersTold(data)
    ensures GlonassFirst(week, sow) <= k < GlonassFirst(week, sow) + 15 && StringNumber(k) == m
    ensures var frame := G.Best(GlonassSymbols(GlonassBuilt(data), week, sow, duration), 200).frame;
      m in frame && frame[m] == data(m, 2 * k)
  {
    hide G.Best, G.Numbered, GlonassSymbols, GlonassBuilt, GlonassFirst, UInt, StringNumber;
    var first := GlonassFirst(week, sow);
    GlonassReceived(data, week, sow, duration);
    assert GlonassCount(duration) >= 15;
    k := first + (m - 1 - (first + 5391)) % 15;
    forall j | first <= j <= k
      ensures 1 <= StringNumber(j) <= 15 && (StringNumber(j) == m <==> j == k)
    {
      StringNumberIs(j);
      TurnOnce(first + 5391, j - first, m - 1);
    }
    var ds := GlonassContents(data, first, GlonassCount(duration));
    forall i: nat | i <= k - first
      ensures UInt(ds[i][..4]) == StringNumber(first + i)
    {
      assert ds[i] == data(StringNumber(first + i), 2 * (first + i));
    }
    G.NumberedFirst(ds, k - first);
  }

  lemma TurnOnce(a: int, i: nat, r: int)
    requires 0 <= r < 15 && i <= (r - a) % 15
    ensures (a + i) % 15 == r <==> i == (r - a) % 15
  {
  }

  // ---- BeiDou D1 and D2 ----

  /** Subframes by number and second of the BeiDou week: 300 symbols each. */
  type Subframes = (int, int) -> seq<Bit>

  /** Number of D1 subframe `k` of the BeiDou scale. */
  function SubframeNumber(k: int): int {
    6 * k % 604800 / 6 % 5 + 1
  }

  function D1Subframe(sub: Subframes, k: int): seq<Bit> {
    sub(SubframeNumber(k), 6 * k % 604800)
  }

  /** Subframes count up from 1 to 5 and around, across the end of the week too, and number 1 starts on every
      half minute. */
  lemma SubframesTurn(k: int)
    ensures 1 <= SubframeNumber(k) <= 5 && SubframeNumber(k + 1) == SubframeNumber(k) % 5 + 1
    ensures SubframeNumber(k) == 1 <==> 6 * k % 604800 % 30 == 0
  {
    SubframeNumberIs(k);
    SubframeNumberIs(k + 1);
    ModNext(k, 5);
  }

  lemma SubframeNumberIs(k: int)
    ensures SubframeNumber(k) == k % 5 + 1 && 6 * k % 604800 % 30 == 6 * (k % 5)
  {
    ModOfMultiple(6, k, 100800);
    ModNested(k, 5, 20160);
    ModOfMultiple(6, k % 100800, 5);
  }

  /** A D2 frame: its five subframes, in three seconds. */
  function D2Frame(sub: Subframes, k: int): seq<Bit> {
    var fs := 3 * k % 604800;
    sub(1, fs) + sub(2, fs) + sub(3, fs) + sub(4, fs) + sub(5, fs)
  }

  function BeidouBlock(sub: Subframes, d2: bool): Schedule<Bit> {
    if d2 then (k: int) => D2Frame(sub, k) else (k: int) => D1Subframe(sub, k)
  }

  function Grid(d2: bool): int {
    if d2 then 3 else 6
  }

  /** The generator asked for a stream at `tow0` seconds of the BeiDou week. */
  method BeidouStream(sub: Subframes, tow0: real, duration: real, d2: bool) returns (syms: seq<Bit>)
    ensures syms == BeidouSymbols(sub, tow0, duration, d2)
  {
    hide Steps, D1Subframe, D2Frame;
    var grid := Grid(d2);
    var k0 := Steps(tow0, grid);
    var sow0 := k0 * grid;
    var n := BeidouCount(duration, d2);
    syms := [];
    for i := 0 to n
      invariant syms == Stream(BeidouBlock(sub, d2), k0, i)
    {
      if d2 {
        assert sow0 + 3 * i == 3 * (k0 + i);
        var frame := D2Loop(sub, k0 + i, (sow0 + 3 * i) % 604800);
        syms := syms + frame;
      } else {
        var sow := (sow0 + 6 * i) % 604800;
        D1At(sub, k0 + i, sow0 + 6 * i);
        syms := syms + sub(sow / 6 % 5 + 1, sow);
      }
    }
  }

  lemma D1At(sub: Subframes, k: int, t: int)
    requires t == 6 * k
    ensures D1Subframe(sub, k) == sub(t % 604800 / 6 % 5 + 1, t % 604800)
  {
  }

  /** The five subframes of a D2 frame, one after the other. */
  method D2Loop(sub: Subframes, k: int, fs: int) returns (frame: seq<Bit>)
    requires fs == 3 * k % 604800
    ensures frame == D2Frame(sub, k)
  {
    frame := [];
    for sf := 1 to 6
      invariant frame == (if sf > 1 then sub(1, fs) else []) + (if sf > 2 then sub(2, fs) else [])
                       + (if sf > 3 then sub(3, fs) else []) + (if sf > 4 then sub(4, fs) else [])
                       + (if sf > 5 then sub(5, fs) else [])
    {
      frame := frame + sub(sf, fs);
    }
  }

  function BeidouCount(duration: real, d2: bool): nat {
    Max0(Ceil((Ceil(duration) + 30) as real / Grid(d2) as real))
  }

  function BeidouSymbols(sub: Subframes, tow0: real, duration: real, d2: bool): seq<Bit> {
    Stream(BeidouBlock(sub, d2), Steps(tow0, Grid(d2)), BeidouCount(duration, d2))
  }

  lemma BeidouUniform(sub: Subframes, d2: bool)
    requires forall sf, sow :: |sub(sf, sow)| == 300
    ensures Uniform(BeidouBlock(sub, d2), if d2 then 1500 else 300)
  {
  }

  /** A BeiDou stream restarted later with the same week argument continues the earlier one exactly, 50
      symbols a second on D1 and 500 on D2. */
  lemma BeidouRestart(sub: Subframes, t1: real, dur1: real, t2: real, dur2: real, d2: bool)
    requires forall sf, sow :: |sub(sf, sow)| == 300
    requires Beidou(Grid(d2)).StreamT0(t1) <= Beidou(Grid(d2)).StreamT0(t2)
    ensures var sys := Beidou(Grid(d2));
      Continues(BeidouSymbols(sub, t1 - 14.0, dur1, d2), BeidouSymbols(sub, t2 - 14.0, dur2, d2),
                (sys.StreamT0(t2) - sys.StreamT0(t1)) * (if d2 then 500 else 50))
  {
    var f, len := BeidouBlock(sub, d2), if d2 then 1500 else 300;
    BeidouUniform(sub, d2);
    hide BeidouBlock, BeidouCount, Stream, Continues, Uniform, Steps;
    var g := Grid(d2);
    StreamsContinue(f, len, Steps(t1 - 14.0, g), BeidouCount(dur1, d2), Steps(t2 - 14.0, g), BeidouCount(dur2, d2));
  }

  /** Subframe numbers and seconds of week repeat every week. */
  lemma BeidouWeekly(sub: Subframes, d2: bool, k: int)
    ensures BeidouBlock(sub, d2)(k + 604800 / Grid(d2)) == BeidouBlock(sub, d2)(k)
  {
    var g := Grid(d2);
    assert g * (k + 604800 / g) == g * k + 604800;
    DivModUnique(g * k + 604800, 604800, g * k / 604800 + 1, g * k % 604800);
  }

  /** Across the end of the week, with the week argument advanced, every symbol of the restarted stream and the
      earlier stream's symbol of the same instant have the same place in the subframe of the same number and
      second of week: they differ where the contents of that subframe differ from one week to the next, and
      nowhere else. */
  lemma BeidouWeekEnd(sub: Subframes, next: Subframes, t1: real, dur1: real, t2: real, dur2: real, d2: bool,
                      off: nat, i: nat)
    requires forall sf, sow :: |sub(sf, sow)| == 300 && |next(sf, sow)| == 300
    requires var sys := Beidou(Grid(d2));
      off == (604800 + sys.StreamT0(t2) - sys.StreamT0(t1)) * (if d2 then 500 else 50)
    requires i < |BeidouSymbols(next, t2 - 14.0, dur2, d2)|
    ensures var len := if d2 then 1500 else 300;
      var k := Steps(t2 - 14.0, Grid(d2)) + i / len;
      var a, b := BeidouSymbols(sub, t1 - 14.0, dur1, d2), BeidouSymbols(next, t2 - 14.0, dur2, d2);
      && |BeidouBlock(sub, d2)(k)| == |BeidouBlock(next, d2)(k)| == len
      && b[i] == BeidouBlock(next, d2)(k)[i % len]
      && (off + i < |a| ==> a[off + i] == BeidouBlock(sub, d2)(k)[i % len])
  {
    var g := Grid(d2);
    BeidouUniform(sub, d2);
    BeidouUniform(next, d2);
    forall k
      ensures BeidouBlock(sub, d2)(k + 604800 / g) == BeidouBlock(sub, d2)(k)
    {
      BeidouWeekly(sub, d2, k);
    }
    WeekOffset(t1, t2, d2);
    hide BeidouBlock, Stream, Steps, Uniform, BeidouCount, System.StreamT0, Grid;
    var k1, k2 := Steps(t1 - 14.0, g), Steps(t2 - 14.0, g);
    InStep(BeidouBlock(sub, d2), BeidouBlock(next, d2), if d2 then 1500 else 300, 604800 / g, k1,
           BeidouCount(dur1, d2), k2, BeidouCount(dur2, d2), off, i);
  }

  lemma WeekOffset(t1: real, t2: real, d2: bool)
    ensures var g, sys, len := Grid(d2), Beidou(Grid(d2)), if d2 then 1500 else 300;
      (604800 + sys.StreamT0(t2) - sys.StreamT0(t1)) * (if d2 then 500 else 50)
      == (Steps(t2 - 14.0, g) + 604800 / g - Steps(t1 - 14.0, g)) * len
  {
    hide Steps;
  }

  /** Two schedules of the same block length, the first of which repeats after `w` blocks: symbol `i` of a
      stream of the second is in the place of the first one's symbol `w` blocks further on. */
  lemma InStep<T>(f: Schedule<T>, h: Schedule<T>, len: nat, w: int, k1: int, n1: nat, k2: int, n2: nat,
                  off: nat, i: nat)
    requires Uniform(f, len) && Uniform(h, len) && len > 0 && i < |Stream(h, k2, n2)|
    requires off == (k2 + w - k1) * len && forall k :: f(k + w) == f(k)
    ensures var k := k2 + i / len;
      && |f(k)| == |h(k)| == len && Stream(h, k2, n2)[i] == h(k)[i % len]
      && (off + i < |Stream(f, k1, n1)| ==> Stream(f, k1, n1)[off + i] == f(k)[i % len])
  {
    hide Stream;
    StreamAt(h, len, k2, n2, i);
    StreamAt(f, len, k1, n1, off + i);
    Later(len, k2 + w - k1, i);
    assert f(k2 + i / len + w) == f(k2 + i / len);
  }

  /** Payloads of the subframes by number and second of the BeiDou week. */
  type Payloads = (int, int) -> seq<Bit>

  function BeidouBuilt(payload: Payloads): Subframes {
    (sf: int, sow: int) => D1.Subframe(sf, payload(sf, sow), sow)
  }

  /** What D1 subframe `k` of the BeiDou scale carries. */
  function BeidouContent(payload: Payloads, k: int): D1.Content {
    D1.Content(SubframeNumber(k), payload(SubframeNumber(k), 6 * k % 604800), 6 * k % 604800)
  }

  function BeidouContents(payload: Payloads, first: int, n: nat): (cs: seq<D1.Content>)
    ensures |cs| == n
    ensures forall i :: 0 <= i < n ==> cs[i] == BeidouContent(payload, first + i)
  {
    seq(n, i requires 0 <= i < n => BeidouContent(payload, first + i))
  }

  lemma BeidouHeard(payload: Payloads, k: int)
    ensures var b := BeidouBlock(BeidouBuilt(payload), false)(k);
      |b| == 300 && D1.Heard(BeidouContent(payload, k), b)
  {
    SubframesTurn(k);
    hide D1.Subframe, D1.Heard, SubframeNumber;
    var c := BeidouContent(payload, k);
    assert BeidouBlock(BeidouBuilt(payload), false)(k) == D1.Subframe(c.id, c.payload, c.sow);
    D1.SentHeard(c);
  }

  lemma BeidouBuiltUniform(payload: Payloads)
    ensures Uniform(BeidouBlock(BeidouBuilt(payload), false), 300)
  {
    forall k
      ensures |BeidouBlock(BeidouBuilt(payload), false)(k)| == 300
    {
      BeidouHeard(payload, k);
    }
  }

  lemma BeidouAllHeard(payload: Payloads, k0: int, n: nat)
    ensures D1.AllHeard(BeidouContents(payload, k0, n), Stream(BeidouBlock(BeidouBuilt(payload), false), k0, n))
  {
    var f := BeidouBlock(BeidouBuilt(payload), false);
    BeidouBuiltUniform(payload);
    hide D1.Heard, BeidouBlock, BeidouBuilt, BeidouContent, Stream, Uniform;
    StreamAt(f, 300, k0, n, 0);
    forall i | 0 <= i < n
      ensures D1.Heard(BeidouContent(payload, k0 + i), Stream(f, k0, n)[300 * i..300 * i + 300])
    {
      BeidouHeard(payload, k0 + i);
      BlockInStream(f, 300, k0, n, i);
    }
  }

  /** From a built D1 stream of any start the receiver reports every subframe of the schedule in order; from the
      symbols of the other carrier sign too, unless those themselves hold a subframe. */
  lemma BeidouReceived(payload: Payloads, tow0: real, duration: real)
    ensures var sym := BeidouSymbols(BeidouBuilt(payload), tow0, duration, false);
      var r, other := D1.Received(sym), D1.Scan(Complement(sym), 0);
      && |r| == BeidouCount(duration, false)
      && (forall i :: 0 <= i < |r| ==> D1.Reports(r[i], BeidouContent(payload, Steps(tow0, 6) + i)))
      && D1.Received(Complement(sym)) == if other != [] then other else r
  {
    var k0, n := Steps(tow0, 6), BeidouCount(duration, false);
    var cs, bits := BeidouContents(payload, k0, n), Stream(BeidouBlock(BeidouBuilt(payload), false), k0, n);
    assert BeidouSymbols(BeidouBuilt(payload), tow0, duration, false) == bits;
    BeidouAllHeard(payload, k0, n);
    hide D1.Received, D1.Scan, D1.Reports, D1.Heard, BeidouBlock, BeidouBuilt, BeidouContent, Stream, Steps,
      BeidouSymbols, BeidouCount;
    D1.StreamRoundTrip(cs, bits);
  }

  // ---- GPS LNAV ----

  /** Frames by the count of their first subframe and their page number: 1500 bits each. */
  type Frames = (int, int) -> seq<Bit>

  function LnavFrame(frame: Frames, k: int): seq<Bit> {
    frame(k * 5, k % 25 + 1)
  }

  function Need(duration: real): nat {
    50 * Max0(Ceil(duration) + 30)
  }

  function LnavSymbols(frame: Frames, tow0Sow: real, duration: real): seq<Bit>
    requires forall tc, pg :: |frame(tc, pg)| == 1500
  {
    var tc0 := Steps(tow0Sow, 6);
    var skip := (tc0 - tc0 / 5 * 5) * 300;
    var n := (skip + Need(duration)) / 1500 + 2;
    StreamAt((k: int) => LnavFrame(frame, k), 1500, tc0 / 5, n, 0);
    Stream((k: int) => LnavFrame(frame, k), tc0 / 5, n)[skip..skip + Need(duration)]
  }

  /** Whole frames from the frame boundary on, cut to the subframe asked for. */
  method LnavStream(frame: Frames, tow0Sow: real, duration: real) returns (syms: seq<Bit>)
    requires forall tc, pg :: |frame(tc, pg)| == 1500
    ensures syms == LnavSymbols(frame, tow0Sow, duration)
  {
    var tc0 := Steps(tow0Sow, 6);
    var f0 := tc0 / 5;
    var skip := (tc0 - f0 * 5) * 300;
    var need := Need(duration);
    var n := (skip + need) / 1500 + 2;
    var bits: seq<Bit> := [];
    for k := 0 to n
      invariant bits == Stream((k: int) => LnavFrame(frame, k), f0, k)
    {
      bits := bits + frame((f0 + k) * 5, (f0 + k) % 25 + 1);
    }
    StreamAt((k: int) => LnavFrame(frame, k), 1500, f0, n, 0);
    syms := bits[skip..skip + need];
  }

  /** Symbol `i` of a stream: bit `300 tc0 + i` of the frames of the week. */
  lemma LnavAt(frame: Frames, tow0Sow: real, duration: real, i: nat)
    requires forall tc, pg :: |frame(tc, pg)| == 1500
    requires i < |LnavSymbols(frame, tow0Sow, duration)|
    ensures var b := 300 * Steps(tow0Sow, 6) + i;
      LnavSymbols(frame, tow0Sow, duration)[i] == LnavFrame(frame, b / 1500)[b % 1500]
  {
    var tc0 := Steps(tow0Sow, 6);
    var f0 := tc0 / 5;
    var skip := (tc0 - f0 * 5) * 300;
    var b := 300 * tc0 + i;
    var f := (k: int) => LnavFrame(frame, k);
    StreamAt(f, 1500, f0, (skip + Need(duration)) / 1500 + 2, skip + i);
    DivModUnique(b, 1500, f0 + (skip + i) / 1500, (skip + i) % 1500);
  }

  /** An LNAV stream restarted later in the week continues the earlier one exactly, 50 bits a second, from the
      middle of a frame too. */
  lemma LnavRestart(frame: Frames, t1: real, d1: real, t2: real, d2: real)
    requires forall tc, pg :: |frame(tc, pg)| == 1500
    requires GpsLnav.StreamT0(t1) <= GpsLnav.StreamT0(t2)
    ensures Continues(LnavSymbols(frame, t1, d1), LnavSymbols(frame, t2, d2),
                      (GpsLnav.StreamT0(t2) - GpsLnav.StreamT0(t1)) * 50)
  {
    var a, b := LnavSymbols(frame, t1, d1), LnavSymbols(frame, t2, d2);
    var off := (Steps(t2, 6) - Steps(t1, 6)) * 300;
    forall i | 0 <= i < |b| && 0 <= off + i < |a|
      ensures b[i] == a[off + i]
    {
      LnavAt(frame, t2, d2, i);
      LnavAt(frame, t1, d1, off + i);
    }
  }

  /** Subframe `tc` of the week, within the frame that holds it, is built from `contents(tc)`. */
  ghost predicate Carries(frame: Frames, contents: int -> Lnav.Content) {
    forall tc: int :: CarriesAt(frame, contents, tc)
  }

  ghost predicate CarriesAt(frame: Frames, contents: int -> Lnav.Content, tc: int) {
    Lnav.GPS.Valid() && contents(tc).Valid() && |LnavFrame(frame, tc / 5)| == 1500
    && LnavFrame(frame, tc / 5)[tc % 5 * 300..tc % 5 * 300 + 300] == Lnav.GPS.Subframe(contents(tc))
  }

  ghost predicate AllValid(contents: int -> Lnav.Content) {
    Lnav.GPS.Valid() && forall tc :: contents(tc).Valid()
  }

  ghost function BuiltSubframe(contents: int -> Lnav.Content, tc: int): (s: seq<Bit>)
    requires AllValid(contents)
    ensures |s| == 300
  {
    Lnav.GPS.Subframe(contents(tc))
  }

  ghost function BuiltFrame(contents: int -> Lnav.Content, tc: int): (f: seq<Bit>)
    requires AllValid(contents)
    ensures |f| == 1500
  {
    BuiltSubframe(contents, tc) + BuiltSubframe(contents, tc + 1) + BuiltSubframe(contents, tc + 2)
    + BuiltSubframe(contents, tc + 3) + BuiltSubframe(contents, tc + 4)
  }

  /** Frames of five built subframes each. */
  ghost function LnavBuilt(contents: int -> Lnav.Content): Frames
    requires AllValid(contents)
  {
    (tc: int, pg: int) => BuiltFrame(contents, tc)
  }

  lemma BuiltPart(contents: int -> Lnav.Content, tc: int, r: nat)
    requires AllValid(contents) && r < 5
    ensures BuiltFrame(contents, tc)[r * 300..r * 300 + 300] == BuiltSubframe(contents, tc + r)
  {
    hide BuiltSubframe, Lnav.Code.Valid;
    var f := BuiltFrame(contents, tc);
    assert f[..300] == BuiltSubframe(contents, tc) && f[300..600] == BuiltSubframe(contents, tc + 1);
    assert f[600..900] == BuiltSubframe(contents, tc + 2) && f[900..1200] == BuiltSubframe(contents, tc + 3);
    assert f[1200..] == BuiltSubframe(contents, tc + 4);
  }

  lemma BuiltAt(contents: int -> Lnav.Content, tc: int)
    requires AllValid(contents)
    ensures CarriesAt(LnavBuilt(contents), contents, tc)
  {
    hide BuiltFrame, Lnav.Code.Subframe, Lnav.Code.Valid, Lnav.Content.Valid;
    assert tc / 5 * 5 + tc % 5 == tc;
    BuiltPart(contents, tc / 5 * 5, tc % 5);
  }

  /** Built frames carry their subframes. */
  lemma LnavBuiltCarries(contents: int -> Lnav.Content)
    requires AllValid(contents)
    ensures (forall tc, pg :: |LnavBuilt(contents)(tc, pg)| == 1500) && Carries(LnavBuilt(contents), contents)
  {
    hide CarriesAt, BuiltFrame, Lnav.Code.Subframe, Lnav.Code.Valid, Lnav.Content.Valid;
    forall tc: int
      ensures CarriesAt(LnavBuilt(contents), contents, tc)
    {
      BuiltAt(contents, tc);
    }
  }

  /** Bit `j` of subframe `tc` within the frames of the week. */
  lemma SubframeBit(tc: int, j: nat)
    requires j < 300
    ensures var b := 300 * tc + j; b / 1500 == tc / 5 && b % 1500 == tc % 5 * 300 + j
  {
    DivModUnique(300 * tc + j, 1500, tc / 5, tc % 5 * 300 + j);
  }

  lemma LnavSlice(frame: Frames, contents: int -> Lnav.Content, t: real, d: real, i: nat)
    requires (forall tc, pg :: |frame(tc, pg)| == 1500) && Carries(frame, contents)
    requires 300 * i + 300 <= |LnavSymbols(frame, t, d)|
    ensures CarriesAt(frame, contents, Steps(t, 6) + i)
    ensures LnavSymbols(frame, t, d)[300 * i..300 * i + 300] == Lnav.GPS.Subframe(contents(Steps(t, 6) + i))
  {
    hide Lnav.Code.Subframe, Lnav.Code.Valid, Lnav.Content.Valid, LnavFrame, Steps;
    var s, tc := LnavSymbols(frame, t, d), Steps(t, 6) + i;
    assert CarriesAt(frame, contents, tc);
    var x, y := s[300 * i..300 * i + 300], LnavFrame(frame, tc / 5)[tc % 5 * 300..tc % 5 * 300 + 300];
    forall j | 0 <= j < 300
      ensures x[j] == y[j]
    {
      LnavAt(frame, t, d, 300 * i + j);
      SubframeBit(tc, j);
    }
  }

  /** A list cut into subframes is their stream and what is left. */
  lemma {:induction false} Slices(s: seq<Bit>, cs: seq<Lnav.Content>)
    requires Lnav.GPS.Valid() && (forall k :: 0 <= k < |cs| ==> cs[k].Valid()) && 300 * |cs| <= |s|
    requires forall k :: 0 <= k < |cs| ==> s[300 * k..300 * k + 300] == Lnav.GPS.Subframe(cs[k])
    ensures s == Lnav.GPS.Stream(cs) + s[300 * |cs|..]
    decreases |cs|
  {
    hide Lnav.Code.Subframe, Lnav.Code.Valid, Lnav.Content.Valid;
    if cs != [] {
      var rest, tail := s[300..], cs[1..];
      forall k | 0 <= k < |tail|
        ensures rest[300 * k..300 * k + 300] == Lnav.GPS.Subframe(tail[k])
      {
        assert rest[300 * k..300 * k + 300] == s[300 * (k + 1)..300 * (k + 1) + 300];
      }
      Slices(rest, tail);
      assert s == s[300 * 0..300 * 0 + 300] + rest;
      assert rest[300 * |tail|..] == s[300 * |cs|..];
    }
  }

  /** Every LNAV stream, started at any second of the week and read upright or negated: the receiver returns
      every whole subframe in order, with its position, id, count and words. */
  lemma LnavReceived(frame: Frames, contents: int -> Lnav.Content, t: real, d: real, inverted: bool)
    requires (forall tc, pg :: |frame(tc, pg)| == 1500) && Carries(frame, contents)
    requires forall tc :: contents(tc).Valid()
    ensures Lnav.GPS.Valid()
    ensures var s := LnavSymbols(frame, t, d);
      var cs := seq(|s| / 300, i requires 0 <= i < |s| / 300 => contents(Steps(t, 6) + i));
      Lnav.GPS.Scan(Lnav.Signed(s, inverted), 0) == Lnav.GPS.Reports(cs, 0, inverted)
  {
    hide Lnav.Code.Subframe, Lnav.Code.Valid, Lnav.Content.Valid, Lnav.Code.Scan, Lnav.Code.Reports,
         Carries, CarriesAt, LnavSymbols, Steps;
    Lnav.GpsValid();
    var s := LnavSymbols(frame, t, d);
    var cs := seq(|s| / 300, i requires 0 <= i < |s| / 300 => contents(Steps(t, 6) + i));
    forall k | 0 <= k < |cs|
      ensures s[300 * k..300 * k + 300] == Lnav.GPS.Subframe(cs[k])
    {
      LnavSlice(frame, contents, t, d, k);
    }
    Slices(s, cs);
    var b, tail := Lnav.Signed(s, inverted), s[300 * |cs|..];
    assert b == [] + Lnav.Signed(Lnav.GPS.Stream(cs), inverted) + Lnav.Signed(tail, inverted);
    Lnav.GPS.StreamFound(b, [], cs, Lnav.Signed(tail, inverted), inverted);
  }

  // ---- streams through the convolutional encoder ----

  lemma LongEnough(block: Schedule<Bit>, len: nat, first: int, n: nat)
    requires Uniform(block, len) && len >= 6 && n > 0
    ensures |Stream(block, first, n)| == n * len >= 6
    ensures TailState(Stream(block, first, n)) == TailState(block(first + n - 1))
  {
    StreamAt(block, len, first, n, 0);
    StreamAt(block, len, first, n - 1, 0);
    assert |block(first + n - 1)| == len;
    assert n * len == (n - 1) * len + len;
  }

  lemma StartEmpty(block: Schedule<Bit>, first: int, s: State)
    ensures Stream(block, first, 0) == [] && After(s, []) == s
  {
  }

  /** An encoder that has sent blocks from `first` on is, at block `first + d`, where the last bits sent left it. */
  lemma EncodedTail(block: Schedule<Bit>, len: nat, s: State, first: int, d: nat, n: nat, inv: bool)
    requires Uniform(block, len) && len >= 6
    ensures var mid := if d == 0 then s else TailState(block(first + d - 1));
      Encode(s, Stream(block, first, d + n), inv)
        == Encode(s, Stream(block, first, d), inv) + Encode(mid, Stream(block, first + d, n), inv)
    ensures |Encode(s, Stream(block, first, d), inv)| == 2 * d * len
  {
    hide Encode, After, TailState;
    StreamSplit(block, first, d, n);
    StreamAt(block, len, first, d, 0);
    StartEmpty(block, first, s);
    var pre := Stream(block, first, d);
    EncodeConcat(s, pre, Stream(block, first + d, n), inv);
    if d > 0 {
      LongEnough(block, len, first, d);
      LastSixBits(s, pre);
    }
  }

  lemma EncodedPrefix(block: Schedule<Bit>, len: nat, s: State, first: int, m: nat, n: nat, inv: bool)
    requires Uniform(block, len) && len >= 6 && m <= n
    ensures 2 * m * len <= |Encode(s, Stream(block, first, n), inv)|
    ensures Encode(s, Stream(block, first, n), inv)[..2 * m * len] == Encode(s, Stream(block, first, m), inv)
  {
    hide Encode, Stream, TailState;
    EncodedTail(block, len, s, first, m, n - m, inv);
  }

  lemma Overlap<T>(a: seq<T>, b: seq<T>, pre: seq<T>, c: seq<T>)
    requires a == pre + c && (c <= b || b <= c)
    ensures Continues(a, b, |pre|)
  {
  }

  /** Two encodings of the same schedule, one from the middle of the other: they agree where both have symbols
      when the states at the join agree. */
  lemma EncodedContinues(block: Schedule<Bit>, len: nat, s1: State, f1: int, n1: nat, s2: State, f2: int, n2: nat,
                         inv: bool)
    requires Uniform(block, len) && len >= 6 && f1 <= f2
    requires s2 == if f1 == f2 then s1 else TailState(block(f2 - 1))
    ensures Continues(Encode(s1, Stream(block, f1, n1), inv), Encode(s2, Stream(block, f2, n2), inv),
                      2 * (f2 - f1) * len)
  {
    hide Encode, Stream, Continues, TailState, Uniform;
    var d := f2 - f1;
    EncodedLength(block, len, s1, f1, n1, inv);
    if n1 > d {
      EncodedOverlap(block, len, s1, f1, n1 - d, s2, f2, n2, inv);
      assert d + (n1 - d) == n1;
    } else {
      NoOverlap(Encode(s1, Stream(block, f1, n1), inv), Encode(s2, Stream(block, f2, n2), inv), n1, d, len);
    }
  }

  lemma EncodedLength(block: Schedule<Bit>, len: nat, s: State, first: int, n: nat, inv: bool)
    requires Uniform(block, len) && len > 0
    ensures |Encode(s, Stream(block, first, n), inv)| == 2 * n * len
  {
    StreamAt(block, len, first, n, 0);
  }

  lemma NoOverlap<T>(a: seq<T>, b: seq<T>, n: nat, d: nat, len: nat)
    requires |a| == 2 * n * len && n <= d
    ensures Continues(a, b, 2 * d * len)
  {
    assert n * len <= d * len;
  }

  lemma EncodedOverlap(block: Schedule<Bit>, len: nat, s1: State, f1: int, m: nat, s2: State, f2: int, n2: nat,
                       inv: bool)
    requires Uniform(block, len) && len >= 6 && f1 <= f2
    requires s2 == if f1 == f2 then s1 else TailState(block(f2 - 1))
    ensures Continues(Encode(s1, Stream(block, f1, f2 - f1 + m), inv), Encode(s2, Stream(block, f2, n2), inv),
                      2 * (f2 - f1) * len)
  {
    hide Encode, Stream, Continues, TailState;
    var d := f2 - f1;
    EncodedTail(block, len, s1, f1, d, m, inv);
    if m <= n2 {
      EncodedPrefix(block, len, s2, f2, m, n2, inv);
    } else {
      EncodedPrefix(block, len, s2, f2, n2, m, inv);
    }
    Overlap(Encode(s1, Stream(block, f1, d + m), inv), Encode(s2, Stream(block, f2, n2), inv),
            Encode(s1, Stream(block, f1, d), inv), Encode(s2, Stream(block, f2, m), inv));
  }

  // ---- SBAS ----

  const PREAMBLES: seq<nat> := [0x53, 0x9A, 0xC6]

  /** The block of second `k`: preamble by turns, message type 9 on even seconds and 63 on odd, checksum. */
  function SbasBlock(type9: seq<Bit>, k: int): (b: seq<Bit>)
    requires |type9| == 212
    ensures |b| == 250
  {
    var head := BitsOf(PREAMBLES[k % 3], 8)
              + (if k % 2 == 0 then BitsOf(9, 6) + type9 else BitsOf(63, 6) + Zeros(212));
    head + Crc24q.Crc(head)
  }

  function SbasCount(duration: real): nat {
    Max0(Ceil(duration) + 30)
  }

  function SbasBlocks(type9: seq<Bit>): (f: Schedule<Bit>)
    requires |type9| == 212
  {
    (k: int) => SbasBlock(type9, k)
  }

  /** The symbols of a stream asked for at `tow0Sow`: the encoder stands where the block before leaves it. */
  function SbasSymbols(type9: seq<Bit>, tow0Sow: real, duration: real): seq<Bit>
    requires |type9| == 212
  {
    var k0 := tow0Sow.Floor;
    Encode(TailState(SbasBlock(type9, k0 - 1)), Stream(SbasBlocks(type9), k0, SbasCount(duration)), false)
  }

  /** The generator: the block before the first one warms the register up and its 500 symbols are dropped. */
  method SbasStream(type9: seq<Bit>, tow0Sow: real, duration: real) returns (syms: seq<Bit>)
    requires |type9| == 212
    ensures syms == SbasSymbols(type9, tow0Sow, duration)
  {
    hide SbasBlock, TailState, Encode, After;
    var k0, n := tow0Sow.Floor, SbasCount(duration);
    var conv := new Encoder(false);
    ghost var f := SbasBlocks(type9);
    syms := [];
    EncodeEmpty(ZERO, false);
    for i := 0 to n + 1
      invariant syms == Encode(ZERO, Stream(f, k0 - 1, i), false)
      invariant conv.Memory() == After(ZERO, Stream(f, k0 - 1, i)) && !conv.inv
    {
      var b := SbasBlock(type9, k0 - 1 + i);
      assert b == f(k0 - 1 + i);
      EncodeConcat(ZERO, Stream(f, k0 - 1, i), b, false);
      AfterConcat(ZERO, Stream(f, k0 - 1, i), b);
      var out := conv.Push(b);
      syms := syms + out;
    }
    SbasUniform(type9);
    EncodedTail(f, 250, ZERO, k0 - 1, 1, n, false);
    syms := syms[500..];
  }

  lemma EncodeEmpty(s: State, inv: bool)
    ensures Encode(s, [], inv) == [] && After(s, []) == s
  {
  }

  lemma SbasUniform(type9: seq<Bit>)
    requires |type9| == 212
    ensures Uniform(SbasBlocks(type9), 250)
  {
    hide SbasBlock;
  }

  /** An SBAS stream restarted later continues the earlier one exactly, 500 symbols a second: the warm-up
      block covers the whole register. */
  lemma SbasRestart(type9: seq<Bit>, t1: real, d1: real, t2: real, d2: real)
    requires |type9| == 212 && Sbas.StreamT0(t1) <= Sbas.StreamT0(t2)
    ensures Continues(SbasSymbols(type9, t1, d1), SbasSymbols(type9, t2, d2),
                      (Sbas.StreamT0(t2) - Sbas.StreamT0(t1)) * 500)
  {
    hide SbasBlock, TailState, Encode, Stream, Continues, Uniform;
    SbasUniform(type9);
    var f := SbasBlocks(type9);
    EncodedContinues(f, 250, TailState(f(t1.Floor - 1)), t1.Floor, SbasCount(d1),
                     TailState(f(t2.Floor - 1)), t2.Floor, SbasCount(d2), false);
  }

  /** The schedule repeats every week: a stream asked for a week later carries the same symbols. */
  lemma SbasWeekly(type9: seq<Bit>, k: int)
    requires |type9| == 212
    ensures SbasBlock(type9, k + 604800) == SbasBlock(type9, k)
  {
    hide Crc24q.Crc, BitsOf, Zeros;
    assert (k + 604800) % 3 == k % 3 && (k + 604800) % 2 == k % 2;
  }

  /** Decoded by the Viterbi decoder with no start state, the stream gives back every block, and every block
      passes its checksum. */
  lemma SbasDecoded(type9: seq<Bit>, tow0Sow: real, duration: real, i: nat)
    requires |type9| == 212 && i < SbasCount(duration)
    ensures var data := Viterbi.Decoded(SbasSymbols(type9, tow0Sow, duration), false, None, None);
      && 250 * i + 250 <= |data|
      && data[250 * i..250 * i + 250] == SbasBlock(type9, tow0Sow.Floor + i)
      && data[250 * i + 226..250 * i + 250] == Crc24q.Crc(data[250 * i..250 * i + 226])
  {
    hide SbasBlock, TailState, Viterbi.Decoded, Crc24q.Crc, Encode, Stream;
    var f, k0, n := SbasBlocks(type9), tow0Sow.Floor, SbasCount(duration);
    SbasUniform(type9);
    BlockInStream(f, 250, k0, n, i);
    Optimality.UnknownStart(TailState(f(k0 - 1)), Stream(f, k0, n), false);
    SbasChecks(type9, k0 + i);
    var data := Stream(f, k0, n);
    assert data[250 * i..250 * i + 226] == data[250 * i..250 * i + 250][..226];
    assert data[250 * i + 226..250 * i + 250] == data[250 * i..250 * i + 250][226..];
  }

  lemma SbasChecks(type9: seq<Bit>, k: int)
    requires |type9| == 212
    ensures SbasBlock(type9, k)[226..] == Crc24q.Crc(SbasBlock(type9, k)[..226])
  {
    hide Crc24q.Crc;
  }

  /** A block's place in its stream. */
  lemma BlockInStream(block: Schedule<Bit>, len: nat, first: int, n: nat, i: nat)
    requires Uniform(block, len) && len > 0 && i < n
    ensures |Stream(block, first, n)| == n * len && len * i + len <= n * len
    ensures Stream(block, first, n)[len * i..len * i + len] == block(first + i)
  {
    StreamSplit(block, first, i, n - i);
    StreamSplit(block, first + i, 1, n - i - 1);
    StreamAt(block, len, first, n, 0);
    StreamAt(block, len, first, i, 0);
    OneBlock(block, first + i);
    assert |block(first + i)| == len;
    hide Stream, Uniform;
    ThreeParts(len, i, n);
    Middle(Stream(block, first, i), block(first + i), Stream(block, first + i + 1, n - i - 1));
  }

  lemma Middle(a: seq<Bit>, b: seq<Bit>, c: seq<Bit>)
    ensures (a + (b + c))[|a|..|a| + |b|] == b
  {
  }

  lemma OneBlock(block: Schedule<Bit>, k: int)
    ensures Stream(block, k, 1) == block(k)
  {
    assert Stream(block, k, 0) == [];
  }

  lemma ThreeParts(len: nat, i: nat, n: nat)
    requires i < n
    ensures (n - i - 1) * len >= 0 && n * len == i * len + len + (n - i - 1) * len
  {
  }

  // ---- GPS CNAV ----

  const CNAV_TYPES: seq<nat> := [10, 11, 30, 33]

  /** Messages by type and by the start of the message after, in units of 6 s: 300 bits each. */
  type Messages = (nat, int) -> seq<Bit>

  /** Message `k` of the week, `step` units long. */
  function CnavMessage(message: Messages, step: int, k: int): seq<Bit> {
    message(CNAV_TYPES[k % 4], (k + 1) * step)
  }

  function CnavCount(duration: real, period: int): nat
    requires period > 0
  {
    var n := Ceil((Ceil(duration) + 2 * period) as real / period as real);
    if n > 1 then n else 1
  }

  function CnavBlocks(message: Messages, step: int): Schedule<Bit> {
    (k: int) => CnavMessage(message, step, k)
  }

  /** The symbols of a stream asked for at `sow`: the encoder starts empty. */
  function CnavSymbols(message: Messages, period: int, sow: real, duration: real): seq<Bit>
    requires period > 0
  {
    Encode(ZERO, Stream(CnavBlocks(message, period / 6), Steps(sow, period), CnavCount(duration, period)), true)
  }

  method CnavStream(message: Messages, period: int, sow: real, duration: real) returns (syms: seq<Bit>)
    requires period in {6, 12}
    ensures syms == CnavSymbols(message, period, sow, duration)
  {
    hide Encode, After, CnavMessage;
    var step := period / 6;
    var n := CnavCount(duration, period);
    var tow0 := Steps(sow, period) * step;
    var conv := new Encoder(true);
    ghost var f, k0 := CnavBlocks(message, step), Steps(sow, period);
    syms := [];
    EncodeEmpty(ZERO, true);
    for i := 0 to n
      invariant syms == Encode(ZERO, Stream(f, k0, i), true)
      invariant conv.Memory() == After(ZERO, Stream(f, k0, i)) && conv.inv
    {
      var mtype := CNAV_TYPES[(tow0 / step + i) % 4];
      var tow := tow0 + (i + 1) * step;
      var m := message(mtype, tow);
      CnavMessageAt(message, step, k0, tow0, i);
      EncodeConcat(ZERO, Stream(f, k0, i), m, true);
      AfterConcat(ZERO, Stream(f, k0, i), m);
      var out := conv.Push(m);
      syms := syms + out;
    }
  }

  lemma CnavMessageAt(message: Messages, step: int, k0: int, tow0: int, i: nat)
    requires step in {1, 2} && tow0 == k0 * step
    ensures CnavBlocks(message, step)(k0 + i) == message(CNAV_TYPES[(tow0 / step + i) % 4], tow0 + (i + 1) * step)
  {
    assert tow0 / step == k0 && tow0 + (i + 1) * step == (k0 + i + 1) * step;
  }

  /** From six bits on, the state the encoder started in no longer shows. */
  lemma StartForgotten(s: State, t: State, data: seq<Bit>, inv: bool, i: nat)
    requires 12 <= i < 2 * |data|
    ensures Encode(s, data, inv)[i] == Encode(t, data, inv)[i]
  {
    hide Encode, After, TailState;
    var a, b := data[..6], data[6..];
    assert data == a + b;
    EncodeConcat(s, a, b, inv);
    EncodeConcat(t, a, b, inv);
    LastSixBits(s, a);
    LastSixBits(t, a);
  }

  /** Its first twelve symbols show it exactly. */
  lemma StartShows(s: State, t: State, data: seq<Bit>, inv: bool)
    requires |data| >= 6
    ensures Encode(s, data, inv)[..12] == Encode(t, data, inv)[..12] <==> s == t
  {
    var a, b := data[..6], data[6..];
    assert data == a + b;
    EncodeConcat(s, a, b, inv);
    EncodeConcat(t, a, b, inv);
    if Encode(s, data, inv)[..12] == Encode(t, data, inv)[..12] {
      assert Encode(s, a, inv) == Encode(s, data, inv)[..12];
      assert Encode(t, a, inv) == Encode(t, data, inv)[..12];
      D.Observable(s, t, a, a, inv);
    }
  }

  /** A CNAV stream restarted at a later message continues the earlier one from symbol 12 on; its first twelve
      symbols, where the earlier stream has them, are the earlier stream's exactly when the message before ends
      in six zero bits. */
  lemma CnavRestart(message: Messages, period: int, t1: real, d1: real, t2: real, d2: real)
    requires period in {6, 12} && (forall ty, tow :: |message(ty, tow)| == 300)
    requires GpsCnav(period).StreamT0(t1) < GpsCnav(period).StreamT0(t2)
    ensures var a, b := CnavSymbols(message, period, t1, d1), CnavSymbols(message, period, t2, d2);
      var off := (GpsCnav(period).StreamT0(t2) - GpsCnav(period).StreamT0(t1)) * (600 / period);
      && Agree(a, b, off, 12, |b|)
      && (off + 12 <= |a| && 12 <= |b| ==>
           (Agree(a, b, off, 0, 12) <==>
            TailState(CnavMessage(message, period / 6, Steps(t2, period) - 1)) == ZERO))
  {
    CnavUniform(message, period / 6);
    CnavOffset(period, t1, t2);
    hide *;
    CnavFrom(message, period, t1, d1, t2, d2,
             (GpsCnav(period).StreamT0(t2) - GpsCnav(period).StreamT0(t1)) * (600 / period));
  }

  lemma CnavFrom(message: Messages, period: int, t1: real, d1: real, t2: real, d2: real, off: int)
    requires period > 0 && (forall ty, tow :: |message(ty, tow)| == 300)
    requires var k1, k2 := Steps(t1, period), Steps(t2, period); k1 < k2 && off == (k2 - k1) * 600
    ensures var a, b := CnavSymbols(message, period, t1, d1), CnavSymbols(message, period, t2, d2);
      && Agree(a, b, off, 12, |b|)
      && (off + 12 <= |a| && 12 <= |b| ==>
           (Agree(a, b, off, 0, 12) <==>
            TailState(CnavMessage(message, period / 6, Steps(t2, period) - 1)) == ZERO))
  {
    var f, k2 := CnavBlocks(message, period / 6), Steps(t2, period);
    CnavUniform(message, period / 6);
    assert |f(k2 - 1)| == 300;
    hide TailState, Encode, Stream, CnavCount, CnavMessage, Steps, Agree, Uniform;
    CnavJoin(f, Steps(t1, period), CnavCount(d1, period), k2, CnavCount(d2, period), TailState(f(k2 - 1)));
  }

  lemma CnavOffset(period: int, t1: real, t2: real)
    requires period in {6, 12}
    ensures var k1, k2, sys := Steps(t1, period), Steps(t2, period), GpsCnav(period);
      && (sys.StreamT0(t2) - sys.StreamT0(t1)) * (600 / period) == (k2 - k1) * 600
      && (sys.StreamT0(t1) < sys.StreamT0(t2) ==> k1 < k2)
  {
    hide Steps;
  }

  lemma CnavUniform(message: Messages, step: int)
    requires forall ty, tow :: |message(ty, tow)| == 300
    ensures Uniform(CnavBlocks(message, step), 300)
  {
  }

  lemma CnavJoin(f: Schedule<Bit>, k1: int, n1: nat, k2: int, n2: nat, s: State)
    requires Uniform(f, 300) && k1 < k2 && s == TailState(f(k2 - 1))
    ensures var a, b := Encode(ZERO, Stream(f, k1, n1), true), Encode(ZERO, Stream(f, k2, n2), true);
      var off := (k2 - k1) * 600;
      && Agree(a, b, off, 12, |b|)
      && (off + 12 <= |a| && 12 <= |b| ==> (Agree(a, b, off, 0, 12) <==> s == ZERO))
  {
    hide Encode, Stream, TailState, Uniform;
    var data := Stream(f, k2, n2);
    var a := Encode(ZERO, Stream(f, k1, n1), true);
    EncodedContinues(f, 300, ZERO, k1, n1, s, k2, n2, true);
    JoinFrom(a, data, s, (k2 - k1) * 600);
    if (k2 - k1) * 600 + 12 <= |a| && 12 <= 2 * |data| {
      JoinUpTo(a, data, s, (k2 - k1) * 600);
    }
  }

  lemma JoinFrom(a: seq<Bit>, data: seq<Bit>, s: State, off: nat)
    requires Continues(a, Encode(s, data, true), off)
    ensures Agree(a, Encode(ZERO, data, true), off, 12, 2 * |data|)
  {
    hide Encode;
    forall i | 12 <= i < 2 * |data| && off + i < |a|
      ensures Encode(ZERO, data, true)[i] == a[off + i]
    {
      StartForgotten(ZERO, s, data, true, i);
    }
  }

  lemma JoinUpTo(a: seq<Bit>, data: seq<Bit>, s: State, off: nat)
    requires Continues(a, Encode(s, data, true), off) && off + 12 <= |a| && |data| >= 6
    ensures Agree(a, Encode(ZERO, data, true), off, 0, 12) <==> s == ZERO
  {
    hide Encode;
    StartShows(ZERO, s, data, true);
    var b, c, d := Encode(ZERO, data, true), Encode(s, data, true), a[off..off + 12];
    assert c[..12] == d;
    if Agree(a, b, off, 0, 12) {
      assert b[..12] == d;
    }
  }

  /** `ms` are what the schedule builds from message `k0` on: types by turns, each with the count of the
      message after it. */
  ghost predicate Scheduled(message: Messages, step: int, k0: int, ms: seq<Cnav.Message>) {
    forall i :: 0 <= i < |ms| ==> Builds(message, step, k0 + i, ms[i])
  }

  ghost predicate Builds(message: Messages, step: int, k: int, m: Cnav.Message) {
    && Cnav.Fits(m) && m.kind == CNAV_TYPES[k % 4] && m.tow == (k + 1) * step
    && message(m.kind, m.tow) == Cnav.Build(m)
  }

  /** All the same, a receiver reads every message of any CNAV stream, restarted or not; from the symbols of the
      other carrier sign too, unless one of the two readings it tries before holds a message. */
  lemma CnavDecoded(message: Messages, period: int, sow: real, duration: real, ms: seq<Cnav.Message>)
    requires period in {6, 12} && (forall ty, tow :: |message(ty, tow)| == 300)
    requires |ms| == CnavCount(duration, period) && Scheduled(message, period / 6, Steps(sow, period), ms)
    ensures var sym := CnavSymbols(message, period, sow, duration);
      var sent := Stream(CnavBlocks(message, period / 6), Steps(sow, period), CnavCount(duration, period));
      var upright, late := Cnav.Scan(Complement(sent), 0), Cnav.Attempt(Complement(sym), false, 1);
      && Cnav.Received(sym) == ms
      && Cnav.Received(Complement(sym)) == if upright != [] then upright else if late != [] then late else ms
  {
    CnavUniform(message, period / 6);
    var sent := Stream(CnavBlocks(message, period / 6), Steps(sow, period), CnavCount(duration, period));
    hide Encode, Cnav.Received, Cnav.Scan, Cnav.Attempt, Steps, CnavCount, Stream, Uniform, Cnav.Holds, Scheduled;
    CnavHolds(message, period / 6, Steps(sow, period), ms);
    Cnav.StreamDecoded(ZERO, sent, ms, []);
    Cnav.InvertedReceived(ZERO, sent, ms, []);
    assert Encode(ZERO, sent, true) + [] == Encode(ZERO, sent, true);
  }

  lemma CnavHolds(message: Messages, step: int, k0: int, ms: seq<Cnav.Message>)
    requires Uniform(CnavBlocks(message, step), 300) && Scheduled(message, step, k0, ms)
    ensures Cnav.Holds(Stream(CnavBlocks(message, step), k0, |ms|), ms)
  {
    hide Cnav.Fits, Cnav.Build, Stream, Uniform, Builds, CnavBlocks;
    var f, n := CnavBlocks(message, step), |ms|;
    StreamAt(f, 300, k0, n, 0);
    forall i | 0 <= i < n
      ensures Cnav.Fits(ms[i]) && Stream(f, k0, n)[300 * i..300 * i + 300] == Cnav.Build(ms[i])
    {
      BuildsBlock(message, step, k0 + i, ms[i]);
      BlockInStream(f, 300, k0, n, i);
    }
  }

  lemma BuildsBlock(message: Messages, step: int, k: int, m: Cnav.Message)
    requires Builds(message, step, k, m)
    ensures Cnav.Fits(m) && CnavBlocks(message, step)(k) == Cnav.Build(m)
  {
    hide Cnav.Build;
  }

  /** A message whose payload is `front`, one more bit and five reserved zeros: the bit is the last one of the
      argument of perigee in message type 10. */
  function WithLast(m: Cnav.Message, front: seq<Bit>, b: Bit): Cnav.Message {
    m.(payload := front + [b] + Zeros(5))
  }

  /** Whatever a message says, that bit decides whether its last bit is zero. */
  lemma LastBitDecides(m: Cnav.Message, front: seq<Bit>)
    requires |front| == 232 && Cnav.Fits(WithLast(m, front, true))
    ensures Cnav.Build(WithLast(m, front, true))[299] != Cnav.Build(WithLast(m, front, false))[299]
  {
    hide Crc24q.Feed, BitsOf;
    var h := BitsOf(Cnav.PREAMBLE, 8) + BitsOf(m.prn, 6) + BitsOf(m.kind, 6) + BitsOf(m.tow, 17) + [m.alert] + front;
    var one, none := [true] + Zeros(5), [false] + Zeros(5);
    assert Cnav.Head(WithLast(m, front, true)) == h + one;
    assert Cnav.Head(WithLast(m, front, false)) == h + none;
    Crc24q.FeedConcat(Zeros(24), h, one);
    Crc24q.FeedConcat(Zeros(24), h, none);
    Crc24q.SixthFromEnd(Crc24q.Feed(Zeros(24), h));
  }

  /** Of two schedules whose messages before the restart differ in that bit alone, at most one restarts exactly:
      every other type 10 message, at least, spoils it. */
  lemma CnavRestartSpoiled(one: Messages, none: Messages, period: int, t1: real, d1: real, t2: real, d2: real,
                           m: Cnav.Message, front: seq<Bit>)
    requires period in {6, 12}
    requires forall ty, tow :: |one(ty, tow)| == 300 && |none(ty, tow)| == 300
    requires GpsCnav(period).StreamT0(t1) < GpsCnav(period).StreamT0(t2)
    requires |front| == 232 && Cnav.Fits(WithLast(m, front, true))
    requires CnavMessage(one, period / 6, Steps(t2, period) - 1) == Cnav.Build(WithLast(m, front, true))
    requires CnavMessage(none, period / 6, Steps(t2, period) - 1) == Cnav.Build(WithLast(m, front, false))
    requires var off := (GpsCnav(period).StreamT0(t2) - GpsCnav(period).StreamT0(t1)) * (600 / period);
      off + 12 <= |CnavSymbols(none, period, t1, d1)|
    ensures var off := (GpsCnav(period).StreamT0(t2) - GpsCnav(period).StreamT0(t1)) * (600 / period);
      || !Agree(CnavSymbols(one, period, t1, d1), CnavSymbols(one, period, t2, d2), off, 0, 12)
      || !Agree(CnavSymbols(none, period, t1, d1), CnavSymbols(none, period, t2, d2), off, 0, 12)
  {
    hide CnavSymbols, Agree, Steps, CnavMessage, Cnav.Build, System.StreamT0;
    LastBitDecides(m, front);
    CnavLength(one, period, t1, d1);
    CnavLength(none, period, t1, d1);
    CnavLength(one, period, t2, d2);
    CnavLength(none, period, t2, d2);
    CnavRestart(one, period, t1, d1, t2, d2);
    CnavRestart(none, period, t1, d1, t2, d2);
  }

  lemma CnavLength(message: Messages, period: int, sow: real, duration: real)
    requires period in {6, 12} && (forall ty, tow :: |message(ty, tow)| == 300)
    ensures |CnavSymbols(message, period, sow, duration)| == 600 * CnavCount(duration, period) >= 600
  {
    hide CnavBlocks, Stream, Encode;
    CnavUniform(message, period / 6);
    EncodedLength(CnavBlocks(message, period / 6), 300, ZERO, Steps(sow, period), CnavCount(duration, period), true);
  }

  /** Message `k` of a satellite whose every field is zero but the argument of perigee's last bit. */
  function Quiet(b: Bit, ty: nat, tow: int): (m: Cnav.Message)
    ensures Cnav.Fits(m)
  {
    WithLast(Cnav.Message(ty % 64, 1, tow % 131072, false, []), Zeros(232), b && ty == 10)
  }

  function QuietMessages(b: Bit): Messages {
    (ty: nat, tow: int) => Cnav.Build(Quiet(b, ty, tow))
  }

  /** A satellite's built messages, so scheduled, whose stream restarted one message later does not start as the
      earlier one goes on. */
  lemma CnavRestartDiffers() returns (b: Bit, ms: seq<Cnav.Message>)
    ensures |ms| == CnavCount(12.0, 12) && Scheduled(QuietMessages(b), 2, 0, ms)
    ensures !Agree(CnavSymbols(QuietMessages(b), 12, 0.0, 12.0), CnavSymbols(QuietMessages(b), 12, 12.0, 0.0), 600, 0,
                   12)
  {
    hide Agree, CnavSymbols, Cnav.Build;
    var off := (GpsCnav(12).StreamT0(12.0) - GpsCnav(12).StreamT0(0.0)) * (600 / 12);
    b := !Agree(CnavSymbols(QuietMessages(true), 12, 0.0, 12.0), CnavSymbols(QuietMessages(true), 12, 12.0, 0.0), 600,
                0, 12);
    ms := [Quiet(b, 10, 2), Quiet(b, 11, 4), Quiet(b, 30, 6)];
    forall i | 0 <= i < 3
      ensures Builds(QuietMessages(b), 2, i, ms[i])
    {
    }
    CnavLength(QuietMessages(false), 12, 0.0, 12.0);
    CnavRestartSpoiled(QuietMessages(true), QuietMessages(false), 12, 0.0, 12.0, 12.0, 0.0, Quiet(b, 10, 2),
                       Zeros(232));
  }
}
