/** The record stream: CFG and BLOCK records, and the reader that resynchronises on arbitrary words. */
module CmdStream {
  import opened Bits
  import opened CmdFmt
  import opened Widths

  const MAGIC: nat := 0xA5
  const CFG_WORDS: nat := 6
  const HEAD_WORDS: nat := 4
  const CH_WORDS: nat := 10

  datatype Record<T> = Cfg(nch: int, fsHz: int, shift: int, startBlock: int)
                     | Block(index: int, chans: seq<T>)

  /** Record length in words. */
  function Length<T>(r: Record<T>): nat {
    match r
    case Cfg(_, _, _, _) => CFG_WORDS
    case Block(_, chans) => HEAD_WORDS + CH_WORDS * |chans|
  }

  function Header(kind: nat, length: nat): nat {
    0xA500_0000 + kind * 0x1_0000 + length
  }

  lemma HeaderParts(kind: nat, length: nat)
    requires kind < 0x100 && length < 0x1_0000
    ensures var h := Header(kind, length);
      h / 0x100_0000 == MAGIC && h / 0x1_0000 % 0x100 == kind && h % 0x1_0000 == length
  {
  }

  lemma HeaderBack(h: nat)
    requires h / 0x100_0000 == MAGIC
    ensures h == Header(h / 0x1_0000 % 0x100, h % 0x1_0000)
  {
  }

  lemma WidePair(low: nat, high: nat)
    requires low < TWO32 && high < TWO32
    ensures var v := low + high * TWO32;
      v < TWO64 && v % TWO32 == low && v / TWO32 == high
  {
  }

  /** A record and the word it starts at. */
  datatype Found<T> = Found(at: nat, record: Record<T>)

  function Records<T>(found: seq<Found<T>>): (rs: seq<Record<T>>)
    ensures |rs| == |found|
  {
    seq(|found|, k requires 0 <= k < |found| => found[k].record)
  }

  function End<T>(f: Found<T>): nat {
    f.at + Length(f.record)
  }

  /** One piece of a stream: a record as packed, or a stray word. */
  datatype Piece<T> = Packed(record: Record<T>) | Stray(word: nat)

  function Sent<T>(ps: seq<Piece<T>>): seq<Record<T>> {
    if ps == [] then []
    else (match ps[0] case Packed(r) => [r] case Stray(_) => []) + Sent(ps[1..])
  }

  /** How one channel is written in ten words and read back; `inRange` marks the values that can be written. */
  datatype Format<!T(!new)> = Format(pack: T -> Result<seq<nat>>, unpack: seq<nat> -> Option<T>, inRange: T -> bool) {
    ghost predicate Valid() {
      && (forall c :: pack(c).Ok? ==> Writes(c, pack(c).value))
      && (forall w :: |w| == CH_WORDS && AreWords(w) && unpack(w).Some? ==> Reads(w, unpack(w).value))
    }

    ghost predicate Writes(c: T, w: seq<nat>) {
      |w| == CH_WORDS && AreWords(w) && unpack(w) == Some(c) && inRange(c)
    }

    ghost predicate Reads(w: seq<nat>, c: T) {
      if inRange(c) then pack(c) == Ok(w) else pack(c).Err?
    }

    // ---- packing ----

    /** The words of the channels in order, or the first refusal. */
    function PackChans(chans: seq<T>): Result<seq<nat>> {
      if chans == [] then Ok([])
      else match PackChans(chans[..|chans| - 1])
        case Err(fault) => Err(fault)
        case Ok(front) =>
          match pack(chans[|chans| - 1])
          case Err(fault) => Err(fault)
          case Ok(last) => Ok(front + last)
    }

    function Pack(r: Record<T>): Result<seq<nat>> {
      match r
      case Cfg(nch, fsHz, shift, startBlock) =>
        if !(0 <= nch <= MAX_CH) then Err(Nch)
        else if !(0 <= fsHz < TWO32) then Err(FsHz)
        else if !(0 <= shift < TWO32) then Err(Shift)
        else if !(0 <= startBlock < TWO64) then Err(StartBlock)
        else Ok([Header(1, CFG_WORDS), nch, fsHz, shift, startBlock % TWO32, startBlock / TWO32])
      case Block(index, chans) =>
        if !(0 <= index < TWO64) then Err(BlockIdx)
        else if |chans| > MAX_CH then Err(Nch)
        else match PackChans(chans)
          case Err(fault) => Err(fault)
          case Ok(body) =>
            Ok([Header(2, Length(r)), index % TWO32, index / TWO32, |chans|] + body)
    }

    // ---- reading ----

    /** The first `n` channel records from word `base` on; none when one of them is illegal. */
    function ReadChans(words: seq<nat>, base: nat, n: nat): (r: Option<seq<T>>)
      requires base + CH_WORDS * n <= |words|
      ensures r.Some? ==> |r.value| == n
    {
      if n == 0 then Some([])
      else match ReadChans(words, base, n - 1)
        case None => None
        case Some(front) =>
          match unpack(words[base + CH_WORDS * (n - 1)..base + CH_WORDS * n])
          case None => None
          case Some(last) => Some(front + [last])
    }

    /** The record that starts at word `i`, if one does. */
    function ReadAt(words: seq<nat>, i: nat): (r: Option<Record<T>>)
      requires i < |words|
      ensures r.Some? ==> i + Length(r.value) <= |words|
    {
      var h := words[i];
      var kind, len := h / 0x1_0000 % 0x100, h % 0x1_0000;
      if h / 0x100_0000 != MAGIC || i + len > |words| then None
      else if kind == 1 && len == CFG_WORDS && words[i + 1] <= MAX_CH then
        Some(Cfg(words[i + 1], words[i + 2], words[i + 3], words[i + 4] + words[i + 5] * TWO32))
      else if kind == 2 && len >= HEAD_WORDS && words[i + 3] <= MAX_CH
              && len == HEAD_WORDS + CH_WORDS * words[i + 3] then
        match ReadChans(words, i + HEAD_WORDS, words[i + 3])
        case None => None
        case Some(chans) => Some(Block(words[i + 1] + words[i + 2] * TWO32, chans))
      else None
    }

    /** Every record read from word `i` on: past a whole record, or one word on. */
    function Parse(words: seq<nat>, i: nat): seq<Found<T>>
      decreases |words| - i
    {
      if i >= |words| then []
      else match ReadAt(words, i)
        case Some(r) => [Found(i, r)] + Parse(words, i + Length(r))
        case None => Parse(words, i + 1)
    }

    lemma ParseWord(words: seq<nat>, i: nat)
      ensures i >= |words| ==> Parse(words, i) == []
      ensures i < |words| ==> Records(Parse(words, i)) == match ReadAt(words, i)
        case Some(r) => [r] + Records(Parse(words, i + Length(r)))
        case None => Records(Parse(words, i + 1))
    {
      hide Format.ReadAt;
    }

    /** The reader's loop. */
    method UnpackStream(words: seq<nat>) returns (out: seq<Record<T>>)
      ensures out == Records(Parse(words, 0))
    {
      hide Format.ReadAt, Format.Parse;
      out := [];
      var i := 0;
      while i < |words|
        invariant Records(Parse(words, 0)) == out + Records(Parse(words, i))
        decreases |words| - i
      {
        var r := ReadAt(words, i);
        ParseWord(words, i);
        if r.None? {
          i := i + 1;
        } else {
          out := out + [r.value];
          i := i + Length(r.value);
        }
      }
      ParseWord(words, i);
    }

    // ---- what was packed is read back ----

    lemma {:induction false} ChansPacked(chans: seq<T>, k: nat)
      requires Valid()
      requires PackChans(chans).Ok? && k <= |chans|
      ensures PackChans(chans[..k]).Ok?
      ensures |PackChans(chans).value| == CH_WORDS * |chans| && AreWords(PackChans(chans).value)
      ensures PackChans(chans[..k]).value == PackChans(chans).value[..CH_WORDS * k]
      decreases |chans|
    {
      if chans != [] {
        var n := |chans| - 1;
        assert pack(chans[n]).Ok?;
        ChansPacked(chans[..n], if k <= n then k else n);
        if k <= n {
          assert chans[..n][..k] == chans[..k];
        } else {
          assert chans[..k] == chans;
        }
      } else {
        assert chans[..k] == [];
      }
    }

    lemma LastPacked(chans: seq<T>)
      requires Valid() && PackChans(chans).Ok? && chans != []
      ensures var n := |chans| - 1;
        && PackChans(chans[..n]).Ok? && |PackChans(chans[..n]).value| == CH_WORDS * n
        && pack(chans[n]).Ok? && |pack(chans[n]).value| == CH_WORDS && unpack(pack(chans[n]).value) == Some(chans[n])
        && PackChans(chans).value == PackChans(chans[..n]).value + pack(chans[n]).value
    {
      ChansPacked(chans[..|chans| - 1], 0);
      assert pack(chans[|chans| - 1]).Ok?;
    }

    lemma LastRead(words: seq<nat>, base: nat, front: seq<T>, last: T)
      requires base + CH_WORDS * (|front| + 1) <= |words|
      requires ReadChans(words, base, |front|) == Some(front)
      requires unpack(words[base + CH_WORDS * |front|..base + CH_WORDS * (|front| + 1)]) == Some(last)
      ensures ReadChans(words, base, |front| + 1) == Some(front + [last])
    {
    }

    lemma NoneRead(words: seq<nat>, base: nat)
      requires base <= |words|
      ensures ReadChans(words, base, 0) == Some([])
    {
    }

    lemma {:induction false} ChansRead(words: seq<nat>, base: nat, chans: seq<T>)
      requires Valid()
      requires PackChans(chans).Ok? && base + CH_WORDS * |chans| <= |words|
      requires words[base..base + CH_WORDS * |chans|] == PackChans(chans).value
      ensures ReadChans(words, base, |chans|) == Some(chans)
      decreases |chans|
    {
      hide Format.Valid, Format.PackChans, Format.ReadChans;
      if chans == [] {
        NoneRead(words, base);
      } else {
        LastPacked(chans);
        var n, all := |chans| - 1, PackChans(chans).value;
        assert words[base..base + CH_WORDS * n] == all[..CH_WORDS * n];
        ChansRead(words, base, chans[..n]);
        assert words[base + CH_WORDS * n..base + CH_WORDS * (n + 1)] == all[CH_WORDS * n..];
        LastRead(words, base, chans[..n], chans[n]);
        assert chans == chans[..n] + [chans[n]];
      }
    }

    predicate Packs(r: Record<T>) {
      Pack(r).Ok?
    }

    lemma CfgRead(words: seq<nat>, i: nat, r: Record<T>)
      requires r.Cfg? && Packs(r) && i + CFG_WORDS <= |words|
      requires words[i..i + CFG_WORDS] == Pack(r).value
      ensures ReadAt(words, i) == Some(r)
    {
      var w := words[i..i + CFG_WORDS];
      assert words[i] == w[0] && words[i + 1] == w[1] && words[i + 2] == w[2];
      assert words[i + 3] == w[3] && words[i + 4] == w[4] && words[i + 5] == w[5];
      HeaderParts(1, CFG_WORDS);
    }

    /** The words of a packed block record. */
    lemma PackedBlock(r: Record<T>)
      requires r.Block? && Packs(r)
      ensures PackChans(r.chans).Ok? && |r.chans| <= MAX_CH && 0 <= r.index < TWO64
      ensures Pack(r).value
           == [Header(2, Length(r)), r.index % TWO32, r.index / TWO32, |r.chans|] + PackChans(r.chans).value
    {
      hide Format.PackChans, Header;
    }

    lemma BlockFound(words: seq<nat>, i: nat, index: nat, chans: seq<T>)
      requires |chans| <= MAX_CH && i + Length(Block(index, chans)) <= |words|
      requires words[i] == Header(2, Length(Block(index, chans)))
      requires words[i + 1] == index % TWO32 && words[i + 2] == index / TWO32 && words[i + 3] == |chans|
      requires ReadChans(words, i + HEAD_WORDS, |chans|) == Some(chans)
      ensures ReadAt(words, i) == Some(Block(index, chans))
    {
      HeaderParts(2, Length(Block(index, chans)));
      hide Header, Format.ReadChans;
    }

    lemma BlockRead(words: seq<nat>, i: nat, r: Record<T>)
      requires Valid()
      requires r.Block? && Packs(r) && i + Length(r) <= |words|
      requires words[i..i + Length(r)] == Pack(r).value
      ensures ReadAt(words, i) == Some(r)
    {
      PackedBlock(r);
      hide Header, Format.Pack, Format.Packs, Format.PackChans, Format.ReadChans, Format.ReadAt, Format.Valid;
      var w := words[i..i + Length(r)];
      assert words[i] == w[0] && words[i + 1] == w[1] && words[i + 2] == w[2] && words[i + 3] == w[3];
      assert words[i + HEAD_WORDS..i + Length(r)] == w[4..] == PackChans(r.chans).value;
      ChansRead(words, i + HEAD_WORDS, r.chans);
      BlockFound(words, i, r.index, r.chans);
    }

    lemma PackedLength(r: Record<T>)
      requires Valid() && Packs(r)
      ensures |Pack(r).value| == Length(r) > 0
    {
      if r.Block? {
        ChansPacked(r.chans, 0);
      }
    }

    /** A packed record is read back wherever it stands. */
    lemma RecordRead(words: seq<nat>, i: nat, r: Record<T>)
      requires Valid()
      requires Packs(r) && i + |Pack(r).value| <= |words|
      requires words[i..i + |Pack(r).value|] == Pack(r).value
      ensures |Pack(r).value| == Length(r) && i < |words| && ReadAt(words, i) == Some(r)
    {
      PackedLength(r);
      match r
      case Cfg(_, _, _, _) => CfgRead(words, i, r);
      case Block(_, _) => BlockRead(words, i, r);
    }

    /** A record the packer takes, or a word that cannot be a header. */
    predicate Clean(p: Piece<T>) {
      match p
      case Packed(r) => Packs(r)
      case Stray(w) => w / 0x100_0000 != MAGIC
    }

    predicate AllClean(ps: seq<Piece<T>>) {
      forall k :: 0 <= k < |ps| ==> Clean(ps[k])
    }

    function Words(p: Piece<T>): seq<nat>
      requires Clean(p)
    {
      match p
      case Packed(r) => Pack(r).value
      case Stray(w) => [w]
    }

    function Emit(ps: seq<Piece<T>>): seq<nat>
      requires AllClean(ps)
    {
      if ps == [] then [] else Words(ps[0]) + Emit(ps[1..])
    }

    lemma PackedPiece(pre: seq<nat>, r: Record<T>, w: seq<nat>, rest: seq<nat>, words: seq<nat>)
      requires Valid() && Packs(r) && w == Pack(r).value && words == pre + w + rest
      ensures Records(Parse(words, |pre|)) == [r] + Records(Parse(words, |pre + w|))
    {
      hide Format.ReadAt, Format.Pack, Format.Valid, Format.Parse;
      assert words[|pre|..|pre| + |w|] == w;
      RecordRead(words, |pre|, r);
      ParseWord(words, |pre|);
    }


    lemma StrayPiece(pre: seq<nat>, x: nat, rest: seq<nat>, words: seq<nat>)
      requires x / 0x100_0000 != MAGIC && words == pre + [x] + rest
      ensures Parse(words, |pre|) == Parse(words, |pre + [x]|)
    {
      assert words[|pre|] == x;
    }

    lemma PieceRead(pre: seq<nat>, p: Piece<T>, rest: seq<nat>, words: seq<nat>)
      requires Valid() && Clean(p) && words == pre + Words(p) + rest
      ensures Records(Parse(words, |pre|)) == Sent([p]) + Records(Parse(words, |pre + Words(p)|))
    {
      match p
      case Packed(r) => PackedPiece(pre, r, Words(p), rest, words);
      case Stray(x) => StrayPiece(pre, x, rest, words);
    }

    lemma {:induction false} PiecesRead(pre: seq<nat>, ps: seq<Piece<T>>, words: seq<nat>)
      requires Valid() && AllClean(ps) && words == pre + Emit(ps)
      ensures Records(Parse(words, |pre|)) == Sent(ps)
      decreases |ps|
    {
      if ps != [] {
        var w, rest := Words(ps[0]), Emit(ps[1..]);
        assert words == pre + w + rest;
        PieceRead(pre, ps[0], rest, words);
        PiecesRead(pre + w, ps[1..], words);
        assert Sent(ps) == Sent([ps[0]]) + Sent(ps[1..]);
      }
    }

    /** Records the packer takes, with any words between them whose top byte is not the magic byte, are
        returned exactly, in order. */
    lemma StreamRoundTrip(ps: seq<Piece<T>>)
      requires Valid()
      requires AllClean(ps)
      ensures Records(Parse(Emit(ps), 0)) == Sent(ps)
    {
      assert [] + Emit(ps) == Emit(ps);
      PiecesRead([], ps, Emit(ps));
    }

    // ---- what is read stands in the words ----

    predicate InRange(r: Record<T>) {
      match r
      case Cfg(_, _, _, _) => true
      case Block(_, chans) => forall k :: 0 <= k < |chans| ==> inRange(chans[k])
    }

    lemma ChanBack(front: seq<T>, w: seq<nat>, before: seq<nat>)
      requires Valid() && |w| == CH_WORDS && AreWords(w) && unpack(w).Some?
      requires PackChans(front).Ok? <==> forall k :: 0 <= k < |front| ==> inRange(front[k])
      requires PackChans(front).Ok? ==> PackChans(front).value == before
      ensures var chans := front + [unpack(w).value];
        && (PackChans(chans).Ok? <==> forall k :: 0 <= k < |chans| ==> inRange(chans[k]))
        && (PackChans(chans).Ok? ==> PackChans(chans).value == before + w)
    {
      var c := unpack(w).value;
      var chans := front + [c];
      assert Reads(w, c);
      assert chans[..|front|] == front && chans[|front|] == c;
      assert forall k :: 0 <= k < |front| ==> chans[k] == front[k];
    }

    lemma {:induction false} ChansBack(words: seq<nat>, base: nat, n: nat)
      requires Valid()
      requires AreWords(words) && base + CH_WORDS * n <= |words| && ReadChans(words, base, n).Some?
      ensures var chans := ReadChans(words, base, n).value;
        && (PackChans(chans).Ok? <==> forall k :: 0 <= k < n ==> inRange(chans[k]))
        && (PackChans(chans).Ok? ==> PackChans(chans).value == words[base..base + CH_WORDS * n])
    {
      if n != 0 {
        var front := ReadChans(words, base, n - 1).value;
        var w := words[base + CH_WORDS * (n - 1)..base + CH_WORDS * n];
        ChansBack(words, base, n - 1);
        assert words[base..base + CH_WORDS * n] == words[base..base + CH_WORDS * (n - 1)] + w;
        ChanBack(front, w, words[base..base + CH_WORDS * (n - 1)]);
      }
    }

    lemma CfgBack(words: seq<nat>, i: nat)
      requires AreWords(words) && i < |words| && ReadAt(words, i).Some? && ReadAt(words, i).value.Cfg?
      ensures var r := ReadAt(words, i).value;
        Pack(r) == Ok(words[i..i + CFG_WORDS])
    {
      HeaderBack(words[i]);
      WidePair(words[i + 4], words[i + 5]);
      assert words[i..i + CFG_WORDS]
          == [words[i], words[i + 1], words[i + 2], words[i + 3], words[i + 4], words[i + 5]];
    }

    /** The header and channel words of a block record packed again. */
    lemma BlockWords(low: nat, high: nat, chans: seq<T>)
      requires low < TWO32 && high < TWO32 && |chans| <= MAX_CH
      ensures var r := Block(low + high * TWO32, chans);
        && Packs(r) == PackChans(chans).Ok?
        && (Packs(r) ==> Pack(r).value == [Header(2, Length(r)), low, high, |chans|] + PackChans(chans).value)
    {
      WidePair(low, high);
    }

    lemma BlockSlice(words: seq<nat>, i: nat, n: nat)
      requires i + HEAD_WORDS + CH_WORDS * n <= |words|
      ensures words[i..i + HEAD_WORDS + CH_WORDS * n]
           == [words[i], words[i + 1], words[i + 2], words[i + 3]]
              + words[i + HEAD_WORDS..i + HEAD_WORDS + CH_WORDS * n]
    {
    }

    /** What a block record found at word `i` says of the words there. */
    lemma BlockParts(words: seq<nat>, i: nat)
      requires AreWords(words) && i < |words| && ReadAt(words, i).Some? && ReadAt(words, i).value.Block?
      ensures var r, n := ReadAt(words, i).value, |ReadAt(words, i).value.chans|;
        && n <= MAX_CH && i + HEAD_WORDS + CH_WORDS * n <= |words|
        && words[i] == Header(2, Length(r)) && words[i + 3] == n
        && r.index == words[i + 1] + words[i + 2] * TWO32
        && ReadChans(words, i + HEAD_WORDS, n) == Some(r.chans)
    {
      HeaderBack(words[i]);
    }

    lemma BlockBack(words: seq<nat>, i: nat, index: nat, chans: seq<T>)
      requires Valid()
      requires AreWords(words) && |chans| <= MAX_CH && i + HEAD_WORDS + CH_WORDS * |chans| <= |words|
      requires words[i] == Header(2, Length(Block(index, chans))) && words[i + 3] == |chans|
      requires index == words[i + 1] + words[i + 2] * TWO32
      requires ReadChans(words, i + HEAD_WORDS, |chans|) == Some(chans)
      ensures var r := Block(index, chans);
        && (Packs(r) <==> InRange(r))
        && (Packs(r) ==> Pack(r).value == words[i..i + Length(r)])
    {
      BlockWords(words[i + 1], words[i + 2], chans);
      ChansBack(words, i + HEAD_WORDS, |chans|);
      BlockSlice(words, i, |chans|);
    }

    /** A record read at word `i` packs to exactly the words it was read from when its phases are below
        their code lengths, and is refused otherwise. */
    lemma RecordBack(words: seq<nat>, i: nat)
      requires Valid()
      requires AreWords(words) && i < |words| && ReadAt(words, i).Some?
      ensures var r := ReadAt(words, i).value;
        && (Packs(r) <==> InRange(r))
        && (Packs(r) ==> Pack(r).value == words[i..i + Length(r)])
    {
      match ReadAt(words, i).value
      case Cfg(_, _, _, _) => CfgBack(words, i);
      case Block(index, chans) =>
        BlockParts(words, i);
        BlockBack(words, i, index, chans);
    }

    /** The records found lie in order in disjoint slices from `i` on, each one stands where it was found,
        and no word outside the slices starts a record. */
    ghost predicate Laid(words: seq<nat>, i: nat, found: seq<Found<T>>)
      decreases |found|
    {
      if found == [] then forall j :: i <= j < |words| ==> ReadAt(words, j).None?
      else
        && i <= found[0].at < End(found[0]) <= |words|
        && ReadAt(words, found[0].at) == Some(found[0].record)
        && (forall j :: i <= j < found[0].at ==> ReadAt(words, j).None?)
        && Laid(words, End(found[0]), found[1..])
    }

    lemma {:induction false} ParseLaid(words: seq<nat>, i: nat)
      requires Valid()
      ensures Laid(words, i, Parse(words, i))
      decreases |words| - i
    {
      hide Format.ReadAt;
      if i < |words| {
        match ReadAt(words, i)
        case Some(r) => ParseLaid(words, i + Length(r));
        case None => ParseLaid(words, i + 1);
      }
    }

    /** Only one list of records lies in the words that way: the one the reader returns. */
    lemma {:induction false} LaidIsParse(words: seq<nat>, i: nat, found: seq<Found<T>>)
      requires Valid()
      requires Laid(words, i, found)
      ensures found == Parse(words, i)
      decreases |words| - i
    {
      hide Format.ReadAt;
      if i < |words| {
        match ReadAt(words, i)
        case Some(r) =>
          assert found != [] && found[0] == Found(i, r);
          LaidIsParse(words, i + Length(r), found[1..]);
        case None =>
          LaidIsParse(words, i + 1, found);
      }
    }

    /** A found record whose phases are in range packs to the slice it was found in; any other is refused. */
    predicate Repacks(words: seq<nat>, f: Found<T>) {
      && End(f) <= |words|
      && (Packs(f.record) <==> InRange(f.record))
      && (Packs(f.record) ==> Pack(f.record).value == words[f.at..End(f)])
    }

    lemma {:induction false} ParseRepacks(words: seq<nat>, i: nat, k: nat)
      requires Valid() && AreWords(words) && k < |Parse(words, i)|
      ensures Repacks(words, Parse(words, i)[k])
      decreases |words| - i
    {
      hide Format.ReadAt;
      match ReadAt(words, i)
      case Some(r) =>
        if k == 0 {
          RecordBack(words, i);
        } else {
          ParseRepacks(words, i + Length(r), k - 1);
        }
      case None => ParseRepacks(words, i + 1, k);
    }
  }

  // ---- the engine's format ----

  const WIRE: Format<Channel> := Format(PackCh, w => if |w| == CH_WORDS then UnpackCh(w) else None, PhasesInRange)

  lemma WireWrites(c: Channel)
    requires PackCh(c).Ok?
    ensures WIRE.Writes(c, PackCh(c).value)
  {
    ChannelRoundTrip(c);
  }

  lemma WireReads(w: seq<nat>)
    requires |w| == CH_WORDS && AreWords(w) && UnpackCh(w).Some?
    ensures WIRE.Reads(w, UnpackCh(w).value)
  {
    ChannelBack(w);
  }

  lemma WireValid()
    ensures WIRE.Valid()
  {
    forall c | WIRE.pack(c).Ok?
      ensures WIRE.Writes(c, WIRE.pack(c).value)
    {
      WireWrites(c);
    }
    forall w | |w| == CH_WORDS && AreWords(w) && WIRE.unpack(w).Some?
      ensures WIRE.Reads(w, WIRE.unpack(w).value)
    {
      WireReads(w);
    }
  }

  /** Reading undoes packing, whatever words that cannot be headers lie between the records. */
  lemma WireRoundTrip(ps: seq<Piece<Channel>>)
    requires WIRE.AllClean(ps)
    ensures Records(WIRE.Parse(WIRE.Emit(ps), 0)) == Sent(ps)
  {
    WireValid();
    WIRE.StreamRoundTrip(ps);
  }

  /** On any words at all: what is read lies in disjoint slices in order with no record between them, and
      each record packs back to its slice exactly when its phases are in range. */
  lemma WireReadsBack(words: seq<nat>)
    requires AreWords(words)
    ensures WIRE.Laid(words, 0, WIRE.Parse(words, 0))
    ensures forall k :: 0 <= k < |WIRE.Parse(words, 0)| ==> WIRE.Repacks(words, WIRE.Parse(words, 0)[k])
  {
    WireValid();
    WIRE.ParseLaid(words, 0);
    forall k | 0 <= k < |WIRE.Parse(words, 0)|
      ensures WIRE.Repacks(words, WIRE.Parse(words, 0)[k])
    {
      WIRE.ParseRepacks(words, 0, k);
    }
  }
}
