/** Command records for the FPGA synthesis engine: channel records of 320 bits, CFG and BLOCK records
    of 32-bit words, and the parser that resynchronises on arbitrary input. */
module CmdFmt {
  import opened Bits
  import opened Widths
  import F = Fields

  /** Primary code length by signal kind: C/A, E1B, E1C, B1I. */
  function CodeLen(kind: int): nat {
    if kind == 0 then 1023 else if kind == 1 || kind == 2 then 4092 else 2046
  }

  datatype Channel = Channel(
    ch: int, prn: int, kind: int, codeLen: int, valid: bool, carrInc: int, carrPhase0: int, codeInc: int,
    codePhase0: int, signPhase0: int, signIdx0: int, signBits: int, boc: int, cboc: int,
    coef0: int, coef1: int, coef2: int)

  /** Which field a packer refused. */
  datatype Fault = Kind | CodeLength | Cboc | Ch | Prn | Boc | SignIdx | CarrInc | CarrPhase | SignBits | CodePhase
                 | SignPhase | CodeInc | Coef0 | Coef1 | Coef2 | Nch | FsHz | Shift | StartBlock | BlockIdx

  datatype Result<+T> = Ok(value: T) | Err(fault: Fault)

  // ---- one channel record ----

  /** The first check a channel fails, in the order the packer makes them. */
  function FirstFault(c: Channel): Option<Fault> {
    if !(0 <= c.kind <= 3) then Some(Kind)
    else if c.codeLen != CodeLen(c.kind) then Some(CodeLength)
    else if !(-1 <= c.cboc <= 1) then Some(Cboc)
    else if !(0 <= c.ch < MAX_CH) then Some(Ch)
    else if !(0 <= c.prn < 64) then Some(Prn)
    else if !(0 <= c.boc <= 1) then Some(Boc)
    else if !(0 <= c.signIdx0 < 32) then Some(SignIdx)
    else if !(-TWO31 <= c.carrInc < TWO31) then Some(CarrInc)
    else if !(0 <= c.carrPhase0 < TWO32) then Some(CarrPhase)
    else if !(0 <= c.signBits < TWO32) then Some(SignBits)
    else if !(0 <= c.codePhase0 < c.codeLen * FRAC) then Some(CodePhase)
    else if !(0 <= c.signPhase0 < c.codeLen * FRAC) then Some(SignPhase)
    else if !(0 <= c.codeInc < TWO43) then Some(CodeInc)
    else if !(-TWO17 <= c.coef0 < TWO17) then Some(Coef0)
    else if !(-TWO17 <= c.coef1 < TWO17) then Some(Coef1)
    else if !(-TWO17 <= c.coef2 < TWO17) then Some(Coef2)
    else None
  }

  predicate Valid(c: Channel) {
    FirstFault(c) == None
  }

  /** The raw fields of a record, in record order. */
  datatype Raw = Raw(
    ch: int, prn: int, kind: int, valid: int, boc: int, cboc: int, signIdx0: int, incLow: int, carrInc: int,
    carrPhase0: int, signBits: int, incHigh: int, codePhase0: int, signPhase0: int, coef0: int, coef1: int, coef2: int)

  predicate Fits(r: Raw) {
    && 0 <= r.ch < 64 && 0 <= r.prn < 64 && 0 <= r.kind < 4 && 0 <= r.valid < 2 && 0 <= r.boc < 2 && 0 <= r.cboc < 4
    && 0 <= r.signIdx0 < 32 && 0 <= r.incLow < 512 && 0 <= r.carrInc < TWO32 && 0 <= r.carrPhase0 < TWO32
    && 0 <= r.signBits < TWO32 && 0 <= r.incHigh < TWO34 && 0 <= r.codePhase0 < TWO52 && 0 <= r.signPhase0 < TWO52
    && 0 <= r.coef0 < TWO18 && 0 <= r.coef1 < TWO18 && 0 <= r.coef2 < TWO18
  }

  /** A signed number as the word of the given modulus that stands for it, and back. */
  function Wrap(x: int, modulus: int): int {
    if x < 0 then x + modulus else x
  }

  function Unwrap(v: int, modulus: int): int {
    if v >= modulus / 2 then v - modulus else v
  }

  function ToRaw(c: Channel): Raw {
    Raw(c.ch, c.prn, c.kind, Num(c.valid), c.boc, if c.cboc == -1 then 2 else c.cboc, c.signIdx0, c.codeInc % 512,
        Wrap(c.carrInc, TWO32), c.carrPhase0, c.signBits, c.codeInc / 512, c.codePhase0, c.signPhase0,
        Wrap(c.coef0, TWO18), Wrap(c.coef1, TWO18), Wrap(c.coef2, TWO18))
  }

  /** The channel a record stands for; the sub-carrier code 3 is illegal. */
  function FromRaw(r: Raw): Option<Channel> {
    if r.cboc == 3 then None
    else Some(Channel(
      r.ch, r.prn, r.kind, CodeLen(r.kind), r.valid == 1, Unwrap(r.carrInc, TWO32), r.carrPhase0,
      r.incLow + 512 * r.incHigh, r.codePhase0, r.signPhase0, r.signIdx0, r.signBits, r.boc,
      if r.cboc == 2 then -1 else r.cboc, Unwrap(r.coef0, TWO18), Unwrap(r.coef1, TWO18), Unwrap(r.coef2, TWO18)))
  }

  predicate PhasesInRange(c: Channel) {
    c.codePhase0 < c.codeLen * FRAC && c.signPhase0 < c.codeLen * FRAC
  }

  /** A channel the packer accepts fits the record, and its fields give it back. */
  lemma RawRoundTrip(c: Channel)
    requires Valid(c)
    ensures Fits(ToRaw(c)) && FromRaw(ToRaw(c)) == Some(c) && PhasesInRange(c)
  {
  }

  /** A channel read from a record is accepted by the packer exactly when both phases are below the
      code length, and it always packs to the same fields. */
  lemma RawBack(r: Raw)
    requires Fits(r) && FromRaw(r).Some?
    ensures var c := FromRaw(r).value;
      ToRaw(c) == r && (Valid(c) <==> PhasesInRange(c))
  {
  }

  // ---- fields to words ----

  /** Field widths in record order; they fill 320 bits. */
  const WIDTHS: seq<nat> := [6, 6, 2, 1, 1, 2, 5, 9, 32, 32, 32, 34, 52, 52, 18, 18, 18]

  function ToSeq(r: Raw): (vs: seq<nat>)
    requires Fits(r)
    ensures |vs| == 17
  {
    [r.ch, r.prn, r.kind, r.valid, r.boc, r.cboc, r.signIdx0, r.incLow, r.carrInc, r.carrPhase0, r.signBits, r.incHigh,
     r.codePhase0, r.signPhase0, r.coef0, r.coef1, r.coef2]
  }

  function FromSeq(vs: seq<nat>): Raw
    requires |vs| == 17
  {
    Raw(vs[0], vs[1], vs[2], vs[3], vs[4], vs[5], vs[6], vs[7], vs[8], vs[9], vs[10], vs[11], vs[12], vs[13], vs[14],
        vs[15], vs[16])
  }

  lemma FieldPowers()
    ensures Pow2(1) == 2 && Pow2(2) == 4 && Pow2(5) == 32 && Pow2(6) == 64 && Pow2(9) == 512
    ensures Pow2(18) == TWO18 && Pow2(32) == TWO32 && Pow2(34) == TWO34 && Pow2(52) == TWO52
  {
    assert Pow2(9) == 512;
    Pow2Sum(9, 9);
    Pow2Sum(16, 16);
    Pow2Sum(8, 8);
    assert Pow2(8) == 256;
    Pow2Sum(32, 2);
    Pow2Sum(34, 18);
  }

  /** Fitting the record is fitting each field width. */
  lemma FitsAsWidths(vs: seq<nat>)
    requires |vs| == 17
    ensures F.Fits(WIDTHS, vs) <==> Fits(FromSeq(vs))
  {
    FieldPowers();
    if Fits(FromSeq(vs)) {
      forall i | 0 <= i < 17
        ensures vs[i] < Pow2(WIDTHS[i])
      {
        FitOne(vs, i);
      }
    }
    if F.Fits(WIDTHS, vs) {
      FitAll(vs);
    }
  }

  lemma FitOne(vs: seq<nat>, i: nat)
    requires |vs| == 17 && i < 17 && Fits(FromSeq(vs))
    ensures vs[i] < Pow2(WIDTHS[i])
  {
    FieldPowers();
  }

  lemma FitAll(vs: seq<nat>)
    requires F.Fits(WIDTHS, vs)
    ensures Fits(FromSeq(vs))
  {
    FieldPowers();
    hide Pow2;
    assert vs[0] < Pow2(WIDTHS[0]) && vs[1] < Pow2(WIDTHS[1]) && vs[2] < Pow2(WIDTHS[2]) && vs[3] < Pow2(WIDTHS[3]);
    assert vs[4] < Pow2(WIDTHS[4]) && vs[5] < Pow2(WIDTHS[5]) && vs[6] < Pow2(WIDTHS[6]) && vs[7] < Pow2(WIDTHS[7]);
    assert vs[8] < Pow2(WIDTHS[8]) && vs[9] < Pow2(WIDTHS[9]) && vs[10] < Pow2(WIDTHS[10]) && vs[11] < Pow2(WIDTHS[11]);
    assert vs[12] < Pow2(WIDTHS[12]) && vs[13] < Pow2(WIDTHS[13]) && vs[14] < Pow2(WIDTHS[14]);
    assert vs[15] < Pow2(WIDTHS[15]) && vs[16] < Pow2(WIDTHS[16]);
  }

  /** Bit offsets of the fields, as the format's table lists them. */
  const OFFSETS: seq<nat> := [0, 6, 12, 14, 15, 16, 18, 23, 32, 64, 96, 128, 162, 214, 266, 284, 302]

  /** Ten words of 32 bits. */
  const WORDS: seq<nat> := [32, 32, 32, 32, 32, 32, 32, 32, 32, 32]

  /** A function `f` of suffix position adds up the widths: the total is what it says at the front. */
  lemma {:induction false} WidthBySuffix(ws: seq<nat>, totals: seq<nat>)
    requires |totals| == |ws| + 1 && totals[|ws|] == 0
    requires forall i :: 0 <= i < |ws| ==> totals[i] == ws[i] + totals[i + 1]
    ensures F.Width(ws) == totals[0]
    decreases |ws|
  {
    if ws != [] {
      WidthBySuffix(ws[1..], totals[1..]);
    }
  }

  predicate Stepwise(ws: seq<nat>, offs: seq<nat>) {
    |offs| == |ws| > 0 && offs[0] == 0 && forall k :: 0 <= k < |ws| - 1 ==> offs[k + 1] == offs[k] + ws[k]
  }

  lemma {:induction false} OffsetByStep(ws: seq<nat>, offs: seq<nat>, i: nat)
    requires Stepwise(ws, offs) && i < |ws|
    ensures offs[i] == F.Offset(ws, i)
    decreases i
  {
    if i != 0 {
      OffsetByStep(ws, offs, i - 1);
      F.OffsetNext(ws, i - 1);
    }
  }

  lemma OffsetsByStep(ws: seq<nat>, offs: seq<nat>)
    requires Stepwise(ws, offs)
    ensures F.Placed(offs, ws)
  {
    forall i | 0 <= i < |ws|
      ensures offs[i] == F.Offset(ws, i)
    {
      OffsetByStep(ws, offs, i);
    }
  }

  lemma FieldTotal()
    ensures F.Width(WIDTHS) == 320
  {
    WidthBySuffix(WIDTHS, [320, 314, 308, 306, 305, 304, 302, 297, 288, 256, 224, 192, 158, 106, 54, 36, 18, 0]);
  }

  lemma WordTotal()
    ensures F.Width(WORDS) == 320
  {
    WidthBySuffix(WORDS, [320, 288, 256, 224, 192, 160, 128, 96, 64, 32, 0]);
  }

  lemma OneStep(k: nat)
    requires k < 16
    ensures OFFSETS[k + 1] == OFFSETS[k] + WIDTHS[k]
  {
  }

  /** The fields lie side by side from bit 0 and fill the ten words, no bit spare. */
  lemma Layout()
    ensures F.Width(WIDTHS) == 320 == F.Width(WORDS)
    ensures F.Placed(OFFSETS, WIDTHS)
  {
    hide F.Width, F.Offset;
    FieldTotal();
    WordTotal();
    forall k | 0 <= k < 16
      ensures OFFSETS[k + 1] == OFFSETS[k] + WIDTHS[k]
    {
      OneStep(k);
    }
    OffsetsByStep(WIDTHS, OFFSETS);
  }

  predicate AreWords(words: seq<nat>) {
    forall i :: 0 <= i < |words| ==> words[i] < TWO32
  }

  /** The ten words of a channel, or the first check that refuses it. */
  function PackCh(c: Channel): Result<seq<nat>> {
    match FirstFault(c)
    case Some(fault) => Err(fault)
    case None => RawRoundTrip(c); Ok(F.Unpack(WORDS, F.Pack(WIDTHS, ToSeq(ToRaw(c)))))
  }

  function UnpackCh(words: seq<nat>): Option<Channel>
    requires |words| == 10
  {
    FromRaw(FromSeq(F.Unpack(WIDTHS, F.Pack(WORDS, words))))
  }

  lemma WordsFit(words: seq<nat>)
    requires |words| == 10
    ensures AreWords(words) <==> F.Fits(WORDS, words)
  {
    FieldPowers();
    assert forall i :: 0 <= i < 10 ==> WORDS[i] == 32;
  }

  /** Fields to words and back. */
  lemma FieldsThroughWords(r: Raw)
    requires Fits(r)
    ensures var words := F.Unpack(WORDS, F.Pack(WIDTHS, ToSeq(r)));
      |words| == 10 && AreWords(words) && F.Unpack(WIDTHS, F.Pack(WORDS, words)) == ToSeq(r)
  {
    var vs := ToSeq(r);
    FitsAsWidths(vs);
    Layout();
    F.PackBound(WIDTHS, vs);
    var acc := F.Pack(WIDTHS, vs);
    F.UnpackFits(WORDS, acc);
    WordsFit(F.Unpack(WORDS, acc));
    F.PackUnpack(WORDS, acc);
    F.UnpackPack(WIDTHS, vs);
  }

  /** Every channel the packer accepts comes back exactly from its ten words. */
  lemma ChannelRoundTrip(c: Channel)
    requires Valid(c)
    ensures PackCh(c).Ok? && |PackCh(c).value| == 10 && AreWords(PackCh(c).value)
    ensures UnpackCh(PackCh(c).value) == Some(c) && PhasesInRange(c)
  {
    RawRoundTrip(c);
    FieldsThroughWords(ToRaw(c));
  }

  lemma WordsThroughFields(words: seq<nat>)
    requires |words| == 10 && AreWords(words)
    ensures var vs := F.Unpack(WIDTHS, F.Pack(WORDS, words));
      Fits(FromSeq(vs)) && F.Unpack(WORDS, F.Pack(WIDTHS, vs)) == words
  {
    var acc := F.Pack(WORDS, words);
    Layout();
    WordsFit(words);
    F.PackBound(WORDS, words);
    F.UnpackFits(WIDTHS, acc);
    FitsAsWidths(F.Unpack(WIDTHS, acc));
    F.PackUnpack(WIDTHS, acc);
    F.UnpackPack(WORDS, words);
  }

  lemma ToSeqFromSeq(vs: seq<nat>)
    requires |vs| == 17 && Fits(FromSeq(vs))
    ensures ToSeq(FromSeq(vs)) == vs
  {
  }

  /** Any ten words the reader takes for a channel are packed back to themselves exactly when both phases
      are below the code length, and refused otherwise. */
  lemma ChannelBack(words: seq<nat>)
    requires |words| == 10 && AreWords(words) && UnpackCh(words).Some?
    ensures var c := UnpackCh(words).value;
      PackCh(c) == if PhasesInRange(c) then Ok(words)
                   else if c.codePhase0 < c.codeLen * FRAC then Err(SignPhase) else Err(CodePhase)
  {
    WordsThroughFields(words);
    var vs := F.Unpack(WIDTHS, F.Pack(WORDS, words));
    RawBack(FromSeq(vs));
    ToSeqFromSeq(vs);
    if !PhasesInRange(FromRaw(FromSeq(vs)).value) {
      RefusedForPhase(FromSeq(vs));
    }
  }

  lemma RefusedForPhase(r: Raw)
    requires Fits(r) && FromRaw(r).Some? && !PhasesInRange(FromRaw(r).value)
    ensures var c := FromRaw(r).value;
      FirstFault(c) == if c.codePhase0 < c.codeLen * FRAC then Some(SignPhase) else Some(CodePhase)
  {
  }

  lemma {:induction false} PackSingle(ws: seq<nat>, vs: seq<nat>, i: nat)
    requires |vs| == |ws| && i < |ws| && forall j :: 0 <= j < |vs| && j != i ==> vs[j] == 0
    ensures F.Pack(ws, vs) == Pow2(F.Offset(ws, i)) * vs[i]
    decreases |ws|
  {
    if i == 0 {
      PackNothing(ws[1..], vs[1..]);
    } else {
      PackSingle(ws[1..], vs[1..], i - 1);
      Pow2Sum(ws[0], F.Offset(ws[1..], i - 1));
      assert vs[1..][i - 1] == vs[i];
      Regroup(Pow2(ws[0]), Pow2(F.Offset(ws[1..], i - 1)), vs[i]);
    }
  }

  lemma {:induction false} PackNothing(ws: seq<nat>, vs: seq<nat>)
    requires |vs| == |ws| && forall j :: 0 <= j < |vs| ==> vs[j] == 0
    ensures F.Pack(ws, vs) == 0
    decreases |ws|
  {
    if ws != [] {
      PackNothing(ws[1..], vs[1..]);
    }
  }

  lemma Regroup(p: int, q: int, v: int)
    ensures p * (q * v) == p * q * v
  {
  }

  /** Ten words that read as a C/A channel whose code phase lies beyond its code length. */
  const FAR: seq<nat> := [0, 0, 0, 0, 0, 0, 0x20_0000, 0, 0, 0]

  const FAR_FIELDS: seq<nat> := [0, 0, 0, 0, 0, 0, 0, 0, 0, 0, 0, 0, 0x8_0000_0000_0000, 0, 0, 0, 0]

  lemma FarWords()
    ensures F.Pack(WORDS, FAR) == Pow2(192) * 0x20_0000
  {
    hide F.Offset, F.Pack, Pow2;
    var offs: seq<nat> := [0, 32, 64, 96, 128, 160, 192, 224, 256, 288];
    assert forall k :: 0 <= k < 9 ==> offs[k + 1] == offs[k] + WORDS[k];
    OffsetByStep(WORDS, offs, 6);
    PackSingle(WORDS, FAR, 6);
  }

  lemma FarOffset()
    ensures F.Offset(WIDTHS, 12) == 162
  {
    hide F.Offset, F.Width;
    Layout();
    assert OFFSETS[12] == 162;
  }

  lemma FarFields()
    ensures F.Pack(WIDTHS, FAR_FIELDS) == Pow2(162) * 0x8_0000_0000_0000
  {
    hide F.Offset, F.Pack, Pow2;
    FarOffset();
    PackSingle(WIDTHS, FAR_FIELDS, 12);
  }

  lemma FarPower()
    ensures Pow2(192) * 0x20_0000 == Pow2(162) * 0x8_0000_0000_0000
  {
    Pow2Sum(15, 15);
    assert Pow2(15) == 32768;
    Pow2Sum(162, 30);
    hide Pow2;
    Regroup(Pow2(162), Pow2(30), 0x20_0000);
  }

  lemma FarFit()
    ensures Fits(FromSeq(FAR_FIELDS)) && F.Fits(WIDTHS, FAR_FIELDS)
    ensures FromRaw(FromSeq(FAR_FIELDS)).Some?
    ensures var c := FromRaw(FromSeq(FAR_FIELDS)).value; c.codePhase0 >= c.codeLen * FRAC
  {
    FitsAsWidths(FAR_FIELDS);
  }

  lemma FarRead()
    ensures UnpackCh(FAR) == FromRaw(FromSeq(FAR_FIELDS))
  {
    hide F.Pack, F.Unpack, F.Fits, FromRaw, FromSeq, Pow2;
    FarWords();
    FarFields();
    FarPower();
    FarFit();
    F.UnpackPack(WIDTHS, FAR_FIELDS);
  }

  lemma FarAreWords()
    ensures AreWords(FAR)
  {
  }

  /** They are read without complaint, and the packer refuses what they are read as. */
  lemma FarRefused()
    ensures AreWords(FAR) && UnpackCh(FAR).Some? && !PhasesInRange(UnpackCh(FAR).value)
    ensures PackCh(UnpackCh(FAR).value) == Err(CodePhase)
  {
    hide UnpackCh, PackCh, FromRaw, FromSeq, AreWords, Fits, F.Fits;
    FarRead();
    FarFit();
    FarAreWords();
    ChannelBack(FAR);
  }

  /** The packer's loop: fields or-ed into one number at their table offsets, then cut into words. */
  method PackChannel(c: Channel) returns (r: Result<seq<nat>>)
    ensures r == PackCh(c)
  {
    var fault := FirstFault(c);
    if fault.Some? {
      return Err(fault.value);
    }
    RawRoundTrip(c);
    var vs := ToSeq(ToRaw(c));
    FitsAsWidths(vs);
    Layout();
    var acc := F.PackLoop(OFFSETS, WIDTHS, vs);
    r := Ok(F.Unpack(WORDS, acc));
  }

  /** The reader's fields, each shifted and masked out at its table offset. */
  method UnpackChannel(words: seq<nat>) returns (r: Option<Channel>)
    requires |words| == 10
    ensures r == UnpackCh(words)
  {
    var acc := F.Pack(WORDS, words);
    Layout();
    var vs := F.UnpackLoop(OFFSETS, WIDTHS, acc);
    r := FromRaw(FromSeq(vs));
  }
}
