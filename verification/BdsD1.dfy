/** BeiDou D1: BCH(15,11,1) codewords, their interleaving into words and subframes, and the decoder
    that corrects one bit per codeword (BDS-SIS-ICD-B1I-3.0, section 5.1.3). */
module BdsD1 {
  import opened Bits

  /** A polynomial of degree below four, `a` its leading coefficient. */
  datatype R4 = R4(a: Bit, b: Bit, c: Bit, d: Bit)

  const ZERO := R4(false, false, false, false)

  function Xor(r: R4, s: R4): R4 {
    R4(r.a != s.a, r.b != s.b, r.c != s.c, r.d != s.d)
  }

  function ToBits(r: R4): (s: seq<Bit>)
    ensures |s| == 4
  {
    [r.a, r.b, r.c, r.d]
  }

  /** One step of the encoder's shift register, g(x) = x^4 + x + 1. */
  function Register(r: R4, bit: Bit): R4 {
    var feedback := r.a != bit;
    R4(r.b, r.c, r.d != feedback, feedback)
  }

  function Registers(info: seq<Bit>): R4 {
    if info == [] then ZERO
    else Register(Registers(info[..|info| - 1]), info[|info| - 1])
  }

  /** Systematic codeword: the information bits and four check bits. */
  function Codeword(info: seq<Bit>): (cw: seq<Bit>)
    ensures |cw| == |info| + 4
  {
    info + ToBits(Registers(info))
  }

  method BchEncode(info: seq<Bit>) returns (cw: seq<Bit>)
    ensures cw == Codeword(info)
  {
    var reg := ZERO;
    for i := 0 to |info|
      invariant reg == Registers(info[..i])
    {
      assert info[..i + 1][..i] == info[..i];
      var top := reg.a;
      reg := R4(reg.b, reg.c, reg.d, false);
      if top != info[i] {
        reg := Xor(reg, R4(false, false, true, true));
      }
    }
    assert info[..|info|] == info;
    cw := info + ToBits(reg);
  }

  // ---- syndrome: remainder of the received polynomial ----

  /** Remainder of r(x) * x + bit. */
  function Append(r: R4, bit: Bit): R4 {
    R4(r.b, r.c, r.d != r.a, bit != r.a)
  }

  function Remainder(w: seq<Bit>): R4 {
    if w == [] then ZERO else Append(Remainder(w[..|w| - 1]), w[|w| - 1])
  }

  lemma RemainderBy(w: seq<Bit>, b: Bit)
    ensures Remainder(w + [b]) == Append(Remainder(w), b)
  {
    assert (w + [b])[..|w|] == w;
  }

  /** Schoolbook division of a 15-bit word from the top. */
  method BchSyndrome(cw: seq<Bit>) returns (syn: R4)
    requires |cw| == 15
    ensures syn == Remainder(cw)
  {
    hide Remainder;
    var r := cw;
    StartOfDivision(cw);
    for i := 0 to 11
      invariant |r| == 15
      invariant R4(r[i], r[i + 1], r[i + 2], r[i + 3]) == Remainder(cw[..i + 4])
      invariant forall k :: i + 4 <= k < 15 ==> r[k] == cw[k]
    {
      RemainderBy(cw[..i + 4], cw[i + 4]);
      assert cw[..i + 5] == cw[..i + 4] + [cw[i + 4]];
      if r[i] {
        r := r[i := !r[i]][i + 3 := !r[i + 3]][i + 4 := !r[i + 4]];
      }
    }
    assert cw[..15] == cw;
    syn := R4(r[11], r[12], r[13], r[14]);
  }

  lemma StartOfDivision(cw: seq<Bit>)
    requires |cw| == 15
    ensures Remainder(cw[..4]) == R4(cw[0], cw[1], cw[2], cw[3])
  {
    assert cw[..4][..3] == cw[..3] && cw[..3][..2] == cw[..2] && cw[..2][..1] == cw[..1] && cw[..1][..0] == [];
    assert Remainder(cw[..1]) == R4(false, false, false, cw[0]);
    assert Remainder(cw[..2]) == R4(false, false, cw[0], cw[1]);
    assert Remainder(cw[..3]) == R4(false, cw[0], cw[1], cw[2]);
  }

  function Append4(r: R4, t: R4): R4 {
    Append(Append(Append(Append(r, t.a), t.b), t.c), t.d)
  }

  lemma RegisterIsRemainder(r: R4, bit: Bit)
    ensures Register(Append4(r, ZERO), bit) == Append4(Append(r, bit), ZERO)
  {
  }

  /** The encoder's register holds the remainder of info(x) * x^4. */
  lemma {:induction false} RegistersDivide(info: seq<Bit>)
    ensures Registers(info) == Append4(Remainder(info), ZERO)
  {
    if info != [] {
      RegistersDivide(info[..|info| - 1]);
      RegisterIsRemainder(Remainder(info[..|info| - 1]), info[|info| - 1]);
    }
  }

  lemma Append4Zero(r: R4, t: R4)
    ensures Append4(r, t) == ZERO <==> t == Append4(r, ZERO)
  {
  }

  lemma RemainderTail(info: seq<Bit>, t: R4)
    ensures Remainder(info + ToBits(t)) == Append4(Remainder(info), t)
  {
    var w := info + ToBits(t);
    var n := |info|;
    assert w[..n + 3][..n + 2] == w[..n + 2] && w[..n + 2][..n + 1] == w[..n + 1] && w[..n + 1][..n] == info;
    assert Remainder(w[..n + 1]) == Append(Remainder(info), t.a);
    assert Remainder(w[..n + 2]) == Append(Remainder(w[..n + 1]), t.b);
    assert Remainder(w[..n + 3]) == Append(Remainder(w[..n + 2]), t.c);
  }

  /** Encoder and syndrome agree: a word has syndrome zero exactly when re-encoding its information
      bits gives it back. */
  lemma SyndromeZero(info: seq<Bit>, t: R4)
    ensures Remainder(info + ToBits(t)) == ZERO <==> info + ToBits(t) == Codeword(info)
  {
    RemainderTail(info, t);
    RegistersDivide(info);
    Append4Zero(Remainder(info), t);
    var p := Registers(info);
    if info + ToBits(t) == Codeword(info) {
      assert forall i :: 0 <= i < 4 ==> (info + ToBits(t))[|info| + i] == ToBits(t)[i];
      assert forall i :: 0 <= i < 4 ==> (info + ToBits(p))[|info| + i] == ToBits(p)[i];
      assert ToBits(t)[0] == ToBits(p)[0] && ToBits(t)[1] == ToBits(p)[1];
      assert ToBits(t)[2] == ToBits(p)[2] && ToBits(t)[3] == ToBits(p)[3];
    }
  }

  // ---- one wrong bit ----

  /** Remainder of x^j. */
  function Column(j: nat): R4 {
    if j == 0 then R4(false, false, false, true) else Append(Column(j - 1), false)
  }

  lemma AppendLinear(r: R4, s: R4, p: Bit, q: Bit)
    ensures Append(Xor(r, s), p != q) == Xor(Append(r, p), Append(s, q))
  {
  }

  /** A wrong bit adds the remainder of its power of x to the syndrome. */
  lemma {:induction false} FlipSyndrome(w: seq<Bit>, k: nat)
    requires k < |w|
    ensures Remainder(Flip(w, k)) == Xor(Remainder(w), Column(|w| - 1 - k))
  {
    var n := |w| - 1;
    if k == n {
      assert Flip(w, k)[..n] == w[..n];
    } else {
      assert Flip(w, k)[..n] == Flip(w[..n], k);
      FlipSyndrome(w[..n], k);
      AppendLinear(Remainder(w[..n]), Column(n - 1 - k), w[n], false);
    }
  }

  /** The decoder's table: which of the 15 bits a syndrome points at. */
  function SyndromeBit(s: R4): Option<nat> {
    match (s.a, s.b, s.c, s.d)
    case (true, false, false, true) => Some(0)
    case (true, true, false, true) => Some(1)
    case (true, true, true, true) => Some(2)
    case (true, true, true, false) => Some(3)
    case (false, true, true, true) => Some(4)
    case (true, false, true, false) => Some(5)
    case (false, true, false, true) => Some(6)
    case (true, false, true, true) => Some(7)
    case (true, true, false, false) => Some(8)
    case (false, true, true, false) => Some(9)
    case (false, false, true, true) => Some(10)
    case (true, false, false, false) => Some(11)
    case (false, true, false, false) => Some(12)
    case (false, false, true, false) => Some(13)
    case (false, false, false, true) => Some(14)
    case _ => None
  }

  /** The table inverts the columns, and only the zero syndrome is missing from it. */
  lemma TableInvertsColumns(k: nat)
    requires k < 15
    ensures SyndromeBit(Column(14 - k)) == Some(k)
  {
    Columns();
  }

  lemma Columns()
    ensures Column(3) == R4(true, false, false, false) && Column(6) == R4(true, true, false, false)
    ensures Column(9) == R4(true, false, true, false) && Column(12) == R4(true, true, true, true)
    ensures Column(14) == R4(true, false, false, true)
  {
    assert Column(3) == R4(true, false, false, false);
    assert Column(6) == R4(true, true, false, false);
    assert Column(9) == R4(true, false, true, false);
    assert Column(12) == R4(true, true, true, true);
  }

  lemma TableTotal(s: R4)
    ensures SyndromeBit(s).None? <==> s == ZERO
    ensures SyndromeBit(s).Some? ==> SyndromeBit(s).value < 15
  {
  }

  datatype Decoded = Decoded(info: seq<Bit>, ok: bool, corrected: bool)

  function DecodeCw(cw: seq<Bit>, correct: bool): (d: Decoded)
    requires |cw| == 15
    ensures |d.info| == 11
  {
    var syn := Remainder(cw);
    TableTotal(syn);
    if syn == ZERO then Decoded(cw[..11], true, false)
    else if correct && SyndromeBit(syn).Some? then
      var fixed := Flip(cw, SyndromeBit(syn).value);
      Decoded(fixed[..11], Remainder(fixed) == ZERO, true)
    else Decoded(cw[..11], false, false)
  }

  method DecodeCodeword(cw: seq<Bit>, correct: bool) returns (d: Decoded)
    requires |cw| == 15
    ensures d == DecodeCw(cw, correct)
  {
    var syn := BchSyndrome(cw);
    TableTotal(syn);
    if syn == ZERO {
      return Decoded(cw[..11], true, false);
    }
    if correct && SyndromeBit(syn).Some? {
      var k := SyndromeBit(syn).value;
      var fixed := cw[k := !cw[k]];
      var again := BchSyndrome(fixed);
      return Decoded(fixed[..11], again == ZERO, true);
    }
    d := Decoded(cw[..11], false, false);
  }

  lemma {:induction false} DistOne(a: seq<Bit>, b: seq<Bit>)
    requires |a| == |b| && Dist(a, b) == 1
    ensures exists k :: 0 <= k < |a| && b == Flip(a, k)
  {
    var n := |a| - 1;
    if a[n] != b[n] {
      DistZero(a[..n], b[..n]);
      assert b == Flip(a, n);
    } else {
      DistOne(a[..n], b[..n]);
      var k :| 0 <= k < n && b[..n] == Flip(a[..n], k);
      assert b == b[..n] + [b[n]];
      assert b == Flip(a, k);
    }
  }

  lemma FlipTwice(w: seq<Bit>, k: nat)
    requires k < |w|
    ensures Flip(Flip(w, k), k) == w
  {
  }

  lemma CodewordClean(info: seq<Bit>)
    requires |info| == 11
    ensures Remainder(Codeword(info)) == ZERO && Codeword(info)[..11] == info
  {
    SyndromeZero(info, Registers(info));
  }

  lemma XorZero(s: R4)
    ensures Xor(ZERO, s) == s
  {
  }

  /** With at most one wrong bit a codeword decodes to its information bits, reports success, and
      says truly whether it had to correct. */
  lemma OneErrorCorrected(info: seq<Bit>, received: seq<Bit>)
    requires |info| == 11 && |received| == 15
    requires Dist(Codeword(info), received) <= 1
    ensures DecodeCw(received, true) == Decoded(info, true, received != Codeword(info))
  {
    var sent := Codeword(info);
    CodewordClean(info);
    DistZero(sent, received);
    if received != sent {
      DistOne(sent, received);
      var k :| 0 <= k < 15 && received == Flip(sent, k);
      FlipSyndrome(sent, k);
      XorZero(Column(14 - k));
      TableInvertsColumns(k);
      FlipTwice(sent, k);
    }
  }

  lemma ColumnOfBit(s: R4)
    requires s != ZERO
    ensures SyndromeBit(s).Some? && SyndromeBit(s).value < 15 && Column(14 - SyndromeBit(s).value) == s
  {
    Columns();
  }

  lemma CleanIsCodeword(w: seq<Bit>)
    requires |w| == 15 && Remainder(w) == ZERO
    ensures w == Codeword(w[..11])
  {
    var t := R4(w[11], w[12], w[13], w[14]);
    assert w == w[..11] + ToBits(t);
    SyndromeZero(w[..11], t);
  }

  /** Every 15 bits lie within one bit of a codeword, and the decoder takes that one: it always reports success,
      and a correction exactly when the bits were no codeword. */
  lemma NearestCodeword(cw: seq<Bit>)
    requires |cw| == 15
    ensures var d := DecodeCw(cw, true);
      d.ok && Dist(Codeword(d.info), cw) <= 1 && (d.corrected <==> cw != Codeword(d.info))
  {
    hide Remainder, Column, Codeword, Dist;
    var syn := Remainder(cw);
    if syn == ZERO {
      CleanIsCodeword(cw);
      DistZero(cw, cw);
    } else {
      ColumnOfBit(syn);
      var k := SyndromeBit(syn).value;
      var fixed := Flip(cw, k);
      FlipSyndrome(cw, k);
      assert Remainder(fixed) == ZERO;
      CleanIsCodeword(fixed);
      DistFlip(cw, k);
      DistZero(fixed, cw);
    }
  }

  /** A codeword's information bits come back exactly when at most one of its bits is wrong. */
  lemma CorrectsExactly(info: seq<Bit>, received: seq<Bit>)
    requires |info| == 11 && |received| == 15
    ensures DecodeCw(received, true).info == info <==> Dist(Codeword(info), received) <= 1
  {
    hide DecodeCw, Codeword, Dist;
    NearestCodeword(received);
    if Dist(Codeword(info), received) <= 1 {
      OneErrorCorrected(info, received);
    }
  }

  /** Two wrong bits anywhere always give other information bits, under a report of success. */
  lemma TwoErrorsMistaken(info: seq<Bit>, j: nat, k: nat)
    requires |info| == 11 && j < 15 && k < 15 && j != k
    ensures var d := DecodeCw(Flip(Flip(Codeword(info), j), k), true);
      d.ok && d.corrected && d.info != info
  {
    hide DecodeCw, Codeword, Dist, Remainder;
    var sent := Codeword(info);
    var bad := Flip(Flip(sent, j), k);
    CorrectsExactly(info, bad);
    NearestCodeword(bad);
    TwoApart(sent, j, k);
    CodewordClean(info);
    FlipSyndrome(sent, j);
    FlipSyndrome(Flip(sent, j), k);
    XorZero(Column(14 - j));
    ColumnsDiffer(j, k);
    if bad == Codeword(DecodeCw(bad, true).info) {
      CodewordClean(DecodeCw(bad, true).info);
    }
  }

  lemma ColumnsDiffer(j: nat, k: nat)
    requires j < 15 && k < 15 && j != k
    ensures Xor(Column(14 - j), Column(14 - k)) != ZERO
  {
    TableInvertsColumns(j);
    TableInvertsColumns(k);
  }

  lemma TwoApart(w: seq<Bit>, j: nat, k: nat)
    requires j < |w| && k < |w| && j != k
    ensures Dist(w, Flip(Flip(w, j), k)) > 1
  {
    hide Dist;
    var v := Flip(Flip(w, j), k);
    assert v[j] != w[j] && v[k] != w[k];
    DistZero(w, v);
    if Dist(w, v) == 1 {
      DistOne(w, v);
    }
  }

  // ---- subframes ----

  const PREAMBLE: seq<Bit> := [true, true, true, false, false, false, true, false, false, true, false]

  function Interleave2(a: seq<Bit>, b: seq<Bit>): (w: seq<Bit>)
    requires |a| == |b| == 15
    ensures |w| == 30
  {
    seq(30, i requires 0 <= i < 30 => if i % 2 == 0 then a[i / 2] else b[i / 2])
  }

  function Evens(w: seq<Bit>): (a: seq<Bit>)
    requires |w| == 30
    ensures |a| == 15
  {
    seq(15, i requires 0 <= i < 15 => w[2 * i])
  }

  function Odds(w: seq<Bit>): (b: seq<Bit>)
    requires |w| == 30
    ensures |b| == 15
  {
    seq(15, i requires 0 <= i < 15 => w[2 * i + 1])
  }

  lemma InterleaveUndone(a: seq<Bit>, b: seq<Bit>)
    requires |a| == |b| == 15
    ensures Evens(Interleave2(a, b)) == a && Odds(Interleave2(a, b)) == b
  {
  }

  /** The 224 information bits: preamble, four reserved bits, subframe id, second of week, payload
      cut or filled to 186 bits. */
  function InfoBits(id: int, payload: seq<Bit>, sow: int): (info: seq<Bit>)
    ensures |info| == 224
  {
    PREAMBLE + Zeros(4) + BitsOf(id, 3) + BitsOf(sow % 604800, 20) + (payload + Zeros(224))[..186]
  }

  /** Word `w` (counted from 0) of a subframe. */
  function WordOf(info: seq<Bit>, w: nat): (s: seq<Bit>)
    requires |info| == 224 && w < 10
    ensures |s| == 30
  {
    if w == 0 then info[..15] + Codeword(info[15..26])
    else
      var o := 4 + w * 22;
      Interleave2(Codeword(info[o..o + 11]), Codeword(info[o + 11..o + 22]))
  }

  function Words(info: seq<Bit>): (ws: seq<seq<Bit>>)
    requires |info| == 224
    ensures |ws| == 10 && forall w :: w in ws ==> |w| == 30
  {
    seq(10, w requires 0 <= w < 10 => WordOf(info, w))
  }

  function Subframe(id: int, payload: seq<Bit>, sow: int): (s: seq<Bit>)
    ensures |s| == 300
  {
    var ws := Words(InfoBits(id, payload, sow));
    FlattenLength(ws, 30);
    Flatten(ws)
  }

  method EncodeWord(info: seq<Bit>, w: nat) returns (s: seq<Bit>)
    requires |info| == 224 && w < 10
    ensures s == WordOf(info, w)
  {
    if w == 0 {
      var cw := BchEncode(info[15..26]);
      s := info[..15] + cw;
    } else {
      var o := 4 + w * 22;
      var a := BchEncode(info[o..o + 11]);
      var b := BchEncode(info[o + 11..o + 22]);
      s := Interleave2(a, b);
    }
  }

  lemma FlattenEmpty()
    ensures Flatten([]) == []
  {
  }

  method EncodeWords(info: seq<Bit>) returns (s: seq<Bit>)
    requires |info| == 224
    ensures s == Flatten(Words(info))
  {
    hide WordOf, Flatten;
    ghost var ws := Words(info);
    s := [];
    assert ws[..0] == [];
    FlattenEmpty();
    for w := 0 to 10
      invariant s == Flatten(ws[..w])
    {
      var word := EncodeWord(info, w);
      assert ws[..w + 1] == ws[..w] + [word];
      FlattenSnoc(ws[..w], word);
      s := s + word;
    }
    assert ws[..10] == ws;
  }

  method BuildSubframe(id: int, payload: seq<Bit>, sow: int) returns (s: seq<Bit>)
    ensures s == Subframe(id, payload, sow)
  {
    s := EncodeWords(InfoBits(id, payload, sow));
  }

  // ---- decoding a subframe ----

  /** What one or more words give: information bits, success, number of corrected codewords. */
  datatype Sum = Sum(info: seq<Bit>, ok: bool, corrected: nat)

  function WordResult(word: seq<Bit>, w: nat, correct: bool): (s: Sum)
    requires |word| == 30
    ensures |s.info| == if w == 0 then 26 else 22
  {
    if w == 0 then
      var d := DecodeCw(word[15..], correct);
      Sum(word[..15] + d.info, d.ok, Num(d.corrected))
    else
      var a, b := DecodeCw(Evens(word), correct), DecodeCw(Odds(word), correct);
      Sum(a.info + b.info, a.ok && b.ok, Num(a.corrected) + Num(b.corrected))
  }

  function Results(b: seq<Bit>, correct: bool): (rs: seq<Sum>)
    requires |b| == 300
    ensures |rs| == 10
    ensures |rs[0].info| == 26 && forall w :: 1 <= w < 10 ==> |rs[w].info| == 22
  {
    seq(10, w requires 0 <= w < 10 => WordResult(b[30 * w..30 * w + 30], w, correct))
  }

  lemma ResultAt(b: seq<Bit>, correct: bool, w: nat)
    requires |b| == 300 && w < 10
    ensures Results(b, correct)[w] == WordResult(b[30 * w..30 * w + 30], w, correct)
  {
  }

  function Total(rs: seq<Sum>): Sum {
    if rs == [] then Sum([], true, 0)
    else
      var t, r := Total(rs[..|rs| - 1]), rs[|rs| - 1];
      Sum(t.info + r.info, t.ok && r.ok, t.corrected + r.corrected)
  }

  lemma {:induction false} TotalLength(rs: seq<Sum>)
    requires rs != [] && |rs[0].info| == 26 && forall w :: 1 <= w < |rs| ==> |rs[w].info| == 22
    ensures |Total(rs).info| == 4 + 22 * |rs|
  {
    if |rs| == 1 {
      assert rs[..0] == [];
    } else {
      TotalLength(rs[..|rs| - 1]);
    }
  }

  datatype Frame = Frame(id: nat, sow: nat, info: seq<Bit>, bchOk: bool, corrected: nat)

  /** Result of the subframe decoder; nothing when the length or the preamble is wrong. */
  function Parsed(b: seq<Bit>, correct: bool): Option<Frame> {
    if |b| != 300 || b[..11] != PREAMBLE then None
    else
      var s := Total(Results(b, correct));
      TotalLength(Results(b, correct));
      Some(Frame(UInt(s.info[15..18]), UInt(s.info[18..38]), s.info, s.ok, s.corrected))
  }

  method DecodeWord(word: seq<Bit>, w: nat, correct: bool) returns (s: Sum)
    requires |word| == 30
    ensures s == WordResult(word, w, correct)
  {
    if w == 0 {
      var d := DecodeCodeword(word[15..], correct);
      s := Sum(word[..15] + d.info, d.ok, Num(d.corrected));
    } else {
      var a := DecodeCodeword(Evens(word), correct);
      var b := DecodeCodeword(Odds(word), correct);
      s := Sum(a.info + b.info, a.ok && b.ok, Num(a.corrected) + Num(b.corrected));
    }
  }

  method DecodeSubframe(b: seq<Bit>, correct: bool) returns (f: Option<Frame>)
    ensures f == Parsed(b, correct)
  {
    if |b| != 300 {
      return None;
    }
    if b[..11] != PREAMBLE {
      return None;
    }
    hide Results, Total;
    ghost var rs := Results(b, correct);
    var info, ok, n: nat := [], true, 0;
    TotalSnoc([], rs[0]);
    assert rs[..0] == [];
    for w := 0 to 10
      invariant Sum(info, ok, n) == Total(rs[..w])
    {
      var r := DecodeWord(b[30 * w..30 * w + 30], w, correct);
      ResultAt(b, correct, w);
      assert rs[..w + 1] == rs[..w] + [r];
      TotalSnoc(rs[..w], r);
      info, ok, n := info + r.info, ok && r.ok, n + r.corrected;
    }
    assert rs[..10] == rs;
    TotalLength(rs);
    f := Some(Frame(UInt(info[15..18]), UInt(info[18..38]), info, ok, n));
  }

  // ---- round trip with errors ----

  /** Word `w` was received with at most one wrong bit in each of its codewords; the first 15 bits of
      word 0 are not protected and must be right. */
  predicate NearlyRight(info: seq<Bit>, w: nat, word: seq<Bit>)
    requires |info| == 224 && w < 10 && |word| == 30
  {
    if w == 0 then word[..15] == info[..15] && Dist(Codeword(info[15..26]), word[15..]) <= 1
    else
      var o := 4 + w * 22;
      && Dist(Codeword(info[o..o + 11]), Evens(word)) <= 1
      && Dist(Codeword(info[o + 11..o + 22]), Odds(word)) <= 1
  }

  /** The information bits that word `w` carries. */
  function Slice(info: seq<Bit>, w: nat): seq<Bit>
    requires |info| == 224 && w < 10
  {
    if w == 0 then info[..26] else info[4 + w * 22..26 + w * 22]
  }

  lemma WordDecoded(info: seq<Bit>, w: nat, word: seq<Bit>)
    requires |info| == 224 && w < 10 && |word| == 30 && NearlyRight(info, w, word)
    ensures var r := WordResult(word, w, true); r.info == Slice(info, w) && r.ok
  {
    if w == 0 {
      OneErrorCorrected(info[15..26], word[15..]);
      assert info[..26] == info[..15] + info[15..26];
    } else {
      var o := 4 + w * 22;
      OneErrorCorrected(info[o..o + 11], Evens(word));
      OneErrorCorrected(info[o + 11..o + 22], Odds(word));
      assert info[o..o + 22] == info[o..o + 11] + info[o + 11..o + 22];
    }
  }

  lemma TotalSnoc(rs: seq<Sum>, r: Sum)
    ensures Total([]) == Sum([], true, 0)
    ensures var t := Total(rs);
      Total(rs + [r]) == Sum(t.info + r.info, t.ok && r.ok, t.corrected + r.corrected)
  {
    assert (rs + [r])[..|rs|] == rs;
  }

  lemma {:induction false} SlicesJoin(info: seq<Bit>, rs: seq<Sum>)
    requires |info| == 224 && 1 <= |rs| <= 10
    requires forall w :: 0 <= w < |rs| ==> rs[w].info == Slice(info, w) && rs[w].ok
    ensures Total(rs).info == info[..4 + 22 * |rs|] && Total(rs).ok
  {
    hide Total, Slice;
    var n := |rs| - 1;
    assert rs == rs[..n] + [rs[n]];
    TotalSnoc(rs[..n], rs[n]);
    SliceNext(info, n);
    if n == 0 {
      assert rs[..0] == [];
    } else {
      SlicesJoin(info, rs[..n]);
    }
  }

  lemma SliceNext(info: seq<Bit>, n: nat)
    requires |info| == 224 && n < 10
    ensures info[..4 + 22 * (n + 1)] == if n == 0 then Slice(info, 0) else info[..4 + 22 * n] + Slice(info, n)
  {
  }

  predicate AllNearlyRight(info: seq<Bit>, b: seq<Bit>)
    requires |info| == 224 && |b| == 300
  {
    forall w :: 0 <= w < 10 ==> NearlyRight(info, w, b[30 * w..30 * w + 30])
  }

  lemma ResultRight(info: seq<Bit>, b: seq<Bit>, w: nat)
    requires |info| == 224 && |b| == 300 && w < 10 && AllNearlyRight(info, b)
    ensures Results(b, true)[w].info == Slice(info, w) && Results(b, true)[w].ok
  {
    WordDecoded(info, w, b[30 * w..30 * w + 30]);
  }

  lemma WordsBack(info: seq<Bit>, b: seq<Bit>)
    requires |info| == 224 && |b| == 300 && AllNearlyRight(info, b)
    ensures Total(Results(b, true)).info == info && Total(Results(b, true)).ok
  {
    hide Total, Results, AllNearlyRight;
    forall w | 0 <= w < 10
      ensures Results(b, true)[w].info == Slice(info, w) && Results(b, true)[w].ok
    {
      ResultRight(info, b, w);
    }
    SlicesJoin(info, Results(b, true));
    assert info[..224] == info;
  }

  lemma WordExact(info: seq<Bit>, w: nat, word: seq<Bit>)
    requires |info| == 224 && w < 10 && |word| == 30
    ensures WordResult(word, w, true).info == Slice(info, w) <==> NearlyRight(info, w, word)
  {
    hide DecodeCw, Codeword, Dist;
    var r := WordResult(word, w, true).info;
    if w == 0 {
      CorrectsExactly(info[15..26], word[15..]);
      assert r[..15] == word[..15] && r[15..] == DecodeCw(word[15..], true).info;
      assert info[..26][..15] == info[..15] && info[..26][15..] == info[15..26];
      assert info[..26] == info[..15] + info[15..26];
    } else {
      var o := 4 + w * 22;
      CorrectsExactly(info[o..o + 11], Evens(word));
      CorrectsExactly(info[o + 11..o + 22], Odds(word));
      assert r[..11] == DecodeCw(Evens(word), true).info && r[11..] == DecodeCw(Odds(word), true).info;
      assert info[o..o + 22][..11] == info[o..o + 11] && info[o..o + 22][11..] == info[o + 11..o + 22];
      assert info[o..o + 22] == info[o..o + 11] + info[o + 11..o + 22];
    }
  }

  /** Each word's bits have their place in the whole. */
  lemma {:induction false} TotalSlice(rs: seq<Sum>, info: seq<Bit>, w: nat)
    requires |info| == 224 && w < |rs| <= 10 && |rs[0].info| == 26 && forall i :: 1 <= i < |rs| ==> |rs[i].info| == 22
    requires Total(rs).info == info[..4 + 22 * |rs|]
    ensures rs[w].info == Slice(info, w)
  {
    hide Total;
    var n := |rs| - 1;
    assert rs == rs[..n] + [rs[n]];
    TotalSnoc(rs[..n], rs[n]);
    if n == 0 {
      assert rs[..0] == [];
      assert Total(rs).info == rs[0].info;
    } else {
      TotalLength(rs[..n]);
      var t := Total(rs[..n]).info;
      assert t == (t + rs[n].info)[..4 + 22 * n] == info[..4 + 22 * n];
      assert rs[n].info == (t + rs[n].info)[4 + 22 * n..] == info[4 + 22 * n..4 + 22 * n + 22];
      if w < n {
        TotalSlice(rs[..n], info, w);
      }
    }
  }

  /** The information bits of a subframe come back exactly when no unprotected bit is wrong and at most one in
      each of the 19 codewords is. */
  lemma SubframeExact(info: seq<Bit>, b: seq<Bit>)
    requires |info| == 224 && |b| == 300 && b[..11] == PREAMBLE
    ensures Parsed(b, true).value.info == info <==> AllNearlyRight(info, b)
  {
    hide Total, Results, NearlyRight, WordResult;
    var rs := Results(b, true);
    if AllNearlyRight(info, b) {
      WordsBack(info, b);
    }
    if Parsed(b, true).value.info == info {
      assert info[..4 + 22 * 10] == info;
      forall w | 0 <= w < 10
        ensures NearlyRight(info, w, b[30 * w..30 * w + 30])
      {
        TotalSlice(rs, info, w);
        ResultAt(b, true, w);
        WordExact(info, w, b[30 * w..30 * w + 30]);
      }
    }
  }

  lemma {:induction false} TotalOk(rs: seq<Sum>)
    ensures Total(rs).ok <==> forall w :: 0 <= w < |rs| ==> rs[w].ok
    ensures Total(rs).corrected == 0 <==> forall w :: 0 <= w < |rs| ==> rs[w].corrected == 0
  {
    if rs != [] {
      TotalOk(rs[..|rs| - 1]);
    }
  }

  lemma CodewordReport(cw: seq<Bit>, correct: bool)
    requires |cw| == 15
    ensures var d := DecodeCw(cw, correct);
      (correct ==> d.ok) && (!correct ==> !d.corrected) && (d.ok && !d.corrected <==> cw == Codeword(d.info))
  {
    hide Remainder, Codeword;
    NearestCodeword(cw);
    if Remainder(cw) == ZERO {
      CleanIsCodeword(cw);
    } else if !correct && cw == Codeword(cw[..11]) {
      CodewordClean(cw[..11]);
    }
  }

  lemma FirstReport(info: seq<Bit>, word: seq<Bit>, correct: bool)
    requires |info| == 224 && |word| == 30 && WordResult(word, 0, correct).info == info[..26]
    ensures var r := WordResult(word, 0, correct);
      (correct ==> r.ok) && (!correct ==> r.corrected == 0)
      && (r.ok && r.corrected == 0 <==> word == WordOf(info, 0))
  {
    hide DecodeCw, Codeword;
    var r := WordResult(word, 0, correct).info;
    CodewordReport(word[15..], correct);
    assert r[..15] == word[..15] && r[15..] == DecodeCw(word[15..], correct).info;
    assert info[..26][..15] == info[..15] && info[..26][15..] == info[15..26];
    assert word == word[..15] + word[15..];
    assert WordOf(info, 0)[15..] == Codeword(info[15..26]);
  }

  /** A word is reported good and untouched exactly when it is what is sent for its bits. */
  lemma WordReport(info: seq<Bit>, word: seq<Bit>, w: nat, correct: bool)
    requires |info| == 224 && |word| == 30 && w < 10 && WordResult(word, w, correct).info == Slice(info, w)
    ensures var r := WordResult(word, w, correct);
      (correct ==> r.ok) && (!correct ==> r.corrected == 0)
      && (r.ok && r.corrected == 0 <==> word == WordOf(info, w))
  {
    hide DecodeCw, Codeword, Interleave2, Evens, Odds;
    if w == 0 {
      FirstReport(info, word, correct);
    } else {
      var r, o := WordResult(word, w, correct).info, 4 + w * 22;
      CodewordReport(Evens(word), correct);
      CodewordReport(Odds(word), correct);
      assert r[..11] == DecodeCw(Evens(word), correct).info && r[11..] == DecodeCw(Odds(word), correct).info;
      assert info[o..o + 22][..11] == info[o..o + 11] && info[o..o + 22][11..] == info[o + 11..o + 22];
      InterleaveUndone(Codeword(info[o..o + 11]), Codeword(info[o + 11..o + 22]));
      Rejoined(word);
    }
  }

  lemma Rejoined(word: seq<Bit>)
    requires |word| == 30
    ensures Interleave2(Evens(word), Odds(word)) == word
  {
  }

  lemma FlattenWords(info: seq<Bit>, b: seq<Bit>)
    requires |info| == 224 && |b| == 300
    ensures b == Flatten(Words(info)) <==> forall w :: 0 <= w < 10 ==> b[30 * w..30 * w + 30] == WordOf(info, w)
  {
    hide WordOf, Flatten;
    var sent := Flatten(Words(info));
    FlattenLength(Words(info), 30);
    forall w | 0 <= w < 10
      ensures sent[30 * w..30 * w + 30] == WordOf(info, w)
    {
      FlattenAt(Words(info), 30, w);
    }
    if forall w :: 0 <= w < 10 ==> b[30 * w..30 * w + 30] == WordOf(info, w) {
      forall i | 0 <= i < 300
        ensures b[i] == sent[i]
      {
        var w := i / 30;
        assert b[30 * w..30 * w + 30] == WordOf(info, w) == sent[30 * w..30 * w + 30];
        assert b[i] == b[30 * w..30 * w + 30][i - 30 * w];
      }
    }
  }

  /** What the status of a subframe tells. With correction it is always good, whatever was received; without,
      it is good exactly when the bits received are those sent for the bits returned. With correction that is
      told by the count of corrected codewords. */
  lemma StatusMeaning(b: seq<Bit>, correct: bool)
    requires |b| == 300 && b[..11] == PREAMBLE
    ensures var f := Parsed(b, correct).value;
      && |f.info| == 224
      && (correct ==> f.bchOk) && (!correct ==> f.corrected == 0)
      && (f.bchOk && f.corrected == 0 <==> b == Flatten(Words(f.info)))
  {
    hide Total, Results, WordResult, WordOf, Flatten;
    var rs, info := Results(b, correct), Parsed(b, correct).value.info;
    TotalLength(rs);
    TotalOk(rs);
    FlattenWords(info, b);
    assert info[..4 + 22 * 10] == info;
    forall w | 0 <= w < 10
      ensures (correct ==> rs[w].ok) && (!correct ==> rs[w].corrected == 0)
      ensures rs[w].ok && rs[w].corrected == 0 <==> b[30 * w..30 * w + 30] == WordOf(info, w)
    {
      TotalSlice(rs, info, w);
      ResultAt(b, correct, w);
      WordReport(info, b[30 * w..30 * w + 30], w, correct);
    }
  }

  /** With at most one wrong bit in each of the 19 codewords, all 224 information bits, the id and the
      second of week come back; the status is good as it always is. */
  lemma SubframeRoundTrip(id: int, payload: seq<Bit>, sow: int, b: seq<Bit>)
    requires |b| == 300 && AllNearlyRight(InfoBits(id, payload, sow), b)
    ensures Parsed(b, true).Some?
    ensures var f := Parsed(b, true).value;
      f.info == InfoBits(id, payload, sow) && f.id == id % 8 && f.sow == sow % 604800 && f.bchOk
  {
    WordsBack(InfoBits(id, payload, sow), b);
    PreambleSurvives(InfoBits(id, payload, sow), b);
    InfoFields(id, payload, sow);
  }

  lemma PreambleSurvives(info: seq<Bit>, b: seq<Bit>)
    requires |info| == 224 && |b| == 300 && AllNearlyRight(info, b)
    ensures b[..11] == info[..11]
  {
    var first := b[30 * 0..30 * 0 + 30];
    assert NearlyRight(info, 0, first);
    assert b[..11] == first[..15][..11] && info[..15][..11] == info[..11];
  }

  lemma InfoFields(id: int, payload: seq<Bit>, sow: int)
    ensures var info := InfoBits(id, payload, sow);
      info[..11] == PREAMBLE && UInt(info[15..18]) == id % 8 && UInt(info[18..38]) == sow % 604800
  {
    hide BitsOf, Zeros, UInt;
    var info := InfoBits(id, payload, sow);
    assert info[..11] == PREAMBLE;
    assert info[15..18] == BitsOf(id, 3) && info[18..38] == BitsOf(sow % 604800, 20);
    UIntOfBitsOf(id, 3);
    UIntOfBitsOf(sow % 604800, 20);
    PowersOfTwo();
  }

  lemma PowersOfTwo()
    ensures Pow2(3) == 8 && Pow2(20) == 1048576
  {
    Pow2Sum(10, 10);
    assert Pow2(10) == 1024;
  }

  lemma EncodedWord(info: seq<Bit>, b: seq<Bit>, w: nat)
    requires |info| == 224 && |b| == 300 && b == Flatten(Words(info)) && w < 10
    ensures NearlyRight(info, w, b[30 * w..30 * w + 30])
  {
    hide WordOf, Flatten, NearlyRight;
    FlattenAt(Words(info), 30, w);
    assert b[30 * w..30 * w + 30] == WordOf(info, w);
    WordNearlyRight(info, w);
  }

  /** The transmitted subframe itself is such a reception. */
  lemma SentIsNearlyRight(info: seq<Bit>, b: seq<Bit>)
    requires |info| == 224 && |b| == 300 && b == Flatten(Words(info))
    ensures AllNearlyRight(info, b)
  {
    forall w | 0 <= w < 10
      ensures NearlyRight(info, w, b[30 * w..30 * w + 30])
    {
      EncodedWord(info, b, w);
    }
  }

  lemma WordNearlyRight(info: seq<Bit>, w: nat)
    requires |info| == 224 && w < 10
    ensures NearlyRight(info, w, WordOf(info, w))
  {
    var word := WordOf(info, w);
    if w == 0 {
      assert word[..15] == info[..15] && word[15..] == Codeword(info[15..26]);
      DistZero(word[15..], word[15..]);
    } else {
      var o := 4 + w * 22;
      InterleaveUndone(Codeword(info[o..o + 11]), Codeword(info[o + 11..o + 22]));
      DistZero(Evens(word), Evens(word));
      DistZero(Odds(word), Odds(word));
    }
  }

  // ---- finding subframes in a stream ----

  /** The subframe in these 300 bits, if the receiver takes it: a subframe id from 1 to 5 and no more than four
      corrected codewords. */
  function Taken(b: seq<Bit>): Option<Frame> {
    match Parsed(b, true)
    case None => None
    case Some(f) => if f.bchOk && 1 <= f.id <= 5 && f.corrected <= 4 then Some(f) else None
  }

  /** Every subframe found from bit `i` on: past a whole subframe, or one bit on. */
  function Scan(bits: seq<Bit>, i: nat): seq<Frame>
    decreases |bits| - i
  {
    if i + 300 > |bits| then []
    else
      match Taken(bits[i..i + 300])
      case Some(f) => [f] + Scan(bits, i + 300)
      case None => Scan(bits, i + 1)
  }

  /** Subframes found with the carrier sign as received or, when there are none, inverted. */
  function Received(sym: seq<Bit>): seq<Frame> {
    if Scan(sym, 0) != [] then Scan(sym, 0) else Scan(Complement(sym), 0)
  }

  method TakeSubframe(b: seq<Bit>) returns (f: Option<Frame>)
    requires |b| == 300
    ensures f == Taken(b)
  {
    if b[..11] != PREAMBLE {
      return None;
    }
    f := DecodeSubframe(b, true);
    if !(f.value.bchOk && 1 <= f.value.id <= 5 && f.value.corrected <= 4) {
      f := None;
    }
  }

  method ScanBits(bits: seq<Bit>) returns (frames: seq<Frame>)
    ensures frames == Scan(bits, 0)
  {
    hide Taken;
    frames := [];
    var i := 0;
    while i + 300 <= |bits|
      invariant Scan(bits, 0) == frames + Scan(bits, i)
      decreases |bits| - i
    {
      var f := TakeSubframe(bits[i..i + 300]);
      if f.Some? {
        frames := frames + [f.value];
        i := i + 300;
      } else {
        i := i + 1;
      }
    }
  }

  method DecodeMessages(sym: seq<Bit>) returns (frames: seq<Frame>)
    ensures frames == Received(sym)
  {
    frames := ScanBits(sym);
    if frames == [] {
      frames := ScanBits(Complement(sym));
    }
  }

  /** How many codewords of the first `n` words were not received as sent. */
  function Wrong(info: seq<Bit>, b: seq<Bit>, n: nat): nat
    requires |info| == 224 && |b| == 300 && n <= 10
  {
    if n == 0 then 0 else Wrong(info, b, n - 1) + WrongIn(info, n - 1, b[30 * (n - 1)..30 * n])
  }

  function WrongIn(info: seq<Bit>, w: nat, word: seq<Bit>): nat
    requires |info| == 224 && w < 10 && |word| == 30
  {
    if w == 0 then Num(word[15..] != Codeword(info[15..26]))
    else
      var o := 4 + w * 22;
      Num(Evens(word) != Codeword(info[o..o + 11])) + Num(Odds(word) != Codeword(info[o + 11..o + 22]))
  }

  lemma WordCount(info: seq<Bit>, w: nat, word: seq<Bit>)
    requires |info| == 224 && w < 10 && |word| == 30 && NearlyRight(info, w, word)
    ensures WordResult(word, w, true).corrected == WrongIn(info, w, word)
  {
    hide DecodeCw, Codeword, Dist;
    if w == 0 {
      OneErrorCorrected(info[15..26], word[15..]);
    } else {
      var o := 4 + w * 22;
      OneErrorCorrected(info[o..o + 11], Evens(word));
      OneErrorCorrected(info[o + 11..o + 22], Odds(word));
    }
  }

  lemma {:induction false} CountIsWrong(info: seq<Bit>, b: seq<Bit>, n: nat)
    requires |info| == 224 && |b| == 300 && n <= 10 && AllNearlyRight(info, b)
    ensures Total(Results(b, true)[..n]).corrected == Wrong(info, b, n)
  {
    hide Results, NearlyRight, WordResult, WrongIn;
    if n != 0 {
      CountIsWrong(info, b, n - 1);
      ResultAt(b, true, n - 1);
      assert NearlyRight(info, n - 1, b[30 * (n - 1)..30 * (n - 1) + 30]);
      WordCount(info, n - 1, b[30 * (n - 1)..30 * (n - 1) + 30]);
      assert Results(b, true)[..n][..n - 1] == Results(b, true)[..n - 1];
    }
  }

  /** Contents of a subframe. */
  datatype Content = Content(id: int, payload: seq<Bit>, sow: int)

  /** Bits received for a subframe: at most one wrong bit a codeword, at most four wrong codewords. */
  predicate Heard(c: Content, b: seq<Bit>)
    requires |b| == 300
  {
    var info := InfoBits(c.id, c.payload, c.sow);
    1 <= c.id <= 5 && AllNearlyRight(info, b) && Wrong(info, b, 10) <= 4
  }

  /** A subframe's fields in what the receiver reports. */
  predicate Reports(f: Frame, c: Content) {
    f.info == InfoBits(c.id, c.payload, c.sow) && f.id == c.id && f.sow == c.sow % 604800
  }

  lemma HeardTaken(c: Content, b: seq<Bit>)
    requires |b| == 300 && Heard(c, b)
    ensures Taken(b).Some? && Reports(Taken(b).value, c)
  {
    hide InfoBits, AllNearlyRight, Wrong, Total, Results;
    SubframeRoundTrip(c.id, c.payload, c.sow, b);
    CountIsWrong(InfoBits(c.id, c.payload, c.sow), b, 10);
    assert Results(b, true)[..10] == Results(b, true);
  }

  /** Whole subframes heard one after the other, and perhaps part of one more. */
  predicate AllHeard(cs: seq<Content>, bits: seq<Bit>) {
    300 * |cs| <= |bits| < 300 * |cs| + 300 && forall k :: 0 <= k < |cs| ==> Heard(cs[k], bits[300 * k..300 * k + 300])
  }

  lemma {:induction false} ScanFinds(cs: seq<Content>, bits: seq<Bit>, k: nat)
    requires AllHeard(cs, bits) && k <= |cs|
    ensures |Scan(bits, 300 * k)| == |cs| - k
    ensures forall j :: k <= j < |cs| ==> Reports(Scan(bits, 300 * k)[j - k], cs[j])
    decreases |cs| - k
  {
    hide Heard, Taken, Reports;
    if k < |cs| {
      HeardTaken(cs[k], bits[300 * k..300 * k + 300]);
      ScanFinds(cs, bits, k + 1);
      assert Scan(bits, 300 * k) == [Taken(bits[300 * k..300 * k + 300]).value] + Scan(bits, 300 * (k + 1));
    }
  }

  /** From symbols that begin on a subframe boundary the receiver reports every whole subframe in order, with its
      id, second of week and information bits, when at most four codewords of each have one wrong bit; from the
      symbols of the other carrier sign it reports the same, unless those themselves hold a subframe. */
  lemma StreamRoundTrip(cs: seq<Content>, bits: seq<Bit>)
    requires AllHeard(cs, bits)
    ensures var r, other := Received(bits), Scan(Complement(bits), 0);
      && |r| == |cs| && (forall k :: 0 <= k < |cs| ==> Reports(r[k], cs[k]))
      && Received(Complement(bits)) == if other != [] then other else r
  {
    hide Heard, Reports, Scan;
    ScanFinds(cs, bits, 0);
    assert Complement(Complement(bits)) == bits;
    if cs == [] {
      NothingFound(Complement(bits));
    }
  }

  lemma NothingFound(bits: seq<Bit>)
    requires |bits| < 300
    ensures Scan(bits, 0) == []
  {
  }

  /** A subframe as it is sent is heard. */
  lemma SentHeard(c: Content)
    requires 1 <= c.id <= 5
    ensures Heard(c, Subframe(c.id, c.payload, c.sow))
  {
    hide InfoBits, AllNearlyRight, Wrong, Total, Results, Words;
    var info := InfoBits(c.id, c.payload, c.sow);
    var b := Subframe(c.id, c.payload, c.sow);
    SentIsNearlyRight(info, b);
    PreambleSurvives(info, b);
    InfoFields(c.id, c.payload, c.sow);
    SubframeExact(info, b);
    StatusMeaning(b, true);
    CountIsWrong(info, b, 10);
    assert Results(b, true)[..10] == Results(b, true);
  }
}
