/** GLONASS strings: the KX check code, the relative code and meander around it, and the receiver that
    searches for string boundaries (GLONASS ICD 5.1, section 4.7). */
module Glonass {
  import opened Bits

  /** Which ICD bit numbers (9..85) check bit `k` (1..7) covers besides itself. */
  predicate Listed(k: nat, n: nat) {
    match k
    case 1 => n in {9, 10, 12, 13, 15, 17, 19, 20, 22, 24, 26, 28, 30, 32, 34, 35, 37, 39, 41, 43, 45, 47, 49, 51,
                    53, 55, 57, 59, 61, 63, 65, 66, 68, 70, 72, 74, 76, 78, 80, 82, 84}
    case 2 => n in {9, 11, 12, 14, 15, 18, 19, 21, 22, 25, 26, 29, 30, 33, 34, 36, 37, 40, 41, 44, 45, 48, 49, 52,
                    53, 56, 57, 60, 61, 64, 65, 67, 68, 71, 72, 75, 76, 79, 80, 83, 84}
    case 3 => n in {10, 11, 12, 16, 17, 18, 19, 23, 24, 25, 26, 31, 32, 33, 34, 38, 39, 40, 41, 46, 47, 48, 49, 54,
                    55, 56, 57, 62, 63, 64, 65, 69, 70, 71, 72, 77, 78, 79, 80, 85}
    case 4 => n in {13, 14, 15, 16, 17, 18, 19, 27, 28, 29, 30, 31, 32, 33, 34, 42, 43, 44, 45, 46, 47, 48, 49, 58,
                    59, 60, 61, 62, 63, 64, 65, 73, 74, 75, 76, 77, 78, 79, 80}
    case 5 => 20 <= n < 35 || 50 <= n < 66 || 81 <= n <= 85
    case 6 => 35 <= n < 66
    case 7 => 66 <= n < 86
    case _ => false
  }

  predicate Covers(k: nat, n: nat) {
    n == k || Listed(k, n)
  }

  type Pick = nat -> bool

  /** XOR of the string bits with ICD numbers 1..n that `pick` selects; bit n is at position 85 - n. */
  function XorIcd(s: seq<Bit>, pick: Pick, n: nat): Bit
    requires |s| >= 85 && n <= 85
  {
    if n == 0 then false else XorIcd(s, pick, n - 1) != (pick(n) && s[85 - n])
  }

  function CoveredBy(k: nat): Pick { (n: nat) => Covers(k, n) }

  function ListedBy(k: nat): Pick { (n: nat) => Listed(k, n) }

  function Only(k: nat): Pick { (n: nat) => n == k }

  function Everything(): Pick { (n: nat) => true }

  function DataPart(): Pick { (n: nat) => n >= 9 }

  function CheckPart(): Pick { (n: nat) => n <= 8 }

  /** All seven check sums and the overall parity are even. */
  predicate Accepted(s: seq<Bit>) {
    |s| >= 85
    && (forall k :: 1 <= k <= 7 ==> !XorIcd(s, CoveredBy(k), 85))
    && !XorIcd(s, Everything(), 85)
  }

  method HammingCheck(s: seq<Bit>) returns (ok: bool)
    ensures ok == Accepted(s)
  {
    if |s| < 85 {
      return false;
    }
    for k := 1 to 8
      invariant forall j :: 1 <= j < k ==> !XorIcd(s, CoveredBy(j), 85)
    {
      var p := XorLoop(s, CoveredBy(k));
      if p {
        return false;
      }
    }
    var ov := XorLoop(s, Everything());
    ok := !ov;
  }

  method XorLoop(s: seq<Bit>, pick: Pick) returns (p: Bit)
    requires |s| >= 85
    ensures p == XorIcd(s, pick, 85)
  {
    p := false;
    for n := 1 to 86
      invariant p == XorIcd(s, pick, n - 1)
    {
      if pick(n) {
        p := p != s[85 - n];
      }
    }
  }

  // ---- the encoder ----

  function Blank(data: seq<Bit>): (s: seq<Bit>)
    requires |data| == 76
    ensures |s| == 85
  {
    [false] + data + Zeros(8)
  }

  function Beta(data: seq<Bit>, k: nat): Bit
    requires |data| == 76
  {
    XorIcd(Blank(data), ListedBy(k), 85)
  }

  /** Parity of the data part and of the first `k` check bits. */
  function Overall(data: seq<Bit>, k: nat): Bit
    requires |data| == 76
  {
    if k == 0 then XorIcd(Blank(data), DataPart(), 85) else Overall(data, k - 1) != Beta(data, k)
  }

  /** Idle bit, 76 data bits, check bits 8 down to 1. */
  function HammingString(data: seq<Bit>): (s: seq<Bit>)
    requires |data| == 76
    ensures |s| == 85
  {
    [false] + data + [Overall(data, 7), Beta(data, 7), Beta(data, 6), Beta(data, 5),
                      Beta(data, 4), Beta(data, 3), Beta(data, 2), Beta(data, 1)]
  }

  lemma OverallBy(data: seq<Bit>, k: nat)
    requires |data| == 76
    ensures Overall(data, 0) == XorIcd(Blank(data), DataPart(), 85)
    ensures k > 0 ==> Overall(data, k) == (Overall(data, k - 1) != Beta(data, k))
  {
    hide XorIcd, Beta;
  }

  /** The check bits 1 to 8 of 76 data bits. */
  method CheckBits(data: seq<Bit>) returns (beta: array<Bit>)
    requires |data| == 76
    ensures fresh(beta) && beta.Length == 9
    ensures beta[8] == Overall(data, 7) && forall j :: 1 <= j < 8 ==> beta[j] == Beta(data, j)
  {
    var s := Blank(data);
    beta := new Bit[9](_ => false);
    for k := 1 to 8
      invariant forall j :: 1 <= j < k ==> beta[j] == Beta(data, j)
    {
      var p := XorLoop(s, ListedBy(k));
      beta[k] := p;
    }
    var ov := XorLoop(s, DataPart());
    hide Beta, Overall, XorIcd;
    OverallBy(data, 0);
    for k := 1 to 8
      invariant ov == Overall(data, k - 1)
      invariant forall j :: 1 <= j < 8 ==> beta[j] == Beta(data, j)
    {
      OverallBy(data, k);
      ov := ov != beta[k];
    }
    beta[8] := ov;
  }

  /** The encoder: the data between the idle bit and eight places that the check bits are then written to. */
  method BuildString(data: seq<Bit>) returns (s: seq<Bit>)
    requires |data| == 76
    ensures s == HammingString(data)
  {
    hide Beta, Overall, HammingString;
    var beta := CheckBits(data);
    s := Blank(data);
    for k := 1 to 9
      invariant |s| == 85 && s[..77] == [false] + data
      invariant forall j :: 1 <= j < k ==> s[85 - j] == beta[j]
    {
      s := s[85 - k := beta[k]];
    }
    Assembled(data, s);
  }

  lemma Assembled(data: seq<Bit>, s: seq<Bit>)
    requires |data| == 76 && |s| == 85 && s[..77] == [false] + data
    requires s[77] == Overall(data, 7) && forall j :: 1 <= j < 8 ==> s[85 - j] == Beta(data, j)
    ensures s == HammingString(data)
  {
    hide Beta, Overall;
    assert s[84] == s[85 - 1] && s[83] == s[85 - 2] && s[82] == s[85 - 3] && s[81] == s[85 - 4];
    assert s[80] == s[85 - 5] && s[79] == s[85 - 6] && s[78] == s[85 - 7];
    assert s[77..] == [Overall(data, 7), Beta(data, 7), Beta(data, 6), Beta(data, 5),
                       Beta(data, 4), Beta(data, 3), Beta(data, 2), Beta(data, 1)];
    assert s == s[..77] + s[77..];
  }

  // ---- sums over selected bits ----

  /** Only selected bits matter. */
  lemma {:induction false} XorAgree(s: seq<Bit>, t: seq<Bit>, p: Pick, q: Pick, n: nat)
    requires |s| >= 85 && |t| >= 85 && n <= 85
    requires forall m :: 1 <= m <= n ==> (p(m) && s[85 - m]) == (q(m) && t[85 - m])
    ensures XorIcd(s, p, n) == XorIcd(t, q, n)
  {
    if n != 0 {
      XorAgree(s, t, p, q, n - 1);
    }
  }

  lemma {:induction false} XorSplit(s: seq<Bit>, whole: Pick, p: Pick, q: Pick, n: nat)
    requires |s| >= 85 && n <= 85
    requires forall m :: 1 <= m <= n ==> whole(m) == (p(m) || q(m)) && !(p(m) && q(m))
    ensures XorIcd(s, whole, n) == (XorIcd(s, p, n) != XorIcd(s, q, n))
  {
    if n != 0 {
      XorSplit(s, whole, p, q, n - 1);
    }
  }

  lemma {:induction false} XorOnly(s: seq<Bit>, k: nat, n: nat)
    requires |s| >= 85 && 1 <= k <= 85 && n <= 85
    ensures XorIcd(s, Only(k), n) == (k <= n && s[85 - k])
  {
    if n != 0 {
      XorOnly(s, k, n - 1);
    }
  }

  lemma ListedIsData(k: nat, n: nat)
    requires 1 <= k <= 7 && Listed(k, n)
    ensures 9 <= n <= 85
  {
  }

  lemma StringBits(data: seq<Bit>)
    requires |data| == 76
    ensures var s := HammingString(data);
      && (forall i :: 0 <= i < 77 ==> s[i] == Blank(data)[i])
      && (forall k :: 1 <= k <= 7 ==> s[85 - k] == Beta(data, k))
      && s[77] == Overall(data, 7)
  {
    var s := HammingString(data);
    assert s[84] == Beta(data, 1) && s[83] == Beta(data, 2) && s[82] == Beta(data, 3) && s[81] == Beta(data, 4);
    assert s[80] == Beta(data, 5) && s[79] == Beta(data, 6) && s[78] == Beta(data, 7);
  }

  lemma CheckSumEven(data: seq<Bit>, k: nat)
    requires |data| == 76 && 1 <= k <= 7
    ensures !XorIcd(HammingString(data), CoveredBy(k), 85)
  {
    var s := HammingString(data);
    StringBits(data);
    forall n | Listed(k, n)
      ensures 9 <= n <= 85
    {
      ListedIsData(k, n);
    }
    XorSplit(s, CoveredBy(k), Only(k), ListedBy(k), 85);
    XorOnly(s, k, 85);
    XorAgree(s, Blank(data), ListedBy(k), ListedBy(k), 85);
  }

  lemma {:induction false} OverallSum(s: seq<Bit>, data: seq<Bit>, k: nat)
    requires |s| >= 85 && |data| == 76 && k <= 7
    requires forall j :: 1 <= j <= 7 ==> s[85 - j] == Beta(data, j)
    ensures Overall(data, k) == (Overall(data, 0) != XorIcd(s, CheckPart(), k))
  {
    if k != 0 {
      OverallSum(s, data, k - 1);
    }
  }

  lemma {:induction false} CheckPartEnds(s: seq<Bit>, n: nat)
    requires |s| >= 85 && 8 <= n <= 85
    ensures XorIcd(s, CheckPart(), n) == XorIcd(s, CheckPart(), 8)
  {
    if n != 8 {
      CheckPartEnds(s, n - 1);
    }
  }

  lemma OverallEven(data: seq<Bit>)
    requires |data| == 76
    ensures !XorIcd(HammingString(data), Everything(), 85)
  {
    var s := HammingString(data);
    StringBits(data);
    XorSplit(s, Everything(), CheckPart(), DataPart(), 85);
    XorAgree(s, Blank(data), DataPart(), DataPart(), 85);
    CheckPartEnds(s, 85);
    OverallSum(s, data, 7);
  }

  /** Every encoded string passes the check. */
  lemma EncodedAccepted(data: seq<Bit>)
    requires |data| == 76
    ensures Accepted(HammingString(data))
  {
    forall k | 1 <= k <= 7
      ensures !XorIcd(HammingString(data), CoveredBy(k), 85)
    {
      CheckSumEven(data, k);
    }
    OverallEven(data);
  }

  // ---- minimum distance four ----

  /** The check sums that cover bit `n`, as a number: bit k - 1 stands for check k. */
  function Pattern(n: nat): nat {
    if n <= 2 then n
    else if n == 3 then 4
    else if n == 4 then 8
    else if n == 5 then 16
    else if n == 6 then 32
    else if n == 7 then 64
    else if n == 8 then 0
    else if n == 9 then 3
    else if n <= 12 then n - 5
    else if n <= 19 then n - 4
    else if n <= 34 then n - 3
    else if n <= 65 then n - 2
    else n - 1
  }

  lemma Pattern1(n: nat)
    requires 1 <= n <= 85
    ensures Covers(1, n) <==> Pattern(n) % 2 == 1
  {
  }

  lemma Pattern2(n: nat)
    requires 1 <= n <= 85
    ensures Covers(2, n) <==> Pattern(n) / 2 % 2 == 1
  {
  }

  lemma Pattern3(n: nat)
    requires 1 <= n <= 85
    ensures Covers(3, n) <==> Pattern(n) / 2 / 2 % 2 == 1
  {
  }

  lemma Pattern4(n: nat)
    requires 1 <= n <= 85
    ensures Covers(4, n) <==> Pattern(n) / 2 / 2 / 2 % 2 == 1
  {
  }

  lemma Pattern567(n: nat)
    requires 1 <= n <= 85
    ensures Covers(5, n) <==> Pattern(n) / 2 / 2 / 2 / 2 % 2 == 1
    ensures Covers(6, n) <==> Pattern(n) / 2 / 2 / 2 / 2 / 2 % 2 == 1
    ensures Covers(7, n) <==> Pattern(n) / 2 / 2 / 2 / 2 / 2 / 2 % 2 == 1
  {
  }

  lemma Halves(x: nat, y: nat)
    ensures x == y <==> x % 2 == y % 2 && x / 2 == y / 2
  {
  }

  lemma SameDigits(x: nat, y: nat)
    requires x < 128 && y < 128
    requires x % 2 == y % 2 && x / 2 % 2 == y / 2 % 2 && x / 2 / 2 % 2 == y / 2 / 2 % 2
    requires x / 2 / 2 / 2 % 2 == y / 2 / 2 / 2 % 2 && x / 2 / 2 / 2 / 2 % 2 == y / 2 / 2 / 2 / 2 % 2
    requires x / 2 / 2 / 2 / 2 / 2 % 2 == y / 2 / 2 / 2 / 2 / 2 % 2
    requires x / 2 / 2 / 2 / 2 / 2 / 2 % 2 == y / 2 / 2 / 2 / 2 / 2 / 2 % 2
    ensures x == y
  {
    var a, b, c, d, e := x / 2, x / 2 / 2, x / 2 / 2 / 2, x / 2 / 2 / 2 / 2, x / 2 / 2 / 2 / 2 / 2;
    var p, q, r, s, t := y / 2, y / 2 / 2, y / 2 / 2 / 2, y / 2 / 2 / 2 / 2, y / 2 / 2 / 2 / 2 / 2;
    assert e < 4 && t < 4;
    Halves(e, t);
    Halves(d, s);
    Halves(c, r);
    Halves(b, q);
    Halves(a, p);
    Halves(x, y);
  }

  lemma PatternInjective(n: nat, m: nat)
    requires 1 <= n <= 85 && 1 <= m <= 85 && Pattern(n) == Pattern(m)
    ensures n == m
  {
  }

  /** Any two of the 85 bits are told apart by one of the seven check sums. */
  lemma Separated(n: nat, m: nat)
    requires 1 <= n <= 85 && 1 <= m <= 85 && forall k :: 1 <= k <= 7 ==> Covers(k, n) == Covers(k, m)
    ensures n == m
  {
    assert Covers(1, n) == Covers(1, m) && Covers(2, n) == Covers(2, m) && Covers(3, n) == Covers(3, m);
    assert Covers(4, n) == Covers(4, m) && Covers(5, n) == Covers(5, m);
    assert Covers(6, n) == Covers(6, m) && Covers(7, n) == Covers(7, m);
    SamePattern(n, m);
    PatternInjective(n, m);
  }

  lemma SamePattern(n: nat, m: nat)
    requires 1 <= n <= 85 && 1 <= m <= 85
    requires Covers(1, n) == Covers(1, m) && Covers(2, n) == Covers(2, m) && Covers(3, n) == Covers(3, m)
    requires Covers(4, n) == Covers(4, m) && Covers(5, n) == Covers(5, m)
    requires Covers(6, n) == Covers(6, m) && Covers(7, n) == Covers(7, m)
    ensures Pattern(n) == Pattern(m)
  {
    Pattern1(n);
    Pattern1(m);
    Pattern2(n);
    Pattern2(m);
    Pattern3(n);
    Pattern3(m);
    Pattern4(n);
    Pattern4(m);
    Pattern567(n);
    Pattern567(m);
    SameDigits(Pattern(n), Pattern(m));
  }

  /** ICD bit `n` inverted. */
  function FlipIcd(s: seq<Bit>, n: nat): (t: seq<Bit>)
    requires |s| == 85 && 1 <= n <= 85
    ensures |t| == 85
  {
    Flip(s, 85 - n)
  }

  lemma {:induction false} FlipChecks(s: seq<Bit>, b: nat, pick: Pick, n: nat)
    requires |s| == 85 && 1 <= b <= 85 && n <= 85
    ensures XorIcd(FlipIcd(s, b), pick, n) == (XorIcd(s, pick, n) != (b <= n && pick(b)))
  {
    if n != 0 {
      FlipChecks(s, b, pick, n - 1);
    }
  }

  lemma OneFlipRejected(s: seq<Bit>, n: nat)
    requires |s| == 85 && Accepted(s) && 1 <= n <= 85
    ensures !Accepted(FlipIcd(s, n))
  {
    FlipChecks(s, n, Everything(), 85);
  }

  lemma TwoFlipsRejected(s: seq<Bit>, n: nat, m: nat)
    requires |s| == 85 && Accepted(s) && 1 <= n <= 85 && 1 <= m <= 85 && n != m
    ensures !Accepted(FlipIcd(FlipIcd(s, n), m))
  {
    if forall k :: 1 <= k <= 7 ==> Covers(k, n) == Covers(k, m) {
      Separated(n, m);
    }
    var k :| 1 <= k <= 7 && Covers(k, n) != Covers(k, m);
    FlipChecks(s, n, CoveredBy(k), 85);
    FlipChecks(FlipIcd(s, n), m, CoveredBy(k), 85);
  }

  lemma ThreeFlipsRejected(s: seq<Bit>, n: nat, m: nat, l: nat)
    requires |s| == 85 && Accepted(s) && 1 <= n <= 85 && 1 <= m <= 85 && 1 <= l <= 85
    ensures !Accepted(FlipIcd(FlipIcd(FlipIcd(s, n), m), l))
  {
    FlipChecks(s, n, Everything(), 85);
    FlipChecks(FlipIcd(s, n), m, Everything(), 85);
    FlipChecks(FlipIcd(FlipIcd(s, n), m), l, Everything(), 85);
  }

  /** A difference can be undone one place at a time. */
  lemma FixOne(s: seq<Bit>, t: seq<Bit>) returns (n: nat)
    requires |s| == |t| == 85 && s != t
    ensures 1 <= n <= 85 && Dist(FlipIcd(s, n), t) == Dist(s, t) - 1 && s[85 - n] != t[85 - n]
  {
    var i :| 0 <= i < 85 && s[i] != t[i];
    n := 85 - i;
    var f := FlipIcd(s, n);
    assert s == s[..i] + ([s[i]] + s[i + 1..]) && t == t[..i] + ([t[i]] + t[i + 1..]);
    assert f == s[..i] + ([t[i]] + s[i + 1..]);
    DistConcat(s[..i], t[..i], [s[i]] + s[i + 1..], [t[i]] + t[i + 1..]);
    DistConcat(s[..i], t[..i], [t[i]] + s[i + 1..], [t[i]] + t[i + 1..]);
    DistConcat([s[i]], [t[i]], s[i + 1..], t[i + 1..]);
    DistConcat([t[i]], [t[i]], s[i + 1..], t[i + 1..]);
    assert Dist([s[i]], [t[i]]) == 1 && Dist([t[i]], [t[i]]) == 0;
  }

  /** Two different accepted strings differ in at least four places. */
  lemma DistanceFour(s: seq<Bit>, t: seq<Bit>)
    requires |s| == |t| == 85 && Accepted(s) && Accepted(t) && s != t
    ensures Dist(s, t) >= 4
  {
    DistZero(s, t);
    if Dist(s, t) <= 3 {
      var n := FixOne(s, t);
      var s1 := FlipIcd(s, n);
      DistZero(s1, t);
      if s1 == t {
        OneFlipRejected(s, n);
      } else {
        var m := FixOne(s1, t);
        var s2 := FlipIcd(s1, m);
        DistZero(s2, t);
        if s2 == t {
          assert n != m;
          TwoFlipsRejected(s, n, m);
        } else {
          var l := FixOne(s2, t);
          DistZero(FlipIcd(s2, l), t);
          ThreeFlipsRejected(s, n, m, l);
        }
      }
    }
  }

  lemma FourFlipsCover(s: seq<Bit>, pick: Pick)
    requires |s| == 85
    ensures XorIcd(FlipIcd(FlipIcd(FlipIcd(FlipIcd(s, 1), 2), 9), 8), pick, 85)
         == (XorIcd(s, pick, 85) != (pick(1) != (pick(2) != (pick(9) != pick(8)))))
  {
    FlipChecks(s, 1, pick, 85);
    FlipChecks(FlipIcd(s, 1), 2, pick, 85);
    FlipChecks(FlipIcd(FlipIcd(s, 1), 2), 9, pick, 85);
    FlipChecks(FlipIcd(FlipIcd(FlipIcd(s, 1), 2), 9), 8, pick, 85);
  }

  /** Four is reached from every accepted string: one data bit, the two check bits that cover it and the overall
      parity bit make another one. */
  lemma FourReached(s: seq<Bit>)
    requires |s| == 85 && Accepted(s)
    ensures var t := FlipIcd(FlipIcd(FlipIcd(FlipIcd(s, 1), 2), 9), 8);
      Accepted(t) && Dist(s, t) == 4
  {
    var a, b, c := FlipIcd(s, 1), FlipIcd(FlipIcd(s, 1), 2), FlipIcd(FlipIcd(FlipIcd(s, 1), 2), 9);
    var t := FlipIcd(c, 8);
    forall k | 1 <= k <= 7
      ensures !XorIcd(t, CoveredBy(k), 85)
    {
      FourFlipsCover(s, CoveredBy(k));
      NinthCovered(k);
    }
    FourFlipsCover(s, Everything());
    DistFlip(s, 84);
    DistFlip(a, 83);
    DistFlip(b, 76);
    DistFlip(c, 77);
    DistTriangle(s, a, b);
    DistTriangle(s, b, c);
    DistTriangle(s, c, t);
    assert s[84] != t[84];
    hide Accepted;
    DistanceFour(s, t);
  }

  lemma NinthCovered(k: nat)
    requires 1 <= k <= 7
    ensures Covers(k, 1) == (k == 1) && Covers(k, 2) == (k == 2) && Covers(k, 9) == (k <= 2) && !Covers(k, 8)
  {
  }

  // ---- relative code ----

  /** Each sent bit is the data bit XOR the bit sent before it. */
  function Relative(bits: seq<Bit>): (r: seq<Bit>)
    ensures |r| == |bits|
  {
    if bits == [] then []
    else
      var n := |bits| - 1;
      var r := Relative(bits[..n]);
      r + [bits[n] != (n > 0 && r[n - 1])]
  }

  method RelativeLoop(bits: seq<Bit>) returns (r: seq<Bit>)
    ensures r == Relative(bits)
  {
    r := [];
    var prev := false;
    for i := 0 to |bits|
      invariant r == Relative(bits[..i])
      invariant prev == (i > 0 && r[i - 1])
    {
      assert bits[..i + 1][..i] == bits[..i];
      prev := prev != bits[i];
      r := r + [prev];
    }
    assert bits[..|bits|] == bits;
  }

  /** The first bit of a string is the idle bit 0; the others are differences. */
  function Derelative(rel: seq<Bit>): (s: seq<Bit>)
    requires rel != []
    ensures |s| == |rel|
  {
    seq(|rel|, j requires 0 <= j < |rel| => j > 0 && rel[j] != rel[j - 1])
  }

  lemma {:induction false} RelativeStep(bits: seq<Bit>, j: nat)
    requires 0 < j < |bits|
    ensures (Relative(bits)[j] != Relative(bits)[j - 1]) == bits[j]
  {
    if j < |bits| - 1 {
      RelativeStep(bits[..|bits| - 1], j);
    }
  }

  lemma RelativeUndone(s: seq<Bit>)
    requires s != [] && !s[0]
    ensures Derelative(Relative(s)) == s
  {
    forall j | 0 < j < |s|
      ensures Derelative(Relative(s))[j] == s[j]
    {
      RelativeStep(s, j);
    }
  }

  /** The carrier sign does not matter. */
  lemma SignRemoved(rel: seq<Bit>)
    requires rel != []
    ensures Derelative(Complement(rel)) == Derelative(rel)
  {
  }

  /** One wrong relative-code bit changes one or two bits of the string. */
  lemma WrongBit(rel: seq<Bit>, j: nat)
    requires |rel| == 85 && j < 85
    ensures var t := Derelative(rel[j := !rel[j]]);
      var s := Derelative(rel);
      || (j == 0 && t == FlipIcd(s, 84))
      || (j == 84 && t == FlipIcd(s, 1))
      || (0 < j < 84 && t == FlipIcd(FlipIcd(s, 85 - j), 84 - j))
  {
  }

  /** One wrong relative-code bit anywhere in an accepted string is always rejected. */
  lemma WrongBitRejected(rel: seq<Bit>, j: nat)
    requires |rel| == 85 && j < 85 && Accepted(Derelative(rel))
    ensures !Accepted(Derelative(rel[j := !rel[j]]))
  {
    var s := Derelative(rel);
    WrongBit(rel, j);
    if j == 0 {
      OneFlipRejected(s, 84);
    } else if j == 84 {
      OneFlipRejected(s, 1);
    } else {
      TwoFlipsRejected(s, 85 - j, 84 - j);
    }
  }

  // ---- symbols and synchronisation ----

  const TIME_MARK: seq<Bit> := [
    true, true, true, true, true, false, false, false, true, true, false, true, true, true, false,
    true, false, true, false, false, false, false, true, false, false, true, false, true, true, false]

  /** Bit 0 is sent as +1 -1, bit 1 as -1 +1; a symbol -1 is written `true`. */
  function Meander(bits: seq<Bit>): (sym: seq<Bit>)
    ensures |sym| == 2 * |bits|
  {
    seq(2 * |bits|, i requires 0 <= i < 2 * |bits| => bits[i / 2] != (i % 2 == 1))
  }

  function StringSymbols(s: seq<Bit>): (sym: seq<Bit>)
    requires |s| == 85
    ensures |sym| == 200
  {
    Meander(Relative(s)) + TIME_MARK
  }

  /** Every second symbol, from the first or from the second on. */
  function EverySecond(sym: seq<Bit>, parity: nat): (bits: seq<Bit>)
    requires parity <= 1
    ensures |bits| == (|sym| + 1 - parity) / 2
  {
    seq((|sym| + 1 - parity) / 2, i requires 0 <= i < (|sym| + 1 - parity) / 2 => sym[2 * i + parity])
  }

  type Data = map<nat, seq<Bit>>

  datatype Found = Found(count: int, frame: Data)

  /** The 76 data bits of a string. */
  function StringData(s: seq<Bit>): (d: seq<Bit>)
    requires |s| == 85
    ensures |d| == 76
  {
    s[1..77]
  }

  /** Accepted strings at the slots i, i + 100, ...; the first string of a number wins. */
  function Collect(bits: seq<Bit>, i: nat): Found
    decreases |bits| - i
  {
    if i + 85 > |bits| then Found(0, map[])
    else
      var s := Derelative(bits[i..i + 85]);
      var rest := Collect(bits, i + 100);
      if Accepted(s) then Found(rest.count + 1, rest.frame[UInt(StringData(s)[..4]) := StringData(s)]) else rest
  }

  /** Best of the first `c` candidates (meander phase, string start); ties keep the earlier one. */
  function Best(sym: seq<Bit>, c: nat): Found
    requires c <= 200
  {
    if c == 0 then Found(-1, map[])
    else
      var b := Best(sym, c - 1);
      var f := Collect(EverySecond(sym, (c - 1) / 100), (c - 1) % 100);
      if f.count > b.count then f else b
  }

  method CollectLoop(bits: seq<Bit>, off: nat) returns (n: nat, frame: Data)
    ensures Found(n, frame) == Collect(bits, off)
  {
    n, frame := 0, map[];
    var i := off;
    while i + 85 <= |bits|
      invariant n + Collect(bits, i).count == Collect(bits, off).count
      invariant Collect(bits, i).frame + frame == Collect(bits, off).frame
      decreases |bits| - i
    {
      var s := Derelative(bits[i..i + 85]);
      var ok := HammingCheck(s);
      if ok {
        n := n + 1;
        var data := StringData(s);
        var sidx := UInt(data[..4]);
        ghost var rest := Collect(bits, i + 100).frame;
        if sidx !in frame {
          assert rest[sidx := data] + frame == rest + frame[sidx := data];
          frame := frame[sidx := data];
        } else {
          assert rest[sidx := data] + frame == rest + frame;
        }
      }
      i := i + 100;
    }
    assert Collect(bits, i) == Found(0, map[]);
    assert map[] + frame == frame;
  }

  lemma CandidateIndex(parity: nat, off: nat)
    requires parity <= 1 && off < 100
    ensures (100 * parity + off) / 100 == parity && (100 * parity + off) % 100 == off
  {
  }

  lemma BestBy(sym: seq<Bit>, c: nat)
    requires c <= 200
    ensures Best(sym, 0) == Found(-1, map[])
    ensures c > 0 ==> Best(sym, c) == var b := Best(sym, c - 1);
      var f := Collect(EverySecond(sym, (c - 1) / 100), (c - 1) % 100);
      if f.count > b.count then f else b
  {
    hide Collect, EverySecond;
  }

  method SyncAndDecode(sym: seq<Bit>) returns (frame: Data)
    ensures frame == Best(sym, 200).frame
  {
    hide Best, Collect, EverySecond;
    BestBy(sym, 0);
    var best: int := -1;
    frame := map[];
    for parity := 0 to 2
      invariant Found(best, frame) == Best(sym, 100 * parity)
    {
      var bits := EverySecond(sym, parity);
      for off := 0 to 100
        invariant Found(best, frame) == Best(sym, 100 * parity + off)
      {
        CandidateIndex(parity, off);
        BestBy(sym, 100 * parity + off + 1);
        var n, f := CollectLoop(bits, off);
        if n > best {
          best, frame := n, f;
        }
      }
    }
  }

  // ---- what synchronisation guarantees ----

  lemma {:induction false} CollectSign(bits: seq<Bit>, i: nat)
    ensures Collect(Complement(bits), i) == Collect(bits, i)
    decreases |bits| - i
  {
    if i + 85 <= |bits| {
      assert Complement(bits)[i..i + 85] == Complement(bits[i..i + 85]);
      SignRemoved(bits[i..i + 85]);
      CollectSign(bits, i + 100);
    }
  }

  /** An inverted symbol stream decodes to the same strings. */
  lemma {:induction false} SyncSignImmune(sym: seq<Bit>, c: nat)
    requires c <= 200
    ensures Best(Complement(sym), c) == Best(sym, c)
  {
    if c != 0 {
      SyncSignImmune(sym, c - 1);
      var bits := EverySecond(sym, (c - 1) / 100);
      assert EverySecond(Complement(sym), (c - 1) / 100) == Complement(bits);
      CollectSign(bits, (c - 1) % 100);
    }
  }

  /** Symbols of consecutive strings. */
  function Stream(ds: seq<seq<Bit>>): (sym: seq<Bit>)
    requires forall k :: 0 <= k < |ds| ==> |ds[k]| == 76
    ensures |sym| == 200 * |ds|
  {
    if ds == [] then [] else StringSymbols(HammingString(ds[0])) + Stream(ds[1..])
  }

  /** String number to data bits, the first of a number winning. */
  function Numbered(ds: seq<seq<Bit>>): Data
    requires forall k :: 0 <= k < |ds| ==> |ds[k]| == 76
  {
    if ds == [] then map[] else Numbered(ds[1..])[UInt(ds[0][..4]) := ds[0]]
  }

  lemma StringBack(data: seq<Bit>, sym: seq<Bit>)
    requires |data| == 76 && |sym| >= 169
    requires forall i :: 0 <= i < 169 ==> sym[i] == StringSymbols(HammingString(data))[i]
    ensures Derelative(EverySecond(sym, 0)[..85]) == HammingString(data)
  {
    var s := HammingString(data);
    var r := Relative(s);
    forall i | 0 <= i < 85
      ensures EverySecond(sym, 0)[i] == r[i]
    {
      assert sym[2 * i] == StringSymbols(s)[2 * i] == Meander(r)[2 * i];
    }
    assert EverySecond(sym, 0)[..85] == r;
    RelativeUndone(s);
  }

  lemma {:induction false} CollectShift(sym: seq<Bit>, pre: seq<Bit>, i: nat)
    requires |pre| == 200
    ensures Collect(EverySecond(pre + sym, 0), i + 100) == Collect(EverySecond(sym, 0), i)
    decreases |sym| - i
  {
    var a, b := EverySecond(pre + sym, 0), EverySecond(sym, 0);
    if i + 85 <= |b| {
      assert a[i + 100..i + 185] == b[i..i + 85];
      CollectShift(sym, pre, i + 100);
    }
  }

  /** `sym` are the symbols of the strings `ds` as far as both go: after the last whole string there may be part of
      one more, which is among `ds` when all its data are there, from symbol 169 on. */
  predicate Carries(sym: seq<Bit>, ds: seq<seq<Bit>>) {
    && (forall k :: 0 <= k < |ds| ==> |ds[k]| == 76)
    && |ds| == (|sym| + 31) / 200
    && forall i :: 0 <= i < |sym| && i < 200 * |ds| ==> sym[i] == Stream(ds)[i]
  }

  lemma CarriesRest(sym: seq<Bit>, ds: seq<seq<Bit>>)
    requires Carries(sym, ds) && ds != []
    ensures |sym| >= 169 && |ds[0]| == 76
    ensures forall i :: 0 <= i < |sym| && i < 200 ==> sym[i] == StringSymbols(HammingString(ds[0]))[i]
    ensures |sym| >= 200 ==> Carries(sym[200..], ds[1..])
    ensures |sym| < 200 ==> |ds| == 1
  {
    hide StringSymbols, HammingString;
    var first, rest := StringSymbols(HammingString(ds[0])), Stream(ds[1..]);
    assert Stream(ds) == first + rest;
    if |sym| >= 200 {
      forall i | 0 <= i < |sym[200..]| && i < 200 * |ds[1..]|
        ensures sym[200..][i] == rest[i]
      {
        assert sym[200 + i] == Stream(ds)[200 + i];
      }
    }
  }

  lemma {:induction false} CollectClean(sym: seq<Bit>, ds: seq<seq<Bit>>)
    requires Carries(sym, ds)
    ensures Collect(EverySecond(sym, 0), 0) == Found(|ds|, Numbered(ds))
    decreases ds
  {
    hide Carries, HammingString, Stream;
    if ds == [] {
      CarriesNone(sym);
    } else {
      CarriesRest(sym, ds);
      StringBack(ds[0], sym);
      EncodedAccepted(ds[0]);
      DataBack(ds[0]);
      if |sym| >= 200 {
        CollectShift(sym[200..], sym[..200], 0);
        assert sym == sym[..200] + sym[200..];
        CollectClean(sym[200..], ds[1..]);
      }
    }
  }

  lemma CarriesNone(sym: seq<Bit>)
    requires Carries(sym, [])
    ensures |sym| < 169
  {
  }

  lemma DataBack(data: seq<Bit>)
    requires |data| == 76
    ensures StringData(HammingString(data)) == data
  {
  }

  /** No candidate can find more strings than there are slots. */
  lemma {:induction false} CollectBound(bits: seq<Bit>, i: nat)
    ensures 0 <= Collect(bits, i).count
    ensures i + 85 > |bits| || 100 * (Collect(bits, i).count - 1) <= |bits| - i - 85
    ensures i + 85 > |bits| ==> Collect(bits, i).count == 0
    decreases |bits| - i
  {
    if i + 85 <= |bits| {
      CollectBound(bits, i + 100);
    }
  }

  lemma {:induction false} FirstCandidateWins(sym: seq<Bit>, n: nat, c: nat)
    requires n == (|sym| + 31) / 200 && 1 <= c <= 200
    requires Collect(EverySecond(sym, 0), 0).count == n
    ensures Best(sym, c) == Collect(EverySecond(sym, 0), 0)
  {
    if c > 1 {
      FirstCandidateWins(sym, n, c - 1);
      CollectBound(EverySecond(sym, (c - 1) / 100), (c - 1) % 100);
    }
  }

  /** A clean stream that starts on a string boundary, wherever it ends and with either carrier sign, gives back
      every string whose data it holds, under its number. */
  lemma CleanStreamDecoded(sym: seq<Bit>, ds: seq<seq<Bit>>)
    requires Carries(sym, ds)
    ensures Best(sym, 200).frame == Numbered(ds)
    ensures Best(Complement(sym), 200).frame == Numbered(ds)
  {
    CollectClean(sym, ds);
    FirstCandidateWins(sym, |ds|, 200);
    SyncSignImmune(sym, 200);
  }

  lemma {:induction false} StreamSnoc(ds: seq<seq<Bit>>, d: seq<Bit>)
    requires |d| == 76 && forall k :: 0 <= k < |ds| ==> |ds[k]| == 76
    ensures Stream(ds + [d]) == Stream(ds) + StringSymbols(HammingString(d))
  {
    hide StringSymbols, HammingString;
    if ds == [] {
      assert [] + [d] == [d] && [d][1..] == [];
    } else {
      assert (ds + [d])[1..] == ds[1..] + [d];
      StreamSnoc(ds[1..], d);
    }
  }

  /** The first string of a number is the one kept. */
  lemma {:induction false} NumberedFirst(ds: seq<seq<Bit>>, i: nat)
    requires i < |ds| && forall k :: 0 <= k < |ds| ==> |ds[k]| == 76
    requires forall k :: 0 <= k < i ==> UInt(ds[k][..4]) != UInt(ds[i][..4])
    ensures var m := UInt(ds[i][..4]);
      m in Numbered(ds) && Numbered(ds)[m] == ds[i]
  {
    hide UInt;
    if i > 0 {
      NumberedFirst(ds[1..], i - 1);
    }
  }
}
