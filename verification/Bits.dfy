/** Bit lists as the encoders and decoders of the repository pass them around:
    a bit is a `bool`, a list of bits is written most significant bit first. */
module Bits {

  type Bit = bool

  datatype Option<+T> = None | Some(value: T)

  /** The number 0 or 1. */
  function Num(b: Bit): (n: nat)
    ensures n <= 1
  {
    if b then 1 else 0
  }

  function Pow2(n: nat): (p: nat)
    ensures p >= 1
  {
    if n == 0 then 1 else 2 * Pow2(n - 1)
  }

  /** `value` in `n` bits, most significant first, higher bits dropped. */
  function BitsOf(value: int, n: nat): (s: seq<Bit>)
    ensures |s| == n
    decreases n
  {
    if n == 0 then [] else BitsOf(value / 2, n - 1) + [value % 2 == 1]
  }

  /** The unsigned number a bit list stands for. */
  function UInt(s: seq<Bit>): nat {
    if s == [] then 0 else 2 * UInt(s[..|s| - 1]) + Num(s[|s| - 1])
  }

  function Zeros(n: nat): (s: seq<Bit>)
    ensures |s| == n
  {
    seq(n, i => false)
  }

  function Complement(s: seq<Bit>): (r: seq<Bit>)
    ensures |r| == |s|
  {
    seq(|s|, i requires 0 <= i < |s| => !s[i])
  }

  /** Bitwise exclusive or. */
  function Diff(a: seq<Bit>, b: seq<Bit>): (d: seq<Bit>)
    requires |a| == |b|
    ensures |d| == |a|
  {
    seq(|a|, i requires 0 <= i < |a| => a[i] != b[i])
  }

  /** Hamming distance. */
  function Dist(a: seq<Bit>, b: seq<Bit>): nat
    requires |a| == |b|
  {
    if a == [] then 0
    else Dist(a[..|a| - 1], b[..|b| - 1]) + Num(a[|a| - 1] != b[|b| - 1])
  }

  lemma {:induction false} Pow2Sum(m: nat, n: nat)
    ensures Pow2(m + n) == Pow2(m) * Pow2(n)
  {
    if m != 0 {
      Pow2Sum(m - 1, n);
      Twice(Pow2(m - 1), Pow2(n));
    }
  }

  lemma Twice(a: int, b: int)
    ensures 2 * (a * b) == 2 * a * b
  {
  }

  /** Writing a number in `n` bits keeps exactly its residue modulo 2^n. */
  lemma {:induction false} UIntOfBitsOf(value: int, n: nat)
    ensures UInt(BitsOf(value, n)) == value % Pow2(n)
    decreases n
  {
    if n != 0 {
      var hi := BitsOf(value / 2, n - 1);
      assert BitsOf(value, n)[..n - 1] == hi;
      UIntOfBitsOf(value / 2, n - 1);
      ModDouble(value, Pow2(n - 1));
    }
  }

  lemma ModDouble(value: int, p: nat)
    requires p >= 1
    ensures value % (2 * p) == 2 * ((value / 2) % p) + value % 2
  {
    var q, r := (value / 2) / p, (value / 2) % p;
    var low := 2 * r + value % 2;
    assert value == (2 * p) * q + low by {
      assert value / 2 == p * q + r;
      assert 2 * (p * q) == (2 * p) * q;
    }
    DivModUnique(value, 2 * p, q, low);
  }

  /** Quotient and remainder are determined by the division equation. */
  lemma DivModUnique(a: int, p: int, q: int, r: int)
    requires p >= 1 && 0 <= r < p && a == p * q + r
    ensures a / p == q && a % p == r
  {
    var q', r' := a / p, a % p;
    MulSub(p, q, q');
    SmallMultiple(p, q - q');
  }

  lemma MulSub(p: int, a: int, b: int)
    ensures p * (a - b) == p * a - p * b
  {
  }

  lemma SmallMultiple(p: int, d: int)
    requires p >= 1
    ensures d == 0 || p * d >= p || p * d <= -p
  {
    if d >= 1 {
      assert p * d >= p * 1;
    } else if d <= -1 {
      assert p * d <= p * -1;
    }
  }

  lemma ModOfMultiple(c: nat, a: int, m: nat)
    requires c > 0 && m > 0
    ensures (c * a) % (c * m) == c * (a % m)
  {
    var q, r := a / m, a % m;
    assert c * a == (c * m) * q + c * r;
    assert c * m > 0;
    assert c * r < c * m by {
      assert c * (m - r) > 0;
    }
    DivModUnique(c * a, c * m, q, c * r);
  }

  lemma ModNested(a: int, m: nat, q: nat)
    requires m > 0 && q > 0
    ensures a % (m * q) % m == a % m
  {
    assert m * q > 0;
    var d, r := a / (m * q), a % (m * q);
    var e, s := r / m, r % m;
    assert a == m * (q * d + e) + s;
    DivModUnique(a, m, q * d + e, s);
  }

  lemma ModNext(a: int, m: nat)
    requires m > 0
    ensures (a + 1) % m == if a % m == m - 1 then 0 else a % m + 1
  {
    var q, r := a / m, a % m;
    if r == m - 1 {
      assert a + 1 == m * (q + 1) + 0;
      DivModUnique(a + 1, m, q + 1, 0);
    } else {
      DivModUnique(a + 1, m, q, r + 1);
    }
  }

  lemma {:induction false} BitsOfUInt(s: seq<Bit>)
    ensures BitsOf(UInt(s), |s|) == s && UInt(s) < Pow2(|s|)
  {
    if s != [] {
      BitsOfUInt(s[..|s| - 1]);
      assert UInt(s) / 2 == UInt(s[..|s| - 1]);
    }
  }

  /** Distance adds up over a cut. */
  lemma {:induction false} DistConcat(a: seq<Bit>, b: seq<Bit>, c: seq<Bit>, d: seq<Bit>)
    requires |a| == |b| && |c| == |d|
    ensures Dist(a + c, b + d) == Dist(a, b) + Dist(c, d)
  {
    if c == [] {
      assert a + c == a && b + d == b;
    } else {
      var n := |c| - 1;
      assert (a + c)[..|a| + n] == a + c[..n] && (b + d)[..|b| + n] == b + d[..n];
      DistConcat(a, b, c[..n], d[..n]);
    }
  }

  lemma {:induction false} DistTriangle(a: seq<Bit>, b: seq<Bit>, c: seq<Bit>)
    requires |a| == |b| == |c|
    ensures Dist(a, c) <= Dist(a, b) + Dist(b, c)
  {
    if a != [] {
      DistTriangle(a[..|a| - 1], b[..|b| - 1], c[..|c| - 1]);
    }
  }

  lemma {:induction false} DistSymmetric(a: seq<Bit>, b: seq<Bit>)
    requires |a| == |b|
    ensures Dist(a, b) == Dist(b, a)
  {
    if a != [] {
      DistSymmetric(a[..|a| - 1], b[..|b| - 1]);
    }
  }

  lemma {:induction false} DistZero(a: seq<Bit>, b: seq<Bit>)
    requires |a| == |b|
    ensures Dist(a, b) == 0 <==> a == b
  {
    if a != [] {
      var n := |a| - 1;
      DistZero(a[..n], b[..n]);
      assert a == a[..n] + [a[n]] && b == b[..n] + [b[n]];
    }
  }

  /** One bit inverted. */
  function Flip(w: seq<Bit>, k: nat): (v: seq<Bit>)
    requires k < |w|
    ensures |v| == |w|
  {
    w[k := !w[k]]
  }

  lemma {:induction false} DistFlip(w: seq<Bit>, k: nat)
    requires k < |w|
    ensures Dist(w, Flip(w, k)) == Dist(Flip(w, k), w) == 1
  {
    var n := |w| - 1;
    if k == n {
      assert Flip(w, k)[..n] == w[..n];
      DistZero(w[..n], w[..n]);
    } else {
      assert Flip(w, k)[..n] == Flip(w[..n], k);
      DistFlip(w[..n], k);
    }
  }

  // ---- concatenation of equal blocks ----

  function Flatten(ws: seq<seq<Bit>>): seq<Bit> {
    if ws == [] then [] else ws[0] + Flatten(ws[1..])
  }

  lemma {:induction false} FlattenSnoc(ws: seq<seq<Bit>>, w: seq<Bit>)
    ensures Flatten(ws + [w]) == Flatten(ws) + w
  {
    if ws == [] {
      assert [] + [w] == [w] && [w][1..] == [];
    } else {
      assert (ws + [w])[1..] == ws[1..] + [w];
      FlattenSnoc(ws[1..], w);
    }
  }

  lemma OneBlockLess(size: nat, n: nat)
    requires n >= 1
    ensures size * n - size == size * (n - 1) >= 0
  {
  }

  lemma {:induction false} FlattenLength(ws: seq<seq<Bit>>, size: nat)
    requires forall w :: w in ws ==> |w| == size
    ensures |Flatten(ws)| == size * |ws|
  {
    if ws != [] {
      FlattenLength(ws[1..], size);
      OneBlockLess(size, |ws|);
    }
  }

  lemma {:induction false} FlattenAt(ws: seq<seq<Bit>>, size: nat, k: nat)
    requires k < |ws| && forall w :: w in ws ==> |w| == size
    ensures 0 <= size * k <= size * k + size <= |Flatten(ws)|
    ensures Flatten(ws)[size * k..size * k + size] == ws[k]
  {
    FlattenLength(ws[1..], size);
    if k != 0 {
      OneBlockLess(size, k);
      FlattenAt(ws[1..], size, k - 1);
    }
  }
}
