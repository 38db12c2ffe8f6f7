/** Bit fields packed side by side into one unsigned number, lowest field first. */
module Fields {
  import opened Bits

  /** Bitwise or of two unsigned numbers. */
  function Or(a: nat, b: nat): nat {
    if a == 0 then b
    else if b == 0 then a
    else (if a % 2 == 1 || b % 2 == 1 then 1 else 0) + 2 * Or(a / 2, b / 2)
  }

  /** Shift right by `w` places. */
  function Drop(acc: nat, w: nat): nat
    decreases w
  {
    if w == 0 then acc else Drop(acc / 2, w - 1)
  }

  /** The low `w` bits. */
  function Low(acc: nat, w: nat): nat
    decreases w
  {
    if w == 0 then 0 else acc % 2 + 2 * Low(acc / 2, w - 1)
  }

  /** Total width. */
  function Width(ws: seq<nat>): nat {
    if ws == [] then 0 else ws[0] + Width(ws[1..])
  }

  /** Each value fits its field. */
  predicate Fits(ws: seq<nat>, vs: seq<nat>) {
    |vs| == |ws| && forall i :: 0 <= i < |ws| ==> vs[i] < Pow2(ws[i])
  }

  function Pack(ws: seq<nat>, vs: seq<nat>): nat
    requires |vs| == |ws|
  {
    if ws == [] then 0 else vs[0] + Pow2(ws[0]) * Pack(ws[1..], vs[1..])
  }

  function Unpack(ws: seq<nat>, acc: nat): (vs: seq<nat>)
    ensures |vs| == |ws|
    decreases ws
  {
    if ws == [] then [] else [Low(acc, ws[0])] + Unpack(ws[1..], Drop(acc, ws[0]))
  }

  /** One field by offset and width, as shift and mask compute it. */
  function Field(acc: nat, off: nat, w: nat): nat {
    Low(Drop(acc, off), w)
  }

  // ---- the two directions are inverse ----

  lemma {:induction false} Split(acc: nat, w: nat)
    ensures acc == Low(acc, w) + Pow2(w) * Drop(acc, w) && Low(acc, w) < Pow2(w)
    decreases w
  {
    if w != 0 {
      Split(acc / 2, w - 1);
      var p, d := Pow2(w - 1), Drop(acc / 2, w - 1);
      assert Pow2(w) * d == 2 * (p * d);
    }
  }

  lemma {:induction false} SplitUnique(v: nat, w: nat, r: nat)
    requires v < Pow2(w)
    ensures Low(v + Pow2(w) * r, w) == v && Drop(v + Pow2(w) * r, w) == r
    decreases w
  {
    if w != 0 {
      var p := Pow2(w - 1);
      assert Pow2(w) * r == 2 * (p * r);
      assert (v + Pow2(w) * r) / 2 == v / 2 + p * r;
      SplitUnique(v / 2, w - 1, r);
    }
  }

  lemma {:induction false} UnpackPack(ws: seq<nat>, vs: seq<nat>)
    requires Fits(ws, vs)
    ensures Unpack(ws, Pack(ws, vs)) == vs
  {
    if ws != [] {
      UnpackPack(ws[1..], vs[1..]);
      SplitUnique(vs[0], ws[0], Pack(ws[1..], vs[1..]));
    }
  }

  lemma {:induction false} UnpackFits(ws: seq<nat>, acc: nat)
    ensures Fits(ws, Unpack(ws, acc))
    decreases ws
  {
    if ws != [] {
      UnpackFits(ws[1..], Drop(acc, ws[0]));
      Split(acc, ws[0]);
    }
  }

  /** The high part of a number below 2^(v + w) is below 2^w. */
  lemma {:induction false} DropBound(acc: nat, v: nat, w: nat)
    requires acc < Pow2(v + w)
    ensures Drop(acc, v) < Pow2(w)
    decreases v
  {
    if v != 0 {
      DropBound(acc / 2, v - 1, w);
    }
  }

  lemma {:induction false} PackUnpack(ws: seq<nat>, acc: nat)
    requires acc < Pow2(Width(ws))
    ensures Pack(ws, Unpack(ws, acc)) == acc
    decreases ws
  {
    if ws != [] {
      DropBound(acc, ws[0], Width(ws[1..]));
      PackUnpack(ws[1..], Drop(acc, ws[0]));
      Split(acc, ws[0]);
      assert Unpack(ws, acc)[1..] == Unpack(ws[1..], Drop(acc, ws[0]));
    }
  }

  lemma MulBound(v: nat, p: nat, a: nat, q: nat)
    requires v < p && a < q
    ensures v + p * a < p * q
  {
    assert p * a <= p * (q - 1);
  }

  lemma {:induction false} PackBound(ws: seq<nat>, vs: seq<nat>)
    requires Fits(ws, vs)
    ensures Pack(ws, vs) < Pow2(Width(ws))
  {
    if ws != [] {
      PackBound(ws[1..], vs[1..]);
      Pow2Sum(ws[0], Width(ws[1..]));
      MulBound(vs[0], Pow2(ws[0]), Pack(ws[1..], vs[1..]), Pow2(Width(ws[1..])));
    }
  }

  // ---- shift-and-or packing, shift-and-mask unpacking ----

  lemma {:induction false} OrDisjoint(a: nat, v: nat, k: nat)
    requires a < Pow2(k)
    ensures Or(a, Pow2(k) * v) == a + Pow2(k) * v
    decreases k
  {
    if k != 0 && a != 0 && Pow2(k) * v != 0 {
      var b := Pow2(k - 1) * v;
      assert Pow2(k) * v == 2 * b;
      OrDisjoint(a / 2, v, k - 1);
    }
  }

  lemma Distribute(p: nat, v: nat, q: nat, rest: nat)
    ensures p * (v + q * rest) == p * v + (p * q) * rest
  {
    assert p * (q * rest) == (p * q) * rest;
  }

  lemma PackStep(acc: nat, off: nat, v: nat, w: nat, rest: nat)
    requires acc < Pow2(off) && v < Pow2(w)
    ensures Or(acc, Pow2(off) * v) < Pow2(off + w)
    ensures acc + Pow2(off) * (v + Pow2(w) * rest) == Or(acc, Pow2(off) * v) + Pow2(off + w) * rest
  {
    hide Or, Pow2;
    Distribute(Pow2(off), v, Pow2(w), rest);
    OrDisjoint(acc, v, off);
    Pow2Sum(off, w);
    MulBound(acc, Pow2(off), v, Pow2(w));
  }

  function Offset(ws: seq<nat>, i: nat): nat
    requires i <= |ws|
  {
    if i == 0 then 0 else ws[0] + Offset(ws[1..], i - 1)
  }

  lemma {:induction false} OffsetNext(ws: seq<nat>, i: nat)
    requires i < |ws|
    ensures Offset(ws, i + 1) == Offset(ws, i) + ws[i]
    decreases i
  {
    if i != 0 {
      OffsetNext(ws[1..], i - 1);
    }
  }

  /** A table of bit offsets that places the fields side by side. */
  predicate Placed(offs: seq<nat>, ws: seq<nat>) {
    |offs| == |ws| && forall i :: 0 <= i < |ws| ==> offs[i] == Offset(ws, i)
  }

  /** What is still to be packed after the first `i` fields. */
  ghost function Rest(ws: seq<nat>, vs: seq<nat>, i: nat): nat
    requires |vs| == |ws| && i <= |ws|
  {
    Pack(ws[i..], vs[i..])
  }

  lemma RestStep(offs: seq<nat>, ws: seq<nat>, vs: seq<nat>, i: nat, acc: nat)
    requires Placed(offs, ws) && Fits(ws, vs) && i < |ws| && acc < Pow2(Offset(ws, i))
    ensures var next := Or(acc, Pow2(offs[i]) * vs[i]);
      && next < Pow2(Offset(ws, i + 1))
      && acc + Pow2(Offset(ws, i)) * Rest(ws, vs, i) == next + Pow2(Offset(ws, i + 1)) * Rest(ws, vs, i + 1)
  {
    OffsetNext(ws, i);
    assert ws[i..][1..] == ws[i + 1..] && vs[i..][1..] == vs[i + 1..];
    assert Rest(ws, vs, i) == vs[i] + Pow2(ws[i]) * Rest(ws, vs, i + 1);
    PackStep(acc, offs[i], vs[i], ws[i], Rest(ws, vs, i + 1));
  }

  /** Fields or-ed in at their offsets, one after the other. */
  method PackLoop(offs: seq<nat>, ws: seq<nat>, vs: seq<nat>) returns (acc: nat)
    requires Placed(offs, ws) && Fits(ws, vs)
    ensures acc == Pack(ws, vs)
  {
    hide Pow2, Or, Pack;
    acc := 0;
    assert ws[0..] == ws && vs[0..] == vs;
    PackStart(ws);
    for i := 0 to |ws|
      invariant acc < Pow2(Offset(ws, i))
      invariant Pack(ws, vs) == acc + Pow2(Offset(ws, i)) * Rest(ws, vs, i)
    {
      RestStep(offs, ws, vs, i, acc);
      acc := Or(acc, Pow2(offs[i]) * vs[i]);
    }
    PackEnd(ws[|ws|..], vs[|ws|..]);
  }

  lemma PackStart(ws: seq<nat>)
    ensures Offset(ws, 0) == 0 && Pow2(0) == 1
  {
  }

  lemma PackEnd(ws: seq<nat>, vs: seq<nat>)
    requires ws == [] && vs == []
    ensures Pack(ws, vs) == 0
  {
  }

  lemma {:induction false} DropDrop(acc: nat, v: nat, w: nat)
    ensures Drop(Drop(acc, v), w) == Drop(acc, v + w)
    decreases v
  {
    if v != 0 {
      DropDrop(acc / 2, v - 1, w);
    }
  }

  /** Shift and mask at a field's offset reads that field. */
  lemma {:induction false} FieldAt(ws: seq<nat>, acc: nat, i: nat)
    requires i < |ws|
    ensures Field(acc, Offset(ws, i), ws[i]) == Unpack(ws, acc)[i]
    decreases ws
  {
    if i != 0 {
      FieldAt(ws[1..], Drop(acc, ws[0]), i - 1);
      DropDrop(acc, ws[0], Offset(ws[1..], i - 1));
    }
  }

  /** The fields of one number, each shifted and masked out at its offset. */
  method UnpackLoop(offs: seq<nat>, ws: seq<nat>, acc: nat) returns (vs: seq<nat>)
    requires Placed(offs, ws)
    ensures vs == Unpack(ws, acc)
  {
    vs := [];
    for i := 0 to |ws|
      invariant vs == Unpack(ws, acc)[..i]
    {
      FieldAt(ws, acc, i);
      vs := vs + [Field(acc, offs[i], ws[i])];
    }
  }
}
