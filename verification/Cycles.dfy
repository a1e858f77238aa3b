/** Virtual time of the scheduler: 32-bit cycles that wrap around, and the order on them. */
module Cycles {
  import opened HeapOrder
  import opened StreamQueue

  const WRAP: nat := 0x1_0000_0000
  const SEQ_WRAP: nat := 0x1_0000_0000_0000_0000
  const MAX_WEIGHT: nat := 256
  const MAX_FRAME: nat := 16384

  /** NGHTTP2_MAX_CYCLE_DISTANCE. */
  const MAX_CYCLE_DISTANCE: nat := MAX_FRAME * MAX_WEIGHT + 255

  /** `stream_less`. */
  predicate StreamLess(a: Key, b: Key)
  {
    if a.cycle == b.cycle then a.seqNo < b.seqNo
    else if a.cycle < b.cycle then b.cycle - a.cycle <= MAX_CYCLE_DISTANCE
    else a.cycle - b.cycle > MAX_CYCLE_DISTANCE
  }

  /** The penalty `stream_next_cycle` spreads over the weight, in 32 bits. */
  function Penalty(writelen: nat, pending: Word): (p: Word)
  {
    (writelen * MAX_WEIGHT + pending) % WRAP
  }

  /** `stream_next_cycle`: the cycle from the base `last`. */
  function CycleAfter(last: Word, writelen: nat, pending: Word, weight: int): (c: Word)
    requires weight > 0
  {
    (last + Penalty(writelen, pending) / weight) % WRAP
  }

  /** `stream_next_cycle`: what is left unpaid. */
  function PendingAfter(writelen: nat, pending: Word, weight: int): (p: Word)
    requires weight > 0
    ensures p < weight
  {
    Penalty(writelen, pending) % weight
  }

  /** How far `c` is ahead of `base` on the 32-bit circle. */
  function Ahead(base: Word, c: Word): (d: Word)
    ensures (base + d) % WRAP == c
  {
    if base <= c then c - base else WRAP - base + c
  }

  lemma AheadAdd(base: Word, d: Word)
    ensures Ahead(base, (base + d) % WRAP) == d
  {}

  /** Within MAX_CYCLE_DISTANCE of a common base the comparator is comparison of the distances. */
  lemma LessIsAhead(base: Word, a: Key, b: Key)
    requires Ahead(base, a.cycle) <= MAX_CYCLE_DISTANCE && Ahead(base, b.cycle) <= MAX_CYCLE_DISTANCE
    ensures StreamLess(a, b) <==>
            Ahead(base, a.cycle) < Ahead(base, b.cycle) || (a.cycle == b.cycle && a.seqNo < b.seqNo)
    ensures Ahead(base, a.cycle) == Ahead(base, b.cycle) <==> a.cycle == b.cycle
  {}

  /** Three keys, each within the distance of the one before but not the last of the first. */
  ghost predicate Circle(x: Key, y: Key, z: Key)
  {
    && x.cycle < y.cycle < z.cycle && z.cycle - x.cycle > MAX_CYCLE_DISTANCE
    && y.cycle - x.cycle <= MAX_CYCLE_DISTANCE && z.cycle - y.cycle <= MAX_CYCLE_DISTANCE
  }

  ghost predicate HasCircle(ks: seq<Key>)
  {
    exists x, y, z :: x in ks && y in ks && z in ks && Circle(x, y, z)
  }

  /** Three keys that break transitivity contain such a circle, in some order. */
  lemma BrokenIsCircle(a: Key, b: Key, c: Key)
    requires !StreamLess(b, a) && !StreamLess(c, b) && StreamLess(c, a)
    ensures Circle(a, b, c) || Circle(b, c, a) || Circle(c, a, b)
  {}

  /** Exactly there `stream_less` is not an order. */
  lemma OrderedIffNoCircle(ks: seq<Key>)
    ensures OrderOn(StreamLess, ks) <==> !HasCircle(ks)
  {
    hide StreamLess, Circle;
    forall a, b ensures StreamLess(a, b) ==> !StreamLess(b, a) { Asymmetric(a, b); }
    if HasCircle(ks) {
      var x, y, z :| x in ks && y in ks && z in ks && Circle(x, y, z);
      CircleIsBroken(x, y, z);
      assert !OrderOn(StreamLess, ks);
    } else {
      forall a, b, c | a in ks && b in ks && c in ks && !StreamLess(b, a) && !StreamLess(c, b) ensures !StreamLess(c, a) {
        if StreamLess(c, a) { BrokenIsCircle(a, b, c); }
      }
    }
  }

  lemma Asymmetric(a: Key, b: Key)
    ensures StreamLess(a, b) ==> !StreamLess(b, a)
    ensures a != b ==> StreamLess(a, b) || StreamLess(b, a)
  {}

  lemma CircleIsBroken(x: Key, y: Key, z: Key)
    requires Circle(x, y, z)
    ensures StreamLess(x, y) && StreamLess(y, z) && StreamLess(z, x)
  {}

  /** All keys lie within MAX_CYCLE_DISTANCE after `base`. */
  ghost predicate Close(base: Word, ks: seq<Key>)
  {
    forall k :: k in ks ==> Ahead(base, k.cycle) <= MAX_CYCLE_DISTANCE
  }

  lemma CloseHasNoCircle(base: Word, x: Key, y: Key, z: Key)
    requires Ahead(base, x.cycle) <= MAX_CYCLE_DISTANCE && Ahead(base, y.cycle) <= MAX_CYCLE_DISTANCE
    requires Ahead(base, z.cycle) <= MAX_CYCLE_DISTANCE
    ensures !Circle(x, y, z)
  {}

  /** There `stream_less` is a strict order, total on distinct keys. */
  lemma CloseIsOrdered(base: Word, ks: seq<Key>)
    requires Close(base, ks)
    ensures OrderOn(StreamLess, ks)
    ensures forall a, b :: a in ks && b in ks && a != b ==> StreamLess(a, b) || StreamLess(b, a)
  {
    hide StreamLess, Circle, Ahead, OrderOn;
    forall x, y, z | x in ks && y in ks && z in ks ensures !Circle(x, y, z) { CloseHasNoCircle(base, x, y, z); }
    OrderedIffNoCircle(ks);
    forall a, b | a in ks && b in ks && a != b ensures StreamLess(a, b) || StreamLess(b, a) { Asymmetric(a, b); }
  }

  /** An instance: three cycles below each other in a circle. */
  lemma FarIsNotOrdered(ks: seq<Key>)
    requires ks == [Key(0, 0), Key(MAX_CYCLE_DISTANCE, 1), Key(2 * MAX_CYCLE_DISTANCE, 2)]
    ensures !OrderOn(StreamLess, ks)
  {
    hide StreamLess, OrderOn;
    assert Circle(ks[0], ks[1], ks[2]);
    OrderedIffNoCircle(ks);
  }

  // ---------------------------------------------------------------- changing a weight

  /** `nghttp2_stream_change_weight`: the carried penalty the present cycle was computed with. */
  function UndonePending(writelen: nat, pending: Word, weight: int): (p: Word)
    requires 1 <= weight <= 256
    ensures p < weight
  {
    (pending + weight - Penalty(writelen, 0) % weight) % weight
  }

  /** The base the present cycle was computed from. */
  function UndoneBase(cycle: Word, writelen: nat, undone: Word, weight: int): (l: Word)
    requires 1 <= weight <= 256
  {
    (cycle - (Penalty(writelen, 0) + undone) % WRAP / weight) % WRAP
  }

  lemma MulGrows(w: int, q: int)
    requires w >= 1
    ensures q >= 0 ==> w * q >= q
    ensures q >= 1 ==> w * q >= w
    ensures q <= -1 ==> w * q <= -w
  {
    if q >= 1 {
      assert w * q == w + w * (q - 1);
      assert w * q == q + (w - 1) * q;
    } else if q <= -1 {
      assert w * q == w * (q + 1) - w;
    }
  }

  lemma DivUnique(x: int, w: int, q: int, r: int)
    requires w > 0 && x == w * q + r && 0 <= r < w
    ensures x / w == q && x % w == r
  {
    var d := x / w - q;
    assert x == w * (x / w) + x % w;
    assert w * d == w * (x / w) - w * q;
    MulGrows(w, d);
  }

  /** Adding `p` and then taking `a` out again, modulo `w`. */
  lemma UndoMod(a: nat, p: nat, w: int)
    requires 0 <= p < w
    ensures ((a + p) % w + w - a % w) % w == p
  {
    var q, r := a / w, a % w;
    assert a == w * q + r;
    if r + p < w {
      DivUnique(a + p, w, q, r + p);
      DivUnique(p + w, w, 1, p);
    } else {
      assert w * (q + 1) == w * q + w;
      DivUnique(a + p, w, q + 1, r + p - w);
      DivUnique(p, w, 0, p);
    }
  }

  lemma UndoAdd(base: Word, d: Word)
    ensures ((base + d) % WRAP - d) % WRAP == base
  {}

  /** A carried penalty below 256 never makes the penalty wrap around. */
  lemma {:induction false} PenaltySplit(writelen: nat, p: Word)
    requires p < MAX_WEIGHT
    ensures Penalty(writelen, 0) + p < WRAP && Penalty(writelen, p) == Penalty(writelen, 0) + p
  {
    assert Penalty(writelen, 0) % 256 == 0;
    var q := writelen * MAX_WEIGHT / WRAP;
    assert writelen * MAX_WEIGHT + p == WRAP * q + (Penalty(writelen, 0) + p);
    DivUnique(writelen * MAX_WEIGHT + p, WRAP, q, Penalty(writelen, 0) + p);
  }

  lemma UndoBaseIs(base: Word, writelen: nat, p: Word, w: int)
    requires 1 <= w <= 256 && p < w
    ensures UndoneBase(CycleAfter(base, writelen, p, w), writelen, p, w) == base
  {
    hide Penalty;
    PenaltySplit(writelen, p);
    var x: Word := Penalty(writelen, 0) + p;
    assert x % WRAP == x;
    assert 0 <= x / w <= x by { Quotient(x, w); }
    UndoAdd(base, x / w);
  }

  lemma Quotient(x: nat, w: int)
    requires w >= 1
    ensures 0 <= x / w <= x
  {
    var q := x / w;
    assert x == w * q + x % w;
    MulGrows(w, q);
  }

  /** A weight change is an exact undo and redo: what was scheduled from `base` with the carried penalty
      `p` under the old weight is afterwards scheduled from `base` with `p` under the new one. */
  lemma ChangeIsUndoRedo(base: Word, writelen: nat, p: Word, before: int)
    requires 1 <= before <= 256 && p < before
    ensures var cycle, pending := CycleAfter(base, writelen, p, before), PendingAfter(writelen, p, before);
            var undone := UndonePending(writelen, pending, before);
            var last := UndoneBase(cycle, writelen, undone, before);
            undone == p && last == base
  {
    hide Penalty;
    var a := Penalty(writelen, 0);
    PenaltySplit(writelen, p);
    UndoMod(a, p, before);
    UndoBaseIs(base, writelen, p, before);
  }
}
