/** The code of `huff_sym_table` is canonical: codes of one length are consecutive, and each length goes
    on where the one before it ended. Every such code that uses up the code space is good. */
module HuffmanCanonical {
  import opened Bytes
  import opened HuffmanCode
  import opened HuffmanCodec

  /** `count` codes of `bits` bits. */
  datatype Group = Group(bits: nat, count: nat)

  ghost predicate Increasing(gs: seq<Group>)
  {
    forall g, h :: 0 <= g < h < |gs| ==> gs[g].bits < gs[h].bits
  }

  /** The first code of group `g`. */
  ghost function Start(gs: seq<Group>, g: nat): nat
    requires g < |gs| && Increasing(gs)
    decreases g, 0
  {
    if g == 0 then 0 else Shl(End(gs, g - 1), gs[g].bits - gs[g - 1].bits)
  }

  /** One more than the last. */
  ghost function End(gs: seq<Group>, g: nat): nat
    requires g < |gs| && Increasing(gs)
    decreases g, 1
  {
    Start(gs, g) + gs[g].count
  }

  /** The whole space of the longest codes is used. */
  ghost predicate Kraft(gs: seq<Group>)
  {
    && gs != [] && Increasing(gs) && (forall g :: 0 <= g < |gs| ==> 5 <= gs[g].bits <= EOS_BITS)
    && gs[|gs| - 1].bits == EOS_BITS && gs[|gs| - 1].count > 0 && End(gs, |gs| - 1) == Pow2(EOS_BITS)
  }

  /** A group lies before all later ones. */
  lemma {:induction false} Before(gs: seq<Group>, g: nat, h: nat)
    requires Increasing(gs) && g < h < |gs|
    ensures Shl(End(gs, g), gs[h].bits - gs[g].bits) <= Start(gs, h)
    decreases h
  {
    if g < h - 1 {
      var a, b := gs[h - 1].bits - gs[g].bits, gs[h].bits - gs[h - 1].bits;
      Before(gs, g, h - 1);
      ShlMonotone(Shl(End(gs, g), a), End(gs, h - 1), b);
      ShlShl(End(gs, g), a, b);
    }
  }

  /** The codes of a group fit in its number of bits. */
  lemma FitsIn(gs: seq<Group>, g: nat)
    requires Kraft(gs) && g < |gs|
    ensures End(gs, g) <= Pow2(gs[g].bits)
  {
    hide Shl, Start, Pow2;
    var n := |gs| - 1;
    if g < n {
      var d := gs[n].bits - gs[g].bits;
      Before(gs, g, n);
      ShlOne(gs[g].bits);
      ShlShl(1, gs[g].bits, d);
      ShlOne(EOS_BITS);
      assert Shl(Pow2(gs[g].bits), d) == Pow2(EOS_BITS);
      ShlCancel(End(gs, g), Pow2(gs[g].bits), d);
    }
  }

  lemma {:induction false} ShlCancel(a: nat, b: nat, s: nat)
    requires Shl(a, s) <= Shl(b, s)
    ensures a <= b
  {
    if s > 0 { ShlCancel(a, b, s - 1); }
  }

  // ---------------------------------------------------------------- positions

  /** Where position `p` from group `g` on lies. */
  ghost predicate At(gs: seq<Group>, g: nat, p: nat, h: nat, k: nat)
    requires g <= |gs|
    decreases |gs| - g
  {
    g < |gs| && if p < gs[g].count then h == g && k == p else At(gs, g + 1, p - gs[g].count, h, k)
  }

  function Total(gs: seq<Group>, g: nat): nat
    requires g <= |gs|
    decreases |gs| - g
  {
    if g == |gs| then 0 else gs[g].count + Total(gs, g + 1)
  }

  function Place(gs: seq<Group>, g: nat, p: nat): (r: (nat, nat))
    requires g <= |gs| && p < Total(gs, g)
    ensures g <= r.0 < |gs| && r.1 < gs[r.0].count && At(gs, g, p, r.0, r.1)
    decreases |gs| - g
  {
    if p < gs[g].count then (g, p) else Place(gs, g + 1, p - gs[g].count)
  }

  /** Different positions lie at different places. */
  lemma {:induction false} PlaceInjective(gs: seq<Group>, g: nat, p: nat, q: nat)
    requires g <= |gs| && p < Total(gs, g) && q < Total(gs, g) && p != q
    ensures Place(gs, g, p) != Place(gs, g, q)
    decreases |gs| - g
  {
    if p >= gs[g].count && q >= gs[g].count {
      PlaceInjective(gs, g + 1, p - gs[g].count, q - gs[g].count);
    }
  }

  lemma {:induction false} LastPlace(gs: seq<Group>, g: nat)
    requires g < |gs| && gs[|gs| - 1].count > 0
    ensures Total(gs, g) > 0 && Place(gs, g, Total(gs, g) - 1) == (|gs| - 1, gs[|gs| - 1].count - 1)
    decreases |gs| - g
  {
    if g < |gs| - 1 {
      LastPlace(gs, g + 1);
    } else {
      assert Total(gs, g + 1) == 0;
    }
  }

  // ---------------------------------------------------------------- the table

  /** The canonical table in which symbol `i` is the `order[i]`-th. */
  ghost predicate Canonical(gs: seq<Group>, order: seq<nat>, t: Table)
  {
    && Kraft(gs) && Total(gs, 0) == 257 && |order| == 257
    && (forall i :: 0 <= i < 257 ==> order[i] < 257)
    && (forall i, j :: 0 <= i < j < 257 ==> order[i] != order[j])
    && order[EOS] == 256
    && forall i :: 0 <= i < 257 ==>
         var r := Place(gs, 0, order[i]); t[i] == Sym(gs[r.0].bits, Start(gs, r.0) + r.1)
  }

  /** If one code is a beginning of another, it is what is left of it after a shift. */
  lemma PrefixShift(a: nat, n: nat, b: nat, m: nat)
    requires BitsOf(a, n) <= BitsOf(b, m) && a < Pow2(n) && b < Pow2(m)
    ensures n <= m && Shl(a, m - n) <= b < Shl(a + 1, m - n)
  {
    hide BitsOf, Shl, Shr, Pow2, Low, ValueOf;
    var s := m - n;
    BitsSplit(b, n, s);
    assert BitsOf(b, m)[..n] == BitsOf(Shr(b, s), n);
    assert BitsOf(a, n) == BitsOf(Shr(b, s), n);
    ShrBound(b, n, s);
    BitsValue(a, n);
    BitsValue(Shr(b, s), n);
    assert a == Shr(b, s);
    Split(b, s);
    ShlAdd(a, 1, s);
    ShlOne(s);
  }

  lemma NoPrefix(gs: seq<Group>, g: nat, k: nat, h: nat, l: nat)
    requires Kraft(gs) && g < |gs| && h < |gs| && k < gs[g].count && l < gs[h].count && (g, k) != (h, l)
    ensures !(BitsOf(Start(gs, g) + k, gs[g].bits) <= BitsOf(Start(gs, h) + l, gs[h].bits))
  {
    hide BitsOf, Shl, Start, Pow2;
    var a, b, n, m := Start(gs, g) + k, Start(gs, h) + l, gs[g].bits, gs[h].bits;
    FitsIn(gs, g);
    FitsIn(gs, h);
    if BitsOf(a, n) <= BitsOf(b, m) {
      PrefixShift(a, n, b, m);
      if g < h {
        Before(gs, g, h);
        ShlMonotone(a + 1, End(gs, g), m - n);
      }
      ShlNone(a);
      ShlNone(a + 1);
      assert false;
    }
  }

  lemma CanonicalIsGood(gs: seq<Group>, order: seq<nat>, t: Table)
    requires Canonical(gs, order, t)
    ensures Good(t)
  {
    hide BitsOf, Place, Start, End, Kraft, Pow2;
    forall i | 0 <= i < 257 ensures 5 <= t[i].nbits <= EOS_BITS && t[i].code < Pow2(t[i].nbits) {
      Within(gs, Place(gs, 0, order[i]));
    }
    forall i, j | 0 <= i < 257 && 0 <= j < 257 && i != j ensures !(Code(t, i) <= Code(t, j)) {
      var p, q := Place(gs, 0, order[i]), Place(gs, 0, order[j]);
      PlaceInjective(gs, 0, order[i], order[j]);
      NoPrefix(gs, p.0, p.1, q.0, q.1);
    }
    LastIsOnes(gs);
    LastPlace(gs, 0);
  }

  lemma Within(gs: seq<Group>, r: (nat, nat))
    requires Kraft(gs) && r.0 < |gs| && r.1 < gs[r.0].count
    ensures 5 <= gs[r.0].bits <= EOS_BITS && Start(gs, r.0) + r.1 < Pow2(gs[r.0].bits)
  {
    FitsIn(gs, r.0);
  }

  lemma LastIsOnes(gs: seq<Group>)
    requires Kraft(gs)
    ensures var n := |gs| - 1;
            gs[n].bits == EOS_BITS && gs[n].count > 0 && AllOnes(BitsOf(Start(gs, n) + (gs[n].count - 1), EOS_BITS))
  {
    hide BitsOf, Start, Pow2;
    OnesOf(EOS_BITS);
  }

  lemma {:induction false} OnesOf(n: nat)
    ensures AllOnes(BitsOf(Pow2(n) - 1, n))
  {
    if n > 0 {
      OnesOf(n - 1);
      assert (Pow2(n) - 1) / 2 == Pow2(n - 1) - 1;
    }
  }

  // ---------------------------------------------------------------- the source's lengths

  /** How many codes of each length `huff_sym_table` has. */
  const GROUPS: seq<Group> := [
    Group(5, 10), Group(6, 26), Group(7, 32), Group(8, 6), Group(10, 5), Group(11, 3), Group(12, 2), Group(13, 6),
    Group(14, 2), Group(15, 3), Group(19, 3), Group(20, 8), Group(21, 13), Group(22, 26), Group(23, 29), Group(24, 12),
    Group(25, 4), Group(26, 15), Group(27, 19), Group(28, 29), Group(30, 4)]

  lemma Ends5()
    requires Increasing(GROUPS)
    ensures End(GROUPS, 5) == 2045
  {
    assert End(GROUPS, 0) == 10;
    assert Start(GROUPS, 1) == 20;
    assert End(GROUPS, 1) == 46;
    assert Start(GROUPS, 2) == 92;
    assert End(GROUPS, 2) == 124;
    assert Start(GROUPS, 3) == 248;
    assert End(GROUPS, 3) == 254;
    assert Start(GROUPS, 4) == 1016;
    assert End(GROUPS, 4) == 1021;
    assert Start(GROUPS, 5) == 2042;
    assert End(GROUPS, 5) == 2045;
  }

  lemma Ends10()
    requires Increasing(GROUPS) && End(GROUPS, 5) == 2045
    ensures End(GROUPS, 10) == 524275
  {
    assert Start(GROUPS, 6) == 4090;
    assert End(GROUPS, 6) == 4092;
    assert Start(GROUPS, 7) == 8184;
    assert End(GROUPS, 7) == 8190;
    assert Start(GROUPS, 8) == 16380;
    assert End(GROUPS, 8) == 16382;
    assert Start(GROUPS, 9) == 32764;
    assert End(GROUPS, 9) == 32767;
    assert Shl(32767, 4) == 524272;
    assert Start(GROUPS, 10) == 524272;
    assert End(GROUPS, 10) == 524275;
  }

  lemma Ends12()
    requires Increasing(GROUPS) && End(GROUPS, 10) == 524275
    ensures End(GROUPS, 12) == 2097129
  {
    assert Start(GROUPS, 11) == 1048550;
    assert End(GROUPS, 11) == 1048558;
    assert Start(GROUPS, 12) == 2097116;
    assert End(GROUPS, 12) == 2097129;
  }

  lemma Ends15()
    requires Increasing(GROUPS) && End(GROUPS, 12) == 2097129
    ensures End(GROUPS, 15) == 16777206
  {
    assert Start(GROUPS, 13) == 4194258;
    assert End(GROUPS, 13) == 4194284;
    assert Start(GROUPS, 14) == 8388568;
    assert End(GROUPS, 14) == 8388597;
    assert Start(GROUPS, 15) == 16777194;
    assert End(GROUPS, 15) == 16777206;
  }

  lemma Ends17()
    requires Increasing(GROUPS) && End(GROUPS, 15) == 16777206
    ensures End(GROUPS, 17) == 67108847
  {
    assert GROUPS[15].bits == 24;
    assert GROUPS[16] == Group(25, 4);
    assert Shl(16777206, 1) == 33554412;
    assert Start(GROUPS, 16) == 33554412;
    assert End(GROUPS, 16) == 33554416;
    assert GROUPS[17] == Group(26, 15);
    assert Shl(33554416, 1) == 67108832;
    assert Start(GROUPS, 17) == 67108832;
    assert End(GROUPS, 17) == 67108847;
  }

  lemma Ends20()
    requires Increasing(GROUPS) && End(GROUPS, 17) == 67108847
    ensures End(GROUPS, 20) == 1073741824
  {
    assert GROUPS[17].bits == 26;
    assert GROUPS[18] == Group(27, 19);
    assert Shl(67108847, 1) == 134217694;
    assert Start(GROUPS, 18) == 134217694;
    assert End(GROUPS, 18) == 134217713;
    assert GROUPS[19] == Group(28, 29);
    assert Shl(134217713, 1) == 268435426;
    assert Start(GROUPS, 19) == 268435426;
    assert End(GROUPS, 19) == 268435455;
    assert GROUPS[20] == Group(30, 4);
    assert Shl(268435455, 2) == 1073741820;
    assert Start(GROUPS, 20) == 1073741820;
    assert End(GROUPS, 20) == 1073741824;
  }

  lemma Totals()
    ensures Total(GROUPS, 0) == 257
  {
    assert Total(GROUPS, 21) == 0;
    assert Total(GROUPS, 18) == 52;
    assert Total(GROUPS, 15) == 83;
    assert Total(GROUPS, 12) == 151;
    assert Total(GROUPS, 9) == 165;
    assert Total(GROUPS, 6) == 175;
    assert Total(GROUPS, 3) == 189;
    assert Total(GROUPS, 0) == 257;
  }

  /** They use up the code space, so every assignment of these codes to the symbols with EOS last, among
      them that of the source, is a good table. */
  lemma SourceCodeIsGood(order: seq<nat>, t: Table)
    requires |order| == 257 && order[EOS] == 256
    requires forall i :: 0 <= i < 257 ==> order[i] < 257
    requires forall i, j :: 0 <= i < j < 257 ==> order[i] != order[j]
    requires Increasing(GROUPS) && Total(GROUPS, 0) == 257
    requires forall i :: 0 <= i < 257 ==>
               var r := Place(GROUPS, 0, order[i]); t[i] == Sym(GROUPS[r.0].bits, Start(GROUPS, r.0) + r.1)
    ensures Good(t)
  {
    hide Good, Place, Start, Total, End, Pow2;
    SourceKraft();
    CanonicalIsGood(GROUPS, order, t);
  }

  lemma SourceKraft()
    ensures Kraft(GROUPS) && Total(GROUPS, 0) == 257
  {
    hide Start, End, Total, Increasing;
    GroupsIncrease();
    Ends5();
    Ends10();
    Ends12();
    Ends15();
    Ends17();
    Ends20();
    Totals();
    assert Pow2(EOS_BITS) == 0x4000_0000 by { Pow2Thirty(); }
  }

  lemma GroupsIncrease()
    ensures Increasing(GROUPS) && |GROUPS| == 21 && GROUPS[20] == Group(30, 4)
    ensures forall g :: 0 <= g < |GROUPS| ==> 5 <= GROUPS[g].bits <= EOS_BITS
  {
    Sorted(GROUPS);
    forall g | 0 <= g < 21 ensures 5 <= GROUPS[g].bits <= EOS_BITS {}
  }

  /** Neighbours in order are enough. */
  lemma Sorted(gs: seq<Group>)
    requires forall g :: 0 < g < |gs| ==> gs[g - 1].bits < gs[g].bits
    ensures Increasing(gs)
  {
    forall g, h | 0 <= g < h < |gs| ensures gs[g].bits < gs[h].bits {
      SortedAt(gs, g, h);
    }
  }

  lemma {:induction false} SortedAt(gs: seq<Group>, g: nat, h: nat)
    requires (forall i :: 0 < i < |gs| ==> gs[i - 1].bits < gs[i].bits) && g < h < |gs|
    ensures gs[g].bits < gs[h].bits
    decreases h
  {
    if g < h - 1 { SortedAt(gs, g, h - 1); }
  }

  lemma Pow2Thirty()
    ensures Pow2(30) == 0x4000_0000
  {
    Pow2Words();
    assert Pow2(26) == 0x400_0000;
    assert Pow2(28) == 0x1000_0000;
  }
}
