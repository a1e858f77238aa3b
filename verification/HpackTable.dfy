/** The HPACK tables as sequences: static entries, then the dynamic table with the newest entry
    first (sections 2.3, 4.1-4.4 of RFC 7541). */
module HpackTable {
  import opened Bytes
  import opened HuffmanCode

  datatype Field = Field(name: seq<byte>, value: seq<byte>)

  const STATIC_LENGTH: nat := 61
  const ENTRY_OVERHEAD: nat := 32

  type StaticTable = s: seq<Field> | |s| == STATIC_LENGTH witness seq(STATIC_LENGTH, _ => Field([], []))

  /** The constant data of the codec: `static_table` and `huff_sym_table`. */
  datatype Consts = Consts(fixed: StaticTable, code: Table)

  /** `entry_room`. */
  function Room(f: Field): nat { ENTRY_OVERHEAD + |f.name| + |f.value| }

  /** The size of a table as section 4.1 counts it. */
  function Size(t: seq<Field>): nat
  {
    if t == [] then 0 else Size(t[..|t| - 1]) + Room(t[|t| - 1])
  }

  lemma {:induction false} SizeCons(f: Field, t: seq<Field>)
    ensures Size([f] + t) == Room(f) + Size(t)
  {
    if t == [] {
      assert [f] + t == [f] && [f][..0] == [];
    } else {
      var a := [f] + t;
      assert a[..|a| - 1] == [f] + t[..|t| - 1];
      SizeCons(f, t[..|t| - 1]);
    }
  }

  lemma {:induction false} SizeCount(t: seq<Field>)
    ensures Size(t) >= ENTRY_OVERHEAD * |t|
  {
    if t != [] { SizeCount(t[..|t| - 1]); }
  }

  /** `hd_context_shrink_table_size`: evict from the old end until the size fits, and no further. */
  function Shrink(t: seq<Field>, max: nat): (r: seq<Field>)
    ensures r <= t && Size(r) <= max
  {
    if Size(t) <= max then t else Shrink(t[..|t| - 1], max)
  }

  /** Of the beginning `r` of `t` no more could have been kept. */
  ghost predicate Least(t: seq<Field>, r: seq<Field>, max: nat)
  {
    |r| < |t| ==> Size(t[..|r| + 1]) > max
  }

  /** `add_hd_table_incremental`: make room, then put the entry first unless it can never fit. */
  function Insert(t: seq<Field>, f: Field, max: nat): (r: seq<Field>)
  {
    if Room(f) > max then [] else [f] + Shrink(t, max - Room(f))
  }

  lemma InsertFits(t: seq<Field>, f: Field, max: nat)
    ensures Size(Insert(t, f, max)) <= max
  {
    if Room(f) <= max { SizeCons(f, Shrink(t, max - Room(f))); }
  }

  lemma {:induction false} ShrinkLeast(t: seq<Field>, max: nat)
    ensures Least(t, Shrink(t, max), max)
  {
    if Size(t) > max {
      ShrinkLeast(t[..|t| - 1], max);
      var n := |Shrink(t, max)|;
      if n + 1 < |t| { assert t[..|t| - 1][..n + 1] == t[..n + 1]; } else { assert t[..n + 1] == t; }
    }
  }

  /** Nothing else is the longest beginning that fits. */
  lemma {:induction false} ShrinkIs(t: seq<Field>, r: seq<Field>, max: nat)
    ensures r == Shrink(t, max) <==> r <= t && Size(r) <= max && Least(t, r, max)
  {
    var s := Shrink(t, max);
    ShrinkLeast(t, max);
    if |r| < |s| {
      SizeBeginning(s, |r| + 1);
      assert s[..|r| + 1] == t[..|r| + 1];
    } else if |s| < |r| && r <= t {
      SizeBeginning(r, |s| + 1);
      assert r[..|s| + 1] == t[..|s| + 1];
    }
  }

  lemma {:induction false} SizeBeginning(t: seq<Field>, n: nat)
    requires n <= |t|
    ensures Size(t[..n]) <= Size(t)
  {
    if n < |t| {
      SizeBeginning(t[..|t| - 1], n);
      assert t[..|t| - 1][..n] == t[..n];
    } else {
      assert t[..n] == t;
    }
  }

  /** What an insertion keeps: the field first, then as many of the newest entries as fit beside it. */
  lemma InsertKeeps(t: seq<Field>, f: Field, max: nat)
    ensures Room(f) > max ==> Insert(t, f, max) == []
    ensures Room(f) <= max ==>
              var r := Insert(t, f, max);
              r != [] && r[0] == f && r[1..] <= t && (|r| <= |t| ==> Room(f) + Size(t[..|r|]) > max)
  {
    if Room(f) <= max {
      var s := Shrink(t, max - Room(f));
      ShrinkLeast(t, max - Room(f));
      assert ([f] + s)[1..] == s;
    }
  }

  /** An instance: three entries of 34 octets under a maximum of 102, and a fourth. Only the oldest goes. */
  lemma OnlyTheOldest(a: Field, b: Field, c: Field, d: Field)
    requires Room(a) == Room(b) == Room(c) == Room(d) == 34
    ensures Insert([c, b, a], d, 102) == [d, c, b]
  {
    var t := [c, b, a];
    assert t[..2] == [c, b] && t[..2][..1] == [c] && t[..1] == [c] && [c][..0] == [];
    assert Size([c]) == 34 && Size([c, b]) == 68 && Size(t) == 102;
    assert t[..3] == t;
    ShrinkIs(t, [c, b], 68);
  }

  /** Shrinking twice is shrinking to the smaller bound, in either order. */
  lemma {:induction false} ShrinkShrink(t: seq<Field>, a: nat, b: nat)
    ensures Shrink(Shrink(t, a), b) == Shrink(t, Min(a, b))
  {
    if Size(t) > a {
      ShrinkShrink(t[..|t| - 1], a, b);
    }
  }

  lemma ShrinkFits(t: seq<Field>, max: nat)
    requires Size(t) <= max
    ensures Shrink(t, max) == t
  {}

  /** `nghttp2_hd_table_get`. */
  function Get(s: StaticTable, t: seq<Field>, i: nat): Field
    requires i < STATIC_LENGTH + |t|
  {
    if i < STATIC_LENGTH then s[i] else t[i - STATIC_LENGTH]
  }

  // ----- linear search -----

  function FirstName(t: seq<Field>, name: seq<byte>, i: nat): (k: nat)
    requires i <= |t|
    ensures i <= k <= |t| && (k < |t| ==> t[k].name == name)
    ensures forall j :: i <= j < k ==> t[j].name != name
    decreases |t| - i
  {
    if i == |t| || t[i].name == name then i else FirstName(t, name, i + 1)
  }

  function FirstField(t: seq<Field>, f: Field, i: nat): (k: nat)
    requires i <= |t|
    ensures i <= k <= |t| && (k < |t| ==> t[k] == f)
    ensures forall j :: i <= j < k ==> t[j] != f
    decreases |t| - i
  {
    if i == |t| || t[i] == f then i else FirstField(t, f, i + 1)
  }

  /** In the run of static entries named `f.name` that starts at `i`, the one with `f`'s value. */
  function RunField(s: StaticTable, f: Field, i: nat): (k: nat)
    requires i <= STATIC_LENGTH
    ensures i <= k <= STATIC_LENGTH && (k < STATIC_LENGTH ==> s[k] == f)
    decreases STATIC_LENGTH - i
  {
    if i == STATIC_LENGTH || s[i].name != f.name then STATIC_LENGTH
    else if s[i] == f then i
    else RunField(s, f, i + 1)
  }

  datatype Match = NoMatch | NameMatch(index: nat) | ExactMatch(index: nat)

  /** The search order the encoder promises: an exact entry of the dynamic table (newest first),
      then the static table, then a dynamic entry with the name. */
  function Search(s: StaticTable, t: seq<Field>, f: Field, nameOnly: bool): (m: Match)
    ensures !m.NoMatch? ==> m.index < STATIC_LENGTH + |t| && Get(s, t, m.index).name == f.name
    ensures m.ExactMatch? ==> Get(s, t, m.index) == f && !nameOnly
  {
    var e := if nameOnly then |t| else FirstField(t, f, 0);
    if e < |t| then ExactMatch(STATIC_LENGTH + e)
    else
      var n := FirstName(s, f.name, 0);
      if n < STATIC_LENGTH then StaticMatch(s, f, n, nameOnly)
      else
        var k := FirstName(t, f.name, 0);
        if k < |t| then NameMatch(STATIC_LENGTH + k) else NoMatch
  }

  /** `search_static_table`, given the first entry with the name. */
  function StaticMatch(s: StaticTable, f: Field, n: nat, nameOnly: bool): (m: Match)
    requires n < STATIC_LENGTH && s[n].name == f.name
    ensures !m.NoMatch? && m.index < STATIC_LENGTH && s[m.index].name == f.name
    ensures m.ExactMatch? ==> s[m.index] == f && !nameOnly
  {
    var k := if nameOnly then STATIC_LENGTH else RunField(s, f, n);
    if k < STATIC_LENGTH then ExactMatch(k) else NameMatch(n)
  }

  /** `f` is among the static entries from the first with its name on, as long as they have that name. */
  ghost predicate InFirstRun(s: StaticTable, f: Field)
  {
    exists k :: 0 <= k < STATIC_LENGTH && s[k] == f && RunTo(s, f.name, k)
  }

  /** The entries with the name up to `k` are the first and follow each other. */
  ghost predicate RunTo(s: StaticTable, name: seq<byte>, k: nat)
    requires k < STATIC_LENGTH
  {
    forall i, j :: 0 <= i < j <= k && s[i].name == name ==> s[j].name == name
  }

  lemma {:induction false} RunFinds(s: StaticTable, f: Field, i: nat, k: nat)
    requires i <= k < STATIC_LENGTH && s[k] == f && forall j :: i <= j <= k ==> s[j].name == f.name
    ensures RunField(s, f, i) <= k
    decreases k - i
  {
    if s[i] != f { RunFinds(s, f, i + 1, k); }
  }

  lemma {:induction false} RunFound(s: StaticTable, f: Field, i: nat)
    requires i <= STATIC_LENGTH
    ensures var k := RunField(s, f, i); k < STATIC_LENGTH ==> forall j :: i <= j <= k ==> s[j].name == f.name
    decreases STATIC_LENGTH - i
  {
    if i < STATIC_LENGTH && s[i].name == f.name && s[i] != f { RunFound(s, f, i + 1); }
  }

  lemma StaticComplete(s: StaticTable, f: Field, n: nat)
    requires n < STATIC_LENGTH && s[n].name == f.name && forall j :: 0 <= j < n ==> s[j].name != f.name
    ensures RunField(s, f, n) < STATIC_LENGTH <==> InFirstRun(s, f)
  {
    RunFound(s, f, n);
    if InFirstRun(s, f) {
      var k :| 0 <= k < STATIC_LENGTH && s[k] == f && RunTo(s, f.name, k);
      RunFinds(s, f, n, k);
    }
  }

  /** The search finds what there is: the field itself exactly if it is asked for and in the dynamic table or in
      the static run of its name, the newest in the dynamic table first; nothing exactly if no entry has the name. */
  lemma SearchComplete(s: StaticTable, t: seq<Field>, f: Field, nameOnly: bool)
    ensures var m := Search(s, t, f, nameOnly);
            && (m.ExactMatch? <==> !nameOnly && (f in t || InFirstRun(s, f)))
            && (m.NoMatch? <==> (forall i :: 0 <= i < STATIC_LENGTH ==> s[i].name != f.name)
                                && forall i :: 0 <= i < |t| ==> t[i].name != f.name)
            && (m.ExactMatch? && f in t ==> m.index >= STATIC_LENGTH && f !in t[..m.index - STATIC_LENGTH])
            && (m.NameMatch? && m.index < STATIC_LENGTH ==> forall i :: 0 <= i < m.index ==> s[i].name != f.name)
            && (m.NameMatch? && m.index >= STATIC_LENGTH ==>
                  && (forall i :: 0 <= i < STATIC_LENGTH ==> s[i].name != f.name)
                  && forall i :: 0 <= i < m.index - STATIC_LENGTH ==> t[i].name != f.name)
  {
    hide RunField, InFirstRun;
    var n := FirstName(s, f.name, 0);
    if n < STATIC_LENGTH {
      StaticComplete(s, f, n);
    } else {
      NoRun(s, f);
    }
    var e := FirstField(t, f, 0);
    assert f in t <==> e < |t|;
  }

  lemma NoRun(s: StaticTable, f: Field)
    requires forall i :: 0 <= i < STATIC_LENGTH ==> s[i].name != f.name
    ensures !InFirstRun(s, f)
  {}

  // ----- tokens -----

  /** Names with a token but no static entry: te, connection, keep-alive, proxy-connection, upgrade. */
  function ExtraNames(): seq<seq<byte>>
  {
    [[116, 101],
     [99, 111, 110, 110, 101, 99, 116, 105, 111, 110],
     [107, 101, 101, 112, 45, 97, 108, 105, 118, 101],
     [112, 114, 111, 120, 121, 45, 99, 111, 110, 110, 101, 99, 116, 105, 111, 110],
     [117, 112, 103, 114, 97, 100, 101]]
  }

  function FirstIn(names: seq<seq<byte>>, name: seq<byte>, i: nat): (k: nat)
    requires i <= |names|
    ensures i <= k <= |names| && (k < |names| ==> names[k] == name)
    decreases |names| - i
  {
    if i == |names| || names[i] == name then i else FirstIn(names, name, i + 1)
  }

  /** `lookup_token`: the first static index of the name, a number above 60 for the extra names, else -1. */
  function LookupToken(s: StaticTable, name: seq<byte>): int
  {
    var n := FirstName(s, name, 0);
    var k := FirstIn(ExtraNames(), name, 0);
    if n < STATIC_LENGTH then n else if k < |ExtraNames()| then STATIC_LENGTH + k else -1
  }

  /** Tokens other than -1 identify names. */
  lemma TokenInjective(s: StaticTable, a: seq<byte>, b: seq<byte>)
    requires LookupToken(s, a) == LookupToken(s, b) != -1
    ensures a == b
  {
    hide ExtraNames;
  }
}
