/** The hash map from stream ids to streams: intrusive entries chained in buckets (`nghttp2_map`). */
module StreamMap {

  /** `nghttp2_map_entry`, as `nghttp2_map_entry_init` leaves it. */
  class MapEntry {
    const key: int
    var next: MapEntry?

    constructor (key: int)
      ensures this.key == key && next == null
    {
      this.key, next := key, null;
    }
  }

  function Mix(key: int): bv32
  {
    var h := (key % 0x1_0000_0000) as bv32;
    var h1 := h ^ ((h >> 20) ^ (h >> 12));
    h1 ^ ((h1 >> 7) ^ (h1 >> 4))
  }

  /** `hash`; masking with `mod - 1` is the remainder, `mod` being a power of two. */
  function Hash(key: int, mod: nat): (h: nat)
    requires mod > 0
    ensures h < mod
  {
    (Mix(key) as nat) % mod
  }

  // ---------------------------------------------------------------- chains

  function At(s: seq<MapEntry>, i: int): (x: MapEntry?)
  {
    if 0 <= i < |s| then s[i] else null
  }

  ghost predicate Distinct(s: seq<MapEntry>)
  {
    forall i, j :: 0 <= i < j < |s| ==> s[i] != s[j]
  }

  /** The chain that starts at `head`. */
  ghost predicate Chained(head: MapEntry?, s: seq<MapEntry>)
    reads s`next
  {
    head == At(s, 0) && forall i :: 0 <= i < |s| ==> s[i].next == At(s, i + 1)
  }

  /** Every entry is in the chain of its hash and nowhere else, and no two have the same key: the chains
      hold exactly the bindings of `model`. */
  ghost predicate Filed(chains: seq<seq<MapEntry>>, model: map<int, MapEntry>)
  {
    && |chains| > 0
    && (forall h, i :: 0 <= h < |chains| && 0 <= i < |chains[h]| ==>
          var e := chains[h][i]; Hash(e.key, |chains|) == h && e.key in model && model[e.key] == e)
    && (forall k :: k in model ==> model[k].key == k && model[k] in chains[Hash(k, |chains|)])
    && (forall h :: 0 <= h < |chains| ==> Distinct(chains[h]))
  }

  /** The table holds the chains; `pool` are all entries there are. */
  ghost predicate Linked(pool: set<MapEntry>, table: array<MapEntry?>, chains: seq<seq<MapEntry>>)
    reads table, pool`next
  {
    && table.Length == |chains|
    && (forall h, i :: 0 <= h < |chains| && 0 <= i < |chains[h]| ==> chains[h][i] in pool)
    && (forall h :: 0 <= h < |chains| ==> Chained(table[h], chains[h]))
  }

  /** An entry of one chain is in no other. */
  lemma ChainsApart(chains: seq<seq<MapEntry>>, model: map<int, MapEntry>, g: nat, h: nat)
    requires Filed(chains, model) && g < |chains| && h < |chains| && g != h
    ensures forall i :: 0 <= i < |chains[g]| ==> chains[g][i] !in chains[h]
  {
    hide Hash;
  }

  lemma InsertFiled(chains: seq<seq<MapEntry>>, model: map<int, MapEntry>, e: MapEntry)
    requires Filed(chains, model) && e.key !in model
    ensures var h := Hash(e.key, |chains|);
            Filed(chains[h := [e] + chains[h]], model[e.key := e])
  {
    hide Hash;
    var h := Hash(e.key, |chains|);
    var cs, m := chains[h := [e] + chains[h]], model[e.key := e];
    assert e !in chains[h];
    forall k | k in m ensures m[k].key == k && m[k] in cs[Hash(k, |cs|)] {
      if k == e.key { assert cs[h][0] == e; } else { assert model[k] in chains[Hash(k, |chains|)]; }
    }
  }

  lemma RemoveFiled(chains: seq<seq<MapEntry>>, model: map<int, MapEntry>, h: nat, i: nat)
    requires Filed(chains, model) && h < |chains| && i < |chains[h]|
    ensures Filed(chains[h := chains[h][..i] + chains[h][i + 1..]], model - {chains[h][i].key})
  {
    hide Hash;
    var e := chains[h][i];
    var rest := chains[h][..i] + chains[h][i + 1..];
    var cs, m := chains[h := rest], model - {e.key};
    assert Distinct(chains[h]);
    forall j | 0 <= j < |rest| ensures Hash(rest[j].key, |cs|) == h && rest[j].key in m && m[rest[j].key] == rest[j] {
      assert rest[j] == chains[h][if j < i then j else j + 1];
    }
    forall k | k in m ensures m[k].key == k && m[k] in cs[Hash(k, |cs|)] {
      var c := chains[Hash(k, |chains|)];
      var j :| 0 <= j < |c| && c[j] == model[k];
      if Hash(k, |chains|) == h {
        assert rest[if j < i then j else j - 1] == m[k];
      }
    }
  }

  // ---------------------------------------------------------------- walking a chain

  /** The loop over one chain that `insert`, `nghttp2_map_find` and `nghttp2_map_remove` share. */
  method Scan(head: MapEntry?, key: int, ghost chain: seq<MapEntry>) returns (found: MapEntry?, ghost i: nat)
    requires Chained(head, chain)
    ensures found == null <==> forall j :: 0 <= j < |chain| ==> chain[j].key != key
    ensures found != null ==> i < |chain| && found == chain[i] && found.key == key
  {
    found, i := head, 0;
    while found != null && found.key != key
      invariant i <= |chain| && found == At(chain, i)
      invariant forall j :: 0 <= j < i ==> chain[j].key != key
      decreases |chain| - i
    {
      found := found.next;
      i := i + 1;
    }
  }

  /** Looking only at the chain of the hash misses nothing. */
  lemma ScanFinds(chains: seq<seq<MapEntry>>, model: map<int, MapEntry>, key: int)
    requires Filed(chains, model)
    ensures var c := chains[Hash(key, |chains|)];
            && (key !in model <==> forall j :: 0 <= j < |c| ==> c[j].key != key)
            && (forall j :: 0 <= j < |c| && c[j].key == key ==> key in model && model[key] == c[j])
  {
    hide Hash;
  }

  lemma ChainOf(pool: set<MapEntry>, table: array<MapEntry?>, chains: seq<seq<MapEntry>>, h: nat)
    requires Linked(pool, table, chains) && h < |chains|
    ensures h < table.Length && Chained(table[h], chains[h]) && forall i :: 0 <= i < |chains[h]| ==> chains[h][i] in pool
  {}

  // ---------------------------------------------------------------- insertion

  lemma NotChained(chains: seq<seq<MapEntry>>, model: map<int, MapEntry>, e: MapEntry)
    requires Filed(chains, model) && e.key !in model
    ensures forall h, i :: 0 <= h < |chains| && 0 <= i < |chains[h]| ==> chains[h][i] != e
  {
    hide Hash;
  }

  method PutFirst(table: array<MapEntry?>, h: nat, e: MapEntry, ghost pool: set<MapEntry>, ghost chains: seq<seq<MapEntry>>)
    requires Linked(pool, table, chains) && h < table.Length && e in pool && e.next == null
    requires forall g, i :: 0 <= g < |chains| && 0 <= i < |chains[g]| ==> chains[g][i] != e
    modifies table, e`next
    ensures Linked(pool, table, chains[h := [e] + chains[h]])
  {
    hide Chained;
    ghost var cs := chains[h := [e] + chains[h]];
    if table[h] == null {
      assert chains[h] == [] by { ChainNull(table[h], chains[h]); }
      table[h] := e;
    } else {
      e.next := table[h];
      table[h] := e;
    }
    assert Chained(table[h], cs[h]) by { ChainCons(e, chains[h], old(table[h])); }
    forall g | 0 <= g < |cs| && g != h ensures Chained(table[g], cs[g]) {
      assert forall i :: 0 <= i < |chains[g]| ==> chains[g][i] != e;
      assert old(Chained(table[g], chains[g]));
    }
  }

  lemma ChainNull(head: MapEntry?, s: seq<MapEntry>)
    requires Chained(head, s)
    ensures head == null <==> s == []
  {}

  lemma ChainCons(e: MapEntry, s: seq<MapEntry>, head: MapEntry?)
    requires Chained(head, s) && e.next == head
    ensures Chained(e, [e] + s)
  {
    var r := [e] + s;
    forall i | 0 <= i < |r| ensures r[i].next == At(r, i + 1) {
      if i > 0 { assert r[i] == s[i - 1]; }
    }
  }

  /** `insert`. */
  method InsertInto(table: array<MapEntry?>, e: MapEntry, ghost pool: set<MapEntry>, ghost chains: seq<seq<MapEntry>>,
                    ghost model: map<int, MapEntry>) returns (ok: bool, ghost cs: seq<seq<MapEntry>>)
    requires Filed(chains, model) && Linked(pool, table, chains) && e in pool && (e.key !in model ==> e.next == null)
    modifies table, e`next
    ensures ok <==> e.key !in model
    ensures ok ==> Filed(cs, model[e.key := e]) && |cs| == |chains|
    ensures !ok ==> cs == chains && e.next == old(e.next) && table[..] == old(table[..])
    ensures Linked(pool, table, cs)
  {
    hide Filed, Hash;
    assert |chains| > 0 by { FiledSize(chains, model); }
    var h := Hash(e.key, table.Length);
    cs := chains;
    ChainOf(pool, table, chains, h);
    ScanFinds(chains, model, e.key);
    var dup, i := Scan(table[h], e.key, chains[h]);
    if dup != null {
      return false, cs;
    }
    NotChained(chains, model, e);
    InsertFiled(chains, model, e);
    PutFirst(table, h, e, pool, chains);
    return true, chains[h := [e] + chains[h]];
  }

  lemma FiledSize(chains: seq<seq<MapEntry>>, model: map<int, MapEntry>)
    requires Filed(chains, model)
    ensures |chains| > 0
  {}

  // ---------------------------------------------------------------- resizing

  /** The bindings moved when the first `i` chains and the first `j` entries of the next are. */
  ghost function Part(chains: seq<seq<MapEntry>>, model: map<int, MapEntry>, i: nat, j: nat): map<int, MapEntry>
    requires |chains| > 0 && i <= |chains| && j <= if i < |chains| then |chains[i]| else 0
  {
    map k | k in model && (Hash(k, |chains|) < i || (i < |chains| && model[k] in chains[i][..j])) :: model[k]
  }

  lemma PartStep(chains: seq<seq<MapEntry>>, model: map<int, MapEntry>, i: nat, j: nat)
    requires Filed(chains, model) && i < |chains| && j < |chains[i]|
    ensures var e := chains[i][j];
            e.key !in Part(chains, model, i, j) && Part(chains, model, i, j + 1) == Part(chains, model, i, j)[e.key := e]
  {
    hide Hash;
    var c, e := chains[i], chains[i][j];
    assert c[..j + 1] == c[..j] + [e];
    assert Distinct(c);
    assert e !in c[..j];
    assert e in c[..j + 1];
    assert model[e.key] == e;
    forall k | k in model && model[k] == e ensures k == e.key {}
  }

  lemma PartNext(chains: seq<seq<MapEntry>>, model: map<int, MapEntry>, i: nat)
    requires Filed(chains, model) && i < |chains|
    ensures Part(chains, model, i, |chains[i]|) == Part(chains, model, i + 1, 0)
  {
    hide Hash;
    var c := chains[i];
    assert c[..|c|] == c;
    forall k | k in model ensures model[k] in c <==> Hash(k, |chains|) == i {}
  }

  lemma PartEnds(chains: seq<seq<MapEntry>>, model: map<int, MapEntry>)
    requires Filed(chains, model)
    ensures Part(chains, model, 0, 0) == map[] && Part(chains, model, |chains|, 0) == model
  {
    hide Hash;
  }

  /** One round of the inner loop: the entry is unchained and put into the new table. */
  method MoveEntry(e: MapEntry, into: array<MapEntry?>, ghost pool: set<MapEntry>, ghost ncs: seq<seq<MapEntry>>,
                   ghost done: map<int, MapEntry>) returns (ghost cs: seq<seq<MapEntry>>)
    requires Filed(ncs, done) && Linked(pool, into, ncs) && e in pool && e.key !in done
    modifies into, e`next
    ensures Filed(cs, done[e.key := e]) && |cs| == |ncs| && Linked(pool, into, cs)
  {
    hide Filed, Hash, Chained;
    NotChained(ncs, done, e);
    e.next := null;
    forall h | 0 <= h < |ncs| ensures Chained(into[h], ncs[h]) {
      assert forall i :: 0 <= i < |ncs[h]| ==> ncs[h][i] != e;
      assert old(Chained(into[h], ncs[h]));
    }
    var ok;
    ok, cs := InsertInto(into, e, pool, ncs, done);
  }

  /** The inner loop over chain `i`. */
  method MoveChain(head: MapEntry?, into: array<MapEntry?>, ghost pool: set<MapEntry>, ghost chains: seq<seq<MapEntry>>,
                   ghost model: map<int, MapEntry>, ghost i: nat, ghost ncs: seq<seq<MapEntry>>)
    returns (ghost cs: seq<seq<MapEntry>>)
    requires Filed(chains, model) && i < |chains| && Chained(head, chains[i])
    requires forall j :: 0 <= j < |chains[i]| ==> chains[i][j] in pool
    requires Filed(ncs, Part(chains, model, i, 0)) && Linked(pool, into, ncs)
    modifies into, chains[i]`next
    ensures Filed(cs, Part(chains, model, i + 1, 0)) && |cs| == |ncs| && Linked(pool, into, cs)
  {
    hide Filed, Hash, Linked, Part;
    ghost var c := chains[i];
    assert Distinct(c) by { ChainDistinct(chains, model, i); }
    var entry := head;
    ghost var j := 0;
    cs := ncs;
    while entry != null
      invariant 0 <= j <= |c| && entry == At(c, j) && |cs| == |ncs|
      invariant forall k :: j <= k < |c| ==> c[k].next == At(c, k + 1)
      invariant Filed(cs, Part(chains, model, i, j)) && Linked(pool, into, cs)
      decreases |c| - j
    {
      var next := entry.next;
      PartStep(chains, model, i, j);
      cs := MoveEntry(entry, into, pool, cs, Part(chains, model, i, j));
      entry := next;
      j := j + 1;
    }
    PartNext(chains, model, i);
  }

  lemma ChainDistinct(chains: seq<seq<MapEntry>>, model: map<int, MapEntry>, i: nat)
    requires Filed(chains, model) && i < |chains|
    ensures Distinct(chains[i])
  {}

  /** `resize`: a new table of any length holds the same bindings. */
  method Rehash(table: array<MapEntry?>, n: nat, ghost pool: set<MapEntry>, ghost chains: seq<seq<MapEntry>>,
                ghost model: map<int, MapEntry>) returns (into: array<MapEntry?>, ghost cs: seq<seq<MapEntry>>)
    requires Filed(chains, model) && Linked(pool, table, chains) && n > 0
    modifies pool`next
    ensures fresh(into) && into.Length == n
    ensures Filed(cs, model) && Linked(pool, into, cs)
    ensures forall x :: x in pool && !Bound(model, x) ==> x.next == old(x.next)
  {
    hide Filed, Hash, Part, Chained;
    into := new MapEntry?[n](_ => null);
    cs := seq(n, _ => []);
    PartEnds(chains, model);
    EmptyFiled(n);
    EmptyLinked(pool, into, n);
    assert cs == seq(n, _ => []);
    assert |chains| > 0 by { FiledSize(chains, model); }
    var i := 0;
    while i < table.Length
      invariant 0 <= i <= |chains| == table.Length && |cs| == n
      invariant Filed(cs, Part(chains, model, i, 0)) && Linked(pool, into, cs)
      invariant forall h :: i <= h < |chains| ==> Chained(table[h], chains[h])
      invariant forall x :: x in pool && !Bound(model, x) ==> x.next == old(x.next)
      modifies into, pool`next
    {
      ghost var rest := i + 1;
      assert forall h, k :: rest <= h < |chains| && 0 <= k < |chains[h]| ==> chains[h][k] !in chains[i] by {
        forall h | rest <= h < |chains| ensures forall k :: 0 <= k < |chains[h]| ==> chains[h][k] !in chains[i] {
          ChainsApart(chains, model, h, i);
        }
      }
      AllBound(chains, model, i);
      label before:
      cs := MoveChain(table[i], into, pool, chains, model, i, cs);
      forall h | rest <= h < |chains| ensures Chained(table[h], chains[h]) {
        assert forall k :: 0 <= k < |chains[h]| ==> chains[h][k] !in chains[i];
        assert old@before(Chained(table[h], chains[h]));
      }
      i := i + 1;
    }
  }

  /** `x` is an entry of the map. */
  ghost predicate Bound(model: map<int, MapEntry>, x: MapEntry)
  {
    x.key in model && model[x.key] == x
  }

  lemma AllBound(chains: seq<seq<MapEntry>>, model: map<int, MapEntry>, i: nat)
    requires Filed(chains, model) && i < |chains|
    ensures forall j :: 0 <= j < |chains[i]| ==> Bound(model, chains[i][j])
  {}

  lemma EmptyFiled(n: nat)
    requires n > 0
    ensures Filed(seq(n, _ => []), map[])
  {}

  lemma EmptyLinked(pool: set<MapEntry>, table: array<MapEntry?>, n: nat)
    requires table.Length == n && forall h :: 0 <= h < n ==> table[h] == null
    ensures Linked(pool, table, seq(n, _ => []))
  {}

  // ---------------------------------------------------------------- removal

  lemma WithoutChained(head: MapEntry?, s: seq<MapEntry>, i: nat)
    requires i < |s| && Distinct(s)
    requires i == 0 ==> head == At(s, 1)
    requires i > 0 ==> head == s[0]
    requires forall j :: 0 <= j < |s| && j + 1 != i ==> s[j].next == At(s, j + 1)
    requires i > 0 ==> s[i - 1].next == At(s, i + 1)
    ensures Chained(head, s[..i] + s[i + 1..])
  {
    var r := s[..i] + s[i + 1..];
    forall j | 0 <= j < |r| ensures r[j].next == At(r, j + 1) {
      if j < i { assert r[j] == s[j]; } else { assert r[j] == s[j + 1]; }
    }
  }

  /** The loop of `nghttp2_map_remove`; `prev` is null while the pointer to change is the table's. */
  method ScanPrev(head: MapEntry?, key: int, ghost chain: seq<MapEntry>)
    returns (prev: MapEntry?, found: MapEntry?, ghost i: nat)
    requires Chained(head, chain)
    ensures found == null <==> forall j :: 0 <= j < |chain| ==> chain[j].key != key
    ensures found != null ==> i < |chain| && found == chain[i] && found.key == key && prev == At(chain, i - 1)
  {
    prev, found, i := null, head, 0;
    while found != null && found.key != key
      invariant i <= |chain| && found == At(chain, i) && prev == At(chain, i - 1)
      invariant forall j :: 0 <= j < i ==> chain[j].key != key
      decreases |chain| - i
    {
      prev, found := found, found.next;
      i := i + 1;
    }
  }

  method Unchain(table: array<MapEntry?>, h: nat, prev: MapEntry?, found: MapEntry, ghost i: nat,
                 ghost pool: set<MapEntry>, ghost chains: seq<seq<MapEntry>>, ghost model: map<int, MapEntry>)
    requires Filed(chains, model) && Linked(pool, table, chains) && h < |chains|
    requires i < |chains[h]| && found == chains[h][i] && prev == At(chains[h], i - 1)
    modifies table, pool`next
    ensures Linked(pool, table, chains[h := chains[h][..i] + chains[h][i + 1..]])
  {
    hide Filed, Hash;
    ghost var c := chains[h];
    ghost var cs := chains[h := c[..i] + c[i + 1..]];
    ChainDistinct(chains, model, h);
    forall g | 0 <= g < |chains| && g != h ensures forall j :: 0 <= j < |chains[g]| ==> chains[g][j] !in c {
      ChainsApart(chains, model, g, h);
    }
    ChainOf(pool, table, chains, h);
    if prev == null {
      table[h] := found.next;
    } else {
      prev.next := found.next;
    }
    WithoutChained(table[h], c, i);
    forall g | 0 <= g < |cs| && g != h ensures Chained(table[g], cs[g]) {
      assert old(Chained(table[g], chains[g]));
    }
  }

  // ---------------------------------------------------------------- the map

  const INITIAL_TABLE_LENGTH: nat := 256

  class StreamMap {
    var table: array<MapEntry?>
    var size: nat
    ghost var chains: seq<seq<MapEntry>>
    ghost var pool: set<MapEntry>
    /** The bindings. */
    ghost var model: map<int, MapEntry>

    ghost predicate Valid()
      reads this, table, pool`next
    {
      Filed(chains, model) && Linked(pool, table, chains) && size == |model|
    }

    /** `nghttp2_map_init`. */
    constructor ()
      ensures Valid() && model == map[] && size == 0 && fresh(table) && pool == {}
    {
      table := new MapEntry?[INITIAL_TABLE_LENGTH](_ => null);
      size, chains, pool, model := 0, seq(INITIAL_TABLE_LENGTH, _ => []), {}, map[];
      EmptyFiled(INITIAL_TABLE_LENGTH);
      new;
      EmptyLinked(pool, table, INITIAL_TABLE_LENGTH);
    }

    /** `nghttp2_map_find`. */
    method Find(key: int) returns (e: MapEntry?)
      requires Valid()
      ensures e == if key in model then model[key] else null
    {
      hide Filed, Hash;
      FiledSize(chains, model);
      var h := Hash(key, table.Length);
      ScanFinds(chains, model, key);
      ghost var i;
      e, i := Scan(table[h], key, chains[h]);
    }

    /** `nghttp2_map_insert`, for an entry as `nghttp2_map_entry_init` leaves it. */
    method Insert(e: MapEntry) returns (ok: bool)
      requires Valid() && (e.key !in model ==> e.next == null)
      modifies this, table, pool`next, e`next
      ensures Valid() && pool == old(pool) + {e}
      ensures ok <==> e.key !in old(model)
      ensures model == if ok then old(model)[e.key := e] else old(model)
      ensures size == |model| && (table == old(table) || fresh(table))
    {
      hide Filed, Hash, Linked;
      WiderPool(pool, table, chains, e);
      pool := pool + {e};
      if (size + 1) * 4 > table.Length * 3 {
        FiledSize(chains, model);
        Double();
      }
      ghost var cs;
      ok, cs := InsertInto(table, e, pool, chains, model);
      chains := cs;
      if ok {
        CountOneMore(model, e);
        model := model[e.key := e];
        size := size + 1;
      }
    }

    method Double()
      requires Valid() && table.Length > 0
      modifies this`table, this`chains, pool`next
      ensures Valid() && fresh(table) && table.Length == 2 * old(table.Length)
      ensures forall x :: x in pool && !Bound(model, x) ==> x.next == old(x.next)
    {
      hide Filed, Hash, Linked;
      ghost var cs;
      var into;
      into, cs := Rehash(table, table.Length * 2, pool, chains, model);
      table, chains := into, cs;
    }

    /** `nghttp2_map_remove`. */
    method Remove(key: int) returns (ok: bool)
      requires Valid()
      modifies this, table, pool`next
      ensures Valid() && pool == old(pool) && table == old(table)
      ensures ok <==> key in old(model)
      ensures model == old(model) - {key} && size == |model|
    {
      hide Filed, Hash, Linked, At;
      FiledSize(chains, model);
      assert table.Length == |chains| by { TableLength(pool, table, chains); }
      var h := Hash(key, table.Length);
      ScanFinds(chains, model, key);
      ChainOf(pool, table, chains, h);
      var prev, found, i := ScanPrev(table[h], key, chains[h]);
      if found == null {
        assert model - {key} == model;
        return false;
      }
      Drop(h, prev, found, i);
      return true;
    }

    method Drop(h: nat, prev: MapEntry?, found: MapEntry, ghost i: nat)
      requires Valid() && h < |chains| && i < |chains[h]| && found == chains[h][i] && prev == At(chains[h], i - 1)
      requires found.key in model
      modifies this`chains, this`model, this`size, table, pool`next
      ensures Valid() && model == old(model) - {found.key}
    {
      hide Filed, Hash, Linked;
      ghost var cs := chains[h := chains[h][..i] + chains[h][i + 1..]];
      RemoveFiled(chains, model, h, i);
      CountOneLess(model, found.key);
      Unchain(table, h, prev, found, i, pool, chains, model);
      chains, model, size := cs, model - {found.key}, size - 1;
    }
  }

  lemma TableLength(pool: set<MapEntry>, table: array<MapEntry?>, chains: seq<seq<MapEntry>>)
    requires Linked(pool, table, chains)
    ensures table.Length == |chains|
  {}

  lemma WiderPool(pool: set<MapEntry>, table: array<MapEntry?>, chains: seq<seq<MapEntry>>, e: MapEntry)
    requires Linked(pool, table, chains)
    ensures Linked(pool + {e}, table, chains)
  {}

  lemma CountOneMore(m: map<int, MapEntry>, e: MapEntry)
    requires e.key !in m
    ensures |m[e.key := e]| == |m| + 1
  {
    assert m[e.key := e].Keys == m.Keys + {e.key};
  }

  lemma CountOneLess(m: map<int, MapEntry>, key: int)
    requires key in m
    ensures |m - {key}| == |m| - 1
  {
    assert (m - {key}).Keys == m.Keys - {key};
    assert |m.Keys - {key}| == |m.Keys| - 1;
  }
}
