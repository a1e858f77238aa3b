/** `nghttp2_hd_map`: 128 chains of table entries linked through `next`. The chains hold the
    table's entries, newest first, so searching one agrees with searching the whole table. */
module HashIndex {
  import opened Bytes
  import opened HpackTable
  import opened RingBuffer

  const MAP_SIZE: nat := 128

  /** The entries of one bucket, in table order. */
  ghost function Bucket(es: seq<Entry>, b: nat): (ch: seq<Entry>)
    ensures forall i :: 0 <= i < |ch| ==> ch[i] in es && ch[i].hash % MAP_SIZE == b
  {
    if es == [] then []
    else if es[0].hash % MAP_SIZE == b then [es[0]] + Bucket(es[1..], b)
    else Bucket(es[1..], b)
  }

  ghost predicate Distinct(es: seq<Entry>)
  {
    forall i, j :: 0 <= i < j < |es| ==> es[i] != es[j]
  }

  lemma DistinctCons(e: Entry, es: seq<Entry>)
    requires Distinct(es) && e !in es
    ensures Distinct([e] + es)
  {}

  lemma {:induction false} BucketDistinct(es: seq<Entry>, b: nat)
    requires Distinct(es)
    ensures Distinct(Bucket(es, b))
  {
    if es != [] {
      BucketDistinct(es[1..], b);
    }
  }

  lemma {:induction false} BucketSnoc(es: seq<Entry>, e: Entry, b: nat)
    ensures Bucket(es + [e], b) == if e.hash % MAP_SIZE == b then Bucket(es, b) + [e] else Bucket(es, b)
  {
    if es == [] {
      assert es + [e] == [e] && [e][1..] == [];
      assert Bucket([], b) == [];
    } else {
      assert (es + [e])[0] == es[0] && (es + [e])[1..] == es[1..] + [e];
      BucketSnoc(es[1..], e, b);
    }
  }

  ghost predicate Chain(head: Entry?, ch: seq<Entry>)
    reads ch
  {
    && head == (if ch == [] then null else ch[0])
    && (forall i :: 0 <= i < |ch| - 1 ==> ch[i].next == ch[i + 1])
    && (ch != [] ==> ch[|ch| - 1].next == null)
  }

  /** The index of the first entry with a name, with a name and a value. */
  ghost function NameIdx(es: seq<Entry>, name: seq<byte>): (k: nat)
    ensures k <= |es| && (k < |es| ==> es[k].name == name)
    ensures forall j :: 0 <= j < k ==> es[j].name != name
  {
    if es == [] || es[0].name == name then 0 else 1 + NameIdx(es[1..], name)
  }

  ghost function FieldIdx(es: seq<Entry>, f: Field): (k: nat)
    ensures k <= |es| && (k < |es| ==> es[k].name == f.name && es[k].value == f.value)
    ensures forall j :: 0 <= j < k ==> es[j].name != f.name || es[j].value != f.value
  {
    if es == [] || (es[0].name == f.name && es[0].value == f.value) then 0 else 1 + FieldIdx(es[1..], f)
  }

  /** Names decide buckets. */
  ghost predicate Hashed(es: seq<Entry>, name: seq<byte>, hash: nat)
  {
    forall i :: 0 <= i < |es| && es[i].name == name ==> es[i].hash == hash
  }

  lemma {:induction false} BucketName(es: seq<Entry>, name: seq<byte>, hash: nat)
    requires Hashed(es, name, hash)
    ensures var ch := Bucket(es, hash % MAP_SIZE);
            var k, n := NameIdx(ch, name), NameIdx(es, name);
            (k < |ch| <==> n < |es|) && (k < |ch| ==> ch[k] == es[n])
  {
    if es != [] { BucketName(es[1..], name, hash); }
  }

  lemma {:induction false} BucketField(es: seq<Entry>, f: Field, hash: nat)
    requires Hashed(es, f.name, hash)
    ensures var ch := Bucket(es, hash % MAP_SIZE);
            var k, n := FieldIdx(ch, f), FieldIdx(es, f);
            (k < |ch| <==> n < |es|) && (k < |ch| ==> ch[k] == es[n])
  {
    if es != [] { BucketField(es[1..], f, hash); }
  }

  /** The test in `hd_map_find`: tokens first, then hash and name when there is no token. */
  predicate Matches(p: Entry, name: seq<byte>, token: int, hash: nat)
  {
    token == p.token && (token == -1 ==> hash == p.hash && p.name == name)
  }

  class HdMap {
    const table: array<Entry?>

    /** The map indexes exactly the entries `es`. */
    ghost predicate Indexes(es: seq<Entry>)
      reads this, table, es
    {
      && table.Length == MAP_SIZE && Distinct(es)
      && forall b :: 0 <= b < MAP_SIZE ==> Chain(table[b], Bucket(es, b))
    }

    /** `hd_map_init`. */
    constructor ()
      ensures Indexes([]) && fresh(table)
    {
      table := new Entry?[MAP_SIZE](_ => null);
    }

    /** `hd_map_insert`. */
    method Insert(e: Entry, ghost es: seq<Entry>)
      requires Indexes(es) && e !in es && e.next == null
      modifies table, e
      ensures Indexes([e] + es)
    {
      ghost var b := e.hash % MAP_SIZE;
      InsertChains(e, es, b);
      DistinctCons(e, es);
      hide Bucket, Distinct;
      Link(e, Bucket(es, b));
      forall k | 0 <= k < MAP_SIZE && k != b ensures Chain(table[k], Bucket(es, k)) {
        assert Chain(old(table[k]), Bucket(es, k)) by {
          assert forall j :: 0 <= j < |Bucket(es, k)| ==> Bucket(es, k)[j] != e;
        }
      }
    }

    method Link(e: Entry, ghost ch: seq<Entry>)
      requires table.Length == MAP_SIZE && e.next == null && e !in ch
      requires Chain(table[e.hash % MAP_SIZE], ch)
      modifies table, e
      ensures Chain(table[e.hash % MAP_SIZE], [e] + ch)
      ensures forall k :: 0 <= k < MAP_SIZE && k != e.hash % MAP_SIZE ==> table[k] == old(table[k])
    {
      var b := e.hash % MAP_SIZE;
      if table[b] == null {
        table[b] := e;
      } else {
        e.next := table[b];
        table[b] := e;
      }
      PrependChain(e, ch);
    }

    static lemma PrependChain(e: Entry, ch: seq<Entry>)
      requires Chain(e.next, ch)
      ensures Chain(e, [e] + ch)
    {
      var all := [e] + ch;
      forall i | 0 <= i < |all| - 1 ensures all[i].next == all[i + 1] {
        assert all[i + 1] == ch[i];
        if i > 0 { assert all[i] == ch[i - 1]; }
      }
    }

    lemma InsertChains(e: Entry, es: seq<Entry>, b: nat)
      requires b == e.hash % MAP_SIZE
      ensures forall k :: 0 <= k < MAP_SIZE ==>
                Bucket([e] + es, k) == if k == b then [e] + Bucket(es, k) else Bucket(es, k)
    {
      assert ([e] + es)[0] == e && ([e] + es)[1..] == es;
    }

    /** `hd_map_remove` of the oldest entry. */
    method RemoveLast(e: Entry, ghost es: seq<Entry>)
      requires Indexes(es + [e])
      modifies table, es, e
      ensures Indexes(es) && e.next == null
    {
      ghost var b := e.hash % MAP_SIZE;
      RemoveChains(e, es, b);
      BucketDistinct(es + [e], b);
      assert forall i :: 0 <= i < |es| ==> (es + [e])[i] == es[i];
      assert (es + [e])[|es|] == e && e !in es;
      hide Bucket;
      assert Chain(table[b], Bucket(es, b) + [e]);
      Unlink(e, Bucket(es, b));
      forall k | 0 <= k < MAP_SIZE && k != b ensures Chain(table[k], Bucket(es, k)) {
        var other := Bucket(es, k);
        assert Chain(old(table[k]), other) by {
          assert forall j :: 0 <= j < |other| ==> other[j] != e && other[j] !in Bucket(es, b);
        }
      }
    }

    /** The walk of `hd_map_remove` along one chain. */
    method Unlink(e: Entry, ghost ch: seq<Entry>)
      requires table.Length == MAP_SIZE
      requires Chain(table[e.hash % MAP_SIZE], ch + [e]) && Distinct(ch + [e])
      modifies table, ch, e
      ensures Chain(table[e.hash % MAP_SIZE], ch) && e.next == null
      ensures forall k :: 0 <= k < MAP_SIZE && k != e.hash % MAP_SIZE ==> table[k] == old(table[k])
    {
      ghost var all := ch + [e];
      assert all[|ch|] == e && forall j :: 0 <= j < |ch| ==> ch[j] == all[j];
      var prev: Entry? := null;
      var p := table[e.hash % MAP_SIZE];
      ghost var i := 0;
      while p != e
        invariant 0 <= i <= |ch| && p == all[i]
        invariant prev == if i == 0 then null else all[i - 1]
        decreases |ch| - i
      {
        prev, p, i := p, p.next, i + 1;
      }
      assert i == |ch|;
      if prev == null {
        table[e.hash % MAP_SIZE] := e.next;
      } else {
        prev.next := e.next;
      }
      e.next := null;
    }

    /** `hd_map_find`: what the walk along the bucket returns, in terms of the whole table. */
    method Find(f: Field, token: int, hash: nat, nameOnly: bool, ghost es: seq<Entry>)
      returns (res: Entry?, exact: bool)
      requires Indexes(es) && Hashed(es, f.name, hash)
      requires forall i :: 0 <= i < |es| ==> Matches(es[i], f.name, token, hash) == (es[i].name == f.name)
      ensures exact <==> !nameOnly && FieldIdx(es, f) < |es|
      ensures exact ==> res == es[FieldIdx(es, f)]
      ensures !exact ==> res == if NameIdx(es, f.name) < |es| then es[NameIdx(es, f.name)] else null
    {
      ghost var ch := Bucket(es, hash % MAP_SIZE);
      BucketName(es, f.name, hash);
      BucketField(es, f, hash);
      hide Bucket, NameIdx, FieldIdx, Matches;
      res, exact := Walk(table[hash % MAP_SIZE], f, token, hash, nameOnly, ch);
    }

    static method Walk(head: Entry?, f: Field, token: int, hash: nat, nameOnly: bool, ghost ch: seq<Entry>)
      returns (res: Entry?, exact: bool)
      requires Chain(head, ch)
      requires forall i :: 0 <= i < |ch| ==> Matches(ch[i], f.name, token, hash) == (ch[i].name == f.name)
      ensures exact <==> !nameOnly && FieldIdx(ch, f) < |ch|
      ensures exact ==> res == ch[FieldIdx(ch, f)]
      ensures !exact ==> res == if NameIdx(ch, f.name) < |ch| then ch[NameIdx(ch, f.name)] else null
    {
      hide NameIdx, FieldIdx, Matches;
      ghost var n, k := NameIdx(ch, f.name), FieldIdx(ch, f);
      res, exact := null, false;
      var p := head;
      ghost var i := 0;
      while p != null
        invariant 0 <= i <= |ch| && p == (if i < |ch| then ch[i] else null)
        invariant res == (if n < i then ch[n] else null)
        invariant nameOnly ==> n >= i
        invariant k >= i
        invariant !exact
        decreases |ch| - i
      {
        if Matches(p, f.name, token, hash) {
          if res == null {
            res := p;
            if nameOnly { return; }
          }
          if p.value == f.value {
            return p, true;
          }
        }
        p, i := p.next, i + 1;
      }
    }

    lemma RemoveChains(e: Entry, es: seq<Entry>, b: nat)
      requires b == e.hash % MAP_SIZE
      ensures forall k :: 0 <= k < MAP_SIZE ==>
                Bucket(es + [e], k) == if k == b then Bucket(es, k) + [e] else Bucket(es, k)
    {
      forall k | 0 <= k < MAP_SIZE
        ensures Bucket(es + [e], k) == if k == b then Bucket(es, k) + [e] else Bucket(es, k)
      {
        BucketSnoc(es, e, k);
      }
    }
  }
}
