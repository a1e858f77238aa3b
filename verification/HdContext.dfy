/** `nghttp2_hd_context`: the dynamic table shared by both ends, kept in a ring and, at the
    encoder, indexed by a hash map. */
module HdContext {
  import opened Bytes
  import opened HpackTable
  import opened RingBuffer
  import opened HashIndex

  function Fields(es: seq<Entry>): (fs: seq<Field>)
    ensures |fs| == |es|
  {
    seq(|es|, i requires 0 <= i < |es| => Field(es[i].name, es[i].value))
  }

  /** The 32-bit sequence number of the entry at position `i` when `next` will be given out next. */
  function SeqAt(next: nat, i: nat): nat
    requires next < TWO32 && i < TWO32
  {
    (next + TWO32 - 1 - i) % TWO32
  }

  ghost predicate Numbered(es: seq<Entry>, next: nat)
    requires next < TWO32
  {
    |es| < TWO32 && forall i :: 0 <= i < |es| ==> es[i].seqNo == SeqAt(next, i)
  }

  lemma LastRoom(es: seq<Entry>)
    requires es != []
    ensures var n := |es| - 1;
            && Fields(es[..n]) == Fields(es)[..n]
            && Size(Fields(es)) == Size(Fields(es[..n])) + ENTRY_OVERHEAD + |es[n].name| + |es[n].value|
  {
    var t := Fields(es);
    assert t[..|t| - 1] == Fields(es[..|es| - 1]);
  }

  class Context {
    const ring: Ring
    var bufsize: nat
    var max: nat
    var nextSeq: nat

    ghost function Table(): seq<Field>
      reads this, ring
    {
      Fields(ring.entries)
    }

    ghost predicate Valid()
      reads this, ring, ring.buffer
    {
      && ring.Valid()
      && bufsize == Size(Table())
      && nextSeq < TWO32 && Numbered(ring.entries, nextSeq)
    }

    ghost predicate Indexed(index: HdMap?)
      reads this, ring, ring.buffer, index, if index != null then {index.table} else {}, ring.entries
    {
      index != null ==> index.table != ring.buffer && index.Indexes(ring.entries)
    }

    /** `hd_context_init`. */
    constructor (max: nat)
      ensures Valid() && Table() == [] && this.max == max && ring.entries == []
      ensures fresh(ring) && fresh(ring.buffer)
    {
      ring := new Ring(4096 / ENTRY_OVERHEAD);
      bufsize, nextSeq, this.max := 0, 0, max;
      new;
      assert Fields(ring.entries) == [];
    }

    /** The body shared by the two eviction loops: drop the oldest entry everywhere. */
    method Evict(index: HdMap?)
      requires Valid() && Indexed(index) && ring.len > 0
      modifies this, ring, ring.entries, if index != null then {index.table} else {}
      ensures Valid() && Indexed(index) && max == old(max)
      ensures ring.entries == old(ring.entries)[..old(ring.len) - 1] && ring.buffer == old(ring.buffer)
      ensures Table() == old(Table())[..old(ring.len) - 1]
      ensures nextSeq == old(nextSeq)
    {
      hide Fields, Size, Chain, Bucket, Slot, SeqAt, Distinct;
      ghost var es := ring.entries;
      var idx := ring.len - 1;
      var ent := ring.Get(idx);
      LastRoom(es);
      bufsize := bufsize - (ENTRY_OVERHEAD + |ent.name| + |ent.value|);
      ring.PopBack();
      assert es == es[..idx] + [ent];
      if index != null {
        index.RemoveLast(ent, es[..idx]);
      }
    }

    /** `hd_context_shrink_table_size`. */
    method ShrinkTable(index: HdMap?)
      requires Valid() && Indexed(index)
      modifies this, ring, ring.entries, if index != null then {index.table} else {}
      ensures Valid() && Indexed(index) && max == old(max) && nextSeq == old(nextSeq)
      ensures Table() == Shrink(old(Table()), max)
      ensures Table() <= old(Table()) && Size(Table()) <= max
      ensures |Table()| < |old(Table())| ==> Size(old(Table())[..|Table()| + 1]) > max
      ensures ring.entries <= old(ring.entries) && ring.buffer == old(ring.buffer)
    {
      hide Fields, Size, Chain, Bucket, Slot, SeqAt, Distinct;
      ShrinkLeast(Table(), max);
      while bufsize > max && ring.len > 0
        invariant Valid() && Indexed(index) && max == old(max) && nextSeq == old(nextSeq)
        invariant ring.entries <= old(ring.entries) && ring.buffer == old(ring.buffer)
        invariant Shrink(Table(), max) == Shrink(old(Table()), max)
        decreases ring.len
      {
        Evict(index);
      }
      EmptyFits(Table());
    }

    /** The eviction loop of `add_hd_table_incremental`. */
    method MakeRoom(room: nat, index: HdMap?)
      requires Valid() && Indexed(index)
      modifies this, ring, ring.entries, if index != null then {index.table} else {}
      ensures Valid() && Indexed(index) && max == old(max) && nextSeq == old(nextSeq)
      ensures Table() == if room > max then [] else Shrink(old(Table()), max - room)
      ensures ring.entries <= old(ring.entries) && ring.buffer == old(ring.buffer)
    {
      hide Fields, Size, Chain, Bucket, Slot, SeqAt, Distinct;
      while bufsize + room > max && ring.len > 0
        invariant Valid() && Indexed(index) && max == old(max) && nextSeq == old(nextSeq)
        invariant ring.entries <= old(ring.entries) && ring.buffer == old(ring.buffer)
        invariant room <= max ==> Shrink(Table(), max - room) == Shrink(old(Table()), max - room)
        decreases ring.len
      {
        Evict(index);
      }
      EmptyFits(Table());
    }

    /** `add_hd_table_incremental`. */
    method Add(name: seq<byte>, value: seq<byte>, token: int, hash: nat, index: HdMap?)
      requires Valid() && Indexed(index) && max <= UINT32_MAX
      modifies this, ring, ring.buffer, ring.entries, if index != null then {index.table} else {}
      ensures Valid() && Indexed(index) && max == old(max)
      ensures Table() == Insert(old(Table()), Field(name, value), max)
      ensures ENTRY_OVERHEAD + |name| + |value| > max ==> Table() == []
      ensures ENTRY_OVERHEAD + |name| + |value| <= max ==>
                && Table() != [] && Table()[0] == Field(name, value) && Table()[1..] <= old(Table())
                && (|Table()| <= |old(Table())| ==>
                      ENTRY_OVERHEAD + |name| + |value| + Size(old(Table())[..|Table()|]) > max)
      ensures ring.buffer == old(ring.buffer) || fresh(ring.buffer)
      ensures forall i :: 0 <= i < |ring.entries| ==>
                ring.entries[i] in old(ring.entries)
                || (fresh(ring.entries[i]) && Made(ring.entries[i], name, token, hash))
    {
      hide Fields, Size, Chain, Bucket, Slot, SeqAt, Distinct, Shrink;
      var room := ENTRY_OVERHEAD + |name| + |value|;
      InsertKeeps(Table(), Field(name, value), max);
      MakeRoom(room, index);
      if room > max {
        return;
      }
      var e := new Entry(name, value, token, hash, nextSeq);
      SizeCount(Table());
      PutFront(e, index);
      bufsize := bufsize + room;
    }

    /** The new entry goes to the ring and to the index. */
    method PutFront(e: Entry, index: HdMap?)
      requires Valid() && Indexed(index) && e !in ring.entries && e.next == null && e.seqNo == nextSeq
      requires |ring.entries| + 1 < TWO32
      modifies this`nextSeq, ring, ring.buffer, e, if index != null then {index.table} else {}
      ensures ring.Valid() && ring.entries == [e] + old(ring.entries) && Indexed(index)
      ensures nextSeq < TWO32 && Numbered(ring.entries, nextSeq)
      ensures Table() == [Field(e.name, e.value)] + old(Table())
      ensures Size(Table()) == ENTRY_OVERHEAD + |e.name| + |e.value| + old(Size(Table()))
      ensures ring.buffer == old(ring.buffer) || fresh(ring.buffer)
    {
      hide Fields, Size, Chain, Bucket, Slot, SeqAt, Distinct, Shrink, Numbered;
      ghost var es := ring.entries;
      ConsFields(e, es);
      NumberedCons(e, es, nextSeq);
      ring.PushFront(e);
      nextSeq := (nextSeq + 1) % TWO32;
      if index != null {
        index.Insert(e, es);
      }
    }
  }

  ghost predicate Made(e: Entry, name: seq<byte>, token: int, hash: nat)
  {
    e.name == name && e.token == token && e.hash == hash
  }

  lemma ConsFields(e: Entry, es: seq<Entry>)
    ensures Fields([e] + es) == [Field(e.name, e.value)] + Fields(es)
    ensures Size(Fields([e] + es)) == ENTRY_OVERHEAD + |e.name| + |e.value| + Size(Fields(es))
  {
    assert Fields([e] + es) == [Field(e.name, e.value)] + Fields(es);
    SizeCons(Field(e.name, e.value), Fields(es));
  }

  lemma NumberedCons(e: Entry, es: seq<Entry>, next: nat)
    requires next < TWO32 && Numbered(es, next) && e.seqNo == next && |es| + 1 < TWO32
    ensures Numbered([e] + es, (next + 1) % TWO32)
  {
    hide SeqAt;
    var all := [e] + es;
    forall i | 0 <= i < |all| ensures all[i].seqNo == SeqAt((next + 1) % TWO32, i) {
      SeqShift(next, i);
      if i > 0 { assert all[i] == es[i - 1]; }
    }
  }

  lemma SeqShift(next: nat, i: nat)
    requires next < TWO32 && i < TWO32
    ensures SeqAt((next + 1) % TWO32, i) == if i == 0 then next else SeqAt(next, i - 1)
  {}

  lemma EmptyFits(t: seq<Field>)
    ensures t == [] ==> Size(t) == 0
  {}
}
