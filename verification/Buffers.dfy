/** Chained buffers (`nghttp2_bufs`): a list of chunks, of which `cur` is being written. */
module Buffers {
  import opened Bytes

  /** `nghttp2_buf`: `data` is [begin, end), `pos` and `last` are offsets from begin. */
  datatype Chunk = Chunk(data: seq<byte>, pos: nat, last: nat) {
    predicate Valid() { pos <= last <= |data| }

    function Content(): (bs: seq<byte>)
      requires Valid()
      ensures |bs| == last - pos
    {
      data[pos..last]
    }

    function Avail(): nat
      requires Valid()
    {
      |data| - last
    }
  }

  predicate AllValid(cs: seq<Chunk>) { forall i :: 0 <= i < |cs| ==> cs[i].Valid() }

  /** The bytes present in a chain. */
  function Contents(cs: seq<Chunk>): seq<byte>
    requires AllValid(cs)
  {
    if cs == [] then [] else cs[0].Content() + Contents(cs[1..])
  }

  /** The bytes a chain can still take. */
  function Spare(cs: seq<Chunk>): nat
    requires AllValid(cs)
  {
    if cs == [] then 0 else cs[0].Avail() + Spare(cs[1..])
  }

  function Times(n: nat, k: nat): nat { if n == 0 then 0 else k + Times(n - 1, k) }

  lemma {:induction false} ContentsAppend(a: seq<Chunk>, b: seq<Chunk>)
    requires AllValid(a) && AllValid(b)
    ensures Contents(a + b) == Contents(a) + Contents(b)
  {
    if a == [] {
      assert a + b == b;
    } else {
      assert (a + b)[0] == a[0] && (a + b)[1..] == a[1..] + b;
      ContentsAppend(a[1..], b);
      assert a[0].Content() + (Contents(a[1..]) + Contents(b)) == Contents(a) + Contents(b);
    }
  }

  lemma {:induction false} ContentsEmpty(cs: seq<Chunk>)
    requires AllValid(cs) && forall i :: 0 <= i < |cs| ==> cs[i].pos == cs[i].last
    ensures Contents(cs) == []
  {
    if cs != [] { ContentsEmpty(cs[1..]); }
  }

  lemma {:induction false} SpareAppend(a: seq<Chunk>, b: seq<Chunk>)
    requires AllValid(a) && AllValid(b)
    ensures Spare(a + b) == Spare(a) + Spare(b)
  {
    if a == [] {
      assert a + b == b;
    } else {
      assert (a + b)[0] == a[0] && (a + b)[1..] == a[1..] + b;
      SpareAppend(a[1..], b);
    }
  }

  lemma ContentsSplit(cs: seq<Chunk>, k: nat)
    requires AllValid(cs) && k < |cs|
    ensures Contents(cs) == Contents(cs[..k]) + cs[k].Content() + Contents(cs[k + 1..])
  {
    var rest := cs[k..];
    assert rest[0] == cs[k] && rest[1..] == cs[k + 1..];
    assert Contents(rest) == cs[k].Content() + Contents(cs[k + 1..]);
    SplitAt(cs, k);
    Associate(Contents(cs[..k]), cs[k].Content(), Contents(cs[k + 1..]));
  }

  lemma SplitAt(cs: seq<Chunk>, k: nat)
    requires AllValid(cs) && k <= |cs|
    ensures Contents(cs) == Contents(cs[..k]) + Contents(cs[k..])
  {
    hide Contents;
    assert cs == cs[..k] + cs[k..];
    ContentsAppend(cs[..k], cs[k..]);
  }

  lemma Associate(a: seq<byte>, b: seq<byte>, c: seq<byte>)
    ensures a + (b + c) == a + b + c
  {}

  /** Writing to chunk `k`, when the later chunks are empty, appends to the chain's bytes. */
  lemma ContentsWrite(cs: seq<Chunk>, k: nat, c: Chunk, extra: seq<byte>)
    requires AllValid(cs) && k < |cs| && c.Valid() && c.Content() == cs[k].Content() + extra
    requires forall i :: k < i < |cs| ==> cs[i].pos == cs[i].last
    ensures AllValid(cs[k := c]) && Contents(cs[k := c]) == Contents(cs) + extra
  {
    hide Contents;
    var r := cs[k := c];
    assert r[..k] == cs[..k] && r[k + 1..] == cs[k + 1..];
    ContentsSplit(cs, k);
    ContentsSplit(r, k);
    ContentsEmpty(cs[k + 1..]);
    assert Contents(cs[..k]) + (cs[k].Content() + extra) == Contents(cs[..k]) + cs[k].Content() + extra;
  }

  lemma Single(c: Chunk)
    requires c.Valid()
    ensures Contents([c]) == c.Content() && Spare([c]) == c.Avail()
  {
    assert Contents([]) == [];
  }

  /** The bytes that fit from chunk `cur` on, chunks still to be allocated included. */
  ghost function RoomIn(cs: seq<Chunk>, cur: nat, maxChunk: nat, size: nat): nat
    requires AllValid(cs) && cur <= |cs| <= maxChunk
  {
    Spare(cs[cur..]) + Times(maxChunk - |cs|, size)
  }

  /** A new chunk in place of the promise of one. */
  lemma RoomNext(cs: seq<Chunk>, c: Chunk, maxChunk: nat, size: nat)
    requires AllValid(cs) && c.Valid() && 0 < |cs| < maxChunk && cs[|cs| - 1].Avail() == 0 && c.Avail() == size
    ensures RoomIn(cs + [c], |cs|, maxChunk, size) == RoomIn(cs, |cs| - 1, maxChunk, size)
  {
    assert cs[|cs| - 1..] == [cs[|cs| - 1]] && (cs + [c])[|cs|..] == [c];
    Single(cs[|cs| - 1]);
    Single(c);
  }

  /** Stepping over a full chunk. */
  lemma RoomStep(cs: seq<Chunk>, cur: nat, maxChunk: nat, size: nat)
    requires AllValid(cs) && cur < |cs| <= maxChunk
    ensures RoomIn(cs, cur, maxChunk, size) == cs[cur].Avail() + RoomIn(cs, cur + 1, maxChunk, size)
  {
    assert cs[cur..][0] == cs[cur] && cs[cur..][1..] == cs[cur + 1..];
  }

  lemma RoomNone(cs: seq<Chunk>, size: nat)
    requires AllValid(cs)
    ensures RoomIn(cs, |cs|, |cs|, size) == 0
  {
    assert cs[|cs|..] == [];
  }

  /** Writing to the current chunk. */
  lemma RoomWrite(cs: seq<Chunk>, cur: nat, d: Chunk, maxChunk: nat, size: nat)
    requires AllValid(cs) && d.Valid() && cur < |cs| <= maxChunk
    ensures RoomIn(cs[cur := d], cur, maxChunk, size) == RoomIn(cs, cur, maxChunk, size) - cs[cur].Avail() + d.Avail()
  {
    hide Spare;
    RoomStep(cs, cur, maxChunk, size);
    RoomStep(cs[cur := d], cur, maxChunk, size);
    assert cs[cur := d][cur + 1..] == cs[cur + 1..];
  }

  function Total(ls: seq<nat>): nat
  {
    if ls == [] then 0 else ls[0] + Total(ls[1..])
  }

  /** Empty chunks of given lengths have room for their sum, and none is longer than that. */
  lemma {:induction false} WrappedSpare(cs: seq<Chunk>, ls: seq<nat>)
    requires AllValid(cs) && |cs| == |ls| && forall i :: 0 <= i < |cs| ==> cs[i].last == 0 && |cs[i].data| == ls[i]
    ensures Spare(cs) == Total(ls) && forall i :: 0 <= i < |cs| ==> |cs[i].data| <= Total(ls)
  {
    if cs != [] {
      WrappedSpare(cs[1..], ls[1..]);
      assert forall i :: 0 < i < |cs| ==> cs[i] == cs[1..][i - 1];
    }
  }

  class Bufs {
    var chunks: seq<Chunk>
    var cur: nat
    /** Where the first chunk's content begins; in the others it is `offset`. */
    var start: nat
    const chunkLength: nat
    const maxChunk: nat
    const offset: nat
    /** No chunk is longer; chunks may differ in length. */
    ghost const longest: nat

    ghost predicate Valid()
      reads this
    {
      && cur < |chunks| <= maxChunk
      && (|chunks| < maxChunk ==> offset <= chunkLength)
      && AllValid(chunks)
      && chunks[0].pos == start
      && (|chunks| < maxChunk ==> chunkLength <= longest)
      && (forall i :: 0 <= i < |chunks| ==> |chunks[i].data| <= longest)
      && (forall i :: 0 < i < |chunks| ==> chunks[i].pos == offset)
      && forall i :: cur < i < |chunks| ==> chunks[i].pos == chunks[i].last
    }

    /** Every chunk that writing may move on to has room for a byte. */
    ghost predicate NonEmptyAhead()
      reads this
      requires Valid()
    {
      && (|chunks| < maxChunk ==> offset < chunkLength)
      && forall i :: cur < i < |chunks| ==> chunks[i].Avail() > 0
    }

    ghost function Content(): seq<byte>
      reads this
      requires Valid()
    {
      Contents(chunks)
    }

    ghost function Room(): nat
      reads this
      requires Valid()
    {
      RoomIn(chunks, cur, maxChunk, ChunkRoom())
    }

    /** The room in a chunk just allocated. */
    ghost function ChunkRoom(): nat
    {
      if offset <= chunkLength then chunkLength - offset else 0
    }

    /** `nghttp2_bufs_init3` with `chunk_keep` left to the caller's reset. */
    constructor (chunkLength: nat, maxChunk: nat, offset: nat)
      requires maxChunk > 0 && offset <= chunkLength
      ensures Valid() && Content() == []
      ensures this.chunkLength == chunkLength && this.maxChunk == maxChunk && this.offset == offset
      ensures Room() == Times(maxChunk, chunkLength - offset)
      ensures chunks == [Chunk(seq(chunkLength, _ => 0), offset, offset)] && cur == 0 && longest == chunkLength
    {
      longest := chunkLength;
      this.chunkLength, this.maxChunk, this.offset := chunkLength, maxChunk, offset;
      chunks := [Chunk(seq(chunkLength, _ => 0), offset, offset)];
      cur, start := 0, offset;
      new;
      assert chunks[0..] == chunks;
      Single(chunks[0]);
    }

    /** `nghttp2_bufs_wrap_init2`: a chain over given buffers, of any lengths; none is added to it. */
    constructor Wrap(lengths: seq<nat>)
      ensures Valid() && Content() == [] && Room() == Total(lengths) && cur == 0 && |chunks| == maxChunk
      ensures (forall i :: 0 < i < |lengths| ==> lengths[i] > 0) ==> NonEmptyAhead()
    {
      var ls := if lengths == [] then [0] else lengths;
      chunkLength, maxChunk, offset, longest := 0, |ls|, 0, Total(ls);
      chunks := seq(|ls|, i requires 0 <= i < |ls| => Chunk(seq(ls[i], _ => 0), 0, 0));
      cur, start := 0, 0;
      new;
      ContentsEmpty(chunks);
      WrappedSpare(chunks, ls);
      assert chunks[0..] == chunks;
    }

    function CurAvail(): (n: nat)
      reads this
      requires Valid()
      ensures n <= Room()
    {
      assert chunks[cur..][0] == chunks[cur];
      chunks[cur].Avail()
    }

    /** `bufs_alloc_chain`: step to the next chunk, allocating it when there is none. */
    method AllocChain() returns (ok: bool)
      requires Valid() && CurAvail() == 0
      modifies `chunks, `cur
      ensures Valid() && Content() == old(Content()) && Room() == old(Room())
      ensures ok <==> old(cur) + 1 < old(|chunks|) || old(|chunks|) < maxChunk
      ensures ok ==> cur == old(cur) + 1 && old(chunks) <= chunks
      ensures ok && old(NonEmptyAhead()) ==> NonEmptyAhead() && CurAvail() > 0
      ensures ok && old(cur) + 1 == old(|chunks|) ==>
                chunks == old(chunks) + [Chunk(seq(chunkLength, _ => 0), offset, offset)]
      ensures ok && old(cur) + 1 < old(|chunks|) ==> chunks == old(chunks)
      ensures !ok ==> unchanged(this) && Room() == 0
    {
      hide Contents, Spare, Times, RoomIn;
      RoomStep(chunks, cur, maxChunk, ChunkRoom());
      if cur + 1 < |chunks| {
        cur := cur + 1;
        return true;
      }
      if |chunks| == maxChunk {
        RoomNone(chunks, ChunkRoom());
        return false;
      }
      Allocate();
      return true;
    }

    method Allocate()
      requires Valid() && CurAvail() == 0 && cur + 1 == |chunks| < maxChunk
      modifies `chunks, `cur
      ensures Valid() && Content() == old(Content()) && Room() == old(Room()) && cur == old(cur) + 1
      ensures chunks == old(chunks) + [Chunk(seq(chunkLength, _ => 0), offset, offset)]
    {
      hide Contents, Spare, Times, RoomIn;
      var c := Chunk(seq(chunkLength, _ => 0), offset, offset);
      ContentsAppend(chunks, [c]);
      Single(c);
      RoomNext(chunks, c, maxChunk, ChunkRoom());
      chunks := chunks + [c];
      cur := cur + 1;
    }

    /** Copy as many bytes as fit in the current chunk. */
    method Copy(bs: seq<byte>)
      requires Valid() && |bs| <= CurAvail()
      modifies `chunks, `cur
      ensures Valid() && Content() == old(Content()) + bs && Room() == old(Room()) - |bs|
      ensures cur == old(cur) && |chunks| == old(|chunks|)
      ensures CurAvail() == old(CurAvail()) - |bs|
      ensures forall i :: 0 <= i < |chunks| && i != cur ==> chunks[i] == old(chunks[i])
      ensures chunks[cur].pos == old(chunks[cur].pos) && |chunks[cur].data| == old(|chunks[cur].data|)
    {
      hide Contents, Spare, Times, RoomIn;
      var c := chunks[cur];
      var d := Chunk(c.data[..c.last] + bs + c.data[c.last + |bs|..], c.pos, c.last + |bs|);
      assert d.data[d.pos..d.last] == c.data[c.pos..c.last] + bs;
      ContentsWrite(chunks, cur, d, bs);
      RoomWrite(chunks, cur, d, maxChunk, ChunkRoom());
      chunks := chunks[cur := d];
    }

    /** `nghttp2_bufs_add`: append bytes, spilling into further chunks; it succeeds exactly when
        the chain has room. */
    method Add(bs: seq<byte>) returns (ok: bool)
      requires Valid()
      modifies `chunks, `cur
      ensures Valid()
      ensures ok <==> |bs| <= old(Room())
      ensures ok ==> Content() == old(Content()) + bs && Room() == old(Room()) - |bs|
      ensures cur >= old(cur) && |chunks| >= old(|chunks|)
      ensures ok && old(NonEmptyAhead()) ==> NonEmptyAhead()
    {
      hide Contents, Spare, Times, RoomIn;
      var i := 0;
      while i < |bs|
        invariant 0 <= i <= |bs| && Valid()
        invariant cur >= old(cur) && |chunks| >= old(|chunks|)
        invariant Content() == old(Content()) + bs[..i] && Room() == old(Room()) - i
        invariant old(NonEmptyAhead()) ==> NonEmptyAhead()
        decreases maxChunk - cur, |bs| - i
      {
        var n := Min(CurAvail(), |bs| - i);
        if n == 0 {
          ok := AllocChain();
          if !ok { return; }
        } else {
          Copy(bs[i..i + n]);
          assert bs[..i] + bs[i..i + n] == bs[..i + n];
          i := i + n;
        }
      }
      assert bs[..i] == bs;
      ok := true;
    }

    /** The byte under the write position, set but not yet counted as present. */
    ghost function Held(): byte
      reads this
      requires Valid() && CurAvail() > 0
    {
      chunks[cur].data[chunks[cur].last]
    }

    /** `nghttp2_bufs_fast_addb_hold`. */
    method FastAddbHold(b: byte)
      requires Valid() && CurAvail() > 0
      modifies `chunks, `cur
      ensures Valid() && Content() == old(Content()) && Room() == old(Room())
      ensures CurAvail() == old(CurAvail()) && Held() == b
      ensures old(NonEmptyAhead()) ==> NonEmptyAhead()
    {
      hide Contents, Spare, Times, RoomIn;
      var c := chunks[cur];
      var d := c.(data := c.data[c.last := b]);
      assert d.data[d.pos..d.last] == c.data[c.pos..c.last] + [];
      ContentsWrite(chunks, cur, d, []);
      RoomWrite(chunks, cur, d, maxChunk, ChunkRoom());
      chunks := chunks[cur := d];
    }

    /** `nghttp2_bufs_fast_addb`. */
    method FastAddb(b: byte)
      requires Valid() && CurAvail() > 0
      modifies `chunks, `cur
      ensures Valid() && Content() == old(Content()) + [b] && Room() == old(Room()) - 1
      ensures CurAvail() == old(CurAvail()) - 1
      ensures old(NonEmptyAhead()) ==> NonEmptyAhead()
    {
      Copy([b]);
    }

    /** `nghttp2_bufs_fast_orb` and `nghttp2_bufs_fast_orb_hold`. */
    method FastOrb(b: byte)
      requires Valid() && CurAvail() > 0
      modifies `chunks, `cur
      ensures Valid() && Content() == old(Content()) + [Or(old(Held()), b)] && Room() == old(Room()) - 1
      ensures CurAvail() == old(CurAvail()) - 1
      ensures old(NonEmptyAhead()) ==> NonEmptyAhead()
    {
      OrByte(chunks[cur].data[chunks[cur].last], b);
      Copy([Or(chunks[cur].data[chunks[cur].last], b)]);
    }

    method FastOrbHold(b: byte)
      requires Valid() && CurAvail() > 0
      modifies `chunks, `cur
      ensures Valid() && Content() == old(Content()) && Room() == old(Room())
      ensures CurAvail() == old(CurAvail()) && Held() == Or(old(Held()), b)
      ensures old(NonEmptyAhead()) ==> NonEmptyAhead()
    {
      OrByte(chunks[cur].data[chunks[cur].last], b);
      FastAddbHold(Or(chunks[cur].data[chunks[cur].last], b));
    }

    /** `bufs_ensure_addb`. */
    method EnsureAddb() returns (ok: bool)
      requires Valid() && NonEmptyAhead()
      modifies `chunks, `cur
      ensures Valid() && NonEmptyAhead() && Content() == old(Content()) && Room() == old(Room())
      ensures ok <==> Room() > 0
      ensures ok ==> CurAvail() > 0
    {
      if CurAvail() > 0 {
        return true;
      }
      ok := AllocChain();
    }

    /** `nghttp2_bufs_addb`. */
    method Addb(b: byte) returns (ok: bool)
      requires Valid() && NonEmptyAhead()
      modifies `chunks, `cur
      ensures Valid() && NonEmptyAhead()
      ensures ok <==> old(Room()) > 0
      ensures ok ==> Content() == old(Content()) + [b] && Room() == old(Room()) - 1
    {
      ok := EnsureAddb();
      if ok { FastAddb(b); }
    }

    /** `nghttp2_bufs_addb_hold`. */
    method AddbHold(b: byte) returns (ok: bool)
      requires Valid() && NonEmptyAhead()
      modifies `chunks, `cur
      ensures Valid() && NonEmptyAhead() && Content() == old(Content()) && Room() == old(Room())
      ensures ok <==> Room() > 0
      ensures ok ==> CurAvail() > 0 && Held() == b
    {
      ok := EnsureAddb();
      if ok { FastAddbHold(b); }
    }

    /** `nghttp2_bufs_remove_copy`: the present bytes, chunk after chunk. */
    method RemoveCopy() returns (out: seq<byte>)
      requires Valid()
      ensures out == Content()
    {
      out := [];
      for i := 0 to |chunks|
        invariant out == Contents(chunks[..i])
      {
        assert chunks[..i + 1] == chunks[..i] + [chunks[i]];
        ContentsAppend(chunks[..i], [chunks[i]]);
        Single(chunks[i]);
        out := out + chunks[i].data[chunks[i].pos..chunks[i].last];
      }
      assert chunks[..|chunks|] == chunks;
    }
  }
}
