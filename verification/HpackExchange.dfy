/** The deflater and the inflater as the source runs them, joined: what one writes the other reads, in
    whatever pieces it arrives. */
module HpackExchange {
  import opened Bytes
  import opened HuffmanCode
  import opened HpackEncode
  import opened HpackLockstep
  import opened Inflater
  import opened Deflater

  /** Any division of a byte string. */
  method Chop(bs: seq<byte>, sizes: seq<nat>) returns (pieces: seq<seq<byte>>)
    ensures pieces != [] && |pieces| == |sizes| + 1 && Flatten(pieces) == bs
    ensures forall i :: 0 <= i < |sizes| ==> |pieces[i]| <= sizes[i]
  {
    hide Flatten;
    pieces := [];
    var rest := bs;
    Nothing();
    for i := 0 to |sizes|
      invariant |pieces| == i && Flatten(pieces) + rest == bs
      invariant forall j :: 0 <= j < i ==> |pieces[j]| <= sizes[j]
    {
      var n := Min(sizes[i], |rest|);
      assert rest == rest[..n] + rest[n..];
      Joined(pieces, rest[..n]);
      assert Flatten(pieces) + (rest[..n] + rest[n..]) == (Flatten(pieces) + rest[..n]) + rest[n..];
      pieces, rest := pieces + [rest[..n]], rest[n..];
    }
    Joined(pieces, rest);
    pieces := pieces + [rest];
  }

  lemma Nothing()
    ensures Flatten<byte>([]) == []
  {}

  lemma Joined(pieces: seq<seq<byte>>, p: seq<byte>)
    ensures Flatten(pieces + [p]) == Flatten(pieces) + p
  {
    FlattenAppend(pieces, [p]);
    FlattenOne(p);
  }

  /** The two ends share nothing. */
  ghost predicate Apart(e: Deflater, d: Inflater)
    reads e, d, e.ctx, d.ctx, e.ctx.ring, d.ctx.ring, e.index
  {
    && e.ctx != d.ctx && e.ctx.ring != d.ctx.ring && e.ctx.ring.buffer != d.ctx.ring.buffer
    && e.index.table != d.ctx.ring.buffer
    && forall i, j :: 0 <= i < |e.ctx.ring.entries| && 0 <= j < |d.ctx.ring.entries| ==>
         e.ctx.ring.entries[i] != d.ctx.ring.entries[j]
  }

  lemma FitsShort(hs: seq<Header>)
    requires Fits(hs)
    ensures ShortStrings(hs) && forall i :: 0 <= i < |hs| ==> |hs[i].name| <= UINT32_MAX && |hs[i].value| <= UINT32_MAX
  {}

  /** One block from a deflater to an inflater, over any division into calls: it succeeds, the headers come
      out as they went in with NO_INDEX set exactly where never-indexing was chosen, and the ends stay linked
      with equal tables. */
  method Exchange(e: Deflater, d: Inflater, hs: seq<Header>, sizes: seq<nat>) returns (ok: bool, out: seq<Header>)
    requires e.Valid() && !e.bad && d.Valid() && !d.bad && Apart(e, d)
    requires Linked(e.Abs(), d.Abs()) && Good(e.c.code) && Fits(hs)
    modifies e, e.ctx, e.ctx.ring, e.ctx.ring.buffer, e.ctx.ring.entries, e.index.table
    modifies d, d.ctx, d.ctx.ring, d.ctx.ring.buffer, d.ctx.ring.entries
    ensures ok && out == Marked(e.c, old(e.Abs()).max, hs)
    ensures e.Valid() && !e.bad && d.Valid() && !d.bad && Apart(e, d)
    ensures Linked(e.Abs(), d.Abs()) && e.ctx.Table() == d.ctx.Table() && e.ctx.max == d.ctx.max
  {
    hide Deflater.Valid, Inflater.Valid, Linked, Good, Marked, BlockBytes, EncoderAfter, DecodeBlock, Flatten,
      DeflateBound, Fits, ShortStrings;
    ghost var e0, d0 := e.Abs(), d.Abs();
    var bs := Send(e, d, hs);
    BlockDecodes(e.c, e0, d0, hs);
    var pieces := Chop(bs, sizes);
    ok, out := Receive(e, d, pieces);
  }

  /** Deflating leaves the other end alone. */
  method Send(e: Deflater, d: Inflater, hs: seq<Header>) returns (bs: seq<byte>)
    requires e.Valid() && !e.bad && d.Valid() && !d.bad && Apart(e, d) && Good(e.c.code) && Fits(hs)
    modifies e, e.ctx, e.ctx.ring, e.ctx.ring.buffer, e.ctx.ring.entries, e.index.table
    ensures e.Valid() && !e.bad && d.Valid() && !d.bad && Apart(e, d) && d.Abs() == old(d.Abs()) && e.Kept()
    ensures bs == BlockBytes(e.c, old(e.Abs()), hs) && e.Abs() == EncoderAfter(e.c, old(e.Abs()), hs)
  {
    hide Deflater.Valid, Inflater.Valid, Good, BlockBytes, EncoderAfter, DeflateBound, Fits, ShortStrings;
    FitsShort(hs);
    var sent;
    sent, bs := e.DeflateHd(DeflateBound(hs), hs);
  }

  /** So does inflating. */
  method Receive(e: Deflater, d: Inflater, pieces: seq<seq<byte>>) returns (ok: bool, out: seq<Header>)
    requires e.Valid() && !e.bad && d.Valid() && !d.bad && Apart(e, d) && Good(e.c.code) && pieces != []
    modifies d, d.ctx, d.ctx.ring, d.ctx.ring.buffer, d.ctx.ring.entries
    ensures e.Valid() && !e.bad && (ok ==> d.Valid() && !d.bad) && Apart(e, d) && e.Abs() == old(e.Abs())
    ensures e.ctx.Table() == old(e.ctx.Table()) && e.ctx.max == old(e.ctx.max)
    ensures BlockMeaning(e.c, old(d.Abs()), Flatten(pieces), d.Abs(), ok, out)
  {
    hide Deflater.Valid, Inflater.Valid, Good, BlockMeaning;
    ok, out := d.InflateBlock(e.c, pieces);
  }
}
