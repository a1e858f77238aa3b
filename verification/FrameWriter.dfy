/** Packing a header block into HEADERS and CONTINUATION frames in place (`nghttp2_frame.c`). */
module FrameWriter {
  import opened Bytes
  import opened Buffers
  import opened Frames

  datatype PrioritySpec = PrioritySpec(streamId: nat, weight: nat, exclusive: bool)

  /** `nghttp2_frame_pack_priority_spec`. */
  function PackPriority(p: PrioritySpec): (bs: seq<byte>)
    requires p.streamId < 0x8000_0000 && 1 <= p.weight <= 256
    ensures |bs| == PRIORITY_SPECLEN
  {
    Put32(p.streamId + if p.exclusive then 0x8000_0000 else 0) + [p.weight - 1]
  }

  /** `nghttp2_frame_unpack_priority_spec`. */
  function UnpackPriority(bs: seq<byte>): (p: PrioritySpec)
    requires |bs| == PRIORITY_SPECLEN
  {
    PrioritySpec(Get32(bs[..4]) % 0x8000_0000, (bs[4] as int) + 1, bs[0] >= 0x80)
  }

  lemma PriorityRoundTrip(p: PrioritySpec)
    requires p.streamId < 0x8000_0000 && 1 <= p.weight <= 256
    ensures UnpackPriority(PackPriority(p)) == p
  {
    hide Put32, Get32;
    var x := p.streamId + if p.exclusive then 0x8000_0000 else 0;
    assert PackPriority(p)[..4] == Put32(x);
    Get32Put32(x);
    TopOctet(x);
    assert x / 0x100_0000 >= 0x80 <==> p.exclusive;
  }

  lemma TopOctet(x: nat)
    requires x < TWO32
    ensures Put32(x)[0] as int == x / 0x100_0000
  {}

  /** Where the priority fields stand (section 6.2 of RFC 7540): the exclusive flag above the stream, then the weight
      less one. */
  lemma PriorityLayout(p: PrioritySpec)
    requires p.streamId < 0x8000_0000 && 1 <= p.weight <= 256
    ensures var bs := PackPriority(p);
            && (bs[0] >= 0x80 <==> p.exclusive) && bs[4] as int == p.weight - 1
            && (bs[0] as int % 0x80) * 0x100_0000 + (bs[1] as int) * 0x1_0000 + (bs[2] as int) * 0x100 + (bs[3] as int)
               == p.streamId
  {
    var x := p.streamId + if p.exclusive then 0x8000_0000 else 0;
    Get32Put32(x);
    assert x / 0x100_0000 >= 0x80 <==> p.exclusive;
  }

  // ---------------------------------------------------------------- the frames of a chain

  /** The frame that chunk `i` of `n` becomes. */
  ghost function ChunkFrame(hd: FrameHd, payload: seq<byte>, i: nat, n: nat): Frame
  {
    var flags: byte := if n == 1 then hd.flags else if i == 0 then Clear(hd.flags, END_HEADERS)
                       else if i == n - 1 then END_HEADERS else 0;
    Frame(FrameHd(|payload|, if i == 0 then hd.kind else CONTINUATION, flags, hd.streamId), payload)
  }

  ghost function ChainFrames(hd: FrameHd, cs: seq<Chunk>): (fs: seq<Frame>)
    requires AllValid(cs)
    ensures |fs| == |cs| && forall i :: 0 <= i < |cs| ==> fs[i] == ChunkFrame(hd, cs[i].Content(), i, |cs|)
  {
    seq(|cs|, i requires 0 <= i < |cs| => ChunkFrame(hd, cs[i].Content(), i, |cs|))
  }

  /** The bytes of a chain whose chunks hold one frame each. */
  lemma {:induction false} ContentsWire(cs: seq<Chunk>, fs: seq<Frame>)
    requires AllValid(cs) && |cs| == |fs| && forall i :: 0 <= i < |cs| ==> cs[i].Content() == FrameBytes(fs[i])
    ensures Contents(cs) == Wire(fs)
  {
    if cs != [] { ContentsWire(cs[1..], fs[1..]); }
  }

  lemma {:induction false} ContentsPayloads(cs: seq<Chunk>, fs: seq<Frame>)
    requires AllValid(cs) && |cs| == |fs| && forall i :: 0 <= i < |cs| ==> cs[i].Content() == fs[i].payload
    ensures Contents(cs) == Payloads(fs)
  {
    if cs != [] { ContentsPayloads(cs[1..], fs[1..]); }
  }

  lemma ChainSequence(hd: FrameHd, cs: seq<Chunk>)
    requires AllValid(cs) && cs != [] && hd.kind == HEADERS && Has(hd.flags, END_HEADERS)
    ensures HeaderSequence(ChainFrames(hd, cs))
  {
    hide Has, Clear;
    EndBit(hd.flags);
  }

  // ---------------------------------------------------------------- packing in place

  /** `buf->pos -= NGHTTP2_FRAME_HDLEN` and `nghttp2_frame_pack_frame_hd` on one chunk. */
  method PackHdBefore(bufs: Bufs, i: nat, hd: FrameHd)
    requires i < |bufs.chunks| && bufs.chunks[i].Valid() && bufs.chunks[i].pos >= HDLEN
    modifies bufs`chunks
    ensures |bufs.chunks| == old(|bufs.chunks|) && forall j :: 0 <= j < |bufs.chunks| && j != i ==> bufs.chunks[j] == old(bufs.chunks[j])
    ensures bufs.chunks[i].Valid() && bufs.chunks[i].Content() == PackHd(hd) + old(bufs.chunks[i].Content())
    ensures bufs.chunks[i].pos == old(bufs.chunks[i].pos) - HDLEN && bufs.chunks[i].last == old(bufs.chunks[i].last)
    ensures |bufs.chunks[i].data| == old(|bufs.chunks[i].data|)
  {
    hide PackHd;
    var c := bufs.chunks[i];
    var p := c.pos - HDLEN;
    var d := Chunk(c.data[..p] + PackHd(hd) + c.data[c.pos..], p, c.last);
    Overwritten(c.data[..p], PackHd(hd), c.data[c.pos..], c.last - c.pos);
    assert c.data[c.pos..][..c.last - c.pos] == c.data[c.pos..c.last];
    bufs.chunks := bufs.chunks[i := d];
  }

  lemma Overwritten(pre: seq<byte>, bs: seq<byte>, rest: seq<byte>, k: nat)
    requires k <= |rest|
    ensures (pre + bs + rest)[|pre|..|pre| + |bs| + k] == bs + rest[..k]
  {}

  /** Chunks up to `cur` can take a frame header in front. */
  ghost predicate Packable(cs: seq<Chunk>)
  {
    AllValid(cs) && forall i :: 0 <= i < |cs| ==> cs[i].pos >= HDLEN && cs[i].last - cs[i].pos < MAX_LENGTH
  }

  /** `frame_pack_headers_shared`. */
  method PackHeadersShared(bufs: Bufs, frameHd: FrameHd)
    requires bufs.cur < |bufs.chunks| && Packable(bufs.chunks[..bufs.cur + 1])
    modifies bufs`chunks
    ensures |bufs.chunks| == old(|bufs.chunks|) && bufs.chunks[bufs.cur + 1..] == old(bufs.chunks[bufs.cur + 1..])
    ensures var n := bufs.cur + 1;
            forall i :: 0 <= i < n ==>
              && bufs.chunks[i].Valid()
              && bufs.chunks[i].Content() == FrameBytes(ChunkFrame(frameHd, old(bufs.chunks[i].Content()), i, n))
              && bufs.chunks[i].pos == old(bufs.chunks[i].pos) - HDLEN && bufs.chunks[i].last == old(bufs.chunks[i].last)
              && |bufs.chunks[i].data| == old(|bufs.chunks[i].data|)
  {
    hide PackHd, Has, Packed, ChunkFrame, Chunk.Content;
    var n := bufs.cur + 1;
    ghost var cs := bufs.chunks;
    Lengths(cs, n);
    var hd := frameHd.(length := bufs.chunks[0].last - bufs.chunks[0].pos);
    if bufs.cur != 0 {
      hd := hd.(flags := Clear(hd.flags, END_HEADERS));
    }
    PackAs(bufs, 0, hd, frameHd, n);
    if bufs.cur != 0 {
      hd := hd.(kind := CONTINUATION, flags := 0);
      var ci := 1;
      while ci != bufs.cur
        invariant 1 <= ci <= bufs.cur && |bufs.chunks| == |cs| && hd.kind == CONTINUATION && hd.flags == 0 && hd.streamId == frameHd.streamId
        invariant forall i :: ci <= i < |cs| ==> bufs.chunks[i] == cs[i]
        invariant forall i :: 0 <= i < ci ==> Packed(frameHd, cs[i], bufs.chunks[i], i, n)
        decreases bufs.cur - ci
      {
        hd := hd.(length := bufs.chunks[ci].last - bufs.chunks[ci].pos);
        PackAs(bufs, ci, hd, frameHd, n);
        ci := ci + 1;
      }
      hd := hd.(length := bufs.chunks[ci].last - bufs.chunks[ci].pos, flags := END_HEADERS);
      PackAs(bufs, ci, hd, frameHd, n);
    }
    forall i | 0 <= i < n ensures Packed(frameHd, cs[i], bufs.chunks[i], i, n) {}
    PackedAre(frameHd, cs, bufs.chunks, n);
  }

  lemma Lengths(cs: seq<Chunk>, n: nat)
    requires n <= |cs| && Packable(cs[..n])
    ensures forall i :: 0 <= i < n ==> cs[i].Valid() && cs[i].pos >= HDLEN && cs[i].last - cs[i].pos < MAX_LENGTH
  {
    assert forall i :: 0 <= i < n ==> cs[..n][i] == cs[i];
  }

  lemma PackedAre(hd: FrameHd, cs: seq<Chunk>, ds: seq<Chunk>, n: nat)
    requires n <= |cs| == |ds| && forall i :: 0 <= i < n ==> Packed(hd, cs[i], ds[i], i, n)
    ensures forall i :: 0 <= i < n ==>
              && cs[i].Valid() && ds[i].Valid() && ds[i].Content() == FrameBytes(ChunkFrame(hd, cs[i].Content(), i, n))
              && ds[i].pos == cs[i].pos - HDLEN && ds[i].last == cs[i].last && |ds[i].data| == |cs[i].data|
  {
    hide FrameBytes, ChunkFrame;
  }

  /** The header of chunk `i` of `n`. */
  ghost predicate HeaderOf(hd: FrameHd, frameHd: FrameHd, len: nat, i: nat, n: nat)
  {
    && hd.length == len && hd.kind == (if i == 0 then frameHd.kind else CONTINUATION) && hd.streamId == frameHd.streamId
    && hd.flags == if n == 1 then frameHd.flags else if i == 0 then Clear(frameHd.flags, END_HEADERS)
                   else if i == n - 1 then END_HEADERS else 0
  }

  /** `PackHdBefore` for the header that chunk `i` of `n` gets. */
  method PackAs(bufs: Bufs, i: nat, hd: FrameHd, ghost frameHd: FrameHd, ghost n: nat)
    requires i < |bufs.chunks| && bufs.chunks[i].Valid() && bufs.chunks[i].pos >= HDLEN
    requires HeaderOf(hd, frameHd, bufs.chunks[i].last - bufs.chunks[i].pos, i, n)
    modifies bufs`chunks
    ensures |bufs.chunks| == old(|bufs.chunks|) && forall j :: 0 <= j < |bufs.chunks| && j != i ==> bufs.chunks[j] == old(bufs.chunks[j])
    ensures Packed(frameHd, old(bufs.chunks[i]), bufs.chunks[i], i, n)
  {
    hide PackHd;
    PackHdBefore(bufs, i, hd);
  }

  ghost predicate Packed(hd: FrameHd, was: Chunk, now: Chunk, i: nat, n: nat)
  {
    && was.Valid() && now.Valid()
    && now.Content() == FrameBytes(ChunkFrame(hd, was.Content(), i, n))
    && now.pos + HDLEN == was.pos && now.last == was.last && |now.data| == |was.data|
  }
}
