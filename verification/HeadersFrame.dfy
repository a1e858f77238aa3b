/** `nghttp2_frame_pack_headers` and `nghttp2_frame_add_pad`: a header list becomes frames that a
    receiver reads back as the deflated block, whatever the chunk size, priority and padding. */
module HeadersFrame {
  import opened Bytes
  import opened Buffers
  import opened Frames
  import opened FrameWriter
  import opened HuffmanCode
  import opened HpackEncode
  import opened Deflater

  /** An empty chain, ready for a frame: room for the frame header and the pad length in front. */
  ghost predicate Ready(bufs: Bufs)
    reads bufs
  {
    && bufs.Valid() && bufs.NonEmptyAhead() && bufs.cur == 0 && bufs.offset > HDLEN && bufs.start > HDLEN
    && bufs.chunks[0].last == bufs.start && bufs.longest < MAX_LENGTH
  }

  /** Skip the place of the priority fields. */
  method Skip(bufs: Bufs, off: nat)
    requires Ready(bufs) && off <= bufs.CurAvail()
    modifies bufs`chunks, bufs`start
    ensures bufs.Valid() && bufs.NonEmptyAhead() && bufs.Content() == []
    ensures bufs.start == old(bufs.start) + off && bufs.cur == 0 && bufs.Room() == old(bufs.Room()) - off
  {
    hide Contents, Spare, RoomIn;
    var c := bufs.chunks[0];
    var d := c.(pos := c.pos + off, last := c.pos + off);
    RoomWrite(bufs.chunks, 0, d, bufs.maxChunk, bufs.ChunkRoom());
    bufs.chunks := bufs.chunks[0 := d];
    bufs.start := bufs.start + off;
    ContentsEmpty(bufs.chunks);
  }

  /** Go back over it, and fill it in. */
  method Fill(bufs: Bufs, lead: seq<byte>)
    requires bufs.Valid() && |lead| <= bufs.start
    modifies bufs`chunks, bufs`start
    ensures bufs.Valid() && bufs.cur == old(bufs.cur) && bufs.start == old(bufs.start) - |lead|
    ensures |bufs.chunks| == old(|bufs.chunks|) && bufs.chunks[0].Content() == lead + old(bufs.chunks[0].Content())
    ensures forall i :: 0 < i < |bufs.chunks| ==> bufs.chunks[i] == old(bufs.chunks[i])
  {
    var c := bufs.chunks[0];
    var p := c.pos - |lead|;
    var d := Chunk(c.data[..p] + lead + c.data[c.pos..], p, c.last);
    Overwritten(c.data[..p], lead, c.data[c.pos..], c.last - c.pos);
    assert c.data[c.pos..][..c.last - c.pos] == c.data[c.pos..c.last];
    bufs.chunks := bufs.chunks[0 := d];
    bufs.start := p;
  }

  /** The frames `fs` carry `block`, and in front of it `lead`, for the stream of `hd`. */
  ghost predicate Carries(fs: seq<Frame>, hd: FrameHd, lead: seq<byte>, block: seq<byte>)
  {
    && HeaderSequence(fs) && HeaderBlock(fs) == block
    && fs[0].hd.streamId == hd.streamId
    && Has(fs[0].hd.flags, PRIORITY) == Has(hd.flags, PRIORITY)
    && |lead| <= |fs[0].payload| && !Has(fs[0].hd.flags, PADDED) && fs[0].payload[..|lead|] == lead
  }

  /** The frames a filled chain becomes. */
  lemma {:induction false} ChainCarries(hd: FrameHd, was: seq<Chunk>, cs: seq<Chunk>, lead: seq<byte>)
    requires AllValid(was) && AllValid(cs) && |was| == |cs| > 0
    requires cs[0].Content() == lead + was[0].Content() && forall i :: 0 < i < |cs| ==> cs[i] == was[i]
    requires hd.kind == HEADERS && Has(hd.flags, END_HEADERS) && !Has(hd.flags, PADDED)
    requires |lead| == if Has(hd.flags, PRIORITY) then PRIORITY_SPECLEN else 0
    ensures Carries(ChainFrames(hd, cs), hd, lead, Contents(was))
  {
    hide Has, Clear;
    var fs := ChainFrames(hd, cs);
    ChainSequence(hd, cs);
    EndBit(hd.flags);
    EndKeepsPriority(hd.flags);
    assert fs[0].payload == lead + was[0].Content();
    assert Fragment(fs[0]) == was[0].Content();
    assert cs[1..] == was[1..];
    ContentsPayloads(was[1..], fs[1..]);
  }

  lemma TrimEmpty(cs: seq<Chunk>, n: nat)
    requires AllValid(cs) && n <= |cs| && forall i :: n <= i < |cs| ==> cs[i].pos == cs[i].last
    ensures Contents(cs) == Contents(cs[..n])
  {
    assert cs == cs[..n] + cs[n..];
    ContentsAppend(cs[..n], cs[n..]);
    ContentsEmpty(cs[n..]);
  }

  /** The chain holds the frames `fs`, one in each used chunk, with a free octet before the first. */
  ghost predicate Holds(bufs: Bufs, fs: seq<Frame>)
    reads bufs
  {
    && AllValid(bufs.chunks) && bufs.chunks != [] && fs != [] && bufs.chunks[0].pos > 0
    && bufs.chunks[0].Content() == FrameBytes(fs[0]) && Contents(bufs.chunks[1..]) == Wire(fs[1..])
    && forall i :: 0 <= i < |fs| ==> FrameOk(fs[i])
  }

  /** Then a receiver reads exactly these frames from its bytes. */
  lemma HoldsParse(bufs: Bufs, fs: seq<Frame>)
    requires Holds(bufs, fs)
    ensures Contents(bufs.chunks) == Wire(fs) && Parse(Contents(bufs.chunks)) == Frames.Frames(fs)
  {
    hide PackHd, Parse;
    assert Contents(bufs.chunks) == bufs.chunks[0].Content() + Contents(bufs.chunks[1..]);
    ParseWire(fs);
  }

  /** A chunk in each of which stands one frame, and then empty chunks. */
  lemma HoldsFrom(bufs: Bufs, n: nat, fs: seq<Frame>)
    requires AllValid(bufs.chunks) && 0 < n <= |bufs.chunks| && |fs| == n && bufs.chunks[0].pos > 0
    requires forall i :: 0 <= i < n ==> bufs.chunks[i].Content() == FrameBytes(fs[i])
    requires forall i :: n <= i < |bufs.chunks| ==> bufs.chunks[i].pos == bufs.chunks[i].last
    requires forall i :: 0 <= i < |fs| ==> FrameOk(fs[i])
    ensures Holds(bufs, fs)
  {
    hide FrameBytes, FrameOk, Contents, Wire;
    var rest := bufs.chunks[1..];
    TrimEmpty(rest, n - 1);
    forall i | 0 <= i < n - 1 ensures rest[..n - 1][i].Content() == FrameBytes(fs[1..][i]) {
      assert rest[..n - 1][i] == bufs.chunks[i + 1];
    }
    ContentsWire(rest[..n - 1], fs[1..]);
  }

  /** Once the block is in the chain and `lead` in front of it: the frames are complete. */
  method Complete(bufs: Bufs, hd: FrameHd, lead: seq<byte>, ghost block: seq<byte>) returns (ghost fs: seq<Frame>)
    requires bufs.Valid() && bufs.offset > HDLEN && bufs.start > HDLEN + |lead| && bufs.longest < MAX_LENGTH
    requires bufs.Content() == block && hd.streamId < 0x8000_0000
    requires hd.kind == HEADERS && Has(hd.flags, END_HEADERS) && !Has(hd.flags, PADDED)
    requires |lead| == if Has(hd.flags, PRIORITY) then PRIORITY_SPECLEN else 0
    modifies bufs`chunks, bufs`start
    ensures Holds(bufs, fs) && Carries(fs, hd, lead, block)
  {
    hide Has, Carries, Contents, Holds, PackHd, FrameOk;
    ghost var n := bufs.cur + 1;
    ghost var was := bufs.chunks[..n];
    TrimEmpty(bufs.chunks, n);
    Fill(bufs, lead);
    ghost var cs := bufs.chunks[..n];
    ChainCarries(hd, was, cs, lead);
    fs := ChainFrames(hd, cs);
    PackAll(bufs, hd, fs);
  }

  /** The headers in front of every chunk. */
  method PackAll(bufs: Bufs, hd: FrameHd, ghost fs: seq<Frame>)
    requires bufs.Valid() && bufs.offset > HDLEN && bufs.start > HDLEN && bufs.longest < MAX_LENGTH
    requires hd.streamId < 0x8000_0000 && fs == ChainFrames(hd, bufs.chunks[..bufs.cur + 1])
    modifies bufs`chunks
    ensures Holds(bufs, fs)
  {
    hide Holds, PackHd, FrameOk, ChunkFrame, ChainFrames;
    ghost var n := bufs.cur + 1;
    ghost var cs := bufs.chunks[..n];
    assert Packable(cs);
    FramesOk(hd, cs);
    ghost var all := bufs.chunks;
    PackHeadersShared(bufs, hd);
    forall i | 0 <= i < n ensures bufs.chunks[i].Valid() && bufs.chunks[i].Content() == FrameBytes(fs[i]) {
      assert cs[i] == all[i];
    }
    forall i | n <= i < |all| ensures bufs.chunks[i] == all[i] {
      assert bufs.chunks[n..][i - n] == all[n..][i - n];
    }
    HoldsFrom(bufs, n, fs);
  }

  lemma FramesOk(hd: FrameHd, cs: seq<Chunk>)
    requires AllValid(cs) && hd.streamId < 0x8000_0000 && forall i :: 0 <= i < |cs| ==> cs[i].last - cs[i].pos < MAX_LENGTH
    ensures forall i :: 0 <= i < |cs| ==> FrameOk(ChainFrames(hd, cs)[i])
  {}

  /** `buf->pos -= nv_offset` alone, after a failure. */
  method Back(bufs: Bufs, off: nat)
    requires bufs.Valid() && off <= bufs.start
    modifies bufs`chunks, bufs`start
    ensures bufs.Valid() && bufs.start == old(bufs.start) - off
  {
    var c := bufs.chunks[0];
    bufs.chunks := bufs.chunks[0 := c.(pos := c.pos - off)];
    bufs.start := bufs.start - off;
  }

  /** `nghttp2_frame_pack_headers`: if the block fits, the chain holds one HEADERS frame and then
      CONTINUATION frames, from which a receiver reads exactly the deflated block. */
  method PackHeaders(bufs: Bufs, hd: FrameHd, pri: PrioritySpec, d: Deflater, hs: seq<Header>)
    returns (ok: bool, ghost fs: seq<Frame>)
    requires Ready(bufs) && d.Valid() && Good(d.c.code) && hd.streamId < 0x8000_0000
    requires forall i :: 0 <= i < |hs| ==> |hs[i].name| <= UINT32_MAX && |hs[i].value| <= UINT32_MAX
    requires hd.kind == HEADERS && Has(hd.flags, END_HEADERS) && !Has(hd.flags, PADDED)
    requires Has(hd.flags, PRIORITY) ==> pri.streamId < 0x8000_0000 && 1 <= pri.weight <= 256
    requires Has(hd.flags, PRIORITY) ==> PRIORITY_SPECLEN <= bufs.CurAvail()
    modifies bufs`chunks, bufs`cur, bufs`start, d, d.ctx, d.ctx.ring, d.ctx.ring.buffer, d.ctx.ring.entries, d.index.table
    ensures d.Valid() && d.bad == !ok
    ensures !old(d.bad) ==>
              (ok <==> |BlockBytes(d.c, old(d.Abs()), hs)| <=
                         old(bufs.Room()) - if Has(hd.flags, PRIORITY) then PRIORITY_SPECLEN else 0)
    ensures ok ==> d.Abs() == EncoderAfter(d.c, old(d.Abs()), hs)
    ensures ok ==> Holds(bufs, fs) && Parse(Contents(bufs.chunks)) == Frames.Frames(fs)
    ensures ok ==> Carries(fs, hd, if Has(hd.flags, PRIORITY) then PackPriority(pri) else [], BlockBytes(d.c, old(d.Abs()), hs))
  {
    hide Has, Carries, Parse, Contents, Holds, PackPriority, Good, Deflater.Valid, Bufs.Valid, BlockBytes,
      EncoderAfter, RoomIn;
    var off := if Has(hd.flags, PRIORITY) then PRIORITY_SPECLEN else 0;
    Skip(bufs, off);
    ok := d.DeflateHdBufs(bufs, hs);
    if !ok {
      Back(bufs, off);
      fs := [];
      return;
    }
    var lead := if Has(hd.flags, PRIORITY) then PackPriority(pri) else [];
    fs := Complete(bufs, hd, lead, BlockBytes(d.c, old(d.Abs()), hs));
    HoldsParse(bufs, fs);
  }

  // ---------------------------------------------------------------- padding

  /** The padded form of a HEADERS frame. */
  ghost function Padded(f: Frame, padlen: nat): Frame
    requires 0 < padlen <= 256
  {
    Frame(f.hd.(length := f.hd.length + padlen, flags := Set(f.hd.flags, PADDED)),
          [padlen - 1] + f.payload + seq(padlen - 1, _ => 0))
  }

  /** The header octets after `frame_set_pad`: the flag is set, and the new length is written together
      with the type octet. */
  function PadHeader(h: seq<byte>, padlen: nat): (r: seq<byte>)
    requires |h| == HDLEN
    ensures |r| == HDLEN
  {
    var newlen := Get32(h[..4]) / 256 + padlen;
    Put32((newlen * 256 + h[3]) % TWO32) + [Set(h[4], PADDED)] + h[5..]
  }

  lemma PadHeaderIs(hd: FrameHd, padlen: nat)
    requires HdOk(hd) && hd.length + padlen < MAX_LENGTH
    ensures PadHeader(PackHd(hd), padlen) == PackHd(hd.(length := hd.length + padlen, flags := Set(hd.flags, PADDED)))
  {
    hide Put32, Get32, Set, UnpackHd;
    var h, n := PackHd(hd), hd.length + padlen;
    HdRoundTrip(hd);
    assert UnpackHd(h).length == Get32(h[..4]) / 256 by { UnpackLength(h); }
    assert h[3] == hd.kind && h[4] == hd.flags && h[5..] == Put32(hd.streamId % TWO32);
    assert n * 256 % TWO32 == n * 256 && (n * 256 + hd.kind) % TWO32 == n * 256 + hd.kind;
    LowOctet(n * 256, hd.kind);
  }

  lemma UnpackLength(h: seq<byte>)
    requires |h| == HDLEN
    ensures UnpackHd(h).length == Get32(h[..4]) / 256
  {}

  lemma Above(x: nat, k: byte, m: nat)
    requires m == 256 || m == 0x1_0000 || m == 0x100_0000
    requires x % 256 == 0
    ensures (x + k) / m == x / m
  {
    if m == 256 {
    } else if m == 0x1_0000 {
      assert x % 0x1_0000 <= 0xff00;
    } else {
      assert x % 0x100_0000 <= 0xff_ff00;
    }
  }

  lemma LowOctet(x: nat, k: byte)
    requires x + k < TWO32 && x % 256 == 0 && x < TWO32
    ensures Put32(x + k) == Put32(x)[..3] + [k]
  {
    Above(x, k, 256);
    Above(x, k, 0x1_0000);
    Above(x, k, 0x100_0000);
  }

  /** The frames after padding the first. */
  ghost function PaddedFirst(fs: seq<Frame>, padlen: nat): (gs: seq<Frame>)
    requires fs != [] && padlen <= 256
    ensures gs != []
  {
    if padlen == 0 then fs else [Padded(fs[0], padlen)] + fs[1..]
  }

  /** `nghttp2_frame_add_pad` and `frame_set_pad`: the first frame grows by `padlen` octets in place; the chain
      then holds the frames with the first one padded. */
  method AddPad(bufs: Bufs, padlen: nat, ghost fs: seq<Frame>)
    requires Holds(bufs, fs) && padlen <= 256 && fs[0].hd.length + padlen < MAX_LENGTH
    requires padlen > 0 ==> padlen - 1 <= bufs.chunks[0].Avail()
    modifies bufs`chunks
    ensures AllValid(bufs.chunks) && |bufs.chunks| == old(|bufs.chunks|) && bufs.chunks[1..] == old(bufs.chunks[1..])
    ensures Contents(bufs.chunks) == Wire(PaddedFirst(fs, padlen))
    ensures Parse(Contents(bufs.chunks)) == Frames.Frames(PaddedFirst(fs, padlen))
  {
    hide Parse, Padded;
    if padlen == 0 {
      HoldsParse(bufs, fs);
      return;
    }
    ghost var rest := bufs.chunks[1..];
    SetPad(bufs, padlen, fs[0]);
    ghost var gs := PaddedFirst(fs, padlen);
    assert gs[0] == Padded(fs[0], padlen) && gs[1..] == fs[1..];
    assert Contents(bufs.chunks) == bufs.chunks[0].Content() + Contents(bufs.chunks[1..]);
    PaddedOk(fs, padlen);
    ParseWire(gs);
  }

  lemma PaddedOk(fs: seq<Frame>, padlen: nat)
    requires fs != [] && 0 < padlen <= 256 && fs[0].hd.length + padlen < MAX_LENGTH
    requires forall i :: 0 <= i < |fs| ==> FrameOk(fs[i])
    ensures forall i :: 0 <= i < |PaddedFirst(fs, padlen)| ==> FrameOk(PaddedFirst(fs, padlen)[i])
  {
    hide Set;
    assert FrameOk(Padded(fs[0], padlen));
  }

  /** `frame_set_pad` on the first chunk. */
  method SetPad(bufs: Bufs, padlen: nat, ghost f: Frame)
    requires AllValid(bufs.chunks) && bufs.chunks != [] && bufs.chunks[0].pos > 0 && bufs.chunks[0].Content() == FrameBytes(f)
    requires FrameOk(f) && 0 < padlen <= 256 && f.hd.length + padlen < MAX_LENGTH
    requires padlen - 1 <= bufs.chunks[0].Avail()
    modifies bufs`chunks
    ensures |bufs.chunks| == old(|bufs.chunks|) && bufs.chunks[1..] == old(bufs.chunks[1..]) && AllValid(bufs.chunks)
    ensures bufs.chunks[0].Content() == FrameBytes(Padded(f, padlen))
  {
    hide PackHd, PadHeader, Set;
    var c := bufs.chunks[0];
    var trail := padlen - 1;
    var h := PadHeader(c.data[c.pos..c.pos + HDLEN], padlen);
    FrameParts(c, f);
    PadHeaderIs(f.hd, padlen);
    var body := h + [trail] + c.data[c.pos + HDLEN..c.last] + seq(trail, _ => 0);
    PaddedBytes(f, padlen, body);
    var d := Chunk(c.data[..c.pos - 1] + body + c.data[c.last + trail..], c.pos - 1, c.last + trail);
    Overwritten(c.data[..c.pos - 1], body, c.data[c.last + trail..], 0);
    bufs.chunks := bufs.chunks[0 := d];
  }

  lemma FrameParts(c: Chunk, f: Frame)
    requires c.Valid() && c.Content() == FrameBytes(f)
    ensures c.pos + HDLEN <= c.last
    ensures c.data[c.pos..c.pos + HDLEN] == PackHd(f.hd) && c.data[c.pos + HDLEN..c.last] == f.payload
  {
    hide PackHd;
    var bs := c.data[c.pos..c.last];
    assert bs == PackHd(f.hd) + f.payload;
    assert bs[..HDLEN] == PackHd(f.hd) && bs[HDLEN..] == f.payload;
    assert bs[..HDLEN] == c.data[c.pos..c.pos + HDLEN];
    assert bs[HDLEN..] == c.data[c.pos + HDLEN..c.last];
  }

  lemma PaddedBytes(f: Frame, padlen: nat, body: seq<byte>)
    requires 0 < padlen <= 256
    requires body == PackHd(Padded(f, padlen).hd) + [padlen - 1] + f.payload + seq(padlen - 1, _ => 0)
    ensures body == FrameBytes(Padded(f, padlen))
  {
    hide PackHd, Set;
  }

  /** Padding changes nothing a receiver keeps. */
  lemma PaddingIsLossless(fs: seq<Frame>, padlen: nat)
    requires HeaderSequence(fs) && FrameOk(fs[0]) && !Has(fs[0].hd.flags, PADDED) && 0 < padlen <= 256
    requires fs[0].hd.length + padlen < MAX_LENGTH
    requires Has(fs[0].hd.flags, PRIORITY) ==> |fs[0].payload| >= PRIORITY_SPECLEN
    ensures var gs := [Padded(fs[0], padlen)] + fs[1..];
            HeaderSequence(gs) && FrameOk(gs[0]) && HeaderBlock(gs) == HeaderBlock(fs)
  {
    hide Has, Set, Payloads;
    var f := fs[0];
    var g := Padded(f, padlen);
    PaddedBit(f.hd.flags);
    PaddedKeepsEnd(f.hd.flags);
    PaddedKeepsPriority(f.hd.flags);
    var front := if Has(f.hd.flags, PRIORITY) then PRIORITY_SPECLEN else 0;
    assert g.payload[1 + front..|g.payload| - (padlen - 1)] == f.payload[front..];
    assert Fragment(g) == Fragment(f);
    var gs := [g] + fs[1..];
    assert gs[1..] == fs[1..];
    assert forall i :: 0 < i < |fs| ==> gs[i] == fs[i];
  }

  /** A header list packed and, if there is room behind the first frame, padded by `padlen` octets: from the
      bytes of the chain a receiver reads one HEADERS frame and then CONTINUATION frames, and from these exactly
      the deflated block. */
  method PackAndPad(bufs: Bufs, hd: FrameHd, pri: PrioritySpec, d: Deflater, hs: seq<Header>, padlen: nat)
    returns (ok: bool, padded: bool, ghost gs: seq<Frame>)
    requires Ready(bufs) && d.Valid() && !d.bad && Good(d.c.code) && hd.streamId < 0x8000_0000 && padlen <= 256
    requires forall i :: 0 <= i < |hs| ==> |hs[i].name| <= UINT32_MAX && |hs[i].value| <= UINT32_MAX
    requires hd.kind == HEADERS && Has(hd.flags, END_HEADERS) && !Has(hd.flags, PADDED)
    requires Has(hd.flags, PRIORITY) ==> pri.streamId < 0x8000_0000 && 1 <= pri.weight <= 256
    requires Has(hd.flags, PRIORITY) ==> PRIORITY_SPECLEN <= bufs.CurAvail()
    modifies bufs`chunks, bufs`cur, bufs`start, d, d.ctx, d.ctx.ring, d.ctx.ring.buffer, d.ctx.ring.entries, d.index.table
    ensures ok <==> |BlockBytes(d.c, old(d.Abs()), hs)| <=
                      old(bufs.Room()) - if Has(hd.flags, PRIORITY) then PRIORITY_SPECLEN else 0
    ensures ok ==> Arrives(bufs.chunks, gs, BlockBytes(d.c, old(d.Abs()), hs))
    ensures ok ==> PadIs(gs, if padded then padlen else 0)
  {
    hide Has, Parse, Contents, Holds, PackPriority, Good, Deflater.Valid, Bufs.Valid, BlockBytes, EncoderAfter,
      RoomIn, HeaderSequence, HeaderBlock, Ready, PadIs;
    padded := false;
    ghost var block := BlockBytes(d.c, d.Abs(), hs);
    ghost var fs;
    ok, fs := PackHeaders(bufs, hd, pri, d, hs);
    gs := fs;
    if !ok {
      return;
    }
    CarriedParts(fs, hd, if Has(hd.flags, PRIORITY) then PackPriority(pri) else [], block);
    HoldsFirst(bufs, fs);
    NotPadded(fs);
    var head := bufs.chunks[0];
    if padlen == 0 || padlen - 1 > |head.data| - head.last || (head.last - head.pos) - HDLEN + padlen >= MAX_LENGTH {
      return;
    }
    padded := true;
    gs := PaddedFirst(fs, padlen);
    PaddingIsLossless(fs, padlen);
    AddPad(bufs, padlen, fs);
    PaddedFirstByte(fs, padlen);
  }

  /** From the bytes of the chain a receiver reads the frames `gs`, one HEADERS and then CONTINUATION frames, and
      from these the header block. */
  ghost predicate Arrives(cs: seq<Chunk>, gs: seq<Frame>, block: seq<byte>)
  {
    AllValid(cs) && Parse(Contents(cs)) == Frames.Frames(gs) && HeaderSequence(gs) && HeaderBlock(gs) == block
  }

  /** The first frame carries `n` octets of padding, its length octet included. */
  ghost predicate PadIs(gs: seq<Frame>, n: nat)
  {
    && gs != [] && (Has(gs[0].hd.flags, PADDED) <==> n > 0)
    && (n > 0 ==> |gs[0].payload| >= n && gs[0].payload[0] as int == n - 1)
  }

  lemma NotPadded(fs: seq<Frame>)
    requires fs != [] && !Has(fs[0].hd.flags, PADDED)
    ensures PadIs(fs, 0)
  {}

  lemma CarriedParts(fs: seq<Frame>, hd: FrameHd, lead: seq<byte>, block: seq<byte>)
    requires Carries(fs, hd, lead, block) && |lead| == if Has(hd.flags, PRIORITY) then PRIORITY_SPECLEN else 0
    ensures fs != [] && HeaderSequence(fs) && HeaderBlock(fs) == block && !Has(fs[0].hd.flags, PADDED)
    ensures Has(fs[0].hd.flags, PRIORITY) ==> |fs[0].payload| >= PRIORITY_SPECLEN
  {
    hide Has;
  }

  lemma HoldsFirst(bufs: Bufs, fs: seq<Frame>)
    requires Holds(bufs, fs)
    ensures bufs.chunks != [] && fs != [] && AllValid(bufs.chunks) && FrameOk(fs[0])
    ensures bufs.chunks[0].last - bufs.chunks[0].pos == HDLEN + fs[0].hd.length
  {
    hide PackHd;
  }

  lemma PaddedFirstByte(fs: seq<Frame>, padlen: nat)
    requires fs != [] && 0 < padlen <= 256
    ensures PadIs(PaddedFirst(fs, padlen), padlen)
  {
    hide Has, Set;
    PaddedBit(fs[0].hd.flags);
    assert PaddedFirst(fs, padlen)[0] == Padded(fs[0], padlen);
  }
}
