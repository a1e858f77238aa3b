/** Frames on the wire (sections 4.1, 6.2 and 6.10 of RFC 7540): what a receiver reads. */
module Frames {
  import opened Bytes

  const HDLEN: nat := 9
  const HEADERS: byte := 1
  const CONTINUATION: byte := 9
  const END_HEADERS: nat := 4
  const PADDED: nat := 8
  const PRIORITY: nat := 32
  const PRIORITY_SPECLEN: nat := 5
  const MAX_LENGTH: nat := 0x100_0000

  datatype FrameHd = FrameHd(length: nat, kind: byte, flags: byte, streamId: nat)

  ghost predicate HdOk(hd: FrameHd)
  {
    hd.length < MAX_LENGTH && hd.streamId < 0x8000_0000
  }

  // ---------------------------------------------------------------- flags

  predicate Has(f: byte, bit: nat)
    requires bit > 0
  {
    (f / bit) % 2 == 1
  }

  function Set(f: byte, bit: nat): (g: byte)
    requires bit == END_HEADERS || bit == PADDED
  {
    if Has(f, bit) then f else f + bit
  }

  function Clear(f: byte, bit: nat): (g: byte)
    requires bit == END_HEADERS || bit == PADDED
  {
    if Has(f, bit) then f - bit else f
  }

  lemma PaddedBit(f: byte)
    ensures Has(Set(f, PADDED), PADDED)
  {}

  lemma PaddedKeepsEnd(f: byte)
    ensures Has(Set(f, PADDED), END_HEADERS) == Has(f, END_HEADERS)
  {}

  lemma PaddedKeepsPriority(f: byte)
    ensures Has(Set(f, PADDED), PRIORITY) == Has(f, PRIORITY)
  {}

  lemma EndBit(f: byte)
    ensures !Has(Clear(f, END_HEADERS), END_HEADERS) && Has(Clear(f, END_HEADERS), PADDED) == Has(f, PADDED)
    ensures Has(END_HEADERS, END_HEADERS) && !Has(0, END_HEADERS)
  {}

  lemma EndKeepsPriority(f: byte)
    ensures Has(Clear(f, END_HEADERS), PRIORITY) == Has(f, PRIORITY)
  {}

  // ---------------------------------------------------------------- frame headers

  /** `nghttp2_put_uint32be`. */
  function Put32(x: nat): (bs: seq<byte>)
    requires x < TWO32
    ensures |bs| == 4
  {
    [x / 0x100_0000, x / 0x1_0000 % 256, x / 256 % 256, x % 256]
  }

  /** `nghttp2_get_uint32`. */
  function Get32(bs: seq<byte>): (x: nat)
    requires |bs| == 4
    ensures x < TWO32
  {
    (bs[0] as int) * 0x100_0000 + (bs[1] as int) * 0x1_0000 + (bs[2] as int) * 256 + bs[3] as int
  }

  lemma Get32Put32(x: nat)
    requires x < TWO32
    ensures Get32(Put32(x)) == x
  {
    assert x / 0x1_0000 == (x / 0x100_0000) * 256 + x / 0x1_0000 % 256;
    assert x / 256 == (x / 0x1_0000) * 256 + x / 256 % 256;
  }

  /** `nghttp2_frame_pack_frame_hd`: the length is shifted left by eight in 32 bits and the type
      written over its last octet. */
  function PackHd(hd: FrameHd): (bs: seq<byte>)
    ensures |bs| == HDLEN
  {
    Put32(hd.length * 256 % TWO32)[..3] + [hd.kind, hd.flags] + Put32(hd.streamId % TWO32)
  }

  /** `nghttp2_frame_unpack_frame_hd`. */
  function UnpackHd(bs: seq<byte>): (hd: FrameHd)
    requires |bs| == HDLEN
    ensures HdOk(hd)
  {
    FrameHd(Get32(bs[..4]) / 256, bs[3], bs[4], Get32(bs[5..]) % 0x8000_0000)
  }

  lemma HdRoundTrip(hd: FrameHd)
    requires HdOk(hd)
    ensures UnpackHd(PackHd(hd)) == hd
  {
    hide Put32, Get32;
    var bs, x := PackHd(hd), hd.length * 256;
    assert x < TWO32 && x % TWO32 == x && hd.streamId % TWO32 == hd.streamId;
    assert bs[..4] == Put32(x)[..3] + [hd.kind];
    Top24(x, hd.kind);
    assert bs[5..] == Put32(hd.streamId);
    Get32Put32(hd.streamId);
  }

  /** Where the fields of a frame header stand (section 4.1 of RFC 7540). */
  lemma HdLayout(hd: FrameHd)
    requires HdOk(hd)
    ensures var bs := PackHd(hd);
            && (bs[0] as int) * 0x1_0000 + (bs[1] as int) * 0x100 + (bs[2] as int) == hd.length
            && bs[3] == hd.kind && bs[4] == hd.flags && bs[5] < 0x80
            && (bs[5] as int) * 0x100_0000 + (bs[6] as int) * 0x1_0000 + (bs[7] as int) * 0x100 + (bs[8] as int) == hd.streamId
  {
    var x := hd.length * 256;
    assert x < TWO32 && x % TWO32 == x && hd.streamId % TWO32 == hd.streamId;
    Get32Put32(x);
    Get32Put32(hd.streamId);
    assert Put32(x)[3] == 0;
  }

  lemma Top24(x: nat, last: byte)
    requires x < TWO32 && x % 256 == 0
    ensures Get32(Put32(x)[..3] + [last]) == x + last
  {
    Get32Put32(x);
    assert Put32(x)[3] == 0;
  }

  // ---------------------------------------------------------------- what a receiver reads

  datatype Frame = Frame(hd: FrameHd, payload: seq<byte>)

  function FrameBytes(f: Frame): seq<byte>
  {
    PackHd(f.hd) + f.payload
  }

  function Wire(fs: seq<Frame>): seq<byte>
  {
    if fs == [] then [] else FrameBytes(fs[0]) + Wire(fs[1..])
  }

  datatype Parsed = Frames(fs: seq<Frame>) | Truncated

  /** Frame after frame, each as long as its header says. */
  function Parse(bs: seq<byte>): Parsed
  {
    if bs == [] then Frames([]) else
    if |bs| < HDLEN then Truncated else
    var hd := UnpackHd(bs[..HDLEN]);
    if |bs| < HDLEN + hd.length then Truncated else
    var rest := Parse(bs[HDLEN + hd.length..]);
    if rest.Truncated? then Truncated
    else Frames([Frame(hd, bs[HDLEN..HDLEN + hd.length])] + rest.fs)
  }

  ghost predicate FrameOk(f: Frame)
  {
    HdOk(f.hd) && f.hd.length == |f.payload|
  }

  /** Reading back what was written gives the same frames, every length exact. */
  lemma {:induction false} ParseWire(fs: seq<Frame>)
    requires forall i :: 0 <= i < |fs| ==> FrameOk(fs[i])
    ensures Parse(Wire(fs)) == Frames(fs)
  {
    hide PackHd, UnpackHd;
    if fs != [] {
      var f, bs := fs[0], Wire(fs);
      ParseWire(fs[1..]);
      HdRoundTrip(f.hd);
      assert bs[..HDLEN] == PackHd(f.hd);
      assert bs[HDLEN..HDLEN + |f.payload|] == f.payload;
      assert bs[HDLEN + |f.payload|..] == Wire(fs[1..]);
      assert fs == [f] + fs[1..];
    }
  }

  /** The header block fragment of a HEADERS frame: without padding and priority. */
  function Fragment(f: Frame): (r: seq<byte>)
  {
    var pad: int := if Has(f.hd.flags, PADDED) && f.payload != [] then 1 + (f.payload[0] as int) else 0;
    var front := (if pad > 0 then 1 else 0) + if Has(f.hd.flags, PRIORITY) then PRIORITY_SPECLEN else 0;
    var back := if pad > 0 then pad - 1 else 0;
    if front + back <= |f.payload| then f.payload[front..|f.payload| - back] else []
  }

  /** One HEADERS frame and then only CONTINUATION frames of the same stream, the last and only the
      last with END_HEADERS. */
  ghost predicate HeaderSequence(fs: seq<Frame>)
  {
    && fs != [] && fs[0].hd.kind == HEADERS
    && (forall i :: 0 < i < |fs| ==> fs[i].hd.kind == CONTINUATION && fs[i].hd.streamId == fs[0].hd.streamId)
    && (forall i :: 0 <= i < |fs| ==> (Has(fs[i].hd.flags, END_HEADERS) <==> i == |fs| - 1))
  }

  function Payloads(fs: seq<Frame>): seq<byte>
  {
    if fs == [] then [] else fs[0].payload + Payloads(fs[1..])
  }

  /** The header block of such a sequence. */
  function HeaderBlock(fs: seq<Frame>): seq<byte>
    requires fs != []
  {
    Fragment(fs[0]) + Payloads(fs[1..])
  }
}
