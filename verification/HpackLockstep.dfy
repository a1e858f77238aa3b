/** The two ends of an HPACK connection stay in step: whatever the encoder writes, the decoder
    reads back, and both tables agree after every block of every run. */
module HpackLockstep {
  import opened Bytes
  import PrefixInt
  import opened HuffmanCode
  import HuffmanCodec
  import opened HpackTable
  import opened HpackEncode
  import opened HpackDecode

  // ----- integers -----

  lemma ReadEncoded(c: Consts, d: Decoder, first: byte, n: nat)
    requires d.Valid() && d.ReadingInt() && d.left == 0 && n <= Limit(d) && n <= UINT32_MAX
    ensures Fold(c, d, PrefixInt.Encode(first, n, Prefix(d))) == AfterInt(c, d, n)
  {
    hide Fold, AfterInt, PrefixInt.Read, PrefixInt.Encode;
    var bs := PrefixInt.Encode(first, n, Prefix(d));
    PrefixInt.RoundTrip(first, n, Prefix(d), []);
    assert bs + [] == bs;
    FoldInt(c, d, bs);
  }

  /** The high bits of the first octets the encoder uses. */
  lemma HighBits()
    ensures PrefixInt.High(0x80, 7) == 0x80 && PrefixInt.High(0, 7) == 0 && PrefixInt.High(0x20, 5) == 0x20
    ensures PrefixInt.High(0x40, 6) == 0x40 && PrefixInt.High(0, 4) == 0 && PrefixInt.High(0x10, 4) == 0x10
  {
    Pow2Small();
    Join(1, 0, 7);
    Join(0, 0, 7);
    Join(1, 0, 5);
    Join(1, 0, 6);
    Join(0, 0, 4);
    Join(1, 0, 4);
    ShlOne(7);
    ShlOne(5);
    ShlOne(6);
    ShlOne(4);
    ShlZero(7);
    ShlZero(4);
  }

  lemma {:induction false} ShlZero(s: nat)
    ensures Shl(0, s) == 0
  {
    if s > 0 { ShlZero(s - 1); }
  }

  /** The first octet of an encoded integer keeps its pattern in the high bits. */
  lemma FirstOctet(first: byte, n: nat, prefix: nat)
    requires 1 <= prefix <= 8
    ensures var b := PrefixInt.Encode(first, n, prefix)[0];
            && PrefixInt.High(first, prefix) <= b < PrefixInt.High(first, prefix) + Pow2(prefix)
            && (n > 0 ==> b > PrefixInt.High(first, prefix))
  {
    PrefixInt.PrefixRoom(prefix);
  }

  /** Octets that the decoder reads the same from `d` and from `e`, because their first octet does. */
  lemma FoldFrom(c: Consts, d: Decoder, e: Decoder, bs: seq<byte>)
    requires d.Valid() && e.Valid() && bs != [] && Step(c, d, bs[0]) == Step(c, e, bs[0])
    ensures Fold(c, d, bs) == Fold(c, e, bs)
  {
    hide Step;
  }

  // ----- strings -----

  /** Between a name and its value. */
  predicate AtValue(d: Decoder)
  {
    d.state == CheckValueLen || (d.state.OfName() && d.left == 0)
  }

  /** The octets of a string split into its length and its body. */
  function Coded(c: Consts, s: seq<byte>): bool { |HuffmanCodec.Encode(c.code, s)| < |s| }

  function Body(c: Consts, s: seq<byte>): seq<byte>
  {
    if Coded(c, s) then HuffmanCodec.Encode(c.code, s) else s
  }

  function LengthBytes(c: Consts, s: seq<byte>): (bs: seq<byte>)
    ensures |bs| >= 1
  {
    PrefixInt.Encode(if Coded(c, s) then 0x80 else 0, |Body(c, s)|, 7)
  }

  lemma StringParts(c: Consts, s: seq<byte>)
    ensures StringBytes(c, s) == LengthBytes(c, s) + Body(c, s)
    ensures |Body(c, s)| <= |s|
    ensures (LengthBytes(c, s)[0] >= 128) == Coded(c, s)
  {
    hide PrefixInt.High;
    HighBits();
    Pow2Small();
    FirstOctet(if Coded(c, s) then 0x80 else 0, |Body(c, s)|, 7);
  }

  lemma BodyEmpty(c: Consts, s: seq<byte>)
    requires Good(c.code) && Body(c, s) == []
    ensures s == [] && !Coded(c, s)
  {
    HuffmanCodec.HuffmanRoundTrip(c.code, s);
    assert Coded(c, s) ==> HuffmanCodec.DecodeBytes(c.code, [], []).out == s;
    HuffmanCodec.DecodeNothing(c.code, []);
  }

  /** After its length, the body of a string decodes to the string. */
  lemma BodyDecodes(c: Consts, d: Decoder, s: seq<byte>)
    requires d.Valid() && d.ReadingString() && Good(c.code) && Body(c, s) != [] && d.left == |Body(c, s)|
    requires if Coded(c, s) then d.state.Coded() && d.huff.state == []
             else d.state.Plain()
    ensures exists h :: Fold(c, d, Body(c, s)) == Finish(c, StringAfter(d.(huff := h), s, d.left))
  {
    hide Fold, Finish, HuffmanCodec.DecodeBytes, Accepting;
    FoldString(c, d, Body(c, s));
    if Coded(c, s) {
      HuffmanCodec.HuffmanRoundTrip(c.code, s);
      var r := HuffmanCodec.DecodeBytes(c.code, [], Body(c, s));
      var h := HuffmanCodec.Context(r.pend, Accepting(r.pend));
      assert Fold(c, d, Body(c, s)) == Finish(c, StringAfter(d.(huff := h), s, d.left));
    } else {
      assert d.(huff := d.huff) == d;
      assert Fold(c, d, Body(c, s)) == Finish(c, StringAfter(d.(huff := d.huff), s, d.left));
    }
  }

  /** The fields that a string does not touch. */
  predicate SameCore(d: Decoder, e: Decoder)
  {
    && d.table == e.table && d.max == e.max && d.settingsMax == e.settingsMax && d.minMax == e.minMax
    && d.opcode == e.opcode && d.index == e.index && d.indexRequired == e.indexRequired && d.noIndex == e.noIndex
  }

  lemma LengthDecodes(c: Consts, d: Decoder, s: seq<byte>, next: State)
    requires d.Valid() && |s| <= MAX_NV
    requires (d.state == CheckNameLen && next == ReadNameLen) || (AtValue(d) && next == ReadValueLen)
    ensures var d1 := OpenedString(d, LengthBytes(c, s)[0], next);
            && d1.Valid() && d1.ReadingInt() && Limit(d1) == MAX_NV && d1.huffman == Coded(c, s)
            && Fold(c, d, LengthBytes(c, s)) == AfterInt(c, d1, |Body(c, s)|)
  {
    hide Fold, AfterInt, PrefixInt.Encode, StepInt, StepString, StepOpcode, Size, Body, Coded;
    StringParts(c, s);
    var bs := LengthBytes(c, s);
    var d1 := OpenedString(d, bs[0], next);
    FoldFrom(c, d, d1, bs);
    ReadEncoded(c, d1, if Coded(c, s) then 0x80 else 0, |Body(c, s)|);
  }

  lemma NameDecodes(c: Consts, d: Decoder, s: seq<byte>)
    requires d.Valid() && d.state == CheckNameLen && Good(c.code) && |s| <= MAX_NV
    ensures var r := Fold(c, d, StringBytes(c, s));
            r.ok && r.out == [] && AtValue(r.d) && r.d.Valid() && r.d.name == s && SameCore(r.d, d)
  {
    hide Fold, Body, Coded, Good, Size, StringBytes, LengthBytes, Decoder.Valid;
    StringParts(c, s);
    LengthDecodes(c, d, s, ReadNameLen);
    FoldAppend(c, d, LengthBytes(c, s), Body(c, s));
    var d1 := OpenedString(d, LengthBytes(c, s)[0], ReadNameLen);
    var r1 := AfterInt(c, d1, |Body(c, s)|);
    AfterIntValid(c, d1, |Body(c, s)|);
    if Body(c, s) == [] {
      BodyEmpty(c, s);
      FoldNothing(c, r1.d);
    } else {
      BodyDecodes(c, r1.d, s);
      assert [] + s == s;
    }
  }

  lemma FoldNothing(c: Consts, d: Decoder)
    requires d.Valid()
    ensures Fold(c, d, []) == Quiet(d)
  {}

  /** The name a literal representation stands for. */
  function NameOf(c: Consts, d: Decoder): seq<byte>
    requires d.opcode != OpNewName ==> d.index < STATIC_LENGTH + |d.table|
  {
    if d.opcode == OpNewName then d.name else Get(c.fixed, d.table, d.index).name
  }

  lemma ValueDecodes(c: Consts, d: Decoder, s: seq<byte>)
    requires d.Valid() && AtValue(d) && Good(c.code) && |s| <= MAX_NV
    ensures var r := Fold(c, d, StringBytes(c, s));
            && r.ok && r.out == [Header(NameOf(c, d), s, d.noIndex)] && r.d.state == AtOpcode && r.d.Valid()
            && r.d.table == (if d.indexRequired then Insert(d.table, Field(NameOf(c, d), s), d.max) else d.table)
            && r.d.max == d.max && r.d.settingsMax == d.settingsMax && r.d.minMax == d.minMax
  {
    hide Fold, Body, Coded, Good, Size, StringBytes, LengthBytes, Insert, Get, Decoder.Valid;
    StringParts(c, s);
    LengthDecodes(c, d, s, ReadValueLen);
    FoldAppend(c, d, LengthBytes(c, s), Body(c, s));
    var d1 := OpenedString(d, LengthBytes(c, s)[0], ReadValueLen);
    var r1 := AfterInt(c, d1, |Body(c, s)|);
    AfterIntValid(c, d1, |Body(c, s)|);
    if Body(c, s) == [] {
      BodyEmpty(c, s);
      FoldNothing(c, r1.d);
    } else {
      BodyDecodes(c, r1.d, s);
      assert [] + s == s;
    }
  }

  // ----- one header -----

  predicate AtField(d: Decoder) { d.state.Complete() }

  /** What the decoder must be after it read header `h` encoded against its own table. */
  ghost predicate Decoded(c: Consts, d: Decoder, h: Header, r: Outcome)
  {
    && r.ok && r.out == [Header(h.name, h.value, ModeOf(c, d.max, h).NeverIndexing?)]
    && r.d.Valid() && r.d.state == AtOpcode
    && r.d.table == TableAfter(c, d.table, d.max, h)
    && r.d.max == d.max && r.d.settingsMax == d.settingsMax && r.d.minMax == d.minMax
  }

  lemma OpenedBy(c: Consts, d: Decoder, bs: seq<byte>)
    requires d.Valid() && AtField(d) && bs != []
    requires var o := Opened(d, bs[0]); o.ReadingInt() && (o.state == ReadTableSize ==> d.state == InflateStart)
    ensures Opened(d, bs[0]).Valid() && Fold(c, d, bs) == Fold(c, Opened(d, bs[0]), bs)
  {
    hide Fold, StepInt, StepString, Size;
    FoldFrom(c, d, Opened(d, bs[0]), bs);
  }

  lemma IndexedDecodes(c: Consts, d: Decoder, i: nat)
    requires d.Valid() && AtField(d) && i < STATIC_LENGTH + |d.table| && d.max <= UINT32_MAX
    ensures var r := Fold(c, d, PrefixInt.Encode(0x80, i + 1, 7));
            var f := Get(c.fixed, d.table, i);
            && r.ok && r.out == [Header(f.name, f.value, false)] && r.d.Valid() && r.d.state == AtOpcode
            && r.d.table == d.table && r.d.max == d.max
            && r.d.settingsMax == d.settingsMax && r.d.minMax == d.minMax
  {
    hide Fold, Size, PrefixInt.Encode, PrefixInt.High, Get;
    IndexInRange(d.table, d.max);
    var bs := PrefixInt.Encode(0x80, i + 1, 7);
    HighBits();
    FirstOctet(0x80, i + 1, 7);
    OpenedBy(c, d, bs);
    ReadEncoded(c, Opened(d, bs[0]), 0x80, i + 1);
    AfterIntValid(c, Opened(d, bs[0]), i + 1);
  }

  /** The decoder after the first octet of a literal in `mode`. */
  predicate Literal(d: Decoder, o: Decoder, mode: Mode)
  {
    && o.indexRequired == mode.WithIndexing? && o.noIndex == mode.NeverIndexing?
    && o.table == d.table && o.max == d.max && o.settingsMax == d.settingsMax && o.minMax == d.minMax
  }

  lemma NameIndexOpens(d: Decoder, mode: Mode, i: nat)
    ensures var b := PrefixInt.Encode(FirstByte(mode), i + 1, NamePrefix(mode))[0];
            var o := Opened(d, b);
            && o.state == ReadIndex && o.opcode == OpIndName && Literal(d, o, mode)
            && Prefix(o) == NamePrefix(mode) && o.left == 0
  {
    hide PrefixInt.Encode, PrefixInt.High;
    HighBits();
    Pow2Small();
    FirstOctet(FirstByte(mode), i + 1, NamePrefix(mode));
  }

  lemma IndexedNameDecodes(c: Consts, d: Decoder, mode: Mode, i: nat, s: seq<byte>)
    requires d.Valid() && AtField(d) && i < STATIC_LENGTH + |d.table| && d.max <= UINT32_MAX
    requires Good(c.code) && |s| <= MAX_NV
    ensures var r := Fold(c, d, PrefixInt.Encode(FirstByte(mode), i + 1, NamePrefix(mode)) + StringBytes(c, s));
            var f := Field(Get(c.fixed, d.table, i).name, s);
            && r.ok && r.out == [Header(f.name, s, mode.NeverIndexing?)] && r.d.Valid() && r.d.state == AtOpcode
            && r.d.table == (if mode.WithIndexing? then Insert(d.table, f, d.max) else d.table)
            && r.d.max == d.max && r.d.settingsMax == d.settingsMax && r.d.minMax == d.minMax
  {
    hide Fold, Size, PrefixInt.Encode, PrefixInt.High, Get, StringBytes, Insert, Opened, Good;
    IndexInRange(d.table, d.max);
    var bs := PrefixInt.Encode(FirstByte(mode), i + 1, NamePrefix(mode));
    NameIndexOpens(d, mode, i);
    OpenedBy(c, d, bs);
    var o := Opened(d, bs[0]);
    ReadEncoded(c, o, FirstByte(mode), i + 1);
    AfterIntValid(c, o, i + 1);
    FoldAppend(c, d, bs, StringBytes(c, s));
    ValueDecodes(c, AfterInt(c, o, i + 1).d, s);
  }

  lemma NewNameOpens(c: Consts, d: Decoder, mode: Mode)
    requires d.Valid() && AtField(d)
    ensures var o := Opened(d, FirstByte(mode));
            && o.Valid() && o.state == CheckNameLen && o.opcode == OpNewName && Literal(d, o, mode)
            && Fold(c, d, [FirstByte(mode)]) == Quiet(o)
  {
    hide Size, StepInt;
    var bs := [FirstByte(mode)];
    assert bs[1..] == [];
  }

  lemma NewNameDecodes(c: Consts, d: Decoder, mode: Mode, name: seq<byte>, s: seq<byte>)
    requires d.Valid() && AtField(d) && Good(c.code) && |name| <= MAX_NV && |s| <= MAX_NV
    ensures var r := Fold(c, d, [FirstByte(mode)] + StringBytes(c, name) + StringBytes(c, s));
            && r.ok && r.out == [Header(name, s, mode.NeverIndexing?)] && r.d.Valid() && r.d.state == AtOpcode
            && r.d.table == (if mode.WithIndexing? then Insert(d.table, Field(name, s), d.max) else d.table)
            && r.d.max == d.max && r.d.settingsMax == d.settingsMax && r.d.minMax == d.minMax
  {
    hide Fold, Size, StringBytes, Insert, Opened, Good, FirstByte;
    var a, b, v := [FirstByte(mode)], StringBytes(c, name), StringBytes(c, s);
    NewNameOpens(c, d, mode);
    var o := Opened(d, FirstByte(mode));
    NameDecodes(c, o, name);
    FoldAppend(c, d, a, b);
    FoldAppend(c, d, a + b, v);
    ValueDecodes(c, Fold(c, o, b).d, s);
  }

  /** Every header decodes to itself and leaves the decoder's table as the encoder's. */
  lemma HeaderDecodes(c: Consts, d: Decoder, h: Header)
    requires d.Valid() && AtField(d) && d.max <= UINT32_MAX && Good(c.code)
    requires |h.name| <= MAX_NV && |h.value| <= MAX_NV
    ensures Decoded(c, d, h, Fold(c, d, HeaderBytes(c, d.table, d.max, h)))
  {
    hide Fold, Size, StringBytes, Insert, Good, FirstByte, PrefixInt.Encode, Search, ModeOf, NamePrefix;
    var mode := ModeOf(c, d.max, h);
    match SearchFor(c, d.table, d.max, h)
    case ExactMatch(i) => IndexedDecodes(c, d, i);
    case NameMatch(i) => IndexedNameDecodes(c, d, mode, i, h.value);
    case NoMatch => NewNameDecodes(c, d, mode, h.name, h.value);
  }

  // ----- lists, blocks and runs -----

  predicate Fits(hs: seq<Header>)
  {
    forall i :: 0 <= i < |hs| ==> |hs[i].name| <= MAX_NV && |hs[i].value| <= MAX_NV
  }

  /** The headers as the receiver sees them: NO_INDEX exactly where never-indexing was chosen. */
  function Marked(c: Consts, max: nat, hs: seq<Header>): seq<Header>
  {
    if hs == [] then []
    else [Header(hs[0].name, hs[0].value, ModeOf(c, max, hs[0]).NeverIndexing?)] + Marked(c, max, hs[1..])
  }

  lemma {:induction false} ListDecodes(c: Consts, d: Decoder, hs: seq<Header>)
    requires d.Valid() && AtField(d) && d.max <= UINT32_MAX && Good(c.code) && Fits(hs)
    ensures var r := Fold(c, d, ListBytes(c, d.table, d.max, hs));
            && r.ok && r.out == Marked(c, d.max, hs) && r.d.Valid() && AtField(r.d)
            && r.d.table == ListTable(c, d.table, d.max, hs)
            && r.d.max == d.max && r.d.settingsMax == d.settingsMax && r.d.minMax == d.minMax
    decreases |hs|
  {
    hide Fold, Size, Good, HeaderBytes, TableAfter, ModeOf;
    if hs == [] {
      FoldNothing(c, d);
    } else {
      var a := HeaderBytes(c, d.table, d.max, hs[0]);
      HeaderDecodes(c, d, hs[0]);
      var r := Fold(c, d, a);
      ListDecodes(c, r.d, hs[1..]);
      FoldAppend(c, d, a, ListBytes(c, r.d.table, d.max, hs[1..]));
    }
  }

  /** One table size update, section 6.3 of RFC 7541. */
  lemma SizeUpdateDecodes(c: Consts, d: Decoder, n: nat)
    requires d.Valid() && d.state.Between()
    requires n <= d.minMax && n <= d.settingsMax && n <= UINT32_MAX
    ensures var r := Fold(c, d, SizeUpdate(n));
            && r.ok && r.out == [] && r.d.Valid() && r.d.state == InflateStart
            && r.d.table == Shrink(d.table, n) && r.d.max == n
            && r.d.settingsMax == d.settingsMax && r.d.minMax == UINT32_MAX
  {
    hide Fold, Size, PrefixInt.Encode, PrefixInt.High, Shrink, StepInt;
    var bs := SizeUpdate(n);
    HighBits();
    Pow2Small();
    FirstOctet(0x20, n, 5);
    var o := Opened(d, bs[0]);
    FoldFrom(c, d, o, bs);
    ReadEncoded(c, o, 0x20, n);
    AfterIntValid(c, o, n);
  }

  /** Both ends between two blocks. While the encoder has a size change to announce, its table is
      the decoder's cut to the smallest bound since the last block. */
  ghost predicate Linked(e: Encoder, d: Decoder)
  {
    && e.Valid() && d.Valid() && e.max <= UINT32_MAX && e.minMax <= UINT32_MAX
    && (!e.notify ==> e.table == d.table && e.max == d.max && d.state == InflateStart && d.minMax == UINT32_MAX)
    && (e.notify ==>
          && d.state.Between()
          && e.table == Shrink(d.table, Min(e.minMax, e.max))
          && Min(e.minMax, e.max) <= d.minMax && e.max <= d.settingsMax
          && (e.minMax <= e.max || e.max == e.limit))
  }

  lemma InitLinked(limit: nat)
    ensures Linked(InitEncoder(limit), InitDecoder())
  {
    assert Size([]) == 0;
  }

  lemma LinkedFits(e: Encoder, d: Decoder)
    requires Linked(e, d)
    ensures Size(d.table) <= d.max && d.state.Between()
  {
    hide Shrink, Size;
  }

  lemma ResizeLinked(e: Encoder, d: Decoder, size: nat)
    requires Linked(e, d) && size <= UINT32_MAX
    ensures Linked(ResizeEncoder(e, size), ResizeDecoder(d, size))
  {
    hide Shrink, Size, Decoder.Valid;
    LinkedFits(e, d);
    ResizeValid(d, size);
    var next := Min(size, e.limit);
    var m := if e.notify then Min(e.minMax, e.max) else d.max;
    ShrinkShrink(d.table, m, next);
    ShrinkShrink(d.table, size, Min(e.minMax, next));
    ShrinkFits(d.table, d.max);
  }

  lemma PreludeDecodes(c: Consts, e: Encoder, d: Decoder)
    requires Linked(e, d)
    ensures var r := Fold(c, d, Prelude(e));
            && r.ok && r.out == [] && r.d.Valid() && r.d.state == InflateStart
            && r.d.table == e.table && r.d.max == e.max && r.d.minMax == UINT32_MAX
            && r.d.settingsMax == d.settingsMax
  {
    hide Fold, Size, Shrink, SizeUpdate;
    if !e.notify {
      FoldNothing(c, d);
    } else if e.max > e.minMax {
      SizeUpdateDecodes(c, d, e.minMax);
      var r := Fold(c, d, SizeUpdate(e.minMax));
      SizeUpdateDecodes(c, r.d, e.max);
      FoldAppend(c, d, SizeUpdate(e.minMax), SizeUpdate(e.max));
      ShrinkShrink(d.table, e.minMax, e.max);
    } else {
      assert [] + SizeUpdate(e.max) == SizeUpdate(e.max);
      SizeUpdateDecodes(c, d, e.max);
    }
  }

  /** A whole block, then `nghttp2_hd_inflate_end_headers`. */
  function DecodeBlock(c: Consts, d: Decoder, bs: seq<byte>): (r: Outcome)
    requires d.Valid()
    ensures r.ok ==> r.d.Valid()
  {
    var r := Fold(c, d, bs);
    if r.ok && r.d.state.Complete() then r.(d := r.d.(state := InflateStart))
    else Outcome(HpackDecode.Fail(r.d).d, r.out, false)
  }

  lemma BlockDecodes(c: Consts, e: Encoder, d: Decoder, hs: seq<Header>)
    requires Linked(e, d) && Good(c.code) && Fits(hs)
    ensures var r := DecodeBlock(c, d, BlockBytes(c, e, hs));
            && r.ok && r.out == Marked(c, e.max, hs)
            && Linked(EncoderAfter(c, e, hs), r.d)
            && r.d.table == EncoderAfter(c, e, hs).table && r.d.max == EncoderAfter(c, e, hs).max
  {
    hide Fold, Size, Good, Prelude, ListBytes, ListTable, Shrink;
    PreludeDecodes(c, e, d);
    var r := Fold(c, d, Prelude(e));
    ListDecodes(c, r.d, hs);
    FoldAppend(c, d, Prelude(e), ListBytes(c, e.table, e.max, hs));
  }

  /** What both applications do between connection start and end. */
  datatype Event = Block(hs: seq<Header>) | Resize(size: nat)

  predicate Admissible(ev: Event)
  {
    match ev case Block(hs) => Fits(hs) case Resize(size) => size <= UINT32_MAX
  }

  /** Every block of the run decodes to its headers, and the tables agree after it. */
  ghost predicate InStep(c: Consts, e: Encoder, d: Decoder, run: seq<Event>)
    requires d.Valid()
    decreases |run|
  {
    run != [] ==>
      match run[0]
      case Resize(size) =>
        var d1 := ResizeDecoder(d, size);
        d1.Valid() && InStep(c, ResizeEncoder(e, size), d1, run[1..])
      case Block(hs) =>
        var e1 := EncoderAfter(c, e, hs);
        var r := DecodeBlock(c, d, BlockBytes(c, e, hs));
        && r.ok && r.out == Marked(c, e.max, hs)
        && r.d.table == e1.table && r.d.max == e1.max && Size(r.d.table) == Size(e1.table)
        && InStep(c, e1, r.d, run[1..])
  }

  lemma {:induction false} LinkedRunInStep(c: Consts, e: Encoder, d: Decoder, run: seq<Event>)
    requires Linked(e, d) && Good(c.code) && forall i :: 0 <= i < |run| ==> Admissible(run[i])
    ensures InStep(c, e, d, run)
    decreases |run|
  {
    hide DecodeBlock, BlockBytes, EncoderAfter, ResizeEncoder, ResizeDecoder, Marked, Good, Linked, Fits;
    if run != [] {
      assert d.Valid() by { LinkedValid(e, d); }
      match run[0]
      case Resize(size) =>
        ResizeLinked(e, d, size);
        LinkedValid(ResizeEncoder(e, size), ResizeDecoder(d, size));
        LinkedRunInStep(c, ResizeEncoder(e, size), ResizeDecoder(d, size), run[1..]);
      case Block(hs) =>
        assert Admissible(run[0]);
        BlockDecodes(c, e, d, hs);
        LinkedRunInStep(c, EncoderAfter(c, e, hs), DecodeBlock(c, d, BlockBytes(c, e, hs)).d, run[1..]);
    }
  }

  lemma LinkedValid(e: Encoder, d: Decoder)
    requires Linked(e, d)
    ensures e.Valid() && d.Valid()
  {}

  /** HPACK lockstep: from fresh ends, over every run of blocks and table size changes. */
  lemma Lockstep(c: Consts, limit: nat, run: seq<Event>)
    requires Good(c.code) && forall i :: 0 <= i < |run| ==> Admissible(run[i])
    ensures InitDecoder().Valid() && InStep(c, InitEncoder(limit), InitDecoder(), run)
  {
    InitLinked(limit);
    LinkedRunInStep(c, InitEncoder(limit), InitDecoder(), run);
  }
}
