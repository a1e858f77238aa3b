/** The deflater as the source runs it: hash index, ring table and chained output buffers. */
module Deflater {
  import opened Bytes
  import PrefixInt
  import opened Buffers
  import opened HuffmanCode
  import HuffmanCodec
  import HuffmanWriter
  import opened HpackTable
  import opened HpackEncode
  import opened RingBuffer
  import opened HashIndex
  import opened HdContext

  // ----- hashes and tokens of entries -----

  function Xor(a: nat, b: nat): nat
    decreases a + b
  {
    if a == 0 then b
    else if b == 0 then a
    else 2 * Xor(a / 2, b / 2) + (a + b) % 2
  }

  /** One round of FNV-1a in 32 bits. */
  function HashStep(h: nat, b: byte): nat
  {
    var x := Xor(h, b);
    (x + 2 * x + 16 * x + 128 * x + 256 * x + 0x100_0000 * x) % TWO32
  }

  function HashFrom(h: nat, name: seq<byte>): nat
  {
    if name == [] then h else HashStep(HashFrom(h, name[..|name| - 1]), name[|name| - 1])
  }

  /** `name_hash`. */
  method NameHash(name: seq<byte>) returns (h: nat)
    ensures h == HashFrom(2166136261, name)
  {
    h := 2166136261;
    for i := 0 to |name|
      invariant h == HashFrom(2166136261, name[..i])
    {
      assert name[..i + 1][..i] == name[..i];
      h := HashStep(h, name[i]);
    }
    assert name[..|name|] == name;
  }

  /** The hash `deflate_nv` uses: tokens above the static table share bucket 0. */
  function HashOf(s: StaticTable, name: seq<byte>): nat
  {
    if LookupToken(s, name) >= STATIC_LENGTH then 0 else HashFrom(2166136261, name)
  }

  ghost predicate Tagged(s: StaticTable, es: seq<Entry>)
  {
    forall i :: 0 <= i < |es| ==>
      es[i].token == LookupToken(s, es[i].name) && es[i].hash == HashOf(s, es[i].name)
  }

  /** With tokens and hashes of names, `hd_map_find` compares names. */
  lemma TaggedMatches(s: StaticTable, es: seq<Entry>, name: seq<byte>)
    requires Tagged(s, es)
    ensures Hashed(es, name, HashOf(s, name))
    ensures forall i :: 0 <= i < |es| ==>
              Matches(es[i], name, LookupToken(s, name), HashOf(s, name)) == (es[i].name == name)
  {
    hide LookupToken, HashFrom;
    forall i | 0 <= i < |es|
      ensures Matches(es[i], name, LookupToken(s, name), HashOf(s, name)) == (es[i].name == name)
    {
      if es[i].token == LookupToken(s, name) != -1 {
        TokenInjective(s, es[i].name, name);
      }
    }
  }

  lemma {:induction false} IndexesAgree(es: seq<Entry>, f: Field)
    ensures NameIdx(es, f.name) == FirstName(Fields(es), f.name, 0)
    ensures FieldIdx(es, f) == FirstField(Fields(es), f, 0)
  {
    var t := Fields(es);
    var a, b := NameIdx(es, f.name), FirstName(t, f.name, 0);
    assert b < |t| ==> t[b].name == es[b].name;
    assert a < |es| ==> t[a].name == f.name;
    var c, d := FieldIdx(es, f), FirstField(t, f, 0);
    assert d < |t| ==> t[d] == Field(es[d].name, es[d].value);
    assert c < |es| ==> t[c] == f;
  }

  /** The index computed from sequence numbers is the position in the table, across wrap-around. */
  lemma SeqIndex(next: nat, i: nat)
    requires next < TWO32 && i + STATIC_LENGTH < TWO32
    ensures (next + 2 * TWO32 - 1 - SeqAt(next, i) + STATIC_LENGTH) % TWO32 == i + STATIC_LENGTH
  {
  }

  // ----- writing -----

  /** `encode_length` into a 16-octet scratch buffer, then `nghttp2_bufs_add`. */
  method EmitInt(bufs: Bufs, first: byte, n: nat, prefix: nat) returns (ok: bool)
    requires bufs.Valid() && bufs.NonEmptyAhead() && 1 <= prefix <= 8 && n <= UINT32_MAX
    modifies bufs`chunks, bufs`cur
    ensures bufs.Valid()
    ensures ok <==> |PrefixInt.Encode(first, n, prefix)| <= old(bufs.Room())
    ensures ok ==> bufs.NonEmptyAhead()
    ensures ok ==> bufs.Content() == old(bufs.Content()) + PrefixInt.Encode(first, n, prefix)
    ensures ok ==> bufs.Room() == old(bufs.Room()) - |PrefixInt.Encode(first, n, prefix)|
  {
    hide PrefixInt.Encode;
    var sb := new byte[16](_ => 0);
    sb[0] := first;
    PrefixInt.EncodeLength(first, n, prefix);
    var blocklen := PrefixInt.CountEncodedLength(n, prefix);
    var _ := PrefixInt.EncodeInto(sb, n, prefix);
    ok := bufs.Add(sb[..blocklen]);
  }

  /** `emit_string`. */
  method EmitString(bufs: Bufs, c: Consts, s: seq<byte>) returns (ok: bool)
    requires bufs.Valid() && bufs.NonEmptyAhead() && Good(c.code) && |s| <= UINT32_MAX
    modifies bufs`chunks, bufs`cur
    ensures bufs.Valid()
    ensures ok <==> |StringBytes(c, s)| <= old(bufs.Room())
    ensures ok ==> bufs.NonEmptyAhead()
    ensures ok ==> bufs.Content() == old(bufs.Content()) + StringBytes(c, s)
    ensures ok ==> bufs.Room() == old(bufs.Room()) - |StringBytes(c, s)|
  {
    hide PrefixInt.Encode, HuffmanCodec.Encode, Good, Bufs.Valid, Bufs.Content;
    var enclen := HuffmanWriter.EncodeCount(c.code, s);
    var huffman := enclen < |s|;
    if !huffman {
      enclen := |s|;
    }
    ghost var head := PrefixInt.Encode(if huffman then 0x80 else 0, enclen, 7);
    ghost var before := bufs.Content();
    ok := EmitInt(bufs, if huffman then 0x80 else 0, enclen, 7);
    if !ok { return; }
    if huffman {
      ok := HuffmanWriter.HuffEncode(bufs, c.code, s);
      assert before + head + HuffmanCodec.Encode(c.code, s) == before + (head + HuffmanCodec.Encode(c.code, s));
    } else {
      ok := bufs.Add(s);
      assert before + head + s == before + (head + s);
    }
  }

  /** `emit_indname_block`. */
  method EmitIndexedName(bufs: Bufs, c: Consts, idx: nat, value: seq<byte>, mode: Mode) returns (ok: bool)
    requires bufs.Valid() && bufs.NonEmptyAhead() && Good(c.code) && |value| <= UINT32_MAX && idx < UINT32_MAX
    modifies bufs`chunks, bufs`cur
    ensures bufs.Valid()
    ensures var bs := PrefixInt.Encode(FirstByte(mode), idx + 1, NamePrefix(mode)) + StringBytes(c, value);
            && (ok <==> |bs| <= old(bufs.Room()))
            && (ok ==> bufs.NonEmptyAhead() && bufs.Content() == old(bufs.Content()) + bs)
            && (ok ==> bufs.Room() == old(bufs.Room()) - |bs|)
  {
    hide PrefixInt.Encode, StringBytes, Good;
    ghost var before := bufs.Content();
    ghost var head := PrefixInt.Encode(FirstByte(mode), idx + 1, NamePrefix(mode));
    ok := EmitInt(bufs, FirstByte(mode), idx + 1, NamePrefix(mode));
    if !ok { return; }
    ok := EmitString(bufs, c, value);
    assert before + head + StringBytes(c, value) == before + (head + StringBytes(c, value));
  }

  /** `emit_newname_block`. */
  method EmitNewName(bufs: Bufs, c: Consts, name: seq<byte>, value: seq<byte>, mode: Mode) returns (ok: bool)
    requires bufs.Valid() && bufs.NonEmptyAhead() && Good(c.code) && |name| <= UINT32_MAX && |value| <= UINT32_MAX
    modifies bufs`chunks, bufs`cur
    ensures bufs.Valid()
    ensures var bs := [FirstByte(mode)] + StringBytes(c, name) + StringBytes(c, value);
            && (ok <==> |bs| <= old(bufs.Room()))
            && (ok ==> bufs.NonEmptyAhead() && bufs.Content() == old(bufs.Content()) + bs)
            && (ok ==> bufs.Room() == old(bufs.Room()) - |bs|)
  {
    hide StringBytes, Good;
    ghost var x, a, b, v := bufs.Content(), [FirstByte(mode)], StringBytes(c, name), StringBytes(c, value);
    ok := bufs.Addb(FirstByte(mode));
    if !ok { return; }
    ok := EmitString(bufs, c, name);
    if !ok { return; }
    ok := EmitString(bufs, c, value);
    assert x + a + b + v == x + (a + b + v);
  }

  method EmitField(bufs: Bufs, c: Consts, m: Match, mode: Mode, h: Header) returns (ok: bool)
    requires bufs.Valid() && bufs.NonEmptyAhead() && Good(c.code)
    requires |h.name| <= UINT32_MAX && |h.value| <= UINT32_MAX && (!m.NoMatch? ==> m.index < UINT32_MAX)
    modifies bufs`chunks, bufs`cur
    ensures bufs.Valid()
    ensures var bs := FieldBytes(c, m, mode, h);
            && (ok <==> |bs| <= old(bufs.Room()))
            && (ok ==> bufs.NonEmptyAhead() && bufs.Content() == old(bufs.Content()) + bs)
            && (ok ==> bufs.Room() == old(bufs.Room()) - |bs|)
  {
    hide StringBytes, Good, PrefixInt.Encode, FirstByte, NamePrefix;
    match m
    case ExactMatch(i) => ok := EmitInt(bufs, 0x80, i + 1, 7);
    case NameMatch(i) => ok := EmitIndexedName(bufs, c, i, h.value, mode);
    case NoMatch => ok := EmitNewName(bufs, c, h.name, h.value, mode);
  }

  // ----- the deflater -----

  class Deflater {
    const c: Consts
    const ctx: Context
    const index: HdMap
    const limit: nat
    var minMax: nat
    var notify: bool
    var bad: bool

    ghost function Abs(): Encoder
      reads this, ctx, ctx.ring
    {
      Encoder(ctx.Table(), ctx.max, limit, minMax, notify)
    }

    ghost predicate Valid()
      reads this, ctx, ctx.ring, ctx.ring.buffer, index, index.table, ctx.ring.entries
    {
      && ctx.Valid() && ctx.Indexed(index) && Tagged(c.fixed, ctx.ring.entries)
      && Abs().Valid() && ctx.max <= UINT32_MAX && minMax <= UINT32_MAX
    }

    /** `nghttp2_hd_deflate_init2`. */
    constructor (c: Consts, limit: nat)
      ensures Valid() && !bad && this.c == c && Abs() == InitEncoder(limit)
      ensures fresh(ctx) && fresh(ctx.ring) && fresh(ctx.ring.buffer) && fresh(index) && fresh(index.table)
      ensures ctx.ring.entries == []
    {
      this.c, this.limit := c, limit;
      ctx := new Context(Min(limit, DEFAULT_TABLE_SIZE));
      index := new HdMap();
      minMax, notify, bad := UINT32_MAX, limit < DEFAULT_TABLE_SIZE, false;
      new;
      assert Size([]) == 0;
    }

    /** `search_static_table`. */
    method SearchStatic(f: Field, token: nat, nameOnly: bool) returns (m: Match)
      requires token < STATIC_LENGTH && c.fixed[token].name == f.name
      ensures m == StaticMatch(c.fixed, f, token, nameOnly)
    {
      if nameOnly {
        return NameMatch(token);
      }
      var i := token;
      while i < STATIC_LENGTH && c.fixed[i].name == f.name
        invariant token <= i <= STATIC_LENGTH
        invariant RunField(c.fixed, f, i) == RunField(c.fixed, f, token)
      {
        if c.fixed[i].value == f.value {
          return ExactMatch(i);
        }
        i := i + 1;
      }
      m := NameMatch(token);
    }

    /** `search_hd_table`: the hash index finds what a linear scan of the tables finds. */
    method SearchTable(f: Field, nameOnly: bool, hash: nat) returns (m: Match)
      requires Valid() && hash == HashOf(c.fixed, f.name)
      ensures m == Search(c.fixed, ctx.Table(), f, nameOnly)
    {
      hide Fields, Size, Numbered, Slot, HashFrom, NameIdx, FieldIdx, Bucket, Chain, Distinct, StaticMatch, SeqAt;
      ghost var es := ctx.ring.entries;
      var token := LookupToken(c.fixed, f.name);
      TaggedMatches(c.fixed, es, f.name);
      IndexesAgree(es, f);
      var ent, exact := index.Find(f, token, hash, nameOnly, es);
      if !exact && 0 <= token < STATIC_LENGTH {
        m := SearchStatic(f, token, nameOnly);
        return;
      }
      if ent == null {
        return NoMatch;
      }
      ghost var k := if exact then FieldIdx(es, f) else NameIdx(es, f.name);
      SizeCount(ctx.Table());
      PositionOf(es, ctx.nextSeq, k);
      var i := (ctx.nextSeq + 2 * TWO32 - 1 - ent.seqNo + STATIC_LENGTH) % TWO32;
      m := if exact then ExactMatch(i) else NameMatch(i);
    }

    /** `nghttp2_hd_deflate_change_table_size`. */
    method ChangeTableSize(size: nat)
      requires Valid() && size <= UINT32_MAX
      modifies this, ctx, ctx.ring, ctx.ring.entries, index.table
      ensures Valid() && Abs() == ResizeEncoder(old(Abs()), size) && bad == old(bad)
      ensures ctx.ring.buffer == old(ctx.ring.buffer) && ctx.ring.entries <= old(ctx.ring.entries)
    {
      hide Fields, Size, Numbered, Slot, LookupToken, HashOf, Bucket, Chain, Distinct, Shrink;
      var next := Min(size, limit);
      ctx.max := next;
      minMax := Min(minMax, next);
      notify := true;
      ctx.ShrinkTable(index);
    }

    method ModeFor(h: Header, token: int) returns (mode: Mode)
      requires token == LookupToken(c.fixed, h.name)
      ensures mode == ModeOf(c, ctx.max, h)
    {
      hide ExtraNames, FirstIn;
      if token == TOKEN_AUTHORIZATION || (token == TOKEN_COOKIE && |h.value| < 20) || h.noIndex {
        return NeverIndexing;
      }
      if token == TOKEN_PATH || token == TOKEN_AGE || token == TOKEN_CONTENT_LENGTH || token == TOKEN_ETAG
         || token == TOKEN_IF_MODIFIED_SINCE || token == TOKEN_IF_NONE_MATCH || token == TOKEN_LOCATION
         || token == TOKEN_SET_COOKIE
         || ENTRY_OVERHEAD + |h.name| + |h.value| > ctx.max * 3 / 4 {
        return WithoutIndexing;
      }
      mode := WithIndexing;
    }

    /** `deflate_nv`: choose the mode, search, and index the field unless it was found whole;
        then write the representation. */
    method DeflateNv(bufs: Bufs, h: Header) returns (ok: bool)
      requires Valid() && bufs.Valid() && bufs.NonEmptyAhead() && Good(c.code)
      requires |h.name| <= UINT32_MAX && |h.value| <= UINT32_MAX
      modifies bufs`chunks, bufs`cur, ctx, ctx.ring, ctx.ring.buffer, ctx.ring.entries, index.table
      ensures Valid() && bufs.Valid()
      ensures Abs() == old(Abs()).(table := TableAfter(c, old(ctx.Table()), ctx.max, h))
      ensures Kept()
      ensures var bs := HeaderBytes(c, old(ctx.Table()), ctx.max, h);
              && (ok <==> |bs| <= old(bufs.Room()))
              && (ok ==> bufs.NonEmptyAhead() && bufs.Content() == old(bufs.Content()) + bs)
              && (ok ==> bufs.Room() == old(bufs.Room()) - |bs|)
    {
      hide Fields, Size, Numbered, Slot, LookupToken, HashFrom, Bucket, Chain, Distinct, Search, ModeOf,
        HpackTable.Insert, FieldBytes, Good, TableAfter, SearchFor, Tagged;
      var m, mode := Prepare(h);
      ok := EmitField(bufs, c, m, mode, h);
    }

    method Prepare(h: Header) returns (m: Match, mode: Mode)
      requires Valid()
      modifies ctx, ctx.ring, ctx.ring.buffer, ctx.ring.entries, index.table
      ensures Valid() && Kept() && mode == ModeOf(c, old(ctx.max), h)
      ensures m == SearchFor(c, old(ctx.Table()), old(ctx.max), h)
      ensures !m.NoMatch? ==> m.index < UINT32_MAX
      ensures Abs() == old(Abs()).(table := TableAfter(c, old(ctx.Table()), ctx.max, h))
    {
      hide Fields, Size, Numbered, Slot, LookupToken, HashFrom, Bucket, Chain, Distinct, Search, ModeOf,
        HpackTable.Insert, Tagged;
      var token := LookupToken(c.fixed, h.name);
      var hash := 0;
      if token < STATIC_LENGTH {
        hash := NameHash(h.name);
      }
      mode := ModeFor(h, token);
      m := SearchTable(FieldOf(h), mode == NeverIndexing, hash);
      IndexInRange(ctx.Table(), ctx.max);
      if !m.ExactMatch? && mode == WithIndexing {
        AddEntry(h, token, hash);
      }
    }

    method AddEntry(h: Header, token: int, hash: nat)
      requires Valid() && token == LookupToken(c.fixed, h.name) && hash == HashOf(c.fixed, h.name)
      modifies ctx, ctx.ring, ctx.ring.buffer, ctx.ring.entries, index.table
      ensures Valid() && Abs() == old(Abs()).(table := HpackTable.Insert(old(ctx.Table()), FieldOf(h), ctx.max))
      ensures Kept() && ctx.max == old(ctx.max)
    {
      hide Fields, Size, Numbered, Slot, LookupToken, HashOf, Bucket, Chain, Distinct, HpackTable.Insert;
      InsertFits(ctx.Table(), FieldOf(h), ctx.max);
      ctx.Add(h.name, h.value, token, hash, index);
    }

    /** The ring's buffer and entries are the old ones or new objects. */
    twostate predicate Kept()
      reads ctx.ring
    {
      && (ctx.ring.buffer == old(ctx.ring.buffer) || fresh(ctx.ring.buffer))
      && forall i :: 0 <= i < |ctx.ring.entries| ==>
           ctx.ring.entries[i] in old(ctx.ring.entries) || fresh(ctx.ring.entries[i])
    }

    method MarkBad()
      requires Valid()
      modifies `bad
      ensures Valid() && bad
    {
      bad := true;
    }

    method Announced()
      requires Valid()
      modifies `minMax, `notify
      ensures Valid() && Abs() == old(Abs()).(minMax := UINT32_MAX, notify := false)
    {
      hide Fields, Size, Numbered, Tagged;
      notify, minMax := false, UINT32_MAX;
    }

    /** The table size updates at the head of a block. */
    method EmitPrelude(bufs: Bufs) returns (ok: bool)
      requires Valid() && bufs.Valid() && bufs.NonEmptyAhead()
      modifies `minMax, `notify, bufs`chunks, bufs`cur
      ensures Valid() && bufs.Valid() && Abs() == old(Abs()).(minMax := UINT32_MAX, notify := false)
      ensures var bs := Prelude(old(Abs()));
              && (ok <==> |bs| <= old(bufs.Room()))
              && (ok ==> bufs.NonEmptyAhead() && bufs.Content() == old(bufs.Content()) + bs)
              && (ok ==> bufs.Room() == old(bufs.Room()) - |bs|)
    {
      hide Fields, Size, Numbered, Slot, LookupToken, HashFrom, Bucket, Chain, Distinct, Tagged, PrefixInt.Encode,
        Bufs.Valid, Bufs.Content;
      ghost var before := bufs.Content();
      if !notify {
        assert before + [] == before;
        return true;
      }
      var smallest := minMax;
      Announced();
      ghost var first := [];
      assert before + [] == before;
      if ctx.max > smallest {
        first := SizeUpdate(smallest);
        ok := EmitInt(bufs, 0x20, smallest, 5);
        if !ok { return; }
      }
      ok := EmitInt(bufs, 0x20, ctx.max, 5);
      assert before + first + SizeUpdate(ctx.max) == before + (first + SizeUpdate(ctx.max));
    }

    /** `nghttp2_hd_deflate_hd_bufs`: it succeeds exactly when the block fits, and any error is final. */
    method DeflateHdBufs(bufs: Bufs, hs: seq<Header>) returns (ok: bool)
      requires Valid() && bufs.Valid() && bufs.NonEmptyAhead() && Good(c.code)
      requires forall i :: 0 <= i < |hs| ==> |hs[i].name| <= UINT32_MAX && |hs[i].value| <= UINT32_MAX
      modifies this, bufs`chunks, bufs`cur, ctx, ctx.ring, ctx.ring.buffer, ctx.ring.entries, index.table
      ensures Valid() && bufs.Valid() && Kept()
      ensures old(bad) ==> !ok && bad
      ensures !old(bad) ==> (ok <==> |BlockBytes(c, old(Abs()), hs)| <= old(bufs.Room())) && bad == !ok
      ensures ok ==> Abs() == EncoderAfter(c, old(Abs()), hs)
      ensures ok ==> bufs.Content() == old(bufs.Content()) + BlockBytes(c, old(Abs()), hs)
    {
      hide Fields, Size, Numbered, Slot, LookupToken, HashFrom, Bucket, Chain, Distinct, Tagged, HeaderBytes,
        TableAfter, Good, Prelude, ListBytes, ListTable, Bufs.Valid, Deflater.Valid, Bufs.Content;
      if bad {
        return false;
      }
      ghost var e := Abs();
      ghost var x, total := bufs.Content(), BlockBytes(c, e, hs);
      var i := 0;
      ok := EmitPrelude(bufs);
      ghost var done := Prelude(e);
      assert hs[0..] == hs;
      while ok && i < |hs|
        invariant 0 <= i <= |hs| && Valid() && bufs.Valid() && !bad && Kept()
        invariant Abs() == Encoder(ctx.Table(), e.max, e.limit, UINT32_MAX, false)
        invariant ListTable(c, ctx.Table(), e.max, hs[i..]) == ListTable(c, e.table, e.max, hs) || !ok
        invariant ok ==> total == done + ListBytes(c, ctx.Table(), e.max, hs[i..])
        invariant ok ==> bufs.NonEmptyAhead() && bufs.Content() == x + done && bufs.Room() == old(bufs.Room()) - |done|
        invariant !ok ==> |total| > old(bufs.Room())
      {
        ghost var t := ctx.Table();
        NextHeader(c, t, e.max, hs, i);
        ok := DeflateNv(bufs, hs[i]);
        ghost var bs := HeaderBytes(c, t, e.max, hs[i]);
        assert x + done + bs == x + (done + bs);
        assert done + (bs + ListBytes(c, ctx.Table(), e.max, hs[i + 1..]))
               == done + bs + ListBytes(c, ctx.Table(), e.max, hs[i + 1..]);
        done := done + bs;
        i := i + 1;
      }
      if !ok {
        MarkBad();
        return;
      }
      NoHeaders(c, ctx.Table(), e.max, hs);
    }

    /** `nghttp2_hd_deflate_hd` into one buffer of `buflen` octets. A buffer of the size that
        `nghttp2_hd_deflate_bound` names always suffices. */
    method DeflateHd(buflen: nat, hs: seq<Header>) returns (ok: bool, out: seq<byte>)
      requires Valid() && !bad && Good(c.code)
      requires forall i :: 0 <= i < |hs| ==> |hs[i].name| <= UINT32_MAX && |hs[i].value| <= UINT32_MAX
      modifies this, ctx, ctx.ring, ctx.ring.buffer, ctx.ring.entries, index.table
      ensures Valid() && Kept()
      ensures ok ==> out == BlockBytes(c, old(Abs()), hs) && Abs() == EncoderAfter(c, old(Abs()), hs)
      ensures (ok <==> |BlockBytes(c, old(Abs()), hs)| <= buflen) && bad == !ok
      ensures buflen >= DeflateBound(hs) && ShortStrings(hs) ==> ok
    {
      hide Fields, Size, Numbered, Slot, LookupToken, HashFrom, Bucket, Chain, Distinct, Tagged, Good, BlockBytes,
        EncoderAfter, DeflateBound;
      ghost var e := Abs();
      var bufs := new Bufs(buflen, 1, 0);
      assert Times(1, buflen) == buflen;
      ok := DeflateHdBufs(bufs, hs);
      out := bufs.RemoveCopy();
      if ShortStrings(hs) {
        BlockWithinBound(c, e, hs);
      }
    }

    /** `nghttp2_hd_deflate_hd_vec` into several buffers of any lengths, none of them empty but perhaps
        the first. */
    method DeflateHdVec(lengths: seq<nat>, hs: seq<Header>) returns (ok: bool, out: seq<byte>)
      requires Valid() && !bad && Good(c.code) && forall i :: 0 < i < |lengths| ==> lengths[i] > 0
      requires forall i :: 0 <= i < |hs| ==> |hs[i].name| <= UINT32_MAX && |hs[i].value| <= UINT32_MAX
      modifies this, ctx, ctx.ring, ctx.ring.buffer, ctx.ring.entries, index.table
      ensures Valid() && Kept()
      ensures ok ==> out == BlockBytes(c, old(Abs()), hs) && Abs() == EncoderAfter(c, old(Abs()), hs)
      ensures (ok <==> |BlockBytes(c, old(Abs()), hs)| <= Total(lengths)) && bad == !ok
      ensures Total(lengths) >= DeflateBound(hs) && ShortStrings(hs) ==> ok
    {
      hide Fields, Size, Numbered, Slot, LookupToken, HashFrom, Bucket, Chain, Distinct, Tagged, Good, BlockBytes,
        EncoderAfter, DeflateBound, Total;
      ghost var e := Abs();
      var bufs := new Bufs.Wrap(lengths);
      ok := DeflateHdBufs(bufs, hs);
      out := bufs.RemoveCopy();
      if ShortStrings(hs) {
        BlockWithinBound(c, e, hs);
      }
    }
  }

  lemma NextHeader(c: Consts, t: seq<Field>, max: nat, hs: seq<Header>, i: nat)
    requires i < |hs|
    ensures ListBytes(c, t, max, hs[i..])
            == HeaderBytes(c, t, max, hs[i]) + ListBytes(c, TableAfter(c, t, max, hs[i]), max, hs[i + 1..])
    ensures ListTable(c, t, max, hs[i..]) == ListTable(c, TableAfter(c, t, max, hs[i]), max, hs[i + 1..])
  {
    assert hs[i..][0] == hs[i] && hs[i..][1..] == hs[i + 1..];
  }

  lemma NoHeaders(c: Consts, t: seq<Field>, max: nat, hs: seq<Header>)
    ensures ListBytes(c, t, max, hs[|hs|..]) == [] && ListTable(c, t, max, hs[|hs|..]) == t
  {
    assert hs[|hs|..] == [];
  }

  lemma PositionOf(es: seq<Entry>, next: nat, k: nat)
    requires next < TWO32 && Numbered(es, next) && k < |es| && |es| + STATIC_LENGTH < TWO32
    ensures (next + 2 * TWO32 - 1 - es[k].seqNo + STATIC_LENGTH) % TWO32 == k + STATIC_LENGTH
  {
    SeqIndex(next, k);
  }
}
