/** The inflater as a machine that reads one octet at a time. Folding it over a block is the
    meaning that `nghttp2_hd_inflate_hd_nv` must have however the block is cut into calls. */
module HpackDecode {
  import opened Bytes
  import PrefixInt
  import opened HuffmanCode
  import HuffmanCodec
  import opened HpackTable
  import opened HpackEncode

  const MAX_NV: nat := 65536

  datatype Opcode = OpNone | OpIndexed | OpNewName | OpIndName

  datatype State =
    | ExpectTableSize | InflateStart | AtOpcode
    | ReadTableSize | ReadIndex
    | CheckNameLen | ReadNameLen | ReadNameHuff | ReadName
    | CheckValueLen | ReadValueLen | ReadValueHuff | ReadValue
  {
    predicate OfInteger() { ReadTableSize? || ReadIndex? || ReadNameLen? || ReadValueLen? }
    predicate OfName() { ReadName? || ReadNameHuff? }
    predicate OfValue() { ReadValue? || ReadValueHuff? }
    predicate OfString() { OfName() || OfValue() }
    predicate Plain() { ReadName? || ReadValue? }
    predicate Coded() { ReadNameHuff? || ReadValueHuff? }
    predicate First() { ExpectTableSize? || InflateStart? || AtOpcode? }
    predicate Between() { ExpectTableSize? || InflateStart? }
    predicate Complete() { AtOpcode? || InflateStart? }
  }

  /** The inflater's fields. */
  datatype Decoder = Decoder(
    table: seq<Field>, max: nat, settingsMax: nat, minMax: nat,
    state: State, opcode: Opcode, left: nat, shift: nat, index: nat,
    huff: HuffmanCodec.Context, huffman: bool, indexRequired: bool, noIndex: bool,
    name: seq<byte>, value: seq<byte>)
  {
    predicate ReadingInt() { state.OfInteger() }

    predicate ReadingString() { state.OfString() }

    predicate PastIndex()
    {
      state.CheckValueLen? || state.ReadValueLen? || state.OfString()
    }

    /** What holds of a decoder between octets. */
    ghost predicate Valid()
    {
      && Size(table) <= max
      && (state.OfValue() ==> left > 0)
      && (ReadingInt() && left == 0 ==> shift == 0)
      && (ReadingInt() ==> left <= Limit(this))
      && (PastIndex() && opcode != OpNewName ==> index < STATIC_LENGTH + |table|)
      && (state.Coded() ==> huff.accept == Accepting(huff.state))
      && (state == ReadNameHuff && left == 0 ==> huff.accept)
      && (state.CheckNameLen? || state.ReadNameLen? || state.OfName() ==> opcode == OpNewName)
    }
  }

  /** The outcome of reading octets: the decoder afterwards, what was emitted, whether all went well. */
  datatype Outcome = Outcome(d: Decoder, out: seq<Header>, ok: bool)

  /** After an error the context is marked bad: only the tables keep a meaning. */
  function Fail(d: Decoder): Outcome
  {
    Outcome(InitDecoder().(table := d.table, max := d.max, settingsMax := d.settingsMax, minMax := d.minMax), [], false)
  }

  function Quiet(d: Decoder): Outcome { Outcome(d, [], true) }

  /** `nghttp2_hd_inflate_init`. */
  function InitDecoder(): Decoder
  {
    Decoder([], DEFAULT_TABLE_SIZE, DEFAULT_TABLE_SIZE, UINT32_MAX, InflateStart, OpNone, 0, 0, 0,
            HuffmanCodec.Context([], true), false, false, false, [], [])
  }

  /** `nghttp2_hd_inflate_change_table_size`, called between blocks. */
  function ResizeDecoder(d: Decoder, size: nat): Decoder
  {
    var d1 := if d.max > size then d.(state := ExpectTableSize, minMax := size) else d;
    d1.(settingsMax := size, max := size, table := Shrink(d.table, size))
  }

  lemma ResizeValid(d: Decoder, size: nat)
    requires d.Valid() && d.state.Between()
    ensures ResizeDecoder(d, size).Valid()
  {
    hide Accepting, Shrink, Size;
  }

  function Prefix(d: Decoder): (p: nat)
    ensures 1 <= p <= 8
  {
    match d.state
    case ReadTableSize => 5
    case ReadIndex => if d.opcode == OpIndexed then 7 else if d.indexRequired then 6 else 4
    case _ => 7
  }

  /** The largest value `hd_inflate_read_len` lets through. */
  function Limit(d: Decoder): nat
  {
    match d.state
    case ReadTableSize => Min(d.minMax, d.settingsMax)
    case ReadIndex => STATIC_LENGTH + |d.table|
    case _ => MAX_NV
  }

  /** `hd_inflate_commit_newname` and `hd_inflate_commit_indname`. */
  function Commit(c: Consts, d: Decoder): Outcome
    requires d.opcode != OpNewName ==> d.index < STATIC_LENGTH + |d.table|
  {
    var name := if d.opcode == OpNewName then d.name else Get(c.fixed, d.table, d.index).name;
    var table := if d.indexRequired then Insert(d.table, Field(name, d.value), d.max) else d.table;
    Outcome(d.(table := table, state := AtOpcode), [Header(name, d.value, d.noIndex)], true)
  }

  /** What a complete integer `v` within the limit does. */
  function AfterInt(c: Consts, d: Decoder, v: nat): Outcome
    requires d.Valid() && d.ReadingInt() && v <= Limit(d)
  {
    var d1 := d.(left := v, shift := 0);
    if d.state == ReadTableSize then
      Quiet(d1.(minMax := UINT32_MAX, max := v, table := Shrink(d.table, v), state := InflateStart))
    else if d.state == ReadIndex then
      if v == 0 then Fail(d)
      else if d.opcode == OpIndexed then
        var f := Get(c.fixed, d.table, v - 1);
        Outcome(d1.(index := v - 1, state := AtOpcode), [Header(f.name, f.value, false)], true)
      else Quiet(d1.(index := v - 1, state := CheckValueLen))
    else if d.state == ReadNameLen then
      if d.huffman
      then Quiet(d1.(huff := HuffmanCodec.Context([], true), name := [], state := ReadNameHuff))
      else Quiet(d1.(name := [], state := ReadName))
    else
      var d2 := if d.huffman
                then d1.(huff := HuffmanCodec.Context([], true), value := [], state := ReadValueHuff)
                else d1.(value := [], state := ReadValue);
      if v == 0 then Commit(c, d2) else Quiet(d2)
  }

  function IntOutcome(c: Consts, d: Decoder, p: PrefixInt.Progress): Outcome
    requires d.Valid() && d.ReadingInt()
  {
    match p
    case Failed => Fail(d)
    case More(n, s) => if n > Limit(d) then Fail(d) else Quiet(d.(left := n, shift := s))
    case Done(v) => if v > Limit(d) then Fail(d) else AfterInt(c, d, v)
  }

  function StepInt(c: Consts, d: Decoder, b: byte): Outcome
    requires d.Valid() && d.ReadingInt()
  {
    IntOutcome(c, d, PrefixInt.Step(d.left, d.shift, b, Prefix(d)))
  }

  /** `(b & 0xe0) == 0x20`. */
  predicate IsSizeUpdate(b: byte) { 32 <= b < 64 }

  predicate IsLiteral(b: byte) { b < 128 && !IsSizeUpdate(b) }

  function OpcodeOf(b: byte): Opcode
  {
    if !IsLiteral(b) then OpIndexed else if b == 0x40 || b == 0 || b == 0x10 then OpNewName else OpIndName
  }

  function StateOf(b: byte): State
  {
    if IsSizeUpdate(b) then ReadTableSize else if OpcodeOf(b) == OpNewName then CheckNameLen else ReadIndex
  }

  /** The decoder that the first octet `b` of a representation selects, before `b` is consumed. */
  function Opened(d: Decoder, b: byte): Decoder
  {
    d.(left := 0, shift := 0, opcode := OpcodeOf(b), state := StateOf(b),
       indexRequired := if IsLiteral(b) then b >= 64 else d.indexRequired,
       noIndex := if IsLiteral(b) then 16 <= b < 32 else d.noIndex)
  }

  function StepOpcode(c: Consts, d: Decoder, b: byte): Outcome
    requires d.Valid()
  {
    var o := Opened(d, b);
    if o.state == ReadTableSize && d.state == AtOpcode then Fail(d)
    else if o.state == CheckNameLen then Quiet(o)
    else StepInt(c, o, b)
  }

  /** The decoder when a string length begins at octet `b`. */
  function OpenedString(d: Decoder, b: byte, s: State): Decoder
  {
    d.(huffman := b >= 128, state := s, left := 0, shift := 0)
  }

  /** The decoder after the octets `bs` of a string body, whose plain or decoded bytes are `bytes`. */
  function StringAfter(d: Decoder, bytes: seq<byte>, n: nat): Decoder
    requires n <= d.left
  {
    var d1 := d.(left := d.left - n);
    if d.state.OfName()
    then d1.(name := d.name + bytes, state := if d1.left == 0 then CheckValueLen else d.state)
    else d1.(value := d.value + bytes)
  }

  /** What the octets `bs` of a string body do. */
  function StringOutcome(c: Consts, d: Decoder, bs: seq<byte>): Outcome
    requires d.Valid() && d.ReadingString() && 0 < |bs| <= d.left
  {
    if d.state.Plain() then
      Finish(c, StringAfter(d, bs, |bs|))
    else
      var r := HuffmanCodec.DecodeBytes(c.code, d.huff.state, bs);
      if !r.ok || (|bs| == d.left && !Accepting(r.pend)) then Fail(d)
      else Finish(c, StringAfter(d.(huff := HuffmanCodec.Context(r.pend, Accepting(r.pend))), r.out, |bs|))
  }

  function Finish(c: Consts, d: Decoder): Outcome
    requires d.opcode != OpNewName ==> d.index < STATIC_LENGTH + |d.table|
  {
    if d.state.OfValue() && d.left == 0 then Commit(c, d) else Quiet(d)
  }

  function StepString(c: Consts, d: Decoder, b: byte): Outcome
    requires d.Valid() && d.ReadingString() && d.left > 0
  {
    StringOutcome(c, d, [b])
  }

  /** One octet of a header block. */
  function Step(c: Consts, d: Decoder, b: byte): Outcome
    requires d.Valid()
  {
    if d.state.First() then
      if d.state == ExpectTableSize && !IsSizeUpdate(b) then Fail(d) else StepOpcode(c, d, b)
    else if d.state == CheckNameLen then StepInt(c, OpenedString(d, b, ReadNameLen), b)
    else if d.ReadingInt() then StepInt(c, d, b)
    else if d.state == CheckValueLen || d.left == 0 then StepInt(c, OpenedString(d, b, ReadValueLen), b)
    else StepString(c, d, b)
  }

  lemma CommitValid(c: Consts, d: Decoder)
    requires d.opcode != OpNewName ==> d.index < STATIC_LENGTH + |d.table|
    requires Size(d.table) <= d.max
    ensures Commit(c, d).d.Valid()
  {
    var name := if d.opcode == OpNewName then d.name else Get(c.fixed, d.table, d.index).name;
    InsertFits(d.table, Field(name, d.value), d.max);
  }

  lemma AfterIntValid(c: Consts, d: Decoder, v: nat)
    requires d.Valid() && d.ReadingInt() && v <= Limit(d)
    ensures var r := AfterInt(c, d, v); r.ok ==> r.d.Valid()
  {
    hide Commit, Size, Shrink;
    if d.state == ReadValueLen && v == 0 {
      var d1 := d.(left := v, shift := 0);
      var d2 := if d.huffman
                then d1.(huff := HuffmanCodec.Context([], true), value := [], state := ReadValueHuff)
                else d1.(value := [], state := ReadValue);
      CommitValid(c, d2);
    }
  }

  lemma StepIntValid(c: Consts, d: Decoder, b: byte)
    requires d.Valid() && d.ReadingInt()
    ensures var r := StepInt(c, d, b); r.ok ==> r.d.Valid()
  {
    hide AfterInt, PrefixInt.Step;
    match PrefixInt.Step(d.left, d.shift, b, Prefix(d))
    case Failed =>
    case More(n, s) => PartialPositive(d.left, d.shift, b, Prefix(d));
    case Done(v) => if v <= Limit(d) { AfterIntValid(c, d, v); }
  }

  lemma PartialPositive(n: nat, shift: nat, b: byte, prefix: nat)
    requires 1 <= prefix <= 8
    ensures var r := PrefixInt.Step(n, shift, b, prefix); r.More? ==> r.n > 0
  {
    PrefixInt.PrefixRoom(prefix);
  }

  lemma AfterValid(d: Decoder, h: HuffmanCodec.Context, bytes: seq<byte>, n: nat)
    requires d.Valid() && d.ReadingString() && n <= d.left && (d.state.Coded() ==> h.accept == Accepting(h.state))
    ensures var e := StringAfter(d.(huff := h), bytes, n);
            && (e.opcode != OpNewName ==> e.index < STATIC_LENGTH + |e.table|) && Size(e.table) <= e.max
            && (e.state == ReadNameHuff && e.left == 0 ==> h.accept)
            && (!(e.state.OfValue() && e.left == 0) ==> e.Valid())
  {
    hide Size, Accepting, Limit;
  }

  lemma StringValid(c: Consts, d: Decoder, bs: seq<byte>)
    requires d.Valid() && d.ReadingString() && 0 < |bs| <= d.left
    ensures var r := StringOutcome(c, d, bs); r.ok ==> r.d.Valid()
  {
    hide Commit, Size, HuffmanCodec.DecodeBytes, Accepting, Limit, Decoder.Valid, StringAfter;
    var r := HuffmanCodec.DecodeBytes(c.code, d.huff.state, bs);
    if d.state.Plain() { AfterValid(d, d.huff, bs, |bs|); }
    AfterValid(d, HuffmanCodec.Context(r.pend, Accepting(r.pend)), r.out, |bs|);
    var e := if d.state.Plain() then StringAfter(d, bs, |bs|)
             else StringAfter(d.(huff := HuffmanCodec.Context(r.pend, Accepting(r.pend))), r.out, |bs|);
    CommitValid(c, e);
  }

  lemma StepOpcodeValid(c: Consts, d: Decoder, b: byte)
    requires d.Valid()
    ensures var r := StepOpcode(c, d, b); r.ok ==> r.d.Valid()
  {
    hide StepInt;
    var o := Opened(d, b);
    if o.state != CheckNameLen { StepIntValid(c, o, b); }
  }

  lemma StepValid(c: Consts, d: Decoder, b: byte)
    requires d.Valid()
    ensures var r := Step(c, d, b); r.ok ==> r.d.Valid()
  {
    hide StepInt, StepOpcode, StringOutcome;
    if d.state.First() {
      StepOpcodeValid(c, d, b);
    } else if d.state == CheckNameLen {
      StepIntValid(c, OpenedString(d, b, ReadNameLen), b);
    } else if d.ReadingInt() {
      StepIntValid(c, d, b);
    } else if d.state == CheckValueLen || d.left == 0 {
      StepIntValid(c, OpenedString(d, b, ReadValueLen), b);
    } else {
      StringValid(c, d, [b]);
    }
  }

  /** Reading a run of octets; nothing is read after a failure. */
  function Fold(c: Consts, d: Decoder, bs: seq<byte>): (r: Outcome)
    requires d.Valid()
    ensures r.ok ==> r.d.Valid()
    decreases |bs|
  {
    if bs == [] then Quiet(d)
    else
      StepValid(c, d, bs[0]);
      var r := Step(c, d, bs[0]);
      if !r.ok then r
      else
        var s := Fold(c, r.d, bs[1..]);
        Outcome(s.d, r.out + s.out, s.ok)
  }

  lemma {:induction false} FoldAppend(c: Consts, d: Decoder, a: seq<byte>, b: seq<byte>)
    requires d.Valid()
    ensures var r := Fold(c, d, a);
            Fold(c, d, a + b) == if !r.ok then r
                                 else var s := Fold(c, r.d, b); Outcome(s.d, r.out + s.out, s.ok)
    decreases |a|
  {
    hide Step;
    if a == [] {
      assert a + b == b;
      assert [] + Fold(c, d, b).out == Fold(c, d, b).out;
    } else {
      assert (a + b)[1..] == a[1..] + b;
      StepValid(c, d, a[0]);
      var r := Step(c, d, a[0]);
      if r.ok {
        FoldAppend(c, r.d, a[1..], b);
      }
    }
  }

  /** Octets of an integer, read one at a time, do what `PrefixInt.Read` says about all of them. */
  lemma {:induction false} FoldInt(c: Consts, d: Decoder, bs: seq<byte>)
    requires d.Valid() && d.ReadingInt()
    requires PrefixInt.Read(d.left, d.shift, bs, Prefix(d)).1 == |bs|
    ensures Fold(c, d, bs) == IntOutcome(c, d, PrefixInt.Read(d.left, d.shift, bs, Prefix(d)).0)
    decreases |bs|
  {
    hide PrefixInt.Step, AfterInt, Size, Accepting, Shrink;
    if bs != [] {
      StepValid(c, d, bs[0]);
      match PrefixInt.Step(d.left, d.shift, bs[0], Prefix(d))
      case More(n, s) =>
        PartialPositive(d.left, d.shift, bs[0], Prefix(d));
        PrefixInt.ReadGrows(n, s, bs[1..], Prefix(d));
        if n <= Limit(d) {
          var d1 := d.(left := n, shift := s);
          FoldInt(c, d1, bs[1..]);
          SameIntOutcome(c, d, n, s, PrefixInt.Read(n, s, bs[1..], Prefix(d)).0);
        }
      case _ =>
        assert bs[1..] == [];
    }
  }

  lemma SameIntOutcome(c: Consts, d: Decoder, n: nat, s: nat, p: PrefixInt.Progress)
    requires d.Valid() && d.ReadingInt() && d.(left := n, shift := s).Valid()
    ensures IntOutcome(c, d.(left := n, shift := s), p) == IntOutcome(c, d, p)
  {
    hide Commit;
  }

  /** A string body cut after its first octet. */
  lemma StringSplit(c: Consts, d: Decoder, b: byte, rest: seq<byte>)
    requires d.Valid() && d.ReadingString() && rest != [] && 1 + |rest| <= d.left
    ensures var r := StringOutcome(c, d, [b]);
            && (!r.ok ==> StringOutcome(c, d, [b] + rest) == r)
            && (r.ok ==> && r.out == [] && r.d.Valid() && r.d.ReadingString() && r.d.left == d.left - 1
                         && StringOutcome(c, d, [b] + rest) == StringOutcome(c, r.d, rest))
  {
    StringValid(c, d, [b]);
    if d.state.Plain() {
      PlainSplit(c, d, b, rest);
    } else {
      CodedSplit(c, d, b, rest);
    }
  }

  /** While octets of the body are missing the decoder stays where it is. */
  lemma AfterSome(d: Decoder, bytes: seq<byte>, n: nat)
    requires d.ReadingString() && n < d.left
    ensures var e := StringAfter(d, bytes, n);
            e.state == d.state && e.left == d.left - n && e.huff == d.huff && e.ReadingString() && Fail(e) == Fail(d)
  {}

  lemma PlainSplit(c: Consts, d: Decoder, b: byte, rest: seq<byte>)
    requires d.Valid() && d.state.Plain() && rest != [] && 1 + |rest| <= d.left
    requires var r := StringOutcome(c, d, [b]); r.ok ==> r.d.Valid()
    ensures var r := StringOutcome(c, d, [b]);
            && r.ok && r.out == [] && r.d.ReadingString() && r.d.left == d.left - 1
            && StringOutcome(c, d, [b] + rest) == StringOutcome(c, r.d, rest)
  {
    hide Commit, Decoder.Valid, StringAfter;
    AfterSome(d, [b], 1);
    AfterPlain(d, [b], rest, |rest|);
  }

  /** The first of several octets only changes the decoder, or fails. */
  lemma CodedFirst(c: Consts, d: Decoder, b: byte)
    requires d.Valid() && d.state.Coded() && 1 < d.left
    ensures var x := HuffmanCodec.DecodeBytes(c.code, d.huff.state, [b]);
            StringOutcome(c, d, [b]) ==
            if !x.ok then Fail(d)
            else Quiet(StringAfter(d.(huff := HuffmanCodec.Context(x.pend, Accepting(x.pend))), x.out, 1))
  {
    hide Commit, HuffmanCodec.DecodeBytes, Accepting, Decoder.Valid, StringAfter;
    var x := HuffmanCodec.DecodeBytes(c.code, d.huff.state, [b]);
    AfterSome(d.(huff := HuffmanCodec.Context(x.pend, Accepting(x.pend))), x.out, 1);
  }

  lemma CodedSplit(c: Consts, d: Decoder, b: byte, rest: seq<byte>)
    requires d.Valid() && d.state.Coded() && rest != [] && 1 + |rest| <= d.left
    requires var r := StringOutcome(c, d, [b]); r.ok ==> r.d.Valid()
    ensures var r := StringOutcome(c, d, [b]);
            && (!r.ok ==> StringOutcome(c, d, [b] + rest) == r)
            && (r.ok ==> && r.out == [] && r.d.ReadingString() && r.d.left == d.left - 1
                         && StringOutcome(c, d, [b] + rest) == StringOutcome(c, r.d, rest))
  {
    hide Commit, HuffmanCodec.DecodeBytes, Accepting, Decoder.Valid, StringAfter, Finish;
    HuffmanCodec.DecodeSplit(c.code, d.huff.state, [b], rest);
    var x := HuffmanCodec.DecodeBytes(c.code, d.huff.state, [b]);
    CodedFirst(c, d, b);
    if x.ok {
      var h := HuffmanCodec.Context(x.pend, Accepting(x.pend));
      AfterSome(d.(huff := h), x.out, 1);
      var y := HuffmanCodec.DecodeBytes(c.code, x.pend, rest);
      AfterAfter(d, h, HuffmanCodec.Context(y.pend, Accepting(y.pend)), x.out, y.out, |rest|);
    }
  }

  lemma AfterPlain(d: Decoder, a: seq<byte>, b: seq<byte>, n: nat)
    requires d.state.OfString() && 0 < n && 1 + n <= d.left
    ensures StringAfter(StringAfter(d, a, 1), b, n) == StringAfter(d, a + b, 1 + n)
  {
    assert d.name + a + b == d.name + (a + b);
    assert d.value + a + b == d.value + (a + b);
  }

  lemma AfterAfter(d: Decoder, h1: HuffmanCodec.Context, h2: HuffmanCodec.Context,
                   a: seq<byte>, b: seq<byte>, n: nat)
    requires d.state.OfString() && 0 < n && 1 + n <= d.left
    ensures StringAfter(StringAfter(d.(huff := h1), a, 1).(huff := h2), b, n)
            == StringAfter(d.(huff := h2), a + b, 1 + n)
  {
    assert d.name + a + b == d.name + (a + b);
    assert d.value + a + b == d.value + (a + b);
  }

  /** Octets of a string body, read one at a time, do what decoding all of them does. */
  lemma {:induction false} FoldString(c: Consts, d: Decoder, bs: seq<byte>)
    requires d.Valid() && d.ReadingString() && 0 < |bs| <= d.left
    ensures Fold(c, d, bs) == StringOutcome(c, d, bs)
    decreases |bs|
  {
    hide StringOutcome, Size, Accepting;
    StepValid(c, d, bs[0]);
    var rest := bs[1..];
    assert bs == [bs[0]] + rest;
    if rest == [] {
      assert bs == [bs[0]];
    } else {
      StringSplit(c, d, bs[0], rest);
      var r := StringOutcome(c, d, [bs[0]]);
      if r.ok {
        FoldString(c, r.d, rest);
      }
    }
  }
}
