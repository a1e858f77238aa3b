/** `nghttp2_hd_inflate_hd_nv` as the source runs it: a loop over states that takes as many octets
    at once as the state allows. Each call is proved equal to the octet-at-a-time machine. */
module Inflater {
  import opened Bytes
  import PrefixInt
  import opened HuffmanCode
  import HuffmanCodec
  import opened HpackTable
  import opened HpackEncode
  import opened HpackDecode
  import opened HpackLockstep
  import opened HdContext
  import opened RingBuffer

  /** Why the loop goes on or stops. */
  datatype Status = Continue | Broken | NeedMore | Emitted(h: Header)

  /** The return value of one call: an error, or the octets used, what was emitted and the FINAL flag. */
  datatype CallResult = Error | Used(n: nat, out: seq<Header>, finished: bool)

  lemma {:induction false} ReadTaken(n: nat, shift: nat, bs: seq<byte>, prefix: nat)
    requires 1 <= prefix <= 8
    ensures var r := PrefixInt.Read(n, shift, bs, prefix);
            PrefixInt.Read(n, shift, bs[..r.1], prefix) == r
    decreases |bs|
  {
    hide PrefixInt.Step;
    if bs != [] {
      match PrefixInt.Step(n, shift, bs[0], prefix)
      case More(n', s') =>
        ReadTaken(n', s', bs[1..], prefix);
        var u := PrefixInt.Read(n, shift, bs, prefix).1;
        assert bs[..u][0] == bs[0] && bs[..u][1..] == bs[1..][..u - 1];
      case _ =>
        assert bs[..1][0] == bs[0];
    }
  }

  /** `d` stands at octet `i` of `input` after the octets before it, up to bookkeeping that the next
      octet alone decides. */
  ghost predicate Standing(c: Consts, d0: Decoder, input: seq<byte>, i: nat, dp: Decoder, d: Decoder)
  {
    && d0.Valid() && dp.Valid() && d.Valid() && i <= |input|
    && Fold(c, d0, input[..i]) == Quiet(dp)
    && (d == dp || (i < |input| && Step(c, dp, input[i]) == Step(c, d, input[i])))
  }

  lemma Taking(c: Consts, d0: Decoder, input: seq<byte>, i: nat, dp: Decoder, d: Decoder, j: nat)
    requires Standing(c, d0, input, i, dp, d) && i < j <= |input|
    ensures Fold(c, d0, input[..j]) == Fold(c, d, input[i..j])
  {
    hide Fold, Step;
    assert input[..j] == input[..i] + input[i..j];
    FoldAppend(c, d0, input[..i], input[i..j]);
    FoldFrom(c, dp, d, input[i..j]);
    var r := Fold(c, dp, input[i..j]);
    assert [] + r.out == r.out;
  }

  class Inflater {
    const ctx: Context
    var bad: bool
    var huff: HuffmanCodec.Context
    var name: seq<byte>
    var value: seq<byte>
    var left: nat
    var index: nat
    var settingsMax: nat
    var minMax: nat
    var shift: nat
    var opcode: Opcode
    var state: State
    var huffman: bool
    var indexRequired: bool
    var noIndex: bool

    ghost function Abs(): Decoder
      reads this, ctx, ctx.ring
    {
      Decoder(ctx.Table(), ctx.max, settingsMax, minMax, state, opcode, left, shift, index,
              huff, huffman, indexRequired, noIndex, name, value)
    }

    ghost predicate Valid()
      reads this, ctx, ctx.ring, ctx.ring.buffer
    {
      ctx.Valid() && ctx.max <= UINT32_MAX && settingsMax <= UINT32_MAX && Abs().Valid()
    }

    /** `nghttp2_hd_inflate_init`. */
    constructor ()
      ensures Valid() && !bad && Abs() == InitDecoder()
      ensures fresh(ctx) && fresh(ctx.ring) && fresh(ctx.ring.buffer)
    {
      ctx := new Context(DEFAULT_TABLE_SIZE);
      settingsMax, minMax := DEFAULT_TABLE_SIZE, UINT32_MAX;
      opcode, state := OpNone, InflateStart;
      huff := HuffmanCodec.Context([], true);
      name, value, left, index, shift := [], [], 0, 0, 0;
      huffman, indexRequired, noIndex, bad := false, false, false, false;
      new;
      assert Size([]) == 0;
    }

    /** `nghttp2_hd_inflate_change_table_size`: refused inside a block. */
    method ChangeTableSize(size: nat) returns (ok: bool)
      requires Valid() && size <= UINT32_MAX
      modifies this, ctx, ctx.ring, ctx.ring.entries
      ensures Valid() && bad == old(bad)
      ensures ok <==> old(state.Between())
      ensures Abs() == if ok then ResizeDecoder(old(Abs()), size) else old(Abs())
    {
      hide Size, Shrink, Fields, Numbered, Accepting, Decoder.Valid;
      if !(state.Between()) {
        return false;
      }
      ResizeValid(Abs(), size);
      if ctx.max > size {
        state := ExpectTableSize;
        minMax := size;
      }
      settingsMax := size;
      ctx.max := size;
      ctx.ShrinkTable(null);
      return true;
    }

    /** The states that look at the first octet of a representation. */
    method Dispatch(b: byte) returns (ok: bool, consumed: bool)
      requires Valid() && state.First()
      modifies this
      ensures Valid() && bad == old(bad)
      ensures ok == Dispatches(old(Abs()), b)
      ensures Abs() == if ok then Opened(old(Abs()), b) else old(Abs())
      ensures consumed == (ok && state == CheckNameLen)
    {
      hide Size, Fields, Numbered, Accepting, Slot, Decoder.Valid, OpcodeOf, StateOf, IsLiteral, IsSizeUpdate;
      OpenedValid(Abs(), b);
      if (state == ExpectTableSize && !IsSizeUpdate(b)) || (state == AtOpcode && IsSizeUpdate(b)) {
        return false, false;
      }
      Open(b);
      return true, state == CheckNameLen;
    }

    method OpenAs(b: byte)
      modifies `opcode, `state, `indexRequired, `noIndex
      ensures Abs() == old(Abs()).(opcode := OpcodeOf(b), state := StateOf(b),
                                   indexRequired := if IsLiteral(b) then b >= 64 else old(indexRequired),
                                   noIndex := if IsLiteral(b) then 16 <= b < 32 else old(noIndex))
    {
      hide OpcodeOf, StateOf, IsLiteral, IsSizeUpdate, Context.Table;
      var op, st, required, never := Classify(b, indexRequired, noIndex);
      opcode, state, indexRequired, noIndex := op, st, required, never;
    }

    method Open(b: byte)
      modifies this
      ensures Abs() == Opened(old(Abs()), b) && bad == old(bad)
    {
      hide OpcodeOf, StateOf, IsLiteral, IsSizeUpdate, Context.Table;
      left, shift := 0, 0;
      OpenAs(b);
    }

    ghost predicate Sound()
      reads this, ctx, ctx.ring, ctx.ring.buffer
    {
      ctx.Valid() && ctx.max <= UINT32_MAX && settingsMax <= UINT32_MAX
    }

    /** `hd_inflate_read_len`. The source keeps the last shift when the integer ends; the next
        integer resets it before use, and it is reset here at once. */
    method ReadLen(input: seq<byte>, i: nat, prefix: nat, maxlen: nat) returns (status: Status, used: nat)
      requires i < |input| && 1 <= prefix <= 8
      modifies `left, `shift
      ensures var (r, u) := PrefixInt.Read(old(left), old(shift), input[i..], prefix);
              && used == u
              && (status.Broken? <==> r.Failed? || (r.More? && r.n > maxlen) || (r.Done? && r.value > maxlen))
              && (status.NeedMore? <==> r.More? && r.n <= maxlen)
              && (status.NeedMore? ==> left == r.n && shift == r.shift)
              && (status.Continue? <==> r.Done? && r.value <= maxlen)
              && (status.Continue? ==> left == r.value && shift == 0)
      ensures !status.Emitted?
    {
      hide PrefixInt.Read;
      var r;
      r, used := PrefixInt.DecodeLength(input, i, left, shift, prefix);
      match r
      case Failed => status := Broken;
      case More(n, s) =>
        if n > maxlen { return Broken, used; }
        left, shift := n, s;
        status := NeedMore;
      case Done(v) =>
        if v > maxlen { return Broken, used; }
        left, shift := v, 0;
        status := Continue;
    }

    /** A complete table size update. */
    method FinishTableSize(c: Consts, ghost d: Decoder)
      requires Sound() && d.Valid() && d.state == ReadTableSize && left <= Limit(d)
      requires Abs() == d.(left := left, shift := 0)
      modifies this, ctx, ctx.ring, ctx.ring.entries
      ensures Sound() && bad == old(bad) && AfterInt(c, d, old(left)) == Quiet(Abs())
      ensures ctx.ring.buffer == old(ctx.ring.buffer) && ctx.ring.entries <= old(ctx.ring.entries)
    {
      hide Fields, Size, Shrink, Numbered, Slot;
      minMax := UINT32_MAX;
      ctx.max := left;
      ctx.ShrinkTable(null);
      state := InflateStart;
    }

    /** A complete index. */
    method FinishIndex(c: Consts, ghost d: Decoder) returns (status: Status)
      requires Sound() && d.Valid() && d.state == ReadIndex && left <= Limit(d)
      requires Abs() == d.(left := left, shift := 0)
      modifies this
      ensures Sound() && bad == old(bad) && !status.NeedMore?
      ensures status.Broken? ==> AfterInt(c, d, old(left)) == HpackDecode.Fail(d) && Abs() == old(Abs())
      ensures status.Continue? ==> AfterInt(c, d, old(left)) == Quiet(Abs())
      ensures status.Emitted? ==> AfterInt(c, d, old(left)) == Outcome(Abs(), [status.h], true)
    {
      hide Size, Numbered, Slot, Decoder.Valid, Context.Valid, Context.Table;
      if left == 0 {
        return Broken;
      }
      if opcode == OpIndexed {
        var f := TableGet(c, left - 1);
        MoveOn(left - 1, AtOpcode);
        return Emitted(Header(f.name, f.value, false));
      }
      MoveOn(left - 1, CheckValueLen);
      status := Continue;
    }

    method MoveOn(i: nat, st: State)
      modifies `index, `state
      ensures Abs() == old(Abs()).(index := i, state := st)
    {
      index, state := i, st;
    }

    /** `nghttp2_hd_table_get`. */
    method TableGet(c: Consts, idx: nat) returns (f: Field)
      requires ctx.Valid() && idx < STATIC_LENGTH + |ctx.Table()|
      ensures f == Get(c.fixed, ctx.Table(), idx)
    {
      if idx >= STATIC_LENGTH {
        var e := ctx.ring.Get(idx - STATIC_LENGTH);
        return Field(e.name, e.value);
      }
      f := c.fixed[idx];
    }

    /** A complete string length: the string buffer is reset. */
    method FinishLength(c: Consts, ghost d: Decoder)
      requires Sound() && d.Valid() && (d.state == ReadNameLen || d.state == ReadValueLen) && left <= Limit(d)
      requires Abs() == d.(left := left, shift := 0)
      modifies `state, `huff, `name, `value
      ensures Sound() && StringReady(Abs()) && (d.state == ReadValueLen ==> Abs().state.OfValue())
      ensures AfterInt(c, d, old(left)) == Finish(c, Abs())
      ensures d.state == ReadNameLen ==> AfterInt(c, d, old(left)) == Quiet(Abs())
    {
      hide Size, Numbered, Slot, Fields;
      var isName := state == ReadNameLen;
      if huffman {
        huff := HuffmanCodec.Context([], true);
      }
      state := if isName then (if huffman then ReadNameHuff else ReadName)
               else if huffman then ReadValueHuff else ReadValue;
      if isName {
        name := [];
      } else {
        value := [];
      }
    }

    /** `hd_inflate_commit_newname` and `hd_inflate_commit_indname`. */
    method CommitLiteral(c: Consts) returns (h: Header)
      requires Sound() && Size(ctx.Table()) <= ctx.max
      requires opcode != OpNewName ==> index < STATIC_LENGTH + |ctx.Table()|
      modifies `state, ctx, ctx.ring, ctx.ring.buffer, ctx.ring.entries
      ensures Sound() && Commit(c, old(Abs())) == Outcome(Abs(), [h], true)
      ensures ctx.ring.buffer == old(ctx.ring.buffer) || fresh(ctx.ring.buffer)
      ensures forall i :: 0 <= i < |ctx.ring.entries| ==>
                ctx.ring.entries[i] in old(ctx.ring.entries) || fresh(ctx.ring.entries[i])
    {
      hide Size, Numbered, Slot, Fields, HpackTable.Insert, LookupToken;
      var full := name;
      if opcode != OpNewName {
        var f := TableGet(c, index);
        full := f.name;
      }
      if indexRequired {
        ctx.Add(full, value, LookupToken(c.fixed, full), 0, null);
      }
      state := AtOpcode;
      h := Header(full, value, noIndex);
    }

    method AppendString(bytes: seq<byte>, n: nat)
      requires n <= left
      modifies `name, `value, `left
      ensures Abs() == Taken(old(Abs()), bytes, n)
    {
      hide Fields;
      if state.OfName() {
        name := name + bytes;
      } else {
        value := value + bytes;
      }
      left := left - n;
    }

    /** `hd_inflate_read`: plain octets. */
    method TakePlain(bs: seq<byte>)
      requires |bs| <= left
      modifies `name, `value, `left
      ensures Abs() == Taken(old(Abs()), bs, |bs|)
    {
      AppendString(bs, |bs|);
    }

    /** `hd_inflate_read_huff`. */
    method TakeCoded(c: Consts, bs: seq<byte>) returns (ok: bool)
      requires Good(c.code) && |bs| <= left && huff.accept == Accepting(huff.state)
      modifies `huff, `name, `value, `left
      ensures !ok ==> Abs() == old(Abs())
      ensures var r := HuffmanCodec.DecodeBytes(c.code, old(huff.state), bs);
              && (ok <==> r.ok && (|bs| == old(left) ==> Accepting(r.pend)))
              && (ok ==> Abs() == Taken(old(Abs()).(huff := HuffmanCodec.Context(r.pend, Accepting(r.pend))),
                                        r.out, |bs|))
    {
      hide Fields, HuffmanCodec.DecodeBytes, Accepting, Taken;
      var next, bytes;
      ok, next, bytes := HuffmanCodec.HuffDecode(c.code, huff, bs, |bs| == left);
      if !ok { return; }
      huff := next;
      AppendString(bytes, |bs|);
    }

    /** Read what is there of the string, and close it when it is complete. */
    method ReadString(c: Consts, bs: seq<byte>) returns (status: Status)
      requires Good(c.code) && Sound() && StringReady(Abs()) && |bs| <= left
      modifies this, ctx, ctx.ring, ctx.ring.buffer, ctx.ring.entries
      ensures Sound() && bad == old(bad)
      ensures ctx.ring.buffer == old(ctx.ring.buffer) || fresh(ctx.ring.buffer)
      ensures forall i :: 0 <= i < |ctx.ring.entries| ==>
                ctx.ring.entries[i] in old(ctx.ring.entries) || fresh(ctx.ring.entries[i])
      ensures StringDone(c, old(Abs()), bs, Abs(), status)
    {
      hide Fields, Size, Accepting, Numbered, Slot, Good, Commit, AfterTake, TakeOk, StringOutcome, Decoder.Valid,
        Context.Valid, Context.Table;
      ghost var d := Abs();
      StringTaken(c, d, bs);
      var ok := Take(c, bs);
      if !ok {
        return Broken;
      }
      if left > 0 {
        return NeedMore;
      }
      if state.OfName() {
        MoveOn(index, CheckValueLen);
        return Continue;
      }
      var h := CommitLiteral(c);
      return Emitted(h);
    }

    method Take(c: Consts, bs: seq<byte>) returns (ok: bool)
      requires Good(c.code) && StringReady(Abs()) && |bs| <= left
      modifies `huff, `name, `value, `left
      ensures ok == TakeOk(c, old(Abs()), bs)
      ensures Abs() == if ok then AfterTake(c, old(Abs()), bs) else old(Abs())
    {
      hide Fields, Size, Accepting, Good, Taken, HuffmanCodec.DecodeBytes;
      ok := true;
      if state.Coded() {
        ok := TakeCoded(c, bs);
      } else {
        TakePlain(bs);
      }
    }

    function PrefixLength(): (p: nat)
      reads this, ctx, ctx.ring
      ensures p == Prefix(Abs())
    {
      if state == ReadTableSize then 5
      else if state != ReadIndex then 7
      else if opcode == OpIndexed then 7
      else if indexRequired then 6
      else 4
    }

    function MaxLength(): (n: nat)
      requires ctx.Valid()
      reads this, ctx, ctx.ring, ctx.ring.buffer
      ensures n == Limit(Abs())
    {
      if state == ReadTableSize then Min(minMax, settingsMax)
      else if state == ReadIndex then ctx.ring.len + STATIC_LENGTH
      else MAX_NV
    }

    ghost predicate SameTables(d: Decoder)
      reads this, ctx, ctx.ring
    {
      ctx.Table() == d.table && ctx.max == d.max && settingsMax == d.settingsMax && minMax == d.minMax
    }

    /** What a complete integer does. */
    method FinishInteger(c: Consts, ghost d: Decoder) returns (status: Status, busy: bool)
      requires Sound() && d.Valid() && d.ReadingInt() && left <= Limit(d)
      requires Abs() == d.(left := left, shift := 0)
      modifies this, ctx, ctx.ring, ctx.ring.entries
      ensures Sound() && bad == old(bad) && ctx.ring.buffer == old(ctx.ring.buffer) && !status.NeedMore?
      ensures ctx.ring.entries <= old(ctx.ring.entries)
      ensures Meets(c, AfterInt(c, d, old(left)), d, Abs(), status, busy)
      ensures status.Broken? ==> SameTables(d)
    {
      hide Fields, Size, Accepting, Numbered, Slot, Commit, AfterInt, Shrink, Decoder.Valid;
      status, busy := Continue, false;
      AfterIntValid(c, d, left);
      if state == ReadTableSize {
        FinishTableSize(c, d);
      } else if state == ReadIndex {
        status := FinishIndex(c, d);
      } else {
        busy := state == ReadValueLen;
        FinishLength(c, d);
      }
    }

    /** The four states that read an integer, from `decode_length` to the state change. */
    method ReadInteger(c: Consts, input: seq<byte>, i: nat) returns (status: Status, used: nat, busy: bool)
      requires Sound() && Abs().Valid() && Abs().ReadingInt() && i < |input|
      modifies this, ctx, ctx.ring, ctx.ring.entries
      ensures Sound() && bad == old(bad) && 0 < used <= |input| - i && ctx.ring.buffer == old(ctx.ring.buffer)
      ensures ctx.ring.entries <= old(ctx.ring.entries)
      ensures IntegerDone(c, old(Abs()), input[i..i + used], Abs(), status, busy)
      ensures status.Broken? ==> SameTables(old(Abs()))
      ensures status.NeedMore? ==> i + used == |input|
    {
      hide Fields, Size, Accepting, Numbered, Slot, PrefixInt.Read, Commit, AfterInt, Fold, Shrink, Decoder.Valid;
      ghost var d := Abs();
      IntegerTaken(c, d, input, i);
      status, used := ReadLen(input, i, PrefixLength(), MaxLength());
      busy := false;
      if status.Continue? {
        status, busy := FinishInteger(c, d);
      }
    }


    /** The CHECK states: note the Huffman bit and start an integer. */
    method OpenString(b: byte, next: State)
      modifies `huffman, `state, `left, `shift
      ensures Abs() == OpenedString(old(Abs()), b, next)
    {
      hide Fields;
      huffman, state, left, shift := b >= 128, next, 0, 0;
    }

    /** Everything the table may have become: the entries are old ones or new objects. */
    twostate predicate Grown()
      reads ctx.ring
    {
      && (ctx.ring.buffer == old(ctx.ring.buffer) || fresh(ctx.ring.buffer))
      && forall i :: 0 <= i < |ctx.ring.entries| ==>
           ctx.ring.entries[i] in old(ctx.ring.entries) || fresh(ctx.ring.entries[i])
    }

    method DispatchRound(c: Consts, input: seq<byte>, i: nat, ghost d0: Decoder, ghost dp: Decoder)
      returns (status: Status, j: nat, ghost dp': Decoder)
      requires Sound() && Standing(c, d0, input, i, dp, Abs()) && i < |input| && state.First()
      modifies this
      ensures Sound() && bad == old(bad) && i <= j <= |input| && (status.Continue? || status.Broken?)
      ensures status.Continue? ==> Standing(c, d0, input, j, dp', Abs()) && (i < j || Rank(Abs()) == 0)
      ensures status.Broken? ==> Fold(c, d0, input) == HpackDecode.Fail(Abs())
    {
      hide Fields, Size, Numbered, Slot, Fold, Step, Opened, Dispatches, Decoder.Valid;
      ghost var d := Abs();
      var b := input[i];
      DispatchStep(c, d, b);
      Taking(c, d0, input, i, dp, d, i + 1);
      OneStep(c, d, b);
      assert input[i..i + 1] == [b];
      OpenedState(d, b);
      var ok, consumed := Dispatch(b);
      if !ok {
        FailRest(c, d0, input, i + 1);
        return Broken, i, dp;
      }
      if consumed {
        return Continue, i + 1, Abs();
      }
      return Continue, i, dp;
    }

    method IntegerRound(c: Consts, input: seq<byte>, i: nat, ghost d0: Decoder, ghost dp: Decoder)
      returns (status: Status, j: nat, busy: bool, ghost dp': Decoder)
      requires Sound() && Standing(c, d0, input, i, dp, Abs()) && i < |input|
      requires state.OfInteger() || state == CheckNameLen || state == CheckValueLen
      modifies this, ctx, ctx.ring, ctx.ring.entries
      ensures Sound() && bad == old(bad) && i < j <= |input| && ctx.ring.buffer == old(ctx.ring.buffer)
      ensures ctx.ring.entries <= old(ctx.ring.entries)
      ensures status.Continue? ==> At(c, d0, input, j, busy, dp', Abs())
      ensures status.NeedMore? ==> j == |input| && Abs().Valid() && Fold(c, d0, input) == Quiet(Abs())
      ensures status.NeedMore? ==> state.OfInteger()
      ensures status.Emitted? ==> Abs().Valid() && Fold(c, d0, input[..j]) == Outcome(Abs(), [status.h], true)
      ensures status.Broken? ==> Fold(c, d0, input) == HpackDecode.Fail(Abs())
    {
      hide Fields, Size, Numbered, Slot, Fold, Step, Decoder.Valid, Finish, StringReady, Context.Valid,
        Context.Table;
      CheckStep(c, Abs(), input[i]);
      if state == CheckNameLen {
        OpenString(input[i], ReadNameLen);
      } else if state == CheckValueLen {
        OpenString(input[i], ReadValueLen);
      }
      ghost var d := Abs();
      assert Standing(c, d0, input, i, dp, d);
      var used;
      status, used, busy := ReadInteger(c, input, i);
      j, dp' := i + used, Abs();
      Taking(c, d0, input, i, dp, d, j);
      assert j == |input| ==> input[..j] == input;
      if status.Broken? {
        FailRest(c, d0, input, j);
      }
    }

    method StringRound(c: Consts, input: seq<byte>, i: nat, busy: bool, ghost d0: Decoder, ghost dp: Decoder)
      returns (status: Status, j: nat, ghost dp': Decoder)
      requires Good(c.code) && Sound() && At(c, d0, input, i, busy, dp, Abs()) && (i < |input| || busy)
      requires state.OfString()
      modifies this, ctx, ctx.ring, ctx.ring.buffer, ctx.ring.entries
      ensures Sound() && bad == old(bad) && Grown() && i <= j <= |input|
      ensures status.Continue? ==> Standing(c, d0, input, j, dp', Abs()) && !busy && (i < j || Rank(Abs()) == 0)
      ensures status.Continue? ==> old(state.OfName())
      ensures status.NeedMore? ==> j == |input| && Abs().Valid() && Fold(c, d0, input) == Quiet(Abs())
      ensures status.NeedMore? ==> state.OfString()
      ensures status.Emitted? ==> Abs().Valid() && Fold(c, d0, input[..j]) == Outcome(Abs(), [status.h], true)
      ensures status.Broken? ==> Fold(c, d0, input) == HpackDecode.Fail(Abs())
    {
      hide Fields, Size, Numbered, Slot, Fold, Step, Decoder.Valid, Finish, StringReady, Good, StringDone;
      ghost var d := Abs();
      ReadyString(c, d0, input, i, busy, dp, d);
      var n := Min(|input| - i, left);
      status := ReadString(c, input[i..i + n]);
      j, dp' := i + n, if n == 0 then dp else Abs();
      ghost var d' := Abs();
      if n == 0 {
        NoOctets(c, d0, input, i, busy, dp, d, d', status);
      } else {
        SomeOctets(c, d0, input, i, busy, dp, d, n, d', status);
      }
    }

    /** One round of the loop of `nghttp2_hd_inflate_hd_nv`. */
    method Round(c: Consts, input: seq<byte>, i: nat, busy: bool, ghost d0: Decoder, ghost dp: Decoder)
      returns (status: Status, j: nat, busy': bool, ghost dp': Decoder)
      requires Good(c.code) && Sound() && At(c, d0, input, i, busy, dp, Abs()) && (i < |input| || busy)
      modifies this, ctx, ctx.ring, ctx.ring.buffer, ctx.ring.entries
      ensures Sound() && bad == old(bad) && Grown() && i <= j <= |input|
      ensures status.Continue? ==>
                && At(c, d0, input, j, busy', dp', Abs()) && !busy
                && (i < j || Rank(Abs()) < old(Rank(Abs())))
      ensures status.NeedMore? ==> j == |input| && Abs().Valid() && Fold(c, d0, input) == Quiet(Abs())
                                   && !state.Complete()
      ensures status.Emitted? ==> Abs().Valid() && Fold(c, d0, input[..j]) == Outcome(Abs(), [status.h], true)
      ensures status.Broken? ==> Fold(c, d0, input) == HpackDecode.Fail(Abs())
    {
      hide Fields, Size, Numbered, Slot, Fold, Step, Decoder.Valid, Finish, StringReady, Good, Standing;
      busy', dp', j := false, dp, i;
      if state.First() {
        status, j, dp' := DispatchRound(c, input, i, d0, dp);
      } else if !state.OfString() {
        status, j, busy', dp' := IntegerRound(c, input, i, d0, dp);
      } else {
        status, j, dp' := StringRound(c, input, i, busy, d0, dp);
      }
    }

    /** `nghttp2_hd_inflate_hd_nv`: one call on `input`. It stops after the first header it emits. */
    method InflateHdNv(c: Consts, input: seq<byte>, final: bool) returns (r: CallResult)
      requires Good(c.code) && (bad || Valid())
      modifies this, ctx, ctx.ring, ctx.ring.buffer, ctx.ring.entries
      ensures Grown()
      ensures old(bad) ==> r == Error && bad
      ensures !old(bad) ==> CallMeaning(c, old(Abs()), input, final, Abs(), r)
      ensures r.Used? ==> Valid() && !bad
      ensures r.Error? ==> bad
    {
      hide Fields, Size, Numbered, Slot, Fold, Step, Decoder.Valid, Finish, StringReady, Good, At;
      if bad {
        return Error;
      }
      ghost var d0 := Abs();
      var i, busy := 0, false;
      ghost var dp := d0;
      AtBegin(c, d0, input);
      while i < |input| || busy
        invariant Sound() && !bad && Grown() && i <= |input|
        invariant At(c, d0, input, i, busy, dp, Abs())
        decreases |input| - i, if busy then 0 else 1, Rank(Abs())
      {
        var status;
        status, i, busy, dp := Round(c, input, i, busy, d0, dp);
        match status
        case Continue =>
        case Emitted(h) =>
          return Used(i, [h], false);
        case Broken =>
          bad := true;
          return Error;
        case NeedMore =>
          assert input[..|input|] == input;
          if final {
            bad := true;
            return Error;
          }
          return Used(i, [], false);
      }
      AtEnd(c, d0, input, dp, Abs());
      if final {
        if state != AtOpcode && state != InflateStart {
          bad := true;
          return Error;
        }
        return Used(i, [], true);
      }
      r := Used(i, [], false);
    }

    /** The loop that `nghttp2_hd_inflate_hd2` documents for its callers: call until the piece of the
        block is used up, then end the block if the piece was the last. */
    method InflatePiece(c: Consts, piece: seq<byte>, final: bool) returns (ok: bool, out: seq<Header>)
      requires Good(c.code) && Valid() && !bad
      modifies this, ctx, ctx.ring, ctx.ring.buffer, ctx.ring.entries
      ensures Grown() && (ok ==> Valid() && !bad)
      ensures PieceMeaning(c, old(Abs()), piece, final, Abs(), ok, out)
    {
      hide Fields, Size, Numbered, Slot, Fold, Decoder.Valid, Good, CallMeaning, PieceMeaning;
      ghost var d0 := Abs();
      var pos := 0;
      out := [];
      Unread(c, d0, piece);
      while true
        invariant Valid() && !bad && Grown() && pos <= |piece|
        invariant Prefixed(c, d0, piece, pos, Abs(), out)
        decreases |piece| - pos, if final then 1 else 0
      {
        ghost var d := Abs();
        var r := InflateHdNv(c, piece[pos..], final);
        PieceStep(c, d0, piece, pos, d, out, final, Abs(), r);
        if r.Error? {
          return false, out;
        }
        pos := pos + r.n;
        out := out + r.out;
        if r.finished {
          ghost var d1 := Abs();
          state := InflateStart;
          Ended(c, d0, piece, d1, out);
          return true, out;
        }
        if r.out == [] && pos == |piece| {
          return true, out;
        }
      }
    }

    /** A block received in any pieces gives the headers, the verdict and the table of the whole block. */
    method InflateBlock(c: Consts, pieces: seq<seq<byte>>) returns (ok: bool, out: seq<Header>)
      requires Good(c.code) && Valid() && !bad && pieces != []
      modifies this, ctx, ctx.ring, ctx.ring.buffer, ctx.ring.entries
      ensures Grown() && (ok ==> Valid() && !bad)
      ensures BlockMeaning(c, old(Abs()), Flatten(pieces), Abs(), ok, out)
    {
      hide Fields, Size, Numbered, Slot, Fold, Decoder.Valid, Good, PieceMeaning, BlockMeaning, Prefixed, Flatten;
      ghost var d0, all := Abs(), Flatten(pieces);
      out := [];
      var k := 0;
      PiecesBegin(c, d0, pieces);
      while k < |pieces| - 1
        invariant 0 <= k < |pieces| && Valid() && !bad && Grown()
        invariant Prefixed(c, d0, all, |Flatten(pieces[..k])|, Abs(), out)
      {
        ghost var d := Abs();
        var more;
        ok, more := InflatePiece(c, pieces[k], false);
        PiecesStep(c, d0, pieces, k, d, out, Abs(), ok, more);
        out := out + more;
        if !ok { return; }
        k := k + 1;
      }
      ghost var d := Abs();
      var more;
      ok, more := InflatePiece(c, pieces[k], true);
      PiecesEnd(c, d0, pieces, k, d, out, Abs(), ok, more);
      out := out + more;
    }
  }

  ghost predicate BlockMeaning(c: Consts, d0: Decoder, bs: seq<byte>, d: Decoder, ok: bool, out: seq<Header>)
  {
    && d0.Valid()
    && var r := DecodeBlock(c, d0, bs);
       ok == r.ok && out == r.out && (if ok then d == r.d else HpackDecode.Fail(d) == HpackDecode.Fail(r.d))
  }

  lemma PiecesBegin(c: Consts, d0: Decoder, pieces: seq<seq<byte>>)
    requires d0.Valid()
    ensures Prefixed(c, d0, Flatten(pieces), |Flatten(pieces[..0])|, d0, [])
  {
    assert pieces[..0] == [];
    Unread(c, d0, Flatten(pieces));
  }

  /** Piece `k` in the concatenation of all pieces. */
  lemma PieceAt(pieces: seq<seq<byte>>, k: nat)
    requires k < |pieces|
    ensures var all, a, b := Flatten(pieces), |Flatten(pieces[..k])|, |Flatten(pieces[..k + 1])|;
            a <= b <= |all| && all[..b] == all[..a] + pieces[k] && (k + 1 == |pieces| ==> b == |all|)
  {
    assert pieces == pieces[..k] + pieces[k..] && pieces == pieces[..k + 1] + pieces[k + 1..];
    assert pieces[..k + 1] == pieces[..k] + [pieces[k]];
    FlattenAppend(pieces[..k], pieces[k..]);
    FlattenAppend(pieces[..k + 1], pieces[k + 1..]);
    FlattenAppend(pieces[..k], [pieces[k]]);
    FlattenOne(pieces[k]);
    hide Flatten;
    assert k + 1 == |pieces| ==> pieces[..k + 1] == pieces;
  }

  lemma FlattenOne(p: seq<byte>)
    ensures Flatten([p]) == p
  {
    assert [p][1..] == [] && Flatten<byte>([]) == [];
  }

  lemma PieceFold(c: Consts, d0: Decoder, pieces: seq<seq<byte>>, k: nat, d: Decoder, out: seq<Header>)
    requires k < |pieces| && Prefixed(c, d0, Flatten(pieces), |Flatten(pieces[..k])|, d, out)
    ensures var all, b := Flatten(pieces), |Flatten(pieces[..k + 1])|;
            && b <= |all| && (k + 1 == |pieces| ==> b == |all|) && d.Valid()
            && var f := Fold(c, d, pieces[k]);
               Fold(c, d0, all[..b]) == Outcome(f.d, out + f.out, f.ok)
  {
    hide Fold, Flatten, Decoder.Valid;
    PieceAt(pieces, k);
    var all, a := Flatten(pieces), |Flatten(pieces[..k])|;
    FoldAppend(c, d0, all[..a], pieces[k]);
  }

  lemma PiecesStep(c: Consts, d0: Decoder, pieces: seq<seq<byte>>, k: nat, d: Decoder, out: seq<Header>,
                   d': Decoder, ok: bool, more: seq<Header>)
    requires k < |pieces| && Prefixed(c, d0, Flatten(pieces), |Flatten(pieces[..k])|, d, out)
    requires PieceMeaning(c, d, pieces[k], false, d', ok, more)
    ensures ok ==> Prefixed(c, d0, Flatten(pieces), |Flatten(pieces[..k + 1])|, d', out + more)
    ensures !ok ==> BlockMeaning(c, d0, Flatten(pieces), d', false, out + more)
  {
    hide Fold, Flatten, Decoder.Valid;
    PieceFold(c, d0, pieces, k, d, out);
    if !ok {
      FailRest(c, d0, Flatten(pieces), |Flatten(pieces[..k + 1])|);
    }
  }

  lemma PiecesEnd(c: Consts, d0: Decoder, pieces: seq<seq<byte>>, k: nat, d: Decoder, out: seq<Header>,
                  d': Decoder, ok: bool, more: seq<Header>)
    requires k + 1 == |pieces| && Prefixed(c, d0, Flatten(pieces), |Flatten(pieces[..k])|, d, out)
    requires PieceMeaning(c, d, pieces[k], true, d', ok, more)
    ensures BlockMeaning(c, d0, Flatten(pieces), d', ok, out + more)
  {
    hide Fold, Flatten, Decoder.Valid;
    PieceFold(c, d0, pieces, k, d, out);
    var all := Flatten(pieces);
    assert all[..|all|] == all;
  }

  /** `d` and `out` are what the first `pos` octets of `piece` give. */
  ghost predicate Prefixed(c: Consts, d0: Decoder, piece: seq<byte>, pos: nat, d: Decoder, out: seq<Header>)
  {
    d0.Valid() && pos <= |piece| && Fold(c, d0, piece[..pos]) == Outcome(d, out, true)
  }

  /** What a piece of a block means, last or not. */
  ghost predicate PieceMeaning(c: Consts, d0: Decoder, piece: seq<byte>, final: bool, d: Decoder, ok: bool, out: seq<Header>)
  {
    && d0.Valid()
    && var f := Fold(c, d0, piece);
       && out == f.out
       && (ok <==> f.ok && (final ==> f.d.state.Complete()))
       && (if ok then d == if final then f.d.(state := InflateStart) else f.d
           else HpackDecode.Fail(d) == HpackDecode.Fail(f.d))
  }

  lemma Unread(c: Consts, d0: Decoder, piece: seq<byte>)
    requires d0.Valid()
    ensures Prefixed(c, d0, piece, 0, d0, [])
  {
    assert piece[..0] == [];
    FoldNothing(c, d0);
  }

  lemma PieceStep(c: Consts, d0: Decoder, piece: seq<byte>, pos: nat, d: Decoder, out: seq<Header>,
                  final: bool, d': Decoder, r: CallResult)
    requires Prefixed(c, d0, piece, pos, d, out) && CallMeaning(c, d, piece[pos..], final, d', r)
    ensures r.Error? ==> PieceMeaning(c, d0, piece, final, d', false, out)
    ensures r.Used? ==> Prefixed(c, d0, piece, pos + r.n, d', out + r.out)
    ensures r.Used? && r.out == [] ==> pos + r.n == |piece|
    ensures r.Used? && r.finished ==> r.out == [] && d'.state.Complete() && final
    ensures r.Used? && !r.finished && r.out == [] ==> !final && PieceMeaning(c, d0, piece, final, d', true, out + r.out)
    ensures r.Used? && r.n == 0 ==> r.out == []
  {
    hide Fold, Decoder.Valid;
    var n := if r.Used? then r.n else |piece| - pos;
    assert piece[..pos + n] == piece[..pos] + piece[pos..][..n];
    FoldAppend(c, d0, piece[..pos], piece[pos..][..n]);
    assert n == |piece| - pos ==> piece[pos..][..n] == piece[pos..] && piece[..pos + n] == piece;
    if n == 0 && r.Used? {
      FoldNothing(c, d);
      assert piece[pos..][..n] == [];
    }
  }

  lemma Ended(c: Consts, d0: Decoder, piece: seq<byte>, d: Decoder, out: seq<Header>)
    requires Prefixed(c, d0, piece, |piece|, d, out) && d.state.Complete()
    ensures PieceMeaning(c, d0, piece, true, d.(state := InflateStart), true, out)
    ensures d.Valid() && d.(state := InflateStart).Valid()
  {
    hide Fold, Size;
    assert piece[..|piece|] == piece;
  }

  /** What one call means in terms of the octet machine. */
  ghost predicate CallMeaning(c: Consts, d0: Decoder, input: seq<byte>, final: bool, d: Decoder, r: CallResult)
  {
    && d0.Valid()
    && match r
       case Error =>
         var f := Fold(c, d0, input);
         && f.out == [] && (!f.ok || (final && !f.d.state.Complete()))
         && HpackDecode.Fail(f.d) == HpackDecode.Fail(d)
       case Used(n, out, finished) =>
         && n <= |input| && |out| <= 1 && (out == [] ==> n == |input|)
         && Fold(c, d0, input[..n]) == Outcome(d, out, true)
         && finished == (final && out == []) && (finished ==> d.state.Complete())
  }

  lemma AtBegin(c: Consts, d0: Decoder, input: seq<byte>)
    requires d0.Valid()
    ensures At(c, d0, input, 0, false, d0, d0)
  {
    assert input[..0] == [];
    FoldNothing(c, d0);
  }

  lemma AtEnd(c: Consts, d0: Decoder, input: seq<byte>, dp: Decoder, d: Decoder)
    requires At(c, d0, input, |input|, false, dp, d)
    ensures d.Valid() && Fold(c, d0, input) == Quiet(d) && input[..|input|] == input
  {
    hide Fold, Step;
    assert input[..|input|] == input;
  }

  lemma ReadyString(c: Consts, d0: Decoder, input: seq<byte>, i: nat, busy: bool, dp: Decoder, d: Decoder)
    requires At(c, d0, input, i, busy, dp, d) && d.state.OfString()
    ensures StringReady(d) && (d.left > 0 ==> d.Valid())
    ensures d.left > 0 && busy ==> Fold(c, d0, input[..i]) == Quiet(d)
    ensures !busy && d.left == 0 ==> d.state.OfName()
  {
    hide Fold, Step, Size;
  }

  lemma NoOctets(c: Consts, d0: Decoder, input: seq<byte>, i: nat, busy: bool, dp: Decoder, d: Decoder,
                 d': Decoder, status: Status)
    requires At(c, d0, input, i, busy, dp, d) && d.state.OfString() && (i < |input| || busy)
    requires StringReady(d) && (d.left == 0 || i == |input|) && StringDone(c, d, [], d', status)
    ensures status.Continue? ==> Standing(c, d0, input, i, dp, d') && !busy && Rank(d') == 0 && d.state.OfName()
    ensures status.NeedMore? ==> i == |input| && d'.Valid() && Fold(c, d0, input) == Quiet(d') && d'.state.OfString()
    ensures status.Emitted? ==> d'.Valid() && Fold(c, d0, input[..i]) == Outcome(d', [status.h], true)
    ensures !status.Broken?
  {
    hide Fold, Size, Commit, Step;
    ReadyString(c, d0, input, i, busy, dp, d);
    if d.left > 0 {
      assert input[..i] == input;
    } else if d.state.OfName() {
      CheckStep(c, d, input[i]);
      CheckStep(c, d', input[i]);
      assert OpenedString(d, input[i], ReadValueLen) == OpenedString(d', input[i], ReadValueLen);
    } else {
      CommitValid(c, d);
    }
  }

  lemma SomeOctets(c: Consts, d0: Decoder, input: seq<byte>, i: nat, busy: bool, dp: Decoder, d: Decoder,
                   n: nat, d': Decoder, status: Status)
    requires At(c, d0, input, i, busy, dp, d) && d.state.OfString()
    requires StringReady(d) && 0 < n <= d.left && i + n <= |input| && (n < d.left ==> i + n == |input|)
    requires StringDone(c, d, input[i..i + n], d', status)
    ensures status.Continue? ==> Standing(c, d0, input, i + n, d', d') && d.state.OfName() && !busy
    ensures status.NeedMore? ==> i + n == |input| && d'.Valid() && Fold(c, d0, input) == Quiet(d')
    ensures status.NeedMore? ==> d'.state.OfString()
    ensures status.Emitted? ==> d'.Valid() && Fold(c, d0, input[..i + n]) == Outcome(d', [status.h], true)
    ensures status.Broken? ==> Fold(c, d0, input) == HpackDecode.Fail(d')
  {
    hide Fold, Size, Commit, Step, StringOutcome;
    var bs, j := input[i..i + n], i + n;
    ReadyString(c, d0, input, i, busy, dp, d);
    if busy {
      assert input[..j] == input[..i] + bs;
      FoldAppend(c, d0, input[..i], bs);
      var r := Fold(c, d, bs);
      assert [] + r.out == r.out;
    } else {
      Taking(c, d0, input, i, dp, d, j);
    }
    FoldString(c, d, bs);
    StringKind(c, d, bs);
    assert j == |input| ==> input[..j] == input;
    if status.Broken? {
      FailRest(c, d0, input, j);
    }
  }

  lemma StringKind(c: Consts, d: Decoder, bs: seq<byte>)
    requires d.Valid() && d.ReadingString() && 0 < |bs| <= d.left
    ensures var r := StringOutcome(c, d, bs);
            r.ok && r.out == [] ==> && (|bs| < d.left ==> r.d.state.OfString())
                                    && (|bs| == d.left ==> d.state.OfName())
  {
    hide Size, Accepting, HuffmanCodec.DecodeBytes;
  }

  /** The CHECK states do not consume the octet they look at. */
  lemma CheckStep(c: Consts, d: Decoder, b: byte)
    requires d.Valid()
    ensures d.state == CheckNameLen ==>
              var e := OpenedString(d, b, ReadNameLen);
              e.Valid() && e.ReadingInt() && Step(c, d, b) == Step(c, e, b)
    ensures d.state == CheckValueLen || (d.state.OfName() && d.left == 0) ==>
              var e := OpenedString(d, b, ReadValueLen);
              e.Valid() && e.ReadingInt() && Step(c, d, b) == Step(c, e, b)
  {
    hide Size, StepInt, StepString, StepOpcode;
  }

  lemma OneStep(c: Consts, d: Decoder, b: byte)
    requires d.Valid()
    ensures Fold(c, d, [b]) == Step(c, d, b)
  {
    hide Step;
    StepValid(c, d, b);
    var r := Step(c, d, b);
    assert [b][1..] == [];
    if r.ok { FoldNothing(c, r.d); }
  }

  lemma FailRest(c: Consts, d: Decoder, input: seq<byte>, j: nat)
    requires d.Valid() && j <= |input| && !Fold(c, d, input[..j]).ok
    ensures Fold(c, d, input) == Fold(c, d, input[..j])
  {
    hide Fold;
    assert input == input[..j] + input[j..];
    FoldAppend(c, d, input[..j], input[j..]);
  }

  lemma OpenedState(d: Decoder, b: byte)
    ensures var o := Opened(d, b);
            o.state == ReadTableSize || o.state == ReadIndex || o.state == CheckNameLen
    ensures HpackDecode.Fail(Opened(d, b)) == HpackDecode.Fail(d)
  {}

  /** Where the loop stands: at a known decoder, or about to close a value whose length was just read. */
  ghost predicate At(c: Consts, d0: Decoder, input: seq<byte>, i: nat, busy: bool, dp: Decoder, d: Decoder)
  {
    && d0.Valid() && i <= |input|
    && if busy then StringReady(d) && d.state.OfValue() && Fold(c, d0, input[..i]) == Finish(c, d)
       else Standing(c, d0, input, i, dp, d)
  }

  /** Rounds that use no octet lower this. */
  ghost function Rank(d: Decoder): nat
  {
    if d.state.First() then 1 else if d.state.OfName() then 1 else 0
  }

  ghost predicate IntegerDone(c: Consts, d: Decoder, bs: seq<byte>, d': Decoder, status: Status, busy: bool)
    requires d.Valid()
  {
    Meets(c, Fold(c, d, bs), d, d', status, busy)
  }

  /** What a status and the decoder `d'` say about the outcome `r` of reading from `d`. */
  ghost predicate Meets(c: Consts, r: Outcome, d: Decoder, d': Decoder, status: Status, busy: bool)
  {
    match status
    case Broken => r == HpackDecode.Fail(d)
    case Emitted(h) => r == Outcome(d', [h], true)
    case NeedMore => r == Quiet(d') && d'.Valid() && d'.ReadingInt()
    case Continue =>
      if busy then StringReady(d') && d'.state.OfValue() && r == Finish(c, d')
      else r == Quiet(d') && d'.Valid()
  }

  lemma IntegerTaken(c: Consts, d: Decoder, input: seq<byte>, i: nat)
    requires d.Valid() && d.ReadingInt() && i < |input|
    ensures var (r, u) := PrefixInt.Read(d.left, d.shift, input[i..], Prefix(d));
            0 < u <= |input| - i && Fold(c, d, input[i..i + u]) == IntOutcome(c, d, r)
  {
    hide Fold, IntOutcome;
    var bs := input[i..];
    var u := PrefixInt.Read(d.left, d.shift, bs, Prefix(d)).1;
    ReadTaken(d.left, d.shift, bs, Prefix(d));
    assert bs[..u] == input[i..i + u];
    FoldInt(c, d, bs[..u]);
  }

  ghost predicate TakeOk(c: Consts, d: Decoder, bs: seq<byte>)
  {
    d.state.Coded() ==>
      var r := HuffmanCodec.DecodeBytes(c.code, d.huff.state, bs);
      r.ok && (|bs| == d.left ==> Accepting(r.pend))
  }

  ghost function AfterTake(c: Consts, d: Decoder, bs: seq<byte>): Decoder
    requires |bs| <= d.left
  {
    if d.state.Coded() then
      var r := HuffmanCodec.DecodeBytes(c.code, d.huff.state, bs);
      Taken(d.(huff := HuffmanCodec.Context(r.pend, Accepting(r.pend))), r.out, |bs|)
    else Taken(d, bs, |bs|)
  }

  lemma TakenIs(d: Decoder, h: HuffmanCodec.Context, bytes: seq<byte>, n: nat)
    requires d.state.OfString() && n <= d.left
    ensures var e := Taken(d.(huff := h), bytes, n);
            && (bytes == [] && n == 0 && h == d.huff ==> e == d) && e.state == d.state && e.left == d.left - n && SameCore(e, d)
            && StringAfter(d.(huff := h), bytes, n) == if e.state.OfName() && e.left == 0 then e.(state := CheckValueLen) else e
  {
    if bytes == [] {
      assert d.name + bytes == d.name && d.value + bytes == d.value;
    }
  }

  lemma ReadyValid(d: Decoder)
    requires StringReady(d) && d.left > 0
    ensures d.Valid() && d.ReadingString()
  {
    hide Size, Accepting;
  }

  /** Taking octets and then closing the string is what the octets mean. */
  lemma StringTaken(c: Consts, d: Decoder, bs: seq<byte>)
    requires StringReady(d) && |bs| <= d.left
    ensures bs == [] ==> TakeOk(c, d, bs) && AfterTake(c, d, bs) == d
    ensures AfterTake(c, d, bs).state == d.state && AfterTake(c, d, bs).left == d.left - |bs|
    ensures SameCore(AfterTake(c, d, bs), d)
    ensures bs != [] ==>
              && d.Valid()
              && var e := AfterTake(c, d, bs);
                 StringOutcome(c, d, bs) ==
                 if !TakeOk(c, d, bs) then HpackDecode.Fail(d)
                 else Finish(c, if e.state.OfName() && e.left == 0 then e.(state := CheckValueLen) else e)
  {
    hide Size, Accepting, HuffmanCodec.DecodeBytes, Commit, Limit, Taken, StringAfter, Decoder.Valid, Finish;
    HuffmanCodec.DecodeNothing(c.code, d.huff.state);
    var r := HuffmanCodec.DecodeBytes(c.code, d.huff.state, bs);
    var h := if d.state.Coded() then HuffmanCodec.Context(r.pend, Accepting(r.pend)) else d.huff;
    TakenIs(d, h, if d.state.Coded() then r.out else bs, |bs|);
    if bs != [] { ReadyValid(d); }
  }

  ghost predicate StringReady(d: Decoder)
  {
    && Size(d.table) <= d.max && d.state.OfString()
    && (d.opcode != OpNewName ==> d.index < STATIC_LENGTH + |d.table|)
    && (d.state.Coded() ==> d.huff.accept == Accepting(d.huff.state) && (d.left == 0 ==> d.huff.accept))
    && (d.state.OfName() ==> d.opcode == OpNewName)
  }

  /** What `ReadString` owes its caller. */
  ghost predicate StringDone(c: Consts, d: Decoder, bs: seq<byte>, d': Decoder, status: Status)
    requires StringReady(d) && |bs| <= d.left
  {
    if bs == [] then
      if d.left > 0 then status == NeedMore && d' == d
      else if d.state.OfName() then status == Continue && d' == d.(state := CheckValueLen)
      else status.Emitted? && Commit(c, d) == Outcome(d', [status.h], true)
    else
      && d.Valid()
      && var r := StringOutcome(c, d, bs);
         match status
         case Broken => r == HpackDecode.Fail(d) && d'.table == d.table && d'.max == d.max
                        && d'.settingsMax == d.settingsMax && d'.minMax == d.minMax
         case Emitted(h) => r == Outcome(d', [h], true)
         case _ => r == Quiet(d') && (status.NeedMore? <==> |bs| < d.left)
  }

  /** The decoder after octets of a string body, before the state changes at its end. */
  function Taken(d: Decoder, bytes: seq<byte>, n: nat): Decoder
    requires n <= d.left
  {
    if d.state.OfName() then d.(left := d.left - n, name := d.name + bytes)
    else d.(left := d.left - n, value := d.value + bytes)
  }

  /** The tests on the first octet of a representation. */
  method Classify(b: byte, required0: bool, never0: bool)
    returns (op: Opcode, st: State, required: bool, never: bool)
    ensures op == OpcodeOf(b) && st == StateOf(b) && (op == OpNewName <==> st == CheckNameLen)
    ensures required == (if IsLiteral(b) then b >= 64 else required0)
    ensures never == (if IsLiteral(b) then 16 <= b < 32 else never0)
  {
    op, st, required, never := OpIndexed, ReadIndex, required0, never0;
    if 32 <= b < 64 {
      st := ReadTableSize;
    } else if b < 128 {
      if b == 0x40 || b == 0 || b == 0x10 {
        op, st := OpNewName, CheckNameLen;
      } else {
        op := OpIndName;
      }
      required, never := b >= 64, 16 <= b < 32;
    }
  }

  lemma OpenedValid(d: Decoder, b: byte)
    requires d.Valid()
    ensures Opened(d, b).Valid()
  {
    hide Size;
  }

  predicate Dispatches(d: Decoder, b: byte)
  {
    if d.state == ExpectTableSize then IsSizeUpdate(b) else d.state == AtOpcode ==> !IsSizeUpdate(b)
  }

  lemma DispatchStep(c: Consts, d: Decoder, b: byte)
    requires d.Valid() && d.state.First()
    ensures Opened(d, b).Valid()
    ensures Step(c, d, b) == if !Dispatches(d, b) then HpackDecode.Fail(d)
                             else if Opened(d, b).state == CheckNameLen then Quiet(Opened(d, b))
                             else Step(c, Opened(d, b), b)
  {
    hide Size, StepInt, StepString;
    OpenedValid(d, b);
  }
}
