/** What an inflater must make of octets that no encoder of this library need have written: which it refuses, and
    what the indices of a peer mean. */
module HpackRefusals {
  import opened Bytes
  import PrefixInt
  import opened HuffmanCode
  import HuffmanCodec
  import opened HpackTable
  import opened HpackEncode
  import opened HpackDecode
  import opened HpackLockstep

  /** A failure at the first octet is a failure of whatever follows. */
  lemma FailsAtOnce(c: Consts, d: Decoder, b: byte, rest: seq<byte>)
    requires d.Valid() && !Step(c, d, b).ok
    ensures !Fold(c, d, [b] + rest).ok
  {
    hide Step;
    assert ([b] + rest)[0] == b;
  }

  /** A size update may not follow a field (section 4.2 of RFC 7541). */
  lemma UpdateAfterField(c: Consts, d: Decoder, b: byte, rest: seq<byte>)
    requires d.Valid() && d.state == AtOpcode && 32 <= b < 64
    ensures !Fold(c, d, [b] + rest).ok
  {
    hide Fold;
    FailsAtOnce(c, d, b, rest);
  }

  /** An integer above the limit is refused, wherever the reading notices. */
  lemma {:induction false} AboveLimit(c: Consts, d: Decoder, bs: seq<byte>)
    requires d.Valid() && d.ReadingInt() && bs != []
    requires var p := PrefixInt.Read(d.left, d.shift, bs, Prefix(d)).0; p.Failed? || (p.Done? && p.value > Limit(d))
    ensures !Fold(c, d, bs).ok
  {
    hide Fold, PrefixInt.Read;
    var u := PrefixInt.Read(d.left, d.shift, bs, Prefix(d)).1;
    UsedPart(d.left, d.shift, bs, Prefix(d));
    FoldInt(c, d, bs[..u]);
    assert bs == bs[..u] + bs[u..];
    FoldAppend(c, d, bs[..u], bs[u..]);
  }

  /** What is not used does not matter. */
  lemma {:induction false} UsedPart(n: nat, shift: nat, bs: seq<byte>, prefix: nat)
    requires 1 <= prefix <= 8
    ensures var r := PrefixInt.Read(n, shift, bs, prefix); PrefixInt.Read(n, shift, bs[..r.1], prefix) == r
    decreases |bs|
  {
    hide PrefixInt.Step;
    if bs != [] {
      var r := PrefixInt.Read(n, shift, bs, prefix);
      match PrefixInt.Step(n, shift, bs[0], prefix)
      case More(n', shift') =>
        UsedPart(n', shift', bs[1..], prefix);
        assert bs[..r.1][1..] == bs[1..][..r.1 - 1];
      case _ =>
    }
  }

  /** Before the first field of a block a size update is taken exactly if it is at most the maximum of the settings
      and at most the smallest maximum not yet acknowledged. */
  lemma UpdateWithinLimits(c: Consts, d: Decoder, n: nat)
    requires d.Valid() && d.state.Between() && d.settingsMax <= UINT32_MAX
    ensures Fold(c, d, PrefixInt.Encode(0x20, n, 5)).ok <==> n <= d.settingsMax && n <= d.minMax
  {
    hide Fold, Size, PrefixInt.Encode, PrefixInt.High, Shrink, StepInt, PrefixInt.Read;
    if n <= d.settingsMax && n <= d.minMax {
      SizeUpdateDecodes(c, d, n);
    } else {
      var bs := PrefixInt.Encode(0x20, n, 5);
      HighBits();
      Pow2Small();
      FirstOctet(0x20, n, 5);
      var o := Opened(d, bs[0]);
      FoldFrom(c, d, o, bs);
      assert bs + [] == bs;
      if n <= UINT32_MAX { PrefixInt.RoundTrip(0x20, n, 5, []); } else { PrefixInt.TooLarge(0x20, n, 5, []); }
      AboveLimit(c, o, bs);
    }
  }

  /** After the maximum was reduced the next block must begin with a size update, and with one that goes down to the
      new maximum. */
  lemma ReductionMustBeAcknowledged(c: Consts, d: Decoder, size: nat, b: byte, rest: seq<byte>, n: nat)
    requires d.Valid() && d.state.Between() && size < d.max && size <= UINT32_MAX
    ensures var e := ResizeDecoder(d, size);
            && e.Valid() && (!(32 <= b < 64) ==> !Fold(c, e, [b] + rest).ok)
            && (Fold(c, e, PrefixInt.Encode(0x20, n, 5)).ok <==> n <= size)
  {
    hide Fold, PrefixInt.Encode, Shrink, Size;
    ResizeValid(d, size);
    var e := ResizeDecoder(d, size);
    if !(32 <= b < 64) { FailsAtOnce(c, e, b, rest); }
    UpdateWithinLimits(c, e, n);
  }

  /** So it is after a reduction followed by a growth. */
  lemma SmallestMustBeAcknowledged(c: Consts, d: Decoder, low: nat, size: nat, b: byte, rest: seq<byte>, n: nat)
    requires d.Valid() && d.state.Between() && low < d.max && low <= size <= UINT32_MAX
    ensures var e := ResizeDecoder(ResizeDecoder(d, low), size);
            && e.Valid() && (!(32 <= b < 64) ==> !Fold(c, e, [b] + rest).ok)
            && (Fold(c, e, PrefixInt.Encode(0x20, n, 5)).ok <==> n <= low)
  {
    hide Fold, PrefixInt.Encode, Shrink, Size;
    ResizeValid(d, low);
    ResizeValid(ResizeDecoder(d, low), size);
    var e := ResizeDecoder(ResizeDecoder(d, low), size);
    if !(32 <= b < 64) { FailsAtOnce(c, e, b, rest); }
    UpdateWithinLimits(c, e, n);
  }

  /** A Huffman-coded string is taken exactly if its octets are the codes of some string, padded with at most seven
      ones; then it is that string. */
  lemma CodedStringExactly(c: Consts, d: Decoder, bs: seq<byte>, s: seq<byte>)
    requires d.Valid() && d.state.Coded() && d.huff.state == [] && 0 < |bs| == d.left && Good(c.code)
    ensures HuffmanCodec.Spells(c.code, bs, s) ==>
              var r := StringOutcome(c, d, bs);
              && r.ok && if d.state == ReadNameHuff then r.d.name == d.name + s && r.out == []
                         else r.d.value == d.value + s && |r.out| == 1 && r.out[0].value == d.value + s
    ensures StringOutcome(c, d, bs).ok ==>
              HuffmanCodec.Spells(c.code, bs, HuffmanCodec.DecodeBytes(c.code, [], bs).out)
  {
    hide Good, HuffmanCodec.Spells, HuffmanCodec.DecodeBytes, Accepting, Size, Insert;
    HuffmanCodec.AcceptedExactly(c.code, bs, s);
    HuffmanCodec.AcceptedExactly(c.code, bs, HuffmanCodec.DecodeBytes(c.code, [], bs).out);
  }

  /** An index is taken exactly if there is an entry. */
  lemma IndexedExactly(c: Consts, d: Decoder, i: nat)
    requires d.Valid() && d.state.Complete() && d.max <= UINT32_MAX
    ensures Fold(c, d, PrefixInt.Encode(0x80, i, 7)).ok <==> 1 <= i <= 61 + |d.table|
  {
    hide Fold, Size, PrefixInt.Encode, PrefixInt.High, StepInt, PrefixInt.Read, Get;
    if 1 <= i <= 61 + |d.table| {
      IndexedDecodes(c, d, i - 1);
    } else {
      var bs := PrefixInt.Encode(0x80, i, 7);
      HighBits();
      Pow2Small();
      FirstOctet(0x80, i, 7);
      var o := Opened(d, bs[0]);
      OpenedBy(c, d, bs);
      if i == 0 {
        ReadEncoded(c, o, 0x80, 0);
      } else {
        assert bs + [] == bs;
        if i <= UINT32_MAX { PrefixInt.RoundTrip(0x80, i, 7, []); } else { PrefixInt.TooLarge(0x80, i, 7, []); }
        AboveLimit(c, o, bs);
      }
    }
  }

  /** No string of more than 65536 octets is taken, plain or coded, as a name or as a value. */
  lemma StringTooLong(c: Consts, d: Decoder, huffman: bool, n: nat, rest: seq<byte>)
    requires d.Valid() && (d.state == CheckNameLen || AtValue(d)) && n > 65536
    ensures !Fold(c, d, PrefixInt.Encode(if huffman then 0x80 else 0, n, 7) + rest).ok
  {
    hide Fold, Size, PrefixInt.Encode, PrefixInt.High, StepInt, PrefixInt.Read;
    var first := if huffman then 0x80 else 0;
    var bs := PrefixInt.Encode(first, n, 7);
    var all := bs + rest;
    var o := OpenedString(d, all[0], if d.state == CheckNameLen then ReadNameLen else ReadValueLen);
    FoldFrom(c, d, o, all);
    if n <= UINT32_MAX { PrefixInt.RoundTrip(first, n, 7, rest); } else { PrefixInt.TooLarge(first, n, 7, rest); }
    AboveLimit(c, o, all);
  }

  /** An indexed field of one octet: index 1 to 61 is the static table, from 62 on the dynamic one, newest first;
      0 and what lies beyond are refused. */
  lemma IndexedOctet(c: Consts, d: Decoder, b: byte)
    requires d.Valid() && d.state.Complete() && 128 <= b < 255
    ensures var r, i := Fold(c, d, [b]), b as int - 128;
            && (r.ok <==> 1 <= i <= 61 + |d.table|)
            && (1 <= i <= 61 ==> r.out == [Header(c.fixed[i - 1].name, c.fixed[i - 1].value, false)])
            && (61 < i <= 61 + |d.table| ==> r.out == [Header(d.table[i - 62].name, d.table[i - 62].value, false)])
            && (r.ok ==> r.d.state == AtOpcode && r.d.table == d.table)
  {
    hide Size, Fold, Step, Opened;
    FoldOne(c, d, b);
    StepIndexed(c, d, b);
  }

  lemma StepIndexed(c: Consts, d: Decoder, b: byte)
    requires d.Valid() && d.state.Complete() && 128 <= b < 255
    ensures var o := Opened(d, b);
            && o.Valid() && o.ReadingInt() && Step(c, d, b) == IntOutcome(c, o, PrefixInt.Done(b as int - 128))
            && o.state == ReadIndex && o.opcode == OpIndexed && o.table == d.table
  {
    hide Size, Pow2, IntOutcome, Low;
    Pow2Small();
    Low7(b);
  }

  lemma FoldOne(c: Consts, d: Decoder, b: byte)
    requires d.Valid()
    ensures var r, f := Step(c, d, b), Fold(c, d, [b]);
            f.ok == r.ok && f.out == r.out && (r.ok ==> f.d == r.d)
  {
    hide Step;
    StepValid(c, d, b);
    assert [b][1..] == [];
    assert Step(c, d, b).out + [] == Step(c, d, b).out;
  }

  lemma Low7(b: byte)
    requires 128 <= b
    ensures Low(b, 7) == b as int - 128
  {
    hide Low, Shl;
    Pow2Small();
    ShlOne(7);
    Join(1, b as int - 128, 7);
  }
}
