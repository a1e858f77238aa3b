/** Strings as codewords packed into octets, and `nghttp2_hd_huff_decode` against the code of `HuffmanCode`. */
module HuffmanCodec {
  import opened Bytes
  import opened HuffmanCode

  // ----- octets and bits -----

  lemma {:induction false} BitsSplit(v: nat, a: nat, s: nat)
    ensures BitsOf(v, a + s) == BitsOf(Shr(v, s), a) + BitsOf(v, s)
    decreases s
  {
    if s > 0 { BitsSplit(v / 2, a, s - 1); }
  }

  lemma {:induction false} BitsOfLow(v: nat, n: nat, k: nat)
    requires n <= k
    ensures BitsOf(Low(v, k), n) == BitsOf(v, n)
    decreases n
  {
    if n > 0 { BitsOfLow(v / 2, n - 1, k - 1); }
  }

  lemma {:induction false} LowShl(v: nat, p: nat, k: nat)
    ensures Low(Shl(v, p), p + k) == Shl(Low(v, k), p)
    decreases p
  {
    if p > 0 { LowShl(v, p - 1, k); }
  }

  lemma {:induction false} LowLow(v: nat, a: nat, b: nat)
    requires a <= b
    ensures Low(Low(v, b), a) == Low(v, a)
    decreases a
  {
    if a > 0 { LowLow(v / 2, a - 1, b - 1); }
  }

  lemma {:induction false} LowSmall(v: nat, n: nat)
    requires v < Pow2(n)
    ensures Low(v, n) == v
    decreases n
  {
    if n > 0 { LowSmall(v / 2, n - 1); }
  }

  function ValueOf(b: Bits): (v: nat)
    ensures v < Pow2(|b|)
  {
    if b == [] then 0 else 2 * ValueOf(b[..|b| - 1]) + (if b[|b| - 1] then 1 else 0)
  }

  lemma {:induction false} ValueBits(b: Bits)
    ensures BitsOf(ValueOf(b), |b|) == b
  {
    if b != [] {
      ValueBits(b[..|b| - 1]);
      assert b == b[..|b| - 1] + [b[|b| - 1]];
    }
  }

  lemma {:induction false} BitsValue(v: nat, n: nat)
    requires v < Pow2(n)
    ensures ValueOf(BitsOf(v, n)) == v
    decreases n
  {
    if n > 0 {
      BitsValue(v / 2, n - 1);
      assert BitsOf(v, n)[..n - 1] == BitsOf(v / 2, n - 1);
    }
  }

  function Pack(b: Bits): (bs: seq<byte>)
    requires |b| % 8 == 0
    ensures |bs| == |b| / 8
  {
    Pow2Small();
    if b == [] then [] else [ValueOf(b[..8])] + Pack(b[8..])
  }

  lemma {:induction false} UnpackPack(b: Bits)
    requires |b| % 8 == 0
    ensures Unpack(Pack(b)) == b
  {
    hide ValueOf, BitsOf;
    if b != [] {
      ValueBits(b[..8]);
      UnpackPack(b[8..]);
      var bs := Pack(b);
      assert bs[0] == ValueOf(b[..8]) && bs[1..] == Pack(b[8..]);
      assert b == b[..8] + b[8..];
    }
  }

  lemma {:induction false} PackUnpack(bs: seq<byte>)
    ensures Pack(Unpack(bs)) == bs
  {
    if bs != [] {
      Pow2Small();
      BitsValue(bs[0], 8);
      PackUnpack(bs[1..]);
      var b := Unpack(bs);
      assert b[..8] == BitsOf(bs[0], 8) && b[8..] == Unpack(bs[1..]);
    }
  }

  /** The octets of a string in Huffman form. */
  function Encode(t: Table, s: seq<byte>): (bs: seq<byte>)
    ensures |bs| == (|CodeBits(t, s)| + 7) / 8
  {
    Pack(Padded(t, s))
  }

  // ----- decoding -----

  /** One row of `huff_decode_table`: what four more bits do. */
  datatype Trans = Rejected | Next(state: Bits, syms: seq<byte>, accept: bool)

  function NibbleStep(t: Table, state: Bits, nibble: nat): Trans
  {
    var r := BitRun(t, state, BitsOf(nibble, 4));
    if r.ok then Next(r.pend, r.out, Accepting(r.pend)) else Rejected
  }

  /** A table row holds at most one symbol. */
  lemma NibbleSymbol(t: Table, state: Bits, nibble: nat)
    requires Good(t)
    ensures var r := NibbleStep(t, state, nibble); r.Next? ==> |r.syms| <= 1
  {
    RunIsShort(t, state, BitsOf(nibble, 4));
  }

  lemma NibbleBits(b: byte)
    ensures BitsOf(b, 8) == BitsOf(b / 16, 4) + BitsOf(b % 16, 4)
  {
    var q := b / 16;
    assert Shl(q, 4) == 16 * q by {
      assert Shl(q, 1) == 2 * q;
      assert Shl(q, 2) == 4 * q;
      assert Shl(q, 3) == 8 * q;
    }
    Pow2Small();
    BitsJoin(q, b % 16, 4, 4);
  }

  lemma ByteRun(t: Table, state: Bits, b: byte)
    ensures var r := BitRun(t, state, BitsOf(b, 8));
            match NibbleStep(t, state, b / 16)
            case Rejected => !r.ok
            case Next(s1, o1, _) =>
              match NibbleStep(t, s1, b % 16)
              case Rejected => !r.ok
              case Next(s2, o2, _) => r == Run(true, s2, o1 + o2)
  {
    NibbleBits(b);
    hide BitsOf, BitRun;
    BitRunAppend(t, state, BitsOf(b / 16, 4), BitsOf(b % 16, 4));
  }

  datatype Context = Context(state: Bits, accept: bool)

  function DecodeBytes(t: Table, state: Bits, src: seq<byte>): Run
  {
    BitRun(t, state, Unpack(src))
  }

  /** The octets are the codes of `s` and then at most seven ones (section 5.2 of RFC 7541). */
  ghost predicate Spells(t: Table, bs: seq<byte>, s: seq<byte>)
  {
    var w, b := CodeBits(t, s), Unpack(bs);
    w <= b && |b| - |w| <= 7 && forall i :: |w| <= i < |b| ==> b[i]
  }

  /** Exactly these octets are accepted, and as that string: a longer padding, one with a zero, or the code of EOS
      is refused. */
  lemma AcceptedExactly(t: Table, bs: seq<byte>, s: seq<byte>)
    requires Good(t)
    ensures var r := DecodeBytes(t, [], bs); r.ok && Accepting(r.pend) && r.out == s <==> Spells(t, bs, s)
  {
    hide Good, BitRun, CodeBits, Unpack, Spells, Accepting;
    var r := BitRun(t, [], Unpack(bs));
    if r.ok && Accepting(r.pend) && r.out == s { AcceptedSpells(t, bs); }
    if Spells(t, bs, s) { SpelledIsAccepted(t, bs, s); }
  }

  lemma AcceptedSpells(t: Table, bs: seq<byte>)
    requires var r := BitRun(t, [], Unpack(bs)); r.ok && Accepting(r.pend)
    ensures Spells(t, bs, BitRun(t, [], Unpack(bs)).out)
  {
    hide BitRun, CodeBits, Unpack;
    var b := Unpack(bs);
    RunIsCodes(t, [], b);
    assert [] + b == b;
    Parts(b, CodeBits(t, BitRun(t, [], b).out), BitRun(t, [], b).pend);
  }

  lemma Parts(b: Bits, w: Bits, pad: Bits)
    requires b == w + pad
    ensures w <= b && |b| - |w| == |pad| && forall i :: |w| <= i < |b| ==> b[i] == pad[i - |w|]
  {}

  lemma SpelledIsAccepted(t: Table, bs: seq<byte>, s: seq<byte>)
    requires Good(t) && Spells(t, bs, s)
    ensures var r := BitRun(t, [], Unpack(bs)); r.ok && Accepting(r.pend) && r.out == s
  {
    hide Good, BitRun, CodeBits, Unpack;
    var w, b := CodeBits(t, s), Unpack(bs);
    var pad := b[|w|..];
    assert b == w + pad;
    assert AllOnes(pad);
    CodeBitsRun(t, s);
    NoPend(t, pad);
    BitRunAppend(t, [], w, pad);
    assert s + [] == s;
  }

  lemma NoPend(t: Table, pad: Bits)
    requires Good(t) && AllOnes(pad) && |pad| <= 7
    ensures BitRun(t, [], pad) == Run(true, pad, [])
  {
    hide Good, BitRun;
    OnesRun(t, [], pad);
    assert [] + pad == pad;
  }

  /** Decoding in two calls equals decoding in one. */
  lemma DecodeSplit(t: Table, state: Bits, a: seq<byte>, b: seq<byte>)
    ensures var r := DecodeBytes(t, state, a);
            var s := DecodeBytes(t, r.pend, b);
            DecodeBytes(t, state, a + b) == if r.ok then Run(s.ok, s.pend, r.out + s.out) else r
  {
    UnpackAppend(a, b);
    BitRunAppend(t, state, Unpack(a), Unpack(b));
  }

  /** One more octet of input. */
  lemma DecodeNext(t: Table, state: Bits, src: seq<byte>, i: nat)
    requires Good(t) && i < |src| && DecodeBytes(t, state, src[..i]).ok
    ensures var r := DecodeBytes(t, state, src[..i]);
            match NibbleStep(t, r.pend, src[i] / 16)
            case Rejected => !DecodeBytes(t, state, src).ok
            case Next(s1, o1, a1) =>
              && |o1| <= 1
              && match NibbleStep(t, s1, src[i] % 16)
                 case Rejected => !DecodeBytes(t, state, src).ok
                 case Next(s2, o2, a2) =>
                   && |o2| <= 1 && a2 == Accepting(s2)
                   && DecodeBytes(t, state, src[..i + 1]) == Run(true, s2, r.out + (o1 + o2))
  {
    hide BitRun, BitsOf, Unpack, Good, Accepting;
    var r := DecodeBytes(t, state, src[..i]);
    assert src[..i + 1] == src[..i] + [src[i]];
    DecodeSplit(t, state, src[..i], [src[i]]);
    assert src == src[..i + 1] + src[i + 1..];
    DecodeSplit(t, state, src[..i + 1], src[i + 1..]);
    OneByte(src[i]);
    ByteRun(t, r.pend, src[i]);
    NibbleSymbol(t, r.pend, src[i] / 16);
    var first := NibbleStep(t, r.pend, src[i] / 16);
    if first.Next? {
      NibbleSymbol(t, first.state, src[i] % 16);
    }
  }

  /** `nghttp2_hd_huff_decode`. */
  method HuffDecode(t: Table, ctx: Context, src: seq<byte>, final: bool)
    returns (ok: bool, ctx': Context, out: seq<byte>)
    requires Good(t) && ctx.accept == Accepting(ctx.state)
    ensures var r := DecodeBytes(t, ctx.state, src);
            && ok == (r.ok && (final ==> Accepting(r.pend)))
            && (ok ==> out == r.out && ctx' == Context(r.pend, Accepting(r.pend)))
    ensures |out| <= 2 * |src|
  {
    hide DecodeBytes, NibbleStep, Accepting, Good;
    ctx', out := ctx, [];
    var i := 0;
    assert src[..0] == [];
    DecodeNothing(t, ctx.state);
    while i < |src|
      invariant 0 <= i <= |src|
      invariant DecodeBytes(t, ctx.state, src[..i]) == Run(true, ctx'.state, out)
      invariant ctx'.accept == Accepting(ctx'.state)
      invariant |out| <= 2 * i
    {
      DecodeNext(t, ctx.state, src, i);
      var first := NibbleStep(t, ctx'.state, src[i] / 16);
      if first.Rejected? {
        return false, ctx', out;
      }
      var second := NibbleStep(t, first.state, src[i] % 16);
      if second.Rejected? {
        return false, ctx', out;
      }
      out := out + (first.syms + second.syms);
      ctx' := Context(second.state, second.accept);
      i := i + 1;
    }
    assert src[..i] == src;
    ok := !(final && !ctx'.accept);
  }

  lemma DecodeNothing(t: Table, state: Bits)
    ensures DecodeBytes(t, state, []) == Run(true, state, [])
  {}

  lemma OneByte(b: byte)
    ensures Unpack([b]) == BitsOf(b, 8)
  {
    assert Unpack([]) == [];
  }

  /** The Huffman round trip: the octets of any string decode to it and end accepting. */
  lemma HuffmanRoundTrip(t: Table, s: seq<byte>)
    requires Good(t)
    ensures var r := DecodeBytes(t, [], Encode(t, s)); r.ok && r.out == s && Accepting(r.pend)
  {
    UnpackPack(Padded(t, s));
    PaddedRun(t, s);
  }
}
