/** The Huffman string code of section 5.2 of RFC 7541, over any code table with the shape of
    the source's `huff_sym_table`: prefix-free, 5 to 30 bits, EOS made of thirty ones. */
module HuffmanCode {
  import opened Bytes

  type Bits = seq<bool>

  /** The low `n` bits of `v`, most significant first. */
  function BitsOf(v: nat, n: nat): (b: Bits)
    ensures |b| == n
    decreases n
  {
    if n == 0 then [] else BitsOf(v / 2, n - 1) + [v % 2 == 1]
  }

  lemma {:induction false} BitsJoin(q: nat, r: nat, a: nat, s: nat)
    requires r < Pow2(s)
    ensures BitsOf(Shl(q, s) + r, a + s) == BitsOf(q, a) + BitsOf(r, s)
    decreases s
  {
    if s > 0 {
      BitsJoin(q, r / 2, a, s - 1);
    }
  }

  /** `huff_sym_table` entries: the code is aligned to the least significant bit. */
  datatype Sym = Sym(nbits: nat, code: nat)

  type Table = t: seq<Sym> | |t| == 257 witness seq(257, _ => Sym(0, 0))

  const EOS: nat := 256
  const EOS_BITS: nat := 30

  function Code(t: Table, i: nat): Bits
    requires i < 257
  {
    BitsOf(t[i].code, t[i].nbits)
  }

  function Ones(n: nat): (b: Bits)
    ensures |b| == n
  {
    seq(n, _ => true)
  }

  predicate AllOnes(b: Bits) { forall i :: 0 <= i < |b| ==> b[i] }

  ghost predicate Good(t: Table)
  {
    && (forall i :: 0 <= i < 257 ==> 5 <= t[i].nbits <= EOS_BITS && t[i].code < Pow2(t[i].nbits))
    && (forall i, j :: 0 <= i < 257 && 0 <= j < 257 && i != j ==> !(Code(t, i) <= Code(t, j)))
    && t[EOS].nbits == EOS_BITS && AllOnes(Code(t, EOS))
  }

  /** The bits of a string before padding. */
  function CodeBits(t: Table, s: seq<byte>): Bits
  {
    if s == [] then [] else Code(t, s[0]) + CodeBits(t, s[1..])
  }

  lemma {:induction false} CodeBitsSnoc(t: Table, s: seq<byte>, c: byte)
    ensures CodeBits(t, s + [c]) == CodeBits(t, s) + Code(t, c)
  {
    if s == [] {
      assert s + [c] == [c];
      assert CodeBits(t, []) == [];
    } else {
      assert (s + [c])[1..] == s[1..] + [c];
      CodeBitsSnoc(t, s[1..], c);
    }
  }

  function PadLength(n: nat): (p: nat)
    ensures p <= 7 && (n + p) % 8 == 0
  {
    (8 - n % 8) % 8
  }

  function Padded(t: Table, s: seq<byte>): (b: Bits)
    ensures |b| % 8 == 0
  {
    CodeBits(t, s) + Ones(PadLength(|CodeBits(t, s)|))
  }

  /** The bits of a byte string. */
  function Unpack(bs: seq<byte>): (b: Bits)
    ensures |b| == 8 * |bs|
  {
    if bs == [] then [] else BitsOf(bs[0], 8) + Unpack(bs[1..])
  }

  lemma {:induction false} UnpackAppend(a: seq<byte>, b: seq<byte>)
    ensures Unpack(a + b) == Unpack(a) + Unpack(b)
  {
    if a == [] {
      assert a + b == b;
    } else {
      assert (a + b)[1..] == a[1..] + b;
      UnpackAppend(a[1..], b);
    }
  }

  /** The first symbol whose code is `p`, or 257. */
  function Find(t: Table, p: Bits, i: nat): (k: nat)
    requires i <= |t|
    ensures i <= k <= |t| && (k < |t| ==> Code(t, k) == p)
    ensures forall j :: i <= j < k ==> Code(t, j) != p
    decreases |t| - i
  {
    if i == |t| then i else if Code(t, i) == p then i else Find(t, p, i + 1)
  }

  /** A decoder that has read the bits `pend` since the last symbol reads one more bit. */
  datatype BitResult = Fail | Emit(sym: byte) | Go(pend: Bits)

  function BitStep(t: Table, pend: Bits, b: bool): BitResult
  {
    var k := Find(t, pend + [b], 0);
    if k == EOS then Fail else if k < EOS then Emit(k) else Go(pend + [b])
  }

  datatype Run = Run(ok: bool, pend: Bits, out: seq<byte>)

  function BitRun(t: Table, pend: Bits, bits: Bits): Run
    decreases |bits|
  {
    if bits == [] then Run(true, pend, [])
    else
      match BitStep(t, pend, bits[0])
      case Fail => Run(false, pend, [])
      case Go(p) => BitRun(t, p, bits[1..])
      case Emit(c) => var r := BitRun(t, [], bits[1..]); Run(r.ok, r.pend, [c] + r.out)
  }

  lemma {:induction false} BitRunAppend(t: Table, pend: Bits, a: Bits, b: Bits)
    ensures var r := BitRun(t, pend, a);
            var s := BitRun(t, r.pend, b);
            BitRun(t, pend, a + b) == if r.ok then Run(s.ok, s.pend, r.out + s.out) else r
    decreases |a|
  {
    hide BitStep;
    if a == [] {
      assert a + b == b;
    } else {
      assert (a + b)[1..] == a[1..] + b;
      match BitStep(t, pend, a[0])
      case Fail =>
      case Go(p) => BitRunAppend(t, p, a[1..], b);
      case Emit(c) => BitRunAppend(t, [], a[1..], b);
    }
  }

  lemma NoCodeInside(t: Table, i: nat, p: Bits)
    requires Good(t) && i < 257 && p <= Code(t, i)
    ensures Find(t, p, 0) == if p == Code(t, i) then i else 257
  {
    var k := Find(t, p, 0);
    assert k < 257 ==> Code(t, k) <= Code(t, i);
  }

  /** From any point inside a code word the decoder reaches its symbol and nothing else. */
  lemma {:induction false} CodeWordRun(t: Table, c: byte, k: nat)
    requires Good(t) && k < |Code(t, c)|
    ensures BitRun(t, Code(t, c)[..k], Code(t, c)[k..]) == Run(true, [], [c])
    decreases |Code(t, c)| - k
  {
    hide Good, Code;
    var w := Code(t, c);
    var p := w[..k] + [w[k]];
    assert p == w[..k + 1] <= w;
    NoCodeInside(t, c, p);
    assert w[k..][0] == w[k] && w[k..][1..] == w[k + 1..];
    if k + 1 == |w| {
      assert p == w && w[k + 1..] == [];
      assert BitRun(t, [], []) == Run(true, [], []);
    } else {
      CodeWordRun(t, c, k + 1);
    }
  }

  /** A padding of ones never completes a symbol. */
  lemma {:induction false} OnesRun(t: Table, pend: Bits, bits: Bits)
    requires Good(t) && AllOnes(pend) && AllOnes(bits) && |pend| + |bits| < EOS_BITS
    ensures BitRun(t, pend, bits) == Run(true, pend + bits, [])
    decreases |bits|
  {
    hide Good;
    if bits == [] {
      assert pend + bits == pend;
    } else {
      var p := pend + [bits[0]];
      EosPrefix(t, p);
      OnesRun(t, p, bits[1..]);
      assert p + bits[1..] == pend + bits;
    }
  }

  lemma EosPrefix(t: Table, p: Bits)
    requires Good(t) && AllOnes(p) && |p| < EOS_BITS
    ensures Find(t, p, 0) == 257
  {
    assert p <= Code(t, EOS);
    NoCodeInside(t, EOS, p);
  }

  lemma {:induction false} CodeBitsRun(t: Table, s: seq<byte>)
    requires Good(t)
    ensures BitRun(t, [], CodeBits(t, s)) == Run(true, [], s)
  {
    hide Good, Code;
    if s != [] {
      var w := Code(t, s[0]);
      assert |w| > 0 by { CodeLength(t, s[0]); }
      CodeWordRun(t, s[0], 0);
      assert w[..0] == [] && w[0..] == w;
      BitRunAppend(t, [], w, CodeBits(t, s[1..]));
      CodeBitsRun(t, s[1..]);
      assert [s[0]] + s[1..] == s;
    }
  }

  lemma CodeLength(t: Table, i: nat)
    requires Good(t) && i < 257
    ensures 5 <= |Code(t, i)| <= 30
  {}

  /** What the automaton has read is the codes of what it put out, and what is pending. */
  lemma {:induction false} RunIsCodes(t: Table, pend: Bits, bits: Bits)
    ensures var r := BitRun(t, pend, bits); r.ok ==> pend + bits == CodeBits(t, r.out) + r.pend
    decreases |bits|
  {
    hide BitStep, Code, CodeBits;
    if bits == [] {
      NoBitsRun(t, pend);
    } else {
      var b, rest := bits[0], bits[1..];
      assert bits == [b] + rest;
      BitStepIs(t, pend, b);
      match BitStep(t, pend, b)
      case Fail =>
      case Go(p) =>
        RunIsCodes(t, p, rest);
        var r := BitRun(t, p, rest);
        if r.ok { GoesOn(pend, b, rest, CodeBits(t, r.out) + r.pend); }
      case Emit(c) =>
        RunIsCodes(t, [], rest);
        var r := BitRun(t, [], rest);
        CodeBitsCons(t, c, r.out);
        if r.ok { Completes(pend, b, rest, Code(t, c), CodeBits(t, r.out), r.pend); }
    }
  }

  lemma NoBitsRun(t: Table, pend: Bits)
    ensures pend + [] == CodeBits(t, []) + pend
  {
    assert CodeBits(t, []) == [];
  }

  lemma GoesOn(pend: Bits, b: bool, rest: Bits, w: Bits)
    requires (pend + [b]) + rest == w
    ensures pend + ([b] + rest) == w
  {
    assert pend + ([b] + rest) == (pend + [b]) + rest;
  }

  lemma Completes(pend: Bits, b: bool, rest: Bits, code: Bits, w: Bits, q: Bits)
    requires code == pend + [b] && [] + rest == w + q
    ensures pend + ([b] + rest) == (code + w) + q
  {
    assert rest == w + q;
    assert pend + ([b] + rest) == (pend + [b]) + rest;
    assert code + (w + q) == (code + w) + q;
  }

  lemma CodeBitsCons(t: Table, c: byte, s: seq<byte>)
    ensures CodeBits(t, [c] + s) == Code(t, c) + CodeBits(t, s)
  {
    assert ([c] + s)[1..] == s;
  }

  lemma BitStepIs(t: Table, pend: Bits, b: bool)
    ensures match BitStep(t, pend, b)
            case Fail => Code(t, EOS) == pend + [b]
            case Emit(c) => Code(t, c) == pend + [b]
            case Go(p) => p == pend + [b]
  {
  }

  /** A pending prefix the source's table marks ACCEPTED: at most seven ones. */
  predicate Accepting(pend: Bits)
  {
    |pend| <= 7 && AllOnes(pend)
  }

  /** Decoding the padded bits of any string gives the string back and ends accepting. */
  lemma PaddedRun(t: Table, s: seq<byte>)
    requires Good(t)
    ensures var r := BitRun(t, [], Padded(t, s)); r.ok && r.out == s && Accepting(r.pend)
  {
    var n := PadLength(|CodeBits(t, s)|);
    CodeBitsRun(t, s);
    OnesRun(t, [], Ones(n));
    BitRunAppend(t, [], CodeBits(t, s), Ones(n));
    assert s + [] == s;
  }

  /** Every symbol after the first costs at least five bits. */
  lemma {:induction false} RunIsShort(t: Table, pend: Bits, bits: Bits)
    requires Good(t)
    ensures var r := BitRun(t, pend, bits);
            && (r.out != [] ==> 5 * |r.out| <= |bits| + 4)
            && (pend == [] ==> 5 * |r.out| <= |bits|)
            && 5 * |r.out| <= |pend| + |bits|
    decreases |bits|
  {
    hide Good;
    if bits != [] {
      match BitStep(t, pend, bits[0])
      case Fail =>
      case Go(p) => RunIsShort(t, p, bits[1..]);
      case Emit(c) =>
        CodeLength(t, c);
        assert Code(t, c) == pend + [bits[0]];
        RunIsShort(t, [], bits[1..]);
    }
  }
}
