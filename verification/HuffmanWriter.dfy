/** The bit writer: `huff_encode_sym` and `nghttp2_hd_huff_encode` over chained buffers. */
module HuffmanWriter {
  import opened Bytes
  import opened Buffers
  import opened HuffmanCode
  import opened HuffmanCodec

  /** `nghttp2_hd_huff_encode_count` counts the octets of the Huffman form. */
  method EncodeCount(t: Table, src: seq<byte>) returns (n: nat)
    ensures n == |Encode(t, src)|
  {
    var nbits := 0;
    for i := 0 to |src|
      invariant nbits == |CodeBits(t, src[..i])|
    {
      assert src[..i + 1] == src[..i] + [src[i]];
      CodeBitsSnoc(t, src[..i], src[i]);
      nbits := nbits + t[src[i]].nbits;
    }
    assert src[..|src|] == src;
    n := (nbits + 7) / 8;
  }

  /** Octets that hold `bits` followed by the low `n` bits of `x`, the latter a multiple of eight. */
  lemma EmitTop(w: seq<byte>, x: nat, s: nat)
    ensures Low(Shr(x, s), 8) < 256
    ensures Unpack(w + [Low(Shr(x, s), 8)]) + BitsOf(x, s) == Unpack(w) + BitsOf(x, s + 8)
  {
    hide BitsOf, Unpack, Low, Shr;
    Pow2Small();
    var b := Low(Shr(x, s), 8);
    UnpackAppend(w, [b]);
    OneByte(b);
    BitsOfLow(Shr(x, s), 8, 8);
    BitsSplit(x, 8, s);
    assert (Unpack(w) + BitsOf(b, 8)) + BitsOf(x, s) == Unpack(w) + (BitsOf(b, 8) + BitsOf(x, s));
  }

  /** `nghttp2_bufs_fast_addb` on the fast path, `nghttp2_bufs_addb` on the slow one. */
  method PutByte(bufs: Bufs, fast: bool, b: byte) returns (ok: bool)
    requires bufs.Valid() && bufs.NonEmptyAhead() && (fast ==> bufs.CurAvail() > 0)
    modifies bufs`chunks, bufs`cur
    ensures bufs.Valid() && bufs.NonEmptyAhead()
    ensures ok <==> old(bufs.Room()) > 0
    ensures ok ==> bufs.Content() == old(bufs.Content()) + [b] && bufs.Room() == old(bufs.Room()) - 1
    ensures fast ==> bufs.CurAvail() == old(bufs.CurAvail()) - 1
  {
    if fast {
      bufs.FastAddb(b);
      return true;
    }
    ok := bufs.Addb(b);
  }

  /** Puts the octet of `code` that starts at bit `s`, after the octets `w`. */
  method PutTop(bufs: Bufs, fast: bool, code: nat, s: nat, ghost base: seq<byte>, ghost w: seq<byte>)
    returns (ok: bool, ghost w': seq<byte>)
    requires bufs.Valid() && bufs.NonEmptyAhead() && (fast ==> bufs.CurAvail() > 0)
    requires bufs.Content() == base + w
    modifies bufs`chunks, bufs`cur
    ensures bufs.Valid() && bufs.NonEmptyAhead()
    ensures ok <==> old(bufs.Room()) > 0
    ensures ok ==> bufs.Content() == base + w' && |w'| == |w| + 1 && bufs.Room() == old(bufs.Room()) - 1
    ensures fast ==> bufs.CurAvail() == old(bufs.CurAvail()) - 1
    ensures Unpack(w') + BitsOf(code, s) == Unpack(w) + BitsOf(code, s + 8)
  {
    hide BitsOf, Unpack, Low, Shr, Bufs.Valid;
    EmitTop(w, code, s);
    ok := PutByte(bufs, fast, Low(Shr(code, s), 8));
    w' := w + [Low(Shr(code, s), 8)];
    assert base + w + [Low(Shr(code, s), 8)] == base + w';
  }

  /** The number of octets that `n` bits touch. */
  function Octets(n: nat): nat { (n + 7) / 8 }

  lemma OctetsOf(m: nat, nbits: nat)
    requires 1 <= nbits <= 8 && nbits % 8 == m % 8
    ensures Octets(m) == if nbits == 8 then m / 8 else m / 8 + 1
    ensures nbits < 8 ==> m % 8 == nbits
  {}

  /** The octets `w` were written and `nbits` of `m` bits remain. */
  ghost predicate Upper(code: nat, m: nat, nbits: nat, w: seq<byte>)
  {
    && 1 <= nbits && nbits % 8 == m % 8 && |w| + Octets(nbits) == Octets(m)
    && Unpack(w) + BitsOf(code, 8 * Octets(nbits)) == BitsOf(code, 8 * Octets(m))
  }

  lemma UpperStart(code: nat, m: nat)
    requires m >= 1
    ensures Upper(code, m, m, []) && Octets(m) >= 1
  {
    hide BitsOf;
    NoBits(code, 8 * Octets(m));
  }

  lemma UpperEnd(code: nat, m: nat, nbits: nat, w: seq<byte>)
    requires m >= 1
    ensures Upper(code, m, nbits, w) && nbits <= 8 ==>
              && 1 <= nbits && nbits % 8 == m % 8 && |w| == Octets(m) - 1
              && Unpack(w) + BitsOf(code, 8) == BitsOf(code, 8 * Octets(m))
  {
    hide BitsOf, Unpack;
  }

  lemma UpperStep(code: nat, m: nat, nbits: nat, w: seq<byte>, s: nat, w': seq<byte>)
    requires (s == 8 || s == 16 || s == 24) && s < nbits <= s + 8 && Upper(code, m, nbits, w)
    requires |w'| == |w| + 1 && Unpack(w') + BitsOf(code, s) == Unpack(w) + BitsOf(code, s + 8)
    ensures Upper(code, m, nbits - 8, w') && Octets(nbits - 8) == Octets(nbits) - 1 >= 1
  {
    hide BitsOf, Unpack;
    assert 8 * Octets(nbits) == s + 8;
  }

  lemma UpperSize(code: nat, m: nat, nbits: nat, w: seq<byte>)
    requires Upper(code, m, nbits, w)
    ensures |w| + Octets(nbits) == Octets(m) && (nbits > 8 ==> Octets(nbits) >= 2) && Octets(nbits) >= 1
  {
    hide BitsOf, Unpack;
  }

  /** One of the tests: the octet at `s` is written if it is not the last. */
  method PutIf(bufs: Bufs, fast: bool, code: nat, s: nat, ghost m: nat, n: nat, ghost base: seq<byte>, ghost room: nat,
               ghost avail: nat, ghost w: seq<byte>)
    returns (ok: bool, nbits: nat, ghost w': seq<byte>)
    requires bufs.Valid() && bufs.NonEmptyAhead() && (s == 8 || s == 16 || s == 24) && n <= s + 8 && Upper(code, m, n, w)
    requires bufs.Content() == base + w && bufs.Room() == room - |w|
    requires fast ==> bufs.CurAvail() == avail - |w| && avail >= Octets(m)
    modifies bufs`chunks, bufs`cur
    ensures bufs.Valid() && bufs.NonEmptyAhead()
    ensures !ok ==> room + 1 < Octets(m)
    ensures ok ==> nbits <= s && Upper(code, m, nbits, w')
    ensures ok ==> bufs.Content() == base + w' && bufs.Room() == room - |w'|
    ensures ok && fast ==> bufs.CurAvail() == avail - |w'|
  {
    hide BitsOf, Unpack, Bufs.Valid, Upper, Octets;
    ok, nbits, w' := true, n, w;
    UpperSize(code, m, n, w);
    if n > s {
      ok, w' := PutTop(bufs, fast, code, s, base, w);
      UpperStep(code, m, n, w, s, w');
      nbits := n - 8;
    }
  }

  /** Writes the top octets of the aligned `code` while more than eight bits remain. */
  method PutUpper(bufs: Bufs, fast: bool, code: nat, m: nat) returns (ok: bool, nbits: nat, ghost w: seq<byte>)
    requires bufs.Valid() && bufs.NonEmptyAhead() && 1 <= m <= 32
    requires fast ==> bufs.CurAvail() >= Octets(m)
    modifies bufs`chunks, bufs`cur
    ensures bufs.Valid() && bufs.NonEmptyAhead()
    ensures ok <==> old(bufs.Room()) + 1 >= Octets(m)
    ensures ok ==> 1 <= nbits <= 8 && nbits % 8 == m % 8 && |w| == Octets(m) - 1
    ensures ok ==> bufs.Content() == old(bufs.Content()) + w && bufs.Room() == old(bufs.Room()) - |w|
    ensures ok ==> Unpack(w) + BitsOf(code, 8) == BitsOf(code, 8 * Octets(m))
    ensures ok && fast ==> bufs.CurAvail() == old(bufs.CurAvail()) - |w|
  {
    hide BitsOf, Unpack, Bufs.Valid, Upper, Octets;
    ghost var base, room, avail := bufs.Content(), bufs.Room(), if fast then bufs.CurAvail() else 0;
    nbits, w, ok := m, [], true;
    UpperStart(code, m);
    assert base + [] == base;
    ok, nbits, w := PutIf(bufs, fast, code, 24, m, nbits, base, room, avail, w);
    if !ok { return; }
    ok, nbits, w := PutIf(bufs, fast, code, 16, m, nbits, base, room, avail, w);
    if !ok { return; }
    ok, nbits, w := PutIf(bufs, fast, code, 8, m, nbits, base, room, avail, w);
    UpperEnd(code, m, nbits, w);
  }

  lemma NoBits(code: nat, n: nat)
    ensures Unpack([]) + BitsOf(code, n) == BitsOf(code, n)
  {}

  /** `code` shifted left so that its low `m` bits end at an octet boundary, as a 32-bit value. */
  function Aligned(code: nat, m: nat): nat
  {
    if m % 8 != 0 then Low(Shl(code, 8 - m % 8), 32) else code
  }

  lemma AlignedBits(code: nat, m: nat)
    requires 1 <= m <= 32
    ensures BitsOf(Aligned(code, m), 8 * Octets(m)) == BitsOf(code, m) + BitsOf(0, 8 * Octets(m) - m)
  {
    hide BitsOf, Low, Shl;
    var pad := 8 * Octets(m) - m;
    if pad > 0 {
      BitsOfLow(Shl(code, pad), m + pad, 32);
      BitsJoin(code, 0, m, pad);
    } else {
      NoTail(code, m);
    }
  }

  lemma NoTail(code: nat, m: nat)
    ensures BitsOf(code, m) == BitsOf(code, m) + BitsOf(0, 0)
  {}

  /** The last octet of the aligned code: `8 - pad` bits of code above `pad` zeros. */
  lemma AlignedLast(code: nat, m: nat)
    requires 1 <= m <= 32 && m % 8 != 0
    ensures var n := m % 8;
            && Low(Aligned(code, m), 8) == Shl(Low(code, n), 8 - n) < 256
            && BitsOf(Aligned(code, m), 8) == BitsOf(Low(code, n), n) + BitsOf(0, 8 - n)
  {
    hide BitsOf, Low, Shl;
    var n := m % 8;
    Pow2Small();
    LowLow(Shl(code, 8 - n), 8, 32);
    LowShl(code, 8 - n, n);
    BitsOfLow(Aligned(code, m), 8, 8);
    BitsJoin(Low(code, n), 0, n, 8 - n);
  }

  lemma CancelTail<T>(a: seq<T>, b: seq<T>, c: seq<T>)
    requires a + c == b + c
    ensures a == b
  {
    assert |a + c| == |b + c|;
    assert a == (a + c)[..|a|];
    assert b == (b + c)[..|b|];
  }

  /** The part of `huff_encode_sym` after the current octet is full: the low `m` bits of `code`
      go into fresh octets, the last of which may stay open with `rem` unfilled bits. */
  method PutRest(bufs: Bufs, fast: bool, code: nat, m: nat)
    returns (ok: bool, rem: nat, ghost h: nat, ghost w: seq<byte>)
    requires bufs.Valid() && bufs.NonEmptyAhead() && 1 <= m <= 32
    requires fast ==> bufs.CurAvail() >= Octets(m)
    modifies bufs`chunks, bufs`cur
    ensures bufs.Valid() && bufs.NonEmptyAhead()
    ensures ok <==> old(bufs.Room()) >= Octets(m)
    ensures ok ==> 1 <= rem <= 8 && rem % 8 == (8 - m % 8) % 8 && h < Pow2(8 - rem) && |w| == m / 8
    ensures ok ==> bufs.Content() == old(bufs.Content()) + w && bufs.Room() == old(bufs.Room()) - |w|
    ensures ok ==> Unpack(w) + BitsOf(h, 8 - rem) == BitsOf(code, m)
    ensures ok && rem < 8 ==> bufs.CurAvail() > 0 && bufs.Held() == Shl(h, rem)
  {
    hide BitsOf, Unpack, Low, Shl, Aligned, Pow2, Bufs.Valid, Octets;
    var x := Aligned(code, m);
    var nbits;
    ghost var base := bufs.Content();
    ok, nbits, w := PutUpper(bufs, fast, x, m);
    rem, h := 8, 0;
    if !ok { return; }
    OctetsOf(m, nbits);
    if nbits == 8 {
      ok, w := PutTop(bufs, fast, x, 0, base, w);
      NoBitsLeft(w, code, m, h);
    } else {
      rem, h := 8 - nbits, Low(code, nbits);
      AlignedLast(code, m);
      LastBits(w, code, m);
      ok := HoldByte(bufs, fast, Low(x, 8));
    }
  }

  lemma LastBits(w: seq<byte>, code: nat, m: nat)
    requires 1 <= m <= 32 && m % 8 != 0
    requires Unpack(w) + BitsOf(Aligned(code, m), 8) == BitsOf(Aligned(code, m), 8 * Octets(m))
    ensures Unpack(w) + BitsOf(Low(code, m % 8), m % 8) == BitsOf(code, m)
  {
    hide BitsOf, Low, Shl, Aligned, Unpack;
    var n := m % 8;
    AlignedBits(code, m);
    AlignedLast(code, m);
    var a, b, z := Unpack(w), BitsOf(Low(code, n), n), BitsOf(0, 8 - n);
    assert (a + b) + z == a + (b + z);
    CancelTail(a + b, BitsOf(code, m), z);
  }

  /** `nghttp2_bufs_fast_addb_hold` on the fast path, `nghttp2_bufs_addb_hold` on the slow one. */
  method HoldByte(bufs: Bufs, fast: bool, b: byte) returns (ok: bool)
    requires bufs.Valid() && bufs.NonEmptyAhead() && (fast ==> bufs.CurAvail() > 0)
    modifies bufs`chunks, bufs`cur
    ensures bufs.Valid() && bufs.NonEmptyAhead()
    ensures bufs.Content() == old(bufs.Content()) && bufs.Room() == old(bufs.Room())
    ensures ok <==> bufs.Room() > 0
    ensures ok ==> bufs.CurAvail() > 0 && bufs.Held() == b
  {
    if fast {
      bufs.FastAddbHold(b);
      return true;
    }
    ok := bufs.AddbHold(b);
  }

  lemma NoBitsLeft(w: seq<byte>, code: nat, m: nat, h: nat)
    requires 1 <= m <= 32 && m % 8 == 0
    requires Unpack(w) + BitsOf(Aligned(code, m), 0) == BitsOf(Aligned(code, m), 8 * Octets(m))
    ensures Unpack(w) + BitsOf(h, 0) == BitsOf(code, m) && Pow2(0) == 1
  {}

  /** Or-ing a code into an open octet whose `r` low bits are zero appends its bits. */
  lemma FillOpen(h: nat, r: nat, code: nat, n: nat)
    requires n <= r <= 8 && h < Pow2(8 - r) && code < Pow2(n)
    ensures Shl(code, r - n) < 256
    ensures var h' := Shl(h, n) + code;
            && Or(Shl(h, r), Shl(code, r - n)) == Shl(h', r - n)
            && h' < Pow2(8 - r + n)
            && BitsOf(h', 8 - r + n) == BitsOf(h, 8 - r) + BitsOf(code, n)
  {
    hide BitsOf, Shl, Or;
    Pow2Small();
    ShlRoom(code, 0, n, r - n);
    Pow2Monotone(r, 8);
    OrDisjoint(h, Shl(code, r - n), r);
    ShlShl(h, n, r - n);
    ShlAdd(Shl(h, n), code, r - n);
    ShlRoom(h, code, 8 - r, n);
    BitsJoin(h, code, 8 - r, n);
  }

  /** The bits of an octet closed by the top of a code longer than the room in it. */
  lemma CloseOctet(h: nat, r: nat, code: nat, n: nat)
    requires 1 <= r <= 8 && r < n && h < Pow2(8 - r) && code < Pow2(n)
    ensures Shr(code, n - r) < 256
    ensures var b := Or(Shl(h, r), Shr(code, n - r));
            b < 256 && Unpack([b]) + BitsOf(code, n - r) == BitsOf(h, 8 - r) + BitsOf(code, n)
  {
    hide BitsOf, Shl, Shr, Or, Unpack, Low;
    Pow2Small();
    ShrBound(code, r, n - r);
    var top := Shr(code, n - r);
    FillOpen(h, r, top, r);
    Pow2Monotone(r, 8);
    ShlNone(Shl(h, r) + top);
    ShlNone(top);
    var b := Shl(h, r) + top;
    OneByte(b);
    BitsSplit(code, r, n - r);
    assert BitsOf(h, 8 - r) + BitsOf(top, r) + BitsOf(code, n - r)
           == BitsOf(h, 8 - r) + (BitsOf(top, r) + BitsOf(code, n - r));
  }

  /** `huff_encode_sym`: `rembits` low bits of the held octet are still zero; `h` is what it holds.
      `avail` mirrors the room of the current chunk as the source's `avail_ptr` does. */
  method EncodeSym(bufs: Bufs, avail: nat, rembits: nat, sym: Sym, ghost h: nat)
    returns (ok: bool, rem: nat, avail': nat, ghost h': nat, ghost w: seq<byte>)
    requires bufs.Valid() && bufs.NonEmptyAhead() && avail == bufs.CurAvail() > 0
    requires 1 <= rembits <= 8 && h < Pow2(8 - rembits) && bufs.Held() == Shl(h, rembits)
    requires 5 <= sym.nbits <= 30 && sym.code < Pow2(sym.nbits)
    modifies bufs`chunks, bufs`cur
    ensures bufs.Valid() && bufs.NonEmptyAhead()
    ensures ok <==> old(bufs.Room()) >= Octets(8 - rembits + sym.nbits)
    ensures ok ==> 1 <= rem <= 8 && |w| == (8 - rembits + sym.nbits) / 8 && h' < Pow2(8 - rem)
    ensures ok ==> bufs.Content() == old(bufs.Content()) + w && bufs.Room() == old(bufs.Room()) - |w|
    ensures ok ==> Unpack(w) + BitsOf(h', 8 - rem) == BitsOf(h, 8 - rembits) + BitsOf(sym.code, sym.nbits)
    ensures ok ==> avail' == bufs.CurAvail()
    ensures ok && rem < 8 ==> avail' > 0 && bufs.Held() == Shl(h', rem)
  {
    hide BitsOf, Shl, Shr, Or, Unpack, Low, Pow2, Bufs.Valid;
    var nbits, code := sym.nbits, sym.code;
    if rembits > nbits {
      FillOpen(h, rembits, code, nbits);
      bufs.FastOrbHold(Shl(code, rembits - nbits));
      ok, rem, avail', h', w := true, rembits - nbits, avail, Shl(h, nbits) + code, [];
      assert bufs.Content() == old(bufs.Content()) + w;
      NothingYet(BitsOf(h', 8 - rem));
      return;
    }
    if rembits == nbits {
      FillOpen(h, rembits, code, nbits);
      ShlNone(Shl(h, nbits) + code);
      ShlNone(code);
      Pow2Small();
      bufs.FastOrb(code);
      ok, rem, avail', h', w := true, 8, avail - 1, 0, [Shl(h, nbits) + code];
      OneByte(Shl(h, nbits) + code);
      NothingAfter(BitsOf(Shl(h, nbits) + code, 8));
      return;
    }
    ok, rem, avail', h', w := EncodeLong(bufs, avail, rembits, sym, h);
  }

  /** The case of `huff_encode_sym` where the code does not fit in the current octet. */
  method EncodeLong(bufs: Bufs, avail: nat, rembits: nat, sym: Sym, ghost h: nat)
    returns (ok: bool, rem: nat, avail': nat, ghost h': nat, ghost w: seq<byte>)
    requires bufs.Valid() && bufs.NonEmptyAhead() && avail == bufs.CurAvail() > 0
    requires 1 <= rembits <= 8 && h < Pow2(8 - rembits) && bufs.Held() == Shl(h, rembits)
    requires rembits < sym.nbits <= 30 && sym.code < Pow2(sym.nbits)
    modifies bufs`chunks, bufs`cur
    ensures bufs.Valid() && bufs.NonEmptyAhead()
    ensures ok <==> old(bufs.Room()) >= Octets(8 - rembits + sym.nbits)
    ensures ok ==> 1 <= rem <= 8 && |w| == (8 - rembits + sym.nbits) / 8 && h' < Pow2(8 - rem)
    ensures ok ==> bufs.Content() == old(bufs.Content()) + w && bufs.Room() == old(bufs.Room()) - |w|
    ensures ok ==> Unpack(w) + BitsOf(h', 8 - rem) == BitsOf(h, 8 - rembits) + BitsOf(sym.code, sym.nbits)
    ensures ok ==> avail' == bufs.CurAvail()
    ensures ok && rem < 8 ==> avail' > 0 && bufs.Held() == Shl(h', rem)
  {
    hide BitsOf, Shl, Shr, Or, Unpack, Low, Pow2, Bufs.Valid;
    var m := sym.nbits - rembits;
    CloseOctet(h, rembits, sym.code, sym.nbits);
    bufs.FastOrb(Shr(sym.code, m));
    ghost var b := Or(Shl(h, rembits), Shr(sym.code, m));
    ghost var w2;
    ok, rem, h', w2 := PutRest(bufs, avail - 1 >= Octets(m), sym.code, m);
    avail' := bufs.CurAvail();
    w := [b] + w2;
    assert old(bufs.Content()) + [b] + w2 == old(bufs.Content()) + w;
    if ok {
      UnpackAppend([b], w2);
      assert Unpack([b]) + Unpack(w2) + BitsOf(h', 8 - rem) == Unpack([b]) + (Unpack(w2) + BitsOf(h', 8 - rem));
    }
  }

  lemma NothingYet(b: Bits)
    ensures Unpack([]) + b == b
  {}

  lemma NothingAfter(b: Bits)
    ensures b + BitsOf(0, 0) == b && Pow2(0) == 1
  {}

  /** One round of the loop of `nghttp2_hd_huff_encode`: open a zero octet when none is open. */
  method EncodeNext(bufs: Bufs, avail: nat, rembits: nat, sym: Sym, ghost h: nat)
    returns (ok: bool, rem: nat, avail': nat, ghost h': nat, ghost w: seq<byte>)
    requires bufs.Valid() && bufs.NonEmptyAhead() && avail == bufs.CurAvail()
    requires 1 <= rembits <= 8 && h < Pow2(8 - rembits)
    requires rembits < 8 ==> avail > 0 && bufs.Held() == Shl(h, rembits)
    requires 5 <= sym.nbits <= 30 && sym.code < Pow2(sym.nbits)
    modifies bufs`chunks, bufs`cur
    ensures bufs.Valid() && bufs.NonEmptyAhead()
    ensures ok <==> old(bufs.Room()) >= Octets(8 - rembits + sym.nbits)
    ensures ok ==> 1 <= rem <= 8 && |w| == (8 - rembits + sym.nbits) / 8 && h' < Pow2(8 - rem)
    ensures ok ==> bufs.Content() == old(bufs.Content()) + w && bufs.Room() == old(bufs.Room()) - |w|
    ensures ok ==> Unpack(w) + BitsOf(h', 8 - rem) == BitsOf(h, 8 - rembits) + BitsOf(sym.code, sym.nbits)
    ensures ok ==> avail' == bufs.CurAvail()
    ensures ok && rem < 8 ==> avail' > 0 && bufs.Held() == Shl(h', rem)
  {
    hide BitsOf, Shl, Unpack, Pow2, Bufs.Valid;
    var open := avail;
    if rembits == 8 {
      ZeroOctet(h);
      if avail > 0 {
        bufs.FastAddbHold(0);
      } else {
        ok := bufs.AddbHold(0);
        rem, avail', h', w := 8, 0, 0, [];
        if !ok { return; }
        open := bufs.CurAvail();
      }
    }
    ok, rem, avail', h', w := EncodeSym(bufs, open, rembits, sym, h);
  }

  lemma ZeroOctet(h: nat)
    requires h < Pow2(8 - 8)
    ensures h == 0 && Shl(0, 8) == 0
  {
    assert Shl(0, 3) == 0;
    assert Shl(0, 6) == 0;
  }

  /** What the writer has produced after `i` symbols: full octets `w` and an open one with `h`. */
  ghost predicate Written(t: Table, src: seq<byte>, i: nat, w: seq<byte>, h: nat, rembits: nat)
  {
    && i <= |src| && 1 <= rembits <= 8 && h < Pow2(8 - rembits)
    && Unpack(w) + BitsOf(h, 8 - rembits) == CodeBits(t, src[..i])
  }

  lemma WrittenStart(t: Table, src: seq<byte>)
    ensures Written(t, src, 0, [], 0, 8)
  {
    assert src[..0] == [];
  }

  lemma {:induction false} CodeBitsMonotone(t: Table, a: seq<byte>, b: seq<byte>)
    requires a <= b
    ensures |CodeBits(t, a)| <= |CodeBits(t, b)|
  {
    if a != [] { CodeBitsMonotone(t, a[1..], b[1..]); }
  }

  /** The octets still owed for the next symbol are among those of the whole string. */
  lemma WrittenBound(t: Table, src: seq<byte>, i: nat, w: seq<byte>, h: nat, rembits: nat)
    requires Written(t, src, i, w, h, rembits) && i < |src|
    ensures |Encode(t, src)| >= |w| + Octets(8 - rembits + t[src[i]].nbits)
  {
    hide BitsOf, Unpack, Pow2, CodeBits, Pack;
    assert src[..i + 1] == src[..i] + [src[i]];
    CodeBitsSnoc(t, src[..i], src[i]);
    CodeBitsMonotone(t, src[..i + 1], src);
    assert |CodeBits(t, src[..i])| == 8 * |w| + 8 - rembits;
  }

  lemma WrittenNext(t: Table, src: seq<byte>, i: nat, w: seq<byte>, h: nat, rembits: nat,
                    w2: seq<byte>, h2: nat, r2: nat)
    requires Written(t, src, i, w, h, rembits) && i < |src|
    requires 1 <= r2 <= 8 && h2 < Pow2(8 - r2)
    requires Unpack(w2) + BitsOf(h2, 8 - r2) == BitsOf(h, 8 - rembits) + Code(t, src[i])
    ensures Written(t, src, i + 1, w + w2, h2, r2)
  {
    hide BitsOf, Unpack, Pow2, CodeBits, Code;
    assert src[..i + 1] == src[..i] + [src[i]];
    CodeBitsSnoc(t, src[..i], src[i]);
    UnpackAppend(w, w2);
    var u, u2, b, b2, c := Unpack(w), Unpack(w2), BitsOf(h, 8 - rembits), BitsOf(h2, 8 - r2), Code(t, src[i]);
    assert (u + u2) + b2 == u + (u2 + b2) == u + (b + c) == (u + b) + c;
  }

  /** Without an open octet the padded form is complete. */
  lemma WrittenFull(t: Table, src: seq<byte>, w: seq<byte>, h: nat)
    requires Written(t, src, |src|, w, h, 8)
    ensures w == Encode(t, src)
  {
    hide BitsOf, Unpack, Pow2, CodeBits, Pack;
    assert src[..|src|] == src;
    assert Unpack(w) + BitsOf(h, 0) == Unpack(w);
    var n := |CodeBits(t, src)|;
    assert n == 8 * |w|;
    assert PadLength(n) == 0;
    assert Padded(t, src) == Unpack(w);
    PackUnpack(w);
  }

  /** Closing the last octet with the leading bits of EOS gives the padded form. */
  lemma WrittenEnd(t: Table, src: seq<byte>, w: seq<byte>, h: nat, rembits: nat)
    requires Good(t) && Written(t, src, |src|, w, h, rembits) && rembits < 8
    ensures t[EOS].nbits == EOS_BITS && Shr(t[EOS].code, EOS_BITS - rembits) < 256
    ensures var b := Or(Shl(h, rembits), Shr(t[EOS].code, EOS_BITS - rembits));
            b < 256 && w + [b] == Encode(t, src)
  {
    hide BitsOf, Unpack, Pow2, CodeBits, Shl, Shr, Or, Pack, AllOnes;
    var c := t[EOS].code;
    CloseOctet(h, rembits, c, EOS_BITS);
    var b := Or(Shl(h, rembits), Shr(c, EOS_BITS - rembits));
    PadBits(t, h, rembits, b);
    assert src[..|src|] == src;
    assert |CodeBits(t, src)| == 8 * |w| + 8 - rembits;
    assert PadLength(|CodeBits(t, src)|) == rembits;
    UnpackAppend(w, [b]);
    var u, k, z := Unpack(w), BitsOf(h, 8 - rembits), Ones(rembits);
    assert u + (k + z) == (u + k) + z;
    PackUnpack(w + [b]);
  }

  lemma PadBits(t: Table, h: nat, r: nat, b: byte)
    requires Good(t) && r <= 8 && h < Pow2(8 - r)
    requires Unpack([b]) + BitsOf(t[EOS].code, EOS_BITS - r) == BitsOf(h, 8 - r) + BitsOf(t[EOS].code, EOS_BITS)
    ensures Unpack([b]) == BitsOf(h, 8 - r) + Ones(r)
  {
    var c := t[EOS].code;
    BitsSplit(c, r, EOS_BITS - r);
    assert Code(t, EOS) == BitsOf(c, EOS_BITS);
    hide BitsOf, Unpack, Shr, Pow2;
    var top := BitsOf(Shr(c, EOS_BITS - r), r);
    assert AllOnes(top) by {
      assert top == Code(t, EOS)[..r];
    }
    assert top == Ones(r);
    var k, z := BitsOf(h, 8 - r), BitsOf(c, EOS_BITS - r);
    assert (k + top) + z == k + (top + z);
    CancelTail(Unpack([b]), k + top, z);
  }

  /** `nghttp2_hd_huff_encode`: for every chain of non-empty chunks it succeeds exactly when the
      octets of the Huffman form fit, and then appends exactly those. */
  method HuffEncode(bufs: Bufs, t: Table, src: seq<byte>) returns (ok: bool)
    requires bufs.Valid() && bufs.NonEmptyAhead() && Good(t)
    modifies bufs`chunks, bufs`cur
    ensures bufs.Valid() && bufs.NonEmptyAhead()
    ensures ok <==> old(bufs.Room()) >= |Encode(t, src)|
    ensures ok ==> bufs.Content() == old(bufs.Content()) + Encode(t, src)
    ensures ok ==> bufs.Room() == old(bufs.Room()) - |Encode(t, src)|
  {
    hide BitsOf, Shl, Shr, Or, Unpack, Pow2, CodeBits, Encode, Pack, Bufs.Valid;
    var rembits, avail := 8, bufs.CurAvail();
    ghost var h, w := 0, [];
    WrittenStart(t, src);
    for i := 0 to |src|
      invariant bufs.Valid() && bufs.NonEmptyAhead() && avail == bufs.CurAvail()
      invariant Written(t, src, i, w, h, rembits)
      invariant bufs.Content() == old(bufs.Content()) + w && bufs.Room() == old(bufs.Room()) - |w|
      invariant rembits < 8 ==> avail > 0 && bufs.Held() == Shl(h, rembits)
    {
      WrittenBound(t, src, i, w, h, rembits);
      ghost var h1, r1, w2 := h, rembits, [];
      ok, rembits, avail, h, w2 := EncodeNext(bufs, avail, rembits, t[src[i]], h);
      if !ok { return; }
      WrittenNext(t, src, i, w, h1, r1, w2, h, rembits);
      assert old(bufs.Content()) + w + w2 == old(bufs.Content()) + (w + w2);
      w := w + w2;
    }
    ok := true;
    if rembits == 8 {
      WrittenFull(t, src, w, h);
    } else {
      WrittenEnd(t, src, w, h, rembits);
      bufs.FastOrb(Shr(t[EOS].code, t[EOS].nbits - rembits));
    }
  }
}
