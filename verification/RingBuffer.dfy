/** `nghttp2_hd_ringbuf`: a power-of-two ring of table entries, newest first, whose `first` is a
    wrapping 64-bit counter. */
module RingBuffer {
  import opened Bytes

  const TWO64: nat := 0x1_0000_0000_0000_0000

  /** `nghttp2_hd_entry`: `next` links the entries of one hash bucket. */
  class Entry {
    const name: seq<byte>
    const value: seq<byte>
    const token: int
    const hash: nat
    const seqNo: nat
    var next: Entry?

    constructor (name: seq<byte>, value: seq<byte>, token: int, hash: nat, seqNo: nat)
      ensures this.name == name && this.value == value && this.token == token
      ensures this.hash == hash && this.seqNo == seqNo && next == null
    {
      this.name, this.value, this.token, this.hash, this.seqNo := name, value, token, hash, seqNo;
      next := null;
    }
  }

  /** `buffer[(first + i) & mask]`, the sum taken in 64 bits. */
  function Slot(first: nat, i: nat, size: nat): (s: nat)
    requires size > 0
    ensures s < size
  {
    ((first + i) % TWO64) % size
  }

  /** Sizes are powers of two, so they divide the range of the counter. */
  ghost predicate PowerOfTwo(size: nat) { exists k: nat :: k <= 64 && size == Pow2(k) }

  lemma {:induction false} Pow2Divides(k: nat, n: nat)
    requires k <= n
    ensures exists q: nat :: q * Pow2(k) == Pow2(n)
  {
    if k == n {
      assert 1 * Pow2(k) == Pow2(n);
    } else {
      Pow2Divides(k, n - 1);
      var q: nat :| q * Pow2(k) == Pow2(n - 1);
      assert (2 * q) * Pow2(k) == 2 * (q * Pow2(k));
    }
  }

  lemma Pow2Is64()
    ensures Pow2(64) == TWO64
  {
    Pow2Words();
    assert Pow2(36) == 0x10_0000_0000 by { assert Pow2(34) == 0x4_0000_0000; }
    assert Pow2(40) == 0x100_0000_0000 by { assert Pow2(38) == 0x40_0000_0000; }
    assert Pow2(44) == 0x1000_0000_0000 by { assert Pow2(42) == 0x400_0000_0000; }
    assert Pow2(48) == 0x1_0000_0000_0000 by { assert Pow2(46) == 0x4000_0000_0000; }
    assert Pow2(52) == 0x10_0000_0000_0000 by { assert Pow2(50) == 0x4_0000_0000_0000; }
    assert Pow2(56) == 0x100_0000_0000_0000 by { assert Pow2(54) == 0x40_0000_0000_0000; }
    assert Pow2(60) == 0x1000_0000_0000_0000 by { assert Pow2(58) == 0x400_0000_0000_0000; }
    assert Pow2(64) == TWO64 by { assert Pow2(62) == 0x4000_0000_0000_0000; }
  }

  lemma ModUnique(x: int, p: nat, q: int, r: int)
    requires p > 0 && x == q * p + r && 0 <= r < p
    ensures x % p == r
  {
    var d := x / p - q;
    assert x == (x / p) * p + x % p;
    assert d * p == r - x % p;
    assert d >= 1 ==> d * p >= p;
    assert d <= -1 ==> d * p + p <= 0;
  }

  /** Reducing modulo a divisor of 2^64 forgets the wrap of the counter. */
  lemma WrapModulo(x: nat, size: nat)
    requires PowerOfTwo(size)
    ensures size > 0 && (x % TWO64) % size == x % size
  {
    var k: nat :| k <= 64 && size == Pow2(k);
    Pow2Is64();
    Pow2Divides(k, 64);
    var q: nat :| q * size == TWO64;
    NestedModulo(x, size, q);
  }

  lemma NestedModulo(x: nat, size: nat, q: nat)
    requires size > 0 && q * size == TWO64
    ensures (x % TWO64) % size == x % size
  {
    var h, l := x / TWO64, x % TWO64;
    var a, r := l / size, l % size;
    var m := (h * q + a);
    assert m * size == h * (q * size) + a * size;
    ModUnique(x, size, m, r);
  }

  lemma ModStep(x: nat, size: nat, y: nat)
    requires size > 0
    ensures (x + y) % size == (x % size + y) % size
  {
    var q, r := x / size, x % size;
    var b := (r + y) / size;
    assert x + y == (q + b) * size + (r + y) % size by {
      assert x == q * size + r;
      assert r + y == b * size + (r + y) % size;
      assert (q + b) * size == q * size + b * size;
    }
    ModUnique(x + y, size, q + b, (r + y) % size);
  }

  lemma SmallMod(x: nat, size: nat)
    requires size > 0 && x < 2 * size
    ensures x % size == if x < size then x else x - size
  {
    if x < size { ModUnique(x, size, 0, x); } else { ModUnique(x, size, 1, x - size); }
  }

  /** The slots in terms of the ring position of `first`: no multiplication left. */
  lemma SlotAt(first: nat, i: nat, size: nat)
    requires PowerOfTwo(size) && i <= size
    ensures size > 0
    ensures var b := first % size;
            Slot(first, i, size) == if i == size then b else if b + i < size then b + i else b + i - size
  {
    WrapModulo(first + i, size);
    ModStep(first, size, i);
    SmallMod(first % size + i, size);
  }

  /** `--first`: the ring position moves back by one, across the wrap of the counter too. */
  lemma FirstBack(first: nat, size: nat)
    requires PowerOfTwo(size) && first < TWO64
    ensures size > 0
    ensures var f := (first + (TWO64 - 1)) % TWO64;
            f < TWO64 && f % size == if first % size == 0 then size - 1 else first % size - 1
  {
    WrapModulo(first + (TWO64 - 1), size);
    WrapModulo(TWO64 - 1, size);
    var b := first % size;
    assert (TWO64 - 1) % size == size - 1 by { LastSlot(size); }
    ModStep(first, size, TWO64 - 1);
    ModStep(TWO64 - 1, size, b);
    SmallMod(size - 1 + b, size);
  }

  lemma LastSlot(size: nat)
    requires PowerOfTwo(size)
    ensures size > 0 && (TWO64 - 1) % size == size - 1
  {
    var k: nat :| k <= 64 && size == Pow2(k);
    Pow2Is64();
    Pow2Divides(k, 64);
    var q: nat :| q * size == TWO64;
    assert TWO64 - 1 == (q - 1) * size + (size - 1);
    ModUnique(TWO64 - 1, size, q - 1, size - 1);
  }

  lemma SlotsFromZero(size: nat)
    requires PowerOfTwo(size)
    ensures size > 0 && forall j :: 0 <= j < size ==> Slot(0, j, size) == j
  {
    SlotAt(0, 0, size);
    SmallMod(0, size);
    forall j | 0 <= j < size ensures Slot(0, j, size) == j {
      SlotAt(0, j, size);
    }
  }

  class Ring {
    var buffer: array<Entry?>
    var first: nat
    var len: nat
    ghost var entries: seq<Entry>

    ghost predicate Valid()
      reads this, buffer
    {
      && PowerOfTwo(buffer.Length) && buffer.Length > 0
      && first < TWO64 && len == |entries| <= buffer.Length
      && forall i :: 0 <= i < len ==> buffer[Slot(first, i, buffer.Length)] == entries[i]
    }

    /** `hd_ringbuf_init`. */
    constructor (bufsize: nat)
      requires bufsize <= TWO64
      ensures Valid() && entries == [] && fresh(buffer)
    {
      var size := RoundUp(bufsize);
      buffer := new Entry?[size](_ => null);
      first, len, entries := 0, 0, [];
    }

    /** `hd_ringbuf_get`. */
    method Get(idx: nat) returns (e: Entry)
      requires Valid() && idx < len
      ensures e == entries[idx]
    {
      e := buffer[Slot(first, idx, buffer.Length)];
    }

    /** `hd_ringbuf_reserve`: grow to a larger power of two, entries first. */
    method Reserve(bufsize: nat)
      requires Valid() && bufsize <= TWO64
      modifies this
      ensures Valid() && entries == old(entries) && len == old(len)
      ensures buffer.Length >= bufsize
      ensures buffer == old(buffer) || fresh(buffer)
    {
      hide Slot, PowerOfTwo;
      if buffer.Length >= bufsize {
        return;
      }
      var size := RoundUp(bufsize);
      var bigger := new Entry?[size](_ => null);
      var i := 0;
      while i < len
        invariant 0 <= i <= len
        invariant forall j :: 0 <= j < i ==> bigger[j] == entries[j]
        modifies bigger
      {
        bigger[i] := buffer[Slot(first, i, buffer.Length)];
        i := i + 1;
      }
      SlotsFromZero(size);
      buffer, first := bigger, 0;
    }

    /** `hd_ringbuf_push_front`. */
    method PushFront(e: Entry)
      requires Valid() && len < TWO64
      modifies this, buffer
      ensures Valid() && entries == [e] + old(entries) && len == old(len) + 1
      ensures buffer == old(buffer) || fresh(buffer)
    {
      hide Slot, PowerOfTwo;
      Reserve(len + 1);
      ghost var f0, size := first, buffer.Length;
      FirstBack(first, buffer.Length);
      first := (first + (TWO64 - 1)) % TWO64;
      var s := Slot(first, 0, buffer.Length);
      Shifted(f0, first, size);
      buffer[s] := e;
      len := len + 1;
      entries := [e] + entries;
    }

    /** `hd_ringbuf_pop_back`. */
    method PopBack()
      requires Valid() && len > 0
      modifies this
      ensures Valid() && entries == old(entries)[..old(len) - 1] && len == old(len) - 1 && buffer == old(buffer)
    {
      len := len - 1;
      entries := entries[..len];
    }
  }

  /** After `--first` the old entries keep their slots, one position later, and slot 0 is another one. */
  lemma Shifted(before: nat, after: nat, size: nat)
    requires PowerOfTwo(size) && before < TWO64 && after == (before + (TWO64 - 1)) % TWO64
    ensures size > 0
    ensures forall i :: 0 <= i < size - 1 ==>
              Slot(after, i + 1, size) == Slot(before, i, size) != Slot(after, 0, size)
  {
    FirstBack(before, size);
    SlotAt(after, 0, size);
    forall i | 0 <= i < size - 1
      ensures Slot(after, i + 1, size) == Slot(before, i, size) != Slot(after, 0, size)
    {
      SlotAt(before, i, size);
      SlotAt(after, i + 1, size);
    }
  }

  /** `for (size = 1; size < bufsize; size <<= 1);` */
  method RoundUp(bufsize: nat) returns (size: nat)
    requires bufsize <= TWO64
    ensures PowerOfTwo(size) && size >= bufsize && size > 0
  {
    size := 1;
    ghost var k: nat := 0;
    Pow2Is64();
    while size < bufsize
      invariant k <= 64 && size == Pow2(k)
      decreases 64 - k
    {
      size := 2 * size;
      k := k + 1;
    }
  }
}
