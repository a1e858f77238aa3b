/** Bytes, the shifts and masks of unsigned arithmetic, and the concatenation of chunks. */
module Bytes {

  type byte = b: int | 0 <= b < 256

  const UINT32_MAX: nat := 0xFFFF_FFFF
  const TWO32: nat := 0x1_0000_0000

  function Min(a: int, b: int): int { if a < b then a else b }

  function Max(a: int, b: int): int { if a > b then a else b }

  function Pow2(n: nat): (p: nat)
    ensures p >= 1
  {
    if n == 0 then 1 else 2 * Pow2(n - 1)
  }

  /** `x << s` without overflow. */
  function Shl(x: nat, s: nat): (r: nat)
  {
    if s == 0 then x else 2 * Shl(x, s - 1)
  }

  lemma ShlNone(x: nat)
    ensures Shl(x, 0) == x
  {}

  /** `x >> s`. */
  function Shr(x: nat, s: nat): (r: nat)
    decreases s
  {
    if s == 0 then x else Shr(x / 2, s - 1)
  }

  /** `x & ((1 << s) - 1)`. */
  function Low(x: nat, s: nat): (r: nat)
    ensures r < Pow2(s)
    decreases s
  {
    if s == 0 then 0 else x % 2 + 2 * Low(x / 2, s - 1)
  }

  lemma Pow2Small()
    ensures Pow2(0) == 1 && Pow2(1) == 2 && Pow2(2) == 4 && Pow2(3) == 8
    ensures Pow2(4) == 16 && Pow2(5) == 32 && Pow2(6) == 64 && Pow2(7) == 128 && Pow2(8) == 256
  {
    assert Pow2(3) == 8;
    assert Pow2(6) == 64;
  }

  lemma Pow2Words()
    ensures Pow2(16) == 0x1_0000 && Pow2(24) == 0x100_0000 && Pow2(32) == TWO32
  {
    Pow2Small();
    assert Pow2(12) == 4096 by { assert Pow2(10) == 1024; }
    assert Pow2(16) == 0x1_0000 by { assert Pow2(14) == 0x4000; }
    assert Pow2(20) == 0x10_0000 by { assert Pow2(18) == 0x4_0000; }
    assert Pow2(24) == 0x100_0000 by { assert Pow2(22) == 0x40_0000; }
    assert Pow2(28) == 0x1000_0000 by { assert Pow2(26) == 0x400_0000; }
    assert Pow2(32) == TWO32 by { assert Pow2(30) == 0x4000_0000; }
  }

  lemma {:induction false} Pow2Monotone(a: nat, b: nat)
    requires a <= b
    ensures Pow2(a) <= Pow2(b)
  {
    if a < b {
      Pow2Monotone(a, b - 1);
    }
  }

  /** A number is its high part shifted back plus its low part. */
  lemma {:induction false} Split(x: nat, s: nat)
    ensures x == Shl(Shr(x, s), s) + Low(x, s)
    decreases s
  {
    if s > 0 {
      Split(x / 2, s - 1);
    }
  }

  /** Shifting left leaves room for `r`; shifting right and masking take the parts out again. */
  lemma {:induction false} Join(q: nat, r: nat, s: nat)
    requires r < Pow2(s)
    ensures Shr(Shl(q, s) + r, s) == q && Low(Shl(q, s) + r, s) == r
    decreases s
  {
    if s > 0 {
      Join(q, r / 2, s - 1);
    }
  }

  lemma {:induction false} ShlRoom(q: nat, r: nat, a: nat, s: nat)
    requires q < Pow2(a) && r < Pow2(s)
    ensures Shl(q, s) + r < Pow2(a + s)
    decreases s
  {
    if s > 0 {
      ShlRoom(q, r / 2, a, s - 1);
    }
  }

  lemma {:induction false} ShrBound(x: nat, a: nat, s: nat)
    requires x < Pow2(a + s)
    ensures Shr(x, s) < Pow2(a)
    decreases s
  {
    if s > 0 {
      ShrBound(x / 2, a, s - 1);
    }
  }

  lemma {:induction false} ShlAdd(a: nat, b: nat, s: nat)
    ensures Shl(a + b, s) == Shl(a, s) + Shl(b, s)
  {
    if s > 0 { ShlAdd(a, b, s - 1); }
  }

  lemma {:induction false} ShlShl(x: nat, a: nat, b: nat)
    ensures Shl(Shl(x, a), b) == Shl(x, a + b)
  {
    if b > 0 { ShlShl(x, a, b - 1); }
  }

  lemma {:induction false} ShlMonotone(a: nat, b: nat, s: nat)
    requires a <= b
    ensures Shl(a, s) <= Shl(b, s)
  {
    if s > 0 { ShlMonotone(a, b, s - 1); }
  }

  lemma {:induction false} ShlOne(s: nat)
    ensures Shl(1, s) == Pow2(s)
  {
    if s > 0 { ShlOne(s - 1); }
  }

  /** The overflow test `(x >> s) < d` is exact: it holds just when `d << s` exceeds `x`. */
  lemma {:induction false} ShrGalois(x: nat, d: nat, s: nat)
    ensures Shl(d, s) <= x <==> d <= Shr(x, s)
    decreases s
  {
    if s > 0 {
      ShrGalois(x / 2, d, s - 1);
    }
  }

  /** C's bitwise or. */
  function Or(a: nat, b: nat): (r: nat)
    ensures r >= a
    decreases a + b
  {
    if a == 0 then b
    else if b == 0 then a
    else 2 * Or(a / 2, b / 2) + (if a % 2 == 1 || b % 2 == 1 then 1 else 0)
  }

  lemma {:induction false} OrBound(a: nat, b: nat, n: nat)
    requires a < Pow2(n) && b < Pow2(n)
    ensures Or(a, b) < Pow2(n)
    decreases n
  {
    if n > 0 && a > 0 && b > 0 { OrBound(a / 2, b / 2, n - 1); }
  }

  lemma OrByte(a: byte, b: byte)
    ensures Or(a, b) < 256
  {
    Pow2Small();
    OrBound(a, b, 8);
  }

  /** Or-ing into bits that are still zero is addition. */
  lemma {:induction false} OrDisjoint(q: nat, r: nat, s: nat)
    requires r < Pow2(s)
    ensures Or(Shl(q, s), r) == Shl(q, s) + r
    decreases s
  {
    if s > 0 && r > 0 && Shl(q, s) > 0 {
      OrDisjoint(q, r / 2, s - 1);
    }
  }

  /** The concatenation of a list of chunks. */
  function Flatten<T>(chunks: seq<seq<T>>): seq<T>
  {
    if chunks == [] then [] else chunks[0] + Flatten(chunks[1..])
  }

  lemma {:induction false} FlattenAppend<T>(a: seq<seq<T>>, b: seq<seq<T>>)
    ensures Flatten(a + b) == Flatten(a) + Flatten(b)
  {
    if a == [] {
      assert a + b == b;
    } else {
      assert (a + b)[0] == a[0] && (a + b)[1..] == a[1..] + b;
      FlattenAppend(a[1..], b);
      assert a[0] + (Flatten(a[1..]) + Flatten(b)) == Flatten(a) + Flatten(b);
    }
  }
}
