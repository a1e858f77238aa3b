/** Prefixed integers, section 5.1 of RFC 7541: `encode_length`, `count_encoded_length`
    and the resumable `decode_length`. */
module PrefixInt {
  import opened Bytes

  /** The continuation octets: base-128 digits, least significant first. */
  function Tail(n: nat): (bs: seq<byte>)
    ensures |bs| >= 1
  {
    if n < 128 then [n] else [128 + n % 128] + Tail(n / 128)
  }

  /** The bits of `b` above a `prefix`-bit prefix. */
  function High(b: byte, prefix: nat): (h: byte)
    requires 1 <= prefix <= 8
    ensures h + Pow2(prefix) <= 256
  {
    Split(b, prefix);
    assert Shl(Shr(b, prefix), prefix) + (Pow2(prefix) - 1) < 256 by {
      Pow2Small();
      ShrBound(b, 8 - prefix, prefix);
      ShlRoom(Shr(b, prefix), Pow2(prefix) - 1, 8 - prefix, prefix);
    }
    Shl(Shr(b, prefix), prefix)
  }

  /** The octets of `n` under a `prefix`-bit prefix whose first octet keeps the high bits of `first`. */
  function Encode(first: byte, n: nat, prefix: nat): (bs: seq<byte>)
    requires 1 <= prefix <= 8
    ensures |bs| >= 1
  {
    var k := Pow2(prefix) - 1;
    if n < k then [High(first, prefix) + n] else [High(first, prefix) + k] + Tail(n - k)
  }

  /** What one octet does to a decoder that holds `n` (0 when no octet was read yet). */
  datatype Progress = Failed | Done(value: nat) | More(n: nat, shift: nat)

  function Step(n: nat, shift: nat, b: byte, prefix: nat): Progress
    requires 1 <= prefix <= 8
  {
    var k := Pow2(prefix) - 1;
    if n == 0 then
      if Low(b, prefix) != k then Done(Low(b, prefix)) else More(k, shift)
    else
      var add: nat := Shl(b % 128, shift);
      if shift >= 32 then Failed
      else if Shr(UINT32_MAX, shift) < b % 128 then Failed
      else if UINT32_MAX - add < n then Failed
      else if b < 128 then Done(n + add)
      else More(n + add, shift + 7)
  }

  /** Feed octets until the integer ends, an error occurs or the octets run out;
      the second component counts the octets used. */
  function Read(n: nat, shift: nat, bs: seq<byte>, prefix: nat): (r: (Progress, nat))
    requires 1 <= prefix <= 8
    ensures r.1 <= |bs|
    ensures r.0.More? ==> r.1 == |bs|
    ensures r.0.Done? ==> 0 < r.1
    decreases |bs|
  {
    if bs == [] then (More(n, shift), 0)
    else
      match Step(n, shift, bs[0], prefix)
      case More(n', shift') =>
        var rest := Read(n', shift', bs[1..], prefix);
        (rest.0, rest.1 + 1)
      case stop => (stop, 1)
  }

  /** The number that `m` stands for when its lowest digit is read at digit position `j`. */
  function Weighted(m: nat, j: nat): (v: nat) { Shl(m, 7 * j) }

  lemma {:induction false} TailRoundTrip(n: nat, m: nat, j: nat, rest: seq<byte>, prefix: nat)
    requires 1 <= prefix <= 8 && n > 0 && (m > 0 || j == 0)
    requires n + Weighted(m, j) <= UINT32_MAX
    ensures Read(n, 7 * j, Tail(m) + rest, prefix) == (Done(n + Weighted(m, j)), |Tail(m)|)
    decreases m
  {
    hide Step, Weighted;
    var bs := Tail(m) + rest;
    StepDigit(n, m, j, prefix);
    if m < 128 {
      assert bs[0] == m;
    } else {
      assert bs[0] == 128 + m % 128;
      assert bs[1..] == Tail(m / 128) + rest;
      TailRoundTrip(n + Weighted(m % 128, j), m / 128, j + 1, rest, prefix);
    }
  }

  /** Reading one digit moves its weight from what is still to come into what is held. */
  lemma StepDigit(n: nat, m: nat, j: nat, prefix: nat)
    requires 1 <= prefix <= 8 && n > 0 && (m > 0 || j == 0)
    requires n + Weighted(m, j) <= UINT32_MAX
    ensures m < 128 ==> Step(n, 7 * j, m, prefix) == Done(n + Weighted(m, j))
    ensures m >= 128 ==>
              && Step(n, 7 * j, 128 + m % 128, prefix) == More(n + Weighted(m % 128, j), 7 * (j + 1))
              && Weighted(m, j) == Weighted(m % 128, j) + Weighted(m / 128, j + 1)
  {
    hide Pow2, Shl, Shr, Low;
    ShiftInRange(m, j);
    var d := m % 128;
    ShlMonotone(d, m, 7 * j);
    ShrGalois(UINT32_MAX, d, 7 * j);
    if m >= 128 {
      DigitSplit(m, j);
    }
  }

  lemma DigitSplit(m: nat, j: nat)
    ensures Weighted(m, j) == Weighted(m % 128, j) + Weighted(m / 128, j + 1)
  {
    var q := m / 128;
    assert Shl(q, 7) == 128 * q by {
      assert Shl(q, 2) == 4 * q by { assert Shl(q, 1) == 2 * q; }
      assert Shl(q, 4) == 16 * q by { assert Shl(q, 3) == 8 * q; }
      assert Shl(q, 6) == 64 * q by { assert Shl(q, 5) == 32 * q; }
    }
    ShlAdd(m % 128, Shl(q, 7), 7 * j);
    ShlShl(q, 7, 7 * j);
  }

  lemma ShiftInRange(m: nat, j: nat)
    requires (m > 0 || j == 0) && Weighted(m, j) <= UINT32_MAX
    ensures 7 * j < 32
  {
    if m > 0 { ShlMonotone(1, m, 7 * j); }
    ShlOne(7 * j);
    Pow2Words();
    assert 7 * j >= 32 ==> Pow2(7 * j) >= TWO32 by {
      if 7 * j >= 32 { Pow2Monotone(32, 7 * j); }
    }
  }

  /** Decoding inverts encoding for every value up to UINT32_MAX, whatever follows the integer. */
  lemma RoundTrip(first: byte, n: nat, prefix: nat, rest: seq<byte>)
    requires 1 <= prefix <= 8 && n <= UINT32_MAX
    ensures Read(0, 0, Encode(first, n, prefix) + rest, prefix) == (Done(n), |Encode(first, n, prefix)|)
  {
    hide High, Step;
    var k := Pow2(prefix) - 1;
    var bs := Encode(first, n, prefix) + rest;
    StepFirst(first, Min(n, k), prefix);
    assert bs[0] == High(first, prefix) + Min(n, k);
    if n >= k {
      assert bs[1..] == Tail(n - k) + rest;
      assert Weighted(n - k, 0) == n - k;
      TailRoundTrip(k, n - k, 0, rest, prefix);
    }
  }

  lemma StepFirst(first: byte, low: nat, prefix: nat)
    requires 1 <= prefix <= 8 && low < Pow2(prefix)
    ensures Step(0, 0, High(first, prefix) + low, prefix)
            == if low < Pow2(prefix) - 1 then Done(low) else More(low, 0)
    ensures Pow2(prefix) >= 2
  {
    Join(Shr(first, prefix), low, prefix);
    Pow2Monotone(1, prefix);
  }

  /** A larger value is refused, wherever the reading notices. */
  lemma {:induction false} TailTooLarge(n: nat, m: nat, j: nat, rest: seq<byte>, prefix: nat)
    requires 1 <= prefix <= 8 && 0 < n <= UINT32_MAX && n + Weighted(m, j) > UINT32_MAX
    ensures Read(n, 7 * j, Tail(m) + rest, prefix).0 == Failed
    decreases m
  {
    hide Step, Weighted;
    var bs := Tail(m) + rest;
    LargeStep(n, m, j, prefix);
    if m < 128 {
      assert bs[0] == m;
    } else {
      assert bs[0] == 128 + m % 128;
      assert bs[1..] == Tail(m / 128) + rest;
      DigitSplit(m, j);
      var add := Weighted(m % 128, j);
      if n + add <= UINT32_MAX { TailTooLarge(n + add, m / 128, j + 1, rest, prefix); }
    }
  }

  lemma LargeStep(n: nat, m: nat, j: nat, prefix: nat)
    requires 1 <= prefix <= 8 && n > 0
    ensures m < 128 && n + Weighted(m, j) > UINT32_MAX ==> Step(n, 7 * j, m, prefix) == Failed
    ensures m >= 128 ==>
              var add := Weighted(m % 128, j);
              || Step(n, 7 * j, 128 + m % 128, prefix) == Failed
              || (Step(n, 7 * j, 128 + m % 128, prefix) == More(n + add, 7 * (j + 1)) && n + add <= UINT32_MAX)
  {
    hide Shl, Shr, Low, Pow2;
  }

  lemma TooLarge(first: byte, n: nat, prefix: nat, rest: seq<byte>)
    requires 1 <= prefix <= 8 && n > UINT32_MAX
    ensures Read(0, 0, Encode(first, n, prefix) + rest, prefix).0 == Failed
  {
    hide High, Step, Pow2, Tail, Weighted;
    PrefixRoom(prefix);
    var k := Pow2(prefix) - 1;
    var bs := Encode(first, n, prefix) + rest;
    StepFirst(first, k, prefix);
    assert bs[0] == High(first, prefix) + k && bs[1..] == Tail(n - k) + rest;
    AtFirst(n - k);
    TailTooLarge(k, n - k, 0, rest, prefix);
  }

  lemma AtFirst(m: nat)
    ensures Weighted(m, 0) == m
  {}

  /** The examples of appendix C.1 of RFC 7541. */
  lemma Examples()
    ensures Encode(0, 10, 5) == [10] && Encode(0, 1337, 5) == [31, 154, 10] && Encode(0, 42, 8) == [42]
  {
    Pow2Small();
    assert Shr(0, 5) == 0 && Shr(0, 8) == 0;
    assert Tail(10) == [10] && Tail(1306) == [154, 10];
  }

  /** Reading octets in two pieces equals reading them at once. */
  lemma {:induction false} ReadSplit(n: nat, shift: nat, a: seq<byte>, b: seq<byte>, prefix: nat)
    requires 1 <= prefix <= 8
    ensures match Read(n, shift, a, prefix).0
            case More(n', shift') =>
              var rest := Read(n', shift', b, prefix);
              Read(n, shift, a + b, prefix) == (rest.0, |a| + rest.1)
            case stop => Read(n, shift, a + b, prefix) == Read(n, shift, a, prefix)
    decreases |a|
  {
    if a == [] {
      assert a + b == b;
    } else {
      assert (a + b)[1..] == a[1..] + b;
      match Step(n, shift, a[0], prefix)
      case More(n', shift') => ReadSplit(n', shift', a[1..], b, prefix);
      case _ =>
    }
  }

  /** The partial value never decreases, so a bound broken once stays broken. */
  lemma {:induction false} ReadGrows(n: nat, shift: nat, bs: seq<byte>, prefix: nat)
    requires 1 <= prefix <= 8 && n > 0
    ensures match Read(n, shift, bs, prefix).0
            case Done(v) => v >= n
            case More(n', _) => n' >= n
            case Failed => true
    decreases |bs|
  {
    if bs != [] {
      match Step(n, shift, bs[0], prefix)
      case More(n', shift') => ReadGrows(n', shift', bs[1..], prefix);
      case _ =>
    }
  }

  lemma {:induction false} TailLength(n: nat)
    requires n <= UINT32_MAX
    ensures |Tail(n)| <= 5
  {
    var a := n / 128;
    var b := a / 128;
    var c := b / 128;
    var d := c / 128;
    assert d < 128;
    assert |Tail(d)| == 1;
    assert |Tail(c)| <= 1 + |Tail(d)|;
    assert |Tail(b)| <= 1 + |Tail(c)|;
    assert |Tail(a)| <= 1 + |Tail(b)|;
    assert |Tail(n)| <= 1 + |Tail(a)|;
  }

  lemma {:induction false} ShortTailLength(n: nat)
    requires n < 0x1000_0000
    ensures |Tail(n)| <= 4
  {
    var a := n / 128;
    var b := a / 128;
    var c := b / 128;
    assert c < 128;
    assert |Tail(c)| == 1;
    assert |Tail(b)| <= 1 + |Tail(c)|;
    assert |Tail(a)| <= 1 + |Tail(b)|;
    assert |Tail(n)| <= 1 + |Tail(a)|;
  }

  /** Below 2^28 five octets are enough. */
  lemma ShortEncodeLength(first: byte, n: nat, prefix: nat)
    requires 1 <= prefix <= 8 && n < 0x1000_0000
    ensures |Encode(first, n, prefix)| <= 5
  {
    if n >= Pow2(prefix) - 1 {
      ShortTailLength(n - (Pow2(prefix) - 1));
    }
  }

  /** The encoded integer is never longer than six octets below 2^32. */
  lemma EncodeLength(first: byte, n: nat, prefix: nat)
    requires 1 <= prefix <= 8 && n <= UINT32_MAX
    ensures |Encode(first, n, prefix)| <= 6
  {
    if n >= Pow2(prefix) - 1 {
      TailLength(n - (Pow2(prefix) - 1));
    }
  }

  /** `count_encoded_length`: the loop that only counts agrees with what is written. */
  method CountEncodedLength(n: nat, prefix: nat) returns (len: nat)
    requires 1 <= prefix <= 8
    ensures forall first: byte :: len == |Encode(first, n, prefix)|
  {
    var k := Pow2(prefix) - 1;
    if n < k {
      return 1;
    }
    var m: nat := n - k;
    len := 1;
    while m >= 128
      invariant len + |Tail(m)| == 1 + |Tail(n - k)|
    {
      m := m / 128;
      len := len + 1;
    }
    len := len + 1;
  }

  /** `encode_length`: overwrites the low `prefix` bits of `buf[0]` and appends the rest. */
  method EncodeInto(buf: array<byte>, n: nat, prefix: nat) returns (len: nat)
    requires 1 <= prefix <= 8 && buf.Length >= 1
    requires |Encode(buf[0], n, prefix)| <= buf.Length
    modifies buf
    ensures len <= buf.Length && buf[..len] == old(Encode(buf[0], n, prefix))
    ensures forall i :: len <= i < buf.Length ==> buf[i] == old(buf[i])
  {
    hide High;
    var k := Pow2(prefix) - 1;
    ghost var all := Encode(buf[0], n, prefix);
    buf[0] := High(buf[0], prefix);
    if n < k {
      buf[0] := buf[0] + n;
      return 1;
    }
    buf[0] := buf[0] + k;
    var m: nat := n - k;
    len := 1;
    assert all[1..] == Tail(m);
    while m >= 128
      invariant 1 <= len <= |all| && all[len..] == Tail(m)
      invariant forall i :: 0 <= i < len ==> buf[i] == all[i]
      invariant forall i :: len <= i < buf.Length ==> buf[i] == old(buf[i])
    {
      assert all[len] == all[len..][0];
      assert all[len + 1..] == all[len..][1..];
      buf[len] := 128 + m % 128;
      m := m / 128;
      len := len + 1;
    }
    assert all[len] == all[len..][0];
    buf[len] := m;
    len := len + 1;
  }

  lemma PrefixRoom(prefix: nat)
    requires 1 <= prefix
    ensures Pow2(prefix) >= 2
  {
    Pow2Monotone(1, prefix);
  }

  lemma ReadNone(n: nat, shift: nat, prefix: nat)
    requires 1 <= prefix <= 8
    ensures Read(n, shift, [], prefix) == (More(n, shift), 0)
  {}

  /** The octet at `i` and the rest. */
  lemma ReadOne(n: nat, shift: nat, input: seq<byte>, i: nat, prefix: nat)
    requires 1 <= prefix <= 8 && i < |input|
    ensures var p := Step(n, shift, input[i], prefix);
            Read(n, shift, input[i..], prefix) ==
            if p.More? then
              var rest := Read(p.n, p.shift, input[i + 1..], prefix); (rest.0, rest.1 + 1)
            else (p, 1)
  {
    hide Step;
    assert input[i..][1..] == input[i + 1..];
  }

  /** `decode_length` over `input[from..]`: the loop computes `Read`, so a call that stops for
      lack of input can be resumed with the returned value and shift. */
  method DecodeLength(input: seq<byte>, from: nat, initial: nat, shift: nat, prefix: nat)
    returns (r: Progress, used: nat)
    requires 1 <= prefix <= 8 && from < |input|
    ensures (r, used) == Read(initial, shift, input[from..], prefix)
  {
    hide Pow2, Shl, Shr, Low, Read;
    var k := Pow2(prefix) - 1;
    var n, s, i := initial, shift, from;
    if n == 0 {
      PrefixRoom(prefix);
      ReadOne(n, s, input, i, prefix);
      if Low(input[i], prefix) != k {
        return Done(Low(input[i], prefix)), 1;
      }
      n := k;
      i := i + 1;
      ReadNone(n, s, prefix);
      if i == |input| {
        assert input[i..] == [];
        return More(n, s), 1;
      }
    }
    while i < |input|
      invariant from <= i <= |input| && n > 0
      invariant var rest := Read(n, s, input[i..], prefix);
                Read(initial, shift, input[from..], prefix) == (rest.0, rest.1 + (i - from))
    {
      ReadOne(n, s, input, i, prefix);
      if s >= 32 {
        return Failed, i + 1 - from;
      }
      if Shr(UINT32_MAX, s) < input[i] % 128 {
        return Failed, i + 1 - from;
      }
      var add: nat := Shl(input[i] % 128, s);
      if UINT32_MAX - add < n {
        return Failed, i + 1 - from;
      }
      n := n + add;
      if input[i] < 128 {
        return Done(n), i + 1 - from;
      }
      i, s := i + 1, s + 7;
    }
    assert input[i..] == [];
    ReadNone(n, s, prefix);
    r, used := More(n, s), i - from;
  }
}
