/** The mailbox of a connection (`at_conn_mbox.c`): a ring whose `full` flag lets it use every slot. */
module AtMailbox {

  /** Position `k` places after the start of a ring of `n` slots, for less than two rounds. */
  function Wrap(k: nat, n: nat): (r: nat)
    requires 0 < n && k < 2 * n
    ensures r < n
  {
    if k < n then k else k - n
  }

  lemma WrapIsMod(k: nat, n: nat)
    requires 0 < n && k < 2 * n
    ensures k % n == Wrap(k, n)
  {
    if k >= n {
      assert k == n * 1 + (k - n);
      assert k / n == 1;
    }
  }

  /** The `n` slots from `head` on. */
  ghost function Window<T>(b: seq<T>, head: nat, n: nat): (s: seq<T>)
    requires head < |b| && n <= |b|
    ensures |s| == n && forall i :: 0 <= i < n ==> s[i] == b[Wrap(head + i, |b|)]
  {
    seq(n, i requires 0 <= i < n => b[Wrap(head + i, |b|)])
  }

  lemma WindowGrows<T>(b: seq<T>, head: nat, n: nat, x: T)
    requires head < |b| && n < |b|
    ensures Window(b[Wrap(head + n, |b|) := x], head, n + 1) == Window(b, head, n) + [x]
  {}

  lemma WindowShrinks<T>(b: seq<T>, head: nat, n: nat)
    requires head < |b| && 0 < n <= |b|
    ensures Window(b, head, n)[0] == b[head] && Window(b, Wrap(head + 1, |b|), n - 1) == Window(b, head, n)[1..]
  {}

  class Mailbox<T(0)> {
    const buffer: array<T>
    var head: nat
    var tail: nat
    var full: bool

    ghost predicate Valid()
      reads this
    {
      head < buffer.Length && tail < buffer.Length && (full ==> Wrap(tail + 1, buffer.Length) == head)
    }

    /** `at_ringbuf_create`; shorter rings are refused by the source. */
    constructor (buffer: array<T>)
      requires buffer.Length >= 2
      ensures Valid() && Contents() == [] && this.buffer == buffer
    {
      this.buffer, head, tail, full := buffer, 0, 0, false;
    }

    /** `at_ringbuf_available_read_space`. */
    function Available(): (n: nat)
      requires Valid()
      reads this
      ensures n <= buffer.Length && (n == buffer.Length <==> full)
    {
      if full then buffer.Length
      else if head == tail then 0
      else if head < tail then tail - head
      else buffer.Length - (head - tail)
    }

    /** What was posted and not yet fetched, oldest first. */
    ghost function Contents(): (s: seq<T>)
      requires Valid()
      reads this, buffer
      ensures |s| == Available()
    {
      Window(buffer[..], head, Available())
    }

    /** `at_ringbuf_write`: it fails only when all `length` slots are taken. */
    method Write(x: T) returns (ok: bool)
      requires Valid()
      modifies this, buffer
      ensures Valid() && (ok <==> old(|Contents()|) < buffer.Length)
      ensures Contents() == if ok then old(Contents()) + [x] else old(Contents())
    {
      if full {
        return false;
      }
      ghost var n := Available();
      WindowGrows(buffer[..], head, n, x);
      WrapIsMod(tail + 1, buffer.Length);
      assert Wrap(head + n, buffer.Length) == tail;
      assert buffer[..][tail := x] == buffer[..][Wrap(head + n, buffer.Length) := x];
      buffer[tail] := x;
      var next := (tail + 1) % buffer.Length;
      if next == head {
        full := true;
      } else {
        tail := next;
      }
      assert Available() == n + 1;
      return true;
    }

    /** `at_ringbuf_read`. */
    method Read() returns (ok: bool, x: T)
      requires Valid()
      modifies this
      ensures Valid() && (ok <==> old(Contents()) != [])
      ensures ok ==> x == old(Contents())[0] && Contents() == old(Contents())[1..]
      ensures !ok ==> Contents() == old(Contents())
    {
      x := buffer[head];
      if Available() == 0 {
        return false, x;
      }
      ghost var n := Available();
      WindowShrinks(buffer[..], head, n);
      WrapIsMod(head + 1, buffer.Length);
      WrapIsMod(tail + 1, buffer.Length);
      head := (head + 1) % buffer.Length;
      if full {
        full := false;
        tail := (tail + 1) % buffer.Length;
      }
      assert Available() == n - 1;
      return true, x;
    }
  }
}
