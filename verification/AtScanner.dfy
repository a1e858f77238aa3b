/** The scanner of unsolicited modem output (`at_parser.c`, `at_worker`): prefixes start a capture,
    postfixes end it and hand it to a callback. */
module AtScanner {
  import opened Bytes

  datatype Postfix = NoPostfix | Ends(text: seq<byte>)

  /** `oob_t`: `data` is `oobinputdata` up to `reallen`. */
  datatype Oob = Oob(prefix: seq<byte>, postfix: Postfix, data: seq<byte>, maxlen: nat)

  /** A callback of entry `oob`: the buffer handed to it, taken from the input between `start` and `end`, or
      no buffer, for an entry without postfix. */
  datatype Call = Handed(oob: nat, buffer: seq<byte>, start: nat, end: nat) | Notified(oob: nat, end: nat)

  ghost predicate Suffix(s: seq<byte>, t: seq<byte>)
  {
    |s| <= |t| && t[|t| - |s|..] == s
  }

  /** The test that ends a capture. */
  predicate Complete(prefix: seq<byte>, text: seq<byte>, s: seq<byte>)
  {
    |s| >= |prefix| + |text| && s[|s| - |text|..] == text
  }

  /** `s` starts with the prefix and no proper beginning of it is complete. */
  ghost predicate Capture(prefix: seq<byte>, text: seq<byte>, s: seq<byte>)
  {
    prefix <= s && forall j :: 0 < j < |s| ==> !Complete(prefix, text, s[..j])
  }

  /** A capture in progress is the input since its prefix began. */
  ghost predicate Running(o: Oob, input: seq<byte>)
  {
    o.data != [] ==>
      o.postfix.Ends? && Suffix(o.data, input) && Capture(o.prefix, o.postfix.text, o.data)
      && !Complete(o.prefix, o.postfix.text, o.data)
  }

  /** What a callback was given: a contiguous piece of the input that starts with the prefix and ends at the
      first postfix that qualifies; without a postfix, nothing, right after the prefix. */
  ghost predicate Sliced(oobs: seq<Oob>, input: seq<byte>, c: Call)
  {
    && c.oob < |oobs| && c.end <= |input|
    && match c
       case Handed(k, buffer, start, end) =>
         && start <= end && buffer == input[start..end] && oobs[k].postfix.Ends?
         && Capture(oobs[k].prefix, oobs[k].postfix.text, buffer)
         && Complete(oobs[k].prefix, oobs[k].postfix.text, buffer)
       case Notified(k, end) => oobs[k].postfix.NoPostfix? && Suffix(oobs[k].prefix, input[..end])
  }

  /** The registered strings do not change. */
  ghost predicate SameEntries(a: seq<Oob>, b: seq<Oob>)
  {
    |a| == |b| && forall k :: 0 <= k < |a| ==>
      a[k].prefix == b[k].prefix && a[k].postfix == b[k].postfix && a[k].maxlen == b[k].maxlen
  }

  lemma SuffixSnoc(s: seq<byte>, t: seq<byte>, c: byte)
    requires Suffix(s, t)
    ensures Suffix(s + [c], t + [c])
  {}

  lemma SlicedLater(oobs: seq<Oob>, oobs2: seq<Oob>, input: seq<byte>, c: byte, call: Call)
    requires Sliced(oobs, input, call) && SameEntries(oobs, oobs2)
    ensures Sliced(oobs2, input, call) && Sliced(oobs2, input + [c], call)
  {
    if call.Handed? {
      assert (input + [c])[call.start..call.end] == input[call.start..call.end];
    } else {
      assert (input + [c])[..call.end] == input[..call.end];
    }
  }

  /** One more octet of a capture. */
  lemma CaptureSnoc(prefix: seq<byte>, text: seq<byte>, s: seq<byte>, c: byte)
    requires Capture(prefix, text, s) && !Complete(prefix, text, s)
    ensures Capture(prefix, text, s + [c])
  {
    var r := s + [c];
    forall j | 0 < j < |r| ensures !Complete(prefix, text, r[..j]) {
      if j < |s| { assert r[..j] == s[..j]; } else { assert r[..j] == s; }
    }
  }

  /** The prefix alone, or one octet after an empty prefix. */
  lemma CaptureStart(prefix: seq<byte>, text: seq<byte>, s: seq<byte>)
    requires prefix <= s && (s == prefix || |s| == 1)
    ensures Capture(prefix, text, s)
  {}

  /** What one entry does with the octet `c`: goes on, hands its buffer over, or gives up. */
  datatype Effect = Passed(o: Oob) | Fired(o: Oob, buffer: seq<byte>) | Overflowed(o: Oob)

  /** The entry's part of `at_scan_for_callback` once it is running or its prefix was seen. */
  function Extend(o: Oob, c: byte): Effect
    requires o.postfix.Ends?
  {
    var data := if o.data == [] then o.prefix[..Max(0, |o.prefix| - 1)] else o.data;
    if |data| >= o.maxlen then Overflowed(o.(data := []))
    else if Complete(o.prefix, o.postfix.text, data + [c]) then Fired(o.(data := []), data + [c])
    else Passed(o.(data := data + [c]))
  }

  /** From the old input to the new: the capture goes on, or ends with a piece of the input. */
  lemma ExtendOk(o: Oob, input: seq<byte>, c: byte)
    requires Running(o, input) && o.postfix.Ends? && (o.data == [] ==> Suffix(o.prefix, input + [c]))
    ensures Running(Extend(o, c).o, input + [c])
    ensures Extend(o, c).Fired? ==>
              var buffer := Extend(o, c).buffer;
              && Suffix(buffer, input + [c]) && |buffer| <= o.maxlen
              && Capture(o.prefix, o.postfix.text, buffer) && Complete(o.prefix, o.postfix.text, buffer)
    ensures Extend(o, c).Passed? ==> 0 < |Extend(o, c).o.data| <= o.maxlen
    ensures !Extend(o, c).Passed? ==> Extend(o, c).o.data == []
  {
    hide Complete, Capture;
    var text := o.postfix.text;
    var data := if o.data == [] then o.prefix[..Max(0, |o.prefix| - 1)] else o.data;
    var next := data + [c];
    if o.data == [] {
      StartIs(o.prefix, input, c);
      CaptureStart(o.prefix, text, next);
    } else {
      SuffixSnoc(o.data, input, c);
      CaptureSnoc(o.prefix, text, o.data, c);
    }
    assert Suffix(next, input + [c]);
  }

  lemma StartIs(prefix: seq<byte>, input: seq<byte>, c: byte)
    requires Suffix(prefix, input + [c])
    ensures var next := prefix[..Max(0, |prefix| - 1)] + [c];
            Suffix(next, input + [c]) && prefix <= next && (next == prefix || |next| == 1)
  {
    var s := input + [c];
    if prefix != [] {
      assert prefix[|prefix| - 1] == s[|s| - |prefix|..][|prefix| - 1] == c;
      assert prefix == prefix[..|prefix| - 1] + [c];
    }
  }

  const RECV_BUFFER_SIZE: nat := 512

  // ---------------------------------------------------------------- one octet, on values

  /** The entry takes part: it is running, or the buffer ends with its prefix. */
  predicate Seen(o: Oob, buf: seq<byte>)
  {
    o.data != [] || (|buf| >= |o.prefix| && buf[|buf| - |o.prefix|..] == o.prefix)
  }

  function EntryAfter(o: Oob, buf: seq<byte>, c: byte): Oob
  {
    if Seen(o, buf) && o.postfix.Ends? then Extend(o, c).o else o
  }

  /** The buffer is cleared by every callback, by an overflow, and when it is full. */
  function BufAfter(o: Oob, buf: seq<byte>, c: byte): seq<byte>
  {
    if !Seen(o, buf) || (o.postfix.Ends? && Extend(o, c).Passed? && |buf| <= RECV_BUFFER_SIZE - 2) then buf else []
  }

  /** The callback of entry `k`, if any, `n` octets of input having been read. */
  function CallOf(k: nat, o: Oob, buf: seq<byte>, c: byte, n: nat): seq<Call>
  {
    if !Seen(o, buf) then []
    else if o.postfix.NoPostfix? then [Notified(k, n)]
    else if Extend(o, c).Fired? then
      var buffer := Extend(o, c).buffer;
      [Handed(k, buffer, Max(0, n - |buffer|), n)]
    else []
  }

  datatype Outcome = Outcome(oobs: seq<Oob>, buf: seq<byte>, calls: seq<Call>)

  /** `at_scan_for_callback` from entry `k` on. */
  function Scanned(oobs: seq<Oob>, k: nat, buf: seq<byte>, c: byte, n: nat): (r: Outcome)
    requires k <= |oobs|
    ensures |r.oobs| == |oobs|
    decreases |oobs| - k
  {
    if k == |oobs| then Outcome(oobs, buf, []) else
    var o := oobs[k];
    var r := Scanned(oobs[k := EntryAfter(o, buf, c)], k + 1, BufAfter(o, buf, c), c, n);
    r.(calls := CallOf(k, o, buf, c, n) + r.calls)
  }

  /** Entry `j` was called exactly if `e` fired, with the buffer of `e`. */
  ghost predicate Served(calls: seq<Call>, j: nat, e: Effect, n: nat)
  {
    && (e.Fired? ==> Handed(j, e.buffer, Max(0, n - |e.buffer|), n) in calls)
    && (forall i :: 0 <= i < |calls| && calls[i].oob == j ==>
          e.Fired? && calls[i] == Handed(j, e.buffer, Max(0, n - |e.buffer|), n))
  }

  lemma ServedHere(j: nat, o: Oob, buf: seq<byte>, c: byte, n: nat, rest: seq<Call>)
    requires o.data != [] && o.postfix.Ends? && forall i :: 0 <= i < |rest| ==> rest[i].oob > j
    ensures Served(CallOf(j, o, buf, c, n) + rest, j, Extend(o, c), n)
  {
    hide Extend;
    var calls := CallOf(j, o, buf, c, n) + rest;
    if Extend(o, c).Fired? { assert calls[0] == CallOf(j, o, buf, c, n)[0]; }
  }

  lemma ServedLater(k: nat, o: Oob, buf: seq<byte>, c: byte, n: nat, rest: seq<Call>, j: nat, e: Effect)
    requires k != j && Served(rest, j, e, n)
    ensures Served(CallOf(k, o, buf, c, n) + rest, j, e, n)
  {
    hide Extend;
  }

  /** A capture once begun is served whatever the other entries do: it is handed over with the octet that
      completes it, and with no other. */
  lemma {:induction false} RunningIsServed(oobs: seq<Oob>, k: nat, buf: seq<byte>, c: byte, n: nat, j: nat)
    requires k <= j < |oobs| && oobs[j].data != [] && oobs[j].postfix.Ends?
    ensures var r, e := Scanned(oobs, k, buf, c, n), Extend(oobs[j], c);
            r.oobs[j] == e.o && Served(r.calls, j, e, n)
    decreases |oobs| - k
  {
    hide Extend, BufAfter, CallOf, Served;
    var o := oobs[k];
    var next, b := oobs[k := EntryAfter(o, buf, c)], BufAfter(o, buf, c);
    var rest := Scanned(next, k + 1, b, c, n);
    if k == j {
      LaterCalls(next, k + 1, b, c, n);
      LaterEntries(next, k + 1, b, c, n, j);
      ServedHere(j, o, buf, c, n, rest.calls);
    } else {
      RunningIsServed(next, k + 1, b, c, n, j);
      ServedLater(k, o, buf, c, n, rest.calls, j, Extend(oobs[j], c));
    }
  }

  /** Every callback clears the buffer in which prefixes are looked for. */
  lemma {:induction false} CallClears(oobs: seq<Oob>, k: nat, buf: seq<byte>, c: byte, n: nat)
    requires k <= |oobs|
    ensures var r := Scanned(oobs, k, buf, c, n); buf == [] || r.calls != [] ==> r.buf == []
    decreases |oobs| - k
  {
    hide Extend;
    if k < |oobs| {
      var o := oobs[k];
      CallClears(oobs[k := EntryAfter(o, buf, c)], k + 1, BufAfter(o, buf, c), c, n);
    }
  }

  /** Entries before `k` are not touched any more. */
  lemma {:induction false} LaterEntries(oobs: seq<Oob>, k: nat, buf: seq<byte>, c: byte, n: nat, j: nat)
    requires j < k <= |oobs|
    ensures Scanned(oobs, k, buf, c, n).oobs[j] == oobs[j]
    decreases |oobs| - k
  {
    if k < |oobs| { LaterEntries(oobs[k := EntryAfter(oobs[k], buf, c)], k + 1, BufAfter(oobs[k], buf, c), c, n, j); }
  }

  lemma {:induction false} LaterCalls(oobs: seq<Oob>, k: nat, buf: seq<byte>, c: byte, n: nat)
    requires k <= |oobs|
    ensures forall i :: 0 <= i < |Scanned(oobs, k, buf, c, n).calls| ==> Scanned(oobs, k, buf, c, n).calls[i].oob >= k
    decreases |oobs| - k
  {
    hide Extend;
    if k < |oobs| { LaterCalls(oobs[k := EntryAfter(oobs[k], buf, c)], k + 1, BufAfter(oobs[k], buf, c), c, n); }
  }

  /** What an idle entry whose prefix ends the buffer does with the octet. */
  ghost predicate Began(o: Oob, c: byte, n: nat, j: nat, o': Oob, calls: seq<Call>)
  {
    && (o.postfix.NoPostfix? ==> Notified(j, n) in calls)
    && (o.postfix.Ends? ==> o' == Extend(o, c).o && Served(calls, j, Extend(o, c), n))
  }

  /** A capture begins: an idle entry whose prefix ends the buffer takes part, if no earlier entry clears the
      buffer. Without a postfix it is notified; with one it holds its prefix. */
  lemma {:induction false} IdleBegins(oobs: seq<Oob>, k: nat, buf: seq<byte>, c: byte, n: nat, j: nat)
    requires k <= j < |oobs| && oobs[j].data == [] && Suffix(oobs[j].prefix, buf)
    requires forall i :: k <= i < j ==> BufAfter(oobs[i], buf, c) == buf
    ensures var r := Scanned(oobs, k, buf, c, n); Began(oobs[j], c, n, j, r.oobs[j], r.calls)
    decreases |oobs| - k
  {
    hide Extend, CallOf, Served, Suffix, EntryAfter, BufAfter, Began;
    var o := oobs[k];
    var next, b := oobs[k := EntryAfter(o, buf, c)], BufAfter(o, buf, c);
    var rest := Scanned(next, k + 1, b, c, n);
    if k == j {
      LaterCalls(next, k + 1, b, c, n);
      LaterEntries(next, k + 1, b, c, n, j);
      BeganHere(j, o, buf, c, n, rest.calls);
    } else {
      IdleBegins(next, k + 1, b, c, n, j);
      BeganLater(k, o, buf, c, n, rest.calls, j, oobs[j], rest.oobs[j]);
    }
  }

  lemma BeganHere(j: nat, o: Oob, buf: seq<byte>, c: byte, n: nat, rest: seq<Call>)
    requires o.data == [] && Suffix(o.prefix, buf) && forall i :: 0 <= i < |rest| ==> rest[i].oob > j
    ensures Began(o, c, n, j, EntryAfter(o, buf, c), CallOf(j, o, buf, c, n) + rest)
  {
    hide Extend;
    var calls := CallOf(j, o, buf, c, n) + rest;
    if o.postfix.NoPostfix? || Extend(o, c).Fired? { assert calls[0] == CallOf(j, o, buf, c, n)[0]; }
  }

  lemma BeganLater(k: nat, o: Oob, buf: seq<byte>, c: byte, n: nat, rest: seq<Call>, j: nat, oj: Oob, o': Oob)
    requires k != j && Began(oj, c, n, j, o', rest)
    ensures Began(oj, c, n, j, o', CallOf(k, o, buf, c, n) + rest)
  {
    hide Extend, Served, CallOf;
    if oj.postfix.Ends? { ServedLater(k, o, buf, c, n, rest, j, Extend(oj, c)); }
  }

  /** What it then holds: its prefix, or the octet after an empty prefix; nothing is handed over yet. */
  lemma BeginsWithPrefix(o: Oob, buf: seq<byte>, c: byte)
    requires o.data == [] && o.postfix.Ends? && o.postfix.text != [] && Suffix(o.prefix, buf + [c])
    ensures o.prefix != [] && |o.prefix| <= o.maxlen ==> Extend(o, c) == Passed(o.(data := o.prefix))
    ensures o.prefix == [] && o.postfix.text != [c] && o.maxlen > 0 ==> Extend(o, c) == Passed(o.(data := [c]))
  {
    StartIs(o.prefix, buf, c);
  }

  lemma SeenSuffix(o: Oob, buf: seq<byte>)
    ensures Seen(o, buf) && o.data == [] ==> Suffix(o.prefix, buf)
  {}

  class Scanner {
    var oobs: seq<Oob>
    /** `at_rx_buf` up to `offset`. */
    var buf: seq<byte>
    ghost var input: seq<byte>
    /** The callbacks made. */
    ghost var calls: seq<Call>

    ghost predicate Valid()
      reads this
    {
      && Suffix(buf, input) && |buf| <= RECV_BUFFER_SIZE - 2
      && (forall k :: 0 <= k < |oobs| ==> Running(oobs[k], input))
      && (forall i :: 0 <= i < |calls| ==> Sliced(oobs, input, calls[i]))
    }

    constructor (oobs: seq<Oob>)
      requires forall k :: 0 <= k < |oobs| ==> oobs[k].data == []
      ensures Valid() && this.oobs == oobs && buf == [] && input == [] && calls == []
    {
      this.oobs, buf, input, calls := oobs, [], [], [];
    }

    /** The state between two entries of a scan: those before `k` know the new octet. */
    ghost predicate Scanning(before: seq<byte>, k: nat)
      reads this
    {
      && Suffix(buf, input) && k <= |oobs|
      && (forall j :: 0 <= j < k ==> Running(oobs[j], input))
      && (forall j :: k <= j < |oobs| ==> Running(oobs[j], before))
      && (forall i :: 0 <= i < |calls| ==> Sliced(oobs, input, calls[i]))
    }

    method ClearBuffer()
      modifies `buf
      ensures buf == []
    {
      buf := [];
    }

    /** The callback itself, with the buffer it is given. */
    method Callback(k: nat, buffer: seq<byte>)
      requires k < |oobs| && Suffix(buffer, input) && oobs[k].postfix.Ends?
      requires Capture(oobs[k].prefix, oobs[k].postfix.text, buffer) && Complete(oobs[k].prefix, oobs[k].postfix.text, buffer)
      requires forall i :: 0 <= i < |calls| ==> Sliced(oobs, input, calls[i])
      modifies `calls
      ensures calls == old(calls) + [Handed(k, buffer, |input| - |buffer|, |input|)]
      ensures forall i :: 0 <= i < |calls| ==> Sliced(oobs, input, calls[i])
    {
      hide Capture, Complete;
      ghost var call := Handed(k, buffer, |input| - |buffer|, |input|);
      assert input[call.start..call.end] == input[|input| - |buffer|..];
      assert Sliced(oobs, input, call);
      calls := calls + [call];
    }

    /** The callback of an entry without postfix. */
    method Notify(k: nat)
      requires k < |oobs| && Suffix(oobs[k].prefix, input) && oobs[k].postfix.NoPostfix?
      requires forall i :: 0 <= i < |calls| ==> Sliced(oobs, input, calls[i])
      modifies `calls
      ensures calls == old(calls) + [Notified(k, |input|)]
      ensures forall i :: 0 <= i < |calls| ==> Sliced(oobs, input, calls[i])
    {
      assert input[..|input|] == input;
      assert Sliced(oobs, input, Notified(k, |input|));
      calls := calls + [Notified(k, |input|)];
    }

    /** The body of the loop of `at_scan_for_callback`. */
    method ScanOne(k: nat, c: byte, ghost before: seq<byte>)
      requires Scanning(before, k) && k < |oobs| && input == before + [c]
      modifies `oobs, `buf, `calls
      ensures Scanning(before, k + 1)
      ensures oobs == old(oobs)[k := EntryAfter(old(oobs[k]), old(buf), c)] && buf == BufAfter(old(oobs[k]), old(buf), c)
      ensures calls == old(calls) + CallOf(k, old(oobs[k]), old(buf), c, |input|)
    {
      hide Running, Sliced, Extend, Suffix;
      var o := oobs[k];
      assert oobs[k := o] == oobs;
      SeenSuffix(o, buf);
      if !(o.data != [] || (|buf| >= |o.prefix| && buf[|buf| - |o.prefix|..] == o.prefix)) {
        NotStarted(o, input);
        return;
      }
      if o.data == [] { SuffixTrans(o.prefix, buf, input); }
      if o.postfix.NoPostfix? {
        NotifyOnce(k, c, before);
        return;
      }
      Continue(k, c, before);
    }

    /** The case without a postfix. */
    method NotifyOnce(k: nat, c: byte, ghost before: seq<byte>)
      requires Scanning(before, k) && k < |oobs| && input == before + [c] && oobs[k].postfix.NoPostfix?
      requires oobs[k].data == [] ==> Suffix(oobs[k].prefix, input)
      modifies `buf, `calls
      ensures Scanning(before, k + 1) && buf == [] && calls == old(calls) + [Notified(k, |input|)]
    {
      hide Running, Sliced, Suffix;
      NeverRuns(oobs[k], before, input);
      Notify(k);
      SuffixNone(input);
      ClearBuffer();
    }

    /** The case with a postfix. */
    method Continue(k: nat, c: byte, ghost before: seq<byte>)
      requires Scanning(before, k) && k < |oobs| && input == before + [c] && oobs[k].postfix.Ends?
      requires oobs[k].data == [] ==> Suffix(oobs[k].prefix, input)
      modifies `oobs, `buf, `calls
      ensures Scanning(before, k + 1)
      ensures oobs == old(oobs)[k := Extend(old(oobs[k]), c).o]
      ensures buf == if Extend(old(oobs[k]), c).Passed? && old(|buf|) <= RECV_BUFFER_SIZE - 2 then old(buf) else []
      ensures calls == old(calls) + var e := Extend(old(oobs[k]), c);
                                    if e.Fired? then [Handed(k, e.buffer, Max(0, |input| - |e.buffer|), |input|)] else []
    {
      hide Running, Sliced, Extend, Capture, Complete;
      var o := oobs[k];
      ExtendOk(o, before, c);
      ExtendKeeps(o, c);
      var e := Extend(o, c);
      Replace(k, e.o);
      if e.Fired? {
        Callback(k, e.buffer);
      }
      SuffixNone(input);
      if !e.Passed? || |buf| > RECV_BUFFER_SIZE - 2 {
        ClearBuffer();
      }
    }

    method Replace(k: nat, o: Oob)
      requires k < |oobs| && o.prefix == oobs[k].prefix && o.postfix == oobs[k].postfix && o.maxlen == oobs[k].maxlen
      requires forall i :: 0 <= i < |calls| ==> Sliced(oobs, input, calls[i])
      modifies `oobs
      ensures oobs == old(oobs)[k := o]
      ensures forall i :: 0 <= i < |calls| ==> Sliced(oobs, input, calls[i])
    {
      hide Sliced;
      ghost var was := oobs;
      oobs := oobs[k := o];
      forall i | 0 <= i < |calls| ensures Sliced(oobs, input, calls[i]) {
        SlicedLater(was, oobs, input, 0, calls[i]);
      }
    }

    /** `at_scan_for_callback`: exactly the callbacks of `Scanned` are made. */
    method Scan(c: byte, ghost before: seq<byte>)
      requires Scanning(before, 0) && input == before + [c]
      modifies `oobs, `buf, `calls
      ensures Scanning(before, |oobs|)
      ensures var r := Scanned(old(oobs), 0, old(buf), c, |input|);
              oobs == r.oobs && buf == r.buf && calls == old(calls) + r.calls
    {
      hide Running, Sliced, EntryAfter, BufAfter, CallOf;
      ghost var r := Scanned(oobs, 0, buf, c, |input|);
      var k := 0;
      while k < |oobs|
        invariant 0 <= k <= |oobs| && Scanning(before, k)
        invariant var m := Scanned(oobs, k, buf, c, |input|);
                  m.oobs == r.oobs && m.buf == r.buf && calls + m.calls == old(calls) + r.calls
      {
        ghost var m := Scanned(oobs, k, buf, c, |input|);
        ghost var was, call := calls, CallOf(k, oobs[k], buf, c, |input|);
        ScanOne(k, c, before);
        ghost var next := Scanned(oobs, k + 1, buf, c, |input|);
        assert m.calls == call + next.calls;
        assert was + (call + next.calls) == (was + call) + next.calls;
        k := k + 1;
      }
      assert calls + [] == calls;
    }

    /** One octet through `at_worker`; `taskDone` says that a command's response ended with it, and `keep` how
        much of a full buffer is kept for matching. There is always room for the octet, so that none is lost. */
    method Feed(c: byte, taskDone: bool, keep: nat)
      requires Valid() && keep <= RECV_BUFFER_SIZE - 2
      modifies this
      ensures Valid() && input == old(input) + [c]
      ensures var r := Scanned(old(oobs), 0, old(buf) + [c], c, |input|);
              && oobs == r.oobs && calls == old(calls) + r.calls
              && buf == if taskDone then [] else if |r.buf| > RECV_BUFFER_SIZE - 2 then r.buf[|r.buf| - keep..] else r.buf
    {
      hide Running, Sliced, EntryAfter, BufAfter, CallOf, Scanned, Suffix;
      ghost var before := input;
      Append(c);
      Scan(c, before);
      Trim(taskDone, keep);
    }

    /** The octet goes to the buffer. */
    method Append(c: byte)
      requires Valid()
      modifies `buf, `input
      ensures input == old(input) + [c] && buf == old(buf) + [c] && Scanning(old(input), 0)
    {
      hide Running, Sliced, Suffix;
      forall i | 0 <= i < |calls| ensures Sliced(oobs, input + [c], calls[i]) {
        SameEntriesHere(oobs);
        SlicedLater(oobs, oobs, input, c, calls[i]);
      }
      SuffixSnoc(buf, input, c);
      buf := buf + [c];
      input := input + [c];
    }

    /** The buffer after the entries were looked at. */
    method Trim(taskDone: bool, keep: nat)
      requires Suffix(buf, input) && keep <= RECV_BUFFER_SIZE - 2
      modifies `buf
      ensures Suffix(buf, input) && |buf| <= RECV_BUFFER_SIZE - 2
      ensures buf == if taskDone then [] else if |old(buf)| > RECV_BUFFER_SIZE - 2 then old(buf)[|old(buf)| - keep..] else old(buf)
    {
      hide Suffix;
      if taskDone {
        SuffixNone(input);
        ClearBuffer();
      }
      if |buf| > RECV_BUFFER_SIZE - 2 {
        SuffixTrans(buf[|buf| - keep..], buf, input);
        buf := buf[|buf| - keep..];
      }
    }
  }

  lemma SameEntriesHere(oobs: seq<Oob>)
    ensures SameEntries(oobs, oobs)
  {}

  lemma SuffixNone(t: seq<byte>)
    ensures Suffix([], t)
  {
    assert t[|t|..] == [];
  }

  lemma SuffixTrans(a: seq<byte>, b: seq<byte>, c: seq<byte>)
    requires Suffix(b, c) && |a| <= |b| && b[|b| - |a|..] == a
    ensures Suffix(a, c)
  {
    assert c[|c| - |b|..][|b| - |a|..] == c[|c| - |a|..];
  }

  lemma NotStarted(o: Oob, input: seq<byte>)
    requires o.data == []
    ensures Running(o, input)
  {}

  /** An entry without postfix never has a capture running. */
  lemma NeverRuns(o: Oob, before: seq<byte>, input: seq<byte>)
    requires Running(o, before) && o.postfix.NoPostfix?
    ensures Running(o, input) && o.data == []
  {}

  lemma ExtendKeeps(o: Oob, c: byte)
    requires o.postfix.Ends?
    ensures var e := Extend(o, c).o; e.prefix == o.prefix && e.postfix == o.postfix && e.maxlen == o.maxlen
  {}
}
