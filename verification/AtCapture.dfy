/** The scanner from a fresh start to the callback: what is sent between a prefix and a postfix arrives. */
module AtCapture {
  import opened Bytes
  import opened AtScanner

  /** A scan over a single entry. */
  lemma OneEntry(o: Oob, buf: seq<byte>, c: byte, n: nat)
    ensures Scanned([o], 0, buf, c, n) == Outcome([EntryAfter(o, buf, c)], BufAfter(o, buf, c), CallOf(0, o, buf, c, n))
  {
    hide EntryAfter, BufAfter, CallOf;
    var next := [o][0 := EntryAfter(o, buf, c)];
    assert next == [EntryAfter(o, buf, c)];
    assert Scanned(next, 1, BufAfter(o, buf, c), c, n) == Outcome(next, BufAfter(o, buf, c), []);
    assert CallOf(0, o, buf, c, n) + [] == CallOf(0, o, buf, c, n);
  }

  /** In `pre` followed by `prefix`, the prefix is seen only at the end. */
  ghost predicate SeenLast(prefix: seq<byte>, pre: seq<byte>)
  {
    forall j :: 0 < j < |pre + prefix| ==> !Suffix(prefix, (pre + prefix)[..j])
  }

  /** Where a capture after `pre` has its first octets. */
  function Start(o: Oob, pre: seq<byte>): nat { Max(1, |pre| + |o.prefix|) }

  /** `whole` is what is to be handed over: it begins with the prefix, ends at the first postfix that qualifies and
      fits the buffer of the entry. */
  ghost predicate Deliverable(o: Oob, whole: seq<byte>)
  {
    && o.data == [] && o.postfix.Ends? && 0 < |whole| <= o.maxlen
    && Capture(o.prefix, o.postfix.text, whole) && Complete(o.prefix, o.postfix.text, whole)
  }

  /** The entry after `m` octets of `whole`, one step. */
  lemma Extends(o: Oob, whole: seq<byte>, m: nat)
    requires Deliverable(o, whole) && Max(1, |o.prefix|) <= m <= |whole|
    ensures var cur := if m == Max(1, |o.prefix|) then o else o.(data := whole[..m - 1]);
            Extend(cur, whole[m - 1]) == if m == |whole| then Fired(o, whole) else Passed(o.(data := whole[..m]))
  {
    hide Complete;
    var c := whole[m - 1];
    var data := if m == Max(1, |o.prefix|) then o.prefix[..Max(0, |o.prefix| - 1)] else whole[..m - 1];
    assert data == whole[..m - 1];
    assert whole[..m] == whole[..m - 1] + [c];
    assert m == |whole| ==> whole[..m] == whole;
    assert m < |whole| ==> !Complete(o.prefix, o.postfix.text, whole[..m]);
    assert o.(data := []) == o;
  }

  /** What holds after `i` of the octets `pre + whole`. */
  ghost predicate Underway(o: Oob, pre: seq<byte>, whole: seq<byte>, i: nat, oobs: seq<Oob>, buf: seq<byte>, calls: seq<Call>)
    requires i <= |pre + whole|
  {
    if i < Start(o, pre) then oobs == [o] && buf == (pre + whole)[..i] && calls == []
    else if i < |pre + whole| then oobs == [o.(data := (pre + whole)[|pre|..i])] && calls == []
    else oobs == [o] && calls == [Handed(0, whole, |pre|, |pre + whole|)]
  }

  /** Before the prefix is complete nothing happens. */
  lemma NotYet(o: Oob, pre: seq<byte>, whole: seq<byte>, i: nat)
    requires Deliverable(o, whole) && SeenLast(o.prefix, pre) && i + 1 < Start(o, pre) && i < |pre + whole|
    ensures var all := pre + whole;
            Scanned([o], 0, all[..i] + [all[i]], all[i], i + 1) == Outcome([o], all[..i + 1], [])
  {
    hide Complete, Scanned, Suffix, EntryAfter, BufAfter, CallOf, Capture;
    var all := pre + whole;
    assert all[..i] + [all[i]] == all[..i + 1];
    assert o.prefix <= whole by { PrefixFirst(o, whole); }
    SamePart(pre, o.prefix, whole, i + 1);
    assert !Suffix(o.prefix, all[..i + 1]);
    Unseen(o, all[..i + 1], all[i], i + 1);
    OneEntry(o, all[..i + 1], all[i], i + 1);
  }

  lemma PrefixFirst(o: Oob, whole: seq<byte>)
    requires Deliverable(o, whole)
    ensures o.prefix <= whole
  {}

  lemma SamePart(pre: seq<byte>, prefix: seq<byte>, whole: seq<byte>, i: nat)
    requires prefix <= whole && i <= |pre + prefix|
    ensures (pre + whole)[..i] == (pre + prefix)[..i]
  {}

  lemma Unseen(o: Oob, buf: seq<byte>, c: byte, n: nat)
    requires o.data == [] && !Suffix(o.prefix, buf)
    ensures EntryAfter(o, buf, c) == o && BufAfter(o, buf, c) == buf && CallOf(0, o, buf, c, n) == []
  {}

  /** From then on every octet goes to the capture, and the last one hands it over. */
  lemma GoesOn(o: Oob, cur: Oob, pre: seq<byte>, whole: seq<byte>, i: nat, buf: seq<byte>)
    requires Deliverable(o, whole) && Start(o, pre) <= i + 1 && i < |pre + whole| && (o.prefix != [] || pre == [])
    requires cur == if i + 1 == Start(o, pre) then o else o.(data := (pre + whole)[|pre|..i])
    requires i + 1 == Start(o, pre) ==> Suffix(o.prefix, buf)
    ensures var all := pre + whole;
            var r := Scanned([cur], 0, buf, all[i], i + 1);
            if i + 1 == |all| then r.oobs == [o] && r.calls == [Handed(0, whole, |pre|, |all|)]
            else r.oobs == [o.(data := all[|pre|..i + 1])] && r.calls == []
  {
    hide Deliverable, Extend, Suffix;
    var all, m := pre + whole, i + 1 - |pre|;
    assert all[|pre|..i] == whole[..m - 1] && all[|pre|..i + 1] == whole[..m] && all[i] == whole[m - 1];
    OneEntry(cur, buf, all[i], i + 1);
    CurSeen(o, cur, buf, i + 1 == Start(o, pre));
    Deliverables(o, whole);
    Extends(o, whole, m);
  }

  lemma Deliverables(o: Oob, whole: seq<byte>)
    requires Deliverable(o, whole)
    ensures o.data == [] && o.postfix.Ends? && |whole| > 0 && |o.prefix| <= |whole|
  {}

  lemma CurSeen(o: Oob, cur: Oob, buf: seq<byte>, first: bool)
    requires if first then cur == o && Suffix(o.prefix, buf) else cur.data != []
    ensures Seen(cur, buf)
  {}

  /** A prefix, after `pre` in which it was not yet seen, and then a text that ends at the first postfix that
      qualifies: exactly one callback, with exactly these octets. */
  method Deliver(o: Oob, pre: seq<byte>, whole: seq<byte>, keep: nat) returns (s: Scanner)
    requires Deliverable(o, whole) && SeenLast(o.prefix, pre) && (o.prefix != [] || pre == [])
    requires |pre + o.prefix| < RECV_BUFFER_SIZE && keep <= RECV_BUFFER_SIZE - 2
    ensures s.input == pre + whole && s.calls == [Handed(0, whole, |pre|, |pre + whole|)] && s.oobs == [o]
  {
    hide Complete, Capture, Suffix, Scanned, SeenLast, Deliverable;
    Deliverables(o, whole);
    s := new Scanner([o]);
    var all := pre + whole;
    var i := 0;
    assert all[..0] == [];
    while i < |all|
      invariant 0 <= i <= |all| && s.Valid() && s.input == all[..i] && fresh(s)
      invariant Underway(o, pre, whole, i, s.oobs, s.buf, s.calls)
      decreases |all| - i
    {
      assert all[..i] + [all[i]] == all[..i + 1];
      if i + 1 < Start(o, pre) {
        NotYet(o, pre, whole, i);
      } else {
        if i + 1 == Start(o, pre) { PrefixStands(o, pre, whole, i); }
        GoesOn(o, s.oobs[0], pre, whole, i, s.buf + [all[i]]);
      }
      s.Feed(all[i], false, keep);
      i := i + 1;
    }
    assert all[..i] == all;
  }

  lemma PrefixStands(o: Oob, pre: seq<byte>, whole: seq<byte>, i: nat)
    requires Deliverable(o, whole) && i + 1 == Start(o, pre) && i < |pre + whole|
    ensures Suffix(o.prefix, (pre + whole)[..i] + [(pre + whole)[i]])
  {
    var all := pre + whole;
    assert all[..i] + [all[i]] == all[..i + 1];
    if o.prefix != [] {
      assert all[..i + 1] == pre + o.prefix;
    }
  }

  /** An entry without postfix is called, without a buffer, as soon as its prefix is there. */
  method Announce(o: Oob, pre: seq<byte>, keep: nat) returns (s: Scanner)
    requires o.data == [] && o.postfix.NoPostfix? && o.prefix != [] && SeenLast(o.prefix, pre)
    requires |pre + o.prefix| < RECV_BUFFER_SIZE && keep <= RECV_BUFFER_SIZE - 2
    ensures s.input == pre + o.prefix && s.calls == [Notified(0, |pre + o.prefix|)]
  {
    hide Suffix, Scanned, SeenLast;
    s := new Scanner([o]);
    var all := pre + o.prefix;
    var i := 0;
    assert all[..0] == [];
    while i < |all|
      invariant 0 <= i <= |all| && s.Valid() && s.input == all[..i] && s.oobs == [o] && fresh(s)
      invariant i < |all| ==> s.buf == all[..i] && s.calls == []
      invariant i == |all| ==> s.calls == [Notified(0, |all|)]
      decreases |all| - i
    {
      assert all[..i] + [all[i]] == all[..i + 1];
      Announces(o, pre, i);
      s.Feed(all[i], false, keep);
      i := i + 1;
    }
    assert all[..i] == all;
  }

  lemma Announces(o: Oob, pre: seq<byte>, i: nat)
    requires o.data == [] && o.postfix.NoPostfix? && SeenLast(o.prefix, pre) && i < |pre + o.prefix|
    ensures var all := pre + o.prefix;
            var r := Scanned([o], 0, all[..i] + [all[i]], all[i], i + 1);
            && r.oobs == [o]
            && if i + 1 < |all| then r.buf == all[..i + 1] && r.calls == [] else r.calls == [Notified(0, |all|)]
  {
    hide Scanned, Suffix, EntryAfter, BufAfter, CallOf;
    var all := pre + o.prefix;
    assert all[..i] + [all[i]] == all[..i + 1];
    OneEntry(o, all[..i + 1], all[i], i + 1);
    if i + 1 < |all| {
      Unseen(o, all[..i + 1], all[i], i + 1);
    } else {
      assert all[..i + 1] == all;
      SeenNow(o, pre, all[i], i + 1);
    }
  }

  lemma SeenNow(o: Oob, pre: seq<byte>, c: byte, n: nat)
    requires o.data == [] && o.postfix.NoPostfix?
    ensures EntryAfter(o, pre + o.prefix, c) == o && CallOf(0, o, pre + o.prefix, c, n) == [Notified(0, n)]
  {
    assert Suffix(o.prefix, pre + o.prefix);
  }
}
