/** The receive path of a connection (`at_conn_mgmt.c`): packets go in through the mailbox and come out
    as a byte stream. */
module AtConnection {
  import opened Bytes
  import opened AtMailbox
  import opened AtPool

  ghost predicate Distinct(s: seq<nat>)
  {
    forall i, j :: 0 <= i < j < |s| ==> s[i] != s[j]
  }

  /** The bytes of several buffers in order. */
  ghost function Joined(nets: seq<Net>, slots: seq<Slot>, q: seq<nat>): seq<byte>
  {
    if q == [] then [] else DataOf(nets, slots, q[0]) + Joined(nets, slots, q[1..])
  }

  lemma {:induction false} JoinedSnoc(nets: seq<Net>, slots: seq<Slot>, q: seq<nat>, i: nat)
    ensures Joined(nets, slots, q + [i]) == Joined(nets, slots, q) + DataOf(nets, slots, i)
  {
    if q == [] {
      assert q + [i] == [i];
      assert Joined(nets, slots, []) == [];
    } else {
      assert (q + [i])[1..] == q[1..] + [i];
      JoinedSnoc(nets, slots, q[1..], i);
      assert DataOf(nets, slots, q[0]) + (Joined(nets, slots, q[1..]) + DataOf(nets, slots, i))
          == DataOf(nets, slots, q[0]) + Joined(nets, slots, q[1..]) + DataOf(nets, slots, i);
    }
  }

  lemma {:induction false} JoinedSame(nets: seq<Net>, slots: seq<Slot>, nets2: seq<Net>, slots2: seq<Slot>, q: seq<nat>)
    requires forall k :: 0 <= k < |q| ==> DataOf(nets2, slots2, q[k]) == DataOf(nets, slots, q[k])
    ensures Joined(nets2, slots2, q) == Joined(nets, slots, q)
  {
    if q != [] { JoinedSame(nets, slots, nets2, slots2, q[1..]); }
  }

  /** The buffers a connection holds: the one being read and those in its mailbox. */
  ghost function Own(held: Opt, q: seq<nat>): seq<nat>
  {
    (if held.Some? then [held.value] else []) + q
  }

  /** What is still to be read: the rest of the buffer held, and then the mailbox. */
  ghost function Rest(held: Opt, offset: nat, q: seq<nat>, nets: seq<Net>, slots: seq<Slot>): seq<byte>
  {
    (if held.Some? && offset <= |DataOf(nets, slots, held.value)| then DataOf(nets, slots, held.value)[offset..] else [])
    + Joined(nets, slots, q)
  }

  ghost predicate ConnOk(held: Opt, offset: nat, q: seq<nat>, nets: seq<Net>, slots: seq<Slot>, inUse: set<nat>)
  {
    && Distinct(Own(held, q))
    && (forall k :: 0 <= k < |Own(held, q)| ==> Own(held, q)[k] in inUse && |DataOf(nets, slots, Own(held, q)[k])| > 0)
    && (held.None? ==> offset == 0) && (held.Some? ==> offset < |DataOf(nets, slots, held.value)|)
  }

  /** What others do to the pool does not concern a connection. */
  lemma OthersOk(held: Opt, offset: nat, q: seq<nat>, nets: seq<Net>, slots: seq<Slot>, inUse: set<nat>,
                 nets2: seq<Net>, slots2: seq<Slot>, inUse2: set<nat>)
    requires ConnOk(held, offset, q, nets, slots, inUse)
    requires forall k :: 0 <= k < |Own(held, q)| ==>
               Own(held, q)[k] in inUse2 && DataOf(nets2, slots2, Own(held, q)[k]) == DataOf(nets, slots, Own(held, q)[k])
    ensures ConnOk(held, offset, q, nets2, slots2, inUse2)
    ensures Rest(held, offset, q, nets2, slots2) == Rest(held, offset, q, nets, slots)
  {
    hide DataOf;
    var own := Own(held, q);
    assert held.Some? ==> own[0] == held.value;
    forall k | 0 <= k < |q| ensures DataOf(nets2, slots2, q[k]) == DataOf(nets, slots, q[k]) {
      assert q[k] == own[if held.Some? then k + 1 else k];
    }
    JoinedSame(nets, slots, nets2, slots2, q);
  }

  lemma PostOk(held: Opt, offset: nat, q: seq<nat>, nets: seq<Net>, slots: seq<Slot>, inUse: set<nat>, i: nat)
    requires ConnOk(held, offset, q, nets, slots, inUse) && i in inUse && i !in Own(held, q) && |DataOf(nets, slots, i)| > 0
    ensures ConnOk(held, offset, q + [i], nets, slots, inUse) && Own(held, q + [i]) == Own(held, q) + [i]
    ensures Rest(held, offset, q + [i], nets, slots) == Rest(held, offset, q, nets, slots) + DataOf(nets, slots, i)
  {
    hide DataOf;
    assert Own(held, q + [i]) == Own(held, q) + [i];
    JoinedSnoc(nets, slots, q, i);
    var h := if held.Some? then DataOf(nets, slots, held.value)[offset..] else [];
    assert h + (Joined(nets, slots, q) + DataOf(nets, slots, i)) == h + Joined(nets, slots, q) + DataOf(nets, slots, i);
  }

  lemma FetchOk(q: seq<nat>, nets: seq<Net>, slots: seq<Slot>, inUse: set<nat>)
    requires ConnOk(None, 0, q, nets, slots, inUse) && q != []
    ensures ConnOk(Some(q[0]), 0, q[1..], nets, slots, inUse) && Own(Some(q[0]), q[1..]) == Own(None, q)
    ensures Rest(Some(q[0]), 0, q[1..], nets, slots) == Rest(None, 0, q, nets, slots)
  {
    hide DataOf;
    assert Own(Some(q[0]), q[1..]) == Own(None, q);
    assert Own(None, q)[0] == q[0];
  }

  lemma AdvanceOk(held: Opt, offset: nat, q: seq<nat>, nets: seq<Net>, slots: seq<Slot>, inUse: set<nat>, n: nat)
    requires ConnOk(held, offset, q, nets, slots, inUse) && held.Some? && offset + n < |DataOf(nets, slots, held.value)|
    ensures ConnOk(held, offset + n, q, nets, slots, inUse)
    ensures var d := DataOf(nets, slots, held.value);
            Rest(held, offset, q, nets, slots) == d[offset..offset + n] + Rest(held, offset + n, q, nets, slots)
  {
    hide DataOf, Joined;
    var d := DataOf(nets, slots, held.value);
    assert d[offset..] == d[offset..offset + n] + d[offset + n..];
  }

  /** The buffer is read to its end and released. */
  lemma DropOk(held: Opt, offset: nat, q: seq<nat>, nets: seq<Net>, slots: seq<Slot>, inUse: set<nat>,
               nets2: seq<Net>, slots2: seq<Slot>, inUse2: set<nat>)
    requires ConnOk(held, offset, q, nets, slots, inUse) && held.Some? && inUse2 == inUse - {held.value}
    requires forall j :: j in inUse2 ==> DataOf(nets2, slots2, j) == DataOf(nets, slots, j)
    ensures ConnOk(None, 0, q, nets2, slots2, inUse2) && Own(held, q) == [held.value] + Own(None, q)
    ensures Rest(held, offset, q, nets, slots) == DataOf(nets, slots, held.value)[offset..] + Rest(None, 0, q, nets2, slots2)
  {
    hide DataOf;
    var own := Own(held, q);
    assert own == [held.value] + q && Own(None, q) == q;
    TailDistinct(own, held.value, q);
    forall k | 0 <= k < |q| ensures q[k] in inUse2 && DataOf(nets2, slots2, q[k]) == DataOf(nets, slots, q[k])
                                    && |DataOf(nets2, slots2, q[k])| > 0 {
      assert q[k] == own[k + 1];
    }
    JoinedSame(nets, slots, nets2, slots2, q);
  }

  lemma TailDistinct(own: seq<nat>, x: nat, q: seq<nat>)
    requires own == [x] + q && Distinct(own)
    ensures Distinct(q) && forall k :: 0 <= k < |q| ==> q[k] != x
  {
    assert forall k :: 0 <= k < |q| ==> q[k] == own[k + 1];
    assert own[0] == x;
  }

  class Connection {
    const pool: Pool
    const mbox: Mailbox<nat>
    const tcp: bool
    /** `lastdata` and `lastoffset`. */
    var held: Opt
    var offset: nat
    /** Everything accepted by `Input` and everything returned by `Recv`, in order. */
    ghost var accepted: seq<byte>
    ghost var delivered: seq<byte>

    ghost function Owned(): seq<nat>
      requires mbox.Valid()
      reads this, mbox, mbox.buffer
    {
      Own(held, mbox.Contents())
    }

    ghost function Pending(): seq<byte>
      requires mbox.Valid()
      reads this, mbox, mbox.buffer, pool
    {
      Rest(held, offset, mbox.Contents(), pool.nets, pool.slots)
    }

    ghost predicate Valid()
      reads this, mbox, mbox.buffer, pool
    {
      && pool.Valid() && mbox.Valid() && (held.Some? ==> tcp)
      && ConnOk(held, offset, mbox.Contents(), pool.nets, pool.slots, pool.inUse)
    }

    /** What was returned is a beginning of what was accepted, and the rest is still here. */
    ghost predicate InOrder()
      requires mbox.Valid()
      reads this, mbox, mbox.buffer, pool
    {
      accepted == delivered + Pending()
    }

    constructor (pool: Pool, mbox: Mailbox<nat>, tcp: bool)
      requires pool.Valid() && mbox.Valid() && mbox.Contents() == []
      ensures Valid() && InOrder() && Owned() == [] && accepted == [] && delivered == []
      ensures this.pool == pool && this.mbox == mbox && this.tcp == tcp
    {
      this.pool, this.mbox, this.tcp := pool, mbox, tcp;
      held, offset, accepted, delivered := None, 0, [], [];
    }

    /** `at_conn_input` for an open connection. */
    method Input(data: seq<byte>) returns (ok: bool)
      requires Valid()
      modifies `accepted, pool`nets, pool`slots, pool`inUse, mbox, mbox.buffer
      ensures Valid() && (old(InOrder()) ==> InOrder())
      ensures ok <==> 0 < |data| <= pool.payloadSize && old(|pool.inUse|) < |pool.nets|
                      && UsedCount(old(pool.slots)) < |pool.slots| && old(|mbox.Contents()|) < mbox.buffer.Length
      ensures accepted == if ok then old(accepted) + data else old(accepted)
      ensures ok ==> Pending() == old(Pending()) + data
      ensures ok ==> exists i :: i !in old(pool.inUse) && Owned() == old(Owned()) + [i] && pool.inUse == old(pool.inUse) + {i}
      ensures !ok ==> Owned() == old(Owned()) && pool.inUse == old(pool.inUse) && Pending() == old(Pending())
      ensures forall j :: j in old(pool.inUse) ==> pool.Data(j) == old(pool.Data(j))
    {
      hide DataOf, PoolOk, Own, Rest, ConnOk, Window, UsedCount;
      ghost var q := mbox.Contents();
      OwnedInUse();
      Counts(pool.nets, pool.slots, pool.inUse);
      var i := pool.Store(data);
      OthersOk(held, offset, q, old(pool.nets), old(pool.slots), old(pool.inUse), pool.nets, pool.slots, pool.inUse);
      if i.None? {
        return false;
      }
      ghost var own := Owned();
      assert i.value !in own;
      PostOk(held, offset, q, pool.nets, pool.slots, pool.inUse, i.value);
      ok := mbox.Write(i.value);
      if ok {
        accepted := accepted + data;
      } else {
        pool.Release(i.value);
        assert pool.inUse == old(pool.inUse);
        OthersOk(held, offset, q, old(pool.nets), old(pool.slots), old(pool.inUse), pool.nets, pool.slots, pool.inUse);
      }
    }

    /** No more buffers are in use than there are, nor slots. */
    lemma Counts(nets: seq<Net>, slots: seq<Slot>, inUse: set<nat>)
      requires PoolOk(nets, slots, inUse)
      ensures |inUse| <= |nets| && UsedCount(slots) <= |slots|
    {
      AllUsed(slots);
      var all := Below(|nets|);
      assert forall i :: i in inUse ==> i in all;
      SubsetSize(inUse, all);
    }

    lemma OwnedInUse()
      requires Valid()
      ensures forall k :: 0 <= k < |Owned()| ==> Owned()[k] in pool.inUse
      ensures Own(held, mbox.Contents()) == Owned()
    {}

    lemma HeldFirst()
      requires Valid()
      ensures held.Some? ==> held.value in pool.inUse && offset < |pool.Data(held.value)|
    {
      assert held.Some? ==> Owned()[0] == held.value;
    }

    /** `at_conn_fetch` when nothing is held. */
    method Fetch() returns (ok: bool)
      requires Valid() && held.None?
      modifies `held, mbox
      ensures ok <==> old(mbox.Contents()) != []
      ensures pool.Valid() && mbox.Valid() && ConnOk(held, offset, mbox.Contents(), pool.nets, pool.slots, pool.inUse)
      ensures Owned() == old(Owned()) && Pending() == old(Pending()) && (ok <==> held.Some?)
      ensures held.Some? ==> held.value in pool.inUse && offset == 0 && |pool.Data(held.value)| > 0
    {
      hide DataOf, PoolOk, Window, Rest;
      if mbox.Contents() != [] {
        FetchOk(mbox.Contents(), pool.nets, pool.slots, pool.inUse);
      }
      var i;
      ok, i := mbox.Read();
      if ok {
        held := Some(i);
        assert Owned()[0] == i;
      }
    }

    /** The end of a round: `n` octets of the buffer held were copied. */
    method Finish(n: nat, size: nat)
      requires pool.Valid() && mbox.Valid() && held.Some? && held.value in pool.inUse
      requires ConnOk(held, offset, mbox.Contents(), pool.nets, pool.slots, pool.inUse)
      requires size == |pool.Data(held.value)| && 0 < n && offset + n <= size
      modifies `held, `offset, pool`nets, pool`slots, pool`inUse
      ensures Valid()
      ensures tcp ==> old(Pending()) == old(pool.Data(held.value)[offset..offset + n]) + Pending()
      ensures !tcp ==> old(Pending()) == old(pool.Data(held.value)[offset..]) + Pending()
      ensures held.Some? ==> Owned() == old(Owned()) && pool.inUse == old(pool.inUse)
      ensures held.None? ==> old(Owned()) == [old(held.value)] + Owned() && pool.inUse == old(pool.inUse) - {old(held.value)}
      ensures forall j :: j in pool.inUse ==> pool.Data(j) == old(pool.Data(j))
      ensures tcp && old(offset) + n < size <==> held.Some?
    {
      hide DataOf, PoolOk, Window, ConnOk, Rest, Own;
      ghost var q := mbox.Contents();
      if tcp && offset + n < size {
        AdvanceOk(held, offset, q, pool.nets, pool.slots, pool.inUse, n);
        offset := offset + n;
      } else {
        var i := held.value;
        ghost var d := pool.Data(i);
        assert tcp ==> d[offset..offset + n] == d[offset..];
        pool.Release(i);
        DropOk(held, offset, q, old(pool.nets), old(pool.slots), old(pool.inUse), pool.nets, pool.slots, pool.inUse);
        held, offset := None, 0;
      }
    }

    /** One round of `at_conn_recv` for up to `want` octets. */
    method Round(want: nat) returns (ok: bool, got: seq<byte>)
      requires Valid() && want > 0
      modifies `held, `offset, pool`nets, pool`slots, pool`inUse, mbox
      ensures Valid() && (ok <==> old(Owned()) != [])
      ensures !ok ==> got == [] && Pending() == old(Pending()) && Owned() == old(Owned())
      ensures ok ==> 0 < |got| <= want
      ensures ok && tcp ==> old(Pending()) == got + Pending() && (|got| == want || held.None?)
      ensures ok && !tcp ==> got == old(pool.Data(Owned()[0]))[..Min(want, |old(pool.Data(Owned()[0]))|)]
      ensures ok && !tcp ==> Owned() == old(Owned())[1..] && old(Pending()) == old(pool.Data(Owned()[0])) + Pending()
      ensures Settled(old(Owned()), Owned(), old(pool.inUse), pool.inUse)
      ensures forall j :: j in pool.inUse ==> pool.Data(j) == old(pool.Data(j))
    {
      hide DataOf, PoolOk, Window, ConnOk, Rest, Own;
      ghost var own := Owned();
      NothingOwned();
      HeldFirst();
      ok, got := true, [];
      if held.None? {
        ok := Fetch();
        if !ok {
          return;
        }
      }
      assert own[0] == held.value by { OwnFirst(held, mbox.Contents()); }
      var d := pool.Peek(held.value);
      var n := Min(want, |d| - offset);
      got := d[offset..offset + n];
      assert Distinct(own) by { OwnDistinct(); }
      ghost var used := pool.inUse;
      Finish(n, |d|);
      if held.Some? {
        SettledSame(own, used);
      } else {
        SettledOne(own, Owned(), own[0], used);
      }
    }

    lemma OwnDistinct()
      requires mbox.Valid() && ConnOk(held, offset, mbox.Contents(), pool.nets, pool.slots, pool.inUse)
      ensures Distinct(Owned())
    {}

    lemma NothingOwned()
      requires Valid()
      ensures Owned() == [] <==> held.None? && mbox.Contents() == []
      ensures held.Some? ==> Owned()[0] == held.value
    {}

    /** The loop of `at_conn_recv` on a TCP connection. */
    method RecvStream(len: nat) returns (out: seq<byte>)
      requires Valid() && tcp && len > 0
      modifies `held, `offset, pool`nets, pool`slots, pool`inUse, mbox
      ensures Valid() && old(Pending()) == out + Pending() && |out| <= len
      ensures |out| < len ==> Pending() == []
      ensures old(Owned()) != [] ==> out != []
      ensures Settled(old(Owned()), Owned(), old(pool.inUse), pool.inUse)
      ensures forall j :: j in pool.inUse ==> pool.Data(j) == old(pool.Data(j))
    {
      hide DataOf, PoolOk, Window, ConnOk, Rest, Own, Settled;
      ghost var all, own, used := Pending(), Owned(), pool.inUse;
      SettledSame(own, used);
      out := [];
      assert all == out + all;
      while |out| < len
        invariant Valid() && |out| <= len && all == out + Pending()
        invariant Settled(own, Owned(), used, pool.inUse) && (out == [] ==> Owned() == own)
        invariant forall j :: j in pool.inUse ==> pool.Data(j) == old(pool.Data(j))
        decreases len - |out|
      {
        ghost var own1, used1 := Owned(), pool.inUse;
        var ok, got := Round(len - |out|);
        SettledTwice(own, own1, Owned(), used, used1, pool.inUse);
        SettledSubset(own1, Owned(), used1, pool.inUse);
        if !ok {
          NothingLeft();
          return;
        }
        assert out + (got + Pending()) == (out + got) + Pending();
        out := out + got;
      }
    }

    /** `at_conn_recv`: on a TCP connection the next octets of the stream, as many as there are up to
        `len`; otherwise the beginning of the next packet. -1 means that there is nothing. */
    method Recv(len: nat) returns (n: int, out: seq<byte>)
      requires Valid()
      modifies `held, `offset, `delivered, pool`nets, pool`slots, pool`inUse, mbox
      ensures Valid() && n == (if out == [] then -1 else |out|)
      ensures out == [] <==> len == 0 || old(Owned()) == []
      ensures tcp ==> out == old(Pending())[..Min(len, |old(Pending())|)] && old(Pending()) == out + Pending()
      ensures !tcp && out != [] ==> out == old(pool.Data(Owned()[0]))[..Min(len, |old(pool.Data(Owned()[0]))|)]
      ensures delivered == old(delivered) + out
      ensures tcp && old(InOrder()) ==> InOrder()
      ensures Settled(old(Owned()), Owned(), old(pool.inUse), pool.inUse)
      ensures forall j :: j in pool.inUse ==> pool.Data(j) == old(pool.Data(j))
    {
      hide DataOf, PoolOk, Window, ConnOk, Rest, Own, Settled;
      out := [];
      NothingLeft();
      ghost var all := Pending();
      SettledSame(Owned(), pool.inUse);
      assert all == out + all;
      if len > 0 {
        if tcp {
          out := RecvStream(len);
        } else {
          var ok;
          ok, out := Round(len);
        }
      }
      if tcp {
        TakenIs(all, out, Pending(), len);
        InOrderStep(accepted, delivered, all, out, Pending());
      }
      delivered := delivered + out;
      n := if out == [] then -1 else |out|;
    }

    /** `at_freeconn` and `at_drainconn`: every buffer goes back to the pool. */
    method Close()
      requires Valid()
      modifies `held, `offset, pool`nets, pool`slots, pool`inUse, mbox
      ensures Valid() && Owned() == [] && Pending() == []
      ensures Settled(old(Owned()), [], old(pool.inUse), pool.inUse)
      ensures forall j :: j in pool.inUse ==> pool.Data(j) == old(pool.Data(j))
    {
      hide DataOf, PoolOk, Window, ConnOk, Rest, Own;
      ghost var own, used := Owned(), pool.inUse;
      SettledSame(own, used);
      if held.Some? {
        ReleaseHeld();
      }
      while true
        invariant Valid() && held.None? && Settled(own, Owned(), used, pool.inUse)
        invariant forall j :: j in pool.inUse ==> pool.Data(j) == old(pool.Data(j))
        decreases |Owned()|
      {
        ghost var own1, used1 := Owned(), pool.inUse;
        NothingOwned();
        var ok := Fetch();
        if !ok {
          break;
        }
        ReleaseHeld();
        SettledTwice(own, own1, Owned(), used, used1, pool.inUse);
      }
      NothingOwned();
      NothingLeft();
    }

    method ReleaseHeld()
      requires pool.Valid() && mbox.Valid() && held.Some?
      requires ConnOk(held, offset, mbox.Contents(), pool.nets, pool.slots, pool.inUse)
      modifies `held, `offset, pool`nets, pool`slots, pool`inUse
      ensures Valid() && held.None? && Settled(old(Owned()), Owned(), old(pool.inUse), pool.inUse)
      ensures |Owned()| == old(|Owned()|) - 1
      ensures forall j :: j in pool.inUse ==> pool.Data(j) == old(pool.Data(j))
    {
      hide DataOf, PoolOk, Window, Rest, Own;
      ghost var q, own, used := mbox.Contents(), Owned(), pool.inUse;
      OwnFirst(held, q);
      var i := held.value;
      pool.Release(i);
      DropOk(held, offset, q, old(pool.nets), old(pool.slots), used, pool.nets, pool.slots, pool.inUse);
      held, offset := None, 0;
      SettledOne(own, Owned(), i, used);
    }

    lemma NothingLeft()
      requires mbox.Valid()
      ensures Owned() == [] ==> Pending() == []
    {}
  }

  lemma SubsetSize(a: set<nat>, b: set<nat>)
    requires a <= b
    ensures |a| <= |b|
  {
    assert b == a + (b - a);
  }

  lemma OwnFirst(held: Opt, q: seq<nat>)
    requires held.Some?
    ensures Own(held, q) != [] && Own(held, q)[0] == held.value
  {}

  /** Buffers are given up from the front, and exactly those are returned to the pool. */
  ghost predicate Settled(own: seq<nat>, now: seq<nat>, used: set<nat>, usedNow: set<nat>)
  {
    |now| <= |own| && now == own[|own| - |now|..] && usedNow == used - Gone(own, now)
  }

  ghost function Gone(own: seq<nat>, now: seq<nat>): set<nat>
  {
    set x | x in own && x !in now
  }

  lemma SettledSame(own: seq<nat>, used: set<nat>)
    ensures Settled(own, own, used, used)
  {
    assert Gone(own, own) == {};
  }

  lemma SettledSubset(own: seq<nat>, now: seq<nat>, used: set<nat>, usedNow: set<nat>)
    requires Settled(own, now, used, usedNow)
    ensures usedNow <= used
  {}

  lemma SettledOne(own: seq<nat>, now: seq<nat>, x: nat, used: set<nat>)
    requires own == [x] + now && Distinct(own)
    ensures Settled(own, now, used, used - {x})
  {
    assert own[1..] == now;
    assert x !in now by { assert forall k :: 0 <= k < |now| ==> now[k] == own[k + 1]; }
    assert Gone(own, now) == {x};
  }

  lemma SettledTwice(a: seq<nat>, b: seq<nat>, c: seq<nat>, used: set<nat>, used1: set<nat>, used2: set<nat>)
    requires Settled(a, b, used, used1) && Settled(b, c, used1, used2)
    ensures Settled(a, c, used, used2)
  {
    assert c == a[|a| - |c|..];
    assert forall x :: x in c ==> x in b;
    assert forall x :: x in b ==> x in a;
    assert Gone(a, c) == Gone(a, b) + Gone(b, c);
  }

  lemma TakenIs(all: seq<byte>, out: seq<byte>, rest: seq<byte>, len: nat)
    requires all == out + rest && |out| <= len && (|out| < len ==> rest == [])
    ensures out == all[..Min(len, |all|)]
  {}

  lemma InOrderStep(accepted: seq<byte>, delivered: seq<byte>, before: seq<byte>, out: seq<byte>, after: seq<byte>)
    requires before == out + after
    ensures accepted == delivered + before ==> accepted == (delivered + out) + after
  {
    assert delivered + (out + after) == (delivered + out) + after;
  }

  // ---------------------------------------------------------------- several connections

  ghost function Members(s: seq<nat>): (r: set<nat>)
    ensures forall x :: x in r <==> x in s
  {
    set x | x in s
  }

  lemma {:induction false} DistinctCount(s: seq<nat>)
    requires Distinct(s)
    ensures |Members(s)| == |s|
  {
    if s == [] {
      assert Members(s) == {};
    } else {
      var r := s[..|s| - 1];
      assert s == r + [s[|s| - 1]];
      DistinctCount(r);
      assert s[|s| - 1] !in r;
      assert Members(s) == Members(r) + {s[|s| - 1]};
    }
  }

  /** `owns` are the buffers of all connections that share the pool. */
  ghost predicate Shared(inUse: set<nat>, owns: seq<seq<nat>>)
  {
    Distinct(Flatten(owns)) && inUse == Members(Flatten(owns))
  }

  /** The used payload slots are as many as the buffers queued and held. */
  lemma SlotsAccounted(nets: seq<Net>, slots: seq<Slot>, inUse: set<nat>, owns: seq<seq<nat>>)
    requires PoolOk(nets, slots, inUse) && Shared(inUse, owns)
    ensures UsedCount(slots) == |Flatten(owns)|
  {
    DistinctCount(Flatten(owns));
  }

  /** Where the buffers of connection `c` stand among all. */
  lemma FlattenSplit(owns: seq<seq<nat>>, c: nat)
    requires c < |owns|
    ensures Flatten(owns) == Flatten(owns[..c]) + owns[c] + Flatten(owns[c + 1..])
  {
    assert owns == owns[..c] + owns[c..];
    FlattenAppend(owns[..c], owns[c..]);
    assert owns[c..][0] == owns[c] && owns[c..][1..] == owns[c + 1..];
  }

  /** What `Input` does to one connection keeps the accounts of all. */
  lemma SharedInput(inUse: set<nat>, owns: seq<seq<nat>>, c: nat, i: nat)
    requires Shared(inUse, owns) && c < |owns| && i !in inUse
    ensures Shared(inUse + {i}, owns[c := owns[c] + [i]])
  {
    hide Flatten;
    var ows := owns[c := owns[c] + [i]];
    FlattenSplit(owns, c);
    FlattenSplit(ows, c);
    assert ows[..c] == owns[..c] && ows[c + 1..] == owns[c + 1..];
    InsertDistinct(Flatten(owns[..c]) + owns[c], i, Flatten(owns[c + 1..]));
    assert Flatten(ows) == Flatten(owns[..c]) + owns[c] + [i] + Flatten(owns[c + 1..]);
    assert Members(Flatten(ows)) == Members(Flatten(owns)) + {i};
  }

  lemma InsertDistinct(a: seq<nat>, i: nat, b: seq<nat>)
    requires Distinct(a + b) && i !in a + b
    ensures Distinct(a + [i] + b)
  {
    var s, r := a + b, a + [i] + b;
    assert forall k :: 0 <= k < |a| ==> r[k] == s[k];
    assert forall k :: |a| < k < |r| ==> r[k] == s[k - 1];
  }

  /** What `Recv` and `Close` do to one connection keeps the accounts of all. */
  lemma SharedSettled(inUse: set<nat>, owns: seq<seq<nat>>, c: nat, now: seq<nat>, inUse2: set<nat>)
    requires Shared(inUse, owns) && c < |owns| && Settled(owns[c], now, inUse, inUse2)
    ensures Shared(inUse2, owns[c := now])
  {
    hide Flatten;
    var ows := owns[c := now];
    FlattenSplit(owns, c);
    FlattenSplit(ows, c);
    assert ows[..c] == owns[..c] && ows[c + 1..] == owns[c + 1..];
    var a, b := Flatten(owns[..c]), Flatten(owns[c + 1..]);
    CutDistinct(a, owns[c], now, b);
    forall x ensures x in inUse2 <==> x in a + now + b {
      assert x in inUse <==> x in a + owns[c] + b;
    }
  }

  lemma OwnSplit(own: seq<nat>, d: nat, x: nat)
    requires d <= |own| && x in own && x !in own[d..]
    ensures x in own[..d]
  {
    assert own == own[..d] + own[d..];
  }

  lemma CutDistinct(a: seq<nat>, own: seq<nat>, now: seq<nat>, b: seq<nat>)
    requires Distinct(a + own + b) && |now| <= |own| && now == own[|own| - |now|..]
    ensures Distinct(a + now + b)
    ensures forall x :: x in own && x !in now ==> x !in a + now + b
    ensures forall x :: x in now ==> x in own
  {
    var s, r, d := a + own + b, a + now + b, |own| - |now|;
    assert forall k :: 0 <= k < |a| ==> r[k] == s[k];
    assert forall k :: |a| <= k < |r| ==> r[k] == s[k + d];
    forall x | x in own && x !in now ensures x !in a + now + b {
      assert x in own[..d] by { OwnSplit(own, d, x); }
      var i :| 0 <= i < d && own[..d][i] == x;
      assert s[|a| + i] == x;
    }
  }
}
