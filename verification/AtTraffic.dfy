/** Several connections on one pool: whatever packets come in, are read or are dropped with their connection,
    the pool accounts for every buffer and each stream stays in order. */
module AtTraffic {
  import opened Bytes
  import opened AtMailbox
  import opened AtPool
  import opened AtConnection

  datatype Action =
    | Packet(c: nat, data: seq<byte>) // at_conn_input
    | Read(c: nat, len: nat)          // at_conn_recv
    | Hangup(c: nat)                  // at_freeconn

  /** What holds of one connection given the pool's values; while it is `open` its octets are in order. */
  ghost predicate Seen(k: Connection, nets: seq<Net>, slots: seq<Slot>, inUse: set<nat>, own: seq<nat>, open: bool)
    reads k, k.mbox, k.mbox.buffer
  {
    && k.mbox.Valid() && (k.held.Some? ==> k.tcp)
    && ConnOk(k.held, k.offset, k.mbox.Contents(), nets, slots, inUse) && own == Own(k.held, k.mbox.Contents())
    && (k.tcp && open ==> k.accepted == k.delivered + Rest(k.held, k.offset, k.mbox.Contents(), nets, slots))
  }

  /** Nothing of one connection is shared with another. */
  ghost predicate Apart(conns: seq<Connection>)
  {
    forall i, j :: 0 <= i < j < |conns| ==>
      conns[i] != conns[j] && conns[i].mbox != conns[j].mbox && conns[i].mbox.buffer != conns[j].mbox.buffer
  }

  ghost function Boxes(conns: seq<Connection>): set<Mailbox<nat>>
  {
    set i | 0 <= i < |conns| :: conns[i].mbox
  }

  ghost function Arrays(conns: seq<Connection>): set<array<nat>>
  {
    set i | 0 <= i < |conns| :: conns[i].mbox.buffer
  }

  /** The connections are right and their buffers are exactly the pool's buffers in use. */
  ghost predicate AllSeen(pool: Pool, conns: seq<Connection>, owns: seq<seq<nat>>, open: seq<bool>)
    reads pool, conns, Boxes(conns), Arrays(conns)
  {
    && |owns| == |conns| == |open| && pool.Valid() && Shared(pool.inUse, owns)
    && forall i :: 0 <= i < |conns| ==>
         conns[i].pool == pool && Seen(conns[i], pool.nets, pool.slots, pool.inUse, owns[i], open[i])
  }

  lemma SeenStill(k: Connection, nets: seq<Net>, slots: seq<Slot>, inUse: set<nat>, own: seq<nat>, open: bool,
                  nets2: seq<Net>, slots2: seq<Slot>, inUse2: set<nat>)
    requires Seen(k, nets, slots, inUse, own, open)
    requires forall x :: x in own ==> x in inUse2 && DataOf(nets2, slots2, x) == DataOf(nets, slots, x)
    ensures Seen(k, nets2, slots2, inUse2, own, open)
  {
    hide DataOf, ConnOk, Own, Rest, Window;
    OthersOk(k.held, k.offset, k.mbox.Contents(), nets, slots, inUse, nets2, slots2, inUse2);
  }

  lemma SeenIs(k: Connection, own: seq<nat>, open: bool)
    requires k.pool.Valid()
    ensures Seen(k, k.pool.nets, k.pool.slots, k.pool.inUse, own, open) <==>
            k.Valid() && own == k.Owned() && (k.tcp && open ==> k.InOrder())
  {
    hide DataOf, ConnOk, Own, Rest, Window, PoolOk;
  }

  lemma {:induction false} OwnInAll(owns: seq<seq<nat>>, j: nat, x: nat)
    requires j < |owns| && x in owns[j]
    ensures x in Flatten(owns)
  {
    FlattenSplit(owns, j);
  }

  lemma OwnsApart(owns: seq<seq<nat>>, c: nat, j: nat, x: nat)
    requires c < |owns| && j < |owns| && c != j && Distinct(Flatten(owns)) && x in owns[j]
    ensures x !in owns[c]
  {
    hide Flatten;
    var b := owns[c + 1..];
    FlattenSplit(owns, c);
    var all, f := Flatten(owns), |Flatten(owns[..c])|;
    forall i | 0 <= i < |owns[c]| ensures owns[c][i] != x {
      assert all[f + i] == owns[c][i];
      if j < c {
        OwnInAll(owns[..c], j, x);
        var m :| 0 <= m < f && Flatten(owns[..c])[m] == x;
        assert all[m] == x;
      } else {
        assert b[j - c - 1] == owns[j];
        OwnInAll(b, j - c - 1, x);
        var m :| 0 <= m < |Flatten(b)| && Flatten(b)[m] == x;
        assert all[f + |owns[c]| + m] == x;
      }
    }
  }

  /** What connection `c` left of the pool is all the others have. */
  lemma RestSeen(pool: Pool, conns: seq<Connection>, owns: seq<seq<nat>>, open: seq<bool>, c: nat, nets: seq<Net>,
                 slots: seq<Slot>, inUse: set<nat>)
    requires |owns| == |conns| == |open| && c < |conns| && Shared(inUse, owns)
    requires forall j :: 0 <= j < |conns| && j != c ==> Seen(conns[j], nets, slots, inUse, owns[j], open[j])
    requires forall x :: x in inUse && x !in owns[c] ==> x in pool.inUse
    requires forall x :: x in inUse && x in pool.inUse ==> DataOf(pool.nets, pool.slots, x) == DataOf(nets, slots, x)
    ensures forall j :: 0 <= j < |conns| && j != c ==>
              Seen(conns[j], pool.nets, pool.slots, pool.inUse, owns[j], open[j])
  {
    hide Seen, DataOf, Flatten;
    forall j | 0 <= j < |conns| && j != c ensures Seen(conns[j], pool.nets, pool.slots, pool.inUse, owns[j], open[j]) {
      forall x | x in owns[j] ensures x in pool.inUse && x in inUse {
        OwnInAll(owns, j, x);
        OwnsApart(owns, c, j, x);
      }
      SeenStill(conns[j], nets, slots, inUse, owns[j], open[j], pool.nets, pool.slots, pool.inUse);
    }
  }

  /** The memory of connection `c` is not that of another. */
  lemma ApartFrom(conns: seq<Connection>, c: nat)
    requires Apart(conns) && c < |conns|
    ensures forall j :: 0 <= j < |conns| && j != c ==>
              conns[j] != conns[c] && conns[j].mbox != conns[c].mbox && conns[j].mbox.buffer != conns[c].mbox.buffer
  {}

  /** The connections after one of them got the buffers `own`. */
  lemma SeenAgain(pool: Pool, conns: seq<Connection>, owns: seq<seq<nat>>, open: seq<bool>, c: nat, own: seq<nat>, o: bool)
    requires |owns| == |conns| == |open| && c < |conns| && pool.Valid() && Shared(pool.inUse, owns[c := own])
    requires forall j :: 0 <= j < |conns| ==> conns[j].pool == pool
    requires forall j :: 0 <= j < |conns| && j != c ==>
               Seen(conns[j], pool.nets, pool.slots, pool.inUse, owns[j], open[j])
    requires Seen(conns[c], pool.nets, pool.slots, pool.inUse, own, o)
    ensures AllSeen(pool, conns, owns[c := own], open[c := o])
  {
    hide Seen, Shared;
  }

  method PacketTo(pool: Pool, conns: seq<Connection>, ghost owns: seq<seq<nat>>, open: seq<bool>, c: nat, data: seq<byte>)
    returns (ghost ows: seq<seq<nat>>)
    requires AllSeen(pool, conns, owns, open) && Apart(conns) && c < |conns| && open[c]
    modifies conns[c], pool`nets, pool`slots, pool`inUse, conns[c].mbox, conns[c].mbox.buffer
    ensures AllSeen(pool, conns, ows, open) && |ows| == |owns| && forall j :: 0 <= j < |ows| && j != c ==> ows[j] == owns[j]
  {
    hide Seen, Shared, DataOf, PoolOk, Apart, UsedCount;
    ghost var nets, slots, used := pool.nets, pool.slots, pool.inUse;
    ApartFrom(conns, c);
    SeenIs(conns[c], owns[c], true);
    var ok := conns[c].Input(data);
    ows := owns[c := conns[c].Owned()];
    if ok {
      ghost var i :| i !in used && conns[c].Owned() == owns[c] + [i] && pool.inUse == used + {i};
      SharedInput(used, owns, c, i);
    } else {
      assert ows == owns;
    }
    SeenIs(conns[c], conns[c].Owned(), true);
    RestSeen(pool, conns, owns, open, c, nets, slots, used);
    SeenAgain(pool, conns, owns, open, c, conns[c].Owned(), true);
    assert open[c := true] == open;
  }

  method ReadFrom(pool: Pool, conns: seq<Connection>, ghost owns: seq<seq<nat>>, open: seq<bool>, c: nat, len: nat)
    returns (ghost ows: seq<seq<nat>>)
    requires AllSeen(pool, conns, owns, open) && Apart(conns) && c < |conns| && open[c]
    modifies conns[c], pool`nets, pool`slots, pool`inUse, conns[c].mbox
    ensures AllSeen(pool, conns, ows, open) && |ows| == |owns| && forall j :: 0 <= j < |ows| && j != c ==> ows[j] == owns[j]
  {
    hide Seen, Shared, DataOf, PoolOk, Apart, UsedCount, Settled;
    ghost var nets, slots, used := pool.nets, pool.slots, pool.inUse;
    ApartFrom(conns, c);
    SeenIs(conns[c], owns[c], true);
    var n, out := conns[c].Recv(len);
    ows := owns[c := conns[c].Owned()];
    SharedSettled(used, owns, c, conns[c].Owned(), pool.inUse);
    SettledKeeps(owns[c], conns[c].Owned(), used, pool.inUse);
    SeenIs(conns[c], conns[c].Owned(), true);
    RestSeen(pool, conns, owns, open, c, nets, slots, used);
    SeenAgain(pool, conns, owns, open, c, conns[c].Owned(), true);
    assert open[c := true] == open;
  }

  lemma SettledKeeps(own: seq<nat>, now: seq<nat>, used: set<nat>, usedNow: set<nat>)
    requires Settled(own, now, used, usedNow)
    ensures forall x :: x in used && x !in own ==> x in usedNow
  {}

  method HangUp(pool: Pool, conns: seq<Connection>, ghost owns: seq<seq<nat>>, open: seq<bool>, c: nat)
    returns (ghost ows: seq<seq<nat>>)
    requires AllSeen(pool, conns, owns, open) && Apart(conns) && c < |conns|
    modifies conns[c], pool`nets, pool`slots, pool`inUse, conns[c].mbox
    ensures AllSeen(pool, conns, ows, open[c := false]) && ows == owns[c := []]
  {
    hide Seen, Shared, DataOf, PoolOk, Apart, UsedCount, Settled;
    ghost var nets, slots, used := pool.nets, pool.slots, pool.inUse;
    ApartFrom(conns, c);
    SeenIs(conns[c], owns[c], open[c]);
    conns[c].Close();
    ows := owns[c := []];
    SharedSettled(used, owns, c, [], pool.inUse);
    SettledKeeps(owns[c], [], used, pool.inUse);
    SeenIs(conns[c], [], false);
    RestSeen(pool, conns, owns, open, c, nets, slots, used);
    SeenAgain(pool, conns, owns, open, c, [], false);
  }

  /** Any run: packets for, reads from and ends of connections, in any order. Those that are not open are left alone. */
  method Traffic(pool: Pool, conns: seq<Connection>, ghost owns: seq<seq<nat>>, actions: seq<Action>)
    returns (open: seq<bool>, ghost ows: seq<seq<nat>>)
    requires AllSeen(pool, conns, owns, seq(|conns|, i => true)) && Apart(conns)
    modifies conns, pool`nets, pool`slots, pool`inUse, Boxes(conns), Arrays(conns)
    ensures AllSeen(pool, conns, ows, open) && UsedCount(pool.slots) == |Flatten(ows)| == |pool.inUse|
    ensures forall i :: 0 <= i < |conns| ==>
              (open[i] <==> Hangup(i) !in actions) && (!open[i] ==> ows[i] == [])
  {
    hide Seen, Shared, PoolOk, Apart, UsedCount;
    open, ows := seq(|conns|, i => true), owns;
    var k := 0;
    while k < |actions|
      invariant 0 <= k <= |actions| && |open| == |conns| == |ows| && AllSeen(pool, conns, ows, open)
      invariant forall i :: 0 <= i < |conns| ==> (open[i] <==> Hangup(i) !in actions[..k]) && (!open[i] ==> ows[i] == [])
    {
      var a := actions[k];
      assert actions[..k + 1] == actions[..k] + [a];
      if a.c < |conns| && open[a.c] {
        match a {
          case Packet(c, data) => ows := PacketTo(pool, conns, ows, open, c, data);
          case Read(c, len) => ows := ReadFrom(pool, conns, ows, open, c, len);
          case Hangup(c) => ows := HangUp(pool, conns, ows, open, c);
                            open := open[c := false];
        }
      }
      k := k + 1;
    }
    assert actions[..k] == actions;
    Accounted(pool, conns, ows, open);
  }

  lemma Accounted(pool: Pool, conns: seq<Connection>, owns: seq<seq<nat>>, open: seq<bool>)
    requires AllSeen(pool, conns, owns, open)
    ensures UsedCount(pool.slots) == |Flatten(owns)| == |pool.inUse|
  {
    SlotsAccounted(pool.nets, pool.slots, pool.inUse, owns);
  }
}
