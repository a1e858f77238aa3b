/** The static pools of `at_conn_mgmt.c`: network buffers and payload slots shared by all connections. */
module AtPool {
  import opened Bytes

  datatype Opt = None | Some(value: nat)

  /** `at_netbuf_t` and `at_payload_t`; a network buffer is free when it has no payload. */
  datatype Net = Net(payload: Opt, len: nat)
  datatype Slot = Slot(used: bool, buf: seq<byte>)

  function UsedCount(slots: seq<Slot>): nat
  {
    if slots == [] then 0 else UsedCount(slots[..|slots| - 1]) + if slots[|slots| - 1].used then 1 else 0
  }

  lemma {:induction false} UsedUpdate(slots: seq<Slot>, k: nat, s: Slot)
    requires k < |slots|
    ensures UsedCount(slots[k := s]) == UsedCount(slots) + (if s.used then 1 else 0) - (if slots[k].used then 1 else 0)
  {
    var n := |slots| - 1;
    if k == n {
      assert slots[k := s][..n] == slots[..n];
    } else {
      assert slots[k := s][..n] == slots[..n][k := s];
      UsedUpdate(slots[..n], k, s);
    }
  }

  ghost predicate Owns(nets: seq<Net>, slots: seq<Slot>, i: nat, k: nat)
  {
    i < |nets| && k < |slots| && nets[i].payload == Some(k) && slots[k].used && nets[i].len <= |slots[k].buf|
  }

  /** `inUse` are the buffers somebody holds: each has its own used slot, and no slot is used otherwise. */
  ghost predicate PoolOk(nets: seq<Net>, slots: seq<Slot>, inUse: set<nat>)
  {
    && (forall i :: i in inUse ==> i < |nets| && nets[i].payload.Some? && Owns(nets, slots, i, nets[i].payload.value))
    && (forall i :: 0 <= i < |nets| && i !in inUse ==> nets[i].payload.None?)
    && (forall i, j :: i in inUse && j in inUse && i != j ==> nets[i].payload != nets[j].payload)
    && UsedCount(slots) == |inUse|
  }

  /** The bytes of a buffer. */
  ghost function DataOf(nets: seq<Net>, slots: seq<Slot>, i: nat): (bs: seq<byte>)
  {
    if i < |nets| && nets[i].payload.Some? && Owns(nets, slots, i, nets[i].payload.value)
    then slots[nets[i].payload.value].buf[..nets[i].len] else []
  }

  lemma TakeOk(nets: seq<Net>, slots: seq<Slot>, inUse: set<nat>, i: nat, k: nat, len: nat, buf: seq<byte>)
    requires PoolOk(nets, slots, inUse) && i < |nets| && nets[i].payload.None? && k < |slots| && !slots[k].used && len <= |buf|
    ensures PoolOk(nets[i := Net(Some(k), len)], slots[k := Slot(true, buf)], inUse + {i})
    ensures i !in inUse
    ensures forall j :: j in inUse ==> DataOf(nets[i := Net(Some(k), len)], slots[k := Slot(true, buf)], j) == DataOf(nets, slots, j)
    ensures DataOf(nets[i := Net(Some(k), len)], slots[k := Slot(true, buf)], i) == buf[..len]
  {
    UsedUpdate(slots, k, Slot(true, buf));
    assert i !in inUse;
  }

  lemma GiveOk(nets: seq<Net>, slots: seq<Slot>, inUse: set<nat>, i: nat, buf: seq<byte>)
    requires PoolOk(nets, slots, inUse) && i in inUse
    ensures i < |nets| && nets[i].payload.Some? && nets[i].payload.value < |slots|
    ensures PoolOk(nets[i := Net(None, 0)], slots[nets[i].payload.value := Slot(false, buf)], inUse - {i})
    ensures forall j :: j in inUse && j != i ==>
              DataOf(nets[i := Net(None, 0)], slots[nets[i].payload.value := Slot(false, buf)], j) == DataOf(nets, slots, j)
  {
    UsedUpdate(slots, nets[i].payload.value, Slot(false, buf));
  }

  class Pool {
    var nets: seq<Net>
    var slots: seq<Slot>
    ghost var inUse: set<nat>
    const payloadSize: nat

    ghost predicate Valid()
      reads this
    {
      PoolOk(nets, slots, inUse) && forall k :: 0 <= k < |slots| ==> |slots[k].buf| == payloadSize
    }

    constructor (count: nat, payloadSize: nat)
      ensures Valid() && inUse == {} && |nets| == count && |slots| == count && this.payloadSize == payloadSize
    {
      this.payloadSize := payloadSize;
      nets := seq(count, _ => Net(None, 0));
      slots := seq(count, _ => Slot(false, seq(payloadSize, _ => 0)));
      inUse := {};
      new;
      NoneUsed(slots);
    }

    ghost function Data(i: nat): seq<byte>
      reads this
    {
      DataOf(nets, slots, i)
    }

    /** The bytes of a buffer in use. */
    method Peek(i: nat) returns (bs: seq<byte>)
      requires Valid() && i in inUse
      ensures bs == Data(i)
    {
      bs := slots[nets[i].payload.value].buf[..nets[i].len];
    }

    /** The scan of `alloc_atnetbuf`. */
    method FreeNet() returns (i: Opt)
      ensures i.Some? ==> i.value < |nets| && nets[i.value].payload.None?
      ensures i.None? <==> forall j :: 0 <= j < |nets| ==> nets[j].payload.Some?
    {
      for j := 0 to |nets|
        invariant forall k :: 0 <= k < j ==> nets[k].payload.Some?
      {
        if nets[j].payload.None? {
          return Some(j);
        }
      }
      return None;
    }

    /** The scan of `alloc_payload`. */
    method FreeSlot(size: int) returns (k: Opt)
      ensures k.Some? ==> k.value < |slots| && !slots[k.value].used && 0 < size <= payloadSize
      ensures k.None? <==> size <= 0 || size > payloadSize || forall j :: 0 <= j < |slots| ==> slots[j].used
    {
      if size <= 0 || size > payloadSize {
        return None;
      }
      for j := 0 to |slots|
        invariant forall i :: 0 <= i < j ==> slots[i].used
      {
        if !slots[j].used {
          return Some(j);
        }
      }
      return None;
    }

    /** `alloc_atnetbuf`, `alloc_payload` and the copy of the packet. */
    method Store(data: seq<byte>) returns (i: Opt)
      requires Valid()
      modifies `nets, `slots, `inUse
      ensures Valid() && |nets| == old(|nets|) && |slots| == old(|slots|)
      ensures i.None? ==> unchanged(this)
      ensures i.None? <==> |data| == 0 || |data| > payloadSize || old(|inUse|) == |nets| || UsedCount(old(slots)) == |slots|
      ensures i.Some? ==> i.value !in old(inUse) && inUse == old(inUse) + {i.value} && Data(i.value) == data
      ensures forall j :: j in old(inUse) ==> Data(j) == old(Data(j))
    {
      i := FreeNet();
      AllTaken(nets, slots, inUse);
      if i.None? {
        return;
      }
      var k := FreeSlot(|data|);
      AllUsed(slots);
      if k.None? {
        return None;
      }
      var buf := data + slots[k.value].buf[|data|..];
      TakeOk(nets, slots, inUse, i.value, k.value, |data|, buf);
      assert buf[..|data|] == data;
      nets, slots := nets[i.value := Net(Some(k.value), |data|)], slots[k.value := Slot(true, buf)];
      inUse := inUse + {i.value};
    }

    /** `free_payload` and `free_atnetbuf`: both are cleared. */
    method Release(i: nat)
      requires Valid() && i in inUse
      modifies `nets, `slots, `inUse
      ensures Valid() && |nets| == old(|nets|) && |slots| == old(|slots|) && inUse == old(inUse) - {i}
      ensures forall j :: j in inUse ==> Data(j) == old(Data(j))
    {
      var buf := seq(payloadSize, _ => 0);
      GiveOk(nets, slots, inUse, i, buf);
      nets, slots := nets[i := Net(None, 0)], slots[nets[i].payload.value := Slot(false, buf)];
      inUse := inUse - {i};
    }
  }

  lemma {:induction false} NoneUsed(slots: seq<Slot>)
    requires forall k :: 0 <= k < |slots| ==> !slots[k].used
    ensures UsedCount(slots) == 0
  {
    if slots != [] { NoneUsed(slots[..|slots| - 1]); }
  }

  lemma {:induction false} AllUsed(slots: seq<Slot>)
    ensures UsedCount(slots) <= |slots|
    ensures UsedCount(slots) == |slots| <==> forall k :: 0 <= k < |slots| ==> slots[k].used
  {
    if slots != [] {
      var r := slots[..|slots| - 1];
      AllUsed(r);
      assert forall k :: 0 <= k < |r| ==> slots[k] == r[k];
    }
  }

  lemma AllTaken(nets: seq<Net>, slots: seq<Slot>, inUse: set<nat>)
    requires PoolOk(nets, slots, inUse)
    ensures |inUse| == |nets| <==> forall j :: 0 <= j < |nets| ==> nets[j].payload.Some?
  {
    var all := Below(|nets|);
    assert forall i :: i in inUse ==> i in all;
    if forall j :: 0 <= j < |nets| ==> nets[j].payload.Some? {
      assert forall i :: i in all ==> i in inUse;
      assert inUse == all;
    }
    if |inUse| == |nets| {
      SubsetEq(inUse, all);
      assert forall j :: 0 <= j < |nets| ==> j in all;
    }
  }

  /** The numbers below `n`. */
  ghost function Below(n: nat): (s: set<nat>)
    ensures |s| == n && forall i: nat :: i in s <==> i < n
  {
    if n == 0 then {} else Below(n - 1) + {n - 1}
  }

  lemma SubsetEq(a: set<nat>, b: set<nat>)
    requires a <= b && |a| == |b|
    ensures a == b
  {
    assert b == a + (b - a);
    assert |b - a| == 0;
  }
}
