/** Streams and the priority queue (`nghttp2_pq`) each of them keeps for its children. A stream is
    itself the queue entry: `index` is its place in the queue it is in. */
module StreamQueue {
  import opened HeapOrder

  /** What the comparator looks at. */
  datatype Key = Key(cycle: Word, seqNo: nat)

  /** A `uint32_t`. */
  type Word = w: int | 0 <= w < 0x1_0000_0000

  /** Why an item is held back: the bits of NGHTTP2_STREAM_FLAG_DEFERRED_ALL. */
  datatype Deferral = FlowControl | User

  class Stream {
    // position in the dependency tree
    var depPrev: Stream?
    var depNext: Stream?
    var sibPrev: Stream?
    var sibNext: Stream?
    var weight: int
    var sumDepWeight: int
    // what there is to send
    var hasItem: bool
    var deferred: set<Deferral>
    // scheduling
    var queued: bool
    var obq: seq<Stream>
    var index: nat
    var cycle: Word
    var seqNo: nat
    var pendingPenalty: Word
    var lastWritelen: nat
    var descendantLastCycle: Word
    var descendantNextSeq: nat

    /** `nghttp2_stream_init`. */
    constructor (weight: int)
      ensures depPrev == null && depNext == null && sibPrev == null && sibNext == null
      ensures this.weight == weight && sumDepWeight == 0 && !hasItem && deferred == {}
      ensures !queued && obq == [] && cycle == 0 && seqNo == 0
      ensures pendingPenalty == 0 && lastWritelen == 0 && descendantLastCycle == 0 && descendantNextSeq == 0
    {
      depPrev, depNext, sibPrev, sibNext := null, null, null, null;
      this.weight, sumDepWeight, hasItem, deferred := weight, 0, false, {};
      queued, obq, index := false, [], 0;
      cycle, seqNo, pendingPenalty, lastWritelen, descendantLastCycle, descendantNextSeq := 0, 0, 0, 0, 0, 0;
    }

    function GetKey(): Key
      reads this`cycle, this`seqNo
    {
      Key(cycle, seqNo)
    }
  }

  /** The index back-pointers are right; in particular no stream occurs twice. */
  ghost predicate Indexed(q: seq<Stream>)
    reads q`index
  {
    forall i :: 0 <= i < |q| ==> q[i].index == i
  }

  ghost function Keys(q: seq<Stream>): (ks: seq<Key>)
    reads q`cycle, q`seqNo
    ensures |ks| == |q| && forall i :: 0 <= i < |q| ==> ks[i] == q[i].GetKey()
  {
    if q == [] then [] else Keys(q[..|q| - 1]) + [q[|q| - 1].GetKey()]
  }

  lemma OrderMembers(less: (Key, Key) -> bool, a: seq<Key>, b: seq<Key>)
    requires OrderOn(less, a) && forall x :: x in b ==> x in a
    ensures OrderOn(less, b)
  {}

  lemma KeysMembers(q: seq<Stream>, r: seq<Stream>)
    requires forall x :: x in q ==> x in r
    ensures forall k :: k in Keys(q) ==> k in Keys(r)
  {
    forall k | k in Keys(q) ensures k in Keys(r) {
      var i :| 0 <= i < |q| && Keys(q)[i] == k;
      assert q[i] in r;
      var j :| 0 <= j < |r| && r[j] == q[i];
      assert Keys(r)[j] == k;
    }
  }

  /** `swap`. */
  method SwapEntries(pq: Stream, i: nat, j: nat)
    requires i < |pq.obq| && j < |pq.obq| && Indexed(pq.obq)
    modifies pq`obq, pq.obq`index
    ensures pq.obq == Swap(old(pq.obq), i, j) && Indexed(pq.obq)
    ensures multiset(pq.obq) == old(multiset(pq.obq))
    ensures Keys(pq.obq) == Swap(old(Keys(pq.obq)), i, j)
    ensures forall i :: 0 <= i < |pq.obq| ==> pq.obq[i] in old(pq.obq)
  {
    hide Keys;
    var a, b := pq.obq[i], pq.obq[j];
    SwapMembers(pq.obq, i, j);
    pq.obq := pq.obq[i := b][j := a];
    b.index := i;
    a.index := j;
  }

  /** `bubble_up`: if the comparator orders the keys and only entry `k` may be smaller than its parent, the
      result is a heap. */
  method BubbleUp(pq: Stream, k: nat, less: (Key, Key) -> bool)
    requires k < |pq.obq| && Indexed(pq.obq)
    modifies pq`obq, pq.obq`index
    ensures Indexed(pq.obq) && multiset(pq.obq) == old(multiset(pq.obq))
    ensures old(OrderOn(less, Keys(pq.obq)) && HeapUp(less, Keys(pq.obq), k)) ==> Heap(less, Keys(pq.obq))
  {
    hide OrderOn, HeapUp, Heap, Keys, Swap;
    var idx: nat := k;
    ghost var sorted := OrderOn(less, Keys(pq.obq)) && HeapUp(less, Keys(pq.obq), k);
    while idx != 0
      invariant idx < |pq.obq| && Indexed(pq.obq) && multiset(pq.obq) == old(multiset(pq.obq))
      invariant forall i :: 0 <= i < |pq.obq| ==> pq.obq[i] in old(pq.obq)
      invariant sorted ==> OrderOn(less, Keys(pq.obq)) && HeapUp(less, Keys(pq.obq), idx)
    {
      var parent := (idx - 1) / 2;
      if !less(pq.obq[idx].GetKey(), pq.obq[parent].GetKey()) {
        if sorted { UpStops(less, Keys(pq.obq), idx); }
        return;
      }
      ghost var ks := Keys(pq.obq);
      if sorted { UpStep(less, ks, idx); }
      SwapEntries(pq, parent, idx);
      SwapMembers(ks, parent, idx);
      if sorted { OrderMembers(less, ks, Keys(pq.obq)); }
      idx := parent;
    }
    if sorted { UpStops(less, Keys(pq.obq), 0); }
  }

  /** `bubble_down`: `from` is where the part of the heap that is already in order begins. */
  method BubbleDown(pq: Stream, k: nat, less: (Key, Key) -> bool, ghost from: nat)
    requires Indexed(pq.obq) && from <= k
    modifies pq`obq, pq.obq`index
    ensures Indexed(pq.obq) && multiset(pq.obq) == old(multiset(pq.obq))
    ensures old(OrderOn(less, Keys(pq.obq)) && HeapFromDown(less, Keys(pq.obq), from, k))
            ==> HeapFrom(less, Keys(pq.obq), from)
  {
    hide OrderOn, HeapFromDown, HeapFrom, Keys, Swap, Chosen;
    var idx: nat := k;
    ghost var sorted := OrderOn(less, Keys(pq.obq)) && HeapFromDown(less, Keys(pq.obq), from, k);
    while true
      invariant Indexed(pq.obq) && multiset(pq.obq) == old(multiset(pq.obq)) && from <= idx
      invariant forall i :: 0 <= i < |pq.obq| ==> pq.obq[i] in old(pq.obq)
      invariant sorted ==> OrderOn(less, Keys(pq.obq)) && HeapFromDown(less, Keys(pq.obq), from, idx)
      decreases |pq.obq| - idx
    {
      ghost var ks := Keys(pq.obq);
      var m := SmallestChild(pq, idx, less);
      if m == idx {
        if sorted { FromStops(less, ks, from, idx); }
        return;
      }
      if sorted { DownStep(less, ks, from, idx, m); }
      SwapEntries(pq, idx, m);
      idx := m;
    }
  }

  /** The inner loop of `bubble_down` over the two children. */
  method SmallestChild(pq: Stream, idx: nat, less: (Key, Key) -> bool) returns (m: nat)
    ensures m == idx || (0 < m < |pq.obq| && Parent(m) == idx && idx < m && idx < |pq.obq|)
    ensures m == idx ==> forall i :: 0 < i < |pq.obq| && Parent(i) == idx ==>
                           !less(pq.obq[i].GetKey(), pq.obq[idx].GetKey())
    ensures m != idx ==> Chosen(less, Keys(pq.obq), idx, m)
  {
    hide Keys;
    m := idx;
    var j := idx * 2 + 1;
    if j < |pq.obq| && less(pq.obq[j].GetKey(), pq.obq[m].GetKey()) {
      m := j;
    }
    j := j + 1;
    if j < |pq.obq| && less(pq.obq[j].GetKey(), pq.obq[m].GetKey()) {
      m := j;
    }
  }

  /** The child the loop leaves: below its parent, and the left one only if the right is not below it. */
  ghost predicate Chosen(less: (Key, Key) -> bool, ks: seq<Key>, idx: nat, m: nat)
    requires idx < |ks| && m < |ks|
  {
    && (m == 2 * idx + 1 ==> less(ks[m], ks[idx]) && (m + 1 < |ks| ==> !less(ks[m + 1], ks[m])))
    && (m == 2 * idx + 2 ==>
          less(ks[m], if less(ks[m - 1], ks[idx]) then ks[m - 1] else ks[idx]))
  }

  lemma SmallestBoth(less: (Key, Key) -> bool, ks: seq<Key>, idx: nat, m: nat)
    requires OrderOn(less, ks) && idx < |ks| && 0 < m < |ks| && Parent(m) == idx && Chosen(less, ks, idx, m)
    ensures less(ks[m], ks[idx])
    ensures forall i :: 0 < i < |ks| && Parent(i) == idx ==> !less(ks[i], ks[m])
  {
    assert forall i :: 0 <= i < |ks| ==> ks[i] in ks;
    var l := 2 * idx + 1;
    if m == l + 1 {
      if less(ks[l], ks[idx]) {
        assert less(ks[m], ks[l]) && !less(ks[l], ks[m]);
        assert !less(ks[idx], ks[l]);
      } else {
        assert !less(ks[idx], ks[m]) && !less(ks[l], ks[idx]);
      }
    } else {
      assert m == l;
    }
    forall i | 0 < i < |ks| && Parent(i) == idx ensures !less(ks[i], ks[m]) {
      assert i == l || i == l + 1;
    }
  }

  /** One round of `bubble_down` on the keys. */
  lemma DownStep(less: (Key, Key) -> bool, ks: seq<Key>, from: nat, idx: nat, m: nat)
    requires OrderOn(less, ks) && HeapFromDown(less, ks, from, idx) && from <= idx < |ks|
    requires 0 < m < |ks| && Parent(m) == idx && Chosen(less, ks, idx, m)
    ensures OrderOn(less, Swap(ks, idx, m)) && HeapFromDown(less, Swap(ks, idx, m), from, m)
  {
    hide OrderOn, HeapFromDown, Swap, Chosen;
    SmallestBoth(less, ks, idx, m);
    FromStep(less, ks, from, idx, m);
    SwapMembers(ks, idx, m);
    OrderMembers(less, ks, Swap(ks, idx, m));
  }

  /** The queue's keys are ordered by the comparator and form a heap. */
  ghost predicate HeapOrdered(pq: Stream, less: (Key, Key) -> bool)
    reads pq`obq, pq.obq`cycle, pq.obq`seqNo
  {
    OrderOn(less, Keys(pq.obq)) && Heap(less, Keys(pq.obq))
  }

  lemma HeapIsFromZero(less: (Key, Key) -> bool, ks: seq<Key>)
    ensures Heap(less, ks) <==> HeapFrom(less, ks, 0)
  {}

  /** `nghttp2_pq_push`. */
  method Push(pq: Stream, item: Stream, less: (Key, Key) -> bool)
    requires Indexed(pq.obq) && item !in pq.obq
    modifies pq`obq, pq.obq`index, item`index
    ensures Indexed(pq.obq) && multiset(pq.obq) == old(multiset(pq.obq)) + multiset{item}
    ensures OrderOn(less, Keys(pq.obq)) && old(Heap(less, Keys(pq.obq))) ==> Heap(less, Keys(pq.obq))
  {
    hide OrderOn, HeapUp, Heap, Keys, Swap;
    ghost var q, ks := pq.obq, Keys(pq.obq);
    pq.obq := pq.obq + [item];
    item.index := |pq.obq| - 1;
    KeysSnoc(q, item);
    if Heap(less, ks) { PushUp(less, ks, item.GetKey()); }
    ghost var all := pq.obq;
    BubbleUp(pq, |pq.obq| - 1, less);
    SameKeys(less, all, pq.obq);
  }

  lemma KeysSnoc(q: seq<Stream>, item: Stream)
    ensures Keys(q + [item]) == Keys(q) + [item.GetKey()]
  {}

  /** Queues with the same members have the same keys to order. */
  lemma SameKeys(less: (Key, Key) -> bool, q: seq<Stream>, r: seq<Stream>)
    requires multiset(q) == multiset(r)
    ensures OrderOn(less, Keys(q)) <==> OrderOn(less, Keys(r))
  {
    hide Keys, OrderOn;
    assert forall x :: x in q <==> x in multiset(q);
    assert forall x :: x in r <==> x in multiset(r);
    KeysMembers(q, r);
    KeysMembers(r, q);
    if OrderOn(less, Keys(q)) { OrderMembers(less, Keys(q), Keys(r)); }
    if OrderOn(less, Keys(r)) { OrderMembers(less, Keys(r), Keys(q)); }
  }

  /** Overwrite entry `k` with the last one and drop the last. */
  method MoveLast(pq: Stream, k: nat)
    requires Indexed(pq.obq) && k < |pq.obq| - 1
    modifies pq`obq, pq.obq`index
    ensures Indexed(pq.obq)
    ensures pq.obq == old(pq.obq[k := pq.obq[|pq.obq| - 1]][..|pq.obq| - 1])
    ensures multiset(pq.obq) == old(multiset(pq.obq) - multiset{pq.obq[k]})
    ensures Keys(pq.obq) == old(Keys(pq.obq)[k := Keys(pq.obq)[|pq.obq| - 1]][..|pq.obq| - 1])
    ensures forall i :: 0 <= i < |pq.obq| ==> pq.obq[i] in old(pq.obq)
  {
    hide Keys;
    MovedMembers(pq.obq, k);
    var n := |pq.obq| - 1;
    pq.obq := pq.obq[k := pq.obq[n]][..n];
    pq.obq[k].index := k;
  }

  lemma MovedMembers(q: seq<Stream>, k: nat)
    requires k < |q| - 1
    ensures multiset(q[k := q[|q| - 1]][..|q| - 1]) == multiset(q) - multiset{q[k]}
  {
    var n := |q| - 1;
    var r := q[k := q[n]];
    assert multiset(r) == multiset(q) - multiset{q[k]} + multiset{q[n]};
    assert r == r[..n] + [q[n]];
    SameLess(multiset(r[..n]), multiset(q) - multiset{q[k]}, multiset(r), q[n]);
  }

  lemma SameLess(a: multiset<Stream>, b: multiset<Stream>, c: multiset<Stream>, x: Stream)
    requires a + multiset{x} == c == b + multiset{x}
    ensures a == b
  {
    assert a == c - multiset{x};
  }

  lemma LastMember(q: seq<Stream>)
    requires q != []
    ensures multiset(q[..|q| - 1]) == multiset(q) - multiset{q[|q| - 1]}
  {
    assert q == q[..|q| - 1] + [q[|q| - 1]];
  }

  /** The last entry is dropped: no sift is needed. */
  method RemoveTail(pq: Stream, less: (Key, Key) -> bool)
    requires pq.obq != [] && Indexed(pq.obq)
    modifies pq`obq
    ensures Indexed(pq.obq) && pq.obq == old(pq.obq[..|pq.obq| - 1])
    ensures multiset(pq.obq) == old(multiset(pq.obq) - multiset{pq.obq[|pq.obq| - 1]})
    ensures old(HeapOrdered(pq, less)) ==> HeapOrdered(pq, less)
  {
    hide OrderOn, Heap, Keys;
    LastMember(pq.obq);
    if HeapOrdered(pq, less) {
      DropLast(less, Keys(pq.obq));
      Fewer(less, pq.obq, pq.obq[..|pq.obq| - 1]);
      KeysPrefix(pq.obq);
    }
    pq.obq := pq.obq[..|pq.obq| - 1];
  }

  /** After `MoveLast` only entry `k` may be out of place, and only in the direction taken. */
  ghost predicate Displaced(pq: Stream, k: nat, down: bool, less: (Key, Key) -> bool)
    reads pq`obq, pq.obq`cycle, pq.obq`seqNo
  {
    && OrderOn(less, Keys(pq.obq))
    && if down then HeapFromDown(less, Keys(pq.obq), 0, k) else HeapUp(less, Keys(pq.obq), k)
  }

  method Displace(pq: Stream, k: nat, less: (Key, Key) -> bool) returns (down: bool)
    requires Indexed(pq.obq) && k < |pq.obq| - 1
    modifies pq`obq, pq.obq`index
    ensures Indexed(pq.obq) && k < |pq.obq|
    ensures multiset(pq.obq) == old(multiset(pq.obq) - multiset{pq.obq[k]})
    ensures forall i :: 0 <= i < |pq.obq| ==> pq.obq[i] in old(pq.obq)
    ensures old(HeapOrdered(pq, less)) ==> Displaced(pq, k, down, less)
  {
    hide OrderOn, HeapUp, Heap, HeapFromDown, Keys, Indexed;
    ghost var sorted, ks, q := HeapOrdered(pq, less), Keys(pq.obq), pq.obq;
    down := k == 0 || less(pq.obq[k].GetKey(), pq.obq[|pq.obq| - 1].GetKey());
    if sorted {
      if k == 0 { PopDown(less, ks); } else { RemoveMiddle(less, ks, k); }
    }
    MoveLast(pq, k);
    if sorted { Fewer(less, q, pq.obq); }
  }

  method Settle(pq: Stream, k: nat, down: bool, less: (Key, Key) -> bool)
    requires k < |pq.obq| && Indexed(pq.obq)
    modifies pq`obq, pq.obq`index
    ensures Indexed(pq.obq) && multiset(pq.obq) == old(multiset(pq.obq))
    ensures old(Displaced(pq, k, down, less)) ==> HeapOrdered(pq, less)
  {
    hide OrderOn, HeapUp, Heap, HeapFrom, HeapFromDown, Keys, Indexed;
    ghost var q := pq.obq;
    if down {
      BubbleDown(pq, k, less, 0);
      HeapIsFromZero(less, Keys(pq.obq));
    } else {
      BubbleUp(pq, k, less);
    }
    SameKeys(less, q, pq.obq);
  }

  /** `nghttp2_pq_remove`, with `nghttp2_pq_pop` as its case for the top. */
  method Remove(pq: Stream, item: Stream, less: (Key, Key) -> bool)
    requires Indexed(pq.obq) && item.index < |pq.obq| && pq.obq[item.index] == item
    modifies pq`obq, pq.obq`index
    ensures Indexed(pq.obq) && multiset(pq.obq) == old(multiset(pq.obq)) - multiset{item}
    ensures old(HeapOrdered(pq, less)) ==> HeapOrdered(pq, less)
  {
    hide HeapOrdered, Displaced, Indexed;
    if item.index == |pq.obq| - 1 {
      RemoveTail(pq, less);
    } else {
      var k := item.index;
      var down := Displace(pq, k, less);
      Settle(pq, k, down, less);
    }
  }

  lemma KeysPrefix(q: seq<Stream>)
    requires q != []
    ensures Keys(q[..|q| - 1]) == Keys(q)[..|q| - 1]
  {}

  lemma Fewer(less: (Key, Key) -> bool, q: seq<Stream>, r: seq<Stream>)
    requires OrderOn(less, Keys(q)) && forall i :: 0 <= i < |r| ==> r[i] in q
    ensures OrderOn(less, Keys(r))
  {
    hide Keys, OrderOn;
    KeysMembers(r, q);
    OrderMembers(less, Keys(q), Keys(r));
  }

  /** `nghttp2_pq_top`: a minimum of the queue. */
  method Top(pq: Stream, less: (Key, Key) -> bool) returns (top: Stream?)
    ensures top == null <==> pq.obq == []
    ensures top != null ==> top in pq.obq && top == pq.obq[0]
    ensures top != null && HeapOrdered(pq, less) ==> forall s :: s in pq.obq ==> !less(s.GetKey(), top.GetKey())
  {
    hide OrderOn, Heap, Keys;
    if pq.obq == [] {
      return null;
    }
    top := pq.obq[0];
    if HeapOrdered(pq, less) {
      forall s | s in pq.obq ensures !less(s.GetKey(), top.GetKey()) {
        var i :| 0 <= i < |pq.obq| && pq.obq[i] == s;
        TopIsMinimum(less, Keys(pq.obq), i);
      }
    }
  }

  /** The first loop of `nghttp2_pq_update`: every entry is changed once; `rv` is the union of what
      the callback returned. */
  method ApplyAll(pq: Stream, change: Key -> Key, touched: Key -> bool) returns (rv: bool)
    requires Indexed(pq.obq)
    modifies pq.obq`cycle, pq.obq`seqNo
    ensures forall i :: 0 <= i < |pq.obq| ==> pq.obq[i].GetKey() == change(old(pq.obq[i].GetKey()))
    ensures rv == exists i :: 0 <= i < |pq.obq| && touched(old(pq.obq[i].GetKey()))
  {
    rv := false;
    var i := 0;
    while i < |pq.obq|
      invariant 0 <= i <= |pq.obq|
      invariant forall j :: 0 <= j < i ==> pq.obq[j].GetKey() == change(old(pq.obq[j].GetKey()))
      invariant forall j :: i <= j < |pq.obq| ==> pq.obq[j].GetKey() == old(pq.obq[j].GetKey())
      invariant rv == exists j :: 0 <= j < i && touched(old(pq.obq[j].GetKey()))
    {
      var e := pq.obq[i];
      var key := e.GetKey();
      rv := touched(key) || rv;
      e.cycle, e.seqNo := change(key).cycle, change(key).seqNo;
      i := i + 1;
    }
  }

  /** The second loop of `nghttp2_pq_update`: any order of entries becomes a heap. */
  method Heapify(pq: Stream, less: (Key, Key) -> bool)
    requires Indexed(pq.obq)
    modifies pq`obq, pq.obq`index
    ensures Indexed(pq.obq) && multiset(pq.obq) == old(multiset(pq.obq))
    ensures OrderOn(less, Keys(pq.obq)) ==> HeapOrdered(pq, less)
  {
    hide OrderOn, HeapFrom, HeapFromDown, Heap, Keys;
    ghost var q := pq.obq;
    ghost var sorted := OrderOn(less, Keys(pq.obq));
    var i := |pq.obq|;
    FromEnd(less, Keys(q));
    while i > 0
      invariant 0 <= i <= |q| && Indexed(pq.obq) && multiset(pq.obq) == multiset(q)
      invariant forall j :: 0 <= j < |pq.obq| ==> pq.obq[j] in q
      invariant OrderOn(less, Keys(pq.obq)) == sorted
      invariant sorted ==> HeapFrom(less, Keys(pq.obq), i)
    {
      ghost var r := pq.obq;
      if sorted { FromBelow(less, Keys(r), i - 1); }
      BubbleDown(pq, i - 1, less, i - 1);
      SameKeys(less, r, pq.obq);
      SameMembers(q, pq.obq);
      i := i - 1;
    }
    HeapIsFromZero(less, Keys(pq.obq));
  }

  lemma SameMembers(q: seq<Stream>, r: seq<Stream>)
    requires multiset(q) == multiset(r)
    ensures forall j :: 0 <= j < |r| ==> r[j] in q
  {
    forall j | 0 <= j < |r| ensures r[j] in q {
      assert r[j] in multiset(r);
    }
  }

  lemma FromEnd(less: (Key, Key) -> bool, ks: seq<Key>)
    ensures HeapFrom(less, ks, |ks|)
  {}

  lemma FromBelow(less: (Key, Key) -> bool, ks: seq<Key>, k: nat)
    requires HeapFrom(less, ks, k + 1)
    ensures HeapFromDown(less, ks, k, k)
  {}

  /** `nghttp2_pq_update`: the keys are changed in place and, if the callback asked for it, the queue
      is brought back into order. */
  method Update(pq: Stream, change: Key -> Key, touched: Key -> bool, less: (Key, Key) -> bool) returns (rv: bool)
    requires Indexed(pq.obq)
    modifies pq`obq, pq.obq`index, pq.obq`cycle, pq.obq`seqNo
    ensures Indexed(pq.obq) && multiset(pq.obq) == old(multiset(pq.obq))
    ensures rv == exists i :: 0 <= i < old(|pq.obq|) && touched(old(pq.obq[i].GetKey()))
    ensures !rv ==> pq.obq == old(pq.obq)
    ensures forall i :: 0 <= i < old(|pq.obq|) ==> old(pq.obq)[i].GetKey() == change(old(pq.obq[i].GetKey()))
    ensures rv && OrderOn(less, Keys(pq.obq)) ==> HeapOrdered(pq, less)
  {
    hide OrderOn, Heap, Keys, HeapOrdered;
    rv := ApplyAll(pq, change, touched);
    if rv {
      ghost var q := pq.obq;
      Heapify(pq, less);
      SameKeys(less, q, pq.obq);
    }
  }
}
