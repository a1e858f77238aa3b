/** Binary heaps as sequences of keys: what one swap of `bubble_up` and `bubble_down` does. */
module HeapOrder {

  /** `(index - 1) / 2`. */
  function Parent(i: nat): nat
    requires i > 0
  {
    (i - 1) / 2
  }

  /** The comparator behaves on the keys of a queue like a strict total order up to equal keys. */
  ghost predicate OrderOn<K(!new)>(less: (K, K) -> bool, ks: seq<K>)
  {
    && (forall a, b :: a in ks && b in ks && less(a, b) ==> !less(b, a))
    && (forall a, b, c :: a in ks && b in ks && c in ks && !less(b, a) && !less(c, b) ==> !less(c, a))
  }

  ghost predicate Heap<K(!new)>(less: (K, K) -> bool, ks: seq<K>)
  {
    forall i :: 0 < i < |ks| ==> !less(ks[i], ks[Parent(i)])
  }

  /** A heap except that entry `k` may be smaller than its parent. */
  ghost predicate HeapUp<K(!new)>(less: (K, K) -> bool, ks: seq<K>, k: nat)
  {
    && (forall i :: 0 < i < |ks| && i != k ==> !less(ks[i], ks[Parent(i)]))
    && (forall i :: 0 < i < |ks| && 0 < k < |ks| && Parent(i) == k ==> !less(ks[i], ks[Parent(k)]))
  }

  /** Restricted to the entries from `k` on, the heap condition; `nghttp2_pq_update` rebuilds it
      from the back. */
  ghost predicate HeapFrom<K(!new)>(less: (K, K) -> bool, ks: seq<K>, k: nat)
  {
    forall i :: 0 < i < |ks| && Parent(i) >= k ==> !less(ks[i], ks[Parent(i)])
  }

  /** The heap condition from `k` on, except that entry `d` may be larger than its children. */
  ghost predicate HeapFromDown<K(!new)>(less: (K, K) -> bool, ks: seq<K>, k: nat, d: nat)
  {
    && (forall i :: 0 < i < |ks| && Parent(i) >= k && Parent(i) != d ==> !less(ks[i], ks[Parent(i)]))
    && (forall i :: 0 < i < |ks| && 0 < d < |ks| && Parent(i) == d && Parent(d) >= k ==> !less(ks[i], ks[Parent(d)]))
  }

  function Swap<T>(s: seq<T>, i: nat, j: nat): (r: seq<T>)
    requires i < |s| && j < |s|
    ensures |r| == |s|
  {
    s[i := s[j]][j := s[i]]
  }

  lemma SwapMembers<T>(s: seq<T>, i: nat, j: nat)
    requires i < |s| && j < |s|
    ensures multiset(Swap(s, i, j)) == multiset(s)
    ensures forall x :: x in Swap(s, i, j) <==> x in s
  {
    assert multiset(s[i := s[j]]) == multiset(s) - multiset{s[i]} + multiset{s[j]};
    assert forall x :: x in Swap(s, i, j) <==> x in multiset(Swap(s, i, j));
    assert forall x :: x in s <==> x in multiset(s);
  }

  /** The top of a heap is a minimum. */
  lemma {:induction false} TopIsMinimum<K(!new)>(less: (K, K) -> bool, ks: seq<K>, i: nat)
    requires Heap(less, ks) && OrderOn(less, ks) && i < |ks|
    ensures !less(ks[i], ks[0])
    decreases i
  {
    assert ks[i] in ks && ks[0] in ks;
    if i > 0 {
      TopIsMinimum(less, ks, Parent(i));
      assert ks[Parent(i)] in ks;
    }
  }

  /** `bubble_up` may stop. */
  lemma UpStops<K(!new)>(less: (K, K) -> bool, ks: seq<K>, k: nat)
    requires HeapUp(less, ks, k) && k < |ks| && (k > 0 ==> !less(ks[k], ks[Parent(k)]))
    ensures Heap(less, ks)
  {}

  lemma UpStep<K(!new)>(less: (K, K) -> bool, ks: seq<K>, k: nat)
    requires HeapUp(less, ks, k) && OrderOn(less, ks) && 0 < k < |ks| && less(ks[k], ks[Parent(k)])
    ensures HeapUp(less, Swap(ks, Parent(k), k), Parent(k))
  {
    var p := Parent(k);
    var r := Swap(ks, p, k);
    assert forall i :: 0 <= i < |ks| ==> ks[i] in ks;
    forall i | 0 < i < |r| && i != p ensures !less(r[i], r[Parent(i)]) {
      if i == k {
      } else if Parent(i) == p {
        assert !less(ks[i], ks[p]) && !less(ks[p], ks[k]);
      } else if Parent(i) == k {
        assert !less(ks[i], ks[p]);
      }
    }
    forall i | 0 < i < |r| && 0 < p && Parent(i) == p ensures !less(r[i], r[Parent(p)]) {
      assert !less(ks[p], ks[Parent(p)]);
      if i != k {
        assert !less(ks[i], ks[p]);
      }
    }
  }

  /** Appending an entry breaks the heap at most there. */
  lemma PushUp<K(!new)>(less: (K, K) -> bool, ks: seq<K>, x: K)
    requires Heap(less, ks)
    ensures HeapUp(less, ks + [x], |ks|)
  {
    var r := ks + [x];
    forall i | 0 < i < |r| && i != |ks| ensures !less(r[i], r[Parent(i)]) {
      assert r[i] == ks[i] && r[Parent(i)] == ks[Parent(i)];
    }
  }

  /** The last entry moved to the root, as `nghttp2_pq_pop` does. */
  lemma PopDown<K(!new)>(less: (K, K) -> bool, ks: seq<K>)
    requires Heap(less, ks) && ks != []
    ensures HeapFromDown(less, ks[0 := ks[|ks| - 1]][..|ks| - 1], 0, 0)
  {
    var r := ks[0 := ks[|ks| - 1]][..|ks| - 1];
    forall i | 0 < i < |r| && Parent(i) != 0 ensures !less(r[i], r[Parent(i)]) {
      assert r[i] == ks[i] && r[Parent(i)] == ks[Parent(i)];
    }
  }

  lemma DropLast<K(!new)>(less: (K, K) -> bool, ks: seq<K>)
    requires Heap(less, ks) && ks != []
    ensures Heap(less, ks[..|ks| - 1])
  {
    var r := ks[..|ks| - 1];
    forall i | 0 < i < |r| ensures !less(r[i], r[Parent(i)]) {
      assert r[i] == ks[i] && r[Parent(i)] == ks[Parent(i)];
    }
  }

  /** The last entry moved over entry `k`, as `nghttp2_pq_remove` does: it can only have to go the
      way the comparison with the removed entry tells. */
  lemma RemoveMiddle<K(!new)>(less: (K, K) -> bool, ks: seq<K>, k: nat)
    requires Heap(less, ks) && OrderOn(less, ks) && 0 < k < |ks| - 1
    ensures var r := ks[k := ks[|ks| - 1]][..|ks| - 1];
            if less(ks[k], r[k]) then HeapFromDown(less, r, 0, k) else HeapUp(less, r, k)
  {
    var r := ks[k := ks[|ks| - 1]][..|ks| - 1];
    assert forall i :: 0 <= i < |ks| ==> ks[i] in ks;
    assert forall i :: 0 <= i < |r| && i != k ==> r[i] == ks[i];
    assert !less(ks[k], ks[Parent(k)]);
    forall i | 0 < i < |r| && Parent(i) == k ensures !less(r[i], r[Parent(k)]) {
      assert !less(ks[i], ks[k]);
    }
  }

  /** `bubble_down` may stop when the entry is no larger than its children. */
  lemma FromStops<K(!new)>(less: (K, K) -> bool, ks: seq<K>, k: nat, d: nat)
    requires HeapFromDown(less, ks, k, d)
    requires forall i :: 0 < i < |ks| && Parent(i) == d ==> !less(ks[i], ks[d])
    ensures HeapFrom(less, ks, k)
  {}

  lemma FromStep<K(!new)>(less: (K, K) -> bool, ks: seq<K>, k: nat, d: nat, m: nat)
    requires HeapFromDown(less, ks, k, d) && OrderOn(less, ks) && k <= d
    requires 0 < m < |ks| && Parent(m) == d && less(ks[m], ks[d])
    requires forall i :: 0 < i < |ks| && Parent(i) == d ==> !less(ks[i], ks[m])
    ensures HeapFromDown(less, Swap(ks, d, m), k, m)
  {
    var r := Swap(ks, d, m);
    assert forall i :: 0 <= i < |ks| ==> ks[i] in ks;
    forall i | 0 < i < |r| && Parent(i) >= k && Parent(i) != m ensures !less(r[i], r[Parent(i)]) {
      if i == d {
        assert !less(ks[m], ks[Parent(d)]);
      } else if Parent(i) == d {
        if i != m { assert !less(ks[i], ks[m]); }
      }
    }
    forall i | 0 < i < |r| && Parent(i) == m ensures !less(r[i], r[Parent(m)]) {
      assert !less(ks[i], ks[m]);
    }
  }
}
