/** Taking a stream out alone: `nghttp2_stream_dep_remove`, first part. Its weight is shared out among
    its dependents, and those queued go to the queue of its parent. */
module TreeSplice {
  import opened StreamQueue
  import opened Forest
  import opened QueueState
  import opened SiblingLinks
  import opened StreamLinks
  import opened FairQueue
  import opened ObqLoops
  import opened PriorityTree

  /** The parent of a stream with something queued below is queued or the root. */
  lemma ParentQueued(t: Tree, home: Home, act: set<Stream>, s: Stream, k: Stream)
    requires WellFormed(t) && Balanced(t, home, act) && s in t.par && k in t.kids[s] && k in home && s in t.nodes
    ensures home[k] == s && s in home && home[s] == t.par[s] && (t.par[s] in home || t.par[s] !in t.par)
  {
    hide Ranked, WeightsInRange, Busy, ListedOnce;
    BusyAt(home, k);
    assert Settled(home, act, s);
    BusyAt(home, s);
    assert t.par[s] in t.par ==> Settled(home, act, t.par[s]);
  }

  /** One round of the loop on the queues. */
  lemma UpStep(t: Tree, home: Home, act: set<Stream>, s: Stream, i: nat)
    requires WellFormed(t) && Balanced(t, home, act) && s in t.par && s in t.nodes && i < |t.kids[s]|
    requires t.par[s] in t.nodes
    ensures var ks, p := t.kids[s], t.par[s];
            var h, k := Moved(home, ks[..i], p), ks[i];
            && (k in h ==> h[k] == s)
            && Moved(home, ks[..i + 1], p) == if k in h then PushUp(t, h - {k}, p, k) else h
  {
    hide Ranked, WeightsInRange, ListedUp, ListedDown, Balanced;
    var ks, p := t.kids[s], t.par[s];
    var h, k := Moved(home, ks[..i], p), ks[i];
    assert Distinct(ks);
    assert ks[..i + 1] == ks[..i] + [k] && k !in ks[..i];
    if k in home {
      ParentQueued(t, home, act, s, k);
      var g := (h - {k})[k := p];
      assert g == Moved(home, ks[..i + 1], p);
      NearRoot(t, p);
      assert PushUp(t, h - {k}, p, k) == PushUp(t, g, ParentOf(t, p), p) == g;
    } else {
      assert Moved(home, ks[..i + 1], p) == h;
    }
  }

  /** The weights while the first `i` dependents of `s` have got their share. */
  ghost predicate Sharing(t: Tree, s: Stream, i: nat)
    requires WellFormed(t) && s in t.nodes && i <= |t.kids[s]|
    reads t.nodes`weight
  {
    && (forall x :: x in t.nodes && x !in t.kids[s][..i] ==> x.weight == t.wt[x])
    && (forall x :: x in t.nodes && x in t.kids[s][..i] ==> x.weight == Redistributed(t, s)[x])
  }

  lemma SharingPositive(t: Tree, s: Stream, i: nat)
    requires WellFormed(t) && s in t.nodes && i <= |t.kids[s]| && Sharing(t, s, i)
    ensures Weighty(t.nodes)
  {
    hide Ranked, Listed, SumOf;
  }

  lemma ShareOk(t: Tree, s: Stream, x: Stream)
    requires WellFormed(t) && s in t.nodes && x in t.kids[s] && x in t.nodes
    ensures (forall k :: k in t.kids[s] ==> k in t.wt) && SumOf(t.wt, t.kids[s]) > 0
    ensures 1 <= DistributedWeight(t.wt[s], SumOf(t.wt, t.kids[s]), t.wt[x]) <= 256
  {
    hide Ranked, ListedUp, ListedDown, ListedOnce, SumOf, DistributedWeight;
    KidsWeighed(t, s);
    SumBounds(t.wt, t.kids[s], x);
    ShareInRange(t.wt[s], SumOf(t.wt, t.kids[s]), t.wt[x]);
  }

  /** The share of one dependent. */
  method ShareOne(ghost t: Tree, s: Stream, x: Stream, ghost i: nat)
    requires WellFormed(t) && s in t.nodes && i < |t.kids[s]| && x == t.kids[s][i] && x in t.nodes && s !in t.kids[s]
    requires Sharing(t, s, i) && s.sumDepWeight == SumOf(t.wt, t.kids[s])
    modifies x`weight
    ensures Sharing(t, s, i + 1) && x.weight == Redistributed(t, s)[x]
    ensures old(Timely(t.nodes)) ==> Timely(t.nodes)
  {
    hide Ranked, ListedUp, ListedDown, SumOf, DistributedWeight, Timely;
    ghost var ks := t.kids[s];
    assert Distinct(ks);
    assert ks[..i + 1] == ks[..i] + [x] && x !in ks[..i];
    assert s !in ks[..i];
    ShareOk(t, s, x);
    Reweigh(t.nodes, x, DistributedWeight(s.weight, s.sumDepWeight, x.weight));
  }

  lemma KidsRedistributed(t: Tree, s: Stream)
    requires WellFormed(t) && s in t.nodes
    ensures Redistributed(t, s).Keys == t.nodes
    ensures forall x :: x in t.kids[s] ==> x in Redistributed(t, s)
  {
    hide Ranked, WeightsInRange;
  }

  /** The loop of `nghttp2_stream_dep_remove`. */
  method ShareOut(ghost t: Tree, ghost home: Home, ghost act: set<Stream>, dep: Stream, s: Stream)
    returns (ghost h: Home, delta: int)
    requires TreeValid(t) && Balanced(t, home, act) && Queues(t.nodes, home)
    requires s in t.par && dep == t.par[s] && s in t.nodes && dep in t.nodes
    modifies t.nodes`weight, t.nodes`obq, t.nodes`index, t.nodes`queued, t.nodes`cycle, t.nodes`pendingPenalty,
             t.nodes`seqNo, t.nodes`descendantNextSeq
    ensures Queues(t.nodes, h) && h == Moved(home, t.kids[s], dep)
    ensures Sharing(t, s, |t.kids[s]|)
    ensures (forall x :: x in t.kids[s] ==> x in Redistributed(t, s)) && delta == SumOf(Redistributed(t, s), t.kids[s]) - t.wt[s]
    ensures old(Timely(t.nodes)) ==> Timely(t.nodes)
  {
    hide Ranked, ListedUp, ListedDown, ListedOnce, WeightsInRange, Linked, Weighted, Queues, Balanced, Climbable,
      Weighty, Redistributed, Moved, PushUp, SumOf, LinkedKids, Sharing, Timely;
    ghost var ks := t.kids[s];
    KidsRedistributed(t, s);
    StartShare(t, home, s, dep);
    Climb(t, dep);
    assert ks[..0] == [];
    delta := -s.weight;
    var si := s.depNext;
    ghost var k := 0;
    h := home;
    while si != null
      invariant 0 <= k <= |ks| && si == At(ks, k)
      invariant Queues(t.nodes, h) && h == Moved(home, ks[..k], dep)
      invariant Sharing(t, s, k) && Climbable(t, dep)
      invariant (forall x :: x in ks[..k] ==> x in Redistributed(t, s))
      invariant delta == SumOf(Redistributed(t, s), ks[..k]) - t.wt[s]
      invariant old(Timely(t.nodes)) ==> Timely(t.nodes)
      decreases |ks| - k
    {
      UpStep(t, home, act, s, k);
      SumSnoc(Redistributed(t, s), ks, k);
      h := ShareStep(t, h, dep, s, si, k);
      delta := delta + si.weight;
      si := si.sibNext;
      k := k + 1;
    }
    assert ks[..k] == ks;
  }

  /** The body of the loop; the sum of the deltas is taken after the move, which leaves weights alone. */
  method ShareStep(ghost t: Tree, ghost home: Home, dep: Stream, s: Stream, x: Stream, ghost i: nat)
    returns (ghost h: Home)
    requires WellFormed(t) && s in t.nodes && i < |t.kids[s]| && x == t.kids[s][i] && x in t.nodes && s !in t.kids[s]
    requires Sharing(t, s, i) && s.sumDepWeight == SumOf(t.wt, t.kids[s])
    requires dep in t.nodes && (x in home ==> home[x] == s) && Queues(t.nodes, home) && Climbable(t, dep)
    modifies x`weight, t.nodes`obq, t.nodes`index, t.nodes`queued, t.nodes`cycle, t.nodes`pendingPenalty,
             t.nodes`seqNo, t.nodes`descendantNextSeq
    ensures Sharing(t, s, i + 1) && x.weight == Redistributed(t, s)[x] && Queues(t.nodes, h)
    ensures h == if x in home then PushUp(t, home - {x}, dep, x) else home
    ensures old(Timely(t.nodes)) ==> Timely(t.nodes)
  {
    hide Ranked, Listed, WeightsInRange, Queues, Climbable, Weighty, Redistributed, PushUp, SumOf, Sharing, Timely;
    ShareOne(t, s, x, i);
    SharingPositive(t, s, i + 1);
    h := ObqMove(t, home, dep, s, x);
  }

  lemma SumSnoc(wt: map<Stream, int>, ks: seq<Stream>, k: nat)
    requires k < |ks| && forall x :: x in ks ==> x in wt
    ensures (forall x :: x in ks[..k + 1] ==> x in wt) && SumOf(wt, ks[..k + 1]) == SumOf(wt, ks[..k]) + wt[ks[k]]
  {
    assert ks[..k + 1][..k] == ks[..k];
  }

  lemma StartShare(t: Tree, home: Home, s: Stream, dep: Stream)
    requires TreeValid(t) && s in t.nodes
    ensures Moved(home, [], dep) == home && Sharing(t, s, 0) && s in t.wt && s.weight == t.wt[s]
    ensures s.sumDepWeight == SumOf(t.wt, t.kids[s]) && s.depNext == At(t.kids[s], 0) && s !in t.kids[s]
    ensures forall i :: 0 <= i < |t.kids[s]| ==> t.kids[s][i].sibNext == At(t.kids[s], i + 1) && t.kids[s][i] in t.nodes
    ensures SumOf(Redistributed(t, s), []) == 0
  {
    hide Linked, Redistributed;
    forall x | x in t.nodes ensures x.weight == t.wt[x] { WeightIs(t, x); }
    assert Weighs(t, s);
    ListHere(t, s);
  }

  lemma ListHere(t: Tree, s: Stream)
    requires WellFormed(t) && Linked(t) && s in t.nodes
    ensures s.depNext == At(t.kids[s], 0) && s !in t.kids[s]
    ensures forall i :: 0 <= i < |t.kids[s]| ==> t.kids[s][i].sibNext == At(t.kids[s], i + 1) && t.kids[s][i] in t.nodes
  {
    hide WeightsInRange, ListedOnce, ListedUp;
    assert LinkedKids(s, t.kids[s]);
  }
}
