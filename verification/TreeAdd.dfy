/** Adding streams below others: `nghttp2_stream_dep_add` and `nghttp2_stream_dep_add_subtree`. */
module TreeAdd {
  import opened StreamQueue
  import opened Forest
  import opened QueueState
  import opened SiblingLinks
  import opened StreamLinks
  import opened FairQueue
  import opened ObqLoops
  import opened PriorityTree

  /** Nothing of one list of dependents is in another, and no root is in any. */
  lemma KidsApart(t: Tree, dep: Stream)
    requires Listed(t) && dep in t.nodes
    ensures Distinct(t.kids[dep]) && forall x :: x in t.kids[dep] ==> x in t.nodes
    ensures forall p, x :: p in t.nodes && p != dep && x in t.kids[p] ==> x !in t.kids[dep]
    ensures forall p, x :: p in t.nodes && x in t.kids[p] ==> x in t.par && t.par[x] == p
  {}

  /** The links after `s` was put first below `dep`. */
  method AddLinks(ghost t: Tree, dep: Stream, s: Stream)
    requires WellFormed(t) && Linked(t) && dep in t.nodes && s in t.nodes && s !in t.par && s != dep
    modifies t.nodes`depPrev, t.nodes`depNext, t.nodes`sibPrev, t.nodes`sibNext
    ensures Linked(Graft(t, dep, s))
  {
    hide LinkedKids, Ranked, Lift, WeightsInRange, ListedUp, ListedDown, ListedOnce, Distinct;
    ghost var u := Graft(t, dep, s);
    GraftListed(t, dep, s);
    KidsApart(t, dep);
    LinkFirst(dep, s, t.kids[dep]);
    assert LinkedKids(dep, u.kids[dep]);
    forall p | p in t.nodes && p != dep ensures LinkedKids(p, u.kids[p]) {
      assert forall i :: 0 <= i < |t.kids[p]| ==> t.kids[p][i] != s && t.kids[p][i] !in t.kids[dep];
      assert LinkedKids(p, t.kids[p]);
    }
  }

  method AddWeight(ghost t: Tree, dep: Stream, s: Stream)
    requires TreeValid(t) && Graftable(t, dep, s) && WellFormed(Graft(t, dep, s))
    modifies dep`sumDepWeight
    ensures Weighted(Graft(t, dep, s))
  {
    hide Ranked, Lift, ListedUp, ListedDown, ListedOnce, Linked, SumOf;
    ghost var u := Graft(t, dep, s);
    KidsWeighed(u, dep);
    SumAppend(t.wt, [s], t.kids[dep]);
    SumOne(t.wt, s);
    assert Weighs(t, s) && Weighs(t, dep);
    dep.sumDepWeight := dep.sumDepWeight + s.weight;
    assert Weighs(u, dep);
    forall x | x in u.nodes && x != dep ensures Weighs(u, x) {
      assert Weighs(t, x);
    }
  }

  lemma SumOne(wt: map<Stream, int>, s: Stream)
    requires s in wt
    ensures SumOf(wt, [s]) == wt[s] && SumOf(wt, []) == 0
  {
    assert SumOf(wt, []) == 0;
  }

  /** The tree part of `nghttp2_stream_dep_add` and `nghttp2_stream_dep_add_subtree`. */
  method AddToTree(ghost t: Tree, dep: Stream, s: Stream)
    requires TreeValid(t) && Graftable(t, dep, s)
    modifies t.nodes`depPrev, t.nodes`depNext, t.nodes`sibPrev, t.nodes`sibNext, dep`sumDepWeight
    ensures TreeValid(Graft(t, dep, s))
  {
    hide Ranked, Lift, Listed, Linked, Weighted, Ancestor, Graft;
    GraftableShape(t, dep, s);
    AddWeight(t, dep, s);
    AddLinks(t, dep, s);
    SameNodes(t, dep, s);
  }

  lemma SameNodes(t: Tree, dep: Stream, s: Stream)
    requires WellFormed(t) && dep in t.nodes && s in t.nodes
    ensures Graft(t, dep, s).nodes == t.nodes && GraftExclusive(t, dep, s).nodes == t.nodes
  {}

  /** `nghttp2_stream_dep_add`: the tree is right for every stream, the queues exactly if the stream has nothing
      to send in it or below it. */
  method DepAdd(ghost t: Tree, ghost home: Home, ghost act: set<Stream>, dep: Stream, s: Stream)
    requires TreeValid(t) && QueuesValid(t, home, act) && Graftable(t, dep, s)
    modifies t.nodes`depPrev, t.nodes`depNext, t.nodes`sibPrev, t.nodes`sibNext, dep`sumDepWeight
    ensures TreeValid(Graft(t, dep, s)) && Queues(t.nodes, home) && Acts(t.nodes, act)
    ensures QueuesValid(Graft(t, dep, s), home, act) <==> !Ready(home, act, s)
    ensures old(Timely(t.nodes)) ==> Timely(t.nodes)
  {
    hide Ranked, Listed, Linked, Weighted, Ancestor, Graft, Queues, Acts, Balanced, Ready, Timely;
    AddToTree(t, dep, s);
    SameNodes(t, dep, s);
    GraftIdle(t, home, act, dep, s);
  }

  /** `nghttp2_stream_dep_add_subtree`. */
  method DepAddSubtree(ghost t: Tree, ghost home: Home, ghost act: set<Stream>, dep: Stream, s: Stream)
    returns (ghost u: Tree, ghost h: Home)
    requires TreeValid(t) && QueuesValid(t, home, act) && Graftable(t, dep, s)
    modifies t.nodes`depPrev, t.nodes`depNext, t.nodes`sibPrev, t.nodes`sibNext, dep`sumDepWeight,
             t.nodes`obq, t.nodes`index, t.nodes`queued, t.nodes`cycle, t.nodes`pendingPenalty, t.nodes`seqNo,
             t.nodes`descendantNextSeq
    ensures u == Graft(t, dep, s) && TreeValid(u) && QueuesValid(u, h, act)
    ensures h == if Ready(home, act, s) then PushUp(u, home, dep, s) else home
    ensures old(Timely(t.nodes)) ==> Timely(t.nodes)
  {
    hide Ranked, Listed, Linked, Weighted, Ancestor, Graft, Queues, Acts, Balanced, Climbable, Weighty, Ready,
      PushUp, Timely;
    u := Graft(t, dep, s);
    GraftableShape(t, dep, s);
    AddToTree(t, dep, s);
    SameNodes(t, dep, s);
    Climb(u, dep);
    h := PushIfActive(u, home, act, dep, s);
    GraftSettles(t, home, act, dep, s);
  }

  lemma GraftSettles(t: Tree, home: Home, act: set<Stream>, dep: Stream, s: Stream)
    requires WellFormed(t) && Graftable(t, dep, s) && Ranked(Graft(t, dep, s)) && Balanced(t, home, act)
    ensures var u := Graft(t, dep, s);
            Balanced(u, if Ready(home, act, s) then PushUp(u, home, dep, s) else home, act)
  {
    hide Ranked, Listed, WeightsInRange, Ancestor, Graft, Balanced, PushUp;
    GraftableShape(t, dep, s);
    if Ready(home, act, s) {
      GraftBalances(t, home, act, dep, s);
    } else {
      GraftIdle(t, home, act, dep, s);
    }
  }

  lemma OpenedLinked(t: Tree, s: Stream, w: int)
    requires Linked(t) && s !in t.nodes && s.depNext == null && Loose(s)
    ensures Linked(Opened(t, s, w))
  {
    hide ListedUp, ListedDown, ListedOnce, LinkedKids, Loose;
    OpenedListed(t, s, w);
    NoDependents(s);
  }

  lemma OpenedTree(t: Tree, s: Stream, w: int)
    requires TreeValid(t) && s !in t.nodes && 1 <= w <= 256
    requires s.weight == w && s.sumDepWeight == 0 && s.depNext == null && Loose(s)
    ensures TreeValid(Opened(t, s, w))
  {
    hide Ranked, ListedUp, ListedDown, ListedOnce, LinkedKids, Loose, SumOf, Linked;
    var u := Opened(t, s, w);
    OpenedShape(t, s, w);
    OpenedLinked(t, s, w);
    SumOne(u.wt, s);
    assert Weighs(u, s);
    forall x | x in t.nodes ensures Weighs(u, x) {
      assert Weighs(t, x);
      KidsWeighed(t, x);
      SumSame(t.wt, u.wt, t.kids[x]);
    }
  }

  lemma NoDependents(s: Stream)
    requires s.depNext == null
    ensures LinkedKids(s, [])
  {}

  lemma OpenedQueues(t: Tree, home: Home, act: set<Stream>, s: Stream, w: int)
    requires QueuesValid(t, home, act) && s !in t.nodes && act <= t.nodes && !s.queued && s.obq == [] && !s.hasItem
    ensures QueuesValid(Opened(t, s, w), home, act)
  {
    hide Busy;
    assert QueueAt(s, home);
  }

  /** `nghttp2_stream_init`: a stream on its own joins the forest. */
  method OpenStream(ghost t: Tree, ghost home: Home, ghost act: set<Stream>, weight: int)
    returns (s: Stream, ghost u: Tree)
    requires TreeValid(t) && QueuesValid(t, home, act) && act <= t.nodes && 1 <= weight <= 256
    ensures fresh(s) && u == Opened(t, s, weight) && TreeValid(u) && QueuesValid(u, home, act)
    ensures old(Timely(t.nodes)) ==> Timely(u.nodes)
  {
    hide Linked, Listed, Weighted, Balanced, Queues, Acts, Opened, Timely;
    s := new Stream(weight);
    u := Opened(t, s, weight);
    OpenedTree(t, s, weight);
    OpenedQueues(t, home, act, s, weight);
    OpenedTimely(t, s, weight);
  }

  lemma OpenedTimely(t: Tree, s: Stream, w: int)
    requires s !in t.nodes && s.obq == [] && Modest(s)
    ensures Timely(t.nodes) ==> Timely(Opened(t, s, w).nodes)
  {
    hide InOrder, Modest;
    assert InOrder(s) by { EmptyInOrder(s); }
  }
}
