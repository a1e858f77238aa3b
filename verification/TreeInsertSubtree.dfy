/** `nghttp2_stream_dep_insert_subtree`. */
module TreeInsertSubtree {
  import opened StreamQueue
  import opened Forest
  import opened QueueState
  import opened SiblingLinks
  import opened StreamLinks
  import opened FairQueue
  import opened ObqLoops
  import opened PriorityTree
  import opened TreeAdd
  import opened TreeInsert

  lemma TailLinks(sub: seq<Stream>, kids: seq<Stream>)
    requires SibLinked(sub + kids)
    ensures forall i :: 0 <= i < |kids| ==> kids[i].sibNext == At(kids, i + 1)
  {
    forall i | 0 <= i < |kids| ensures kids[i].sibNext == At(kids, i + 1) {
      assert (sub + kids)[|sub| + i] == kids[i];
    }
  }

  lemma ParentedBoth(sub: seq<Stream>, kids: seq<Stream>, s: Stream)
    requires Parented(sub, s) && Parented(kids, s)
    ensures Parented(sub + kids, s)
  {}

  /** Having pushed `s` during the moves comes to the same as pushing it afterwards. */
  lemma ShiftThenPush(t: Tree, home: Home, act: set<Stream>, dep: Stream, s: Stream)
    requires WellFormed(t) && Graftable(t, dep, s) && Balanced(t, home, act)
    ensures var u := GraftExclusive(t, dep, s);
            var e, g := Exclusive(t, home, dep, s), Shift(u, home, t.kids[dep], s);
            Ranked(u) && (if Ready(g, act, s) then PushUp(u, g, dep, s) else g)
                         == (if Ready(e, act, s) then PushUp(u, e, dep, s) else e)
  {
    hide Ranked, Lift, WeightsInRange, ListedUp, ListedDown, ListedOnce, Ancestor, Balanced, Busy;
    RanksOfNew(t, dep, s);
    GraftableShape(t, dep, s);
    BusyDep(t, home, act, dep);
    var u := GraftExclusive(t, dep, s);
    var e := Exclusive(t, home, dep, s);
    if AnyIn(t.kids[dep], home) {
      var i :| 0 <= i < |t.kids[dep]| && t.kids[dep][i] in home;
      assert e[t.kids[dep][i]] == s;
      assert Busy(e, s) by { BusyAt(e, t.kids[dep][i]); }
      assert s !in e by { NotHome(t, home, act, s); }
      BusyAdd(e, s, dep, s);
      assert dep in u.par <==> dep in t.par;
    }
  }

  lemma NotHome(t: Tree, home: Home, act: set<Stream>, s: Stream)
    requires Balanced(t, home, act) && s !in t.par
    ensures s !in home
  {}

  lemma MostlyStart(t: Tree, dep: Stream, s: Stream)
    requires WellFormed(t) && Linked(t) && Graftable(t, dep, s)
    ensures MostlyParented(t, dep, s) && Distinct(t.kids[dep]) && Distinct(t.kids[s])
    ensures Disjoint(t.kids[s], t.kids[dep]) && s !in t.kids[s] && s !in t.kids[dep] && s != dep
  {
    hide Ranked, WeightsInRange;
    BeforeInsert(t, dep, s);
    KidsApart(t, dep);
    KidsApart(t, s);
  }

  /** The links, given that the lists were joined and the dependents of `dep` have their new parent. */
  lemma LinkedJoined(t: Tree, dep: Stream, s: Stream)
    requires WellFormed(t) && Graftable(t, dep, s) && WellFormed(GraftExclusive(t, dep, s)) && s != dep
    requires forall p, i :: p in t.nodes && 0 <= i < |t.kids[p]| ==> t.kids[p][i] in t.nodes
    requires OthersLinked(t, dep, s)
    requires dep.depNext == s && s.depPrev == dep && s.sibPrev == null && s.sibNext == null
    requires s.depNext == At(t.kids[s] + t.kids[dep], 0) && SibLinked(t.kids[s] + t.kids[dep])
    requires Parented(t.kids[s], s) && Parented(t.kids[dep], s)
    ensures Linked(GraftExclusive(t, dep, s))
  {
    hide Ranked, Lift, ListedUp, ListedDown, ListedOnce, OthersLinked, SibLinked, Parented, LinkedKids, Linked,
      GraftExclusive, Ancestor, At;
    OnlyOne(dep, s);
    ParentedBoth(t.kids[s], t.kids[dep], s);
    LinkedParts(s, t.kids[s] + t.kids[dep]);
    LinkedNew(t, dep, s);
  }

  /** The joining of the lists leaves the others alone. */
  method JoinKeeps(ghost t: Tree, dep: Stream, s: Stream)
    requires WellFormed(t) && Linked(t) && Graftable(t, dep, s) && dep.depNext != null
    modifies dep`depNext, s`depPrev, s`depNext, t.kids[s]`sibNext, t.kids[dep]`sibPrev, t.kids[dep]`depPrev
    ensures forall p, i :: p in t.nodes && 0 <= i < |t.kids[p]| ==> t.kids[p][i] in t.nodes
    ensures dep.depNext == s && s.depPrev == dep && s.sibPrev == null && s.sibNext == null
    ensures s.depNext == At(t.kids[s] + t.kids[dep], 0) && SibLinked(t.kids[s] + t.kids[dep])
    ensures Parented(t.kids[s], s) && OthersLinked(t, dep, s) && MostlyParented(t, dep, s)
  {
    hide Ranked, WeightsInRange, ListedUp, ListedDown, ListedOnce, LinkedKids, SibLinked, Parented, Linked, Ancestor,
      Distinct, Disjoint;
    LinkedStart(t, dep, s);
    ListedNodes(t);
    MostlyStart(t, dep, s);
    Separate(t, dep, s);
    JoinTail(dep, s, t.kids[s], t.kids[dep]);
    forall p | p in t.nodes && p != dep && p != s ensures LinkedKids(p, t.kids[p]) {
      assert forall i :: 0 <= i < |t.kids[p]| ==>
          t.kids[p][i] !in t.kids[dep] && t.kids[p][i] !in t.kids[s] && t.kids[p][i] != s;
    }
  }

  lemma Separate(t: Tree, dep: Stream, s: Stream)
    requires WellFormed(t) && dep in t.nodes && s in t.nodes && s !in t.par
    ensures forall p, i :: p in t.nodes && p != dep && p != s && 0 <= i < |t.kids[p]| ==>
              t.kids[p][i] !in t.kids[dep] && t.kids[p][i] !in t.kids[s] && t.kids[p][i] != s
    ensures forall x :: x in t.nodes && x !in t.par ==> x !in t.kids[dep] && x !in t.kids[s]
  {
    hide Ranked, WeightsInRange;
    KidsApart(t, dep);
    KidsApart(t, s);
  }

  /** Links and moves when `dep` has dependents. */
  method JoinAndMove(ghost t: Tree, ghost home: Home, ghost act: set<Stream>, dep: Stream, s: Stream)
    returns (ghost h: Home)
    requires WellFormed(t) && Linked(t) && Graftable(t, dep, s) && dep.depNext != null && QueuesValid(t, home, act)
    requires Weighty(t.nodes)
    modifies dep`depNext, s`depPrev, s`depNext, t.kids[s]`sibNext, t.kids[dep]`sibPrev, t.kids[dep]`depPrev,
             t.nodes`obq, t.nodes`index, t.nodes`queued, t.nodes`cycle, t.nodes`pendingPenalty, t.nodes`seqNo,
             t.nodes`descendantNextSeq
    ensures WellFormed(GraftExclusive(t, dep, s)) && Linked(GraftExclusive(t, dep, s))
    ensures Queues(t.nodes, h) && h == Shift(GraftExclusive(t, dep, s), home, t.kids[dep], s)
    ensures old(Timely(t.nodes)) ==> Timely(t.nodes)
  {
    hide Ranked, ListedUp, ListedDown, ListedOnce, LinkedKids, SibLinked, Parented, Linked, Ancestor, WeightsInRange,
      Distinct, Disjoint, GraftExclusive, Shift, Queues, Balanced, Acts, OthersLinked, MostlyParented, Movable,
      Climbable, Weighty, Timely;
    Childless(t, dep);
    GraftableShape(t, dep, s);
    var next := dep.depNext;
    JoinKeeps(t, dep, s);
    h := MoveJoined(t, home, act, dep, s, next);
    LinkedJoined(t, dep, s);
  }

  /** The loop, after the lists were joined. */
  method MoveJoined(ghost t: Tree, ghost home: Home, ghost act: set<Stream>, dep: Stream, s: Stream, next: Stream)
    returns (ghost h: Home)
    requires WellFormed(t) && Graftable(t, dep, s) && WellFormed(GraftExclusive(t, dep, s)) && s != dep
    requires forall p, i :: p in t.nodes && 0 <= i < |t.kids[p]| ==> t.kids[p][i] in t.nodes
    requires Balanced(t, home, act) && Queues(t.nodes, home) && Weighty(t.nodes)
    requires next == At(t.kids[dep], 0) && SibLinked(t.kids[s] + t.kids[dep]) && s.depPrev == dep
    requires OthersLinked(t, dep, s) && Parented(t.kids[s], s) && MostlyParented(t, dep, s)
    modifies t.kids[dep]`depPrev, t.nodes`obq, t.nodes`index, t.nodes`queued, t.nodes`cycle, t.nodes`pendingPenalty,
             t.nodes`seqNo, t.nodes`descendantNextSeq
    ensures h == Shift(GraftExclusive(t, dep, s), home, t.kids[dep], s) && Queues(t.nodes, h)
    ensures Parented(t.kids[dep], s) && OthersLinked(t, dep, s) && Parented(t.kids[s], s)
    ensures s.depPrev == old(s.depPrev)
    ensures old(Timely(t.nodes)) ==> Timely(t.nodes)
  {
    hide Ranked, ListedUp, ListedDown, ListedOnce, LinkedKids, SibLinked, Parented, Ancestor, WeightsInRange,
      GraftExclusive, Shift, Queues, Balanced, OthersLinked, MostlyParented, Movable, Climbable, Weighty, Timely;
    SameNodes(t, dep, s);
    MovableNew(t, home, act, dep, s);
    TailLinks(t.kids[s], t.kids[dep]);
    ClimbNew(t, dep, s);
    h := MoveKeeps(t, home, dep, s, next);
  }

  /** The loop leaves the links elsewhere alone. */
  method MoveKeeps(ghost t: Tree, ghost home: Home, dep: Stream, s: Stream, next: Stream) returns (ghost h: Home)
    requires WellFormed(t) && Graftable(t, dep, s) && WellFormed(GraftExclusive(t, dep, s)) && s != dep
    requires forall p, i :: p in t.nodes && 0 <= i < |t.kids[p]| ==> t.kids[p][i] in t.nodes
    requires Movable(GraftExclusive(t, dep, s), home, t.kids[dep], dep, s) && Queues(t.nodes, home)
    requires GraftExclusive(t, dep, s).nodes == t.nodes && Climbable(GraftExclusive(t, dep, s), s) && Weighty(t.nodes)
    requires next == At(t.kids[dep], 0)
    requires forall i :: 0 <= i < |t.kids[dep]| ==> t.kids[dep][i].sibNext == At(t.kids[dep], i + 1)
    requires OthersLinked(t, dep, s) && Parented(t.kids[s], s)
    modifies t.kids[dep]`depPrev, t.nodes`obq, t.nodes`index, t.nodes`queued, t.nodes`cycle, t.nodes`pendingPenalty,
             t.nodes`seqNo, t.nodes`descendantNextSeq
    ensures h == Shift(GraftExclusive(t, dep, s), home, t.kids[dep], s) && Queues(t.nodes, h)
    ensures Parented(t.kids[dep], s) && OthersLinked(t, dep, s) && Parented(t.kids[s], s)
    ensures s.depPrev == old(s.depPrev)
    ensures old(Timely(t.nodes)) ==> Timely(t.nodes)
  {
    hide Ranked, ListedUp, ListedDown, ListedOnce, LinkedKids, Ancestor, WeightsInRange, GraftExclusive, Shift,
      Queues, Movable, Climbable, Weighty, Timely;
    Separate(t, dep, s);
    OwnApart(t, dep, s);
    h := MoveDependents(GraftExclusive(t, dep, s), home, dep, s, next, t.kids[dep]);
    forall p | p in t.nodes && p != dep && p != s ensures LinkedKids(p, t.kids[p]) {
      assert forall i :: 0 <= i < |t.kids[p]| ==> t.kids[p][i] !in t.kids[dep];
    }
  }

  lemma OwnApart(t: Tree, dep: Stream, s: Stream)
    requires WellFormed(t) && dep in t.nodes && s in t.nodes && s != dep
    ensures forall i :: 0 <= i < |t.kids[s]| ==> t.kids[s][i] !in t.kids[dep]
  {
    hide Ranked, WeightsInRange;
    KidsApart(t, dep);
  }

  /** When `dep` has no dependents only `s` is linked. */
  method LinkAlone(ghost t: Tree, dep: Stream, s: Stream)
    requires WellFormed(t) && Linked(t) && Graftable(t, dep, s) && t.kids[dep] == []
    modifies dep`depNext, s`depPrev
    ensures dep.depNext == s && s.depPrev == dep && s.sibPrev == null && s.sibNext == null
    ensures s.depNext == At(t.kids[s], 0) && SibLinked(t.kids[s])
    ensures Parented(t.kids[s], s) && OthersLinked(t, dep, s)
  {
    hide Ranked, ListedUp, ListedDown, ListedOnce, LinkedKids, SibLinked, Linked, Ancestor, WeightsInRange, Parented,
      MostlyParented, Distinct, Disjoint;
    LinkedStart(t, dep, s);
    ListedNodes(t);
    Separate(t, dep, s);
    OwnParted(t, s);
    MostlyStart(t, dep, s);
    LinkedParts(s, t.kids[s]);
    LinkDep(dep, s);
    forall p | p in t.nodes && p != dep && p != s ensures LinkedKids(p, t.kids[p]) {
      assert forall i :: 0 <= i < |t.kids[p]| ==> t.kids[p][i] != s;
    }
  }

  lemma OwnParted(t: Tree, s: Stream)
    requires WellFormed(t) && s in t.nodes && s !in t.par
    ensures forall i :: 0 <= i < |t.kids[s]| ==> t.kids[s][i] != s
  {
    hide Ranked, WeightsInRange, ListedOnce, ListedUp;
  }

  lemma Childless(t: Tree, dep: Stream)
    requires WellFormed(t) && Linked(t) && dep in t.nodes
    ensures dep.depNext == At(t.kids[dep], 0)
  {
    hide Ranked, WeightsInRange, ListedUp, ListedDown, ListedOnce;
    assert LinkedKids(dep, t.kids[dep]);
  }

  method JoinEmpty(ghost t: Tree, ghost home: Home, dep: Stream, s: Stream)
    requires WellFormed(t) && Linked(t) && Graftable(t, dep, s) && dep.depNext == null
    modifies dep`depNext, s`depPrev
    ensures WellFormed(GraftExclusive(t, dep, s)) && Linked(GraftExclusive(t, dep, s))
    ensures home == Shift(GraftExclusive(t, dep, s), home, t.kids[dep], s)
  {
    hide Ranked, ListedUp, ListedDown, ListedOnce, SibLinked, Linked, Ancestor, WeightsInRange, OthersLinked,
      GraftExclusive, Shift;
    Childless(t, dep);
    ListedNodes(t);
    GraftableShape(t, dep, s);
    ShiftNone(GraftExclusive(t, dep, s), home, s);
    LinkAlone(t, dep, s);
    assert t.kids[s] + t.kids[dep] == t.kids[s];
    LinkedJoined(t, dep, s);
  }

  /** `nghttp2_stream_dep_insert_subtree`. */
  method DepInsertSubtree(ghost t: Tree, ghost home: Home, ghost act: set<Stream>, dep: Stream, s: Stream)
    returns (ghost u: Tree, ghost h: Home)
    requires TreeValid(t) && QueuesValid(t, home, act) && Graftable(t, dep, s)
    modifies t.nodes`depPrev, t.nodes`depNext, t.nodes`sibPrev, t.nodes`sibNext, dep`sumDepWeight, s`sumDepWeight,
             t.nodes`obq, t.nodes`index, t.nodes`queued, t.nodes`cycle, t.nodes`pendingPenalty, t.nodes`seqNo,
             t.nodes`descendantNextSeq
    ensures u == GraftExclusive(t, dep, s) && TreeValid(u) && QueuesValid(u, h, act)
    ensures var e := Exclusive(t, home, dep, s); h == if Ready(e, act, s) then PushUp(u, e, dep, s) else e
    ensures old(Timely(t.nodes)) ==> Timely(t.nodes)
  {
    hide Ranked, Listed, Linked, Weighted, Ancestor, GraftExclusive, Queues, Acts, Balanced, Ready, PushUp, Shift,
      Climbable, Weighty, Timely;
    u := GraftExclusive(t, dep, s);
    h := JoinTree(t, home, act, dep, s);
    SameNodes(t, dep, s);
    Climb(u, dep);
    h := PushIfActive(u, h, act, dep, s);
    SubtreeBalances(t, home, act, dep, s);
  }

  /** Weights, links and moves. */
  method JoinTree(ghost t: Tree, ghost home: Home, ghost act: set<Stream>, dep: Stream, s: Stream)
    returns (ghost h: Home)
    requires TreeValid(t) && QueuesValid(t, home, act) && Graftable(t, dep, s)
    modifies t.nodes`depPrev, t.nodes`depNext, t.nodes`sibPrev, t.nodes`sibNext, dep`sumDepWeight, s`sumDepWeight,
             t.nodes`obq, t.nodes`index, t.nodes`queued, t.nodes`cycle, t.nodes`pendingPenalty, t.nodes`seqNo,
             t.nodes`descendantNextSeq
    ensures TreeValid(GraftExclusive(t, dep, s)) && Acts(t.nodes, act) && dep in t.nodes && s in t.nodes
    ensures Queues(t.nodes, h) && h == Shift(GraftExclusive(t, dep, s), home, t.kids[dep], s)
    ensures old(Timely(t.nodes)) ==> Timely(t.nodes)
  {
    hide Ranked, Listed, Linked, Weighted, Ancestor, GraftExclusive, Queues, Acts, Balanced, Shift, Climbable,
      Weighty, Timely;
    GraftableShape(t, dep, s);
    SameNodes(t, dep, s);
    Climb(t, dep);
    ExclusiveWeights(t, dep, s, s.sumDepWeight + dep.sumDepWeight);
    h := Join(t, home, act, dep, s);
  }

  lemma SubtreeBalances(t: Tree, home: Home, act: set<Stream>, dep: Stream, s: Stream)
    requires WellFormed(t) && Graftable(t, dep, s) && Balanced(t, home, act)
    ensures var u := GraftExclusive(t, dep, s);
            var e, g := Exclusive(t, home, dep, s), Shift(u, home, t.kids[dep], s);
            && Ranked(u) && Balanced(u, if Ready(e, act, s) then PushUp(u, e, dep, s) else e, act)
            && (if Ready(g, act, s) then PushUp(u, g, dep, s) else g)
               == (if Ready(e, act, s) then PushUp(u, e, dep, s) else e)
  {
    hide Ranked, Listed, WeightsInRange, GraftExclusive, Balanced, Ready, PushUp, Shift, Ancestor;
    GraftableShape(t, dep, s);
    ShiftThenPush(t, home, act, dep, s);
    ExclusiveBalances(t, home, act, dep, s);
  }

  /** The part under the test whether `dep` has dependents. */
  method Join(ghost t: Tree, ghost home: Home, ghost act: set<Stream>, dep: Stream, s: Stream) returns (ghost h: Home)
    requires WellFormed(t) && Linked(t) && Graftable(t, dep, s) && QueuesValid(t, home, act) && Weighty(t.nodes)
    modifies t.nodes`depPrev, t.nodes`depNext, t.nodes`sibPrev, t.nodes`sibNext,
             t.nodes`obq, t.nodes`index, t.nodes`queued, t.nodes`cycle, t.nodes`pendingPenalty, t.nodes`seqNo,
             t.nodes`descendantNextSeq
    ensures WellFormed(GraftExclusive(t, dep, s)) && Linked(GraftExclusive(t, dep, s))
    ensures Queues(t.nodes, h) && h == Shift(GraftExclusive(t, dep, s), home, t.kids[dep], s)
    ensures old(Timely(t.nodes)) ==> Timely(t.nodes)
  {
    hide Ranked, Listed, WeightsInRange, Linked, Ancestor, GraftExclusive, Queues, Acts, Balanced, Shift, Weighty,
      Timely;
    ListedNodes(t);
    if dep.depNext != null {
      h := JoinAndMove(t, home, act, dep, s);
    } else {
      JoinEmpty(t, home, dep, s);
      h := home;
    }
  }
}
