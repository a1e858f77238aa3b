/** Exclusive insertion: `nghttp2_stream_dep_insert` and `nghttp2_stream_dep_insert_subtree`. */
module TreeInsert {
  import opened StreamQueue
  import opened Forest
  import opened QueueState
  import opened SiblingLinks
  import opened StreamLinks
  import opened FairQueue
  import opened ObqLoops
  import opened PriorityTree
  import opened TreeAdd

  ghost predicate SibLinked(kids: seq<Stream>)
    reads kids`sibPrev, kids`sibNext
  {
    forall i :: 0 <= i < |kids| ==> kids[i].sibPrev == At(kids, i - 1) && kids[i].sibNext == At(kids, i + 1)
  }

  lemma LinkedParts(p: Stream, kids: seq<Stream>)
    ensures LinkedKids(p, kids) <==> p.depNext == At(kids, 0) && SibLinked(kids) && Parented(kids, p)
  {}

  /** What the loop over the dependents of `dep` needs: `t` is the tree the climb sees. */
  ghost predicate Movable(t: Tree, home: Home, kids: seq<Stream>, dep: Stream, s: Stream)
  {
    && Ranked(t) && s in t.nodes && dep in t.nodes && s !in home && s != dep && Distinct(kids)
    && (forall i :: 0 <= i < |kids| ==> kids[i] in t.nodes && t.rank[s] < t.rank[kids[i]])
    && (forall i :: 0 <= i < |kids| && kids[i] in home ==> home[kids[i]] == dep)
    && (AnyIn(kids, home) && s in t.par ==> t.par[s] == dep && (dep in home || dep !in t.par))
  }

  lemma MoveStep(t: Tree, home: Home, kids: seq<Stream>, dep: Stream, s: Stream, i: nat)
    requires Movable(t, home, kids, dep, s) && i < |kids|
    ensures kids[i] in t.nodes && t.rank[s] < t.rank[kids[i]]
    ensures var h, k := Shift(t, home, kids[..i], s), kids[i];
            && (k in h ==> h[k] == dep)
            && Shift(t, home, kids[..i + 1], s) == if k in h then PushUp(t, h - {k}, s, k) else h
  {
    hide Ranked, Shift, PushUp;
    assert kids[..i + 1] == kids[..i] + [kids[i]];
    assert kids[i] !in kids[..i];
    forall x | x in kids[..i] && x in home ensures home[x] == dep {
      var j :| 0 <= j < i && kids[..i][j] == x;
      assert kids[j] == x;
    }
    if kids[i] in home { assert AnyIn(kids, home); }
    ShiftStep(t, home, kids[..i], kids[i], s);
  }

  /** The loop: every dependent of `dep` gets the parent `s`, those queued go to the queue of `s`. */
  method MoveDependents(ghost t: Tree, ghost home: Home, dep: Stream, s: Stream, first: Stream?, ghost kids: seq<Stream>)
    returns (ghost h: Home)
    requires Movable(t, home, kids, dep, s) && Queues(t.nodes, home) && Climbable(t, s) && Weighty(t.nodes)
    requires first == At(kids, 0) && forall i :: 0 <= i < |kids| ==> kids[i].sibNext == At(kids, i + 1)
    modifies kids`depPrev, t.nodes`obq, t.nodes`index, t.nodes`queued, t.nodes`cycle, t.nodes`pendingPenalty,
             t.nodes`seqNo, t.nodes`descendantNextSeq
    ensures h == Shift(t, home, kids, s) && Queues(t.nodes, h)
    ensures Parented(kids, s)
    ensures old(Timely(t.nodes)) ==> Timely(t.nodes)
  {
    hide Ranked, Shift, PushUp, Queues, Climbable, Weighty, Movable, Distinct, Timely;
    var si := first;
    ghost var k := 0;
    h := home;
    ShiftNone(t, home, s);
    MovableHere(t, home, kids, dep, s);
    while si != null
      invariant 0 <= k <= |kids| && si == At(kids, k)
      invariant h == Shift(t, home, kids[..k], s) && Queues(t.nodes, h) && Climbable(t, s)
      invariant forall i :: 0 <= i < k ==> kids[i].depPrev == s
      invariant old(Timely(t.nodes)) ==> Timely(t.nodes)
      decreases |kids| - k
    {
      MoveStep(t, home, kids, dep, s, k);
      h := MoveOne(t, h, dep, s, si);
      si := si.sibNext;
      k := k + 1;
    }
    assert kids[..k] == kids;
  }

  lemma ShiftNone(t: Tree, home: Home, s: Stream)
    ensures Shift(t, home, [], s) == home
  {
    assert !AnyIn([], home);
    assert Moved(home, [], s) == home;
  }

  lemma MovableHere(t: Tree, home: Home, kids: seq<Stream>, dep: Stream, s: Stream)
    requires Movable(t, home, kids, dep, s)
    ensures Ranked(t) && s in t.nodes && dep in t.nodes
  {}

  /** The body of the loop. */
  method MoveOne(ghost t: Tree, ghost home: Home, dep: Stream, s: Stream, x: Stream) returns (ghost h: Home)
    requires Ranked(t) && s in t.nodes && dep in t.nodes && x in t.nodes && t.rank[s] < t.rank[x]
    requires x in home ==> home[x] == dep
    requires Queues(t.nodes, home) && Climbable(t, s) && Weighty(t.nodes)
    modifies x`depPrev, t.nodes`obq, t.nodes`index, t.nodes`queued, t.nodes`cycle, t.nodes`pendingPenalty,
             t.nodes`seqNo, t.nodes`descendantNextSeq
    ensures x.depPrev == s && Queues(t.nodes, h) && Climbable(t, s)
    ensures h == if x in home then PushUp(t, home - {x}, s, x) else home
    ensures old(Timely(t.nodes)) ==> Timely(t.nodes)
  {
    hide Ranked, PushUp, Queues, Climbable, Weighty, Timely;
    Adopt(t, x, s);
    h := ObqMove(t, home, s, dep, x);
  }

  method Adopt(ghost t: Tree, x: Stream, s: Stream)
    requires Ranked(t) && s in t.nodes && x in t.nodes && t.rank[s] < t.rank[x] && Climbable(t, s)
    modifies x`depPrev
    ensures x.depPrev == s && Climbable(t, s)
  {
    x.depPrev := s;
  }

  // ---------------------------------------------------------------- the trees the climb sees

  /** The new tree before `s` got its parent. */
  ghost function Hanging(t: Tree, dep: Stream, s: Stream): Tree
    requires WellFormed(t) && dep in t.nodes && s in t.nodes
  {
    var u := GraftExclusive(t, dep, s);
    u.(par := u.par - {s})
  }

  /** Only `s` and the dependents of `dep` may have other parent pointers than before. */
  ghost predicate MostlyParented(t: Tree, dep: Stream, s: Stream)
    requires dep in t.kids
    reads t.nodes`depPrev
  {
    forall x :: x in t.nodes && x != s && x !in t.kids[dep] ==> x.depPrev == ParentOf(t, x)
  }

  lemma RankedLess(u: Tree, s: Stream)
    requires Ranked(u)
    ensures Ranked(u.(par := u.par - {s}))
  {}

  lemma RanksOfNew(t: Tree, dep: Stream, s: Stream)
    requires WellFormed(t) && Graftable(t, dep, s)
    ensures var u := GraftExclusive(t, dep, s);
            && Ranked(u) && Ranked(Hanging(t, dep, s)) && u.rank[dep] < u.rank[s]
            && forall i :: 0 <= i < |t.kids[dep]| ==> u.rank[s] < u.rank[t.kids[dep][i]]
  {
    hide Lift, WeightsInRange, Ranked, ListedUp, ListedOnce, Ancestor, Root;
    GraftableShape(t, dep, s);
    LiftRanks(t, dep, s);
    RankedLess(GraftExclusive(t, dep, s), s);
  }

  /** Away from `s` and the dependents of `dep` the parents are as before. */
  lemma ParentsOfNew(t: Tree, dep: Stream, s: Stream, x: Stream)
    requires WellFormed(t) && dep in t.nodes && s in t.nodes && s !in t.par && x in t.nodes && x != s && x !in t.kids[dep]
    ensures ParentOf(GraftExclusive(t, dep, s), x) == ParentOf(t, x) == ParentOf(Hanging(t, dep, s), x)
  {
    hide Lift, WeightsInRange, ListedDown, ListedOnce, Ranked;
  }

  lemma ClimbNew(t: Tree, dep: Stream, s: Stream)
    requires WellFormed(t) && Graftable(t, dep, s) && MostlyParented(t, dep, s)
    ensures var u, v := GraftExclusive(t, dep, s), Hanging(t, dep, s);
            && Ranked(u) && Ranked(v) && u.nodes == v.nodes == t.nodes && u.rank == v.rank && Climbable(u, dep)
            && (s.depPrev == null ==> Climbable(v, s))
            && (s.depPrev == dep ==> Climbable(u, s))
  {
    hide Lift, WeightsInRange, ListedUp, ListedDown, ListedOnce, Ancestor, Ranked, ParentOf;
    RanksOfNew(t, dep, s);
    ParentOfNew(t, dep, s);
    KidsApart(t, dep);
    forall x | x in t.nodes && x != s && x !in t.kids[dep]
      ensures ParentOf(GraftExclusive(t, dep, s), x) == ParentOf(t, x) == ParentOf(Hanging(t, dep, s), x) {
      ParentsOfNew(t, dep, s, x);
    }
    SameNodes(t, dep, s);
    ClimbFrom(GraftExclusive(t, dep, s), dep, s, t.kids[dep]);
    ClimbFrom(Hanging(t, dep, s), dep, s, t.kids[dep]);
  }

  lemma ParentOfNew(t: Tree, dep: Stream, s: Stream)
    requires WellFormed(t) && dep in t.nodes && s in t.nodes
    ensures ParentOf(GraftExclusive(t, dep, s), s) == dep && ParentOf(Hanging(t, dep, s), s) == null
  {
    hide Lift, WeightsInRange, ListedUp, ListedDown, ListedOnce, Ranked;
  }

  lemma ClimbFrom(u: Tree, dep: Stream, s: Stream, kids: seq<Stream>)
    requires Ranked(u) && dep in u.nodes && s in u.nodes && u.rank[dep] < u.rank[s]
    requires forall i :: 0 <= i < |kids| ==> kids[i] in u.nodes && u.rank[s] < u.rank[kids[i]]
    requires forall x :: x in u.nodes && x != s && x !in kids ==> x.depPrev == ParentOf(u, x)
    ensures Climbable(u, dep)
    ensures s.depPrev == ParentOf(u, s) ==> Climbable(u, s)
  {}

  lemma MovableNew(t: Tree, home: Home, act: set<Stream>, dep: Stream, s: Stream)
    requires WellFormed(t) && Graftable(t, dep, s) && Balanced(t, home, act)
    ensures Movable(GraftExclusive(t, dep, s), home, t.kids[dep], dep, s)
    ensures Movable(Hanging(t, dep, s), home, t.kids[dep], dep, s)
    ensures AnyIn(t.kids[dep], home) ==> dep in home || dep !in t.par
  {
    hide Ancestor, Ranked, Listed, WeightsInRange, GraftExclusive, Hanging, Distinct, AnyIn, Balanced, Movable;
    RanksOfNew(t, dep, s);
    GraftableShape(t, dep, s);
    KidsHome(t, home, act, dep, s);
    ParentsAre(t, dep, s);
    BusyDep(t, home, act, dep);
    MovableIn(GraftExclusive(t, dep, s), home, t.kids[dep], dep, s);
    MovableIn(Hanging(t, dep, s), home, t.kids[dep], dep, s);
  }

  lemma KidsHome(t: Tree, home: Home, act: set<Stream>, dep: Stream, s: Stream)
    requires WellFormed(t) && Balanced(t, home, act) && dep in t.nodes && s !in t.par
    ensures dep in t.kids && s !in home && Distinct(t.kids[dep])
    ensures forall i :: 0 <= i < |t.kids[dep]| ==> t.kids[dep][i] in t.nodes
    ensures forall i :: 0 <= i < |t.kids[dep]| && t.kids[dep][i] in home ==> home[t.kids[dep][i]] == dep
  {
    hide Ranked, WeightsInRange, SettledBut;
  }

  lemma ParentsAre(t: Tree, dep: Stream, s: Stream)
    requires WellFormed(t) && dep in t.nodes && s in t.nodes && s != dep
    ensures var u, v := GraftExclusive(t, dep, s), Hanging(t, dep, s);
            && u.nodes == t.nodes == v.nodes && u.rank == v.rank && s in u.par && u.par[s] == dep && s !in v.par
            && (dep in u.par <==> dep in t.par) && (dep in v.par <==> dep in t.par)
  {
    hide Lift, WeightsInRange, Listed, Ranked;
  }

  lemma MovableIn(u: Tree, home: Home, kids: seq<Stream>, dep: Stream, s: Stream)
    requires Ranked(u) && s in u.nodes && dep in u.nodes && s !in home && s != dep && Distinct(kids)
    requires forall i :: 0 <= i < |kids| ==> kids[i] in u.nodes && u.rank[s] < u.rank[kids[i]]
    requires forall i :: 0 <= i < |kids| && kids[i] in home ==> home[kids[i]] == dep
    requires s in u.par ==> u.par[s] == dep
    requires AnyIn(kids, home) ==> dep in home || dep !in u.par
    ensures Movable(u, home, kids, dep, s)
  {}

  lemma BusyDep(t: Tree, home: Home, act: set<Stream>, dep: Stream)
    requires WellFormed(t) && Balanced(t, home, act) && dep in t.nodes
    ensures AnyIn(t.kids[dep], home) ==> dep in home || dep !in t.par
  {
    hide WeightsInRange, Ranked, Busy;
    if AnyIn(t.kids[dep], home) {
      var i :| 0 <= i < |t.kids[dep]| && t.kids[dep][i] in home;
      BusyAt(home, t.kids[dep][i]);
    }
  }

  // ---------------------------------------------------------------- weights

  /** The first two assignments of both operations. */
  method ExclusiveWeights(ghost t: Tree, dep: Stream, s: Stream, sum: int)
    requires TreeValid(t) && Graftable(t, dep, s) && WellFormed(GraftExclusive(t, dep, s)) && s != dep
    modifies dep`sumDepWeight, s`sumDepWeight
    ensures Weighted(GraftExclusive(t, dep, s)) <==> sum == old(s.sumDepWeight + dep.sumDepWeight)
  {
    hide Ranked, Lift, ListedUp, ListedDown, ListedOnce, Linked, SumOf, Ancestor;
    ghost var u := GraftExclusive(t, dep, s);
    KidsWeighed(t, dep);
    KidsWeighed(t, s);
    SumAppend(t.wt, t.kids[s], t.kids[dep]);
    SumOne(t.wt, s);
    assert Weighs(t, s) && Weighs(t, dep);
    s.sumDepWeight := sum;
    dep.sumDepWeight := s.weight;
    assert Weighs(u, dep) && (Weighs(u, s) <==> sum == old(s.sumDepWeight + dep.sumDepWeight));
    forall x | x in u.nodes && x != dep && x != s ensures Weighs(u, x) {
      assert Weighs(t, x);
    }
  }

  // ---------------------------------------------------------------- links

  /** The links away from the two lists that change. */
  ghost predicate OthersLinked(t: Tree, dep: Stream, s: Stream)
    requires Listed(t) && forall p, i :: p in t.nodes && 0 <= i < |t.kids[p]| ==> t.kids[p][i] in t.nodes
    reads t.nodes`depPrev, t.nodes`depNext, t.nodes`sibPrev, t.nodes`sibNext
  {
    && (forall p :: p in t.nodes && p != dep && p != s ==> LinkedKids(p, t.kids[p]))
    && (forall x :: x in t.nodes && x !in t.par && x != s ==> Loose(x))
  }

  /** The links of the new tree, given those of the two lists that changed. */
  lemma LinkedNew(t: Tree, dep: Stream, s: Stream)
    requires WellFormed(t) && Graftable(t, dep, s) && WellFormed(GraftExclusive(t, dep, s)) && s != dep
    requires forall p, i :: p in t.nodes && 0 <= i < |t.kids[p]| ==> t.kids[p][i] in t.nodes
    requires OthersLinked(t, dep, s)
    requires LinkedKids(dep, [s]) && LinkedKids(s, t.kids[s] + t.kids[dep])
    ensures Linked(GraftExclusive(t, dep, s))
  {
    hide Ranked, LinkedKids, Loose, Ancestor, Listed, WeightsInRange, GraftExclusive;
    NewLists(t, dep, s);
    ListedNodes(GraftExclusive(t, dep, s));
  }

  /** The lists and parents of the new tree. */
  lemma NewLists(t: Tree, dep: Stream, s: Stream)
    requires WellFormed(t) && dep in t.nodes && s in t.nodes && s != dep
    ensures var u := GraftExclusive(t, dep, s);
            && u.nodes == t.nodes && u.kids == t.kids[dep := [s]][s := t.kids[s] + t.kids[dep]]
            && u.par.Keys == t.par.Keys + {s}
  {
    hide Ranked, ListedUp, ListedDown, ListedOnce, WeightsInRange, Lift;
  }

  /** `link_dep` and `link_sib` as `nghttp2_stream_dep_insert_subtree` uses them when both have dependents
      or only `dep` has. */
  method JoinTail(dep: Stream, s: Stream, ghost sub: seq<Stream>, ghost kids: seq<Stream>)
    requires LinkedKids(dep, kids) && LinkedKids(s, sub) && Loose(s) && kids != [] && s != dep
    requires Distinct(sub) && Distinct(kids) && Disjoint(sub, kids) && s !in sub && s !in kids
    modifies dep`depNext, s`depPrev, s`depNext, sub`sibNext, kids`sibPrev, kids`depPrev
    ensures dep.depNext == s && s.depPrev == dep && s.depNext == At(sub + kids, 0)
    ensures SibLinked(sub + kids) && Parented(sub, s)
  {
    hide LinkedKids, SibLinked, Parented, Distinct, Disjoint;
    var next := dep.depNext;
    TwoChains(dep, s, sub, kids);
    LinkDep(dep, s);
    if s.depNext != null {
      ChainEnd(sub);
      var last := LastSib(sub, 0, s.depNext);
      LinkChains(last, next, sub, kids);
    } else {
      assert sub + kids == kids;
      LinkDep(s, next);
    }
  }

  lemma TwoChains(dep: Stream, s: Stream, sub: seq<Stream>, kids: seq<Stream>)
    requires LinkedKids(dep, kids) && LinkedKids(s, sub) && kids != []
    ensures SibLinked(sub) && SibLinked(kids) && Parented(sub, s)
    ensures dep.depNext == kids[0] && s.depNext == At(sub, 0)
  {}

  lemma ChainEnd(sub: seq<Stream>)
    requires SibLinked(sub)
    ensures forall j :: 0 <= j < |sub| ==> sub[j].sibNext == At(sub, j + 1)
  {}

  /** Two lists become one. */
  method LinkChains(last: Stream, next: Stream, ghost sub: seq<Stream>, ghost kids: seq<Stream>)
    requires SibLinked(sub) && SibLinked(kids) && sub != [] && kids != [] && last == sub[|sub| - 1] && next == kids[0]
    requires Distinct(sub) && Distinct(kids) && Disjoint(sub, kids)
    modifies last`sibNext, next`sibPrev
    ensures SibLinked(sub + kids)
  {
    LinkSib(last, next);
    ghost var all := sub + kids;
    forall i | 0 <= i < |all| ensures all[i].sibPrev == At(all, i - 1) && all[i].sibNext == At(all, i + 1) {
      assert i < |sub| ==> all[i] == sub[i];
      assert i >= |sub| ==> all[i] == kids[i - |sub|];
    }
  }

  // ---------------------------------------------------------------- nghttp2_stream_dep_insert

  /** The loop and the push of `nghttp2_stream_dep_insert`. */
  method InsertQueues(ghost t: Tree, ghost home: Home, ghost act: set<Stream>, dep: Stream, s: Stream)
    returns (ghost h: Home)
    requires WellFormed(t) && Linked(t) && QueuesValid(t, home, act) && Graftable(t, dep, s) && Weighty(t.nodes)
    requires dep.depNext != null
    modifies t.kids[dep]`depPrev, t.nodes`obq, t.nodes`index, t.nodes`queued, t.nodes`cycle, t.nodes`pendingPenalty,
             t.nodes`seqNo, t.nodes`descendantNextSeq
    ensures Ranked(GraftExclusive(t, dep, s)) && Queues(t.nodes, h) && Acts(t.nodes, act)
    ensures var e := Exclusive(t, home, dep, s);
            h == if Ready(e, act, s) then PushUp(GraftExclusive(t, dep, s), e, dep, s) else e
    ensures Parented(t.kids[dep], s)
    ensures old(Timely(t.nodes)) ==> Timely(t.nodes)
  {
    hide Ranked, Lift, Shift, PushUp, Balanced, Climbable, Weighty, Queues, Acts, ListedUp, ListedDown, ListedOnce,
      Ready, Ancestor, Hanging, GraftExclusive, Moved, Movable, LinkedKids, Loose, Timely;
    ghost var u, v := GraftExclusive(t, dep, s), Hanging(t, dep, s);
    BeforeInsert(t, dep, s);
    MovableNew(t, home, act, dep, s);
    ClimbNew(t, dep, s);
    h := MoveDependents(v, home, dep, s, dep.depNext, t.kids[dep]);
    ShiftRoot(t, home, dep, s);
    ClimbNew(t, dep, s);
    h := PushIfActive(u, h, act, dep, s);
  }

  lemma BeforeInsert(t: Tree, dep: Stream, s: Stream)
    requires WellFormed(t) && Linked(t) && Graftable(t, dep, s)
    ensures MostlyParented(t, dep, s) && s.depPrev == null && s != dep
    ensures dep.depNext == At(t.kids[dep], 0)
    ensures forall i :: 0 <= i < |t.kids[dep]| ==> t.kids[dep][i].sibNext == At(t.kids[dep], i + 1)
    ensures forall i :: 0 <= i < |t.kids[dep]| ==> t.kids[dep][i] in t.nodes
  {
    hide Ranked, ListedUp, ListedDown, ListedOnce;
    forall x | x in t.nodes ensures x.depPrev == ParentOf(t, x) { ParentIs(t, x); }
    assert LinkedKids(dep, t.kids[dep]);
  }

  lemma ShiftRoot(t: Tree, home: Home, dep: Stream, s: Stream)
    requires WellFormed(t) && dep in t.nodes && s in t.nodes
    ensures Shift(Hanging(t, dep, s), home, t.kids[dep], s) == Exclusive(t, home, dep, s)
    ensures Hanging(t, dep, s).nodes == t.nodes
  {}

  lemma OnlyOne(dep: Stream, s: Stream)
    requires dep.depNext == s && s.depPrev == dep && s.sibPrev == null && s.sibNext == null
    ensures LinkedKids(dep, [s])
  {}

  lemma RootNotListed(t: Tree, s: Stream)
    requires WellFormed(t) && s !in t.par
    ensures forall p, i :: p in t.nodes && 0 <= i < |t.kids[p]| ==> t.kids[p][i] != s
  {}

  /** The pointers `nghttp2_stream_dep_insert` sets last. */
  method SetInserted(ghost t: Tree, dep: Stream, s: Stream)
    requires WellFormed(t) && dep in t.nodes && s in t.nodes && s !in t.par && s != dep
    requires forall p, i :: p in t.nodes && 0 <= i < |t.kids[p]| ==> t.kids[p][i] in t.nodes
    requires OthersLinked(t, dep, s)
    modifies s`depNext, s`depPrev, dep`depNext
    ensures OthersLinked(t, dep, s) && dep.depNext == s && s.depPrev == dep
    ensures s.depNext == if old(dep.depNext) != null then old(dep.depNext) else old(s.depNext)
  {
    hide Ranked, WeightsInRange, ListedUp, ListedDown, ListedOnce, LinkedKids, SibLinked;
    assert forall p, i :: p in t.nodes && 0 <= i < |t.kids[p]| ==> t.kids[p][i] != s by { RootNotListed(t, s); }
    if dep.depNext != null {
      s.depNext := dep.depNext;
    }
    dep.depNext := s;
    s.depPrev := dep;
    forall p | p in t.nodes && p != dep && p != s ensures LinkedKids(p, t.kids[p]) {
      assert forall i :: 0 <= i < |t.kids[p]| ==> t.kids[p][i] != s;
    }
  }

  method InsertLinks(ghost t: Tree, dep: Stream, s: Stream)
    requires WellFormed(t) && Graftable(t, dep, s) && WellFormed(GraftExclusive(t, dep, s)) && s != dep
    requires forall p, i :: p in t.nodes && 0 <= i < |t.kids[p]| ==> t.kids[p][i] in t.nodes
    requires OthersLinked(t, dep, s) && Loose(s) && s.depNext == At(t.kids[s], 0)
    requires dep.depNext == At(t.kids[dep], 0) && SibLinked(t.kids[dep]) && Parented(t.kids[dep], s)
    modifies s`depNext, s`depPrev, dep`depNext
    ensures t.kids[s] == [] ==> Linked(GraftExclusive(t, dep, s))
  {
    hide Ranked, Lift, ListedUp, ListedDown, ListedOnce, Ancestor, LinkedKids, SibLinked, OthersLinked, Parented,
      GraftExclusive, Linked;
    RootNotListed(t, s);
    SetInserted(t, dep, s);
    if t.kids[s] == [] {
      assert t.kids[s] + t.kids[dep] == t.kids[dep];
      assert Parented(t.kids[dep], s);
      LinkedParts(s, t.kids[dep]);
      OnlyOne(dep, s);
      LinkedNew(t, dep, s);
    }
  }

  lemma LinkedStart(t: Tree, dep: Stream, s: Stream)
    requires WellFormed(t) && Linked(t) && Graftable(t, dep, s)
    ensures OthersLinked(t, dep, s) && Loose(s) && LinkedKids(dep, t.kids[dep]) && LinkedKids(s, t.kids[s])
    ensures SibLinked(t.kids[dep]) && dep.depNext == At(t.kids[dep], 0) && s.depNext == At(t.kids[s], 0)
    ensures forall p, i :: p in t.nodes && p != dep && 0 <= i < |t.kids[p]| ==> t.kids[p][i] !in t.kids[dep]
    ensures forall x :: x in t.nodes && x !in t.par ==> x !in t.kids[dep]
  {
    hide Ranked, WeightsInRange, Ancestor;
    KidsApart(t, dep);
    assert LinkedKids(dep, t.kids[dep]) && LinkedKids(s, t.kids[s]);
  }

  /** Where the streams are queued afterwards: past dependents of `dep` the stream is pushed if it should be. */
  ghost function InsertedHome(t: Tree, home: Home, act: set<Stream>, dep: Stream, s: Stream): Home
    requires WellFormed(t) && Graftable(t, dep, s)
  {
    GraftableShape(t, dep, s);
    RanksOfNew(t, dep, s);
    var u, e := GraftExclusive(t, dep, s), Exclusive(t, home, dep, s);
    if t.kids[dep] != [] && Ready(e, act, s) then PushUp(u, e, dep, s) else e
  }

  /** `nghttp2_stream_dep_insert`: the tree is right exactly for a stream without dependents, whose sum and list
      it overwrites; the queues then exactly if `s` has no item or `dep` has dependents, without which `s` is not
      pushed. */
  method DepInsert(ghost t: Tree, ghost home: Home, ghost act: set<Stream>, dep: Stream, s: Stream)
    returns (ghost u: Tree, ghost h: Home)
    requires TreeValid(t) && QueuesValid(t, home, act) && Graftable(t, dep, s)
    modifies t.nodes`depPrev, t.nodes`depNext, dep`sumDepWeight, s`sumDepWeight,
             t.nodes`obq, t.nodes`index, t.nodes`queued, t.nodes`cycle, t.nodes`pendingPenalty, t.nodes`seqNo,
             t.nodes`descendantNextSeq
    ensures u == GraftExclusive(t, dep, s) && (TreeValid(u) <==> t.kids[s] == [])
    ensures Queues(t.nodes, h) && Acts(t.nodes, act)
    ensures h == InsertedHome(t, home, act, dep, s)
    ensures t.kids[s] == [] ==> (QueuesValid(u, h, act) <==> t.kids[dep] != [] || s !in act)
    ensures old(Timely(t.nodes)) ==> Timely(t.nodes)
  {
    hide Ranked, Listed, Linked, Weighted, Ancestor, GraftExclusive, Queues, Acts, Balanced, InsertedHome,
      OthersLinked, LinkedKids, SibLinked, Parented, Timely;
    u := GraftExclusive(t, dep, s);
    h := home;
    GraftableShape(t, dep, s);
    SameNodes(t, dep, s);
    NoSum(t, s);
    Climb(t, dep);
    ExclusiveWeights(t, dep, s, dep.sumDepWeight);
    h := InsertRest(t, home, act, dep, s);
    InsertBalances(t, home, act, dep, s);
  }

  /** When the queues are right after an exclusive insertion that pushes only past dependents. */
  lemma InsertBalances(t: Tree, home: Home, act: set<Stream>, dep: Stream, s: Stream)
    requires WellFormed(t) && Balanced(t, home, act) && Graftable(t, dep, s)
    ensures t.kids[s] == [] ==>
              (Balanced(GraftExclusive(t, dep, s), InsertedHome(t, home, act, dep, s), act)
               <==> t.kids[dep] != [] || s !in act)
  {
    hide Ranked, ListedUp, ListedDown, ListedOnce, WeightsInRange, Ancestor, GraftExclusive, Balanced, PushUp, Ready;
    GraftableShape(t, dep, s);
    ExclusiveBalances(t, home, act, dep, s);
    Unpushed(t, home, act, dep, s);
    if t.kids[dep] == [] && t.kids[s] == [] { NothingMoves(t, home, act, dep, s); }
  }

  lemma Unpushed(t: Tree, home: Home, act: set<Stream>, dep: Stream, s: Stream)
    requires WellFormed(t) && Balanced(t, home, act) && Graftable(t, dep, s) && s != dep
    ensures Ready(Exclusive(t, home, dep, s), act, s) ==>
              !Balanced(GraftExclusive(t, dep, s), Exclusive(t, home, dep, s), act)
  {
    hide Ranked, ListedUp, ListedDown, ListedOnce, WeightsInRange, Ancestor, Busy, Lift;
    var u, e := GraftExclusive(t, dep, s), Exclusive(t, home, dep, s);
    assert s in u.par && s !in e;
    assert Balanced(u, e, act) ==> Settled(e, act, s);
  }

  lemma NoSum(t: Tree, s: Stream)
    requires TreeValid(t) && s in t.nodes
    ensures s.sumDepWeight == 0 <==> t.kids[s] == []
  {
    assert Weighs(t, s);
    KidsWeighed(t, s);
    SumBounds(t.wt, t.kids[s], s);
  }

  method InsertRest(ghost t: Tree, ghost home: Home, ghost act: set<Stream>, dep: Stream, s: Stream)
    returns (ghost h: Home)
    requires WellFormed(t) && Linked(t) && QueuesValid(t, home, act) && Graftable(t, dep, s) && Weighty(t.nodes)
    requires WellFormed(GraftExclusive(t, dep, s))
    modifies t.nodes`depPrev, t.nodes`depNext,
             t.nodes`obq, t.nodes`index, t.nodes`queued, t.nodes`cycle, t.nodes`pendingPenalty, t.nodes`seqNo,
             t.nodes`descendantNextSeq
    ensures t.kids[s] == [] ==> Linked(GraftExclusive(t, dep, s))
    ensures Queues(t.nodes, h) && Acts(t.nodes, act)
    ensures h == InsertedHome(t, home, act, dep, s)
    ensures old(Timely(t.nodes)) ==> Timely(t.nodes)
  {
    hide Ranked, ListedUp, ListedDown, ListedOnce, Ancestor, GraftExclusive, Queues, Acts, Balanced, InsertedHome,
      LinkedKids, SibLinked, Parented, OthersLinked, Linked, Timely;
    LinkedStart(t, dep, s);
    ListedNodes(t);
    GraftableShape(t, dep, s);
    h := InsertOrNot(t, home, act, dep, s);
    InsertLinks(t, dep, s);
  }

  /** The part under the test whether `dep` has dependents. */
  method InsertOrNot(ghost t: Tree, ghost home: Home, ghost act: set<Stream>, dep: Stream, s: Stream)
    returns (ghost h: Home)
    requires WellFormed(t) && Linked(t) && QueuesValid(t, home, act) && Graftable(t, dep, s) && Weighty(t.nodes)
    modifies t.kids[dep]`depPrev, t.nodes`obq, t.nodes`index, t.nodes`queued, t.nodes`cycle, t.nodes`pendingPenalty,
             t.nodes`seqNo, t.nodes`descendantNextSeq
    ensures Ranked(GraftExclusive(t, dep, s)) && Queues(t.nodes, h) && Acts(t.nodes, act)
    ensures h == InsertedHome(t, home, act, dep, s)
    ensures Parented(t.kids[dep], s) && OthersLinked(t, dep, s) && Loose(s)
    ensures old(Timely(t.nodes)) ==> Timely(t.nodes)
  {
    hide Ranked, ListedUp, ListedDown, ListedOnce, Ancestor, GraftExclusive, Queues, Acts, Balanced, Ready, PushUp,
      LinkedKids, Parented, OthersLinked, Linked, Exclusive, Timely;
    LinkedStart(t, dep, s);
    ListedNodes(t);
    GraftableShape(t, dep, s);
    h := home;
    if dep.depNext != null {
      h := InsertMove(t, home, act, dep, s);
    } else {
      NothingMoves(t, home, act, dep, s);
    }
  }

  lemma ListedNodes(t: Tree)
    requires WellFormed(t)
    ensures forall p, i :: p in t.nodes && 0 <= i < |t.kids[p]| ==> t.kids[p][i] in t.nodes
  {}

  /** `InsertQueues` leaves the links elsewhere alone. */
  method InsertMove(ghost t: Tree, ghost home: Home, ghost act: set<Stream>, dep: Stream, s: Stream)
    returns (ghost h: Home)
    requires WellFormed(t) && Linked(t) && QueuesValid(t, home, act) && Graftable(t, dep, s) && Weighty(t.nodes)
    requires dep.depNext != null
    modifies t.kids[dep]`depPrev, t.nodes`obq, t.nodes`index, t.nodes`queued, t.nodes`cycle, t.nodes`pendingPenalty,
             t.nodes`seqNo, t.nodes`descendantNextSeq
    ensures Ranked(GraftExclusive(t, dep, s)) && Queues(t.nodes, h) && Acts(t.nodes, act)
    ensures var e := Exclusive(t, home, dep, s);
            h == if Ready(e, act, s) then PushUp(GraftExclusive(t, dep, s), e, dep, s) else e
    ensures Parented(t.kids[dep], s) && OthersLinked(t, dep, s) && Loose(s)
    ensures old(Timely(t.nodes)) ==> Timely(t.nodes)
  {
    hide Ranked, ListedUp, ListedDown, ListedOnce, Ancestor, GraftExclusive, Queues, Acts, Balanced, Ready, PushUp,
      LinkedKids, Parented, Linked, Timely, SibLinked, WeightsInRange, Exclusive;
    LinkedStart(t, dep, s);
    ListedNodes(t);
    h := InsertQueues(t, home, act, dep, s);
    forall p | p in t.nodes && p != dep && p != s ensures LinkedKids(p, t.kids[p]) {
      assert forall i :: 0 <= i < |t.kids[p]| ==> t.kids[p][i] !in t.kids[dep];
    }
  }

  lemma NothingMoves(t: Tree, home: Home, act: set<Stream>, dep: Stream, s: Stream)
    requires WellFormed(t) && Balanced(t, home, act) && Graftable(t, dep, s) && t.kids[dep] == []
    ensures Exclusive(t, home, dep, s) == home && Parented(t.kids[dep], s)
    ensures t.kids[s] == [] ==> (Ready(home, act, s) <==> s in act)
  {
    hide Ranked, WeightsInRange, Ancestor;
    assert forall x :: x in home ==> x in t.kids[t.par[x]];
  }
}
