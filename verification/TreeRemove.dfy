/** Taking a stream out with everything below it: `nghttp2_stream_dep_remove_subtree`. */
module TreeRemove {
  import opened StreamQueue
  import opened Forest
  import opened QueueState
  import opened SiblingLinks
  import opened StreamLinks
  import opened FairQueue
  import opened ObqLoops
  import opened PriorityTree
  import opened TreeAdd

  lemma SumWithout(wt: map<Stream, int>, a: seq<Stream>, i: nat)
    requires i < |a| && forall x :: x in a ==> x in wt
    ensures SumOf(wt, a[..i] + a[i + 1..]) == SumOf(wt, a) - wt[a[i]]
  {
    hide SumOf;
    var b, c := a[..i], a[i + 1..];
    assert a == (b + [a[i]]) + c;
    assert forall x :: x in b || x in c ==> x in a;
    SumAppend(wt, b + [a[i]], c);
    SumAppend(wt, b, [a[i]]);
    SumAppend(wt, b, c);
    SumOne(wt, a[i]);
  }

  /** What is used of a stream with a parent. */
  lemma Placed(t: Tree, s: Stream)
    requires WellFormed(t) && Linked(t) && s in t.par
    ensures s in t.nodes && t.par[s] in t.nodes && t.par[s] != s && s.depPrev == t.par[s]
    ensures s in t.kids[t.par[s]] && LinkedKids(t.par[s], t.kids[t.par[s]]) && Distinct(t.kids[t.par[s]])
    ensures LinkedKids(s, t.kids[s])
    ensures forall p, i :: p in t.nodes && 0 <= i < |t.kids[p]| ==> t.kids[p][i] in t.nodes
    ensures forall p, i :: p in t.nodes && p != t.par[s] && 0 <= i < |t.kids[p]| ==> t.kids[p][i] !in t.kids[t.par[s]]
    ensures forall x :: x in t.nodes && x !in t.par ==> x !in t.kids[t.par[s]]
  {
    hide WeightsInRange;
    ParentIs(t, s);
    KidsApart(t, t.par[s]);
    NotOwnParent(t, s);
  }

  /** The links of everybody but the dependents of `dep`. */
  ghost predicate RestLinked(t: Tree, dep: Stream)
    requires Listed(t) && forall p, i :: p in t.nodes && 0 <= i < |t.kids[p]| ==> t.kids[p][i] in t.nodes
    reads t.nodes`depPrev, t.nodes`depNext, t.nodes`sibPrev, t.nodes`sibNext
  {
    && (forall p :: p in t.nodes && p != dep ==> LinkedKids(p, t.kids[p]))
    && (forall x :: x in t.nodes && x !in t.par ==> Loose(x))
  }

  ghost function Rest(ks: seq<Stream>, s: Stream): (r: seq<Stream>)
    requires s in ks
    ensures forall j :: 0 <= j < |r| ==> r[j] in ks
  {
    var i := IndexOf(ks, s);
    ks[..i] + ks[i + 1..]
  }

  /** `s` is out of the list of its parent but still knows it. */
  ghost predicate Cut(t: Tree, s: Stream)
    requires WellFormed(t) && s in t.par && s in t.kids[t.par[s]]
    reads t.nodes`depPrev, t.nodes`depNext, t.nodes`sibPrev, t.nodes`sibNext
  {
    && (forall p, i :: p in t.nodes && 0 <= i < |t.kids[p]| ==> t.kids[p][i] in t.nodes)
    && s.depPrev == t.par[s] && RestLinked(t, t.par[s])
    && LinkedKids(t.par[s], Rest(t.kids[t.par[s]], s))
  }

  /** The unlinking part: only the list of the parent changes. */
  method CutLinks(ghost t: Tree, s: Stream)
    requires WellFormed(t) && Linked(t) && s in t.par
    modifies t.nodes`depPrev, t.nodes`depNext, t.nodes`sibPrev, t.nodes`sibNext
    ensures s in t.kids[t.par[s]] && Cut(t, s)
  {
    hide Ranked, WeightsInRange, ListedUp, ListedDown, ListedOnce, LinkedKids, IndexOf, Distinct;
    Placed(t, s);
    ghost var p := t.par[s];
    CutOut(s.depPrev, s, t.kids[p], IndexOf(t.kids[p], s));
    forall q | q in t.nodes && q != p ensures LinkedKids(q, t.kids[q]) {
      assert forall i :: 0 <= i < |t.kids[q]| ==> t.kids[q][i] !in t.kids[p];
    }
  }

  /** Which leaves all parent pointers as they were. */
  lemma CutParents(t: Tree, s: Stream)
    requires WellFormed(t) && s in t.par && s in t.kids[t.par[s]] && Cut(t, s)
    ensures Climbable(t, s)
  {
    hide IndexOf, WeightsInRange, LinkedKids, Loose, RestLinked, Cut;
    forall x | x in t.nodes ensures x.depPrev == ParentOf(t, x) {
      CutParent(t, s, x);
    }
  }

  lemma CutParent(t: Tree, s: Stream, x: Stream)
    requires WellFormed(t) && s in t.par && s in t.kids[t.par[s]] && x in t.nodes && Cut(t, s)
    ensures x.depPrev == ParentOf(t, x)
  {
    hide IndexOf, WeightsInRange, Ranked, ListedDown, ListedOnce, LinkedKids;
    if x in t.par && x != s {
      var p := t.par[x];
      if p == t.par[s] {
        RestMember(p, t.kids[p], s, x);
      } else {
        ListMember(p, t.kids[p], x);
      }
    }
  }

  lemma RestMember(dep: Stream, ks: seq<Stream>, s: Stream, x: Stream)
    requires s in ks && x in ks && x != s
    requires LinkedKids(dep, Rest(ks, s))
    ensures x.depPrev == dep
  {
    hide IndexOf;
    var i, j := IndexOf(ks, s), IndexOf(ks, x);
    var rest := ks[..i] + ks[i + 1..];
    assert rest[if j < i then j else j - 1] == x;
  }

  lemma ListMember(dep: Stream, ks: seq<Stream>, x: Stream)
    requires x in ks && LinkedKids(dep, ks)
    ensures x.depPrev == dep
  {}

  /** The weight part. */
  method CutWeight(ghost t: Tree, dep: Stream, s: Stream)
    requires WellFormed(t) && Weighted(t) && s in t.par && WellFormed(Prune(t, s))
    requires s in t.nodes && dep in t.nodes && dep == t.par[s] && s in t.kids[dep]
    modifies dep`sumDepWeight
    ensures Weighted(Prune(t, s))
  {
    hide Ranked, ListedUp, ListedDown, ListedOnce, Linked, SumOf, IndexOf;
    ghost var u := Prune(t, s);
    KidsWeighed(t, dep);
    SumWithout(t.wt, t.kids[dep], IndexOf(t.kids[dep], s));
    assert Weighs(t, s) && Weighs(t, dep);
    dep.sumDepWeight := dep.sumDepWeight - s.weight;
    assert Weighs(u, dep);
    forall x | x in u.nodes && x != dep ensures Weighs(u, x) {
      assert Weighs(t, x);
    }
  }

  lemma PruneShape(t: Tree, s: Stream)
    requires WellFormed(t) && s in t.par
    ensures WellFormed(Prune(t, s)) && Prune(t, s).nodes == t.nodes && s in t.nodes && t.par[s] in t.nodes
    ensures s !in Prune(t, s).par
  {
    hide IndexOf, WeightsInRange;
    assert s in t.nodes && t.par[s] in t.nodes;
    OperationsKeepShape(t, s, s);
  }

  /** The lists of the new tree do not mention `s`. */
  lemma CutLists(t: Tree, s: Stream)
    requires WellFormed(t) && s in t.par && s in t.kids[t.par[s]] && WellFormed(Prune(t, s)) && Cut(t, s)
    ensures var u := Prune(t, s);
            && (forall p, i :: p in u.nodes && 0 <= i < |u.kids[p]| ==> u.kids[p][i] != s && u.kids[p][i] in u.nodes)
            && (forall p :: p in u.nodes ==> LinkedKids(p, u.kids[p]))
            && (forall x :: x in u.nodes && x !in u.par && x != s ==> Loose(x))
  {
    hide IndexOf, WeightsInRange, Ranked, LinkedKids, Loose;
    var u := Prune(t, s);
    assert LinkedKids(t.par[s], u.kids[t.par[s]]);
  }

  /** The last three assignments. */
  method Loosen(ghost t: Tree, s: Stream)
    requires WellFormed(t) && s in t.par && s in t.kids[t.par[s]] && WellFormed(Prune(t, s)) && Cut(t, s)
    modifies s`sibPrev, s`sibNext, s`depPrev
    ensures Linked(Prune(t, s))
  {
    hide IndexOf, WeightsInRange, Ranked, LinkedKids, Prune, Cut, ListedUp, ListedDown, ListedOnce;
    ghost var u := Prune(t, s);
    CutLists(t, s);
    s.sibPrev, s.sibNext, s.depPrev := null, null, null;
    forall p | p in u.nodes ensures LinkedKids(p, u.kids[p]) {
      assert forall i :: 0 <= i < |u.kids[p]| ==> u.kids[p][i] != s;
    }
  }

  lemma AboveSettled(t: Tree, home: Home, act: set<Stream>, s: Stream)
    requires Ranked(t) && s in t.nodes && Balanced(t, home, act)
    ensures AtParents(t, home) && SettledAbove(t, home, act, s)
  {}

  /** `ObqRemove` as the removals need it. */
  method LeaveUp(ghost t: Tree, ghost home: Home, ghost act: set<Stream>, s: Stream) returns (ghost h: Home)
    requires Ranked(t) && s in t.nodes && AtParents(t, home) && SettledAbove(t, home, act, s)
    requires Queues(t.nodes, home) && Acts(t.nodes, act) && Climbable(t, s)
    modifies t.nodes`obq, t.nodes`index, t.nodes`queued, t.nodes`cycle, t.nodes`pendingPenalty,
             t.nodes`descendantLastCycle, t.nodes`lastWritelen
    ensures h == RemoveUp(home, act, s) && Queues(t.nodes, h) && Acts(t.nodes, act)
    ensures old(Timely(t.nodes)) ==> (Timely(t.nodes) <==> s !in home || old(NearZero(s)))
  {
    hide Ranked, AtParents, SettledAbove, Queues, Acts, Climbable, RemoveUp, Timely, NearZero, Closed, Levels,
      Removed, Faded, Times;
    h := ObqRemove(t, home, act, s);
  }

  /** `nghttp2_stream_dep_remove_subtree`: the queues stay in order exactly if the cycles in the queue of `s` are near
      the base it starts anew from. */
  method DepRemoveSubtree(ghost t: Tree, ghost home: Home, ghost act: set<Stream>, s: Stream)
    returns (ghost u: Tree, ghost h: Home)
    requires TreeValid(t) && QueuesValid(t, home, act) && s in t.par
    modifies t.nodes`depPrev, t.nodes`depNext, t.nodes`sibPrev, t.nodes`sibNext, t.nodes`sumDepWeight,
             t.nodes`obq, t.nodes`index, t.nodes`queued, t.nodes`cycle, t.nodes`pendingPenalty,
             t.nodes`descendantLastCycle, t.nodes`lastWritelen
    ensures u == Prune(t, s) && TreeValid(u) && QueuesValid(u, h, act)
    ensures h == RemoveUp(home, act, s)
    ensures old(Timely(t.nodes)) ==> (Timely(t.nodes) <==> s !in home || old(NearZero(s)))
  {
    hide Ranked, Listed, Linked, Weighted, Queues, Acts, Balanced, RemoveUp, Prune, Cut, Timely, NearZero;
    u := Prune(t, s);
    PruneShape(t, s);
    h := CutAndLeave(t, home, act, s);
    Loosen(t, s);
    PruneBalances(t, home, act, s);
  }

  /** All but the last assignments. */
  method CutAndLeave(ghost t: Tree, ghost home: Home, ghost act: set<Stream>, s: Stream) returns (ghost h: Home)
    requires TreeValid(t) && QueuesValid(t, home, act) && s in t.par && WellFormed(Prune(t, s)) && Prune(t, s).nodes == t.nodes
    requires s in t.nodes
    modifies t.nodes`depPrev, t.nodes`depNext, t.nodes`sibPrev, t.nodes`sibNext, t.nodes`sumDepWeight,
             t.nodes`obq, t.nodes`index, t.nodes`queued, t.nodes`cycle, t.nodes`pendingPenalty,
             t.nodes`descendantLastCycle, t.nodes`lastWritelen
    ensures s in t.kids[t.par[s]] && Cut(t, s) && Weighted(Prune(t, s))
    ensures h == RemoveUp(home, act, s) && Queues(t.nodes, h) && Acts(t.nodes, act)
    ensures old(Timely(t.nodes)) ==> (Timely(t.nodes) <==> s !in home || old(NearZero(s)))
  {
    hide Ranked, Listed, Linked, Weighted, Queues, Acts, Balanced, RemoveUp, Prune, Climbable, Cut, Timely, NearZero,
      AtParents, SettledAbove;
    CutFromTree(t, s);
    AboveSettled(t, home, act, s);
    h := LeaveUp(t, home, act, s);
  }

  /** Links and weights, up to the last assignments. */
  method CutFromTree(ghost t: Tree, s: Stream)
    requires TreeValid(t) && s in t.par && WellFormed(Prune(t, s))
    modifies t.nodes`depPrev, t.nodes`depNext, t.nodes`sibPrev, t.nodes`sibNext, t.nodes`sumDepWeight
    ensures s in t.nodes && s in t.kids[t.par[s]] && Cut(t, s) && Climbable(t, s) && Weighted(Prune(t, s))
  {
    hide Ranked, ListedUp, ListedDown, ListedOnce, WeightsInRange, Linked, Weighted, Prune, Climbable, Cut,
      LinkedKids;
    Placed(t, s);
    var dep := s.depPrev;
    CutLinks(t, s);
    CutWeight(t, dep, s);
    CutParents(t, s);
  }
}
