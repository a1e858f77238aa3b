/** `nghttp2_stream_dep_remove`, the rest: the sums, the queue of the parent and the links. */
module TreeDetach {
  import opened StreamQueue
  import opened Forest
  import opened QueueState
  import opened SiblingLinks
  import opened StreamLinks
  import opened FairQueue
  import opened ObqLoops
  import opened PriorityTree
  import opened TreeAdd
  import opened TreeRemove
  import opened TreeSplice

  /** The list in which the dependents of `s` took its place. */
  ghost function Filled(ks: seq<Stream>, s: Stream, sub: seq<Stream>): (r: seq<Stream>)
    requires s in ks
    ensures forall j :: 0 <= j < |r| ==> r[j] in ks || r[j] in sub
  {
    var i := IndexOf(ks, s);
    ks[..i] + sub + ks[i + 1..]
  }

  lemma SumFilled(wt: map<Stream, int>, ks: seq<Stream>, s: Stream, sub: seq<Stream>)
    requires s in ks && forall x :: x in ks || x in sub ==> x in wt
    ensures forall x :: x in Filled(ks, s, sub) ==> x in wt
    ensures SumOf(wt, Filled(ks, s, sub)) == SumOf(wt, ks) - wt[s] + SumOf(wt, sub)
  {
    hide SumOf, IndexOf;
    var i := IndexOf(ks, s);
    var b, c := ks[..i], ks[i + 1..];
    assert forall x :: x in b || x in c ==> x in ks;
    SumWithout(wt, ks, i);
    SumAppend(wt, b, c);
    SumAppend(wt, b + sub, c);
    SumAppend(wt, b, sub);
  }

  /** Away from the dependents of `s` the weights are the old ones. */
  lemma SumsElsewhere(t: Tree, s: Stream, q: Stream)
    requires WellFormed(t) && s in t.nodes && q in t.nodes && q != s
    ensures forall x :: x in t.kids[q] ==> x in t.wt && x in Redistributed(t, s)
    ensures SumOf(Redistributed(t, s), t.kids[q]) == SumOf(t.wt, t.kids[q])
  {
    hide Ranked, SumOf;
    KidsApart(t, s);
    KidsWeighed(t, q);
    SumSame(Redistributed(t, s), t.wt, t.kids[q]);
  }

  lemma SpliceShape(t: Tree, s: Stream)
    requires WellFormed(t) && s in t.par
    ensures s in t.nodes && t.par[s] in t.nodes && s in t.kids[t.par[s]] && t.par[s] != s
    ensures var u := Splice(t, s);
            && WellFormed(u) && u.nodes == t.nodes && u.wt == Redistributed(t, s) && s !in u.par
            && u.kids == t.kids[t.par[s] := Filled(t.kids[t.par[s]], s, t.kids[s])][s := []]
  {
    hide IndexOf, WeightsInRange, Redistributed;
    assert s in t.nodes && t.par[s] in t.nodes;
    NotOwnParent(t, s);
    OperationsKeepShape(t, s, s);
  }

  /** The weights are shared out and the sum of the parent is adjusted. */
  ghost predicate SharedOut(t: Tree, s: Stream)
    requires WellFormed(t) && s in t.par && s in t.nodes && t.par[s] in t.nodes && t.par[s] != s
    reads t.nodes`weight, (t.nodes - {s})`sumDepWeight
  {
    KidsWeighed(t, t.par[s]);
    KidsRedistributed(t, s);
    && Sharing(t, s, |t.kids[s]|)
    && t.par[s].sumDepWeight == SumOf(t.wt, t.kids[t.par[s]]) - t.wt[s] + SumOf(Redistributed(t, s), t.kids[s])
    && forall x :: x in t.nodes && x != s && x != t.par[s] ==> WeighsOld(t, x)
  }

  /** Then all sums are right once that of `s` is zero. */
  lemma WeightedSplice(t: Tree, s: Stream)
    requires WellFormed(t) && s in t.par && s in t.nodes && t.par[s] in t.nodes && t.par[s] != s
    requires SharedOut(t, s) && s.sumDepWeight == 0
    ensures WellFormed(Splice(t, s)) && Weighted(Splice(t, s))
  {
    hide Ranked, ListedUp, ListedDown, ListedOnce, SumOf, Redistributed, Splice, Filled;
    SpliceShape(t, s);
    var u, p, vt := Splice(t, s), t.par[s], Redistributed(t, s);
    KidsWeighed(t, p);
    KidsRedistributed(t, s);
    SumsElsewhere(t, s, p);
    SumFilled(vt, t.kids[p], s, t.kids[s]);
    assert vt[s] == t.wt[s] by { OwnWeight(t, s); }
    SumNone(vt);
    forall x | x in t.nodes ensures Weighs(u, x) {
      assert x.weight == vt[x] by { OtherWeight(t, s, x); }
      if x != s && x != p {
        SumsElsewhere(t, s, x);
        assert WeighsOld(t, x);
      }
    }
  }

  lemma SumNone(wt: map<Stream, int>)
    ensures SumOf(wt, []) == 0
  {}

  /** The sum alone, as before the weights were shared out. */
  ghost predicate WeighsOld(t: Tree, x: Stream)
    requires Listed(t) && WeightsInRange(t) && x in t.nodes
    reads x`sumDepWeight
  {
    KidsWeighed(t, x);
    x.sumDepWeight == SumOf(t.wt, t.kids[x])
  }

  lemma OwnWeight(t: Tree, s: Stream)
    requires WellFormed(t) && s in t.nodes
    ensures s in Redistributed(t, s) && Redistributed(t, s)[s] == t.wt[s]
  {
    hide SumOf;
    KidsApart(t, s);
  }

  lemma OtherWeight(t: Tree, s: Stream, x: Stream)
    requires WellFormed(t) && s in t.nodes && x in t.nodes && Sharing(t, s, |t.kids[s]|)
    ensures x in Redistributed(t, s) && x.weight == Redistributed(t, s)[x]
  {
    hide Ranked, ListedUp, ListedDown, ListedOnce, SumOf;
    assert t.kids[s][..|t.kids[s]|] == t.kids[s];
  }

  // ---------------------------------------------------------------- queues

  /** The new tree while `s` still knows its parent. */
  ghost function Leaving(t: Tree, s: Stream): Tree
    requires WellFormed(t) && s in t.par
  {
    var u := Splice(t, s);
    u.(par := u.par[s := t.par[s]])
  }

  lemma ClimbLeaving(t: Tree, s: Stream)
    requires WellFormed(t) && s in t.par && forall x :: x in t.nodes ==> x.depPrev == ParentOf(t, x)
    ensures Ranked(Leaving(t, s)) && Leaving(t, s).nodes == t.nodes && s in t.nodes && Climbable(Leaving(t, s), s)
  {
    hide IndexOf, WeightsInRange, Redistributed, ListedUp, ListedOnce, ListedDown;
    SpliceRanked(t, s);
  }

  lemma LeavingSettled(t: Tree, home: Home, act: set<Stream>, s: Stream)
    requires WellFormed(t) && s in t.par && Balanced(t, home, act) && s !in act && Ranked(Leaving(t, s)) && s in t.nodes
    ensures var h := Moved(home, t.kids[s], t.par[s]);
            AtParents(Leaving(t, s), h) && SettledAbove(Leaving(t, s), h, act, s)
  {
    hide IndexOf, WeightsInRange, Redistributed, ListedUp, ListedOnce, ListedDown, Moved, Busy, Ranked;
    SpliceHome(t, home, s);
    SpliceSettles(t, home, act, s);
  }

  lemma NoneMoved(t: Tree, home: Home, act: set<Stream>, s: Stream)
    requires WellFormed(t) && s in t.par && Balanced(t, home, act) && s !in act
    ensures !Busy(Moved(home, t.kids[s], t.par[s]), s)
  {
    SpliceSettles(t, home, act, s);
  }

  lemma NothingQueued(nodes: set<Stream>, home: Home, s: Stream)
    requires Queues(nodes, home) && s in nodes && !Busy(home, s)
    ensures NearZero(s)
  {
    hide Busy;
    QueueIsIndexed(nodes, home, s);
  }

  lemma AllParents(t: Tree)
    requires Linked(t)
    ensures forall x :: x in t.nodes ==> x.depPrev == ParentOf(t, x)
  {
    hide Linked;
    forall x | x in t.nodes ensures x.depPrev == ParentOf(t, x) { ParentIs(t, x); }
  }

  /** Everything but the links: shares, the parent's sum, the queues. */
  method LeaveQueues(ghost t: Tree, ghost home: Home, ghost act: set<Stream>, dep: Stream, s: Stream)
    returns (ghost h: Home)
    requires TreeValid(t) && QueuesValid(t, home, act) && s in t.par && dep == t.par[s] && s !in act
    requires s in t.nodes && dep in t.nodes && s != dep
    modifies t.nodes`weight, dep`sumDepWeight, t.nodes`obq, t.nodes`index, t.nodes`queued, t.nodes`cycle,
             t.nodes`pendingPenalty, t.nodes`seqNo, t.nodes`descendantNextSeq, t.nodes`descendantLastCycle,
             t.nodes`lastWritelen
    ensures Queues(t.nodes, h) && Acts(t.nodes, act) && h == RemoveUp(Moved(home, t.kids[s], dep), act, s)
    ensures SharedOut(t, s) && (old(Timely(t.nodes)) ==> Timely(t.nodes))
  {
    hide Ranked, ListedUp, ListedDown, ListedOnce, WeightsInRange, WeighsOld, Linked, Weighted, Queues, Acts,
      Balanced, Climbable, Redistributed, Moved, RemoveUp, SumOf, Sharing, Leaving, SettledAbove, AtParents, Timely,
      NearZero;
    AllParents(t);
    OldSums(t);
    SumIs(t, dep);
    var delta;
    h, delta := ShareOut(t, home, act, dep, s);
    dep.sumDepWeight := dep.sumDepWeight + delta;
    ClimbLeaving(t, s);
    LeavingSettled(t, home, act, s);
    NoneMoved(t, home, act, s);
    NothingQueued(t.nodes, h, s);
    h := LeaveUp(Leaving(t, s), h, act, s);
  }

  // ---------------------------------------------------------------- links

  /** The links of everybody but `s` and the dependents of `dep`. */
  ghost predicate SpliceLinked(t: Tree, s: Stream)
    requires WellFormed(t) && s in t.par && s in t.kids[t.par[s]] && s in t.nodes
    reads t.nodes`depPrev, t.nodes`depNext, t.nodes`sibPrev, t.nodes`sibNext
  {
    && (forall p, i :: p in t.nodes && 0 <= i < |t.kids[p]| ==> t.kids[p][i] in t.nodes)
    && (forall p :: p in t.nodes && p != t.par[s] && p != s ==> LinkedKids(p, t.kids[p]))
    && (forall x :: x in t.nodes && x !in t.par ==> Loose(x))
    && (FilledIn(t, s); LinkedKids(t.par[s], Filled(t.kids[t.par[s]], s, t.kids[s])))
  }

  lemma FilledIn(t: Tree, s: Stream)
    requires WellFormed(t) && s in t.par && s in t.kids[t.par[s]] && s in t.nodes
    requires forall p, i :: p in t.nodes && 0 <= i < |t.kids[p]| ==> t.kids[p][i] in t.nodes
    ensures t.par[s] in t.nodes
    ensures forall j :: 0 <= j < |Filled(t.kids[t.par[s]], s, t.kids[s])| ==> Filled(t.kids[t.par[s]], s, t.kids[s])[j] in t.nodes
  {
    hide Ranked, WeightsInRange, ListedDown, ListedOnce, Filled;
  }

  lemma TwoLists(t: Tree, s: Stream)
    requires WellFormed(t) && Linked(t) && s in t.par
    ensures s in t.nodes && t.par[s] in t.nodes && s in t.kids[t.par[s]] && s.depPrev == t.par[s]
    ensures Distinct(t.kids[s]) && Disjoint(t.kids[t.par[s]], t.kids[s]) && s.depNext == At(t.kids[s], 0)
    ensures forall p, i :: p in t.nodes && p != t.par[s] && p != s && 0 <= i < |t.kids[p]| ==>
              t.kids[p][i] !in t.kids[t.par[s]] && t.kids[p][i] !in t.kids[s]
    ensures forall x :: x in t.nodes && x !in t.par ==> x !in t.kids[t.par[s]] && x !in t.kids[s]
  {
    hide WeightsInRange, LinkedKids;
    Placed(t, s);
    KidsApart(t, s);
    ListHere(t, s);
  }

  /** The dependents of `s` take its place in the list of `dep`. */
  method FillPlace(dep: Stream, s: Stream, ghost ks: seq<Stream>, ghost sub: seq<Stream>)
    requires s in ks && s.depPrev == dep && LinkedKids(dep, ks) && Distinct(ks)
    requires LinkedKids(s, sub) && s.depNext == At(sub, 0) && Distinct(sub) && Disjoint(ks, sub)
    modifies dep`depNext, ks`sibPrev, ks`sibNext, ks`depPrev, sub`sibPrev, sub`sibNext, sub`depPrev
    ensures LinkedKids(dep, Filled(ks, s, sub))
  {
    hide LinkedKids, IndexOf, Distinct, Disjoint;
    ghost var i := IndexOf(ks, s);
    if s.depNext != null {
      SpliceOut(s.depPrev, s, ks, i, sub);
    } else {
      assert ks[..i] + ks[i + 1..] == Filled(ks, s, sub);
      CutOut(s.depPrev, s, ks, i);
    }
  }

  /** `unlink_sib` or `unlink_dep`. */
  method Unlink(ghost t: Tree, s: Stream)
    requires WellFormed(t) && Linked(t) && s in t.par
    modifies t.nodes`depPrev, t.nodes`depNext, t.nodes`sibPrev, t.nodes`sibNext
    ensures s in t.nodes && s in t.kids[t.par[s]] && SpliceLinked(t, s)
  {
    hide Ranked, WeightsInRange, ListedUp, ListedDown, ListedOnce, LinkedKids, IndexOf, Distinct, Disjoint;
    Placed(t, s);
    TwoLists(t, s);
    ghost var p := t.par[s];
    FillPlace(s.depPrev, s, t.kids[p], t.kids[s]);
    forall q | q in t.nodes && q != p && q != s ensures LinkedKids(q, t.kids[q]) {
      assert forall i :: 0 <= i < |t.kids[q]| ==> t.kids[q][i] !in t.kids[p] && t.kids[q][i] !in t.kids[s];
    }
  }

  /** The lists of the new tree do not mention `s`. */
  lemma SpliceLists(t: Tree, s: Stream)
    requires WellFormed(t) && s in t.par && s in t.nodes && s in t.kids[t.par[s]] && SpliceLinked(t, s)
    requires WellFormed(Splice(t, s))
    ensures var u := Splice(t, s);
            && u.nodes == t.nodes && u.kids[s] == [] && s !in u.par
            && (forall p, i :: p in u.nodes && 0 <= i < |u.kids[p]| ==> u.kids[p][i] != s && u.kids[p][i] in u.nodes)
            && (forall p :: p in u.nodes && p != s ==> LinkedKids(p, u.kids[p]))
            && (forall x :: x in u.nodes && x !in u.par && x != s ==> Loose(x))
  {
    hide IndexOf, WeightsInRange, Ranked, LinkedKids, Loose, Redistributed, Filled, Splice;
    SpliceShape(t, s);
    SpliceRoots(t, s);
  }

  lemma SpliceRoots(t: Tree, s: Stream)
    requires WellFormed(t) && s in t.par
    ensures forall x :: x in t.par && x != s ==> x in Splice(t, s).par
  {
    hide IndexOf, WeightsInRange, Ranked, Redistributed;
  }

  /** The last four assignments. */
  method ClearLinks(ghost t: Tree, s: Stream)
    requires WellFormed(t) && s in t.par && s in t.nodes && s in t.kids[t.par[s]] && SpliceLinked(t, s)
    requires WellFormed(Splice(t, s))
    modifies s`depPrev, s`depNext, s`sibPrev, s`sibNext
    ensures Linked(Splice(t, s))
  {
    hide WeightsInRange, Ranked, LinkedKids, Splice, SpliceLinked, ListedUp, ListedDown, ListedOnce;
    ghost var u := Splice(t, s);
    SpliceLists(t, s);
    s.depPrev, s.depNext, s.sibPrev, s.sibNext := null, null, null, null;
    assert LinkedKids(s, []) by { NoDependents(s); }
    forall p | p in u.nodes && p != s ensures LinkedKids(p, u.kids[p]) {
      assert forall i :: 0 <= i < |u.kids[p]| ==> u.kids[p][i] != s;
    }
  }

  /** `nghttp2_stream_dep_remove`, for a stream without an item. */
  method DepRemove(ghost t: Tree, ghost home: Home, ghost act: set<Stream>, s: Stream)
    returns (ghost u: Tree, ghost h: Home)
    requires TreeValid(t) && QueuesValid(t, home, act) && s in t.par && s !in act
    modifies t.nodes`depPrev, t.nodes`depNext, t.nodes`sibPrev, t.nodes`sibNext, t.nodes`weight, t.nodes`sumDepWeight,
             t.nodes`obq, t.nodes`index, t.nodes`queued, t.nodes`cycle, t.nodes`pendingPenalty, t.nodes`seqNo,
             t.nodes`descendantNextSeq, t.nodes`descendantLastCycle, t.nodes`lastWritelen
    ensures u == Splice(t, s) && TreeValid(u) && QueuesValid(u, h, act)
    ensures h == RemoveUp(Moved(home, t.kids[s], t.par[s]), act, s)
    ensures Shares(t.kids[s], old(Weights(t.kids[s])), old(s.weight), old(s.sumDepWeight))
    ensures old(Timely(t.nodes)) ==> Timely(t.nodes)
  {
    hide Ranked, ListedUp, ListedDown, ListedOnce, WeightsInRange, Linked, Weighted, Queues, Acts, Balanced,
      RemoveUp, Moved, Splice, SpliceLinked, SharedOut, Timely, Shares, Weights, Redistributed;
    u := Splice(t, s);
    SpliceShape(t, s);
    ghost var ws, weight, sum := Weights(t.kids[s]), s.weight, s.sumDepWeight;
    SharesWill(t, s);
    ParentIs(t, s);
    var dep := s.depPrev;
    h := LeaveQueues(t, home, act, dep, s);
    LeaveTree(t, s);
    SharesAre(t, u, s, ws, weight, sum);
    SpliceBalances(t, home, act, s);
  }

  ghost function Weights(ks: seq<Stream>): (ws: seq<int>)
    reads ks`weight
    ensures |ws| == |ks| && forall i :: 0 <= i < |ks| ==> ws[i] == ks[i].weight
  {
    if ks == [] then [] else Weights(ks[..|ks| - 1]) + [ks[|ks| - 1].weight]
  }

  /** Every stream of the list, having had the weight in `ws`, has its share of `weight`. */
  ghost predicate Shares(ks: seq<Stream>, ws: seq<int>, weight: int, sum: int)
    requires |ws| == |ks|
    reads ks`weight
  {
    forall i :: 0 <= i < |ks| ==> Proportional(ks[i].weight, weight, sum, ws[i])
  }

  /** The shares on values, given the weights before. */
  ghost predicate Due(wt: map<Stream, int>, ks: seq<Stream>, ws: seq<int>, weight: int, sum: int)
    requires |ws| == |ks|
  {
    forall i :: 0 <= i < |ks| ==> ks[i] in wt && Proportional(wt[ks[i]], weight, sum, ws[i])
  }

  lemma SharesWill(t: Tree, s: Stream)
    requires TreeValid(t) && s in t.nodes
    ensures Due(Redistributed(t, s), t.kids[s], Weights(t.kids[s]), s.weight, s.sumDepWeight)
    ensures forall i :: 0 <= i < |t.kids[s]| ==> t.kids[s][i] in t.nodes
  {
    hide Ranked, ListedOnce, Linked, SumOf, DistributedWeight, Proportional, Weights;
    var ks := t.kids[s];
    forall i | 0 <= i < |ks|
      ensures ks[i] in t.nodes && ks[i] in Redistributed(t, s)
              && Proportional(Redistributed(t, s)[ks[i]], s.weight, s.sumDepWeight, ks[i].weight) {
      WeightIs(t, ks[i]);
      WeightIs(t, s);
      assert Weighs(t, s);
      ShareOk(t, s, ks[i]);
      KidsWeighed(t, s);
      SumBounds(t.wt, ks, ks[i]);
      ShareProportional(t.wt[s], SumOf(t.wt, ks), t.wt[ks[i]]);
    }
  }

  lemma SharesAre(t: Tree, u: Tree, s: Stream, ws: seq<int>, weight: int, sum: int)
    requires TreeValid(u) && u.nodes == t.nodes && s in t.kids && |ws| == |t.kids[s]|
    requires Due(u.wt, t.kids[s], ws, weight, sum) && forall i :: 0 <= i < |t.kids[s]| ==> t.kids[s][i] in t.nodes
    ensures Shares(t.kids[s], ws, weight, sum)
  {
    hide TreeValid, Proportional;
    forall i | 0 <= i < |t.kids[s]| ensures t.kids[s][i].weight == u.wt[t.kids[s][i]] { WeightIs(u, t.kids[s][i]); }
  }

  /** The unlinking and the final assignments. */
  method LeaveTree(ghost t: Tree, s: Stream)
    requires WellFormed(t) && Linked(t) && s in t.par && s in t.nodes && t.par[s] in t.nodes && t.par[s] != s
    requires SharedOut(t, s)
    modifies t.nodes`depPrev, t.nodes`depNext, t.nodes`sibPrev, t.nodes`sibNext, s`sumDepWeight
    ensures TreeValid(Splice(t, s))
  {
    hide Ranked, ListedUp, ListedDown, ListedOnce, WeightsInRange, Linked, Weighted, Splice, SpliceLinked, SharedOut;
    SpliceShape(t, s);
    Unlink(t, s);
    s.sumDepWeight := 0;
    WeightedSplice(t, s);
    ClearLinks(t, s);
  }

  lemma SumIs(t: Tree, x: Stream)
    requires WellFormed(t) && x in t.nodes && WeighsOld(t, x)
    ensures (forall k :: k in t.kids[x] ==> k in t.wt) && x.sumDepWeight == SumOf(t.wt, t.kids[x])
  {
    KidsWeighed(t, x);
  }

  lemma OldSums(t: Tree)
    requires TreeValid(t)
    ensures forall x :: x in t.nodes ==> WeighsOld(t, x)
    ensures forall x, k :: x in t.nodes && k in t.kids[x] ==> k in t.wt
  {
    forall x | x in t.nodes ensures WeighsOld(t, x) && forall k :: k in t.kids[x] ==> k in t.wt {
      assert Weighs(t, x);
      KidsWeighed(t, x);
    }
  }
}
