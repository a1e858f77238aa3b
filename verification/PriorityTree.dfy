/** The dependency tree of streams with its queues: what the pointers, weights and queues hold
    between operations, and the operations on items. */
module PriorityTree {
  import opened StreamQueue
  import opened Forest
  import opened SiblingLinks
  import opened QueueState
  import opened StreamLinks
  import opened FairQueue
  import opened ObqLoops

  ghost predicate Linked(t: Tree)
    reads t.nodes`depPrev, t.nodes`depNext, t.nodes`sibPrev, t.nodes`sibNext
  {
    && Listed(t)
    && (forall p, i :: p in t.nodes && 0 <= i < |t.kids[p]| ==> t.kids[p][i] in t.nodes)
    && (forall p :: p in t.nodes ==> LinkedKids(p, t.kids[p]))
    && (forall x :: x in t.nodes && x !in t.par ==> Loose(x))
  }

  ghost predicate Weighs(t: Tree, x: Stream)
    requires Listed(t) && WeightsInRange(t) && x in t.nodes
    reads x`weight, x`sumDepWeight
  {
    KidsWeighed(t, x);
    x.weight == t.wt[x] && x.sumDepWeight == SumOf(t.wt, t.kids[x])
  }

  lemma KidsWeighed(t: Tree, x: Stream)
    requires Listed(t) && WeightsInRange(t) && x in t.nodes
    ensures forall k :: k in t.kids[x] ==> k in t.wt
  {}

  ghost predicate Weighted(t: Tree)
    requires Listed(t) && WeightsInRange(t)
    reads t.nodes`weight, t.nodes`sumDepWeight
  {
    forall x :: x in t.nodes ==> Weighs(t, x)
  }

  /** The tree's part: shape, links, weights and their sums. */
  ghost predicate TreeValid(t: Tree)
    reads t.nodes`depPrev, t.nodes`depNext, t.nodes`sibPrev, t.nodes`sibNext, t.nodes`weight, t.nodes`sumDepWeight
  {
    WellFormed(t) && Linked(t) && Weighted(t)
  }

  /** The queues' part. */
  ghost predicate QueuesValid(t: Tree, home: Home, act: set<Stream>)
    reads t.nodes`obq, t.nodes`index, t.nodes`queued, t.nodes`hasItem, t.nodes`deferred
  {
    Balanced(t, home, act) && Queues(t.nodes, home) && Acts(t.nodes, act)
  }

  lemma ParentIs(t: Tree, x: Stream)
    requires Linked(t) && x in t.nodes
    ensures x.depPrev == ParentOf(t, x)
  {
    if x in t.par {
      var p := t.par[x];
      var i :| 0 <= i < |t.kids[p]| && t.kids[p][i] == x;
      assert LinkedKids(p, t.kids[p]);
    } else {
      assert Loose(x);
    }
  }

  lemma Climb(t: Tree, x: Stream?)
    requires TreeValid(t) && (x != null ==> x in t.nodes)
    ensures Climbable(t, x) && Weighty(t.nodes)
  {
    hide Linked, Listed, Weighs;
    if x != null {
      forall y | y in t.nodes ensures y.depPrev == ParentOf(t, y) { ParentIs(t, y); }
    }
    forall y | y in t.nodes ensures y.weight > 0 { WeightIs(t, y); }
  }

  lemma WeightIs(t: Tree, x: Stream)
    requires TreeValid(t) && x in t.nodes
    ensures x.weight == t.wt[x] && 1 <= x.weight <= 256
  {
    assert Weighs(t, x);
  }

  lemma QueuesAreClosed(nodes: set<Stream>, home: Home)
    requires Queues(nodes, home)
    ensures Closed(nodes)
  {}

  // ---------------------------------------------------------------- items

  /** `stream_update_dep_on_attach_item`, once `s` is active. */
  method OnAttach(ghost t: Tree, ghost home: Home, ghost act: set<Stream>, s: Stream) returns (ghost h: Home)
    requires TreeValid(t) && Balanced(t, home, act) && Queues(t.nodes, home) && Acts(t.nodes, act + {s}) && s in t.nodes
    modifies t.nodes`obq, t.nodes`index, t.nodes`queued, t.nodes`cycle, t.nodes`pendingPenalty, t.nodes`seqNo,
             t.nodes`descendantNextSeq
    ensures TreeValid(t) && QueuesValid(t, h, act + {s})
    ensures h == PushUp(t, home, ParentOf(t, s), s)
    ensures Closed(t.nodes) && Kept(t.nodes, home, h, old(Times(t.nodes)))
    ensures Pushed(t.nodes, home, h, old(Levels(t.nodes)), old(Times(t.nodes)), Levels(t.nodes))
    ensures old(Timely(t.nodes)) ==> Timely(t.nodes)
  {
    hide Linked, Listed, Weighted, Ranked, Queues, PushUp, Balanced, Climbable, Weighty, Levels, Times, Pushed, Kept,
      Timely, Closed;
    ParentIs(t, s);
    NearRoot(t, s);
    Climb(t, s.depPrev);
    h := ObqPush(t, home, s.depPrev, s);
    ActivateBalances(t, home, act, s);
  }

  lemma NearRoot(t: Tree, x: Stream)
    requires Ranked(t) && x in t.nodes
    ensures ParentOf(t, x) != null ==> ParentOf(t, x) in t.nodes
  {}

  /** `nghttp2_stream_attach_item`. */
  method AttachItem(ghost t: Tree, ghost home: Home, ghost act: set<Stream>, s: Stream) returns (ghost h: Home)
    requires TreeValid(t) && QueuesValid(t, home, act) && s in t.nodes && !s.hasItem && s.deferred == {}
    modifies s`hasItem, t.nodes`obq, t.nodes`index, t.nodes`queued, t.nodes`cycle, t.nodes`pendingPenalty,
             t.nodes`seqNo, t.nodes`descendantNextSeq
    ensures TreeValid(t) && QueuesValid(t, h, act + {s})
    ensures h == PushUp(t, home, ParentOf(t, s), s)
    ensures Closed(t.nodes) && Kept(t.nodes, home, h, old(Times(t.nodes)))
    ensures Pushed(t.nodes, home, h, old(Levels(t.nodes)), old(Times(t.nodes)), Levels(t.nodes))
    ensures old(Timely(t.nodes)) ==> Timely(t.nodes)
  {
    hide TreeValid, Balanced, Queues, PushUp, Ranked, Levels, Times, Pushed, Kept, Timely, Closed;
    QueuesAreClosed(t.nodes, home);
    s.hasItem := true;
    h := OnAttach(t, home, act, s);
  }

  /** `stream_update_dep_on_detach_item`. */
  method OnDetach(ghost t: Tree, ghost home: Home, ghost was: set<Stream>, ghost act: set<Stream>, s: Stream)
    returns (ghost h: Home)
    requires TreeValid(t) && Balanced(t, home, was) && Queues(t.nodes, home) && Acts(t.nodes, act) && s in t.nodes
    requires act == was || act == was - {s}
    modifies t.nodes`obq, t.nodes`index, t.nodes`queued, t.nodes`cycle, t.nodes`pendingPenalty,
             t.nodes`descendantLastCycle, t.nodes`lastWritelen
    ensures TreeValid(t) && Queues(t.nodes, h) && Acts(t.nodes, act)
    ensures h == DetachHome(home, act, s)
    ensures Closed(t.nodes) && Faded(t.nodes, home, h, old(Times(t.nodes)))
    ensures Removed(t.nodes, home, h, old(Levels(t.nodes)), Levels(t.nodes))
    ensures old(Timely(t.nodes)) ==> Timely(t.nodes)
  {
    hide Linked, Listed, Weighted, Queues, Climbable, Weighty, RemoveUp, Busy, Active, Levels, Times, Removed, Faded,
      Timely, Closed, NearZero;
    QueueIsIndexed(t.nodes, home, s);
    QueuesAreClosed(t.nodes, home);
    NothingRemoved(t.nodes, home, Levels(t.nodes));
    NothingFaded(t.nodes, home);
    h := home;
    if s.obq == [] {
      Climb(t, s);
      EmptyIsNear(s);
      h := ObqRemove(t, home, act, s);
    }
  }

  method ClearItem(ghost nodes: set<Stream>, ghost act: set<Stream>, s: Stream)
    requires Acts(nodes, act)
    modifies s`hasItem, s`deferred
    ensures Acts(nodes, act - {s})
  {
    s.hasItem, s.deferred := false, {};
  }

  method DeferFor(ghost nodes: set<Stream>, ghost act: set<Stream>, s: Stream, flags: set<Deferral>)
    requires Acts(nodes, act) && s in nodes && s.hasItem
    modifies s`deferred
    ensures s.deferred == {} ==> s in act
    ensures s.deferred == old(s.deferred) + flags
    ensures Acts(nodes, if s.deferred == {} then act else act - {s})
  {
    s.deferred := s.deferred + flags;
  }

  /** `nghttp2_stream_detach_item`. */
  method DetachItem(ghost t: Tree, ghost home: Home, ghost act: set<Stream>, s: Stream) returns (ghost h: Home)
    requires TreeValid(t) && QueuesValid(t, home, act) && s in t.nodes
    modifies s`hasItem, s`deferred, t.nodes`obq, t.nodes`index, t.nodes`queued, t.nodes`cycle, t.nodes`pendingPenalty,
             t.nodes`descendantLastCycle, t.nodes`lastWritelen
    ensures TreeValid(t) && QueuesValid(t, h, act - {s})
    ensures h == DetachHome(home, act - {s}, s)
    ensures Closed(t.nodes) && Faded(t.nodes, home, h, old(Times(t.nodes)))
    ensures Removed(t.nodes, home, h, old(Levels(t.nodes)), Levels(t.nodes))
    ensures old(Timely(t.nodes)) ==> Timely(t.nodes)
  {
    hide TreeValid, Queues, Balanced, DetachHome, Levels, Times, Removed, Faded, Timely, Closed, Acts;
    QueuesAreClosed(t.nodes, home);
    ClearItem(t.nodes, act, s);
    h := OnDetach(t, home, act, act - {s}, s);
    DeferBalances(t, home, act, s, false);
  }

  lemma IsRanked(t: Tree)
    requires TreeValid(t)
    ensures Ranked(t) && WellFormed(t)
  {}

  /** `nghttp2_stream_defer_item`. With no reason given the item stays active although its stream is
      taken out of its queue; the queues are right afterwards exactly when that changes nothing. */
  method DeferItem(ghost t: Tree, ghost home: Home, ghost act: set<Stream>, s: Stream, flags: set<Deferral>)
    returns (ghost h: Home, ghost now: set<Stream>)
    requires TreeValid(t) && QueuesValid(t, home, act) && s in t.nodes && s.hasItem
    modifies s`deferred, t.nodes`obq, t.nodes`index, t.nodes`queued, t.nodes`cycle, t.nodes`pendingPenalty,
             t.nodes`descendantLastCycle, t.nodes`lastWritelen
    ensures TreeValid(t) && Queues(t.nodes, h) && Acts(t.nodes, now)
    ensures now == if old(s.deferred) + flags == {} then act else act - {s}
    ensures h == DetachHome(home, now, s)
    ensures QueuesValid(t, h, now) <==> old(s.deferred) + flags != {} || s !in t.par || Busy(home, s)
    ensures Closed(t.nodes) && Faded(t.nodes, home, h, old(Times(t.nodes)))
    ensures Removed(t.nodes, home, h, old(Levels(t.nodes)), Levels(t.nodes))
    ensures old(Timely(t.nodes)) ==> Timely(t.nodes)
  {
    hide TreeValid, Queues, Balanced, DetachHome, Busy, Levels, Times, Removed, Faded, Timely, Closed, Acts;
    QueuesAreClosed(t.nodes, home);
    now := if s.deferred + flags == {} then act else act - {s};
    DeferFor(t.nodes, act, s, flags);
    h := OnDetach(t, home, act, now, s);
    DeferBalances(t, home, act, s, s.deferred == {});
  }

  lemma DeferBalances(t: Tree, home: Home, act: set<Stream>, s: Stream, idle: bool)
    requires TreeValid(t) && Balanced(t, home, act) && s in t.nodes && (idle ==> s in act)
    ensures var now := if idle then act else act - {s};
            Balanced(t, DetachHome(home, now, s), now) <==> !idle || s !in t.par || Busy(home, s)
  {
    hide TreeValid, Balanced, DetachHome, Busy;
    IsRanked(t);
    if idle { IdleDetachBreaks(t, home, act, s); } else { DeactivateBalances(t, home, act, s); }
  }

  /** `nghttp2_stream_resume_deferred_item`: active again once no reason is left. */
  method ResumeDeferredItem(ghost t: Tree, ghost home: Home, ghost act: set<Stream>, s: Stream, flags: set<Deferral>)
    returns (ghost h: Home, ghost now: set<Stream>)
    requires TreeValid(t) && QueuesValid(t, home, act) && s in t.nodes && s.hasItem
    modifies s`deferred, t.nodes`obq, t.nodes`index, t.nodes`queued, t.nodes`cycle, t.nodes`pendingPenalty,
             t.nodes`seqNo, t.nodes`descendantNextSeq
    ensures TreeValid(t) && QueuesValid(t, h, now)
    ensures now == if old(s.deferred) <= flags then act + {s} else act
    ensures h == if s in now then PushUp(t, home, ParentOf(t, s), s) else home
    ensures Closed(t.nodes) && Kept(t.nodes, home, h, old(Times(t.nodes)))
    ensures Pushed(t.nodes, home, h, old(Levels(t.nodes)), old(Times(t.nodes)), Levels(t.nodes))
    ensures old(Timely(t.nodes)) ==> Timely(t.nodes)
  {
    hide TreeValid, Balanced, Queues, PushUp, Ranked, Levels, Times, Pushed, Kept, Timely, Closed;
    QueuesAreClosed(t.nodes, home);
    NothingPushed(t.nodes, home, Levels(t.nodes), Times(t.nodes));
    NothingKept(t.nodes, home);
    assert s.deferred - flags == {} <==> s.deferred <= flags by {
      if s.deferred - flags == {} { assert forall r :: r in s.deferred ==> r !in s.deferred - flags; }
    }
    s.deferred := s.deferred - flags;
    if s.deferred != {} {
      return home, act;
    }
    now := act + {s};
    h := OnAttach(t, home, act, s);
  }
}
