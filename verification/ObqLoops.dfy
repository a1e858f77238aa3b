/** The loops of the scheduler that climb from a stream towards the root. */
module ObqLoops {
  import opened StreamQueue
  import opened Forest
  import opened QueueState
  import opened StreamLinks
  import opened Fairness
  import opened FairQueue

  /** The parent pointers of the streams up to the rank of `d` are those of the tree. */
  ghost predicate Climbable(t: Tree, d: Stream?)
    requires Ranked(t) && (d != null ==> d in t.nodes)
    reads t.nodes`depPrev
  {
    d != null ==> forall x :: x in t.nodes && t.rank[x] <= t.rank[d] ==> x.depPrev == ParentOf(t, x)
  }

  ghost predicate Weighty(nodes: set<Stream>)
    reads nodes`weight
  {
    forall x :: x in nodes ==> x.weight > 0
  }

  lemma ClimbStep(t: Tree, d: Stream)
    requires Ranked(t) && d in t.nodes && Climbable(t, d)
    ensures d.depPrev == ParentOf(t, d) && (d.depPrev != null ==> d.depPrev in t.nodes && t.rank[d.depPrev] < t.rank[d])
    ensures Climbable(t, d.depPrev)
  {}

  /** Someone joined the queue of `p`. */
  ghost predicate Gained(home: Home, h: Home, p: Stream)
  {
    exists x :: x in h && x !in home && h[x] == p
  }

  lemma GainedAdd(home: Home, h: Home, x: Stream, d: Stream, p: Stream)
    requires x !in home && x !in h
    ensures Gained(home, h[x := d], p) <==> p == d || Gained(home, h, p)
  {
    var g := h[x := d];
    assert g[x] == d;
    if Gained(home, h, p) {
      var y: Stream :| y in h && y !in home && h[y] == p;
      assert g[y] == p;
    }
  }

  /** The virtual time of a stream and what it carries. */
  datatype Time = Time(cycle: Word, pending: Word, writelen: nat)

  ghost function TimeOf(x: Stream): Time
    reads x`cycle, x`pendingPenalty, x`lastWritelen
  {
    Time(x.cycle, x.pendingPenalty, x.lastWritelen)
  }

  ghost function Times(nodes: set<Stream>): (tm: map<Stream, Time>)
    reads nodes`cycle, nodes`pendingPenalty, nodes`lastWritelen
    ensures tm.Keys == nodes
  {
    map x | x in nodes :: TimeOf(x)
  }

  /** From the levels `lv` to the levels `lw`: whoever joined a queue since `home` arrived there, charged
      for what `tm` says it carried, and nothing else happened. */
  ghost predicate Pushed(nodes: set<Stream>, home: Home, h: Home, lv: map<Stream, Level<Stream>>,
                         tm: map<Stream, Time>, lw: map<Stream, Level<Stream>>)
    requires lv.Keys == nodes && tm.Keys == nodes && lw.Keys == nodes
    reads nodes`weight
  {
    && (forall x :: x in h && x !in home ==>
          && x in nodes && h[x] in nodes && x.weight > 0
          && lw[h[x]] == Arrived(lv[h[x]], x, x.weight, tm[x].writelen, tm[x].pending))
    && (forall p :: p in nodes && !Gained(home, h, p) ==> lw[p] == lv[p])
  }

  /** Whoever did not join a queue since `home` kept its virtual time. */
  ghost predicate Kept(nodes: set<Stream>, home: Home, h: Home, tm: map<Stream, Time>)
    requires tm.Keys == nodes
    reads nodes`cycle, nodes`pendingPenalty, nodes`lastWritelen
  {
    forall x :: x in nodes && (x in home || x !in h) ==> TimeOf(x) == tm[x]
  }

  lemma NothingKept(nodes: set<Stream>, home: Home)
    ensures Kept(nodes, home, home, Times(nodes))
  {}

  lemma NothingPushed(nodes: set<Stream>, home: Home, lv: map<Stream, Level<Stream>>, tm: map<Stream, Time>)
    requires lv.Keys == nodes && tm.Keys == nodes
    ensures Pushed(nodes, home, home, lv, tm, lv)
  {}

  lemma PushedMore(nodes: set<Stream>, home: Home, h: Home, lv: map<Stream, Level<Stream>>, tm: map<Stream, Time>,
                   lw: map<Stream, Level<Stream>>, dep: Stream, s: Stream)
    requires lv.Keys == nodes && tm.Keys == nodes && lw.Keys == nodes && Pushed(nodes, home, h, lv, tm, lw)
    requires dep in nodes && s in nodes && s.weight > 0 && s !in home && s !in h && !Gained(home, h, dep)
    ensures var l := Arrived(lv[dep], s, s.weight, tm[s].writelen, tm[s].pending);
            lw[dep] == lv[dep] && Pushed(nodes, home, h[s := dep], lv, tm, lw[dep := l])
  {
    hide Arrived, Gained;
    GainedMore(home, h, s, dep);
    NoGain(home, h);
  }

  lemma NoGain(home: Home, h: Home)
    ensures forall x :: x in h && x !in home ==> Gained(home, h, h[x])
  {}

  /** `stream_obq_push`: the climb queues the streams `PushUp` says, and each is an arrival there. */
  method ObqPush(ghost t: Tree, ghost home: Home, dep: Stream?, s: Stream) returns (ghost h: Home)
    requires Ranked(t) && s in t.nodes && (dep != null ==> dep in t.nodes)
    requires Queues(t.nodes, home) && Climbable(t, dep) && Weighty(t.nodes)
    modifies t.nodes`obq, t.nodes`index, t.nodes`queued, t.nodes`cycle, t.nodes`pendingPenalty, t.nodes`seqNo,
             t.nodes`descendantNextSeq
    ensures h == PushUp(t, home, dep, s) && Queues(t.nodes, h) && Closed(t.nodes)
    ensures Pushed(t.nodes, home, h, old(Levels(t.nodes)), old(Times(t.nodes)), Levels(t.nodes))
    ensures Kept(t.nodes, home, h, old(Times(t.nodes)))
    ensures old(Timely(t.nodes)) ==> Timely(t.nodes)
  {
    hide Climbable, Queues, LevelOf, Timely, PushUp, Pushed, Weighty, Levels, Closed, ClimbedTo, Ranked, Kept, Times;
    FlagIs(t.nodes, home, s);
    ghost var lv, tm := Levels(t.nodes), Times(t.nodes);
    NothingPushed(t.nodes, home, lv, tm);
    NothingKept(t.nodes, home);
    NothingClimbed(t, home, dep);
    var d, x := dep, s;
    h := home;
    while d != null && !x.queued
      invariant x in t.nodes && (d != null ==> d in t.nodes) && Climbable(t, d)
      invariant Queues(t.nodes, h) && PushUp(t, h, d, x) == PushUp(t, home, dep, s)
      invariant ClimbedTo(t, home, h, d)
      invariant Kept(t.nodes, home, h, tm)
      invariant Closed(t.nodes) && Pushed(t.nodes, home, h, lv, tm, Levels(t.nodes))
      invariant old(Timely(t.nodes)) ==> Timely(t.nodes)
      decreases if d == null then 0 else 1 + t.rank[d]
    {
      ClimbStep(t, d);
      PushUpUnfold(t, h, d, x);
      FlagIs(t.nodes, h, x);
      ClimbedMore(t, home, h, d, x);
      Round(t.nodes, home, h, d, x, lv, tm);
      h := h[x := d];
      x, d := d, d.depPrev;
    }
    FlagIs(t.nodes, h, x);
    PushUpUnfold(t, h, d, x);
  }

  /** Where the climb stands: whoever joined a queue joined one below `d`. */
  ghost predicate ClimbedTo(t: Tree, home: Home, h: Home, d: Stream?)
    requires Ranked(t) && (d != null ==> d in t.nodes)
  {
    && (forall y :: y in home ==> y in h)
    && (d != null ==> forall y :: y in h && y !in home ==> h[y] in t.nodes && t.rank[d] < t.rank[h[y]])
  }

  lemma NothingClimbed(t: Tree, home: Home, d: Stream?)
    requires Ranked(t) && (d != null ==> d in t.nodes)
    ensures ClimbedTo(t, home, home, d) && t.rank.Keys == t.nodes
  {}

  lemma ClimbedMore(t: Tree, home: Home, h: Home, d: Stream, x: Stream)
    requires Ranked(t) && d in t.nodes && x !in h && ClimbedTo(t, home, h, d)
    ensures !Gained(home, h, d) && x !in home && ClimbedTo(t, home, h[x := d], ParentOf(t, d))
  {}

  lemma GainedMore(home: Home, h: Home, x: Stream, d: Stream)
    requires x !in home && x !in h
    ensures forall p :: Gained(home, h[x := d], p) <==> p == d || Gained(home, h, p)
  {
    hide Gained;
    forall p: Stream ensures Gained(home, h[x := d], p) <==> p == d || Gained(home, h, p) {
      GainedAdd(home, h, x, d, p);
    }
  }

  lemma PushUpUnfold(t: Tree, home: Home, d: Stream?, x: Stream)
    requires Ranked(t) && (d != null ==> d in t.nodes)
    ensures d == null || x in home ==> PushUp(t, home, d, x) == home
    ensures d != null && x !in home ==>
              (ParentOf(t, d) != null ==> ParentOf(t, d) in t.nodes)
              && PushUp(t, home, d, x) == PushUp(t, home[x := d], ParentOf(t, d), d)
  {}

  /** The body of the loop. */
  method Round(ghost nodes: set<Stream>, ghost home: Home, ghost h: Home, dep: Stream, s: Stream,
               ghost lv: map<Stream, Level<Stream>>, ghost tm: map<Stream, Time>)
    requires Queues(nodes, h) && dep in nodes && s in nodes && !s.queued && Weighty(nodes) && Closed(nodes)
    requires lv.Keys == nodes && tm.Keys == nodes && Pushed(nodes, home, h, lv, tm, Levels(nodes))
    requires !Gained(home, h, dep) && s !in home && Kept(nodes, home, h, tm)
    modifies nodes`obq, nodes`index, s`queued, s`cycle, s`pendingPenalty, s`seqNo, dep`descendantNextSeq
    ensures s !in h && Queues(nodes, h[s := dep]) && Closed(nodes)
    ensures Pushed(nodes, home, h[s := dep], lv, tm, Levels(nodes)) && Kept(nodes, home, h[s := dep], tm)
    ensures old(Timely(nodes)) ==> Timely(nodes)
  {
    hide LevelOf, Timely, Arrived, Gained, Queues, Levels, Pushed;
    FlagIs(nodes, h, s);
    PushedMore(nodes, home, h, lv, tm, Levels(nodes), dep, s);
    Enter(nodes, h, dep, s);
  }

  // ---------------------------------------------------------------- removal

  /** `stream_active`. */
  predicate Active(x: Stream)
    reads x`hasItem, x`deferred
  {
    x.hasItem && x.deferred == {}
  }

  ghost predicate Acts(nodes: set<Stream>, act: set<Stream>)
    reads nodes`hasItem, nodes`deferred
  {
    forall x :: x in nodes ==> (x in act <==> Active(x))
  }

  /** `stream_subtree_active`. */
  method SubtreeActive(ghost nodes: set<Stream>, ghost home: Home, ghost act: set<Stream>, x: Stream)
    returns (active: bool)
    requires x in nodes && Queues(nodes, home) && Acts(nodes, act)
    ensures active <==> Ready(home, act, x)
    ensures !active ==> x.obq == []
  {
    QueueIsIndexed(nodes, home, x);
    active := Active(x) || x.obq != [];
  }

  /** The streams of smaller rank than `x` are settled. */
  ghost predicate SettledAbove(t: Tree, home: Home, act: set<Stream>, x: Stream)
    requires Ranked(t) && x in t.nodes
  {
    forall y :: y in t.par && t.rank[y] < t.rank[x] ==> Settled(home, act, y)
  }

  lemma RemoveStep(t: Tree, home: Home, act: set<Stream>, x: Stream)
    requires Ranked(t) && x in t.nodes && x in home && AtParents(t, home) && SettledAbove(t, home, act, x)
    ensures var d, h := home[x], home - {x};
            d in t.nodes && AtParents(t, h) && SettledAbove(t, h, act, d) && (d in t.par ==> d in h)
  {
    hide Busy;
    var d, h := home[x], home - {x};
    BusyAt(home, x);
    forall y | y in t.par && t.rank[y] < t.rank[d] ensures Settled(h, act, y) {
      BusyDrop(home, x, y);
      assert Settled(home, act, y);
    }
    assert d in t.par ==> Settled(home, act, d);
  }

  /** `x` left the queue it was in. */
  ghost predicate Gone(home: Home, h: Home, x: Stream)
  {
    x in home && x !in h
  }

  /** Someone left the queue of `p`. */
  ghost predicate Drained(home: Home, h: Home, p: Stream)
  {
    exists x :: x in home && x !in h && home[x] == p
  }

  lemma DrainedMore(home: Home, h: Home, x: Stream)
    requires x in home && x in h
    ensures forall p :: Drained(home, h - {x}, p) <==> p == home[x] || Drained(home, h, p)
  {
    var g := h - {x};
    assert x !in g;
    forall p: Stream ensures Drained(home, g, p) <==> p == home[x] || Drained(home, h, p) {
      if Drained(home, h, p) {
        var y: Stream :| y in home && y !in h && home[y] == p;
        assert y !in g;
      }
      if Drained(home, g, p) && p != home[x] {
        var y: Stream :| y in home && y !in g && home[y] == p;
        assert y !in h;
      }
    }
  }

  /** From the levels `lv` to the levels `lw`: whoever left a queue since `home` departed there and starts anew itself. */
  ghost predicate Removed(nodes: set<Stream>, home: Home, h: Home, lv: map<Stream, Level<Stream>>,
                          lw: map<Stream, Level<Stream>>)
    requires lv.Keys == nodes && lw.Keys == nodes
  {
    && (forall x :: x in home && x !in h ==>
          home[x] in nodes && lw[home[x]] == Without(lv[home[x]], x, Gone(home, h, home[x])))
    && (forall p :: p in nodes && !Drained(home, h, p) ==> lw[p] == Restarted(lv[p], Gone(home, h, p)))
  }

  lemma NothingRemoved(nodes: set<Stream>, home: Home, lv: map<Stream, Level<Stream>>)
    requires lv.Keys == nodes
    ensures Removed(nodes, home, home, lv, lv)
  {}

  lemma RemovedMore(nodes: set<Stream>, home: Home, h: Home, lv: map<Stream, Level<Stream>>,
                    lw: map<Stream, Level<Stream>>, d: Stream, x: Stream)
    requires lv.Keys == nodes && lw.Keys == nodes && Removed(nodes, home, h, lv, lw)
    requires x in home && x in h && home[x] == d && d in nodes && x in nodes && d != x
    requires !Drained(home, h, d) && !Gone(home, h, d)
    ensures Removed(nodes, home, h - {x}, lv, lw[d := Without(lw[d], x, false)][x := Restarted(lw[x], true)])
  {
    hide Drained;
    DrainedMore(home, h, x);
    NoDrain(home, h);
  }

  lemma NoDrain(home: Home, h: Home)
    ensures forall x :: x in home && x !in h ==> Drained(home, h, home[x])
  {}

  /** Whoever left a queue since `home` has forgotten its virtual time, the others have kept theirs. */
  ghost predicate Faded(nodes: set<Stream>, home: Home, h: Home, tm: map<Stream, Time>)
    requires tm.Keys == nodes
    reads nodes`cycle, nodes`pendingPenalty, nodes`lastWritelen
  {
    forall x :: x in nodes ==> TimeOf(x) == if Gone(home, h, x) then Time(0, 0, 0) else tm[x]
  }

  lemma NothingFaded(nodes: set<Stream>, home: Home)
    ensures Faded(nodes, home, home, Times(nodes))
  {}

  /** Where the climb stands: whoever left a queue left that of `x` or one below. */
  ghost predicate ClearedTo(t: Tree, home: Home, h: Home, x: Stream)
    requires Ranked(t) && x in t.nodes
  {
    && (forall y :: y in h ==> y in home && h[y] == home[y])
    && (forall y :: y in home && y !in h ==>
          y in t.nodes && home[y] in t.nodes && t.rank[x] <= t.rank[home[y]] < t.rank[y])
  }

  lemma ClearedMore(t: Tree, home: Home, h: Home, x: Stream)
    requires Ranked(t) && x in t.nodes && x in h && AtParents(t, h) && ClearedTo(t, home, h, x)
    ensures var d := h[x];
            && d in t.nodes && d != x && x in home && home[x] == d && !Drained(home, h, d) && !Gone(home, h, d)
            && ClearedTo(t, home, h - {x}, d)
  {}

  /** `Timely` but for the queue of `s`, which is in order exactly if `ok`. */
  ghost predicate TimelyBut(nodes: set<Stream>, s: Stream, ok: bool)
    requires s in nodes
    reads nodes`obq, nodes`descendantLastCycle, nodes`descendantNextSeq, nodes`cycle, nodes`seqNo, nodes`weight,
          nodes`pendingPenalty, nodes`lastWritelen
  {
    && Closed(nodes)
    && (forall p :: p in nodes ==> Modest(p) && (p != s ==> InOrder(p)))
    && (InOrder(s) <==> ok)
  }

  lemma ButTimely(nodes: set<Stream>, s: Stream)
    requires s in nodes
    ensures Timely(nodes) <==> TimelyBut(nodes, s, true)
    ensures TimelyBut(nodes, s, false) ==> !Timely(nodes)
  {
    hide InOrder;
  }

  /** `stream_obq_remove`: the climb takes out the streams `RemoveUp` says, and each is a departure and starts anew.
      The queues stay in order exactly if the cycles in the queue of `s` are near its new base. */
  method ObqRemove(ghost t: Tree, ghost home: Home, ghost act: set<Stream>, s: Stream) returns (ghost h: Home)
    requires Ranked(t) && s in t.nodes && AtParents(t, home) && SettledAbove(t, home, act, s)
    requires Queues(t.nodes, home) && Acts(t.nodes, act) && Climbable(t, s)
    modifies t.nodes`obq, t.nodes`index, t.nodes`queued, t.nodes`cycle, t.nodes`pendingPenalty,
             t.nodes`descendantLastCycle, t.nodes`lastWritelen
    ensures h == RemoveUp(home, act, s) && Queues(t.nodes, h) && Closed(t.nodes)
    ensures Removed(t.nodes, home, h, old(Levels(t.nodes)), Levels(t.nodes))
    ensures Faded(t.nodes, home, h, old(Times(t.nodes)))
    ensures old(Timely(t.nodes)) ==> (Timely(t.nodes) <==> s !in home || old(NearZero(s)))
  {
    hide Climbable, Queues, AtParents, SettledAbove, Busy, RemoveUp, Levels, Times, InOrder, NearZero, Drained,
      Removed, Timely, TimelyBut, Closed, Faded, ClearedTo, Ranked, Position, Without, Restarted, Acts, Ready;
    h := home;
    var x := s;
    ghost var near := NearZero(s);
    FlagIs(t.nodes, home, s);
    ghost var lv, tm := Levels(t.nodes), Times(t.nodes);
    NothingRemoved(t.nodes, home, lv);
    NothingFaded(t.nodes, home);
    RemoveUpUnfold(h, act, x);
    ButTimely(t.nodes, s);
    if !s.queued {
      return;
    }
    ClimbStep(t, x);
    NothingCleared(t, home, s);
    var d := x.depPrev;
    while d != null
      invariant x in t.nodes && d == ParentOf(t, x) && Climbable(t, x) && (d != null ==> x in h)
      invariant AtParents(t, h) && SettledAbove(t, h, act, x) && ClearedTo(t, home, h, x)
      invariant Queues(t.nodes, h) && RemoveUp(h, act, x) == RemoveUp(home, act, s)
      invariant Position(t, home, h, x, s, near)
      invariant Closed(t.nodes) && Removed(t.nodes, home, h, lv, Levels(t.nodes)) && Faded(t.nodes, home, h, tm)
      invariant old(Timely(t.nodes)) ==> TimelyBut(t.nodes, s, s in h || near)
      decreases t.rank[x]
    {
      RemoveUpUnfold(h, act, x);
      HomeIsParent(t, h, x);
      ClearedMore(t, home, h, x);
      RemovedMore(t.nodes, home, h, lv, Levels(t.nodes), d, x);
      var active := RemoveRound(t, home, h, act, d, x, s, near, tm);
      h := h - {x};
      if active {
        ButTimely(t.nodes, s);
        return;
      }
      x, d := d, d.depPrev;
    }
    RemoveEnd(t, home, h, x, s, near);
    RemoveUpUnfold(h, act, x);
    ButTimely(t.nodes, s);
  }

  lemma FlagIs(nodes: set<Stream>, home: Home, x: Stream)
    requires Queues(nodes, home) && x in nodes
    ensures (x.queued <==> x in home) && Closed(nodes)
  {}

  lemma RemovePlace(t: Tree, home: Home, act: set<Stream>, x: Stream)
    requires Ranked(t) && x in t.nodes && x in home && ParentOf(t, x) != null
    requires AtParents(t, home) && SettledAbove(t, home, act, x) && Climbable(t, x)
    ensures var d := ParentOf(t, x);
            && home[x] == d && d in t.nodes && t.rank[d] < t.rank[x] && x != d
            && d.depPrev == ParentOf(t, d) && Climbable(t, d)
            && AtParents(t, home - {x}) && SettledAbove(t, home - {x}, act, d) && (d in t.par ==> d in home - {x})
  {
    hide AtParents, SettledAbove, Climbable;
    HomeIsParent(t, home, x);
    RemoveStep(t, home, act, x);
    ClimbStep(t, x);
    ClimbStep(t, ParentOf(t, x));
  }

  /** At the first round `x` is `s`, later an ancestor with an empty queue. */
  ghost predicate Position(t: Tree, home: Home, h: Home, x: Stream, s: Stream, near: bool)
    requires Ranked(t) && x in t.nodes && s in t.nodes
    reads x`obq, s`obq, s.obq`cycle
  {
    if x == s then s in home && h == home && near == NearZero(s) else s !in h && x.obq == [] && t.rank[x] < t.rank[s]
  }

  lemma NothingCleared(t: Tree, home: Home, s: Stream)
    requires Ranked(t) && s in t.nodes
    ensures ClearedTo(t, home, home, s) && t.rank.Keys == t.nodes
    ensures s in home ==> Position(t, home, home, s, s, NearZero(s))
  {}

  /** The body of the loop. */
  method RemoveRound(ghost t: Tree, ghost home: Home, ghost h: Home, ghost act: set<Stream>, d: Stream, x: Stream,
                     ghost s: Stream, ghost near: bool, ghost tm: map<Stream, Time>)
    returns (active: bool)
    requires Ranked(t) && x in t.nodes && x in h && d == ParentOf(t, x) && s in t.nodes
    requires AtParents(t, h) && SettledAbove(t, h, act, x) && Position(t, home, h, x, s, near)
    requires Queues(t.nodes, h) && Acts(t.nodes, act) && Climbable(t, x)
    requires x in home && tm.Keys == t.nodes && Faded(t.nodes, home, h, tm)
    modifies t.nodes`obq, t.nodes`index, x`queued, x`cycle, x`pendingPenalty, x`descendantLastCycle, x`lastWritelen
    ensures d in t.nodes && t.rank[d] < t.rank[x] && d.depPrev == ParentOf(t, d) && Climbable(t, d)
    ensures AtParents(t, h - {x}) && SettledAbove(t, h - {x}, act, d) && (d in t.par ==> d in h - {x})
    ensures Queues(t.nodes, h - {x}) && (active <==> Ready(h - {x}, act, d)) && Closed(t.nodes)
    ensures s !in h - {x} && (!active ==> Position(t, home, h - {x}, d, s, near))
    ensures var lv := old(Levels(t.nodes));
            Levels(t.nodes) == lv[d := Without(lv[d], x, false)][x := Restarted(lv[x], true)]
    ensures Faded(t.nodes, home, h - {x}, tm)
    ensures old(TimelyBut(t.nodes, s, s in h || near)) ==> TimelyBut(t.nodes, s, s in h - {x} || near)
  {
    hide Climbable, Queues, AtParents, SettledAbove, Ready, Levels, NearZero, TimelyBut, Faded, Closed, Ranked,
      ParentOf, Without, Restarted, Acts;
    RemovePlace(t, h, act, x);
    RoundOut(t.nodes, home, h, d, x, s, near, tm);
    active := SubtreeActive(t.nodes, h - {x}, act, d);
  }

  lemma HomeIsParent(t: Tree, home: Home, x: Stream)
    requires AtParents(t, home) && x in home
    ensures x in t.par && home[x] == t.par[x]
  {}

  lemma RemoveEnd(t: Tree, home: Home, h: Home, x: Stream, s: Stream, near: bool)
    requires Ranked(t) && x in t.nodes && s in t.nodes && ParentOf(t, x) == null
    requires AtParents(t, h) && Position(t, home, h, x, s, near)
    ensures x !in h && s !in h
  {
    hide NearZero, Ranked;
  }

  lemma RemoveUpUnfold(home: Home, act: set<Stream>, x: Stream)
    ensures x !in home ==> RemoveUp(home, act, x) == home
    ensures x in home && Ready(home - {x}, act, home[x]) ==> RemoveUp(home, act, x) == home - {x}
    ensures x in home && !Ready(home - {x}, act, home[x]) ==>
              RemoveUp(home, act, x) == RemoveUp(home - {x}, act, home[x])
  {}

  lemma EmptyIsNear(x: Stream)
    ensures x.obq == [] ==> NearZero(x)
  {}

  /** `Exit` with the frame of the loop. */
  method RoundOut(ghost nodes: set<Stream>, ghost home: Home, ghost h: Home, dep: Stream, x: Stream, ghost s: Stream,
                  ghost near: bool, ghost tm: map<Stream, Time>)
    requires Queues(nodes, h) && dep in nodes && x in nodes && x in h && h[x] == dep && x != dep
    requires s in nodes && s != dep && if x == s then s in h && near == NearZero(s) else s !in h && x.obq == []
    requires x in home && tm.Keys == nodes && Faded(nodes, home, h, tm)
    modifies nodes`obq, nodes`index, x`queued, x`cycle, x`pendingPenalty, x`descendantLastCycle, x`lastWritelen
    ensures Queues(nodes, h - {x}) && Closed(nodes) && Faded(nodes, home, h - {x}, tm)
    ensures var lv := old(Levels(nodes));
            Levels(nodes) == lv[dep := Without(lv[dep], x, false)][x := Restarted(lv[x], true)]
    ensures old(TimelyBut(nodes, s, s in h || near)) ==> TimelyBut(nodes, s, s in h - {x} || near)
  {
    hide Queues, LevelOf, InOrder, Levels, NearZero, Without, Restarted;
    FlagIs(nodes, h, x);
    EmptyIsNear(x);
    Exit(nodes, h, dep, x);
  }

  /** From the levels `lv` to the levels `lw`: `s`, if it was queued, left the queue of `src`, and then whoever joined
      a queue arrived there. */
  ghost predicate Requeued(nodes: set<Stream>, home: Home, h: Home, src: Stream, s: Stream,
                           lv: map<Stream, Level<Stream>>, tm: map<Stream, Time>, lw: map<Stream, Level<Stream>>)
    requires lv.Keys == nodes && tm.Keys == nodes && lw.Keys == nodes && src in nodes
    reads nodes`weight, nodes`cycle, nodes`pendingPenalty, nodes`lastWritelen
  {
    if s in home then
      && Pushed(nodes, home - {s}, h, lv[src := Without(lv[src], s, false)], tm, lw)
      && Kept(nodes, home - {s}, h, tm)
    else lw == lv
  }

  /** `stream_obq_move`: a departure from `src`, then arrivals at `dest` and upwards. */
  method ObqMove(ghost t: Tree, ghost home: Home, dest: Stream, src: Stream, s: Stream) returns (ghost h: Home)
    requires Ranked(t) && s in t.nodes && dest in t.nodes && src in t.nodes && (s in home ==> home[s] == src)
    requires Queues(t.nodes, home) && Climbable(t, dest) && Weighty(t.nodes)
    modifies t.nodes`obq, t.nodes`index, t.nodes`queued, t.nodes`cycle, t.nodes`pendingPenalty, t.nodes`seqNo,
             t.nodes`descendantNextSeq
    ensures Queues(t.nodes, h) && Closed(t.nodes)
    ensures h == if s in home then PushUp(t, home - {s}, dest, s) else home
    ensures Requeued(t.nodes, home, h, src, s, old(Levels(t.nodes)), old(Times(t.nodes)), Levels(t.nodes))
    ensures old(Timely(t.nodes)) ==> Timely(t.nodes)
  {
    hide Climbable, Queues, PushUp, Ranked, Timely, Levels, Times, Pushed, Kept, Closed, Weighty, Without;
    FlagIs(t.nodes, home, s);
    if !s.queued {
      return home;
    }
    RoundMove(t.nodes, home, src, s);
    h := ObqPush(t, home - {s}, dest, s);
  }

  method RoundMove(ghost nodes: set<Stream>, ghost home: Home, src: Stream, s: Stream)
    requires Queues(nodes, home) && src in nodes && s in nodes && s in home && home[s] == src
    modifies nodes`obq, nodes`index, nodes`queued
    ensures Queues(nodes, home - {s}) && Closed(nodes)
    ensures var lv := old(Levels(nodes)); Levels(nodes) == lv[src := Without(lv[src], s, false)]
    ensures old(Timely(nodes)) ==> Timely(nodes)
  {
    hide QueueAt, Timely, Levels;
    Unqueue(nodes, home, src, s);
  }

  /** The end of the insertions: `s` is queued if there is a reason. */
  method PushIfActive(ghost u: Tree, ghost home: Home, ghost act: set<Stream>, dep: Stream, s: Stream)
    returns (ghost h: Home)
    requires Ranked(u) && dep in u.nodes && s in u.nodes && Queues(u.nodes, home) && Acts(u.nodes, act)
    requires Climbable(u, dep) && Weighty(u.nodes)
    modifies u.nodes`obq, u.nodes`index, u.nodes`queued, u.nodes`cycle, u.nodes`pendingPenalty,
             u.nodes`seqNo, u.nodes`descendantNextSeq
    ensures Queues(u.nodes, h) && h == if Ready(home, act, s) then PushUp(u, home, dep, s) else home
    ensures old(Timely(u.nodes)) ==> Timely(u.nodes)
  {
    hide Ranked, PushUp, Queues, Climbable, Weighty, Ready, Acts, Timely, LevelOf, Pushed;
    var active := SubtreeActive(u.nodes, home, act, s);
    h := home;
    if active {
      h := ObqPush(u, home, dep, s);
    }
  }
}
