/** The queues as the scheduler's fields hold them: at every parent they take the steps of `Fairness`. */
module FairQueue {
  import opened HeapOrder
  import opened StreamQueue
  import opened QueueState
  import opened StreamLinks
  import opened Cycles
  import opened Fairness

  ghost function EntryOf(x: Stream): Entry
    reads x`cycle, x`seqNo, x`weight, x`pendingPenalty
  {
    Entry(x.cycle, x.seqNo, x.weight, x.pendingPenalty)
  }

  ghost function Entries(q: seq<Stream>): (m: map<Stream, Entry>)
    reads q`cycle, q`seqNo, q`weight, q`pendingPenalty
    ensures forall x :: x in m ==> x in q && m[x] == EntryOf(x)
    ensures forall i :: 0 <= i < |q| ==> q[i] in m
  {
    map x | x in q :: EntryOf(x)
  }

  ghost function LevelOf(dep: Stream): Level<Stream>
    reads dep`obq, dep`descendantLastCycle, dep`descendantNextSeq, dep.obq`cycle, dep.obq`seqNo, dep.obq`weight,
          dep.obq`pendingPenalty
  {
    Level(dep.descendantLastCycle, Entries(dep.obq), dep.descendantNextSeq)
  }

  /** The queue is in order and its cycles are together. */
  ghost predicate InOrder(dep: Stream)
    reads dep`obq, dep`descendantLastCycle, dep`descendantNextSeq, dep.obq`cycle, dep.obq`seqNo, dep.obq`weight,
          dep.obq`pendingPenalty
  {
    Fair(State(LevelOf(dep), {})) && Heap(StreamLess, Keys(dep.obq))
  }

  lemma FairOrders(dep: Stream)
    requires Fair(State(LevelOf(dep), {}))
    ensures OrderOn(StreamLess, Keys(dep.obq))
  {
    hide OrderOn, Ahead, Keys;
    var base := dep.descendantLastCycle;
    var l := LevelOf(dep);
    forall k | k in Keys(dep.obq) ensures Ahead(base, k.cycle) <= MAX_CYCLE_DISTANCE {
      var i :| 0 <= i < |dep.obq| && Keys(dep.obq)[i] == k;
      assert dep.obq[i] in l.queue && l.queue[dep.obq[i]].cycle == k.cycle;
    }
    CloseIsOrdered(base, Keys(dep.obq));
  }

  /** A stream whose next penalty stays within the maximum distance. */
  ghost predicate Modest(x: Stream)
    reads x`weight, x`lastWritelen, x`pendingPenalty
  {
    1 <= x.weight <= 256 && x.lastWritelen <= MAX_FRAME && x.pendingPenalty <= 255
  }

  /** The queues hold only streams of the tree. */
  ghost predicate Closed(nodes: set<Stream>)
    reads nodes`obq
  {
    forall p, i :: p in nodes && 0 <= i < |p.obq| ==> p.obq[i] in nodes
  }

  /** The levels of all streams. */
  ghost function Levels(nodes: set<Stream>): (lv: map<Stream, Level<Stream>>)
    requires Closed(nodes)
    reads nodes`obq, nodes`descendantLastCycle, nodes`descendantNextSeq, nodes`cycle, nodes`seqNo, nodes`weight,
          nodes`pendingPenalty
    ensures lv.Keys == nodes
  {
    map p | p in nodes :: LevelOf(p)
  }

  /** Levels that differ at most at `dep`. */
  lemma LevelsAre(nodes: set<Stream>, lv: map<Stream, Level<Stream>>, dep: Stream)
    requires Closed(nodes) && lv.Keys == nodes && dep in nodes
    requires forall p :: p in nodes && p != dep ==> LevelOf(p) == lv[p]
    ensures Levels(nodes) == lv[dep := LevelOf(dep)]
  {
    hide LevelOf;
  }

  lemma LevelAt(nodes: set<Stream>)
    requires Closed(nodes)
    ensures forall p :: p in nodes ==> Levels(nodes)[p] == LevelOf(p)
  {}

  lemma QueuesClosed(nodes: set<Stream>, home: Home)
    requires QueuesHold(nodes, home)
    ensures Closed(nodes)
  {}

  /** Every queue is in order and every stream fit to be queued. */
  ghost predicate Timely(nodes: set<Stream>)
    reads nodes`obq, nodes`descendantLastCycle, nodes`descendantNextSeq, nodes`cycle, nodes`seqNo, nodes`weight,
          nodes`pendingPenalty, nodes`lastWritelen
  {
    && Closed(nodes)
    && (forall p :: p in nodes ==> InOrder(p) && Modest(p))
  }

  /** A stream occurs in no queue but the one it is in. */
  lemma OnlyAt(nodes: set<Stream>, home: Home, dep: Stream, s: Stream)
    requires QueuesHold(nodes, home) && dep in nodes && (s in home ==> home[s] == dep)
    ensures forall p, i :: p in nodes && p != dep && 0 <= i < |p.obq| ==> p.obq[i] != s
    ensures s !in home ==> s !in dep.obq
    ensures s in home ==> s in dep.obq && multiset(dep.obq)[s] <= 1
  {
    hide Indexed;
    forall p | p in nodes ensures Holds(p.obq, home, p) { QueueFacts(home, p); }
    QueueFacts(home, dep);
    Once(dep.obq, s);
  }

  lemma TimelyFrom(nodes: set<Stream>, home: Home)
    requires QueuesHold(nodes, home) && forall p :: p in nodes ==> InOrder(p) && Modest(p)
    ensures Timely(nodes)
  {}

  lemma EmptyInOrder(p: Stream)
    requires p.obq == []
    ensures InOrder(p)
  {}

  lemma Began(dep: Stream)
    requires InOrder(dep)
    ensures Fair(State(LevelOf(dep), {})) && HeapOrdered(dep, StreamLess)
    ensures forall x :: x in LevelOf(dep).queue ==> x in dep.obq
  {
    hide Fair, OrderOn, Heap, Keys;
    FairOrders(dep);
  }

  lemma LevelIs(dep: Stream)
    ensures var l := LevelOf(dep);
            l.queue == Entries(dep.obq) && l.base == dep.descendantLastCycle && l.nextSeq == dep.descendantNextSeq
  {}

  lemma Ended(dep: Stream)
    requires Fair(State(LevelOf(dep), {})) && HeapOrdered(dep, StreamLess)
    ensures InOrder(dep)
  {}

  lemma Extended(l: Level<Stream>, q: seq<Stream>, dep: Stream, s: Stream, w: int, n: nat, p: Word)
    requires w > 0 && multiset(dep.obq) == multiset(q) + multiset{s} && s !in q
    requires l.queue == Entries(q) && l.base == dep.descendantLastCycle
    requires dep.descendantNextSeq == (l.nextSeq + 1) % SEQ_WRAP && EntryOf(s) == Scheduled(l.base, l.nextSeq, w, n, p)
    ensures LevelOf(dep) == Arrived(l, s, w, n, p)
  {
    hide Scheduled;
    assert forall x :: x in dep.obq <==> x in multiset(dep.obq);
    assert forall x :: x in q <==> x in multiset(q);
    assert Entries(dep.obq) == l.queue[s := EntryOf(s)];
  }

  lemma Shrunk(l: Level<Stream>, q: seq<Stream>, dep: Stream, s: Stream)
    requires multiset(dep.obq) == multiset(q) - multiset{s} && multiset(q)[s] <= 1
    requires forall x :: x in l.queue <==> x in q
    requires forall i :: 0 <= i < |q| && q[i] != s ==> l.queue[q[i]] == EntryOf(q[i])
    ensures Entries(dep.obq) == l.queue - {s}
  {
    hide EntryOf;
    assert forall x :: x in dep.obq <==> x in multiset(dep.obq);
    assert forall x :: x in q <==> x in multiset(q);
    forall x: Stream ensures x in Entries(dep.obq) <==> x in l.queue - {s} {
      assert x in dep.obq <==> x in q && x != s;
    }
  }

  // ---------------------------------------------------------------- arrivals

  /** `stream_next_cycle` and `nghttp2_pq_push`. */
  method Return(ghost nodes: set<Stream>, ghost home: Home, dep: Stream, s: Stream)
    requires QueuesHold(nodes, home) && dep in nodes && s in nodes && s !in home && s !in dep.obq && s.weight > 0
    modifies dep`obq, dep.obq`index, s`index, s`cycle, s`pendingPenalty, s`seqNo, dep`descendantNextSeq
    ensures QueuesHold(nodes, home[s := dep]) && s.pendingPenalty < s.weight
    ensures LevelOf(dep) == Arrived(old(LevelOf(dep)), s, s.weight, s.lastWritelen, old(s.pendingPenalty))
    ensures old(HeapOrdered(dep, StreamLess)) && Fair(State(LevelOf(dep), {})) ==> InOrder(dep)
  {
    hide OrderOn, HeapOrdered, Keys, CycleAfter, PendingAfter, LevelOf, Entries, QueuesHold, Arrived, Fair, InOrder;
    ghost var l, q, p := LevelOf(dep), dep.obq, s.pendingPenalty;
    LevelIs(dep);
    Stamp(dep, s);
    assert HeapOrdered(dep, StreamLess) == old(HeapOrdered(dep, StreamLess));
    Insert(nodes, home, dep, s);
    Extended(l, q, dep, s, s.weight, s.lastWritelen, p);
    HeapIs(dep);
  }

  lemma HeapIs(dep: Stream)
    ensures Fair(State(LevelOf(dep), {})) ==> OrderOn(StreamLess, Keys(dep.obq))
    ensures Fair(State(LevelOf(dep), {})) && HeapOrdered(dep, StreamLess) ==> InOrder(dep)
  {
    hide OrderOn, Keys, Fair;
    if Fair(State(LevelOf(dep), {})) { FairOrders(dep); }
  }

  lemma ArrivedFair(l: Level<Stream>, s: Stream, p: Word)
    requires Fair(State(l, {})) && s !in l.queue && 1 <= s.weight <= 256 && s.lastWritelen <= MAX_FRAME && p <= 255
    ensures Fair(State(Arrived(l, s, s.weight, s.lastWritelen, p), {}))
  {
    hide Arrived, Fair;
    StepFair(State(l, {}), Arrive(s, s.weight, s.lastWritelen, p));
  }

  /** `Return` with the flag. */
  method Join(ghost nodes: set<Stream>, ghost home: Home, dep: Stream, s: Stream)
    requires Queues(nodes, home) && dep in nodes && s in nodes && s !in home && s !in dep.obq && s.weight > 0
    modifies dep`obq, dep.obq`index, s`index, s`queued, s`cycle, s`pendingPenalty, s`seqNo, dep`descendantNextSeq
    ensures Queues(nodes, home[s := dep]) && s.pendingPenalty < s.weight
    ensures LevelOf(dep) == Arrived(old(LevelOf(dep)), s, s.weight, s.lastWritelen, old(s.pendingPenalty))
    ensures old(InOrder(dep) && Modest(s)) ==> InOrder(dep)
  {
    hide InOrder, HeapOrdered, LevelOf, Queues, QueuesHold, Arrived, Fair;
    FlagsOf(nodes, home);
    if InOrder(dep) && Modest(s) {
      Began(dep);
      ArrivedFair(LevelOf(dep), s, s.pendingPenalty);
    }
    Return(nodes, home, dep, s);
    SetFlag(nodes, home[s := dep], s, true);
  }

  /** One round of `stream_obq_push`: an arrival at `dep`; the other queues are as they were. */
  method Enter(ghost nodes: set<Stream>, ghost home: Home, dep: Stream, s: Stream)
    requires Queues(nodes, home) && dep in nodes && s in nodes && s !in home && s.weight > 0
    modifies dep`obq, dep.obq`index, s`index, s`queued, s`cycle, s`pendingPenalty, s`seqNo, dep`descendantNextSeq
    ensures Queues(nodes, home[s := dep]) && Closed(nodes)
    ensures var lv := old(Levels(nodes));
            Levels(nodes) == lv[dep := Arrived(lv[dep], s, s.weight, s.lastWritelen, old(s.pendingPenalty))]
    ensures old(Timely(nodes)) ==> Timely(nodes)
  {
    hide InOrder, LevelOf, Levels, QueuesHold, Arrived;
    OnlyAt(nodes, home, dep, s);
    QueuesClosed(nodes, home);
    LevelAt(nodes);
    ghost var lv := Levels(nodes);
    Join(nodes, home, dep, s);
    QueuesClosed(nodes, home[s := dep]);
    LevelsAre(nodes, lv, dep);
    if old(Timely(nodes)) { TimelyFrom(nodes, home[s := dep]); }
  }

  // ---------------------------------------------------------------- departures

  lemma FewerFair(l: Level<Stream>, dep: Stream, s: Stream)
    requires Fair(State(l, {})) && LevelOf(dep) == l.(queue := l.queue - {s})
    ensures Fair(State(LevelOf(dep), {}))
  {
    hide LevelOf, EntryOk;
  }

  /** The cycles of the queue are within the maximum distance from zero. */
  ghost predicate NearZero(p: Stream)
    reads p`obq, p.obq`cycle
  {
    forall i :: 0 <= i < |p.obq| ==> p.obq[i].cycle <= MAX_CYCLE_DISTANCE
  }

  /** A queue whose base is set to zero. */
  lemma ZeroBase(l: Level<Stream>, s: Stream)
    requires Fair(State(l, {})) && LevelOf(s) == l.(base := 0) && Heap(StreamLess, Keys(s.obq))
    ensures InOrder(s) <==> NearZero(s)
  {
    hide Heap, StreamLess, Keys;
    LevelIs(s);
    var m := Entries(s.obq);
    assert forall i :: 0 <= i < |s.obq| ==> s.obq[i] in m && m[s.obq[i]].cycle == s.obq[i].cycle;
    assert forall x :: x in m ==> x in s.obq && (EntryOk(0, m[x]) <==> x.cycle <= MAX_CYCLE_DISTANCE);
  }

  /** `nghttp2_pq_remove`. */
  method Withdraw(ghost nodes: set<Stream>, ghost home: Home, dep: Stream, s: Stream)
    requires QueuesHold(nodes, home) && s in home && home[s] == dep && multiset(dep.obq)[s] <= 1
    modifies dep`obq, dep.obq`index
    ensures QueuesHold(nodes, home - {s})
    ensures forall i :: 0 <= i < |dep.obq| ==> dep.obq[i] != s && dep.obq[i] in old(dep.obq)
    ensures LevelOf(dep) == old(LevelOf(dep)).(queue := old(LevelOf(dep)).queue - {s})
    ensures old(InOrder(dep)) ==> InOrder(dep)
  {
    hide InOrder, HeapOrdered, LevelOf, Entries, QueuesHold, Fair, EntryOf;
    ghost var l, q, sorted := LevelOf(dep), dep.obq, InOrder(dep);
    LevelIs(dep);
    assert forall x :: x in l.queue <==> x in q;
    assert forall i :: 0 <= i < |q| ==> l.queue[q[i]] == EntryOf(q[i]);
    if sorted { Began(dep); }
    Take(nodes, home, dep, s);
    Shrunk(l, q, dep, s);
    LevelIs(dep);
    if sorted { FewerFair(l, dep, s); Ended(dep); }
  }

  /** `Withdraw` with the fields of the stream removed. */
  method Part(ghost nodes: set<Stream>, ghost home: Home, dep: Stream, s: Stream)
    requires Queues(nodes, home) && s in home && home[s] == dep && multiset(dep.obq)[s] <= 1 && s != dep
    modifies dep`obq, dep.obq`index, s`queued, s`cycle, s`pendingPenalty, s`descendantLastCycle, s`lastWritelen
    ensures Queues(nodes, home - {s})
    ensures LevelOf(dep) == old(LevelOf(dep)).(queue := old(LevelOf(dep)).queue - {s})
    ensures s.cycle == 0 && s.pendingPenalty == 0 && s.descendantLastCycle == 0 && s.lastWritelen == 0
    ensures old(InOrder(dep)) ==> InOrder(dep)
  {
    hide InOrder, LevelOf, Queues, QueuesHold;
    FlagsOf(nodes, home);
    Withdraw(nodes, home, dep, s);
    SetFlag(nodes, home - {s}, s, false);
    Forget(s);
  }

  /** The level of a stream that was at `l`; one that left its queue starts anew. */
  function Restarted(l: Level<Stream>, gone: bool): Level<Stream>
  {
    if gone then l.(base := 0) else l
  }

  /** The same after `x` left. */
  function Without(l: Level<Stream>, x: Stream, gone: bool): Level<Stream>
  {
    Restarted(l.(queue := l.queue - {x}), gone)
  }

  lemma LevelsAreTwo(nodes: set<Stream>, lv: map<Stream, Level<Stream>>, dep: Stream, s: Stream)
    requires Closed(nodes) && lv.Keys == nodes && dep in nodes && s in nodes && s != dep
    requires forall p :: p in nodes && p != dep && p != s ==> LevelOf(p) == lv[p]
    ensures Levels(nodes) == lv[dep := LevelOf(dep)][s := LevelOf(s)]
  {
    hide LevelOf;
  }

  /** `Part` as it concerns the queue of `s`, whose base is forgotten. */
  method Depart(ghost nodes: set<Stream>, ghost home: Home, dep: Stream, s: Stream)
    requires Queues(nodes, home) && s in home && home[s] == dep && multiset(dep.obq)[s] <= 1 && s != dep
    requires forall i :: 0 <= i < |s.obq| ==> s.obq[i] != s
    modifies dep`obq, dep.obq`index, s`queued, s`cycle, s`pendingPenalty, s`descendantLastCycle, s`lastWritelen
    ensures Queues(nodes, home - {s})
    ensures LevelOf(dep) == Without(old(LevelOf(dep)), s, false) && LevelOf(s) == Restarted(old(LevelOf(s)), true)
    ensures s.cycle == 0 && s.pendingPenalty == 0 && s.descendantLastCycle == 0 && s.lastWritelen == 0
    ensures old(InOrder(dep)) ==> InOrder(dep)
    ensures old(InOrder(s)) ==> (InOrder(s) <==> old(NearZero(s)))
  {
    hide InOrder, Keys, LevelOf, Entries, Queues, Fair, Heap, NearZero;
    ghost var m, ordered := LevelOf(s), InOrder(s);
    LevelIs(s);
    if ordered { Sorted(s); }
    Part(nodes, home, dep, s);
    LevelIs(s);
    if ordered { ZeroBase(m, s); }
  }

  /** One round of `stream_obq_remove`: `s` leaves the queue of `dep` and forgets its own base. */
  method Exit(ghost nodes: set<Stream>, ghost home: Home, dep: Stream, s: Stream)
    requires Queues(nodes, home) && s in home && home[s] == dep && s in nodes && dep in nodes && s != dep
    modifies dep`obq, dep.obq`index, s`queued, s`cycle, s`pendingPenalty, s`descendantLastCycle, s`lastWritelen
    ensures Queues(nodes, home - {s}) && Closed(nodes)
    ensures var lv := old(Levels(nodes));
            Levels(nodes) == lv[dep := Without(lv[dep], s, false)][s := Restarted(lv[s], true)]
    ensures s.cycle == 0 && s.pendingPenalty == 0 && s.descendantLastCycle == 0 && s.lastWritelen == 0
    ensures forall p :: p in nodes && p != s && old(InOrder(p)) ==> InOrder(p)
    ensures forall p :: p in nodes && p != s && p != dep && InOrder(p) ==> old(InOrder(p))
    ensures old(InOrder(s)) ==> (InOrder(s) <==> old(NearZero(s)))
  {
    hide InOrder, LevelOf, Levels, QueuesHold, NearZero, Without, Restarted;
    OnlyAt(nodes, home, dep, s);
    QueuesClosed(nodes, home);
    LevelAt(nodes);
    ghost var lv := Levels(nodes);
    Depart(nodes, home, dep, s);
    QueuesClosed(nodes, home - {s});
    LevelsAreTwo(nodes, lv, dep, s);
  }

  lemma Sorted(p: Stream)
    requires InOrder(p)
    ensures Fair(State(LevelOf(p), {})) && Heap(StreamLess, Keys(p.obq))
  {}

  /** The first step of `stream_obq_move`: `s` leaves the queue of `dep` and keeps its virtual time. */
  method Unqueue(ghost nodes: set<Stream>, ghost home: Home, dep: Stream, s: Stream)
    requires Queues(nodes, home) && s in home && home[s] == dep && s in nodes && dep in nodes
    modifies dep`obq, dep.obq`index, s`queued
    ensures Queues(nodes, home - {s}) && Closed(nodes)
    ensures var lv := old(Levels(nodes)); Levels(nodes) == lv[dep := Without(lv[dep], s, false)]
    ensures old(Timely(nodes)) ==> Timely(nodes)
  {
    hide InOrder, LevelOf, Levels, QueuesHold, Queues;
    FlagsOf(nodes, home);
    OnlyAt(nodes, home, dep, s);
    QueuesClosed(nodes, home);
    LevelAt(nodes);
    ghost var lv := Levels(nodes);
    Withdraw(nodes, home, dep, s);
    QueuesClosed(nodes, home - {s});
    LevelsAre(nodes, lv, dep);
    if old(Timely(nodes)) { TimelyFrom(nodes, home - {s}); }
    SetFlag(nodes, home - {s}, s, false);
  }

  // ---------------------------------------------------------------- the stream picked last

  /** Putting back the stream at the base keeps the cycles together. */
  lemma SendingFair(l: Level<Stream>, dep: Stream, s: Stream)
    requires Fair(State(l, {})) && l == LevelOf(dep) && s in dep.obq && s.cycle == dep.descendantLastCycle
    requires s.lastWritelen <= MAX_FRAME
    ensures var m := l.(queue := l.queue - {s});
            s.weight > 0 && Fair(State(Arrived(m, s, s.weight, s.lastWritelen, s.pendingPenalty), {}))
  {
    hide Ahead, CycleAfter, PendingAfter;
    assert s in l.queue && l.queue[s] == EntryOf(s);
    StepFair(State(l, {s}), Sent(s, s.lastWritelen));
    ArrivedAgain(l, s, s.weight, s.lastWritelen, s.pendingPenalty);
  }

  lemma ArrivedAgain(l: Level<Stream>, s: Stream, w: int, n: nat, p: Word)
    requires w > 0
    ensures Arrived(l.(queue := l.queue - {s}), s, w, n, p) == Arrived(l, s, w, n, p)
  {
    hide Scheduled;
  }

  lemma EntryIs(dep: Stream, s: Stream)
    requires s in dep.obq
    ensures s in LevelOf(dep).queue && LevelOf(dep).queue[s] == EntryOf(s)
  {}

  /** Out of the queue and back with a new cycle: a sending, in order if `s` was at the base. */
  method Resend(ghost nodes: set<Stream>, ghost home: Home, dep: Stream, s: Stream)
    requires QueuesHold(nodes, home) && s in home && home[s] == dep && s in nodes && dep in nodes && s.weight > 0
    requires s in dep.obq && multiset(dep.obq)[s] <= 1
    modifies dep`obq, dep.obq`index, s`cycle, s`pendingPenalty, s`seqNo, dep`descendantNextSeq
    ensures QueuesHold(nodes, home) && s.pendingPenalty < s.weight
    ensures LevelOf(dep) == Arrived(old(LevelOf(dep)), s, s.weight, s.lastWritelen, old(s.pendingPenalty))
    ensures old(InOrder(dep) && s.cycle == dep.descendantLastCycle && Modest(s)) ==> InOrder(dep)
  {
    hide InOrder, HeapOrdered, LevelOf, QueuesHold, Arrived, Fair;
    ghost var l, sorted := LevelOf(dep), InOrder(dep) && s.cycle == dep.descendantLastCycle && Modest(s);
    if sorted {
      Began(dep);
      SendingFair(l, dep, s);
    }
    ArrivedAgain(l, s, s.weight, s.lastWritelen, s.pendingPenalty);
    Withdraw(nodes, home, dep, s);
    if sorted { Began(dep); }
    Return(nodes, home - {s}, dep, s);
    assert (home - {s})[s := dep] == home;
  }

  /** One round of `nghttp2_stream_reschedule`. */
  method Again(ghost nodes: set<Stream>, ghost home: Home, dep: Stream, s: Stream)
    requires QueuesHold(nodes, home) && s in home && home[s] == dep && s in nodes && dep in nodes && s.weight > 0
    requires s != dep
    modifies dep`obq, dep.obq`index, s`cycle, s`pendingPenalty, s`seqNo, dep`descendantNextSeq, dep`lastWritelen
    ensures QueuesHold(nodes, home) && Closed(nodes) && dep.lastWritelen == s.lastWritelen
    ensures var lv := old(Levels(nodes));
            && s in lv[dep].queue && lv[dep].queue[s].weight > 0
            && Levels(nodes) == lv[dep := Rescheduled(lv[dep], s, s.lastWritelen)]
    ensures old(Timely(nodes) && s.cycle == dep.descendantLastCycle) ==> Timely(nodes)
  {
    hide InOrder, LevelOf, Levels, QueuesHold, Arrived;
    OnlyAt(nodes, home, dep, s);
    EntryIs(dep, s);
    QueuesClosed(nodes, home);
    LevelAt(nodes);
    ghost var lv := Levels(nodes);
    Resend(nodes, home, dep, s);
    dep.lastWritelen := s.lastWritelen;
    QueuesClosed(nodes, home);
    LevelsAre(nodes, lv, dep);
    if old(Timely(nodes) && s.cycle == dep.descendantLastCycle) { TimelyFrom(nodes, home); }
  }

  // ---------------------------------------------------------------- picking

  /** The top of a queue in order is a minimum. */
  lemma TopIsFirst(dep: Stream)
    requires InOrder(dep) && dep.obq != []
    ensures First(LevelOf(dep), dep.obq[0])
  {
    hide Heap, OrderOn, Keys, StreamLess, Fair, EntryOk;
    var l, q := LevelOf(dep), dep.obq;
    FairOrders(dep);
    forall x | x in l.queue ensures !StreamLess(l.queue[x].Key(), l.queue[q[0]].Key()) {
      var j :| 0 <= j < |q| && q[j] == x;
      TopIsMinimum(StreamLess, Keys(q), j);
    }
  }

  method Rebase(dep: Stream, s: Stream)
    modifies dep`descendantLastCycle
    ensures dep.descendantLastCycle == s.cycle && LevelOf(dep) == old(LevelOf(dep)).(base := s.cycle)
    ensures old(InOrder(dep)) && dep.obq != [] && dep.obq[0] == s ==> InOrder(dep)
  {
    hide InOrder, LevelOf, Entries, Heap, Keys, Fair, First;
    ghost var l, picked := LevelOf(dep), InOrder(dep) && dep.obq != [] && dep.obq[0] == s;
    LevelIs(dep);
    if picked {
      Sorted(dep);
      TopIsFirst(dep);
      StepFair(State(l, {}), Pick(s));
      EntryIs(dep, s);
    }
    dep.descendantLastCycle := s.cycle;
    LevelIs(dep);
    if picked { PickedInOrder(l, dep, s); }
  }

  /** One round of the update in `nghttp2_stream_next_outbound_item`: a pick. */
  method SetBase(ghost nodes: set<Stream>, dep: Stream, s: Stream)
    requires dep in nodes && s in nodes && Closed(nodes)
    modifies dep`descendantLastCycle
    ensures Closed(nodes) && dep.descendantLastCycle == s.cycle
    ensures var lv := old(Levels(nodes)); Levels(nodes) == lv[dep := lv[dep].(base := s.cycle)]
    ensures old(Timely(nodes)) && dep.obq != [] && dep.obq[0] == s ==> Timely(nodes)
  {
    hide InOrder, LevelOf, Levels;
    LevelAt(nodes);
    ghost var lv := Levels(nodes);
    Rebase(dep, s);
    LevelsAre(nodes, lv, dep);
  }

  lemma PickedInOrder(l: Level<Stream>, dep: Stream, s: Stream)
    requires First(l, s) && Fair(After(State(l, {}), Pick(s))) && LevelOf(dep) == l.(base := l.queue[s].cycle)
    requires Heap(StreamLess, Keys(dep.obq))
    ensures InOrder(dep)
  {
    hide Heap, Keys, EntryOk, First;
  }

  /** An instance: a level in order that is not when its base is forgotten. */
  lemma RestartFails(x: Stream, l: Level<Stream>)
    requires l.base == MAX_CYCLE_DISTANCE + 1
    requires l.queue.Keys == {x} && l.queue[x] == Entry(MAX_CYCLE_DISTANCE + 1, 0, 16, 0)
    ensures Fair(State(l, {})) && !Fair(State(Restarted(l, true), {}))
  {
    assert x in l.queue;
  }

  // ---------------------------------------------------------------- weights

  /** The entries of the queue one by one. */
  lemma OrderByEntry(p: Stream)
    ensures InOrder(p) <==>
            && (forall i :: 0 <= i < |p.obq| ==> EntryOk(p.descendantLastCycle, EntryOf(p.obq[i])))
            && Heap(StreamLess, Keys(p.obq))
  {
    hide Heap, Keys, EntryOk, EntryOf;
    LevelIs(p);
    var m := Entries(p.obq);
    assert forall i :: 0 <= i < |p.obq| ==> p.obq[i] in m && m[p.obq[i]] == EntryOf(p.obq[i]);
  }

  /** Another weight leaves the queues in order: the order is on cycles alone. */
  method Reweigh(ghost nodes: set<Stream>, x: Stream, weight: int)
    requires x in nodes && 1 <= weight <= 256
    modifies x`weight
    ensures x.weight == weight && (old(Timely(nodes)) ==> Timely(nodes))
  {
    hide InOrder, Heap, Keys, Ahead;
    ghost var timely := Timely(nodes);
    if timely {
      forall p | p in nodes
        ensures (forall i :: 0 <= i < |p.obq| ==> EntryOk(p.descendantLastCycle, EntryOf(p.obq[i])))
        ensures Heap(StreamLess, Keys(p.obq)) {
        OrderByEntry(p);
      }
    }
    x.weight := weight;
    if timely {
      forall p | p in nodes ensures InOrder(p) { OrderByEntry(p); }
    }
  }
}
