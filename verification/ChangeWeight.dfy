/** `nghttp2_stream_change_weight` and `nghttp2_stream_dep_find_ancestor`. */
module ChangeWeight {
  import opened HeapOrder
  import opened StreamQueue
  import opened Forest
  import opened QueueState
  import opened StreamLinks
  import opened Fairness
  import opened FairQueue
  import opened ObqLoops
  import opened PriorityTree
  import opened Cycles

  /** The final correction: a cycle that fell behind the base is moved up to it. */
  function Clamped(c: Word, base: Word): Word
  {
    if c < base && base - c <= MAX_CYCLE_DISTANCE then base else c
  }

  /** A cycle that fell behind the base is brought back into range exactly if no wrap-around lies between them. */
  lemma ClampIff(c: Word, base: Word)
    requires 0 < Ahead(c, base) <= MAX_CYCLE_DISTANCE
    ensures Ahead(base, Clamped(c, base)) <= MAX_CYCLE_DISTANCE <==> c < base
  {
    assert Ahead(base, base) == 0;
  }

  /** An instance: scheduled shortly before the wrap-around under weight 1, in range of a base just after it; under
      weight 256 it is out of range. */
  lemma ClampMissesWrap(last: Word, base: Word)
    requires last == WRAP - 100 && base == 10
    ensures Ahead(base, CycleAfter(last, 1, 0, 1)) <= MAX_CYCLE_DISTANCE
    ensures Ahead(base, Clamped(CycleAfter(last, 1, 0, 256), base)) > MAX_CYCLE_DISTANCE
  {
    assert Penalty(1, 0) == 256;
    assert CycleAfter(last, 1, 0, 256) == last + 1;
    ClampIff(last + 1, base);
  }

  ghost function Reweighted(t: Tree, s: Stream, weight: int): Tree
  {
    t.(wt := t.wt[s := weight])
  }

  /** The computation on the fields of a queued stream, `weight` being the old weight. */
  method Recompute(dep: Stream, s: Stream, before: int)
    requires 1 <= before <= 256 && 1 <= s.weight <= 256
    modifies s`cycle, s`pendingPenalty
    ensures var p := UndonePending(s.lastWritelen, old(s.pendingPenalty), before);
            var l := UndoneBase(old(s.cycle), s.lastWritelen, p, before);
            && s.pendingPenalty == PendingAfter(s.lastWritelen, p, s.weight)
            && s.cycle == Clamped(CycleAfter(l, s.lastWritelen, p, s.weight), dep.descendantLastCycle)
  {
    hide CycleAfter, PendingAfter, UndonePending, UndoneBase;
    s.pendingPenalty := UndonePending(s.lastWritelen, s.pendingPenalty, before);
    var last := UndoneBase(s.cycle, s.lastWritelen, s.pendingPenalty, before);
    NextCycle(s, last);
    if s.cycle < dep.descendantLastCycle && dep.descendantLastCycle - s.cycle <= MAX_CYCLE_DISTANCE {
      s.cycle := dep.descendantLastCycle;
    }
  }

  /** The sum of a list in which `s` changes its weight. */
  lemma {:induction false} SumChanged(wt: map<Stream, int>, ks: seq<Stream>, s: Stream, weight: int)
    requires s in wt && Distinct(ks) && forall x :: x in ks ==> x in wt
    ensures SumOf(wt[s := weight], ks) == SumOf(wt, ks) + if s in ks then weight - wt[s] else 0
  {
    if ks != [] {
      var r := ks[..|ks| - 1];
      assert ks == r + [ks[|ks| - 1]];
      SumChanged(wt, r, s, weight);
      assert ks[|ks| - 1] == s ==> s !in r;
    }
  }

  lemma ReweightedShape(t: Tree, s: Stream, weight: int)
    requires WellFormed(t) && s in t.nodes && 1 <= weight <= 256
    ensures WellFormed(Reweighted(t, s, weight)) && Reweighted(t, s, weight).nodes == t.nodes
  {
    hide Ranked;
    assert Ranked(t) ==> Ranked(Reweighted(t, s, weight)) by { SameRanks(t, s, weight); }
  }

  lemma SameRanks(t: Tree, s: Stream, weight: int)
    ensures Ranked(t) ==> Ranked(Reweighted(t, s, weight))
  {}

  lemma ReweightedSum(t: Tree, s: Stream, weight: int, x: Stream)
    requires WellFormed(t) && s in t.nodes && x in t.nodes && 1 <= weight <= 256
    ensures forall k :: k in t.kids[x] ==> k in t.wt
    ensures SumOf(t.wt[s := weight], t.kids[x]) ==
            SumOf(t.wt, t.kids[x]) + if s in t.par && t.par[s] == x then weight - t.wt[s] else 0
  {
    hide Ranked, SumOf;
    KidsWeighed(t, x);
    SumChanged(t.wt, t.kids[x], s, weight);
  }

  /** The new weight and the sum of the parent. */
  method SetWeight(ghost t: Tree, s: Stream, weight: int)
    requires TreeValid(t) && s in t.nodes && 1 <= weight <= 256
    requires s.depPrev == ParentOf(t, s) && (s in t.par ==> t.par[s] in t.nodes)
    modifies s`weight, t.nodes`sumDepWeight
    ensures TreeValid(Reweighted(t, s, weight)) && s.weight == weight
    ensures old(Timely(t.nodes)) ==> Timely(t.nodes)
  {
    hide Ranked, ListedUp, ListedDown, ListedOnce, WeightsInRange, Linked, SumOf, Timely, Weighted;
    ReweightedShape(t, s, weight);
    LinkedSame(t, s, weight);
    WeightsAre(t);
    var before := s.weight;
    Reweigh(t.nodes, s, weight);
    if s.depPrev != null {
      var sum := s.depPrev.sumDepWeight + (weight - before);
      s.depPrev.sumDepWeight := sum;
    }
    ReweightedWeighs(t, s, weight);
  }

  lemma ReweightedWeighs(t: Tree, s: Stream, weight: int)
    requires WellFormed(t) && s in t.nodes && 1 <= weight <= 256 && WellFormed(Reweighted(t, s, weight))
    requires forall x, k :: x in t.nodes && k in t.kids[x] ==> k in t.wt
    requires forall x :: x in t.nodes ==> x.weight == if x == s then weight else t.wt[x]
    requires forall x :: x in t.nodes ==>
               x.sumDepWeight == SumOf(t.wt, t.kids[x]) + if s in t.par && t.par[s] == x then weight - t.wt[s] else 0
    ensures Weighted(Reweighted(t, s, weight))
  {
    hide Ranked, ListedUp, ListedDown, ListedOnce, SumOf;
    forall x | x in t.nodes ensures Weighs(Reweighted(t, s, weight), x) { ReweightedSum(t, s, weight, x); }
  }

  lemma WeightsAre(t: Tree)
    requires TreeValid(t)
    ensures forall x, k :: x in t.nodes && k in t.kids[x] ==> k in t.wt
    ensures forall x :: x in t.nodes ==> x.weight == t.wt[x] && x.sumDepWeight == SumOf(t.wt, t.kids[x])
  {
    hide Ranked, ListedUp, ListedDown, ListedOnce, Linked, SumOf;
    forall x | x in t.nodes
      ensures (forall k :: k in t.kids[x] ==> k in t.wt) && x.weight == t.wt[x] && x.sumDepWeight == SumOf(t.wt, t.kids[x]) {
      KidsWeighed(t, x);
      assert Weighs(t, x);
    }
  }

  lemma LinkedSame(t: Tree, s: Stream, weight: int)
    requires Linked(t)
    ensures Linked(Reweighted(t, s, weight))
  {}

  /** The queued part: out of the queue, new cycle, back in with the same sequence number. */
  method RequeueChanged(ghost nodes: set<Stream>, ghost home: Home, dep: Stream, s: Stream, before: int)
    requires QueuesHold(nodes, home) && s in home && home[s] == dep && s in nodes && dep in nodes
    requires 1 <= before <= 256 && 1 <= s.weight <= 256
    modifies nodes`obq, nodes`index, s`cycle, s`pendingPenalty
    ensures QueuesHold(nodes, home)
    ensures var p := UndonePending(s.lastWritelen, old(s.pendingPenalty), before);
            var l := UndoneBase(old(s.cycle), s.lastWritelen, p, before);
            && s.pendingPenalty == PendingAfter(s.lastWritelen, p, s.weight)
            && s.cycle == Clamped(CycleAfter(l, s.lastWritelen, p, s.weight), dep.descendantLastCycle)
    ensures Reissued(old(s.cycle), old(s.pendingPenalty), s.cycle, s.pendingPenalty, s.lastWritelen, before, s.weight,
                     dep.descendantLastCycle)
    ensures old(Timely(nodes)) ==> (Timely(nodes) <==> Ahead(dep.descendantLastCycle, s.cycle) <= MAX_CYCLE_DISTANCE)
  {
    hide QueuesHold, CycleAfter, PendingAfter, UndonePending, UndoneBase, Clamped, InOrder, LevelOf, HeapOrdered,
      Fair, Ahead, Reissued;
    OnlyAt(nodes, home, dep, s);
    QueuesClosed(nodes, home);
    Withdraw(nodes, home, dep, s);
    ghost var timely := old(Timely(nodes));
    ghost var cycle, pending := s.cycle, s.pendingPenalty;
    Recompute(dep, s, before);
    IsReissued(cycle, pending, s.cycle, s.pendingPenalty, s.lastWritelen, before, s.weight, dep.descendantLastCycle);
    PutBack(nodes, home, dep, s);
    if timely {
      assert forall p :: p in nodes && p != dep ==> InOrder(p);
      InOrderAll(nodes, home, dep);
    }
  }

  /** `nghttp2_pq_push` of a stream with a new cycle. */
  method PutBack(ghost nodes: set<Stream>, ghost home: Home, dep: Stream, s: Stream)
    requires s in home && home[s] == dep && s in nodes && dep in nodes && QueuesHold(nodes, home - {s}) && s !in dep.obq
    modifies dep`obq, dep.obq`index, s`index
    ensures QueuesHold(nodes, home)
    ensures old(InOrder(dep)) && 1 <= s.weight <= 256 && s.pendingPenalty <= 255 ==>
              (InOrder(dep) <==> Ahead(dep.descendantLastCycle, s.cycle) <= MAX_CYCLE_DISTANCE)
  {
    hide QueuesHold, InOrder, HeapOrdered, OrderOn, Keys, EntryOk, EntryOf;
    ghost var q, sorted := dep.obq, InOrder(dep);
    if sorted {
      OrderByEntry(dep);
      Began(dep);
    }
    Insert(nodes, home - {s}, dep, s);
    assert (home - {s})[s := dep] == home;
    if sorted {
      PutBackOrder(dep, q, s);
      EntryOkIs(dep, s);
    }
  }

  lemma EntryOkIs(dep: Stream, s: Stream)
    ensures EntryOk(dep.descendantLastCycle, EntryOf(s)) <==>
            && 1 <= s.weight <= 256 && s.pendingPenalty <= 255
            && Ahead(dep.descendantLastCycle, s.cycle) <= MAX_CYCLE_DISTANCE
  {}

  /** The queue is in order exactly if the entry put back is in range. */
  lemma PutBackOrder(dep: Stream, q: seq<Stream>, s: Stream)
    requires multiset(dep.obq) == multiset(q) + multiset{s}
    requires forall i :: 0 <= i < |q| ==> EntryOk(dep.descendantLastCycle, EntryOf(q[i]))
    requires OrderOn(StreamLess, Keys(dep.obq)) ==> HeapOrdered(dep, StreamLess)
    ensures InOrder(dep) <==> EntryOk(dep.descendantLastCycle, EntryOf(s))
  {
    hide InOrder, OrderOn, Keys, EntryOk, EntryOf;
    assert forall x :: x in dep.obq <==> x in multiset(dep.obq);
    assert forall x :: x in q <==> x in multiset(q);
    assert s in dep.obq;
    OrderByEntry(dep);
    if EntryOk(dep.descendantLastCycle, EntryOf(s)) {
      forall i | 0 <= i < |dep.obq| ensures EntryOk(dep.descendantLastCycle, EntryOf(dep.obq[i])) {
        assert dep.obq[i] in multiset(dep.obq);
      }
      EntriesFair(dep);
    }
  }

  lemma EntriesFair(dep: Stream)
    requires forall i :: 0 <= i < |dep.obq| ==> EntryOk(dep.descendantLastCycle, EntryOf(dep.obq[i]))
    ensures OrderOn(StreamLess, Keys(dep.obq))
  {
    hide OrderOn, Keys, EntryOk, EntryOf;
    LevelIs(dep);
    FairOrders(dep);
  }

  lemma InOrderAll(nodes: set<Stream>, home: Home, dep: Stream)
    requires QueuesHold(nodes, home) && dep in nodes && forall p :: p in nodes && p != dep ==> InOrder(p)
    requires forall p :: p in nodes ==> Modest(p)
    ensures Timely(nodes) <==> InOrder(dep)
  {
    hide InOrder, Modest;
    QueuesClosed(nodes, home);
  }

  /** A cycle and a pending penalty that come from scheduling from `last` with the carried penalty `p`. */
  ghost predicate CameFrom(cycle: Word, pending: Word, last: Word, writelen: nat, p: Word, weight: int)
    requires 1 <= weight <= 256
  {
    && p < weight && pending == (writelen * 256 % WRAP + p) % weight
    && cycle == (last + (writelen * 256 % WRAP + p) / weight) % WRAP
  }

  /** The cycle is the one scheduling from `last` gives, unless that is behind `base`, as numbers, by at most the
      maximum distance; then it is `base`. */
  ghost predicate Readjusted(cycle: Word, pending: Word, last: Word, writelen: nat, p: Word, weight: int, base: Word)
    requires 1 <= weight <= 256
  {
    var x := writelen * 256 % WRAP + p;
    var c := (last + x / weight) % WRAP;
    && pending == x % weight
    && (c < base && base - c <= MAX_CYCLE_DISTANCE ==> cycle == base)
    && (!(c < base && base - c <= MAX_CYCLE_DISTANCE) ==> cycle == c)
    && (Ahead(base, c) <= MAX_CYCLE_DISTANCE ==> cycle == c)
  }

  /** Wherever the stream was scheduled from, it is rescheduled from there. */
  ghost predicate Reissued(cycle: Word, pending: Word, cycle': Word, pending': Word, writelen: nat, before: int, weight: int,
                           base: Word)
    requires 1 <= before <= 256 && 1 <= weight <= 256
  {
    forall last: Word, p: Word :: CameFrom(cycle, pending, last, writelen, p, before) ==>
      Readjusted(cycle', pending', last, writelen, p, weight, base)
  }

  lemma IsReissued(cycle: Word, pending: Word, cycle': Word, pending': Word, writelen: nat, before: int, weight: int,
                   base: Word)
    requires 1 <= before <= 256 && 1 <= weight <= 256
    requires var p := UndonePending(writelen, pending, before);
             var l := UndoneBase(cycle, writelen, p, before);
             && pending' == PendingAfter(writelen, p, weight)
             && cycle' == Clamped(CycleAfter(l, writelen, p, weight), base)
    ensures Reissued(cycle, pending, cycle', pending', writelen, before, weight, base)
  {
    forall last: Word, p: Word | CameFrom(cycle, pending, last, writelen, p, before)
      ensures Readjusted(cycle', pending', last, writelen, p, weight, base) {
      ReissuedFrom(cycle, pending, cycle', pending', writelen, before, weight, base, last, p);
    }
  }

  lemma ReissuedFrom(cycle: Word, pending: Word, cycle': Word, pending': Word, writelen: nat, before: int, weight: int,
                     base: Word, last: Word, p: Word)
    requires 1 <= before <= 256 && 1 <= weight <= 256 && CameFrom(cycle, pending, last, writelen, p, before)
    requires var q := UndonePending(writelen, pending, before);
             var l := UndoneBase(cycle, writelen, q, before);
             && pending' == PendingAfter(writelen, q, weight)
             && cycle' == Clamped(CycleAfter(l, writelen, q, weight), base)
    ensures Readjusted(cycle', pending', last, writelen, p, weight, base)
  {
    hide UndonePending, UndoneBase;
    PenaltySplit(writelen, p);
    assert Penalty(writelen, 0) == writelen * 256 % WRAP;
    hide Penalty;
    assert cycle == CycleAfter(last, writelen, p, before) && pending == PendingAfter(writelen, p, before);
    ChangeIsUndoRedo(last, writelen, p, before);
  }

  /** `nghttp2_stream_change_weight`: the queues stay in order exactly if the new cycle is in range, which the
      correction misses where the base has wrapped around and the cycle has not. */
  method Change(ghost t: Tree, ghost home: Home, ghost act: set<Stream>, s: Stream, weight: int) returns (ghost u: Tree)
    requires TreeValid(t) && QueuesValid(t, home, act) && s in t.nodes && 1 <= weight <= 256
    modifies s`weight, t.nodes`sumDepWeight, t.nodes`obq, t.nodes`index, s`cycle, s`pendingPenalty
    ensures u == Reweighted(t, s, weight) && TreeValid(u) && QueuesValid(u, home, act)
    ensures s !in home || weight == t.wt[s] ==> s.cycle == old(s.cycle) && s.pendingPenalty == old(s.pendingPenalty)
    ensures s in home && weight != t.wt[s] ==>
              var p := UndonePending(s.lastWritelen, old(s.pendingPenalty), t.wt[s]);
              var l := UndoneBase(old(s.cycle), s.lastWritelen, p, t.wt[s]);
              && s.pendingPenalty == PendingAfter(s.lastWritelen, p, weight)
              && s.cycle == Clamped(CycleAfter(l, s.lastWritelen, p, weight), home[s].descendantLastCycle)
    ensures s in home && weight != t.wt[s] ==>
              1 <= t.wt[s] <= 256 && Reissued(old(s.cycle), old(s.pendingPenalty), s.cycle, s.pendingPenalty, s.lastWritelen,
                                              t.wt[s], weight, home[s].descendantLastCycle)
    ensures old(Timely(t.nodes)) ==>
              (Timely(t.nodes) <==>
               s !in home || weight == t.wt[s] || Ahead(home[s].descendantLastCycle, s.cycle) <= MAX_CYCLE_DISTANCE)
  {
    hide Ranked, Listed, Linked, Weighted, QueuesHold, Acts, CycleAfter, PendingAfter, UndonePending, UndoneBase,
      Clamped, SettledBut, Timely, Ahead, Reissued;
    u := Reweighted(t, s, weight);
    WeightIs(t, s);
    if s.weight == weight {
      assert t.wt[s := weight] == t.wt;
      return;
    }
    ParentIs(t, s);
    NearRoot(t, s);
    SettledSame(t, home, act, s, weight);
    var before := s.weight;
    SetWeight(t, s, weight);
    var dep := s.depPrev;
    if dep == null || !s.queued {
      return;
    }
    RequeueChanged(t.nodes, home, dep, s, before);
  }

  lemma SettledSame(t: Tree, home: Home, act: set<Stream>, s: Stream, weight: int)
    requires Balanced(t, home, act)
    ensures Balanced(Reweighted(t, s, weight), home, act)
  {}

  /** Before the final correction the new cycle is the one the stream would have got under the new weight. */
  lemma ChangedCycle(base: Word, writelen: nat, p: Word, before: int, weight: int)
    requires 1 <= before <= 256 && 1 <= weight <= 256 && p < before
    ensures var cycle, pending := CycleAfter(base, writelen, p, before), PendingAfter(writelen, p, before);
            var undone := UndonePending(writelen, pending, before);
            CycleAfter(UndoneBase(cycle, writelen, undone, before), writelen, undone, weight)
            == (base + (Penalty(writelen, 0) + p) / weight) % WRAP
  {
    hide Penalty, UndonePending, UndoneBase, PendingAfter;
    ChangeIsUndoRedo(base, writelen, p, before);
    PenaltySplit(writelen, p);
  }

  /** `nghttp2_stream_dep_find_ancestor`. */
  method FindAncestor(ghost t: Tree, s: Stream, target: Stream) returns (found: bool)
    requires TreeValid(t) && s in t.nodes
    ensures found <==> Ancestor(t, target, s)
  {
    hide Listed, Linked, Weighted;
    var x: Stream? := s;
    while x != null
      invariant x != null ==> x in t.nodes && (Ancestor(t, target, s) <==> Ancestor(t, target, x))
      invariant x == null ==> !Ancestor(t, target, s)
      decreases if x == null then 0 else 1 + t.rank[x]
    {
      if x == target {
        return true;
      }
      ParentIs(t, x);
      x := x.depPrev;
    }
    found := false;
  }
}
