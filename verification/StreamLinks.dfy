/** The queues of a set of streams as the fields hold them, and the one-level steps on them. */
module StreamLinks {
  import opened HeapOrder
  import opened StreamQueue
  import opened Forest
  import opened QueueState
  import opened Cycles

  /** The queue of `p` holds what `home` says, with right back-pointers. */
  ghost predicate QueueAt(p: Stream, home: Home)
    reads p`obq, p.obq`index
  {
    Indexed(p.obq) && Holds(p.obq, home, p)
  }

  ghost predicate Holds(q: seq<Stream>, home: Home, p: Stream)
  {
    && (forall i :: 0 <= i < |q| ==> q[i] in home && home[q[i]] == p)
    && (forall x :: x in home && home[x] == p ==> x in q)
  }

  ghost predicate Inside(nodes: set<Stream>, home: Home)
  {
    forall x :: x in home ==> x in nodes && home[x] in nodes
  }

  /** All queues do, and so do the `queued` flags. */
  ghost predicate Queues(nodes: set<Stream>, home: Home)
    reads nodes`obq, nodes`queued, nodes`index
  {
    QueuesHold(nodes, home) && forall x :: x in nodes ==> (x.queued <==> x in home)
  }

  lemma QueueIsIndexed(nodes: set<Stream>, home: Home, p: Stream)
    requires Queues(nodes, home) && p in nodes
    ensures QueueAt(p, home)
    ensures p.obq != [] <==> Busy(home, p)
  {
    if p.obq != [] { assert p.obq[0] in home && home[p.obq[0]] == p; }
  }

  /** `stream_next_cycle`. */
  method NextCycle(s: Stream, last: Word)
    requires s.weight > 0
    modifies s`cycle, s`pendingPenalty
    ensures s.cycle == CycleAfter(last, s.lastWritelen, old(s.pendingPenalty), s.weight)
    ensures s.pendingPenalty == PendingAfter(s.lastWritelen, old(s.pendingPenalty), s.weight)
  {
    hide Penalty;
    var penalty := Penalty(s.lastWritelen, s.pendingPenalty);
    s.cycle := (last + penalty / s.weight) % WRAP;
    s.pendingPenalty := penalty % s.weight;
  }

  lemma OneMore(home: Home, q: seq<Stream>, p: Stream, s: Stream)
    requires multiset(p.obq) == multiset(q) + multiset{s} && Indexed(p.obq) && s !in home
    requires Holds(q, home, p)
    ensures QueueAt(p, home[s := p])
  {
    var h := home[s := p];
    assert forall x :: x in p.obq <==> x in multiset(p.obq);
    assert forall x :: x in q <==> x in multiset(q);
    forall i | 0 <= i < |p.obq| ensures p.obq[i] in h && h[p.obq[i]] == p {
      assert p.obq[i] in multiset(p.obq);
      assert p.obq[i] in q || p.obq[i] == s;
    }
  }

  lemma OneLess(home: Home, q: seq<Stream>, p: Stream, s: Stream)
    requires multiset(p.obq) == multiset(q) - multiset{s} && Indexed(p.obq) && s in q && Distinct(q)
    requires Holds(q, home, p)
    ensures QueueAt(p, home - {s})
  {
    assert forall x :: x in p.obq <==> x in multiset(p.obq);
    assert forall x :: x in q <==> x in multiset(q);
    assert multiset(q)[s] <= 1 by { Once(q, s); }
    forall i | 0 <= i < |p.obq| ensures p.obq[i] in q && p.obq[i] != s {
      assert p.obq[i] in multiset(p.obq);
    }
  }

  lemma LessMembers(q: seq<Stream>, r: seq<Stream>, s: Stream)
    requires multiset(r) == multiset(q) - multiset{s} && Distinct(q)
    ensures forall i :: 0 <= i < |r| ==> r[i] != s && r[i] in q
  {
    Once(q, s);
    forall i | 0 <= i < |r| ensures r[i] != s && r[i] in q {
      assert r[i] in multiset(r);
    }
  }

  lemma {:induction false} Once(q: seq<Stream>, s: Stream)
    requires Distinct(q)
    ensures multiset(q)[s] <= 1
  {
    if q != [] {
      var r := q[..|q| - 1];
      assert q == r + [q[|q| - 1]];
      Once(r, s);
      assert s == q[|q| - 1] ==> s !in r;
    }
  }

  /** No other queue shares an entry with that of `dep`. */
  lemma Apart(nodes: set<Stream>, home: Home, dep: Stream, s: Stream, p: Stream)
    requires QueuesHold(nodes, home) && dep in nodes && p in nodes && p != dep && (s in home ==> home[s] == dep)
    ensures s !in p.obq && forall x :: x in p.obq ==> x !in dep.obq
  {
    assert QueueAt(p, home) && QueueAt(dep, home);
  }

  /** What holds of a queue does not depend on where `s` is while `s` is elsewhere. */
  lemma Elsewhere(home: Home, dep: Stream, s: Stream, p: Stream)
    requires QueueAt(p, home) && p != dep && (s in home ==> home[s] == dep)
    ensures QueueAt(p, home[s := dep]) && QueueAt(p, home - {s})
  {}

  lemma QueueFacts(home: Home, p: Stream)
    requires QueueAt(p, home)
    ensures Indexed(p.obq) && Holds(p.obq, home, p) && Distinct(p.obq)
    ensures forall x :: x in p.obq <==> x in home && home[x] == p
    ensures forall x :: x in p.obq ==> x.index < |p.obq| && p.obq[x.index] == x
  {}

  /** All but the flags. */
  ghost predicate QueuesHold(nodes: set<Stream>, home: Home)
    reads nodes`obq, nodes`index
  {
    && Inside(nodes, home)
    && (forall p, i :: p in nodes && 0 <= i < |p.obq| ==> p.obq[i] in nodes)
    && (forall p :: p in nodes ==> QueueAt(p, home))
  }

  lemma QueuesFrom(nodes: set<Stream>, home: Home)
    requires Inside(nodes, home) && forall p :: p in nodes ==> QueueAt(p, home)
    ensures QueuesHold(nodes, home)
  {
    forall p, i | p in nodes && 0 <= i < |p.obq| ensures p.obq[i] in nodes {
      assert QueueAt(p, home);
    }
  }

  /** The queue part of one round of `stream_obq_push`. */
  method Insert(ghost nodes: set<Stream>, ghost home: Home, dep: Stream, s: Stream)
    requires QueuesHold(nodes, home) && dep in nodes && s in nodes && s !in home
    modifies dep`obq, dep.obq`index, s`index
    ensures QueuesHold(nodes, home[s := dep])
    ensures multiset(dep.obq) == old(multiset(dep.obq)) + multiset{s}
    ensures OrderOn(StreamLess, Keys(dep.obq)) && old(HeapOrdered(dep, StreamLess)) ==> HeapOrdered(dep, StreamLess)
  {
    hide Keys, Heap, OrderOn, QueueAt, Indexed, Holds, Distinct;
    ghost var q := dep.obq;
    QueueFacts(home, dep);
    forall p | p in nodes && p != dep ensures s !in p.obq && forall x :: x in p.obq ==> x !in dep.obq {
      Apart(nodes, home, dep, s, p);
    }
    Push(dep, s, StreamLess);
    OneMore(home, q, dep, s);
    forall p | p in nodes && p != dep ensures QueueAt(p, home[s := dep]) {
      assert QueueAt(p, home);
      Elsewhere(home, dep, s, p);
    }
    QueuesFrom(nodes, home[s := dep]);
  }

  /** The queue part of one round of `stream_obq_remove`. */
  method Take(ghost nodes: set<Stream>, ghost home: Home, dep: Stream, s: Stream)
    requires QueuesHold(nodes, home) && s in home && home[s] == dep
    modifies dep`obq, dep.obq`index
    ensures QueuesHold(nodes, home - {s})
    ensures multiset(dep.obq) == old(multiset(dep.obq)) - multiset{s}
    ensures forall i :: 0 <= i < |dep.obq| ==> dep.obq[i] != s && dep.obq[i] in old(dep.obq)
    ensures old(HeapOrdered(dep, StreamLess)) ==> HeapOrdered(dep, StreamLess)
  {
    hide Keys, Heap, OrderOn, QueueAt, Indexed, Holds, Distinct;
    ghost var q := dep.obq;
    QueueFacts(home, dep);
    forall p | p in nodes && p != dep ensures s !in p.obq && forall x :: x in p.obq ==> x !in dep.obq {
      Apart(nodes, home, dep, s, p);
    }
    Remove(dep, s, StreamLess);
    OneLess(home, q, dep, s);
    LessMembers(q, dep.obq, s);
    forall p | p in nodes && p != dep ensures QueueAt(p, home - {s}) {
      assert QueueAt(p, home);
      Elsewhere(home, dep, s, p);
    }
    QueuesFrom(nodes, home - {s});
  }

  lemma FlagsOf(nodes: set<Stream>, home: Home)
    requires Queues(nodes, home)
    ensures QueuesHold(nodes, home) && forall x :: x in nodes ==> (x.queued <==> x in home)
  {}

  method SetFlag(ghost nodes: set<Stream>, ghost home: Home, s: Stream, value: bool)
    requires QueuesHold(nodes, home) && forall x :: x in nodes && x != s ==> (x.queued <==> x in home)
    requires value <==> s in home
    modifies s`queued
    ensures Queues(nodes, home)
  {
    hide QueuesHold;
    s.queued := value;
  }

  /** `stream_next_cycle` from the parent's base and the parent's next sequence number. */
  method Stamp(dep: Stream, s: Stream)
    requires s.weight > 0
    modifies s`cycle, s`pendingPenalty, s`seqNo, dep`descendantNextSeq
    ensures s.cycle == CycleAfter(dep.descendantLastCycle, s.lastWritelen, old(s.pendingPenalty), s.weight)
    ensures s.pendingPenalty == PendingAfter(s.lastWritelen, old(s.pendingPenalty), s.weight)
    ensures s.seqNo == old(dep.descendantNextSeq) && dep.descendantNextSeq == (old(dep.descendantNextSeq) + 1) % SEQ_WRAP
  {
    hide CycleAfter, PendingAfter;
    NextCycle(s, dep.descendantLastCycle);
    s.seqNo := dep.descendantNextSeq;
    dep.descendantNextSeq := (dep.descendantNextSeq + 1) % SEQ_WRAP;
  }

  /** The virtual time of a stream that leaves its queue. */
  method Forget(s: Stream)
    modifies s`cycle, s`pendingPenalty, s`descendantLastCycle, s`lastWritelen
    ensures s.cycle == 0 && s.pendingPenalty == 0 && s.descendantLastCycle == 0 && s.lastWritelen == 0
  {
    s.cycle, s.pendingPenalty := 0, 0;
    s.descendantLastCycle, s.lastWritelen := 0, 0;
  }
}
