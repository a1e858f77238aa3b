/** Choosing what to send next and putting the chosen stream back in its queue. */
module NextItem {
  import opened StreamQueue
  import opened Forest
  import opened QueueState
  import opened StreamLinks
  import opened Fairness
  import opened FairQueue
  import opened ObqLoops

  /** `s` and the streams it depends on, nearest first. */
  ghost function UpPath(t: Tree, s: Stream): (u: seq<Stream>)
    requires Ranked(t) && s in t.nodes
    ensures |u| > 0 && u[0] == s && u[|u| - 1] !in t.par
    ensures forall i :: 0 <= i < |u| ==> u[i] in t.nodes
    ensures forall i :: 0 <= i < |u| - 1 ==> u[i] in t.par && t.par[u[i]] == u[i + 1]
    ensures forall i, j :: 0 <= i < j < |u| ==> t.rank[u[j]] < t.rank[u[i]]
    decreases t.rank[s]
  {
    if s in t.par then [s] + UpPath(t, t.par[s]) else [s]
  }

  lemma {:induction false} UpPathIsAncestors(t: Tree, s: Stream, a: Stream)
    requires Ranked(t) && s in t.nodes
    ensures a in UpPath(t, s) <==> Ancestor(t, a, s)
    decreases t.rank[s]
  {
    if s in t.par { UpPathIsAncestors(t, t.par[s], a); }
  }

  /** A path from `start` to `s` in which every stream is the top of the queue of the one before. */
  ghost predicate TopPath(path: seq<Stream>, start: Stream, s: Stream)
    reads path`obq
  {
    && |path| > 0 && path[0] == start && path[|path| - 1] == s
    && forall i :: 0 <= i < |path| - 1 ==> |path[i].obq| > 0 && path[i].obq[0] == path[i + 1]
  }

  /** If something below `start` is ready, `start` is. */
  lemma {:induction false} ReadyAncestor(t: Tree, home: Home, act: set<Stream>, x: Stream, start: Stream)
    requires Ranked(t) && Balanced(t, home, act) && x in t.nodes && Ready(home, act, x) && Ancestor(t, start, x)
    ensures Ready(home, act, start)
    decreases t.rank[x]
  {
    if x != start {
      BusyAt(home, x);
      ReadyAncestor(t, home, act, t.par[x], start);
    }
  }

  ghost predicate NoneActiveBetween(t: Tree, act: set<Stream>, start: Stream, s: Stream)
    requires Ranked(t) && s in t.nodes
  {
    forall a :: a in t.nodes && Ancestor(t, start, a) && Ancestor(t, a, s) && a != s ==> a !in act
  }

  ghost predicate NoneActiveBelow(t: Tree, act: set<Stream>, start: Stream)
    requires Ranked(t)
  {
    forall x :: x in t.nodes && Ancestor(t, start, x) ==> x !in act
  }

  lemma {:induction false} AncestorRank(t: Tree, a: Stream, x: Stream)
    requires Ranked(t) && x in t.nodes && Ancestor(t, a, x)
    ensures a in t.nodes && t.rank[a] <= t.rank[x] && (a != x ==> t.rank[a] < t.rank[x])
    decreases t.rank[x]
  {
    if x in t.par && a != x { AncestorRank(t, a, t.par[x]); }
  }

  /** The search of `nghttp2_stream_next_outbound_item`: it ends, fails only if nothing below `start`
      is active, and respects dependencies. */
  method Choose(ghost t: Tree, ghost home: Home, ghost act: set<Stream>, start: Stream)
    returns (s: Stream?, ghost path: seq<Stream>)
    requires Ranked(t) && start in t.nodes && Balanced(t, home, act)
    requires Queues(t.nodes, home) && Acts(t.nodes, act)
    ensures s == null <==> NoneActiveBelow(t, act, start)
    ensures s != null ==> s in t.nodes && s in act && Ancestor(t, start, s)
    ensures s != null ==> NoneActiveBetween(t, act, start, s) && TopPath(path, start, s)
    ensures s != null ==> (forall i :: 0 <= i < |path| ==> path[i] in t.nodes)
    ensures s != null && start !in t.par ==> Topped(UpPath(t, s))
  {
    hide Queues, Balanced, Busy, Ancestor, UpPath, Topped, TopPath, NoneActiveBelow, NoneActiveBetween;
    var x := start;
    path := [start];
    assert TopPath(path, start, start) by { TopPathHere(start); }
    ghost var todo := t.nodes;
    Here(t, act, start);
    ToppedRoot(t, start);
    while true
      invariant x in t.nodes && Ancestor(t, start, x) && NoneActiveBetween(t, act, start, x)
      invariant TopPath(path, start, x) && (x == start || Ready(home, act, x))
      invariant forall i :: 0 <= i < |path| ==> path[i] in t.nodes
      invariant start !in t.par ==> Topped(UpPath(t, x))
      invariant forall y :: y in t.nodes && t.rank[y] >= t.rank[x] ==> y in todo
      decreases todo
    {
      if Active(x) {
        SomeActive(t, act, start, x);
        return x, path;
      }
      QueueIsIndexed(t.nodes, home, x);
      if x.obq == [] {
        NothingReady(t, home, act, start);
        return null, path;
      }
      var y := x.obq[0];
      assert y in home && home[y] == x by { QueueFacts(home, x); }
      TopPathDown(path, start, x, y);
      Down(t, home, act, start, x, y);
      ToppedDown(t, x, y);
      todo := todo - {x};
      path := path + [y];
      x := y;
    }
  }

  lemma Here(t: Tree, act: set<Stream>, start: Stream)
    requires Ranked(t) && start in t.nodes
    ensures Ancestor(t, start, start) && NoneActiveBetween(t, act, start, start)
  {
    forall a | a in t.nodes && Ancestor(t, start, a) && Ancestor(t, a, start) ensures a == start {
      AncestorRank(t, start, a);
      AncestorRank(t, a, start);
    }
  }

  lemma SomeActive(t: Tree, act: set<Stream>, start: Stream, x: Stream)
    requires Ranked(t) && x in t.nodes && Ancestor(t, start, x) && x in act
    ensures !NoneActiveBelow(t, act, start)
  {}

  lemma NothingReady(t: Tree, home: Home, act: set<Stream>, start: Stream)
    requires Ranked(t) && start in t.nodes && Balanced(t, home, act) && !Ready(home, act, start)
    ensures NoneActiveBelow(t, act, start)
  {
    hide Balanced, Ranked, Busy, Ancestor;
    forall x | x in t.nodes && Ancestor(t, start, x) ensures x !in act {
      if x in act { ReadyAncestor(t, home, act, x, start); }
    }
  }

  lemma Down(t: Tree, home: Home, act: set<Stream>, start: Stream, x: Stream, y: Stream)
    requires Ranked(t) && start in t.nodes && x in t.nodes && Balanced(t, home, act)
    requires y in home && home[y] == x && x !in act
    requires Ancestor(t, start, x) && NoneActiveBetween(t, act, start, x)
    ensures y in t.nodes && Ancestor(t, start, y) && NoneActiveBetween(t, act, start, y)
    ensures Ready(home, act, y) && t.rank[x] < t.rank[y] && y in t.par && t.par[y] == x
  {
    hide Busy;
    assert y in t.par && t.par[y] == x && Settled(home, act, y);
  }

  /** On the way up from a stream, each is the top of the queue of the next. */
  ghost predicate Topped(u: seq<Stream>)
    reads u`obq
  {
    forall i :: 0 < i < |u| ==> u[i].obq != [] && u[i].obq[0] == u[i - 1]
  }

  lemma ToppedRoot(t: Tree, start: Stream)
    requires Ranked(t) && start in t.nodes
    ensures start !in t.par ==> Topped(UpPath(t, start))
  {}

  lemma ToppedDown(t: Tree, x: Stream, y: Stream)
    requires Ranked(t) && y in t.par && t.par[y] == x && x.obq != [] && x.obq[0] == y
    ensures Topped(UpPath(t, x)) ==> Topped(UpPath(t, y))
  {
    hide UpPath;
    var u := UpPath(t, x);
    UpPathStep(t, y);
    assert Topped(u) ==> Topped([y] + u);
  }

  lemma UpPathStep(t: Tree, y: Stream)
    requires Ranked(t) && y in t.par
    ensures UpPath(t, y) == [y] + UpPath(t, t.par[y])
  {}

  lemma TopPathHere(start: Stream)
    ensures TopPath([start], start, start)
  {}

  lemma TopPathDown(path: seq<Stream>, start: Stream, x: Stream, y: Stream)
    requires TopPath(path, start, x) && x.obq != [] && x.obq[0] == y
    ensures TopPath(path + [y], start, y)
  {}

  /** In queues in order a path of tops is one of minima. */
  lemma TopPathIsMinimal(nodes: set<Stream>, path: seq<Stream>, start: Stream, s: Stream)
    requires TopPath(path, start, s) && Timely(nodes) && forall i :: 0 <= i < |path| ==> path[i] in nodes
    ensures Minima(path, Levels(nodes))
  {
    hide InOrder, First, LevelOf;
    forall i | 0 <= i < |path| - 1 ensures First(Levels(nodes)[path[i]], path[i + 1]) {
      TopIsFirst(path[i]);
    }
  }

  /** Each stream of the path is a minimum of the queue of the one before. */
  ghost predicate Minima(path: seq<Stream>, lv: map<Stream, Level<Stream>>)
  {
    forall i :: 0 <= i < |path| - 1 ==> path[i] in lv && First(lv[path[i]], path[i + 1])
  }

  /** The same on the way up. */
  ghost predicate MinimaUp(u: seq<Stream>, lv: map<Stream, Level<Stream>>)
  {
    forall i, j :: 0 <= i && j == i + 1 && j < |u| ==> u[j] in lv && First(lv[u[j]], u[i])
  }

  lemma ToppedIsMinimal(nodes: set<Stream>, u: seq<Stream>)
    requires Topped(u) && Timely(nodes) && forall i :: 0 <= i < |u| ==> u[i] in nodes
    ensures MinimaUp(u, Levels(nodes))
  {
    hide InOrder, First, LevelOf;
    forall i, j | 0 <= i && j == i + 1 && j < |u| ensures First(Levels(nodes)[u[j]], u[i]) {
      assert u[j].obq != [] && u[j].obq[0] == u[j - 1];
      TopIsFirst(u[j]);
    }
  }

  // ---------------------------------------------------------------- the bases

  /** At every level of the path the base is the cycle of the stream below. */
  ghost predicate Based(u: seq<Stream>)
    reads u`cycle, u`descendantLastCycle
  {
    BasedFrom(u, 0)
  }

  ghost predicate BasedFrom(u: seq<Stream>, k: nat)
    reads u`cycle, u`descendantLastCycle
  {
    forall i :: k < i < |u| ==> u[i].descendantLastCycle == u[i - 1].cycle
  }

  /** `p` is above the first stream of the path, at most at level `k`. */
  ghost predicate Passed(u: seq<Stream>, k: nat, p: Stream)
  {
    exists i :: 0 < i <= k && i < |u| && u[i] == p
  }

  lemma PassedMore(u: seq<Stream>, k: nat)
    requires Distinct(u) && k + 1 < |u|
    ensures forall p :: Passed(u, k + 1, p) <==> Passed(u, k, p) || p == u[k + 1]
    ensures !Passed(u, k, u[k + 1])
  {
    forall p | Passed(u, k, p) ensures Passed(u, k + 1, p) {}
    assert Passed(u, k + 1, u[k + 1]);
  }

  lemma PathApart(u: seq<Stream>, k: nat)
    requires Distinct(u) && k + 1 < |u|
    ensures forall i :: 0 <= i < |u| && i != k ==> u[i] != u[k]
    ensures forall i :: 0 <= i < |u| && i != k + 1 ==> u[i] != u[k + 1]
  {}

  /** Up to level `k` of the path the streams were picked. */
  ghost predicate Picked(u: seq<Stream>, k: nat, lv: map<Stream, Level<Stream>>, lw: map<Stream, Level<Stream>>)
    requires lv.Keys == lw.Keys && forall i :: 0 <= i < |u| ==> u[i] in lv
    reads u`cycle, u`descendantLastCycle
  {
    && (forall i :: 0 < i <= k && i < |u| ==>
          u[i].descendantLastCycle == u[i - 1].cycle && lw[u[i]] == lv[u[i]].(base := u[i - 1].cycle))
    && (forall p :: p in lv && !Passed(u, k, p) ==> lw[p] == lv[p])
  }

  method PickRound(ghost nodes: set<Stream>, ghost u: seq<Stream>, ghost k: nat, ghost lv: map<Stream, Level<Stream>>,
                   dep: Stream, s: Stream)
    requires Closed(nodes) && lv.Keys == nodes && (forall i :: 0 <= i < |u| ==> u[i] in nodes) && Distinct(u)
    requires k + 1 < |u| && u[k] == s && u[k + 1] == dep && Picked(u, k, lv, Levels(nodes))
    modifies dep`descendantLastCycle
    ensures Closed(nodes) && Picked(u, k + 1, lv, Levels(nodes))
    ensures old(Timely(nodes)) && Topped(u) ==> Timely(nodes)
  {
    hide Levels, Timely, Closed, Passed, Distinct;
    PathApart(u, k);
    PassedMore(u, k);
    SetBase(nodes, dep, s);
  }

  /** The update of `nghttp2_stream_next_outbound_item`: at every level the base becomes the cycle of
      the stream chosen there. */
  method UpdateBases(ghost t: Tree, s: Stream)
    requires Ranked(t) && s in t.nodes && Closed(t.nodes) && Climbable(t, s)
    modifies t.nodes`descendantLastCycle
    ensures Closed(t.nodes) && Picked(UpPath(t, s), |UpPath(t, s)| - 1, old(Levels(t.nodes)), Levels(t.nodes))
    ensures old(Timely(t.nodes)) && Topped(UpPath(t, s)) ==> Timely(t.nodes)
  {
    hide UpPath, Levels, Timely, Closed, Picked, Topped, Distinct, Climbable, Ranked;
    ghost var u, lv := UpPath(t, s), Levels(t.nodes);
    PathDistinct(t, s);
    NothingPicked(u, lv);
    var si := s;
    ghost var k := 0;
    PathUp(t, s, 0);
    while si.depPrev != null
      invariant 0 <= k < |u| && u[k] == si && si.depPrev == if k + 1 < |u| then u[k + 1] else null
      invariant Closed(t.nodes) && Picked(u, k, lv, Levels(t.nodes))
      invariant old(Timely(t.nodes)) && Topped(u) ==> Timely(t.nodes)
      decreases |u| - k
    {
      PickRound(t.nodes, u, k, lv, si.depPrev, si);
      si := si.depPrev;
      k := k + 1;
      PathUp(t, s, k);
    }
  }

  lemma NothingPicked(u: seq<Stream>, lv: map<Stream, Level<Stream>>)
    requires forall i :: 0 <= i < |u| ==> u[i] in lv
    ensures Picked(u, 0, lv, lv)
  {}

  /** The parent pointers follow the path. */
  lemma PathUp(t: Tree, s: Stream, k: nat)
    requires Ranked(t) && s in t.nodes && Climbable(t, s) && k < |UpPath(t, s)|
    ensures var u := UpPath(t, s); u[k].depPrev == if k + 1 < |u| then u[k + 1] else null
  {
    var u := UpPath(t, s);
    assert k > 0 ==> t.rank[u[k]] < t.rank[u[0]];
  }

  lemma PathDistinct(t: Tree, s: Stream)
    requires Ranked(t) && s in t.nodes
    ensures Distinct(UpPath(t, s))
  {}

  /** `nghttp2_stream_next_outbound_item`; the stream stands for its item. Started at a root, as the session does,
      it picks at every level and keeps the queues in order. */
  method NextOutboundItem(ghost t: Tree, ghost home: Home, ghost act: set<Stream>, start: Stream)
    returns (s: Stream?, ghost path: seq<Stream>)
    requires Ranked(t) && start in t.nodes && Balanced(t, home, act)
    requires Queues(t.nodes, home) && Acts(t.nodes, act)
    requires forall x :: x in t.nodes ==> x.depPrev == ParentOf(t, x)
    modifies t.nodes`descendantLastCycle
    ensures s == null <==> NoneActiveBelow(t, act, start)
    ensures s != null ==> s in t.nodes && s in act && Ancestor(t, start, s)
    ensures s != null ==> NoneActiveBetween(t, act, start, s) && TopPath(path, start, s)
    ensures s != null && old(Timely(t.nodes)) ==> Minima(path, old(Levels(t.nodes)))
    ensures Closed(t.nodes) && (s == null ==> Levels(t.nodes) == old(Levels(t.nodes)))
    ensures s != null ==> Picked(UpPath(t, s), |UpPath(t, s)| - 1, old(Levels(t.nodes)), Levels(t.nodes))
    ensures s != null && start !in t.par && old(Timely(t.nodes)) ==> MinimaUp(UpPath(t, s), old(Levels(t.nodes)))
    ensures start !in t.par && old(Timely(t.nodes)) ==> Timely(t.nodes)
  {
    hide UpPath, Ranked, Queues, Balanced, Ancestor, NoneActiveBelow, NoneActiveBetween, ParentOf, Levels, Timely,
      Closed, Picked, Topped, TopPath, Minima, MinimaUp, Climbable;
    FlagIs(t.nodes, home, start);
    s, path := Choose(t, home, act, start);
    if s != null {
      if Timely(t.nodes) {
        TopPathIsMinimal(t.nodes, path, start, s);
        if start !in t.par { ToppedIsMinimal(t.nodes, UpPath(t, s)); }
      }
      Climbs(t, s);
      UpdateBases(t, s);
    }
  }

  lemma Climbs(t: Tree, s: Stream)
    requires Ranked(t) && s in t.nodes && forall x :: x in t.nodes ==> x.depPrev == ParentOf(t, x)
    ensures Climbable(t, s)
  {}

  // ---------------------------------------------------------------- rescheduling

  /** Up to level `k` of the path the streams were put back after sending `n` octets. */
  ghost predicate Resent(u: seq<Stream>, k: nat, n: nat, lv: map<Stream, Level<Stream>>, lw: map<Stream, Level<Stream>>)
    requires lv.Keys == lw.Keys && forall i :: 0 <= i < |u| ==> u[i] in lv
  {
    && (forall i :: 0 < i <= k && i < |u| ==>
          && u[i - 1] in lv[u[i]].queue && lv[u[i]].queue[u[i - 1]].weight > 0
          && lw[u[i]] == Rescheduled(lv[u[i]], u[i - 1], n))
    && (forall p :: p in lv && !Passed(u, k, p) ==> lw[p] == lv[p])
  }

  ghost predicate Wrote(u: seq<Stream>, k: nat, n: nat)
    reads u`lastWritelen
  {
    forall i :: 0 <= i <= k && i < |u| ==> u[i].lastWritelen == n
  }

  /** The body of the loop of `nghttp2_stream_reschedule` at level `k` of the path. */
  method Rise(ghost nodes: set<Stream>, ghost home: Home, ghost u: seq<Stream>, ghost k: nat, ghost n: nat,
              ghost lv: map<Stream, Level<Stream>>, dep: Stream, s: Stream)
    requires QueuesHold(nodes, home) && s in home && home[s] == dep && s.weight > 0
    requires Closed(nodes) && lv.Keys == nodes && (forall i :: 0 <= i < |u| ==> u[i] in nodes) && Distinct(u)
    requires k + 1 < |u| && u[k] == s && u[k + 1] == dep && Resent(u, k, n, lv, Levels(nodes)) && Wrote(u, k, n)
    modifies nodes`obq, nodes`index, s`cycle, s`pendingPenalty, s`seqNo, dep`descendantNextSeq, dep`lastWritelen
    ensures QueuesHold(nodes, home) && Closed(nodes) && Resent(u, k + 1, n, lv, Levels(nodes)) && Wrote(u, k + 1, n)
    ensures old(BasedFrom(u, k)) ==> BasedFrom(u, k + 1)
    ensures old(Timely(nodes)) && old(BasedFrom(u, k)) ==> Timely(nodes)
  {
    hide QueuesHold, Levels, Timely, Rescheduled, Distinct, Resent;
    LastResent(u, k, n, lv, Levels(nodes));
    ghost var lw := Levels(nodes);
    PathApart(u, k);
    Again(nodes, home, dep, s);
    ResentMore(u, k, n, lv, lw);
  }

  lemma LastResent(u: seq<Stream>, k: nat, n: nat, lv: map<Stream, Level<Stream>>, lw: map<Stream, Level<Stream>>)
    requires lv.Keys == lw.Keys && (forall i :: 0 <= i < |u| ==> u[i] in lv) && Distinct(u) && k + 1 < |u|
    requires Resent(u, k, n, lv, lw)
    ensures lw[u[k + 1]] == lv[u[k + 1]]
  {
    hide Rescheduled, Passed;
    PassedMore(u, k);
  }

  lemma ResentMore(u: seq<Stream>, k: nat, n: nat, lv: map<Stream, Level<Stream>>, lw: map<Stream, Level<Stream>>)
    requires lv.Keys == lw.Keys && (forall i :: 0 <= i < |u| ==> u[i] in lv) && Distinct(u) && k + 1 < |u|
    requires Resent(u, k, n, lv, lw)
    requires u[k] in lv[u[k + 1]].queue && lv[u[k + 1]].queue[u[k]].weight > 0
    ensures Resent(u, k + 1, n, lv, lw[u[k + 1] := Rescheduled(lv[u[k + 1]], u[k], n)])
  {
    hide Rescheduled, Distinct, Passed;
    PathApart(u, k);
    PassedMore(u, k);
  }

  /** The loop of `nghttp2_stream_reschedule`. */
  method RiseAll(ghost t: Tree, ghost home: Home, ghost act: set<Stream>, s: Stream)
    requires Ranked(t) && s in home && s in t.nodes && Balanced(t, home, act) && Weighty(t.nodes)
    requires QueuesHold(t.nodes, home) && Closed(t.nodes) && Climbable(t, s)
    modifies t.nodes`obq, t.nodes`index, UpPath(t, s)`cycle, UpPath(t, s)`pendingPenalty, UpPath(t, s)`seqNo,
             UpPath(t, s)`descendantNextSeq, UpPath(t, s)`lastWritelen
    ensures QueuesHold(t.nodes, home) && Closed(t.nodes)
    ensures Resent(UpPath(t, s), |UpPath(t, s)| - 1, old(s.lastWritelen), old(Levels(t.nodes)), Levels(t.nodes))
    ensures Wrote(UpPath(t, s), |UpPath(t, s)| - 1, old(s.lastWritelen))
    ensures old(Timely(t.nodes) && Based(UpPath(t, s))) ==> Timely(t.nodes)
  {
    hide Climbable, QueuesHold, Balanced, UpPath, Ranked, Distinct, Levels, Timely, Closed, Resent, BasedFrom, Wrote,
      Weighty;
    ghost var u, n := UpPath(t, s), s.lastWritelen;
    ghost var k := 0;
    ghost var lv := Levels(t.nodes);
    PathDistinct(t, s);
    NothingResent(u, s, lv);
    var x := s;
    PathLevel(t, home, act, s, 0);
    var d := x.depPrev;
    while d != null
      invariant 0 <= k < |u| && x == u[k] && (d == if k + 1 < |u| then u[k + 1] else null)
      invariant QueuesHold(t.nodes, home) && Closed(t.nodes) && Resent(u, k, n, lv, Levels(t.nodes)) && Wrote(u, k, n)
      invariant old(BasedFrom(u, 0)) ==> BasedFrom(u, k)
      invariant old(Timely(t.nodes) && BasedFrom(u, 0)) ==> Timely(t.nodes)
      decreases |u| - k
    {
      PathLevel(t, home, act, s, k);
      PathLevel(t, home, act, s, k + 1);
      WeightyAt(t.nodes, x);
      Rise(t.nodes, home, u, k, n, lv, d, x);
      x, d := d, d.depPrev;
      k := k + 1;
    }
  }

  /** `nghttp2_stream_reschedule`: at every level the stream is put back behind, nobody enters or leaves a
      queue. The queues stay in order if the stream is the one picked last. */
  method Reschedule(ghost t: Tree, ghost home: Home, ghost act: set<Stream>, s: Stream)
    requires Ranked(t) && s in home && s in t.nodes && Balanced(t, home, act) && Weighty(t.nodes)
    requires Queues(t.nodes, home) && Climbable(t, s)
    modifies t.nodes`obq, t.nodes`index, UpPath(t, s)`cycle, UpPath(t, s)`pendingPenalty, UpPath(t, s)`seqNo,
             UpPath(t, s)`descendantNextSeq, UpPath(t, s)`lastWritelen
    ensures Queues(t.nodes, home) && Closed(t.nodes)
    ensures Resent(UpPath(t, s), |UpPath(t, s)| - 1, old(s.lastWritelen), old(Levels(t.nodes)), Levels(t.nodes))
    ensures Wrote(UpPath(t, s), |UpPath(t, s)| - 1, old(s.lastWritelen))
    ensures old(Timely(t.nodes) && Based(UpPath(t, s))) ==> Timely(t.nodes)
  {
    hide Climbable, QueuesHold, Balanced, UpPath, Ranked, Levels, Timely, Closed, Resent, Based, Wrote, Weighty,
      Queues;
    FlagIs(t.nodes, home, s);
    FlagsOf(t.nodes, home);
    RiseAll(t, home, act, s);
    FlagsTo(t.nodes, home);
  }

  lemma WeightyAt(nodes: set<Stream>, x: Stream)
    requires Weighty(nodes) && x in nodes
    ensures x.weight > 0
  {}

  lemma FlagsTo(nodes: set<Stream>, home: Home)
    requires QueuesHold(nodes, home) && forall x :: x in nodes ==> (x.queued <==> x in home)
    ensures Queues(nodes, home)
  {}

  lemma NothingResent(u: seq<Stream>, s: Stream, lv: map<Stream, Level<Stream>>)
    requires u != [] && u[0] == s && forall i :: 0 <= i < |u| ==> u[i] in lv
    ensures Resent(u, 0, s.lastWritelen, lv, lv) && Wrote(u, 0, s.lastWritelen)
  {}

  /** On the way up every stream but the root is queued at the next. */
  lemma {:induction false} PathLevel(t: Tree, home: Home, act: set<Stream>, s: Stream, k: nat)
    requires Ranked(t) && s in home && s in t.nodes && Balanced(t, home, act) && Climbable(t, s)
    requires k < |UpPath(t, s)|
    ensures var u := UpPath(t, s);
            && u[k].depPrev == (if k + 1 < |u| then u[k + 1] else null)
            && (k + 1 < |u| ==> u[k] in home && home[u[k]] == u[k + 1] && u[k] != u[k + 1])
  {
    var u := UpPath(t, s);
    assert k > 0 ==> t.rank[u[k]] < t.rank[u[0]];
    if k > 0 && k + 1 < |u| {
      PathLevel(t, home, act, s, k - 1);
      QueuedUp(t, home, act, u[k - 1]);
    }
  }

  lemma QueuedUp(t: Tree, home: Home, act: set<Stream>, x: Stream)
    requires Ranked(t) && x in home && Balanced(t, home, act)
    ensures var d := home[x]; d != x && d in t.nodes && (d in t.par ==> d in home && home[d] == t.par[d])
  {
    BusyAt(home, x);
    assert home[x] in t.par ==> Settled(home, act, home[x]);
  }
}
