/** Which stream is queued where, as a value, and what the loops over the ancestors make of it.
    `home[x]` is the stream whose queue holds `x`; `act` are the streams with something to send. */
module QueueState {
  import opened StreamQueue
  import opened Forest

  type Home = map<Stream, Stream>

  /** The queue of `p` is not empty. */
  ghost predicate Busy(home: Home, p: Stream)
  {
    exists x :: x in home && home[x] == p
  }

  /** Whoever is queued is queued at its parent. */
  ghost predicate AtParents(t: Tree, home: Home)
  {
    forall x :: x in home ==> x in t.par && home[x] == t.par[x]
  }

  /** `x` is queued exactly when it or something below it has something to send. */
  ghost predicate Settled(home: Home, act: set<Stream>, x: Stream)
  {
    x in home <==> x in act || Busy(home, x)
  }

  ghost predicate SettledBut(t: Tree, home: Home, act: set<Stream>, but: set<Stream>)
  {
    forall x :: x in t.par && x !in but ==> Settled(home, act, x)
  }

  /** The invariant of the scheduler: each queue holds exactly its queued children, roots are not
      queued, and any other stream is queued exactly when it is active or its queue is not empty. */
  ghost predicate Balanced(t: Tree, home: Home, act: set<Stream>)
  {
    AtParents(t, home) && SettledBut(t, home, act, {})
  }

  // ---------------------------------------------------------------- the loops

  /** `stream_obq_push`: queue `x` at `d`, then `d` at its parent, until one is queued already. */
  ghost function PushUp(t: Tree, home: Home, d: Stream?, x: Stream): (r: Home)
    requires Ranked(t) && (d != null ==> d in t.nodes)
    decreases if d == null then 0 else 1 + t.rank[d]
  {
    if d == null || x in home then home else PushUp(t, home[x := d], ParentOf(t, d), d)
  }

  /** `stream_obq_remove`: take `x` out, and then every ancestor that has no reason left to be queued. */
  ghost function RemoveUp(home: Home, act: set<Stream>, x: Stream): (r: Home)
    decreases |home|
  {
    if x !in home then home else
    var p, h := home[x], home - {x};
    assert h.Keys == home.Keys - {x};
    assert |h| == |h.Keys| < |home.Keys|;
    if p in act || Busy(h, p) then h else RemoveUp(h, act, p)
  }

  /** The streams in `moved` go from their queue to that of `to`. */
  ghost function Moved(home: Home, moved: seq<Stream>, to: Stream): (r: Home)
    ensures r.Keys == home.Keys
  {
    map x | x in home :: if x in moved then to else home[x]
  }

  // ---------------------------------------------------------------- what they keep

  lemma BusyAdd(home: Home, x: Stream, d: Stream, p: Stream)
    requires x !in home
    ensures Busy(home[x := d], p) <==> p == d || Busy(home, p)
  {
    var h := home[x := d];
    assert h[x] == d;
    if Busy(home, p) {
      var y: Stream :| y in home && home[y] == p;
      assert h[y] == p;
    }
    if Busy(h, p) && p != d {
      var y: Stream :| y in h && h[y] == p;
      assert y in home && home[y] == p;
    }
  }

  lemma BusyDrop(home: Home, x: Stream, p: Stream)
    requires x in home && p != home[x]
    ensures Busy(home - {x}, p) <==> Busy(home, p)
  {
    var h := home - {x};
    if Busy(home, p) {
      var y: Stream :| y in home && home[y] == p;
      assert y in h && h[y] == p;
    }
    if Busy(h, p) {
      var y: Stream :| y in h && h[y] == p;
      assert y in home && home[y] == p;
    }
  }

  lemma {:induction false} PushUpGrows(t: Tree, home: Home, d: Stream?, x: Stream)
    requires Ranked(t) && (d != null ==> d in t.nodes)
    ensures forall y :: y in home ==> y in PushUp(t, home, d, x) && PushUp(t, home, d, x)[y] == home[y]
    decreases if d == null then 0 else 1 + t.rank[d]
  {
    if d != null && x !in home { PushUpGrows(t, home[x := d], ParentOf(t, d), d); }
  }

  lemma {:induction false} RemoveUpShrinks(home: Home, act: set<Stream>, x: Stream)
    ensures forall y :: y in RemoveUp(home, act, x) ==> y in home && RemoveUp(home, act, x)[y] == home[y]
    decreases |home|
  {
    if x in home {
      var p, h := home[x], home - {x};
      assert h.Keys == home.Keys - {x};
      assert |h| == |h.Keys| < |home.Keys|;
      if !(p in act || Busy(h, p)) { RemoveUpShrinks(h, act, p); }
    }
  }

  /** If only `x` may be missing from its queue, pushing it settles every stream. */
  lemma {:induction false} PushUpBalances(t: Tree, home: Home, act: set<Stream>, x: Stream)
    requires Ranked(t) && x in t.nodes && AtParents(t, home) && SettledBut(t, home, act, {x})
    requires x in act || Busy(home, x)
    ensures Balanced(t, PushUp(t, home, ParentOf(t, x), x), act)
    decreases t.rank[x]
  {
    hide Busy;
    if x in t.par && x !in home {
      var d := t.par[x];
      var h := home[x := d];
      forall y: Stream ensures Busy(h, y) <==> y == d || Busy(home, y) { BusyAdd(home, x, d, y); }
      assert d != x by { NotOwnParent(t, x); }
      assert SettledBut(t, h, act, {d});
      PushUpBalances(t, h, act, d);
    }
  }

  lemma ParentRank(t: Tree, x: Stream)
    requires Ranked(t) && x in t.par
    ensures x in t.nodes && t.par[x] in t.nodes && t.rank[t.par[x]] < t.rank[x]
  {}

  /** Removing `x` settles every other stream and leaves the queue of `x` alone. */
  lemma {:induction false} RemoveUpBalances(t: Tree, home: Home, act: set<Stream>, x: Stream)
    requires Ranked(t) && x in t.nodes && AtParents(t, home) && SettledBut(t, home, act, {x})
    ensures var h := RemoveUp(home, act, x);
            AtParents(t, h) && SettledBut(t, h, act, {x}) && (Busy(h, x) <==> Busy(home, x)) && x !in h
  {
    hide Ranked, Busy;
    if x in home {
      var p, h := home[x], home - {x};
      ParentRank(t, x);
      forall y: Stream | y != p ensures Busy(h, y) <==> Busy(home, y) { BusyDrop(home, x, y); }
      assert SettledBut(t, h, act, {x, p});
      BusyAt(home, x);
      if !(p in act || Busy(h, p)) {
        RemoveUpTail(t, h, act, x, p);
      }
    }
  }

  lemma BusyAt(home: Home, x: Stream)
    requires x in home
    ensures Busy(home, home[x])
  {}

  /** The part of the loop above the first stream: `x` is out and stays out. */
  lemma {:induction false} RemoveUpTail(t: Tree, home: Home, act: set<Stream>, x: Stream, p: Stream)
    requires Ranked(t) && x in t.nodes && p in t.nodes && t.rank[p] < t.rank[x]
    requires AtParents(t, home) && SettledBut(t, home, act, {x, p})
    requires x !in home && !Busy(home, p) && p !in act
    ensures var h := RemoveUp(home, act, p);
            AtParents(t, h) && SettledBut(t, h, act, {x}) && (Busy(h, x) <==> Busy(home, x)) && x !in h
    decreases t.rank[p]
  {
    hide Busy;
    if p in home {
      var q, h := home[p], home - {p};
      ParentRank(t, p);
      BusyAt(home, p);
      forall y: Stream | y != q ensures Busy(h, y) <==> Busy(home, y) { BusyDrop(home, p, y); }
      assert SettledBut(t, h, act, {x, q});
      if !(q in act || Busy(h, q)) {
        RemoveUpTail(t, h, act, x, q);
      }
    }
  }

  // ---------------------------------------------------------------- operations of the tree

  /** `nghttp2_stream_dep_add` pushes nothing, which is right exactly for a stream with nothing to send in
      it or below it. */
  lemma GraftIdle(t: Tree, home: Home, act: set<Stream>, dep: Stream, s: Stream)
    requires WellFormed(t) && dep in t.nodes && s in t.nodes && s !in t.par && Balanced(t, home, act)
    ensures Balanced(Graft(t, dep, s), home, act) <==> !Ready(home, act, s)
  {
    hide Ranked, Listed, WeightsInRange, Lift, Busy;
    var u := Graft(t, dep, s);
    assert s in u.par && s !in home;
    assert Balanced(u, home, act) ==> Settled(home, act, s);
  }

  /** An instance: a root with an active dependent put below another. */
  lemma GraftIdleFails(r: Stream, s: Stream, x: Stream, t: Tree, home: Home, act: set<Stream>)
    requires r != s && r != x && s != x && home == map[x := s] && act == {x}
    requires t == Tree({r, s, x}, map[x := s], map[r := [], s := [x], x := []], map[r := 0, s := 0, x := 1],
                       map[r := 16, s := 16, x := 16])
    ensures WellFormed(t) && Balanced(t, home, act) && !Balanced(Graft(t, r, s), home, act)
  {
    hide Lift, Graft;
    BusyAt(home, x);
    assert !Busy(home, x);
    GraftIdle(t, home, act, r, s);
  }

  /** `nghttp2_stream_dep_add_subtree`. */
  lemma GraftBalances(t: Tree, home: Home, act: set<Stream>, dep: Stream, s: Stream)
    requires WellFormed(t) && dep in t.nodes && s in t.nodes && s !in t.par && Balanced(t, home, act)
    requires Root(t, dep) != s && (s in act || Busy(home, s))
    ensures Ranked(Graft(t, dep, s)) && Balanced(Graft(t, dep, s), PushUp(Graft(t, dep, s), home, dep, s), act)
  {
    hide Ranked, Listed, WeightsInRange, Lift, Busy;
    var u := Graft(t, dep, s);
    GraftRanked(t, dep, s);
    assert SettledBut(u, home, act, {s});
    PushUpBalances(u, home, act, s);
  }

  lemma BusyMoved(t: Tree, home: Home, from: Stream, to: Stream, p: Stream)
    requires Listed(t) && AtParents(t, home) && from in t.nodes && from != to
    ensures var h := Moved(home, t.kids[from], to);
            Busy(h, p) <==> p != from && (Busy(home, p) || (p == to && Busy(home, from)))
  {
    var h := Moved(home, t.kids[from], to);
    assert forall x :: x in home ==> (x in t.kids[from] <==> home[x] == from);
    if Busy(h, p) {
      var x: Stream :| x in h && h[x] == p;
      assert home[x] == p || home[x] == from;
    }
    if Busy(home, p) {
      var x: Stream :| x in home && home[x] == p;
      assert x in h;
    }
    if Busy(home, from) {
      var x: Stream :| x in home && home[x] == from;
      assert h[x] == to;
    }
  }

  /** What `dep` holds moved to the queue of `s`. */
  ghost function Exclusive(t: Tree, home: Home, dep: Stream, s: Stream): Home
    requires Listed(t) && dep in t.nodes
  {
    Moved(home, t.kids[dep], s)
  }

  /** `nghttp2_stream_dep_insert` and `nghttp2_stream_dep_insert_subtree`, before `s` is pushed. */
  lemma ExclusiveSettles(t: Tree, home: Home, act: set<Stream>, dep: Stream, s: Stream)
    requires WellFormed(t) && dep in t.nodes && s in t.nodes && s !in t.par && Balanced(t, home, act) && s != dep
    ensures var u, h := GraftExclusive(t, dep, s), Exclusive(t, home, dep, s);
            AtParents(u, h) && SettledBut(u, h, act, {s, dep}) && s !in h
    ensures Busy(home, dep) ==> dep in home || dep !in t.par
    ensures s !in act && !Busy(Exclusive(t, home, dep, s), s) ==>
              SettledBut(GraftExclusive(t, dep, s), Exclusive(t, home, dep, s), act, {})
  {
    hide Ranked, WeightsInRange, Lift, Busy, ListedOnce;
    forall p: Stream ensures Busy(Exclusive(t, home, dep, s), p) <==>
                     p != dep && (Busy(home, p) || (p == s && Busy(home, dep))) {
      BusyMoved(t, home, dep, s, p);
    }
  }

  /** The streams from which the scheduler can reach something to send. */
  ghost predicate Ready(home: Home, act: set<Stream>, x: Stream)
  {
    x in act || Busy(home, x)
  }

  /** After both: everything is settled again. */
  lemma ExclusiveBalances(t: Tree, home: Home, act: set<Stream>, dep: Stream, s: Stream)
    requires WellFormed(t) && dep in t.nodes && s in t.nodes && s !in t.par && Balanced(t, home, act)
    requires Root(t, dep) != s
    ensures var u, h := GraftExclusive(t, dep, s), Exclusive(t, home, dep, s);
            Ranked(u) && Balanced(u, if Ready(h, act, s) then PushUp(u, h, dep, s) else h, act)
  {
    hide Ranked, Listed, WeightsInRange, Lift, Busy, Moved, SettledBut, AtParents;
    var u, h := GraftExclusive(t, dep, s), Exclusive(t, home, dep, s);
    GraftRanked(t, dep, s);
    assert s != dep;
    ExclusiveSettles(t, home, act, dep, s);
    if Ready(h, act, s) {
      AddSettles(u, h, act, dep, s);
      PushUpBalances(u, h[s := dep], act, dep);
    }
  }

  /** With `s` queued at `dep`, only `dep` may be missing from its queue. */
  lemma AddSettles(t: Tree, home: Home, act: set<Stream>, dep: Stream, s: Stream)
    requires s in t.par && t.par[s] == dep && s != dep && s !in home && Ready(home, act, s)
    requires AtParents(t, home) && SettledBut(t, home, act, {s, dep})
    ensures AtParents(t, home[s := dep]) && SettledBut(t, home[s := dep], act, {dep}) && Busy(home[s := dep], dep)
  {
    hide Busy;
    forall y: Stream ensures Busy(home[s := dep], y) <==> y == dep || Busy(home, y) { BusyAdd(home, s, dep, y); }
    BusyAdd(home, s, dep, dep);
  }

  /** `nghttp2_stream_dep_remove` of a stream with nothing to send: its queue goes to its parent and it
      leaves the queue it is in. */
  lemma SpliceBalances(t: Tree, home: Home, act: set<Stream>, s: Stream)
    requires WellFormed(t) && s in t.par && Balanced(t, home, act) && s !in act
    ensures var u, h := Splice(t, s), Moved(home, t.kids[s], t.par[s]);
            Balanced(u, RemoveUp(h, act, s), act)
  {
    hide WeightsInRange, Redistributed, IndexOf, Busy, ListedUp, ListedDown, ListedOnce, Moved, Ranked, RemoveUp;
    var u, p := Splice(t, s), t.par[s];
    var v := u.(par := u.par[s := p]);
    ParentRank(t, s);
    SpliceHome(t, home, s);
    SpliceSettles(t, home, act, s);
    assert Ranked(v) by { SpliceRanked(t, s); }
    RemoveUpBalances(v, Moved(home, t.kids[s], p), act, s);
  }

  lemma SpliceRanked(t: Tree, s: Stream)
    requires WellFormed(t) && s in t.par
    ensures var u := Splice(t, s); Ranked(u.(par := u.par[s := t.par[s]]))
  {
    hide WeightsInRange, Redistributed, IndexOf, Listed;
  }

  lemma SpliceSettles(t: Tree, home: Home, act: set<Stream>, s: Stream)
    requires WellFormed(t) && s in t.par && Balanced(t, home, act) && s !in act
    ensures var u, h := Splice(t, s), Moved(home, t.kids[s], t.par[s]);
            SettledBut(u.(par := u.par[s := t.par[s]]), h, act, {s}) && !Busy(h, s)
  {
    hide WeightsInRange, Redistributed, IndexOf, Busy, ListedUp, ListedDown, ListedOnce, Moved, Ranked;
    NotOwnParent(t, s);
    ParentRank(t, s);
    var p, h := t.par[s], Moved(home, t.kids[s], t.par[s]);
    forall q: Stream ensures Busy(h, q) <==> q != s && (Busy(home, q) || (q == p && Busy(home, s))) {
      BusyMoved(t, home, s, p, q);
    }
    assert Busy(home, s) ==> Busy(home, p) by { if s in home { BusyAt(home, s); } }
  }

  lemma SpliceHome(t: Tree, home: Home, s: Stream)
    requires WellFormed(t) && s in t.par && AtParents(t, home)
    ensures var u, h := Splice(t, s), Moved(home, t.kids[s], t.par[s]);
            AtParents(u.(par := u.par[s := t.par[s]]), h)
  {
    hide WeightsInRange, Redistributed, IndexOf, ListedOnce;
  }

  /** `nghttp2_stream_dep_remove_subtree`: the cut stream keeps its own queue. */
  lemma PruneBalances(t: Tree, home: Home, act: set<Stream>, s: Stream)
    requires WellFormed(t) && s in t.par && Balanced(t, home, act)
    ensures Balanced(Prune(t, s), RemoveUp(home, act, s), act)
  {
    hide Ranked, WeightsInRange, IndexOf, Busy, Listed;
    ParentRank(t, s);
    RemoveUpBalances(t, home, act, s);
  }

  // ---------------------------------------------------------------- moving the dependents one by one

  ghost predicate AnyIn(moved: seq<Stream>, home: Home)
  {
    exists i :: 0 <= i < |moved| && moved[i] in home
  }

  /** The dependents in `moved` went to the queue of `s`, and with the first that was queued `s` went
      to the queue of its parent. */
  ghost function Shift(t: Tree, home: Home, moved: seq<Stream>, s: Stream): Home
  {
    if s in t.par && AnyIn(moved, home) then Moved(home, moved, s)[s := t.par[s]] else Moved(home, moved, s)
  }

  /** One round of the loops that call `stream_obq_move`: `t` is the tree the climb sees, in which `s`
      is a root or depends on a stream that is queued or a root. */
  lemma ShiftStep(t: Tree, home: Home, moved: seq<Stream>, k: Stream, s: Stream)
    requires Ranked(t) && s in t.nodes && s !in home && k != s && k !in moved
    requires s in t.par && k in home ==> t.par[s] == home[k] && (home[k] in home || home[k] !in t.par)
    requires forall x :: x in moved && x in home && k in home ==> home[x] == home[k]
    requires k in home ==> home[k] != s
    ensures k in Shift(t, home, moved, s) <==> k in home
    ensures k in home ==> Shift(t, home, moved, s)[k] == home[k]
    ensures var h := Shift(t, home, moved, s);
            Shift(t, home, moved + [k], s) == if k in home then PushUp(t, h - {k}, s, k) else h
  {
    var h := Shift(t, home, moved, s);
    var more := moved + [k];
    if k in home {
      assert more[|moved|] in home;
      var g := (h - {k})[k := s];
      assert PushUp(t, h - {k}, s, k) == PushUp(t, g, ParentOf(t, s), s);
      if s in t.par {
        ShiftPush(t, home, moved, k, s);
      } else {
        assert g == Moved(home, more, s);
      }
    } else {
      assert Moved(home, more, s) == Moved(home, moved, s);
      assert AnyIn(more, home) ==> AnyIn(moved, home);
      assert AnyIn(moved, home) ==> AnyIn(more, home) by {
        if AnyIn(moved, home) {
          var i :| 0 <= i < |moved| && moved[i] in home;
          assert more[i] in home;
        }
      }
    }
  }

  lemma ShiftPush(t: Tree, home: Home, moved: seq<Stream>, k: Stream, s: Stream)
    requires Ranked(t) && s in t.nodes && s !in home && k != s && k !in moved && k in home && s in t.par
    requires t.par[s] == home[k] && (home[k] in home || home[k] !in t.par) && home[k] != s
    ensures var g := (Shift(t, home, moved, s) - {k})[k := s];
            PushUp(t, g, t.par[s], s) == Moved(home, moved + [k], s)[s := t.par[s]]
  {
    var h := Shift(t, home, moved, s);
    var g := (h - {k})[k := s];
    var d := t.par[s];
    assert g[s := d] == Moved(home, moved + [k], s)[s := d];
    assert s in g ==> g[s] == d;
    assert s in g ==> g == g[s := d];
    assert d in t.nodes;
    assert PushUp(t, g[s := d], ParentOf(t, d), d) == g[s := d];
  }

  // ---------------------------------------------------------------- items

  /** `stream_update_dep_on_attach_item` after `x` became active. */
  lemma ActivateBalances(t: Tree, home: Home, act: set<Stream>, x: Stream)
    requires Ranked(t) && x in t.nodes && Balanced(t, home, act)
    ensures Balanced(t, PushUp(t, home, ParentOf(t, x), x), act + {x})
  {
    hide Ranked, Busy;
    PushUpBalances(t, home, act + {x}, x);
  }

  /** `stream_update_dep_on_detach_item`. */
  ghost function DetachHome(home: Home, act: set<Stream>, x: Stream): Home
  {
    if Busy(home, x) then home else RemoveUp(home, act, x)
  }

  /** After `x` stopped being active. */
  lemma DeactivateBalances(t: Tree, home: Home, act: set<Stream>, x: Stream)
    requires Ranked(t) && x in t.nodes && Balanced(t, home, act)
    ensures Balanced(t, DetachHome(home, act - {x}, x), act - {x})
  {
    hide Ranked, Busy, RemoveUp;
    if !Busy(home, x) {
      RemoveUpBalances(t, home, act - {x}, x);
    }
  }

  /** The same loop run for a stream that stays active settles every stream exactly when it has
      nothing to do: the stream is a root or has a queue of its own. */
  lemma IdleDetachBreaks(t: Tree, home: Home, act: set<Stream>, x: Stream)
    requires Ranked(t) && x in t.nodes && Balanced(t, home, act) && x in act
    ensures Balanced(t, DetachHome(home, act, x), act) <==> x !in t.par || Busy(home, x)
  {
    hide Ranked, Busy, RemoveUp;
    if !Busy(home, x) {
      RemoveUpBalances(t, home, act, x);
    }
  }

  /** An instance: one active stream below a root. Run for it, the loop takes it out of its queue. */
  lemma IdleDetachFails(r: Stream, s: Stream, t: Tree, home: Home, act: set<Stream>)
    requires r != s && t == Tree({r, s}, map[s := r], map[r := [s], s := []], map[r := 0, s := 1], map[r := 16, s := 16])
    requires home == map[s := r] && act == {s}
    ensures Ranked(t) && Balanced(t, home, act) && !Balanced(t, DetachHome(home, act, s), act)
  {
    hide RemoveUp;
    BusyAt(home, s);
    assert !Busy(home, s);
    IdleDetachBreaks(t, home, act, s);
  }

  // ---------------------------------------------------------------- consequences

  /** If a stream is queued, so are all its ancestors except the root. */
  lemma {:induction false} AncestorsQueued(t: Tree, home: Home, act: set<Stream>, x: Stream, a: Stream)
    requires Ranked(t) && Balanced(t, home, act) && x in home && x in t.nodes && Ancestor(t, a, x)
    ensures a in home || (a !in t.par && a == Root(t, x))
    decreases t.rank[x]
  {
    if a != x {
      BusyAt(home, x);
      if t.par[x] in t.par { AncestorsQueued(t, home, act, t.par[x], a); }
    }
  }

  /** Whatever has something to send can be reached from its root. */
  lemma {:induction false} ReadyRoot(t: Tree, home: Home, act: set<Stream>, x: Stream)
    requires Ranked(t) && Balanced(t, home, act) && x in t.nodes && Ready(home, act, x)
    ensures Ready(home, act, Root(t, x))
    decreases t.rank[x]
  {
    if x in t.par {
      BusyAt(home, x);
      ReadyRoot(t, home, act, t.par[x]);
    }
  }
}
