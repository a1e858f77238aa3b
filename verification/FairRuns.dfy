/** Runs of the scheduler on the dependency tree: what one parent sees of them is a run of `Fairness`, so its
    bounds hold between the dependents of every stream. */
module FairRuns {
  import opened StreamQueue
  import opened Forest
  import opened QueueState
  import opened StreamLinks
  import opened Cycles
  import opened Fairness
  import opened FairQueue
  import opened ObqLoops
  import opened PriorityTree
  import opened NextItem

  type LevelMap = map<Stream, Level<Stream>>

  // ---------------------------------------------------------------- levels and times as values

  /** The queues of the levels hold what `home` says. */
  ghost predicate Mirrors(lv: LevelMap, home: Home)
  {
    && (forall p, x :: p in lv && x in lv[p].queue ==> x in home && home[x] == p)
    && (forall x :: x in home ==> home[x] in lv && x in lv[home[x]].queue)
  }

  lemma LevelHolds(home: Home, p: Stream, x: Stream)
    requires QueueAt(p, home)
    ensures x in LevelOf(p).queue <==> x in home && home[x] == p
  {
    hide Indexed;
    QueueFacts(home, p);
    LevelIs(p);
  }

  lemma LevelsMirror(nodes: set<Stream>, home: Home)
    requires Queues(nodes, home) && Closed(nodes)
    ensures Mirrors(Levels(nodes), home)
  {
    hide QueueAt, LevelOf, Levels;
    LevelAt(nodes);
    var lv := Levels(nodes);
    forall p, x | p in lv && x in lv[p].queue ensures x in home && home[x] == p {
      assert p in lv.Keys && lv[p] == LevelOf(p);
      LevelHolds(home, p, x);
    }
    forall x | x in home ensures home[x] in lv && x in lv[home[x]].queue {
      assert home[x] in lv.Keys && lv[home[x]] == LevelOf(home[x]);
      LevelHolds(home, home[x], x);
    }
  }

  /** Cycles of queued streams are those of their entries. */
  ghost predicate Agree(lv: LevelMap, home: Home, tm: map<Stream, Time>)
  {
    forall x :: x in home ==> x in tm && home[x] in lv && x in lv[home[x]].queue && lv[home[x]].queue[x].cycle == tm[x].cycle
  }

  /** On the way up each base is the cycle of the stream below. */
  ghost predicate BasedOn(u: seq<Stream>, lv: LevelMap, tm: map<Stream, Time>)
  {
    forall i, j :: 0 <= i && j == i + 1 && j < |u| ==> u[j] in lv && u[i] in tm && lv[u[j]].base == tm[u[i]].cycle
  }

  lemma BasedIs(nodes: set<Stream>, u: seq<Stream>)
    requires Closed(nodes) && forall i :: 0 <= i < |u| ==> u[i] in nodes
    ensures Based(u) <==> BasedOn(u, Levels(nodes), Times(nodes))
  {
    hide Entries;
    LevelAt(nodes);
    forall i | 0 < i < |u| ensures Levels(nodes)[u[i]].base == u[i].descendantLastCycle { LevelIs(u[i]); }
  }

  /** If the way up from the stream being sent passes `p`, the dependent of `p` on it is being sent there. */
  ghost predicate Sends(u: seq<Stream>, p: Stream, sending: set<Stream>)
  {
    forall i :: 0 < i < |u| && u[i] == p ==> sending == {u[i - 1]}
  }

  /** What is known of the level at `p` and of the stream picked last, while it is queued. */
  ghost predicate Tracked(t: Tree, home: Home, p: Stream, picked: Stream?, st: State<Stream>, lv: LevelMap,
                          tm: map<Stream, Time>)
    requires Ranked(t) && p in lv
  {
    && st.level == lv[p]
    && (picked != null ==>
          && picked in t.nodes && picked in home
          && BasedOn(UpPath(t, picked), lv, tm) && Sends(UpPath(t, picked), p, st.sending))
  }

  /** The streams on the way up from a queued stream are queued, but for the root. */
  lemma PathQueued(t: Tree, home: Home, act: set<Stream>, s: Stream)
    requires Ranked(t) && Balanced(t, home, act) && s in home && s in t.nodes
    ensures forall i :: 0 <= i < |UpPath(t, s)| - 1 ==> UpPath(t, s)[i] in home && home[UpPath(t, s)[i]] == UpPath(t, s)[i + 1]
    ensures forall i :: 0 <= i < |UpPath(t, s)| ==> UpPath(t, s)[i] in home || UpPath(t, s)[i] !in t.par
  {
    hide Balanced;
    var u := UpPath(t, s);
    forall i | 0 <= i < |u| ensures (u[i] in home || u[i] !in t.par) && (i < |u| - 1 ==> u[i] in home && home[u[i]] == u[i + 1]) {
      PathQueuedAt(t, home, act, s, i);
    }
  }

  lemma {:induction false} PathQueuedAt(t: Tree, home: Home, act: set<Stream>, s: Stream, k: nat)
    requires Ranked(t) && Balanced(t, home, act) && s in home && s in t.nodes && k < |UpPath(t, s)|
    ensures var u := UpPath(t, s);
            (u[k] in home || u[k] !in t.par) && (k < |u| - 1 ==> u[k] in home && home[u[k]] == u[k + 1])
  {
    if k > 0 {
      PathQueuedAt(t, home, act, s, k - 1);
      BusyAt(home, UpPath(t, s)[k - 1]);
      assert UpPath(t, s)[k] in t.par ==> Settled(home, act, UpPath(t, s)[k]);
    }
  }

  // ---------------------------------------------------------------- arrivals

  ghost predicate Fit(nodes: set<Stream>, tm: map<Stream, Time>)
    requires tm.Keys == nodes
    reads nodes`weight
  {
    forall x :: x in nodes ==> 1 <= x.weight <= 256 && tm[x].writelen <= MAX_FRAME && tm[x].pending <= 255
  }

  lemma TimelyFit(nodes: set<Stream>)
    requires Timely(nodes)
    ensures Fit(nodes, Times(nodes))
  {
    hide InOrder;
  }

  /** What `p` sees of a push: nothing or one arrival. */
  lemma PushedAt(nodes: set<Stream>, home: Home, h: Home, lv: LevelMap, tm: map<Stream, Time>, lw: LevelMap, p: Stream,
                 st: State<Stream>)
    returns (es: seq<Event<Stream>>)
    requires lv.Keys == nodes && tm.Keys == nodes && lw.Keys == nodes && Pushed(nodes, home, h, lv, tm, lw)
    requires Fit(nodes, tm) && Mirrors(lv, home) && p in nodes && st.level == lv[p]
    ensures Run(st, es) && Final(st, es) == State(lw[p], st.sending) && Silent(es) && Keeps(es, h)
  {
    hide Gained, Arrived, Run, Final;
    if Gained(home, h, p) {
      var x := Gainer(home, h, p);
      var e := Arrive(x, x.weight, tm[x].writelen, tm[x].pending);
      es := [e];
      RunOne(st, e);
    } else {
      es := [];
      Nothing(st);
    }
  }

  lemma Gainer(home: Home, h: Home, p: Stream) returns (x: Stream)
    requires Gained(home, h, p)
    ensures x in h && x !in home && h[x] == p
  {
    x :| x in h && x !in home && h[x] == p;
  }

  /** Whoever leaves is not queued in `h`. */
  ghost predicate Keeps(es: seq<Event<Stream>>, h: Home)
  {
    forall i :: 0 <= i < |es| && es[i].Leave? ==> es[i].id !in h
  }

  /** Nothing is sent. */
  ghost predicate Silent(es: seq<Event<Stream>>)
  {
    forall i :: 0 <= i < |es| ==> !es[i].Sent?
  }

  lemma RunOne(st: State<Stream>, e: Event<Stream>)
    requires Enabled(st, e)
    ensures Run(st, [e]) && Final(st, [e]) == After(st, e)
  {
    var es := [e];
    assert es[..0] == [];
  }

  lemma PushedBases(nodes: set<Stream>, home: Home, h: Home, lv: LevelMap, tm: map<Stream, Time>, lw: LevelMap)
    requires lv.Keys == nodes && tm.Keys == nodes && lw.Keys == nodes && Pushed(nodes, home, h, lv, tm, lw)
    ensures forall p :: p in nodes ==> lw[p].base == lv[p].base
  {
    hide Gained, Scheduled;
    forall p | p in nodes ensures lw[p].base == lv[p].base {
      if Gained(home, h, p) { var x := Gainer(home, h, p); }
    }
  }

  /** A push leaves the stream picked last on track. */
  lemma PushStep(t: Tree, home: Home, h: Home, act: set<Stream>, p: Stream, picked: Stream?, st: State<Stream>,
                 lv: LevelMap, tm: map<Stream, Time>, lw: LevelMap, tw: map<Stream, Time>)
    returns (es: seq<Event<Stream>>)
    requires Ranked(t) && Balanced(t, home, act) && lv.Keys == lw.Keys == tm.Keys == tw.Keys == t.nodes && p in t.nodes
    requires Pushed(t.nodes, home, h, lv, tm, lw) && Fit(t.nodes, tm) && Mirrors(lv, home)
    requires Tracked(t, home, p, picked, st, lv, tm)
    requires forall x :: x in home ==> x in h && (x in t.nodes ==> tw[x] == tm[x])
    ensures Run(st, es) && Silent(es) && Keeps(es, h) && Tracked(t, h, p, picked, Final(st, es), lw, tw)
  {
    hide Ranked, Balanced, Pushed, UpPath, Mirrors, Fit, Run, Final;
    es := PushedAt(t.nodes, home, h, lv, tm, lw, p, st);
    PushedBases(t.nodes, home, h, lv, tm, lw);
    if picked != null { PathQueued(t, home, act, picked); }
  }

  // ---------------------------------------------------------------- departures

  lemma Drainer(home: Home, h: Home, p: Stream) returns (x: Stream)
    requires Drained(home, h, p)
    ensures x in home && x !in h && home[x] == p
  {
    x :| x in home && x !in h && home[x] == p;
  }

  lemma MirrorsAt(lv: LevelMap, home: Home, x: Stream)
    requires Mirrors(lv, home) && x in home
    ensures home[x] in lv && x in lv[home[x]].queue
  {}

  lemma EmptyLevel(lw: LevelMap, h: Home, p: Stream)
    requires Mirrors(lw, h) && p in lw && !Busy(h, p)
    ensures lw[p].queue == map[]
  {
    assert forall x :: x in lw[p].queue ==> h[x] == p;
  }

  /** What `p` sees of a removal: nothing, a departure, or a departure and a new start. */
  lemma RemovedAt(nodes: set<Stream>, home: Home, h: Home, lv: LevelMap, lw: LevelMap, p: Stream, st: State<Stream>)
    returns (es: seq<Event<Stream>>)
    requires lv.Keys == nodes && lw.Keys == nodes && Removed(nodes, home, h, lv, lw)
    requires Mirrors(lv, home) && Mirrors(lw, h) && p in nodes && st.level == lv[p] && (Gone(home, h, p) ==> !Busy(h, p))
    ensures Run(st, es) && Final(st, es).level == lw[p] && Silent(es) && Keeps(es, h)
    ensures !Gone(home, h, p) ==>
              Final(st, es).sending <= st.sending && forall x :: x in st.sending && x in h ==> x in Final(st, es).sending
  {
    hide Drained, Busy, Run, Final, Mirrors;
    if Gone(home, h, p) { EmptyLevel(lw, h, p); }
    Nothing(st);
    if Drained(home, h, p) {
      var x := Drainer(home, h, p);
      MirrorsAt(lv, home, x);
      RunOne(st, Leave(x));
      es := [Leave(x)];
      if Gone(home, h, p) {
        RunTwo(st, Leave(x), Restart);
        es := [Leave(x), Restart];
      }
    } else if Gone(home, h, p) {
      RunOne(st, Restart);
      es := [Restart];
    } else {
      es := [];
    }
  }

  lemma RunTwo(st: State<Stream>, e: Event<Stream>, f: Event<Stream>)
    requires Enabled(st, e) && Enabled(After(st, e), f)
    ensures Run(st, [e, f]) && Final(st, [e, f]) == After(After(st, e), f)
  {
    RunOne(st, e);
    var es := [e, f];
    assert es[..1] == [e];
  }

  /** A removal that leaves the stream picked last queued leaves it on track. */
  lemma RemoveStepOf(t: Tree, home: Home, h: Home, act: set<Stream>, p: Stream, picked: Stream?, st: State<Stream>,
                     lv: LevelMap, tm: map<Stream, Time>, lw: LevelMap, tw: map<Stream, Time>)
    returns (es: seq<Event<Stream>>)
    requires Ranked(t) && AtParents(t, home) && Balanced(t, h, act)
    requires lv.Keys == lw.Keys == tm.Keys == tw.Keys == t.nodes && p in t.nodes
    requires Removed(t.nodes, home, h, lv, lw) && Mirrors(lv, home) && Mirrors(lw, h)
    requires Tracked(t, home, p, picked, st, lv, tm) && (picked != null ==> picked in h)
    requires forall x :: x in h ==> x in home && (x in t.nodes ==> tw[x] == tm[x])
    ensures Run(st, es) && Silent(es) && Keeps(es, h) && Tracked(t, h, p, picked, Final(st, es), lw, tw)
  {
    hide Ranked, UpPath, Mirrors, Run, Final, Busy, Silent;
    assert Gone(home, h, p) ==> !Busy(h, p) by { if Gone(home, h, p) { assert Settled(h, act, p); } }
    es := RemovedAt(t.nodes, home, h, lv, lw, p, st);
    if picked != null {
      PathQueued(t, h, act, picked);
      hide Balanced, Removed;
      RemovedBases(t, home, h, lv, lw, UpPath(t, picked));
      StillSends(t, home, h, p, UpPath(t, picked), st.sending, Final(st, es).sending);
    }
  }

  lemma RemovedBases(t: Tree, home: Home, h: Home, lv: LevelMap, lw: LevelMap, u: seq<Stream>)
    requires lv.Keys == lw.Keys == t.nodes && Removed(t.nodes, home, h, lv, lw) && AtParents(t, home)
    requires forall i :: 0 <= i < |u| ==> u[i] in t.nodes && (u[i] in h || u[i] !in t.par)
    ensures forall i :: 0 <= i < |u| ==> lw[u[i]].base == lv[u[i]].base
  {
    hide Drained;
    forall i | 0 <= i < |u| ensures lw[u[i]].base == lv[u[i]].base {
      if Drained(home, h, u[i]) { var x := Drainer(home, h, u[i]); }
    }
  }

  lemma StillSends(t: Tree, home: Home, h: Home, p: Stream, u: seq<Stream>, before: set<Stream>, after: set<Stream>)
    requires Sends(u, p, before) && AtParents(t, home)
    requires forall i :: 0 <= i < |u| ==> u[i] in h || u[i] !in t.par
    requires forall i :: 0 <= i < |u| - 1 ==> u[i] in h
    requires !Gone(home, h, p) ==> after <= before && forall x :: x in before && x in h ==> x in after
    ensures Sends(u, p, after)
  {
    forall i | 0 < i < |u| && u[i] == p ensures after == {u[i - 1]} {
      assert u[i - 1] in before && u[i - 1] in h;
    }
  }

  // ---------------------------------------------------------------- picks and sendings

  lemma Passer(u: seq<Stream>, k: nat, p: Stream) returns (i: nat)
    requires Passed(u, k, p)
    ensures 0 < i <= k && i < |u| && u[i] == p
  {
    i :| 0 < i <= k && i < |u| && u[i] == p;
  }

  lemma SendsThere(u: seq<Stream>, p: Stream, i: nat)
    requires Distinct(u) && 0 < i < |u| && u[i] == p
    ensures Sends(u, p, {u[i - 1]})
  {}

  lemma SendsNowhere(u: seq<Stream>, p: Stream, sending: set<Stream>)
    requires u != [] && !Passed(u, |u| - 1, p)
    ensures Sends(u, p, sending)
  {}

  /** What `p` sees of a choice: nothing or one pick, after which the stream chosen is on track. */
  lemma PickStep(t: Tree, home: Home, act: set<Stream>, p: Stream, s: Stream, st: State<Stream>, lv: LevelMap,
                 tm: map<Stream, Time>, lw: LevelMap)
    returns (es: seq<Event<Stream>>)
    requires Ranked(t) && s in t.nodes && lv.Keys == lw.Keys == tm.Keys == t.nodes && p in t.nodes && st.level == lv[p]
    requires var u := UpPath(t, s); Picked(u, |u| - 1, lv, lw) && MinimaUp(u, lv)
    requires Mirrors(lv, home) && Agree(lv, home, tm)
    requires forall i :: 0 <= i < |UpPath(t, s)| ==> UpPath(t, s)[i].cycle == tm[UpPath(t, s)[i]].cycle
    ensures Run(st, es) && Silent(es) && Keeps(es, home) && Final(st, es).level == lw[p]
    ensures BasedOn(UpPath(t, s), lw, tm) && Sends(UpPath(t, s), p, Final(st, es).sending)
  {
    hide Ranked, UpPath, Passed, First, Distinct, Mirrors, Agree, Sends, MinimaUp;
    var u := UpPath(t, s);
    PathDistinct(t, s);
    if Passed(u, |u| - 1, p) {
      var i := Passer(u, |u| - 1, p);
      FirstOnPath(u, lv, i);
      FirstThere(lv, home, tm, p, u[i - 1]);
      RunOne(st, Pick(u[i - 1]));
      es := [Pick(u[i - 1])];
      SendsThere(u, p, i);
    } else {
      es := [];
      SendsNowhere(u, p, st.sending);
    }
    assert BasedOn(u, lw, tm);
  }

  lemma FirstOnPath(u: seq<Stream>, lv: LevelMap, i: nat)
    requires MinimaUp(u, lv) && 0 < i < |u|
    ensures u[i] in lv && First(lv[u[i]], u[i - 1])
  {
    hide First;
    var k, j := i - 1, i;
    assert u[j] in lv && First(lv[u[j]], u[k]);
  }

  lemma FirstThere(lv: LevelMap, home: Home, tm: map<Stream, Time>, p: Stream, x: Stream)
    requires p in lv && First(lv[p], x) && Mirrors(lv, home) && Agree(lv, home, tm)
    ensures x in lv[p].queue && x in tm && lv[p].queue[x].cycle == tm[x].cycle
  {}

  /** What was sent, and for which stream. */
  datatype Sending = Sending(stream: Stream, octets: nat)

  ghost predicate Logged(t: Tree, log: seq<Sending>)
  {
    forall i :: 0 <= i < |log| ==> log[i].stream in t.nodes
  }

  /** The octets sent for `x` and the streams below it. */
  ghost function Carried(t: Tree, log: seq<Sending>, x: Stream): nat
    requires Ranked(t) && Logged(t, log)
  {
    if log == [] then 0 else
    var e := log[|log| - 1];
    Carried(t, log[..|log| - 1], x) + if Ancestor(t, x, e.stream) then e.octets else 0
  }

  /** Nothing was sent for `x` or a stream below it. */
  ghost predicate NoneBelow(t: Tree, log: seq<Sending>, x: Stream)
    requires Ranked(t) && Logged(t, log)
  {
    forall i :: 0 <= i < |log| ==> !Ancestor(t, x, log[i].stream)
  }

  /** No event is a sending by `x`. */
  ghost predicate Quiet(es: seq<Event<Stream>>, x: Stream)
  {
    forall i :: 0 <= i < |es| && es[i].Sent? ==> es[i].id != x
  }

  /** The events at the parent of `x` account for what was sent below `x`. */
  ghost predicate Tallies(t: Tree, es: seq<Event<Stream>>, log: seq<Sending>, x: Stream)
    requires Ranked(t) && Logged(t, log)
  {
    BytesOf(es, x) == Carried(t, log, x) && (NoneBelow(t, log, x) ==> Quiet(es, x))
  }

  ghost predicate Tally(t: Tree, p: Stream, es: seq<Event<Stream>>, log: seq<Sending>)
    requires Ranked(t) && Logged(t, log)
  {
    forall x :: x in t.par && t.par[x] == p ==> Tallies(t, es, log, x)
  }

  lemma CarriedOne(t: Tree, e: Sending, x: Stream)
    requires Ranked(t) && e.stream in t.nodes
    ensures Carried(t, [e], x) == if Ancestor(t, x, e.stream) then e.octets else 0
    ensures NoneBelow(t, [e], x) <==> !Ancestor(t, x, e.stream)
  {
    hide Ancestor, Ranked;
    var log := [e];
    assert log[..0] == [] && log[0] == e;
  }

  /** What `p` sees of a sending: nothing, or a sending by its dependent on the way up. */
  lemma SentStep(t: Tree, home: Home, p: Stream, s: Stream, n: nat, st: State<Stream>, lv: LevelMap,
                 tm: map<Stream, Time>, lw: LevelMap)
    returns (es: seq<Event<Stream>>)
    requires Ranked(t) && s in t.nodes && lv.Keys == lw.Keys == t.nodes && p in t.nodes && n <= MAX_FRAME
    requires var u := UpPath(t, s); Resent(u, |u| - 1, n, lv, lw) && Tracked(t, home, p, s, st, lv, tm)
    ensures Run(st, es) && Final(st, es).level == lw[p] && Keeps(es, home)
    ensures Tally(t, p, es, [Sending(s, n)])
  {
    hide Ranked, UpPath, Passed, Rescheduled, Ancestor;
    var u := UpPath(t, s);
    if Passed(u, |u| - 1, p) {
      var i := Passer(u, |u| - 1, p);
      var e := Event.Sent(u[i - 1], n);
      assert st.sending == {u[i - 1]};
      RunOne(st, e);
      es := [e];
      forall x | x in t.par && t.par[x] == p ensures Tallies(t, es, [Sending(s, n)], x) {
        BytesOne(e, x);
        PassesBy(t, s, p, i, x);
        CarriedOne(t, Sending(s, n), x);
      }
    } else {
      es := [];
      forall x | x in t.par && t.par[x] == p ensures Tallies(t, es, [Sending(s, n)], x) {
        PassesNot(t, s, p, x);
        CarriedOne(t, Sending(s, n), x);
      }
    }
  }

  lemma BytesOne(e: Event<Stream>, x: Stream)
    ensures BytesOf([e], x) == if e.Sent? && e.id == x then e.writelen else 0
  {
    var es := [e];
    assert es[..0] == [];
  }

  lemma PassesBy(t: Tree, s: Stream, p: Stream, i: nat, x: Stream)
    requires Ranked(t) && s in t.nodes && 0 < i < |UpPath(t, s)| && UpPath(t, s)[i] == p && x in t.par && t.par[x] == p
    ensures Ancestor(t, x, s) <==> x == UpPath(t, s)[i - 1]
  {
    hide UpPath, Ranked, Ancestor;
    var u := UpPath(t, s);
    UpPathIsAncestors(t, s, x);
    PathDistinct(t, s);
    if x in u {
      var j :| 0 <= j < |u| && u[j] == x;
      assert j < |u| - 1 && u[j + 1] == p;
    }
  }

  lemma PassesNot(t: Tree, s: Stream, p: Stream, x: Stream)
    requires Ranked(t) && s in t.nodes && !Passed(UpPath(t, s), |UpPath(t, s)| - 1, p) && x in t.par && t.par[x] == p
    ensures !Ancestor(t, x, s)
  {
    hide UpPath, Ranked, Ancestor;
    var u := UpPath(t, s);
    UpPathIsAncestors(t, s, x);
    forall j | 0 <= j < |u| ensures u[j] != x {
      assert j < |u| - 1 ==> u[j + 1] != p;
    }
  }

  lemma {:induction false} SilentBytes(es: seq<Event<Stream>>, x: Stream)
    requires Silent(es)
    ensures BytesOf(es, x) == 0
  {
    if es != [] { SilentBytes(es[..|es| - 1], x); }
  }

  lemma SilentTally(t: Tree, p: Stream, es: seq<Event<Stream>>)
    requires Ranked(t) && Silent(es)
    ensures Tally(t, p, es, [])
  {
    forall x | x in t.par && t.par[x] == p ensures Tallies(t, es, [], x) { SilentBytes(es, x); }
  }

  // ---------------------------------------------------------------- the steps of a run

  ghost predicate Good(t: Tree, home: Home, act: set<Stream>)
    reads t.nodes
  {
    TreeValid(t) && QueuesValid(t, home, act) && Timely(t.nodes)
  }

  lemma GoodFacts(t: Tree, home: Home, act: set<Stream>)
    requires Good(t, home, act)
    ensures TreeValid(t) && Ranked(t) && QueuesValid(t, home, act) && Balanced(t, home, act) && Closed(t.nodes)
    ensures Timely(t.nodes) && Queues(t.nodes, home) && Fit(t.nodes, Times(t.nodes))
    ensures Mirrors(Levels(t.nodes), home) && Agree(Levels(t.nodes), home, Times(t.nodes))
  {
    hide Balanced, QueuesHold, Levels, Times, Mirrors, Agree, Linked, Weighted, Listed, InOrder;
    TimelyFit(t.nodes);
    LevelsMirror(t.nodes, home);
    LevelsAgree(t.nodes, home);
  }

  lemma LevelsAgree(nodes: set<Stream>, home: Home)
    requires Queues(nodes, home) && Closed(nodes)
    ensures Agree(Levels(nodes), home, Times(nodes))
  {
    hide QueueAt, LevelOf, Levels;
    LevelAt(nodes);
    var lv := Levels(nodes);
    forall x | x in home ensures home[x] in lv && x in lv[home[x]].queue && lv[home[x]].queue[x].cycle == x.cycle {
      assert home[x] in lv.Keys && lv[home[x]] == LevelOf(home[x]);
      QueueFacts(home, home[x]);
      EntryIs(home[x], x);
    }
  }

  ghost predicate TrackedNow(t: Tree, home: Home, p: Stream, picked: Stream?, st: State<Stream>)
    requires Ranked(t) && p in t.nodes && Closed(t.nodes)
    reads t.nodes
  {
    Tracked(t, home, p, picked, st, Levels(t.nodes), Times(t.nodes))
  }

  /** Between two steps: the tree and its queues are right and the level at `p` is that of `st`. */
  ghost predicate Ongoing(t: Tree, home: Home, act: set<Stream>, p: Stream, picked: Stream?, st: State<Stream>)
    requires Ranked(t) && p in t.nodes
    reads t.nodes
  {
    Good(t, home, act) && Closed(t.nodes) && TrackedNow(t, home, p, picked, st)
  }

  /** A step after which `p` has seen the events `es`. */
  ghost predicate Stepped(t: Tree, home: Home, act: set<Stream>, p: Stream, picked: Stream?, st: State<Stream>,
                          es: seq<Event<Stream>>)
    requires Ranked(t) && p in t.nodes
    reads t.nodes
  {
    Run(st, es) && Keeps(es, home) && Ongoing(t, home, act, p, picked, Final(st, es))
  }

  ghost predicate SentTally(t: Tree, p: Stream, es: seq<Event<Stream>>, s: Stream, n: nat)
    requires Ranked(t) && s in t.nodes
  {
    Tally(t, p, es, [Sending(s, n)])
  }

  lemma KeptTimes(nodes: set<Stream>, home: Home, h: Home, tm: map<Stream, Time>)
    requires tm.Keys == nodes
    ensures Kept(nodes, home, h, tm) ==> forall x :: x in home && x in nodes ==> Times(nodes)[x] == tm[x]
    ensures Faded(nodes, home, h, tm) ==> forall x :: x in h && x in nodes ==> Times(nodes)[x] == tm[x]
  {}

  /** `nghttp2_stream_attach_item`, where it is allowed. */
  method DoAttach(ghost t: Tree, ghost home: Home, ghost act: set<Stream>, ghost p: Stream, ghost picked: Stream?,
                  ghost st: State<Stream>, x: Stream)
    returns (ghost h: Home, ghost now: set<Stream>, ghost es: seq<Event<Stream>>)
    requires Ranked(t) && x in t.nodes && p in t.nodes && Ongoing(t, home, act, p, picked, st)
    modifies t.nodes
    ensures Stepped(t, h, now, p, picked, st, es) && Silent(es)
  {
    hide TreeValid, QueuesValid, Balanced, Queues, PushUp, Ranked, Levels, Times, Pushed, Kept, Timely, Closed,
      Mirrors, Agree, Tracked, Fit, Silent, Keeps, Run, Final;
    GoodFacts(t, home, act);
    h, now, es := home, act, [];
    if x.hasItem || x.deferred != {} {
      Nothing(st);
      return;
    }
    ghost var lv, tm := Levels(t.nodes), Times(t.nodes);
    h := AttachItem(t, home, act, x);
    now := act + {x};
    NearRoot(t, x);
    PushUpGrows(t, home, ParentOf(t, x), x);
    KeptTimes(t.nodes, home, h, tm);
    es := PushStep(t, home, h, act, p, picked, st, lv, tm, Levels(t.nodes), Times(t.nodes));
  }

  lemma Nothing(st: State<Stream>)
    ensures Run(st, []) && Final(st, []) == st && Silent([])
    ensures forall home: Home :: Keeps([], home)
  {}

  /** `nghttp2_stream_resume_deferred_item`, where it is allowed. */
  method DoResume(ghost t: Tree, ghost home: Home, ghost act: set<Stream>, ghost p: Stream, ghost picked: Stream?,
                  ghost st: State<Stream>, x: Stream, flags: set<Deferral>)
    returns (ghost h: Home, ghost now: set<Stream>, ghost es: seq<Event<Stream>>)
    requires Ranked(t) && x in t.nodes && p in t.nodes && Ongoing(t, home, act, p, picked, st)
    modifies t.nodes
    ensures Stepped(t, h, now, p, picked, st, es) && Silent(es)
  {
    hide TreeValid, QueuesValid, Balanced, Queues, PushUp, Ranked, Levels, Times, Pushed, Kept, Timely, Closed,
      Mirrors, Agree, Tracked, Fit, Silent, Keeps, Run, Final;
    GoodFacts(t, home, act);
    h, now, es := home, act, [];
    if !x.hasItem {
      Nothing(st);
      return;
    }
    ghost var lv, tm := Levels(t.nodes), Times(t.nodes);
    h, now := ResumeDeferredItem(t, home, act, x, flags);
    NearRoot(t, x);
    PushUpGrows(t, home, ParentOf(t, x), x);
    KeptTimes(t.nodes, home, h, tm);
    es := PushStep(t, home, h, act, p, picked, st, lv, tm, Levels(t.nodes), Times(t.nodes));
  }

  lemma DetachShrinks(home: Home, act: set<Stream>, x: Stream)
    ensures forall y :: y in DetachHome(home, act, x) ==> y in home && DetachHome(home, act, x)[y] == home[y]
  {
    RemoveUpShrinks(home, act, x);
  }

  lemma BalancedAt(t: Tree, home: Home, act: set<Stream>)
    requires Balanced(t, home, act)
    ensures AtParents(t, home)
  {}

  /** `picked`, unless it has left its queue. */
  method StillPicked(ghost t: Tree, ghost home: Home, picked: Stream?) returns (next: Stream?)
    requires Queues(t.nodes, home) && (picked != null ==> picked in t.nodes)
    ensures next == if picked != null && picked in home then picked else null
  {
    hide QueuesHold;
    next := if picked != null && picked.queued then picked else null;
  }

  /** `nghttp2_stream_detach_item`. */
  method DoDetach(ghost t: Tree, ghost home: Home, ghost act: set<Stream>, ghost p: Stream, picked: Stream?,
                  ghost st: State<Stream>, x: Stream)
    returns (ghost h: Home, ghost now: set<Stream>, next: Stream?, ghost es: seq<Event<Stream>>)
    requires Ranked(t) && x in t.nodes && p in t.nodes && Ongoing(t, home, act, p, picked, st)
    modifies t.nodes
    ensures Stepped(t, h, now, p, next, st, es) && Silent(es)
  {
    hide TreeValid, QueuesValid, Balanced, Queues, RemoveUp, Ranked, Levels, Times, Removed, Faded, Timely, Closed,
      Mirrors, Agree, Fit, Silent, Keeps, Run, Final, DetachHome, AtParents, UpPath, BasedOn, Sends;
    GoodFacts(t, home, act);
    BalancedAt(t, home, act);
    ghost var lv, tm := Levels(t.nodes), Times(t.nodes);
    now := act - {x};
    h := DetachItem(t, home, act, x);
    GoodFacts(t, h, now);
    DetachShrinks(home, now, x);
    KeptTimes(t.nodes, home, h, tm);
    next := StillPicked(t, h, picked);
    es := RemoveStepOf(t, home, h, now, p, next, st, lv, tm, Levels(t.nodes), Times(t.nodes));
  }

  /** `nghttp2_stream_defer_item` for some reason. */
  method DoDefer(ghost t: Tree, ghost home: Home, ghost act: set<Stream>, ghost p: Stream, picked: Stream?,
                 ghost st: State<Stream>, x: Stream, flags: set<Deferral>)
    returns (ghost h: Home, ghost now: set<Stream>, next: Stream?, ghost es: seq<Event<Stream>>)
    requires Ranked(t) && x in t.nodes && p in t.nodes && Ongoing(t, home, act, p, picked, st)
    requires x.hasItem && x.deferred + flags != {}
    modifies t.nodes
    ensures Stepped(t, h, now, p, next, st, es) && Silent(es)
  {
    hide TreeValid, QueuesValid, Balanced, Queues, RemoveUp, Ranked, Levels, Times, Removed, Faded, Timely, Closed,
      Mirrors, Agree, Fit, Silent, Keeps, Run, Final, DetachHome, AtParents, UpPath, BasedOn, Sends;
    GoodFacts(t, home, act);
    BalancedAt(t, home, act);
    ghost var lv, tm := Levels(t.nodes), Times(t.nodes);
    h, now := DeferItem(t, home, act, x, flags);
    assert QueuesValid(t, h, now);
    GoodFacts(t, h, now);
    DetachShrinks(home, now, x);
    KeptTimes(t.nodes, home, h, tm);
    next := StillPicked(t, h, picked);
    es := RemoveStepOf(t, home, h, now, p, next, st, lv, tm, Levels(t.nodes), Times(t.nodes));
  }

  /** `nghttp2_stream_next_outbound_item` of the root. */
  method DoNext(ghost t: Tree, ghost home: Home, ghost act: set<Stream>, ghost p: Stream, ghost picked: Stream?,
                ghost st: State<Stream>, r: Stream)
    returns (next: Stream?, ghost es: seq<Event<Stream>>)
    requires Ranked(t) && r in t.nodes && r !in t.par && p in t.nodes && Ongoing(t, home, act, p, picked, st)
    modifies t.nodes`descendantLastCycle
    ensures Stepped(t, home, act, p, next, st, es) && Silent(es)
  {
    hide TreeValid, QueuesValid, Balanced, Queues, Ranked, Levels, Timely, Closed, Mirrors, Agree, Fit, Silent,
      Keeps, Run, Final, UpPath, BasedOn, Sends, Picked, MinimaUp, ParentOf, Times, Acts, NoneActiveBelow,
      NoneActiveBetween, TopPath, Minima, Ancestor;
    GoodFacts(t, home, act);
    ghost var lv, tm := Levels(t.nodes), Times(t.nodes);
    forall x | x in t.nodes ensures x.depPrev == ParentOf(t, x) { ParentOfIs(t, x); }
    ActsOf(t, home, act);
    next, es := null, [];
    var s, path := NextOutboundItem(t, home, act, r);
    Nothing(st);
    if s != null {
      CyclesAre(t.nodes, UpPath(t, s));
      es := PickStep(t, home, act, p, s, st, lv, tm, Levels(t.nodes));
      next := StillPicked(t, home, s);
    }
  }

  lemma CyclesAre(nodes: set<Stream>, u: seq<Stream>)
    requires forall i :: 0 <= i < |u| ==> u[i] in nodes
    ensures forall i :: 0 <= i < |u| ==> u[i].cycle == Times(nodes)[u[i]].cycle
  {}

  lemma ParentOfIs(t: Tree, x: Stream)
    requires TreeValid(t) && x in t.nodes
    ensures x.depPrev == ParentOf(t, x)
  {
    hide Weighted;
    ParentIs(t, x);
  }

  lemma ActsOf(t: Tree, home: Home, act: set<Stream>)
    requires QueuesValid(t, home, act)
    ensures Acts(t.nodes, act)
  {}

  /** `reschedule_stream` of the session, for the stream picked last. */
  method DoSent(ghost t: Tree, ghost home: Home, ghost act: set<Stream>, ghost p: Stream, s: Stream,
                ghost st: State<Stream>, n: nat)
    returns (ghost es: seq<Event<Stream>>)
    requires Ranked(t) && s in t.nodes && p in t.nodes && Ongoing(t, home, act, p, s, st) && n <= MAX_FRAME
    modifies t.nodes
    ensures Stepped(t, home, act, p, null, st, es) && SentTally(t, p, es, s, n)
  {
    hide TreeValid, QueuesValid, Balanced, Queues, Ranked, Levels, Times, Timely, Closed, Mirrors, Agree, Fit, Run,
      Final, UpPath, BasedOn, Sends, Resent, Climbable, Weighty, Tally, Keeps, Based, Wrote, Acts;
    GoodFacts(t, home, act);
    ghost var lv, tm := Levels(t.nodes), Times(t.nodes);
    BasedIs(t.nodes, UpPath(t, s));
    ActsOf(t, home, act);
    Report(t, home, act, s, n);
    es := SentStep(t, home, p, s, n, st, lv, tm, Levels(t.nodes));
    QueuesValidFrom(t, home, act);
  }

  method Report(ghost t: Tree, ghost home: Home, ghost act: set<Stream>, s: Stream, n: nat)
    requires Ranked(t) && s in home && s in t.nodes && Balanced(t, home, act) && TreeValid(t) && Queues(t.nodes, home)
    requires Closed(t.nodes) && Timely(t.nodes) && Based(UpPath(t, s)) && n <= MAX_FRAME
    modifies t.nodes`obq, t.nodes`index, t.nodes`cycle, t.nodes`pendingPenalty, t.nodes`seqNo,
             t.nodes`descendantNextSeq, t.nodes`lastWritelen
    ensures Queues(t.nodes, home) && Closed(t.nodes) && Timely(t.nodes)
    ensures Resent(UpPath(t, s), |UpPath(t, s)| - 1, n, old(Levels(t.nodes)), Levels(t.nodes))
  {
    hide TreeValid, Balanced, Queues, Ranked, Levels, Timely, Closed, UpPath, Resent, Climbable, Weighty, Based,
      Wrote;
    SetWritelen(t.nodes, s, n);
    Climb(t, s);
    Reschedule(t, home, act, s);
  }

  lemma QueuesValidFrom(t: Tree, home: Home, act: set<Stream>)
    requires Balanced(t, home, act) && Queues(t.nodes, home) && Acts(t.nodes, act)
    ensures QueuesValid(t, home, act)
  {}

  method SetWritelen(ghost nodes: set<Stream>, s: Stream, n: nat)
    requires s in nodes && n <= MAX_FRAME && Timely(nodes)
    modifies s`lastWritelen
    ensures Timely(nodes) && s.lastWritelen == n
  {
    hide InOrder;
    s.lastWritelen := n;
  }

  // ---------------------------------------------------------------- runs

  datatype Op =
    | Attach(x: Stream)
    | Detach(x: Stream)
    | Defer(x: Stream, flags: set<Deferral>)
    | Resume(x: Stream, flags: set<Deferral>)
    | Next             // choose from the root
    | Reported(n: nat) // the stream chosen last sent `n` octets

  predicate OnTree(nodes: set<Stream>, op: Op)
  {
    op.Next? || op.Reported? || op.x in nodes
  }

  /** One operation, or nothing where the code does not allow it. */
  method Do(ghost t: Tree, ghost home: Home, ghost act: set<Stream>, r: Stream, ghost p: Stream, picked: Stream?,
            ghost st: State<Stream>, op: Op)
    returns (ghost h: Home, ghost now: set<Stream>, next: Stream?, ghost es: seq<Event<Stream>>, sent: seq<Sending>)
    requires Ranked(t) && r in t.nodes && r !in t.par && p in t.nodes && Ongoing(t, home, act, p, picked, st)
    requires OnTree(t.nodes, op)
    modifies t.nodes
    ensures Stepped(t, h, now, p, next, st, es) && Logged(t, sent) && Tally(t, p, es, sent)
  {
    hide Ranked, Stepped, Tally, Silent, Ongoing;
    h, now, next, es, sent := home, act, picked, [], [];
    match op {
      case Attach(x) => h, now, es := DoAttach(t, home, act, p, picked, st, x);
      case Resume(x, flags) => h, now, es := DoResume(t, home, act, p, picked, st, x, flags);
      case Detach(x) => h, now, next, es := DoDetach(t, home, act, p, picked, st, x);
      case Defer(x, flags) =>
        if x.hasItem && x.deferred + flags != {} {
          h, now, next, es := DoDefer(t, home, act, p, picked, st, x, flags);
        } else {
          NoStep(t, home, act, p, picked, st);
        }
      case Next => next, es := DoNext(t, home, act, p, picked, st, r);
      case Reported(n) =>
        if picked != null && n <= MAX_FRAME {
          PickedThere(t, home, act, p, picked, st);
          es := DoSent(t, home, act, p, picked, st, n);
          next, sent := null, [Sending(picked, n)];
        } else {
          NoStep(t, home, act, p, picked, st);
        }
    }
    if sent == [] { SilentTally(t, p, es); }
  }

  lemma NoStep(t: Tree, home: Home, act: set<Stream>, p: Stream, picked: Stream?, st: State<Stream>)
    requires Ranked(t) && p in t.nodes && Ongoing(t, home, act, p, picked, st)
    ensures Stepped(t, home, act, p, picked, st, []) && Silent([])
  {
    Nothing(st);
  }

  lemma PickedThere(t: Tree, home: Home, act: set<Stream>, p: Stream, picked: Stream, st: State<Stream>)
    requires Ranked(t) && p in t.nodes && Ongoing(t, home, act, p, picked, st)
    ensures picked in t.nodes
  {
    hide Good, Levels, Times, UpPath;
  }

  lemma {:induction false} RunAppend(st: State<Stream>, es: seq<Event<Stream>>, fs: seq<Event<Stream>>)
    requires Run(st, es) && Run(Final(st, es), fs)
    ensures Run(st, es + fs) && Final(st, es + fs) == Final(Final(st, es), fs)
    decreases |fs|
  {
    if fs == [] {
      assert es + fs == es;
    } else {
      var f := fs[..|fs| - 1];
      RunAppend(st, es, f);
      assert (es + fs)[..|es + fs| - 1] == es + f;
    }
  }

  lemma {:induction false} BytesAppend(es: seq<Event<Stream>>, fs: seq<Event<Stream>>, x: Stream)
    ensures BytesOf(es + fs, x) == BytesOf(es, x) + BytesOf(fs, x)
    decreases |fs|
  {
    if fs == [] {
      assert es + fs == es;
    } else {
      BytesAppend(es, fs[..|fs| - 1], x);
      assert (es + fs)[..|es + fs| - 1] == es + fs[..|fs| - 1];
    }
  }

  lemma {:induction false} CarriedAppend(t: Tree, a: seq<Sending>, b: seq<Sending>, x: Stream)
    requires Ranked(t) && Logged(t, a) && Logged(t, b)
    ensures Logged(t, a + b) && Carried(t, a + b, x) == Carried(t, a, x) + Carried(t, b, x)
    ensures NoneBelow(t, a + b, x) ==> NoneBelow(t, a, x) && NoneBelow(t, b, x)
    decreases |b|
  {
    hide Ranked, Ancestor;
    if b == [] {
      assert a + b == a;
    } else {
      CarriedAppend(t, a, b[..|b| - 1], x);
      assert (a + b)[..|a + b| - 1] == a + b[..|b| - 1];
    }
    if NoneBelow(t, a + b, x) {
      assert forall i :: 0 <= i < |a| ==> (a + b)[i] == a[i];
      assert forall i :: 0 <= i < |b| ==> (a + b)[|a| + i] == b[i];
    }
  }

  lemma TallyAppend(t: Tree, p: Stream, es: seq<Event<Stream>>, log: seq<Sending>, fs: seq<Event<Stream>>,
                    sent: seq<Sending>)
    requires Ranked(t) && Logged(t, log) && Logged(t, sent) && Tally(t, p, es, log) && Tally(t, p, fs, sent)
    ensures Logged(t, log + sent) && Tally(t, p, es + fs, log + sent)
  {
    hide Ranked, Carried, BytesOf, NoneBelow;
    assert Logged(t, log + sent);
    forall x | x in t.par && t.par[x] == p ensures Tallies(t, es + fs, log + sent, x) {
      assert Tallies(t, es, log, x) && Tallies(t, fs, sent, x);
      BytesAppend(es, fs, x);
      CarriedAppend(t, log, sent, x);
    }
  }

  /** `x` was queued after every operation. */
  ghost predicate AlwaysQueued(hs: seq<Home>, x: Stream)
  {
    forall i :: 0 <= i < |hs| ==> x in hs[i]
  }

  /** Who leaves in a run is not queued after every operation. */
  ghost predicate Traced(es: seq<Event<Stream>>, hs: seq<Home>)
  {
    forall i :: 0 <= i < |es| && es[i].Leave? ==> !AlwaysQueued(hs, es[i].id)
  }

  lemma TracedMore(es: seq<Event<Stream>>, hs: seq<Home>, fs: seq<Event<Stream>>, h: Home)
    requires Traced(es, hs) && Keeps(fs, h)
    ensures Traced(es + fs, hs + [h])
  {
    var gs := hs + [h];
    assert gs[|hs|] == h;
    forall i | 0 <= i < |es + fs| && (es + fs)[i].Leave? ensures !AlwaysQueued(gs, (es + fs)[i].id) {
      if i < |es| {
        var k :| 0 <= k < |hs| && es[i].id !in hs[k];
        assert gs[k] == hs[k];
      } else {
        assert (es + fs)[i] == fs[i - |es|];
      }
    }
  }

  /** Whatever the application and the session do with the items of a tree in order, the tree and its queues stay
      right and in order, and what any one parent `p` sees is a run of `Fairness`. */
  method Serve(ghost t: Tree, ghost home: Home, ghost act: set<Stream>, r: Stream, ops: seq<Op>, ghost p: Stream)
    returns (ghost h: Home, ghost now: set<Stream>, log: seq<Sending>, ghost hs: seq<Home>, ghost es: seq<Event<Stream>>)
    requires Good(t, home, act) && Ranked(t) && Closed(t.nodes) && r in t.nodes && r !in t.par && p in t.nodes
    requires forall i :: 0 <= i < |ops| ==> OnTree(t.nodes, ops[i])
    modifies t.nodes
    ensures Good(t, h, now) && Logged(t, log) && Tally(t, p, es, log) && Traced(es, hs) && |hs| == |ops|
    ensures Run(State(old(Levels(t.nodes)[p]), {}), es)
    ensures Closed(t.nodes) && Final(State(old(Levels(t.nodes)[p]), {}), es).level == Levels(t.nodes)[p]
  {
    hide Ranked, Good, Levels, Times, Tally, Traced, Run, Final, Ongoing, Keeps, Closed;
    ghost var s0 := State(Levels(t.nodes)[p], {});
    var picked: Stream? := null;
    h, now, log, hs, es := home, act, [], [], [];
    Begins(t, home, act, p, s0);
    var i := 0;
    while i < |ops|
      invariant 0 <= i <= |ops| && |hs| == i
      invariant Run(s0, es) && Ongoing(t, h, now, p, picked, Final(s0, es))
      invariant Logged(t, log) && Tally(t, p, es, log) && Traced(es, hs)
    {
      ghost var fs;
      var sent: seq<Sending>;
      h, now, picked, fs, sent := Do(t, h, now, r, p, picked, Final(s0, es), ops[i]);
      RunAppend(s0, es, fs);
      TallyAppend(t, p, es, log, fs, sent);
      TracedMore(es, hs, fs, h);
      es, log, hs := es + fs, log + sent, hs + [h];
      i := i + 1;
    }
    Ends(t, h, now, p, picked, Final(s0, es));
  }

  lemma Begins(t: Tree, home: Home, act: set<Stream>, p: Stream, st: State<Stream>)
    requires Ranked(t) && p in t.nodes && Good(t, home, act) && Closed(t.nodes) && st.level == Levels(t.nodes)[p]
    ensures Ongoing(t, home, act, p, null, st) && Run(st, []) && Final(st, []) == st
    ensures Logged(t, []) && Tally(t, p, [], []) && Traced([], [])
  {
    hide Good, Levels, Times;
  }

  lemma Ends(t: Tree, home: Home, act: set<Stream>, p: Stream, picked: Stream?, st: State<Stream>)
    requires Ranked(t) && p in t.nodes && Ongoing(t, home, act, p, picked, st)
    ensures Good(t, home, act) && Closed(t.nodes) && st.level == Levels(t.nodes)[p]
  {
    hide Good, Levels, Times;
  }

  /** The bounded bypass on the tree: `a` and `b` depend on `p` and are queued throughout; while nothing is sent for
      `b` or below it, what is sent for `a` and below it is bounded by its weight. */
  lemma SiblingBypass(t: Tree, p: Stream, a: Stream, b: Stream, l: Level<Stream>, es: seq<Event<Stream>>,
                      log: seq<Sending>, hs: seq<Home>)
    requires Ranked(t) && Logged(t, log) && Tally(t, p, es, log) && Traced(es, hs)
    requires Fair(State(l, {})) && Run(State(l, {}), es)
    requires a in t.par && t.par[a] == p && b in t.par && t.par[b] == p && a != b && a in l.queue && b in l.queue
    requires AlwaysQueued(hs, a) && AlwaysQueued(hs, b) && NoneBelow(t, log, b)
    ensures 256 * Carried(t, log, a) <= l.queue[a].weight * MAX_CYCLE_DISTANCE + 255 + 256 * MAX_FRAME
  {
    hide Ranked, Carried, NoneBelow, AlwaysQueued, Run, Fair, BytesOf;
    assert Tallies(t, es, log, a) && Tallies(t, es, log, b);
    assert Stays(es, a) && Waits(es, b);
    BoundedBypass(State(l, {}), es, a, b);
  }

  /** `Serve` with what it means for the dependents of `p`. */
  method ServeFairly(ghost t: Tree, ghost home: Home, ghost act: set<Stream>, r: Stream, ops: seq<Op>, ghost p: Stream)
    returns (ghost h: Home, ghost now: set<Stream>, log: seq<Sending>, ghost hs: seq<Home>)
    requires Good(t, home, act) && Ranked(t) && Closed(t.nodes) && r in t.nodes && r !in t.par && p in t.nodes
    requires forall i :: 0 <= i < |ops| ==> OnTree(t.nodes, ops[i])
    modifies t.nodes
    ensures Good(t, h, now) && Logged(t, log) && |hs| == |ops|
    ensures forall a, b :: Siblings(t, home, p, a, b) && AlwaysQueued(hs, a) && AlwaysQueued(hs, b) && NoneBelow(t, log, b) ==>
              256 * Carried(t, log, a) <= t.wt[a] * MAX_CYCLE_DISTANCE + 255 + 256 * MAX_FRAME
  {
    hide Ranked, Good, Levels, Tally, Traced, Run, Final, Closed, NoneBelow, AlwaysQueued, Carried, Logged, Fair;
    ghost var l := Levels(t.nodes)[p];
    StartsFair(t, home, act, p);
    ghost var es;
    h, now, log, hs, es := Serve(t, home, act, r, ops, p);
    forall a, b | Siblings(t, home, p, a, b) && AlwaysQueued(hs, a) && AlwaysQueued(hs, b) && NoneBelow(t, log, b)
      ensures 256 * Carried(t, log, a) <= t.wt[a] * MAX_CYCLE_DISTANCE + 255 + 256 * MAX_FRAME {
      SiblingsThere(t, home, p, a, b, l);
      SiblingBypass(t, p, a, b, l, es, log, hs);
    }
  }

  /** Two streams queued at their parent `p`. */
  ghost predicate Siblings(t: Tree, home: Home, p: Stream, a: Stream, b: Stream)
  {
    a in t.par && t.par[a] == p && b in t.par && t.par[b] == p && a != b && a in home && b in home && a in t.wt
  }

  ghost predicate Weights(t: Tree, l: Level<Stream>)
  {
    forall x :: x in l.queue ==> x in t.wt && l.queue[x].weight == t.wt[x]
  }

  lemma StartsFair(t: Tree, home: Home, act: set<Stream>, p: Stream)
    requires Good(t, home, act) && Closed(t.nodes) && p in t.nodes
    ensures var l := Levels(t.nodes)[p];
            && Fair(State(l, {})) && Weights(t, l) && AtParents(t, home)
            && forall x :: x in home && home[x] == p ==> x in l.queue
  {
    hide Levels, Fair, LevelOf, Linked, Weighted, Listed, QueuesHold, SettledBut, Keys;
    GoodFacts(t, home, act);
    LevelAt(t.nodes);
    Sorted(p);
    forall x | x in LevelOf(p).queue ensures x in t.wt && LevelOf(p).queue[x].weight == t.wt[x] {
      Began(p);
      EntryIs(p, x);
      WeightIs(t, x);
    }
  }

  lemma SiblingsThere(t: Tree, home: Home, p: Stream, a: Stream, b: Stream, l: Level<Stream>)
    requires Siblings(t, home, p, a, b) && Weights(t, l) && AtParents(t, home)
    requires forall x :: x in home && home[x] == p ==> x in l.queue
    ensures a in t.par && t.par[a] == p && b in t.par && t.par[b] == p && a != b && a in l.queue && b in l.queue
    ensures a in t.wt && l.queue[a].weight == t.wt[a]
  {}
}
