/** Whole runs of the scheduler: any sequence of operations, each meeting the preconditions its
    declaration states, keeps the tree well formed and the queues balanced. */
module SchedulerRuns {
  import opened StreamQueue
  import opened Forest
  import opened QueueState

  datatype Scheduler = Scheduler(t: Tree, home: Home, act: set<Stream>)

  datatype Operation =
    | Open(s: Stream, weight: int)         // nghttp2_stream_init
    | Activate(s: Stream)                  // attach_item, resume_deferred_item
    | Deactivate(s: Stream)                // detach_item, defer_item
    | Add(dep: Stream, s: Stream)          // dep_add
    | Insert(dep: Stream, s: Stream)       // dep_insert
    | Remove(s: Stream)                    // dep_remove
    | AddSubtree(dep: Stream, s: Stream)   // dep_add_subtree
    | InsertSubtree(dep: Stream, s: Stream)// dep_insert_subtree
    | RemoveSubtree(s: Stream)             // dep_remove_subtree
    | Weigh(s: Stream, weight: int)        // change_weight

  ghost predicate Sound(c: Scheduler)
  {
    WellFormed(c.t) && Balanced(c.t, c.home, c.act) && c.act <= c.t.nodes
  }

  ghost predicate Allowed(c: Scheduler, op: Operation)
    requires WellFormed(c.t)
  {
    match op
    case Open(s, w) => s !in c.t.nodes && 1 <= w <= 256
    case Activate(s) => s in c.t.nodes
    case Deactivate(s) => s in c.t.nodes
    case Add(dep, s) => Graftable(c.t, dep, s) && !Ready(c.home, c.act, s)
    case Insert(dep, s) => Graftable(c.t, dep, s) && c.t.kids[s] == [] && s !in c.act
    case Remove(s) => s in c.t.par && s !in c.act
    case AddSubtree(dep, s) => Graftable(c.t, dep, s)
    case InsertSubtree(dep, s) => Graftable(c.t, dep, s)
    case RemoveSubtree(s) => s in c.t.par
    case Weigh(s, w) => s in c.t.nodes && 1 <= w <= 256
  }

  /** The new queues when `s` was put below `dep`, in `u`. */
  ghost function Hung(u: Tree, home: Home, act: set<Stream>, dep: Stream, s: Stream): Home
    requires Ranked(u) && dep in u.nodes
  {
    if Ready(home, act, s) then PushUp(u, home, dep, s) else home
  }

  ghost function Next(c: Scheduler, op: Operation): Scheduler
    requires WellFormed(c.t) && Allowed(c, op)
  {
    match op
    case Open(s, w) => c.(t := Opened(c.t, s, w))
    case Activate(s) =>
      assert c.t.rank.Keys == c.t.nodes;
      Scheduler(c.t, PushUp(c.t, c.home, ParentOf(c.t, s), s), c.act + {s})
    case Deactivate(s) => Scheduler(c.t, DetachHome(c.home, c.act - {s}, s), c.act - {s})
    case Add(dep, s) => c.(t := Graft(c.t, dep, s))
    case Insert(dep, s) => Exclusively(c, dep, s)
    case Remove(s) =>
      assert s in c.t.nodes;
      Scheduler(Splice(c.t, s), RemoveUp(Moved(c.home, c.t.kids[s], c.t.par[s]), c.act, s), c.act)
    case AddSubtree(dep, s) =>
      GraftableShape(c.t, dep, s);
      Scheduler(Graft(c.t, dep, s), Hung(Graft(c.t, dep, s), c.home, c.act, dep, s), c.act)
    case InsertSubtree(dep, s) => Exclusively(c, dep, s)
    case RemoveSubtree(s) => Scheduler(Prune(c.t, s), RemoveUp(c.home, c.act, s), c.act)
    case Weigh(s, w) => c.(t := c.t.(wt := c.t.wt[s := w]))
  }

  ghost function Exclusively(c: Scheduler, dep: Stream, s: Stream): Scheduler
    requires WellFormed(c.t) && Graftable(c.t, dep, s)
  {
    GraftableShape(c.t, dep, s);
    var u := GraftExclusive(c.t, dep, s);
    Scheduler(u, Hung(u, Exclusive(c.t, c.home, dep, s), c.act, dep, s), c.act)
  }

  lemma OpenedSound(c: Scheduler, s: Stream, w: int)
    requires Sound(c) && s !in c.t.nodes && 1 <= w <= 256
    ensures Sound(c.(t := Opened(c.t, s, w)))
  {
    hide Busy, Ranked, Listed, WeightsInRange;
    OpenedShape(c.t, s, w);
  }

  lemma WeighedSound(c: Scheduler, s: Stream, w: int)
    requires Sound(c) && s in c.t.nodes && 1 <= w <= 256
    ensures Sound(c.(t := c.t.(wt := c.t.wt[s := w])))
  {
    hide Busy;
  }

  lemma GraftSound(c: Scheduler, op: Operation)
    requires Sound(c) && Allowed(c, op) && (op.Add? || op.AddSubtree?)
    ensures Sound(Next(c, op))
  {
    hide Ranked, Listed, WeightsInRange, Lift, Balanced, Ancestor, Busy, PushUp;
    GraftableShape(c.t, op.dep, op.s);
    if Ready(c.home, c.act, op.s) {
      GraftBalances(c.t, c.home, c.act, op.dep, op.s);
    } else {
      GraftIdle(c.t, c.home, c.act, op.dep, op.s);
    }
  }

  /** Adding a stream is right exactly if it has nothing to send in it or below it. */
  lemma AddSoundIff(c: Scheduler, dep: Stream, s: Stream)
    requires Sound(c) && Graftable(c.t, dep, s)
    ensures Sound(c.(t := Graft(c.t, dep, s))) <==> !Ready(c.home, c.act, s)
  {
    hide Ranked, Listed, WeightsInRange, Lift, Balanced, Ancestor, Busy;
    GraftableShape(c.t, dep, s);
    GraftIdle(c.t, c.home, c.act, dep, s);
  }

  lemma ExclusiveSound(c: Scheduler, dep: Stream, s: Stream)
    requires Sound(c) && Graftable(c.t, dep, s)
    ensures Sound(Exclusively(c, dep, s))
  {
    hide Ranked, Listed, WeightsInRange, Lift, Balanced, Ancestor, Busy, PushUp;
    GraftableShape(c.t, dep, s);
    ExclusiveBalances(c.t, c.home, c.act, dep, s);
  }

  lemma RemoveSound(c: Scheduler, op: Operation)
    requires Sound(c) && Allowed(c, op) && (op.Remove? || op.RemoveSubtree?)
    ensures Sound(Next(c, op))
  {
    hide Listed, WeightsInRange, Balanced, Busy, RemoveUp, IndexOf, Redistributed;
    assert op.s in c.t.nodes;
    OperationsKeepShape(c.t, op.s, op.s);
    if op.Remove? {
      SpliceBalances(c.t, c.home, c.act, op.s);
    } else {
      PruneBalances(c.t, c.home, c.act, op.s);
    }
  }

  lemma ItemSound(c: Scheduler, op: Operation)
    requires Sound(c) && Allowed(c, op) && (op.Activate? || op.Deactivate?)
    ensures Sound(Next(c, op))
  {
    hide Ranked, Listed, WeightsInRange, Balanced, Busy, PushUp, RemoveUp;
    if op.Activate? {
      ActivateBalances(c.t, c.home, c.act, op.s);
    } else {
      DeactivateBalances(c.t, c.home, c.act, op.s);
    }
  }

  lemma StepSound(c: Scheduler, op: Operation)
    requires Sound(c) && Allowed(c, op)
    ensures Sound(Next(c, op))
  {
    hide WellFormed, Balanced, Sound;
    assert WellFormed(c.t) by { SoundShape(c); }
    match op
    case Open(s, w) => OpenedSound(c, s, w);
    case Activate(_) => ItemSound(c, op);
    case Deactivate(_) => ItemSound(c, op);
    case Add(_, _) => GraftSound(c, op);
    case Insert(dep, s) => ExclusiveSound(c, dep, s);
    case Remove(_) => RemoveSound(c, op);
    case AddSubtree(_, _) => GraftSound(c, op);
    case InsertSubtree(dep, s) => ExclusiveSound(c, dep, s);
    case RemoveSubtree(_) => RemoveSound(c, op);
    case Weigh(s, w) => WeighedSound(c, s, w);
  }

  lemma SoundShape(c: Scheduler)
    requires Sound(c)
    ensures WellFormed(c.t)
  {}

  // ---------------------------------------------------------------- runs

  ghost predicate Legal(c: Scheduler, ops: seq<Operation>)
    decreases |ops|
  {
    ops == [] || (WellFormed(c.t) && Allowed(c, ops[0]) && Legal(Next(c, ops[0]), ops[1..]))
  }

  ghost function Result(c: Scheduler, ops: seq<Operation>): Scheduler
    requires Legal(c, ops)
    decreases |ops|
  {
    if ops == [] then c else Result(Next(c, ops[0]), ops[1..])
  }

  lemma {:induction false} RunSound(c: Scheduler, ops: seq<Operation>)
    requires Sound(c) && Legal(c, ops)
    ensures Sound(Result(c, ops))
    decreases |ops|
  {
    hide WellFormed, Balanced, Sound, Allowed, Next;
    if ops != [] {
      StepSound(c, ops[0]);
      RunSound(Next(c, ops[0]), ops[1..]);
    }
  }

  const EMPTY := Scheduler(Tree({}, map[], map[], map[], map[]), map[], {})

  /** In every state reached from nothing: a queued stream is queued at its parent, a stream with a
      parent is queued exactly when it is active or some child is queued, roots are not queued, there is
      no cycle, weights are in range, and whatever is active can be reached from its root. */
  lemma EveryReachable(ops: seq<Operation>, x: Stream)
    requires Legal(EMPTY, ops) && x in Result(EMPTY, ops).t.nodes
    ensures var c := Result(EMPTY, ops);
            && WellFormed(c.t) && 1 <= c.t.wt[x] <= 256
            && (x in c.home ==> x in c.t.par && c.home[x] == c.t.par[x])
            && (x in c.t.par ==> (x in c.home <==> x in c.act || exists y :: y in c.home && c.home[y] == x))
            && (x in c.t.par ==> !Ancestor(c.t, x, c.t.par[x]))
            && (Ready(c.home, c.act, x) ==> Ready(c.home, c.act, Root(c.t, x)))
  {
    hide Legal, Result;
    RunSound(EMPTY, ops);
    var c := Result(EMPTY, ops);
    if x in c.t.par { NoCycle(c.t, x, c.t.par[x]); }
    if Ready(c.home, c.act, x) { ReadyRoot(c.t, c.home, c.act, x); }
  }

  lemma {:induction false} NoCycle(t: Tree, x: Stream, y: Stream)
    requires Ranked(t) && x in t.nodes && y in t.nodes && t.rank[y] < t.rank[x]
    ensures !Ancestor(t, x, y)
    decreases t.rank[y]
  {
    if y in t.par { NoCycle(t, x, t.par[y]); }
  }
}
