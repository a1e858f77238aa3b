/** Weighted sharing among the streams queued at one parent, over whole runs. A state is the parent's
    base, its queue and the stream whose item is being sent. */
module Fairness {
  import opened StreamQueue
  import opened Cycles

  datatype Entry = Entry(cycle: Word, seqNo: nat, weight: int, pending: Word)
  {
    function Key(): Key { StreamQueue.Key.Key(cycle, seqNo) }
  }

  datatype Level<!T> = Level(base: Word, queue: map<T, Entry>, nextSeq: nat)

  /** A level together with the stream picked last, until it is put back or leaves. */
  datatype State<!T> = State(level: Level<T>, sending: set<T>)

  datatype Event<T> =
    | Arrive(id: T, weight: int, writelen: nat, pending: Word) // stream_obq_push
    | Leave(id: T)                                             // stream_obq_remove
    | Restart                                                  // stream_obq_remove of the parent itself
    | Pick(id: T)                                              // nghttp2_stream_next_outbound_item
    | Sent(id: T, writelen: nat)                               // nghttp2_stream_reschedule

  function Scheduled(base: Word, seqNo: nat, weight: int, writelen: nat, pending: Word): Entry
    requires weight > 0
  {
    Entry(CycleAfter(base, writelen, pending, weight), seqNo, weight, PendingAfter(writelen, pending, weight))
  }

  // ---------------------------------------------------------------- steps on a level

  function Arrived<T>(l: Level<T>, id: T, weight: int, writelen: nat, pending: Word): Level<T>
    requires weight > 0
  {
    Level(l.base, l.queue[id := Scheduled(l.base, l.nextSeq, weight, writelen, pending)], (l.nextSeq + 1) % SEQ_WRAP)
  }

  function Rescheduled<T>(l: Level<T>, id: T, writelen: nat): Level<T>
    requires id in l.queue && l.queue[id].weight > 0
  {
    Arrived(l, id, l.queue[id].weight, writelen, l.queue[id].pending)
  }

  /** `id` is a minimum of the queue. */
  ghost predicate First<T>(l: Level<T>, id: T)
  {
    id in l.queue && forall j :: j in l.queue ==> !StreamLess(l.queue[j].Key(), l.queue[id].Key())
  }

  /** What an event does; events that cannot happen change nothing. */
  ghost predicate Enabled<T>(s: State<T>, e: Event<T>)
  {
    match e
    case Arrive(id, w, n, p) => id !in s.level.queue && 1 <= w <= 256 && n <= MAX_FRAME && p <= 255
    case Leave(id) => id in s.level.queue
    case Restart => s.level.queue == map[]
    case Pick(id) => First(s.level, id)
    case Sent(id, n) => s.sending == {id} && id in s.level.queue && s.level.queue[id].weight > 0 && n <= MAX_FRAME
  }

  ghost function After<T>(s: State<T>, e: Event<T>): State<T>
    requires Enabled(s, e)
  {
    match e
    case Arrive(id, w, n, p) => State(Arrived(s.level, id, w, n, p), s.sending)
    case Leave(id) => State(s.level.(queue := s.level.queue - {id}), s.sending - {id})
    case Restart => State(s.level.(base := 0), {})
    case Pick(id) => State(s.level.(base := s.level.queue[id].cycle), {id})
    case Sent(id, n) => State(Rescheduled(s.level, id, n), {})
  }

  // ---------------------------------------------------------------- the invariant

  ghost predicate EntryOk(base: Word, e: Entry)
  {
    1 <= e.weight <= 256 && e.pending <= 255 && Ahead(base, e.cycle) <= MAX_CYCLE_DISTANCE
  }

  /** Every cycle lies within MAX_CYCLE_DISTANCE after the base; who is being sent is at the base. */
  ghost predicate Fair<T>(s: State<T>)
  {
    && (forall id :: id in s.level.queue ==> EntryOk(s.level.base, s.level.queue[id]))
    && (forall id :: id in s.sending ==> id in s.level.queue && s.level.queue[id].cycle == s.level.base)
  }

  lemma PenaltyBound(n: nat, p: Word, w: int)
    requires n <= MAX_FRAME && p <= 255 && 1 <= w <= 256
    ensures Penalty(n, p) == 256 * n + p <= MAX_CYCLE_DISTANCE
    ensures 0 <= Penalty(n, p) / w <= MAX_CYCLE_DISTANCE
    ensures w * (Penalty(n, p) / w) + Penalty(n, p) % w == 256 * n + p
  {
    var x := Penalty(n, p);
    assert x == 256 * n + p;
    Quotient(x, w);
  }

  lemma ScheduledOk(base: Word, seqNo: nat, w: int, n: nat, p: Word)
    requires n <= MAX_FRAME && p <= 255 && 1 <= w <= 256
    ensures EntryOk(base, Scheduled(base, seqNo, w, n, p))
    ensures var e := Scheduled(base, seqNo, w, n, p); w * Ahead(base, e.cycle) + e.pending == 256 * n + p
  {
    hide Penalty;
    PenaltyBound(n, p, w);
    AheadAdd(base, Penalty(n, p) / w);
  }

  /** Moving the base up to an entry brings the entries behind it closer by as much. */
  lemma Rebase(base: Word, c: Word, d: Word)
    requires Ahead(base, c) <= Ahead(base, d) <= MAX_CYCLE_DISTANCE
    ensures Ahead(c, d) == Ahead(base, d) - Ahead(base, c)
  {}

  lemma FirstIsNearest<T>(s: State<T>, id: T, j: T)
    requires Fair(s) && First(s.level, id) && j in s.level.queue
    ensures Ahead(s.level.base, s.level.queue[id].cycle) <= Ahead(s.level.base, s.level.queue[j].cycle)
  {
    hide Ahead, StreamLess;
    LessIsAhead(s.level.base, s.level.queue[j].Key(), s.level.queue[id].Key());
  }

  lemma StepFair<T>(s: State<T>, e: Event<T>)
    requires Fair(s) && Enabled(s, e)
    ensures Fair(After(s, e))
  {
    hide Ahead, StreamLess, Scheduled;
    match e
    case Arrive(id, w, n, p) => ScheduledOk(s.level.base, s.level.nextSeq, w, n, p);
    case Leave(id) =>
    case Restart =>
    case Pick(id) =>
      forall j | j in s.level.queue ensures EntryOk(s.level.queue[id].cycle, s.level.queue[j]) {
        FirstIsNearest(s, id, j);
        Rebase(s.level.base, s.level.queue[id].cycle, s.level.queue[j].cycle);
      }
    case Sent(id, n) => ScheduledOk(s.level.base, s.level.nextSeq, s.level.queue[id].weight, n, s.level.queue[id].pending);
  }

  // ---------------------------------------------------------------- runs

  ghost predicate Run<T>(s: State<T>, es: seq<Event<T>>)
    decreases |es|, 0
  {
    es == [] || (Run(s, es[..|es| - 1]) && Enabled(Final(s, es[..|es| - 1]), es[|es| - 1]))
  }

  ghost function Final<T>(s: State<T>, es: seq<Event<T>>): State<T>
    requires Run(s, es)
    decreases |es|, 1
  {
    if es == [] then s else After(Final(s, es[..|es| - 1]), es[|es| - 1])
  }

  /** Every run keeps the cycles of a queue together, so that there `stream_less` is a total order. */
  lemma {:induction false} RunFair<T>(s: State<T>, es: seq<Event<T>>)
    requires Fair(s) && Run(s, es)
    ensures Fair(Final(s, es))
    decreases |es|
  {
    if es != [] {
      RunFair(s, es[..|es| - 1]);
      StepFair(Final(s, es[..|es| - 1]), es[|es| - 1]);
    }
  }

  lemma FairIsOrdered<T>(s: State<T>, i: T, j: T)
    requires Fair(s) && i in s.level.queue && j in s.level.queue
    ensures var a, b := s.level.queue[i].Key(), s.level.queue[j].Key();
            a != b ==> (StreamLess(a, b) <==> !StreamLess(b, a))
  {
    hide Ahead, StreamLess;
    LessIsAhead(s.level.base, s.level.queue[i].Key(), s.level.queue[j].Key());
    LessIsAhead(s.level.base, s.level.queue[j].Key(), s.level.queue[i].Key());
  }

  /** The sequence numbers of a queue are distinct and were all given out. */
  ghost predicate Numbered<T>(l: Level<T>)
  {
    && (forall i :: i in l.queue ==> l.queue[i].seqNo < l.nextSeq)
    && (forall i, j :: i in l.queue && j in l.queue && i != j ==> l.queue[i].seqNo != l.queue[j].seqNo)
  }

  /** Until the 64-bit counter comes round, runs keep them so, and whoever enters or is put back comes after all
      others of its cycle. */
  lemma StepNumbered<T>(s: State<T>, e: Event<T>)
    requires Numbered(s.level) && Enabled(s, e) && s.level.nextSeq + 1 < SEQ_WRAP
    ensures var t := After(s, e).level;
            && Numbered(t) && s.level.nextSeq <= t.nextSeq <= s.level.nextSeq + 1
            && (e.Arrive? || e.Sent? ==>
                  e.id in t.queue && forall j :: j in t.queue && j != e.id ==> t.queue[j].seqNo < t.queue[e.id].seqNo)
  {
    hide CycleAfter, PendingAfter, StreamLess;
  }

  lemma {:induction false} RunNumbered<T>(s: State<T>, es: seq<Event<T>>)
    requires Numbered(s.level) && Run(s, es) && s.level.nextSeq + |es| < SEQ_WRAP
    ensures Numbered(Final(s, es).level) && Final(s, es).level.nextSeq <= s.level.nextSeq + |es|
    decreases |es|
  {
    if es != [] {
      RunNumbered(s, es[..|es| - 1]);
      StepNumbered(Final(s, es[..|es| - 1]), es[|es| - 1]);
    }
  }

  /** Of streams at the same cycle the one that came first is picked. */
  lemma FirstComeFirstServed<T>(s: State<T>, id: T, j: T)
    requires Fair(s) && Numbered(s.level) && First(s.level, id)
    requires j in s.level.queue && j != id && s.level.queue[j].cycle == s.level.queue[id].cycle
    ensures s.level.queue[id].seqNo < s.level.queue[j].seqNo
  {
    assert !StreamLess(s.level.queue[j].Key(), s.level.queue[id].Key());
  }

  /** The bytes `a` sent. */
  ghost function BytesOf<T>(es: seq<Event<T>>, a: T): nat
  {
    if es == [] then 0 else
    var e := es[|es| - 1];
    BytesOf(es[..|es| - 1], a) + if e.Sent? && e.id == a then e.writelen else 0
  }

  /** `a` does not leave the queue. */
  ghost predicate Stays<T>(es: seq<Event<T>>, a: T)
  {
    Event.Leave(a) !in es
  }

  /** `b` stays and sends nothing. */
  ghost predicate Waits<T>(es: seq<Event<T>>, b: T)
  {
    Stays(es, b) && forall i :: 0 <= i < |es| && es[i].Sent? ==> es[i].id != b
  }

  /** How far `a` is before `b` in virtual time. */
  ghost function Lead<T>(l: Level<T>, a: T, b: T): int
    requires a in l.queue && b in l.queue
  {
    Ahead(l.base, l.queue[b].cycle) - Ahead(l.base, l.queue[a].cycle)
  }

  /** One step: a sending of `a` uses up its lead, at its weight; nothing else changes the lead. */
  lemma StepLead<T>(s: State<T>, e: Event<T>, a: T, b: T)
    requires Fair(s) && Enabled(s, e) && a != b && a in s.level.queue && b in s.level.queue
    requires e != Event.Leave(a) && e != Event.Leave(b) && !(e.Sent? && e.id == b)
    ensures var t, w := After(s, e).level, s.level.queue[a].weight;
            && a in t.queue && b in t.queue && t.queue[a].weight == w
            && (e.Sent? && e.id == a ==>
                  && Lead(s.level, a, b) >= 0 && Lead(s.level, a, b) >= Lead(t, a, b)
                  && w * (Lead(s.level, a, b) - Lead(t, a, b)) + t.queue[a].pending
                     == 256 * e.writelen + s.level.queue[a].pending)
            && (!(e.Sent? && e.id == a) ==>
                  Lead(t, a, b) == Lead(s.level, a, b) && t.queue[a].pending == s.level.queue[a].pending)
  {
    hide Ahead, StreamLess, Scheduled;
    var l := s.level;
    match e
    case Arrive(id, w, n, p) =>
    case Leave(id) =>
    case Restart =>
    case Pick(id) =>
      FirstIsNearest(s, id, a);
      FirstIsNearest(s, id, b);
      Rebase(l.base, l.queue[id].cycle, l.queue[a].cycle);
      Rebase(l.base, l.queue[id].cycle, l.queue[b].cycle);
    case Sent(id, n) =>
      if id == a {
        ScheduledOk(l.base, l.nextSeq, l.queue[a].weight, n, l.queue[a].pending);
        ScheduledWeight(l.base, l.nextSeq, l.queue[a].weight, n, l.queue[a].pending);
        assert a in s.sending;
        AheadSelf(l.base);
      }
  }

  lemma AheadSelf(base: Word)
    ensures Ahead(base, base) == 0
  {}

  lemma ScheduledWeight(base: Word, seqNo: nat, w: int, n: nat, p: Word)
    requires w > 0
    ensures Scheduled(base, seqNo, w, n, p).weight == w
  {}

  lemma PayStep(w: int, bytes: int, n: int, p0: int, p: int, q: int, g0: int, g: int, h: int)
    requires 256 * bytes + p0 == w * (g0 - g) + p && w * (g - h) + q == 256 * n + p
    ensures 256 * (bytes + n) + p0 == w * (g0 - h) + q
    ensures w * g >= 0 ==> q - w * h <= 256 * n + p
  {
    assert w * (g0 - h) == w * (g0 - g) + w * (g - h);
    assert w * (g - h) == w * g - w * h;
  }

  lemma Scale(w: int, g: int, d: int)
    requires w > 0
    ensures g >= 0 ==> w * g >= 0
    ensures g <= d ==> w * g <= w * d
  {
    if g <= d { assert w * d == w * g + w * (d - g); }
  }

  /** Over a run in which `b` waits, the bytes of `a` are paid for by its lead over `b`. */
  ghost predicate Paid(w: int, bytes: nat, p0: int, p: int, g0: int, g: int)
  {
    && 256 * bytes + p0 == w * (g0 - g) + p
    && (bytes == 0 || p - w * g <= 256 * MAX_FRAME + 255)
  }

  lemma PaidStep(w: int, bytes: nat, n: nat, p0: int, p: int, q: int, g0: int, g: int, h: int)
    requires Paid(w, bytes, p0, p, g0, g) && w > 0 && g >= 0 && n <= MAX_FRAME && p <= 255
    requires w * (g - h) + q == 256 * n + p
    ensures Paid(w, bytes + n, p0, q, g0, h)
  {
    PayStep(w, bytes, n, p0, p, q, g0, g, h);
    Scale(w, g, g);
  }

  lemma PaidNothing(w: int, p: int, g: int)
    ensures Paid(w, 0, p, p, g, g)
  {}

  lemma {:induction false} Conservation<T>(s: State<T>, es: seq<Event<T>>, a: T, b: T)
    requires Fair(s) && Run(s, es) && a != b && a in s.level.queue && b in s.level.queue
    requires Stays(es, a) && Waits(es, b)
    ensures var t, w := Final(s, es).level, s.level.queue[a].weight;
            && a in t.queue && b in t.queue && t.queue[a].weight == w
            && Paid(w, BytesOf(es, a), s.level.queue[a].pending, t.queue[a].pending, Lead(s.level, a, b), Lead(t, a, b))
    decreases |es|
  {
    hide Paid, Lead;
    var w, p0, g0 := s.level.queue[a].weight, s.level.queue[a].pending, Lead(s.level, a, b);
    if es == [] {
      PaidNothing(w, p0, g0);
    } else {
      var pre, e := es[..|es| - 1], es[|es| - 1];
      assert es == pre + [e] && e in es;
      assert Stays(pre, a) && Waits(pre, b);
      Conservation(s, pre, a, b);
      RunFair(s, pre);
      var m, t := Final(s, pre), Final(s, es);
      StepLead(m, e, a, b);
      if e.Sent? && e.id == a {
        PaidStep(w, BytesOf(pre, a), e.writelen, p0, m.level.queue[a].pending, t.level.queue[a].pending, g0,
                 Lead(m.level, a, b), Lead(t.level, a, b));
      }
    }
  }

  /** The bounded bypass: while `b` waits, `a` cannot send more than its share. */
  lemma BoundedBypass<T>(s: State<T>, es: seq<Event<T>>, a: T, b: T)
    requires Fair(s) && Run(s, es) && a != b && a in s.level.queue && b in s.level.queue
    requires Stays(es, a) && Waits(es, b)
    ensures 256 * BytesOf(es, a) <= s.level.queue[a].weight * MAX_CYCLE_DISTANCE + 255 + 256 * MAX_FRAME
  {
    hide Run, Final, BytesOf, Stays, Waits;
    Conservation(s, es, a, b);
    var l := s.level;
    var t := Final(s, es).level;
    PaidBound(l.queue[a].weight, BytesOf(es, a), l.queue[a].pending, t.queue[a].pending, Lead(l, a, b), Lead(t, a, b));
  }

  lemma PaidBound(w: int, bytes: nat, p0: int, p: int, g0: int, g: int)
    requires Paid(w, bytes, p0, p, g0, g) && w > 0 && p0 >= 0 && g0 <= MAX_CYCLE_DISTANCE
    ensures 256 * bytes <= w * MAX_CYCLE_DISTANCE + 255 + 256 * MAX_FRAME
  {
    assert w * (g0 - g) == w * g0 - w * g;
    Scale(w, g0, MAX_CYCLE_DISTANCE);
    Scale(w, MAX_CYCLE_DISTANCE, 0);
  }
}
