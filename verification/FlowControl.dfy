/** Local flow control windows (section 6.9 of RFC 7540): `nghttp2_helper.c` and the two submit
    functions that move them. */
module FlowControl {
  import opened Bytes

  const INT32_MAX: int := 0x7fff_ffff
  const INT32_MIN: int := -0x8000_0000
  /** NGHTTP2_MAX_WINDOW_SIZE. */
  const MAX_WINDOW: int := 0x7fff_ffff

  /** The size promised to the peer, the bytes received and not yet given back, and how much of the latter
      was cut off by shrinking the window. */
  datatype Window = Window(local: int, recv: int, reduction: int)

  /** The state after a call and the increment it leaves to be announced in a WINDOW_UPDATE. */
  datatype Outcome = Done(w: Window, increment: int) | FlowControlError

  predicate Int32(x: int) { INT32_MIN <= x <= INT32_MAX }

  /** What every successful call keeps. A peer that respects its credit also keeps `recv <= local`, so
      that no counter leaves its 32 bits. */
  predicate Sane(w: Window)
  {
    0 <= w.local <= MAX_WINDOW && INT32_MIN <= w.recv && 0 <= w.reduction <= INT32_MAX && w.recv + w.reduction >= 0
  }

  /** The bytes the peer may still send. */
  function Credit(w: Window): int { w.local - w.recv }

  // ---------------------------------------------------------------- the window objects

  class Windows {
    var local: int
    var recv: int
    var reduction: int
    var consumed: int
    /** The WINDOW_UPDATE increments queued for sending. */
    var updates: seq<int>

    constructor (size: int)
      requires 0 <= size <= MAX_WINDOW
      ensures State() == Window(size, 0, 0) && Sane(State()) && consumed == 0 && updates == []
    {
      local, recv, reduction, consumed, updates := size, 0, 0, 0, [];
    }

    function State(): Window
      reads this`local, this`recv, this`reduction
    {
      Window(local, recv, reduction)
    }

    /** `nghttp2_adjust_local_window_size`; `inc` is what is left in `delta`. */
    method Adjust(delta: int) returns (ok: bool, inc: int)
      requires Sane(State()) && Int32(delta)
      modifies this`local, this`recv, this`reduction
      ensures ok <==> Adjustable(old(State()), delta)
      ensures !ok ==> State() == old(State()) && inc == delta
      ensures ok ==> Adjusted(old(State()), delta, State(), inc)
    {
      if delta > 0 {
        var newRecv := Max(0, recv) - delta;
        if newRecv >= 0 {
          recv := newRecv;
          return true, delta;
        }
        var d := -newRecv;
        if local > MAX_WINDOW - d {
          return false, delta;
        }
        local := local + d;
        var back := Min(reduction, d);
        reduction := reduction - back;
        if recv < 0 {
          recv := recv + back;
        } else {
          recv := back;
        }
        return true, delta - back;
      }
      if local + delta < 0 || recv < INT32_MIN - delta || reduction > INT32_MAX + delta {
        return false, delta;
      }
      local, recv, reduction := local + delta, recv + delta, reduction - delta;
      return true, 0;
    }

    /** `nghttp2_increase_local_window_size`. */
    method Increase(delta: int) returns (ok: bool, inc: int)
      requires Sane(State()) && 0 <= delta <= INT32_MAX
      modifies this`local, this`recv, this`reduction
      ensures ok <==> old(local) + delta <= MAX_WINDOW
      ensures !ok ==> State() == old(State()) && inc == delta
      ensures ok ==> Moved(old(State()), State(), inc) && State() == Grown(old(State()), delta)
      ensures ok ==> inc == delta - Min(old(reduction), delta) && inc >= 0
    {
      if local > MAX_WINDOW - delta {
        return false, delta;
      }
      var back := Min(reduction, delta);
      local, reduction, recv := local + delta, reduction - back, recv + back;
      return true, delta - back;
    }
  }

  /** When an adjustment succeeds: in every case the new window has to stay a window. */
  predicate Adjustable(w: Window, delta: int)
  {
    if delta > 0 then delta <= w.recv || w.local + (delta - Max(0, w.recv)) <= MAX_WINDOW
    else w.local + delta >= 0 && w.recv + delta >= INT32_MIN && w.reduction - delta <= INT32_MAX
  }

  /** What a successful adjustment leaves: the credit moves by `inc`, received bytes are given back first,
      the window grows by the rest, and an earlier reduction is undone before anything is announced. */
  predicate Adjusted(v: Window, delta: int, w: Window, inc: int)
  {
    && Moved(v, w, inc) && inc >= 0
    && (delta <= 0 ==> w == Shrunk(v, -delta))
    && (delta > 0 ==>
          var rest := Max(0, delta - Max(0, v.recv));
          w.local == v.local + rest && w.reduction == Max(0, v.reduction - rest) && inc == delta - (v.reduction - w.reduction))
  }

  /** The law of the ledger: the peer's credit grows by exactly what is announced. */
  predicate Moved(v: Window, w: Window, inc: int)
  {
    Sane(w) && Credit(w) == Credit(v) + inc
  }

  function Shrunk(w: Window, k: int): Window
  {
    Window(w.local - k, w.recv - k, w.reduction + k)
  }

  function Grown(w: Window, k: int): Window
  {
    var back := Min(w.reduction, k);
    Window(w.local + k, w.recv + back, w.reduction - back)
  }

  function Resized(w: Window, size: int): Window
  {
    if size < w.local then Shrunk(w, w.local - size) else Grown(w, size - w.local)
  }

  // ---------------------------------------------------------------- submitting

  datatype Error = None | FlowControl | InvalidArgument

  /** `nghttp2_submit_window_update`; `w` is null for a stream that does not exist. */
  method SubmitWindowUpdate(w: Windows?, increment: int) returns (e: Error)
    requires Int32(increment) && (w != null ==> Sane(w.State()))
    modifies w
    ensures w == null || increment == 0 ==> e == None
    ensures w != null && increment == 0 ==> unchanged(w)
    ensures w != null && increment != 0 ==> (e == None <==> Adjustable(old(w.State()), increment))
    ensures w != null && e != None ==> e == FlowControl && unchanged(w)
    ensures w != null && e == None ==> Announced(old(w.State()), w.State(), old(w.updates), w.updates)
    ensures w != null && e == None ==>
              w.consumed == if w.updates == old(w.updates) then old(w.consumed)
                            else Max(0, old(w.consumed) - w.updates[|w.updates| - 1])
  {
    e := None;
    if increment == 0 || w == null {
      return;
    }
    var ok, inc := w.Adjust(increment);
    if !ok {
      return FlowControl;
    }
    if inc > 0 {
      w.consumed := Max(0, w.consumed - inc);
      w.updates := w.updates + [inc];
    }
  }

  /** The credit moved by exactly what was queued, if anything, for the peer. */
  ghost predicate Announced(v: Window, w: Window, us: seq<int>, vs: seq<int>)
  {
    && Sane(w)
    && ((vs == us && Credit(w) == Credit(v))
        || (exists inc :: inc > 0 && vs == us + [inc] && Credit(w) == Credit(v) + inc))
  }

  /** `nghttp2_session_set_local_window_size`. */
  method SetLocalWindowSize(w: Windows?, size: int) returns (e: Error)
    requires Int32(size) && (w != null ==> Sane(w.State()))
    modifies w
    ensures e == InvalidArgument <==> size < 0
    ensures w == null && size >= 0 ==> e == None
    ensures w != null && size >= 0 ==> (e == None <==> size >= old(w.local) || Adjustable(old(w.State()), size - old(w.local)))
    ensures w != null && e != None ==> unchanged(w)
    ensures w != null && e == None ==> w.State() == Resized(old(w.State()), size) && w.consumed == old(w.consumed)
    ensures w != null && e == None ==> Announced(old(w.State()), w.State(), old(w.updates), w.updates)
  {
    e := None;
    if size < 0 {
      return InvalidArgument;
    }
    if w == null {
      return;
    }
    var increment := size - w.local;
    if increment == 0 {
      return;
    }
    if increment < 0 {
      var ok, inc := w.Adjust(increment);
      return if ok then None else FlowControl;
    }
    var ok, inc := w.Increase(increment);
    if !ok {
      return FlowControl;
    }
    if inc > 0 {
      w.updates := w.updates + [inc];
    }
  }

  // ---------------------------------------------------------------- shrinking and growing back

  /** Shrinking a window and setting it back: everything is as it was and nothing is announced. */
  method ShrinkAndSetBack(w: Windows, k: int) returns (e: Error)
    requires Sane(w.State()) && 0 < k <= w.local
    modifies w
    ensures e == None ==> w.State() == old(w.State()) && w.updates == old(w.updates)
    ensures e == None <==> Adjustable(old(w.State()), -k)
  {
    var size := w.local;
    e := SetLocalWindowSize(w, size - k);
    if e == None {
      ghost var v := w.State();
      e := SetLocalWindowSize(w, size);
      assert Credit(w.State()) == Credit(v);
    }
  }

  /** Growing back through `nghttp2_submit_window_update` instead does so exactly when the cut had
      covered all received bytes; otherwise some of them are given back in its place. */
  lemma ShrinkThenAdjust(v: Window, k: int, w: Window, inc: int)
    requires Sane(v) && 0 < k <= v.local && Adjustable(v, -k) && Adjusted(Shrunk(v, k), k, w, inc)
    ensures w == v && inc == 0 <==> v.recv <= k
  {}

  lemma ShrinkThenAdjustFails(v: Window, w: Window)
    requires v == Window(100, 50, 0) && w == Window(90, 30, 10)
    ensures Sane(v) && Adjustable(v, -10) && Adjusted(Shrunk(v, 10), 10, w, 10) && w != v
  {}

  // ---------------------------------------------------------------- runs

  /** What happens to a window: DATA arrives, `nghttp2_submit_window_update` or
      `nghttp2_session_set_local_window_size` is called. */
  datatype Event = Received(n: nat) | Update(increment: int) | Resize(size: int)

  predicate Int32Event(e: Event)
  {
    match e
    case Received(n) => true
    case Update(increment) => Int32(increment)
    case Resize(size) => Int32(size)
  }

  function Sum(us: seq<int>): int
  {
    if us == [] then 0 else Sum(us[..|us| - 1]) + us[|us| - 1]
  }

  lemma SumSnoc(us: seq<int>, x: int)
    ensures Sum(us + [x]) == Sum(us) + x
  {
    assert (us + [x])[..|us|] == us;
  }

  /** Over every run of receipts and calls the credit the window stands for is the credit the peer counts:
      what it had, plus everything queued for it in WINDOW_UPDATE frames, minus everything it sent. It is never
      negative, so that no counter leaves its 32 bits. DATA beyond the credit is refused. */
  method LedgerOverRuns(w: Windows, es: seq<Event>) returns (received: nat)
    requires Sane(w.State()) && Credit(w.State()) >= 0 && forall i :: 0 <= i < |es| ==> Int32Event(es[i])
    modifies w
    ensures Sane(w.State()) && Int32(w.recv)
    ensures Credit(w.State()) == old(Credit(w.State())) + (Sum(w.updates) - old(Sum(w.updates))) - received >= 0
    ensures old(w.updates) <= w.updates
  {
    hide Sum;
    received := 0;
    for i := 0 to |es|
      invariant Sane(w.State()) && old(w.updates) <= w.updates
      invariant Credit(w.State()) == old(Credit(w.State())) + (Sum(w.updates) - old(Sum(w.updates))) - received >= 0
    {
      ghost var us, before := w.updates, Credit(w.State());
      match es[i]
      case Received(n) =>
        if n <= w.local - w.recv {
          w.recv := w.recv + n;
          received := received + n;
        }
      case Update(increment) =>
        var _ := SubmitWindowUpdate(w, increment);
        Counted(before, Credit(w.State()), us, w.updates);
      case Resize(size) =>
        var _ := SetLocalWindowSize(w, size);
        Counted(before, Credit(w.State()), us, w.updates);
    }
  }

  /** What was announced adds to the sum of what was queued. */
  lemma Counted(before: int, after: int, us: seq<int>, vs: seq<int>)
    requires (vs == us && after == before) || (exists inc :: inc > 0 && vs == us + [inc] && after == before + inc)
    ensures after - before == Sum(vs) - Sum(us) >= 0 && us <= vs
  {
    if vs != us || after != before {
      var inc :| inc > 0 && vs == us + [inc] && after == before + inc;
      SumSnoc(us, inc);
    }
  }
}
