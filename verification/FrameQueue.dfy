/**
  The latest-only frame queue (StreamingFrameQueue.cpp): one pending slot under a mutex; a frame pushed out of it is
  released after the mutex is back. Frames are numbered in push order.
 */
module FrameQueue {
  import opened Protocol

  /** One pop: the frame, and how many had been pushed by then. */
  datatype Pop = Pop(frame: nat, pushedThen: nat)

  /** releasing holds the frames that threads have taken out of the slot and not released yet. */
  datatype Queue = Queue(
    pushed: nat,
    pending: Option<nat>,
    callback: bool,
    releasing: set<nat>,
    released: seq<nat>,
    discarded: seq<nat>,
    pops: seq<Pop>)

  datatype Step =
    | Push
    | TakeOut
    | Clear
    | FinishRelease(frame: nat)
    | SetCallback(callback: bool)

  const EMPTY: Queue := Queue(0, None, false, {}, [], [], [])

  function Slot(pending: Option<nat>): set<nat> {
    if pending.Some? then {pending.value} else {}
  }

  function Pushed(q: Queue): Queue {
    q.(pushed := q.pushed + 1, pending := Some(q.pushed), releasing := q.releasing + Slot(q.pending))
  }

  function TakenOut(q: Queue): Queue {
    if q.pending == None then q else q.(pending := None, pops := q.pops + [Pop(q.pending.value, q.pushed)])
  }

  function Cleared(q: Queue): Queue {
    q.(pending := None, releasing := q.releasing + Slot(q.pending))
  }

  /** With no callback set the frame is dropped without a call. */
  function Finished(q: Queue, frame: nat): Queue {
    if frame !in q.releasing then q
    else
      var rest := q.(releasing := q.releasing - {frame});
      if q.callback then rest.(released := q.released + [frame]) else rest.(discarded := q.discarded + [frame])
  }

  function Next(q: Queue, step: Step): Queue {
    match step
    case Push => Pushed(q)
    case TakeOut => TakenOut(q)
    case Clear => Cleared(q)
    case FinishRelease(frame) => Finished(q, frame)
    case SetCallback(callback) => q.(callback := callback)
  }

  function Run(q: Queue, steps: seq<Step>): Queue {
    if steps == [] then q else Next(Run(q, steps[..|steps| - 1]), steps[|steps| - 1])
  }

  // ---- every run ----

  function Times(s: seq<nat>, frame: nat): nat {
    if s == [] then 0 else Times(s[..|s| - 1], frame) + One(s[|s| - 1] == frame)
  }

  function One(b: bool): nat {
    if b then 1 else 0
  }

  function Frames(pops: seq<Pop>): (s: seq<nat>)
    ensures |s| == |pops|
  {
    seq(|pops|, i requires 0 <= i < |pops| => pops[i].frame)
  }

  /** In how many places a frame is. */
  function Places(q: Queue, frame: nat): nat {
    Times(Frames(q.pops), frame) + Times(q.released, frame) + Times(q.discarded, frame) + One(frame in q.releasing) +
    One(q.pending == Some(frame))
  }

  ghost predicate Accounted(q: Queue) {
    forall frame: nat :: InOnePlace(q, frame)
  }

  predicate NewestFirst(q: Queue) {
    && (q.pending.Some? ==> q.pending.value + 1 == q.pushed)
    && (forall i :: 0 <= i < |q.pops| ==> q.pops[i].frame + 1 == q.pops[i].pushedThen <= q.pushed)
    && (forall i, j :: 0 <= i < j < |q.pops| ==> q.pops[i].frame < q.pops[j].frame)
    && (q.pops != [] && q.pending.Some? ==> q.pops[|q.pops| - 1].frame < q.pending.value)
  }

  ghost predicate Inv(q: Queue) {
    Accounted(q) && NewestFirst(q)
  }

  lemma TimesAppend(s: seq<nat>, x: nat, frame: nat)
    ensures Times(s + [x], frame) == Times(s, frame) + One(x == frame)
  {
    assert (s + [x])[..|s|] == s;
  }

  predicate InOnePlace(q: Queue, frame: nat) {
    Places(q, frame) == One(frame < q.pushed)
  }

  lemma TimesPopped(pops: seq<Pop>, pop: Pop, frame: nat)
    ensures Times(Frames(pops + [pop]), frame) == Times(Frames(pops), frame) + One(pop.frame == frame)
  {
    assert Frames(pops + [pop]) == Frames(pops) + [pop.frame];
    TimesAppend(Frames(pops), pop.frame, frame);
  }

  lemma TakeOutAccounts(q: Queue, frame: nat)
    requires InOnePlace(q, frame)
    ensures InOnePlace(TakenOut(q), frame)
  {
    if q.pending.Some? {
      TimesPopped(q.pops, Pop(q.pending.value, q.pushed), frame);
    }
  }

  lemma FinishAccounts(q: Queue, f: nat, frame: nat)
    requires InOnePlace(q, frame)
    ensures InOnePlace(Finished(q, f), frame)
  {
    TimesAppend(q.released, f, frame);
    TimesAppend(q.discarded, f, frame);
  }

  lemma SlotAccounts(q: Queue, frame: nat)
    requires InOnePlace(q, frame)
    ensures (q.pending.Some? ==> q.pending.value + 1 == q.pushed) ==> InOnePlace(Pushed(q), frame)
    ensures InOnePlace(Cleared(q), frame)
  {
  }

  lemma NextAccounts(q: Queue, step: Step, frame: nat)
    requires InOnePlace(q, frame) && (q.pending.Some? ==> q.pending.value + 1 == q.pushed)
    ensures InOnePlace(Next(q, step), frame)
  {
    match step
    case Push => SlotAccounts(q, frame);
    case TakeOut => TakeOutAccounts(q, frame);
    case Clear => SlotAccounts(q, frame);
    case FinishRelease(f) => FinishAccounts(q, f, frame);
    case SetCallback(callback) =>
  }

  lemma NextKeepsInv(q: Queue, step: Step)
    requires Inv(q)
    ensures Inv(Next(q, step))
  {
    forall frame: nat
      ensures InOnePlace(Next(q, step), frame)
    {
      NextAccounts(q, step, frame);
    }
  }

  lemma {:induction false} Reachable(steps: seq<Step>)
    ensures Inv(Run(EMPTY, steps))
  {
    if steps != [] {
      Reachable(steps[..|steps| - 1]);
      NextKeepsInv(Run(EMPTY, steps[..|steps| - 1]), steps[|steps| - 1]);
    }
  }

  /**
    In every interleaving each frame pushed is in exactly one place, once: popped, released, discarded for want of a
    callback, on its way to release, or pending.
   */
  lemma ExactlyOnePlace(steps: seq<Step>, frame: nat)
    ensures var q := Run(EMPTY, steps);
            Times(Frames(q.pops), frame) + Times(q.released, frame) + Times(q.discarded, frame) +
            One(frame in q.releasing) + One(q.pending == Some(frame)) == One(frame < q.pushed)
  {
    Reachable(steps);
    assert InOnePlace(Run(EMPTY, steps), frame);
  }

  /** Pops follow push order, and each takes the newest frame pushed by then. */
  lemma PopsTakeTheNewest(steps: seq<Step>, i: nat, j: nat)
    requires i < j < |Run(EMPTY, steps).pops|
    ensures var pops := Run(EMPTY, steps).pops;
            pops[i].frame < pops[j].frame && pops[i].frame + 1 == pops[i].pushedThen &&
            pops[j].frame + 1 == pops[j].pushedThen
  {
    Reachable(steps);
  }

  /** No step of the run changes whether a callback is set. */
  predicate SetThroughout(steps: seq<Step>, callback: bool) {
    forall i :: 0 <= i < |steps| && steps[i].SetCallback? ==> steps[i].callback == callback
  }

  /**
    With the callback set throughout, every frame that leaves the queue unpopped is handed to it: none is discarded,
    and each is popped, released, on its way, or pending. With none set, the callback is never called.
   */
  lemma {:induction false} CallbackGetsAll(q: Queue, steps: seq<Step>)
    requires SetThroughout(steps, q.callback)
    ensures var r := Run(q, steps);
            && r.callback == q.callback
            && (q.callback ==> r.discarded == q.discarded)
            && (!q.callback ==> r.released == q.released)
  {
    if steps != [] {
      CallbackGetsAll(q, steps[..|steps| - 1]);
    }
  }

  // ---- the class ----

  class LatestFrame {
    var pending: Option<nat>
    var stopped: bool
    var hasCallback: bool
    ghost var pushed: nat
    ghost var releasing: set<nat>
    ghost var discarded: seq<nat>
    ghost var pops: seq<Pop>
    var released: seq<nat>     // what the callback was called with

    ghost function View(): Queue
      reads this
    {
      Queue(pushed, pending, hasCallback, releasing, released, discarded, pops)
    }

    constructor ()
      ensures View() == EMPTY && stopped
    {
      pending, stopped, hasCallback := None, true, false;
      pushed, releasing, discarded, pops, released := 0, {}, [], [], [];
    }

    method SetReleaseFrameCallback(callback: bool)
      modifies this`hasCallback
      ensures View() == Next(old(View()), SetCallback(callback)) && hasCallback == callback
    {
      hasCallback := callback;
    }

    method Start()
      modifies this`stopped
      ensures !stopped
    {
      stopped := false;
    }

    method Stop()
      modifies this`stopped
      ensures stopped
    {
      stopped := true;
    }

    /** ReleaseFrame, for a frame taken out of the slot. */
    method ReleaseFrame(frame: nat)
      requires Inv(View()) && frame in releasing
      modifies this
      ensures Inv(View()) && View() == Next(old(View()), FinishRelease(frame)) && stopped == old(stopped)
      ensures released == (if hasCallback then old(released) + [frame] else old(released))
      ensures discarded == (if hasCallback then old(discarded) else old(discarded) + [frame])
      ensures releasing == old(releasing) - {frame} && pending == old(pending)
    {
      NextKeepsInv(View(), FinishRelease(frame));
      releasing := releasing - {frame};
      if hasCallback {
        released := released + [frame];
      } else {
        discarded := discarded + [frame];
      }
    }

    /** PushLatest under the mutex; the new frame is number pushed, and the one that was pending is to be released. */
    method Swap(frame: nat) returns (replaced: Option<nat>)
      requires Inv(View()) && frame == pushed
      modifies this
      ensures Inv(View()) && View() == Next(old(View()), Push) && replaced == old(pending)
      ensures stopped == old(stopped)
    {
      NextKeepsInv(View(), Push);
      replaced := pending;
      releasing := releasing + Slot(pending);
      pending := Some(frame);
      pushed := pushed + 1;
    }

    /** PushLatest without another thread in between: the older pending frame, if any, is released. */
    method PushLatest(frame: nat) returns (replaced: bool)
      requires Inv(View()) && frame == pushed
      modifies this
      ensures Inv(View()) && replaced == old(pending).Some? && pending == Some(frame) && stopped == old(stopped)
      ensures View() == if old(pending) == None then Pushed(old(View()))
                        else Finished(Pushed(old(View())), old(pending).value)
      ensures pushed == old(pushed) + 1
      ensures released == if replaced && hasCallback then old(released) + [old(pending).value] else old(released)
    {
      var older := Swap(frame);
      replaced := older.Some?;
      if replaced {
        ReleaseFrame(older.value);
      }
    }

    /** WaitPop, once its wait is over; a stopped queue still gives up a pending frame. */
    method WaitPop(running: bool) returns (frame: Option<nat>)
      requires Inv(View()) && (!running || stopped || pending.Some?)
      modifies this
      ensures Inv(View()) && View() == Next(old(View()), TakeOut) && stopped == old(stopped)
      ensures frame == old(pending) && pending == None
      ensures frame.Some? ==> frame.value + 1 == pushed
    {
      NextKeepsInv(View(), TakeOut);
      frame := pending;
      if frame.Some? {
        pops := pops + [Pop(frame.value, pushed)];
      }
      pending := None;
    }

    method ClearPending()
      requires Inv(View())
      modifies this
      ensures Inv(View()) && pending == None && stopped == old(stopped)
      ensures View() == if old(pending) == None then Cleared(old(View()))
                        else Finished(Cleared(old(View())), old(pending).value)
      ensures released ==
              if old(pending).Some? && hasCallback then old(released) + [old(pending).value] else old(released)
    {
      NextKeepsInv(View(), Clear);
      var frame := pending;
      releasing := releasing + Slot(pending);
      pending := None;
      if frame.Some? {
        ReleaseFrame(frame.value);
      }
    }
  }
}
