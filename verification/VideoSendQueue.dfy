/** The two-deep queue between the encoder callback and the video send thread. One mutex, so one step per lock. */
module VideoSendQueue {
  const MAX_QUEUE_FRAMES: nat := 2

  /** A frame by its place in the order of queueing; keyframe says whether any of its units is one. */
  datatype Frame = Frame(id: nat, keyframe: bool)

  /**
    The queue and the history of where every frame went. The send thread counts a stale frame only after it has given
    the mutex back, uncounted until then; the telemetry takes what is in the counter, reported in all so far.
   */
  datatype State = State(
    queue: seq<Frame>,
    newerFrameQueued: bool,
    droppedCount: nat,
    uncounted: nat,
    reported: nat,
    queued: seq<Frame>,
    sent: seq<Frame>,
    dropped: seq<Frame>,
    cleared: seq<Frame>)

  const INITIAL: State := State([], false, 0, 0, 0, [], [], [], [])

  datatype Step = Queue(keyframe: bool) | Take | CountStale | Clear | Report

  // ---- the steps as functions ----

  /** The oldest frame without a keyframe, or the queue's length. */
  function FirstDroppable(queue: seq<Frame>): (k: nat)
    ensures k <= |queue|
    ensures k < |queue| ==> !queue[k].keyframe
    ensures forall j :: 0 <= j < k ==> queue[j].keyframe
  {
    if queue == [] then 0
    else if !queue[0].keyframe then 0
    else 1 + FirstDroppable(queue[1..])
  }

  function Victim(queue: seq<Frame>): (k: nat)
    requires queue != []
    ensures k < |queue|
  {
    if FirstDroppable(queue) < |queue| then FirstDroppable(queue) else 0
  }

  function Without(queue: seq<Frame>, k: nat): (r: seq<Frame>)
    requires k < |queue|
    ensures |r| == |queue| - 1
  {
    queue[..k] + queue[k + 1..]
  }

  /** The send thread drops a frame, and has yet to count it. */
  function DropAt(s: State, k: nat): (r: State)
    requires k < |s.queue|
    ensures |r.queue| == |s.queue| - 1
  {
    s.(queue := Without(s.queue, k), dropped := s.dropped + [s.queue[k]], uncounted := s.uncounted + 1)
  }

  function Counted(s: State): State {
    if s.uncounted == 0 then s else s.(uncounted := s.uncounted - 1, droppedCount := s.droppedCount + 1)
  }

  function Evict(s: State): (r: State)
    requires s.queue != []
    ensures |r.queue| == |s.queue| - 1
  {
    s.(queue := Without(s.queue, Victim(s.queue)), dropped := s.dropped + [s.queue[Victim(s.queue)]],
       droppedCount := s.droppedCount + 1)
  }

  function EvictToFit(s: State): (r: State)
    ensures |r.queue| < MAX_QUEUE_FRAMES
    decreases |s.queue|
  {
    if |s.queue| < MAX_QUEUE_FRAMES then s else EvictToFit(Evict(s))
  }

  function Enqueued(s: State, keyframe: bool): State {
    var frame := Frame(|s.queued|, keyframe);
    var fit := EvictToFit(s);
    fit.(queue := fit.queue + [frame], newerFrameQueued := true, queued := s.queued + [frame])
  }

  /**
    The send thread, once it has counted what it dropped, takes the front; a frame without a keyframe is dropped when a
    newer one waits.
   */
  function Taken(s: State): State {
    if s.queue == [] || s.uncounted > 0 then s
    else
      var frame := s.queue[0];
      var rest := s.queue[1..];
      if rest != [] && !frame.keyframe then
        DropAt(s, 0).(newerFrameQueued := true)
      else
        s.(queue := rest, newerFrameQueued := rest != [], sent := s.sent + [frame])
  }

  function Cleared(s: State): State {
    s.(queue := [], newerFrameQueued := false, cleared := s.cleared + s.queue)
  }

  function Next(s: State, step: Step): State {
    match step
    case Queue(keyframe) => Enqueued(s, keyframe)
    case Take => Taken(s)
    case CountStale => Counted(s)
    case Clear => Cleared(s)
    case Report => s.(reported := s.reported + s.droppedCount, droppedCount := 0)
  }

  function Run(s: State, steps: seq<Step>): State {
    if steps == [] then s else Next(Run(s, steps[..|steps| - 1]), steps[|steps| - 1])
  }

  // ---- what holds at every lock boundary ----

  ghost predicate Ordered(frames: seq<Frame>) {
    forall i, j :: 0 <= i < j < |frames| ==> frames[i].id < frames[j].id
  }

  ghost predicate Numbered(queued: seq<Frame>) {
    forall i :: 0 <= i < |queued| ==> queued[i].id == i
  }

  /** Each queued frame is in exactly one place: sent, dropped, cleared or pending. */
  ghost predicate Conserved(s: State) {
    multiset(s.queued) == multiset(s.sent) + multiset(s.dropped) + multiset(s.cleared) + multiset(s.queue)
  }

  /** Everything but the flag, which a running critical section may leave behind. */
  ghost predicate Core(s: State) {
    && s.reported + s.droppedCount + s.uncounted == |s.dropped| && s.uncounted <= 1
    && Numbered(s.queued)
    && Ordered(s.sent + s.queue)
    && Conserved(s)
  }

  ghost predicate Inv(s: State) {
    && Core(s)
    && |s.queue| <= MAX_QUEUE_FRAMES
    && (s.newerFrameQueued <==> s.queue != [])
  }

  lemma WithoutMultiset(queue: seq<Frame>, k: nat)
    requires k < |queue|
    ensures multiset(Without(queue, k)) + multiset{queue[k]} == multiset(queue)
  {
    assert queue == queue[..k] + [queue[k]] + queue[k + 1..];
  }

  lemma OrderedWithout(sent: seq<Frame>, queue: seq<Frame>, k: nat)
    requires k < |queue| && Ordered(sent + queue)
    ensures Ordered(sent + Without(queue, k))
  {
    var a := sent + queue;
    var b := sent + Without(queue, k);
    var cut := |sent| + k;
    assert forall i :: 0 <= i < |b| ==> b[i] == a[if i < cut then i else i + 1];
  }

  /** A frame that is anywhere is the one queued under its number. */
  lemma Placed(s: State, f: Frame)
    requires Core(s) && (f in s.sent || f in s.dropped || f in s.cleared || f in s.queue)
    ensures f.id < |s.queued| && s.queued[f.id] == f
  {
    assert f in multiset(s.queued);
  }

  lemma DropKeepsCore(s: State, k: nat)
    requires Core(s) && k < |s.queue|
    ensures s.uncounted == 0 ==> Core(DropAt(s, k))
    ensures Core(s.(queue := Without(s.queue, k), dropped := s.dropped + [s.queue[k]], droppedCount := s.droppedCount + 1))
  {
    WithoutMultiset(s.queue, k);
    OrderedWithout(s.sent, s.queue, k);
  }

  lemma EvictKeepsCore(s: State)
    requires Core(s) && s.queue != []
    ensures Core(Evict(s)) && Evict(s).queued == s.queued
  {
    DropKeepsCore(s, Victim(s.queue));
  }

  lemma {:induction false} FitKeepsCore(s: State)
    requires Core(s)
    ensures Core(EvictToFit(s)) && EvictToFit(s).queued == s.queued
    decreases |s.queue|
  {
    if |s.queue| >= MAX_QUEUE_FRAMES {
      EvictKeepsCore(s);
      FitKeepsCore(Evict(s));
    }
  }

  lemma AppendKeepsCore(s: State, keyframe: bool)
    requires Core(s)
    ensures var frame := Frame(|s.queued|, keyframe);
            Core(s.(queue := s.queue + [frame], queued := s.queued + [frame], newerFrameQueued := true))
  {
    forall f | f in s.sent + s.queue
      ensures f.id < |s.queued|
    {
      Placed(s, f);
    }
    var frame := Frame(|s.queued|, keyframe);
    assert s.sent + (s.queue + [frame]) == (s.sent + s.queue) + [frame];
  }

  lemma EnqueueKeepsInv(s: State, keyframe: bool)
    requires Inv(s)
    ensures Inv(Enqueued(s, keyframe))
  {
    FitKeepsCore(s);
    AppendKeepsCore(EvictToFit(s), keyframe);
  }

  lemma TakeKeepsInv(s: State)
    requires Inv(s)
    ensures Inv(Taken(s))
  {
    if s.queue != [] && s.uncounted == 0 {
      var frame := s.queue[0];
      assert s.queue[1..] == Without(s.queue, 0);
      if s.queue[1..] != [] && !frame.keyframe {
        DropKeepsCore(s, 0);
      } else {
        HandOverKeepsCore(s);
      }
    }
  }

  lemma HandOverKeepsCore(s: State)
    requires Core(s) && s.queue != []
    ensures Core(s.(queue := s.queue[1..], newerFrameQueued := s.queue[1..] != [], sent := s.sent + [s.queue[0]]))
  {
    assert s.queue[1..] == Without(s.queue, 0);
    WithoutMultiset(s.queue, 0);
    assert (s.sent + [s.queue[0]]) + s.queue[1..] == s.sent + s.queue;
  }

  lemma ClearKeepsInv(s: State)
    requires Inv(s)
    ensures Inv(Cleared(s))
  {
    assert forall i :: 0 <= i < |s.sent| ==> (s.sent + s.queue)[i] == s.sent[i];
    assert s.sent + [] == s.sent;
  }

  lemma StepKeepsInv(s: State, step: Step)
    requires Inv(s)
    ensures Inv(Next(s, step))
  {
    match step
    case Queue(keyframe) => EnqueueKeepsInv(s, keyframe);
    case Take => TakeKeepsInv(s);
    case CountStale =>
    case Clear => ClearKeepsInv(s);
    case Report =>
  }

  /**
    Depth at most two, the flag equal to non-emptiness, and conservation hold after every run; and the counter, with
    what was reported of it, is never more than the one frame behind that the send thread has yet to count.
   */
  lemma {:induction false} Reachable(steps: seq<Step>)
    ensures Inv(Run(INITIAL, steps))
    ensures var s := Run(INITIAL, steps);
            && |s.queue| <= 2 && (s.newerFrameQueued <==> s.queue != [])
            && |s.dropped| - 1 <= s.reported + s.droppedCount <= |s.dropped|
            && (s.uncounted == 0 ==> s.reported + s.droppedCount == |s.dropped|)
  {
    if steps != [] {
      Reachable(steps[..|steps| - 1]);
      StepKeepsInv(Run(INITIAL, steps[..|steps| - 1]), steps[|steps| - 1]);
    }
  }

  /** Every queued frame ends in exactly one way: sent, dropped, cleared, or still pending. */
  lemma ExactlyOneFate(steps: seq<Step>, i: nat)
    requires i < |Run(INITIAL, steps).queued|
    ensures var s := Run(INITIAL, steps);
            var f := s.queued[i];
            multiset(s.sent)[f] + multiset(s.dropped)[f] + multiset(s.cleared)[f] + multiset(s.queue)[f] == 1
  {
    Reachable(steps);
    var s := Run(INITIAL, steps);
    NumberedOnce(s.queued, i);
  }

  lemma {:induction false} NumberedOnce(queued: seq<Frame>, i: nat)
    requires Numbered(queued) && i < |queued|
    ensures multiset(queued)[queued[i]] == 1
  {
    var rest := queued[..i] + queued[i + 1..];
    assert queued == queued[..i] + [queued[i]] + queued[i + 1..];
    assert multiset(queued) == multiset(rest) + multiset{queued[i]};
    forall j | 0 <= j < |rest|
      ensures rest[j] != queued[i]
    {
      assert rest[j] == queued[if j < i then j else j + 1];
    }
  }

  /** The wire carries an order-preserving subsequence of what was queued, and nothing pending is older. */
  lemma SentInOrder(steps: seq<Step>, a: nat, b: nat)
    requires a < b < |Run(INITIAL, steps).sent|
    ensures var s := Run(INITIAL, steps);
            && s.sent[a].id < s.sent[b].id < |s.queued|
            && s.queued[s.sent[a].id] == s.sent[a] && s.queued[s.sent[b].id] == s.sent[b]
            && forall f :: f in s.queue ==> s.sent[b].id < f.id
  {
    Reachable(steps);
    var s := Run(INITIAL, steps);
    Placed(s, s.sent[a]);
    Placed(s, s.sent[b]);
    var line := s.sent + s.queue;
    assert line[a] == s.sent[a] && line[b] == s.sent[b];
    forall f | f in s.queue
      ensures s.sent[b].id < f.id
    {
      var k :| 0 <= k < |s.queue| && s.queue[k] == f;
      assert line[|s.sent| + k] == f;
    }
  }

  /**
    What a step may drop: at most one frame; a frame with a keyframe only to make room, and then only when
    every frame in the full queue carries one. The send thread never drops a keyframe.
   */
  lemma KeyframesGoLast(steps: seq<Step>, step: Step)
    ensures var s := Run(INITIAL, steps);
            var t := Next(s, step);
            && s.dropped <= t.dropped && |t.dropped| <= |s.dropped| + 1
            && (|t.dropped| == |s.dropped| + 1 && t.dropped[|s.dropped|].keyframe ==>
                  step.Queue? && |s.queue| == MAX_QUEUE_FRAMES && forall f :: f in s.queue ==> f.keyframe)
  {
    Reachable(steps);
    var s := Run(INITIAL, steps);
    if step.Queue? && |s.queue| == MAX_QUEUE_FRAMES {
      var e := Evict(s);
      assert EvictToFit(s) == EvictToFit(e) == e;
    }
  }

  // ---- what each step does, place by place ----

  /** The send thread's turn moves the front out and touches nothing else. */
  predicate FrontGone(s: State, t: State)
    requires s.queue != []
  {
    && t.queue == s.queue[1..] && (t.newerFrameQueued <==> |s.queue| > 1)
    && t.queued == s.queued && t.cleared == s.cleared
    && t.droppedCount == s.droppedCount && t.reported == s.reported
  }

  /**
    The send thread hands over the front if and only if it is the only frame queued or carries a keyframe, and
    otherwise drops that frame and no other; with nothing queued, or a drop still to count, it does nothing.
   */
  lemma TakeExactly(steps: seq<Step>)
    ensures var s := Run(INITIAL, steps);
            var t := Next(s, Take);
            if s.queue == [] || s.uncounted > 0 then t == s
            else
              && FrontGone(s, t)
              && (t.sent == s.sent + [s.queue[0]] <==> |s.queue| == 1 || s.queue[0].keyframe)
              && (t.sent == s.sent + [s.queue[0]] ==> t.dropped == s.dropped && t.uncounted == 0)
              && (t.sent != s.sent + [s.queue[0]] ==>
                    t.sent == s.sent && t.dropped == s.dropped + [s.queue[0]] && t.uncounted == 1)
  {
    var s := Run(INITIAL, steps);
    Reachable(steps);
    if s.queue != [] {
      assert Without(s.queue, 0) == s.queue[1..];
      assert |s.sent + [s.queue[0]]| == |s.sent| + 1;
    }
  }

  /** Where a new frame goes, and what goes for it. */
  predicate QueuedInto(s: State, t: State, frame: Frame) {
    && t.queued == s.queued + [frame] && t.sent == s.sent && t.cleared == s.cleared && t.newerFrameQueued
    && (|s.queue| < 2 ==> t.dropped == s.dropped && t.queue == s.queue + [frame])
    && (|s.queue| == 2 ==>
          var newerGoes := s.queue[0].keyframe && !s.queue[1].keyframe;
          && t.dropped == s.dropped + [if newerGoes then s.queue[1] else s.queue[0]]
          && t.queue == [if newerGoes then s.queue[0] else s.queue[1], frame]
          && t.droppedCount == s.droppedCount + 1)
  }

  lemma EnqueuedInto(s: State, keyframe: bool)
    requires |s.queue| <= MAX_QUEUE_FRAMES
    ensures QueuedInto(s, Enqueued(s, keyframe), Frame(|s.queued|, keyframe))
  {
    if |s.queue| == 2 {
      EvictsOne(s);
      assert EvictToFit(s) == EvictToFit(Evict(s)) == Evict(s);
    }
  }

  lemma EvictsOne(s: State)
    requires |s.queue| == 2
    ensures var newerGoes := s.queue[0].keyframe && !s.queue[1].keyframe;
            Evict(s) == s.(queue := [if newerGoes then s.queue[0] else s.queue[1]],
                           dropped := s.dropped + [if newerGoes then s.queue[1] else s.queue[0]],
                           droppedCount := s.droppedCount + 1)
  {
    assert FirstDroppable(s.queue[1..]) <= 1;
  }

  /**
    A frame that finds room drops nothing. In a full queue it drops the older frame if that has no keyframe, else the
    newer one if that has none, else the older one.
   */
  lemma QueueExactly(steps: seq<Step>, keyframe: bool)
    ensures var s := Run(INITIAL, steps);
            |s.queue| <= 2 && QueuedInto(s, Next(s, Queue(keyframe)), Frame(|s.queued|, keyframe))
  {
    Reachable(steps);
    EnqueuedInto(Run(INITIAL, steps), keyframe);
  }

  /** So a frame queued alone goes out with the next turn, whatever it carries. */
  lemma AloneIsSent(steps: seq<Step>, keyframe: bool)
    ensures var s := Run(INITIAL, steps);
            var frame := Frame(|s.queued|, keyframe);
            s.queue == [] && s.uncounted == 0 ==>
              Run(INITIAL, steps + [Queue(keyframe), Take]).sent == s.sent + [frame]
  {
    var queued := steps + [Queue(keyframe)];
    var all := steps + [Queue(keyframe), Take];
    assert queued[..|steps|] == steps && all[..|queued|] == queued;
    QueueExactly(steps, keyframe);
    TakeExactly(queued);
  }

  /** The queue as the server keeps it; the histories are ghost. */
  class SendQueue {
    var queue: seq<Frame>
    var newerFrameQueued: bool
    var droppedFrames: nat
    ghost var uncounted: nat
    ghost var reported: nat
    ghost var queued: seq<Frame>
    ghost var sent: seq<Frame>
    ghost var dropped: seq<Frame>
    ghost var cleared: seq<Frame>

    ghost function View(): State
      reads this
    {
      State(queue, newerFrameQueued, droppedFrames, uncounted, reported, queued, sent, dropped, cleared)
    }

    constructor ()
      ensures View() == INITIAL
    {
      queue, newerFrameQueued, droppedFrames := [], false, 0;
      uncounted, reported := 0, 0;
      queued, sent, dropped, cleared := [], [], [], [];
    }

    method FindDroppable() returns (k: nat)
      ensures k == FirstDroppable(queue)
    {
      k := 0;
      while k < |queue| && queue[k].keyframe
        invariant k <= |queue|
        invariant FirstDroppable(queue) == k + FirstDroppable(queue[k..])
      {
        k := k + 1;
      }
    }

    method EvictAt(k: nat)
      requires queue != [] && k == Victim(queue)
      modifies this`queue, this`droppedFrames, this`dropped
      ensures View() == Evict(old(View()))
    {
      dropped := dropped + [queue[k]];
      queue := queue[..k] + queue[k + 1..];
      droppedFrames := droppedFrames + 1;
    }

    method QueueEncodedVideoFrame(frame: Frame)
      requires Inv(View()) && frame.id == |queued|
      modifies this
      ensures Inv(View()) && View() == Next(old(View()), Queue(frame.keyframe))
      ensures QueuedInto(old(View()), View(), frame)
    {
      EnqueuedInto(View(), frame.keyframe);
      Enqueue(frame);
    }

    method Enqueue(frame: Frame)
      requires Inv(View()) && frame.id == |queued|
      modifies this
      ensures Inv(View()) && View() == Next(old(View()), Queue(frame.keyframe))
    {
      ghost var before := View();
      while |queue| >= MAX_QUEUE_FRAMES
        invariant Core(View()) && EvictToFit(View()) == EvictToFit(before)
        invariant queued == before.queued
        decreases |queue|
      {
        EvictKeepsCore(View());
        var k := FindDroppable();
        if k == |queue| {
          k := 0;
        }
        EvictAt(k);
      }
      EnqueueKeepsInv(before, frame.keyframe);
      queue := queue + [frame];
      queued := queued + [frame];
      newerFrameQueued := true;
    }

    /** One turn of the send thread, under the mutex: the frame to send, if any, or a stale one. */
    method TakeFrame() returns (handed: bool, stale: bool, frame: Frame)
      requires Inv(View()) && uncounted == 0
      modifies this
      ensures Inv(View()) && View() == Next(old(View()), Take)
      ensures handed <==> old(queue) != [] && (|old(queue)| == 1 || old(queue)[0].keyframe)
      ensures stale <==> old(queue) != [] && !handed
      ensures old(queue) != [] ==> frame == old(queue)[0] && queue == old(queue)[1..]
      ensures sent == (if handed then old(sent) + [frame] else old(sent))
      ensures dropped == (if stale then old(dropped) + [frame] else old(dropped))
      ensures uncounted == if stale then 1 else 0
    {
      TakeKeepsInv(View());
      handed, stale, frame := DecideTake();
    }

    method DecideTake() returns (handed: bool, stale: bool, frame: Frame)
      requires uncounted == 0
      modifies this
      ensures View() == Taken(old(View()))
      ensures handed <==> old(queue) != [] && (|old(queue)| == 1 || old(queue)[0].keyframe)
      ensures stale <==> old(queue) != [] && !handed
      ensures old(queue) != [] ==> frame == old(queue)[0] && queue == old(queue)[1..]
      ensures sent == (if handed then old(sent) + [frame] else old(sent))
      ensures dropped == (if stale then old(dropped) + [frame] else old(dropped))
      ensures uncounted == if stale then 1 else 0
    {
      handed, stale := false, false;
      if queue == [] {
        return false, false, Frame(0, false);
      }
      frame := queue[0];
      assert Without(queue, 0) == queue[1..];
      queue := queue[1..];
      newerFrameQueued := queue != [];
      stale := newerFrameQueued && !frame.keyframe;
      if stale {
        dropped, uncounted := dropped + [frame], 1;
      } else {
        sent := sent + [frame];
        handed := true;
      }
    }

    /** What it does with a stale frame after it has given the mutex back. */
    method CountStaleFrame()
      requires Inv(View()) && uncounted == 1
      modifies this`droppedFrames, this`uncounted
      ensures Inv(View()) && View() == Next(old(View()), CountStale) && uncounted == 0
    {
      droppedFrames := droppedFrames + 1;
      uncounted := 0;
    }

    /** The telemetry's exchange with zero: the drops since the last one. */
    method TakeDroppedCount() returns (count: nat)
      requires Inv(View())
      modifies this`droppedFrames, this`reported
      ensures Inv(View()) && View() == Next(old(View()), Report)
      ensures count == old(droppedFrames) == reported - old(reported)
    {
      count := droppedFrames;
      droppedFrames := 0;
      reported := reported + count;
    }

    method ClearVideoSendQueue()
      requires Inv(View())
      modifies this
      ensures Inv(View()) && View() == Next(old(View()), Clear)
      ensures queue == [] && !newerFrameQueued && cleared == old(cleared) + old(queue)
      ensures sent == old(sent) && dropped == old(dropped) && droppedFrames == old(droppedFrames)
    {
      StepKeepsInv(View(), Clear);
      cleared := cleared + queue;
      queue := [];
      newerFrameQueued := false;
    }
  }
}
