/**
  The session state machine of Session.cpp, as interleaved critical sections. A state transition is two steps,
  the write of state_ and the push of its event. BeginSession and EndSession take no transition lock; what they do
  between their checks and their return is one step for each write.
 */
module SessionLifecycle {
  datatype SessionState = Idle | Ready | Synchronized | Visible | Focused | Stopping | Exiting

  /** The session-state graph of the OpenXR 1.0 Specification, section 9 (without loss of the session). */
  predicate Edge(from: SessionState, to: SessionState) {
    match from
    case Idle => to.Ready? || to.Exiting?
    case Ready => to.Synchronized?
    case Synchronized => to.Visible? || to.Stopping?
    case Visible => to.Synchronized? || to.Focused?
    case Focused => to.Visible?
    case Stopping => to.Idle?
    case Exiting => false
  }

  /** A walk of the graph that begins with the first state a session reports. */
  ghost predicate IsWalk(events: seq<SessionState>) {
    && events != [] && events[0] == Idle
    && forall i: nat :: i + 1 < |events| ==> Edge(events[i], events[i + 1])
  }

  /** The states a thread is about to go through; `written` when the first is in state_ but its event is not pushed. */
  datatype Program = Program(todo: seq<SessionState>, written: bool)

  const DONE: Program := Program([], false)

  datatype Session = Session(
    state: SessionState,
    running: bool,
    exitRequested: bool,
    frameBegun: bool,
    waitedFrames: nat,
    holder: Program,        // the thread inside stateTransitionMutex_
    frameLocked: bool,      // it holds frameStateMutex_ as well, as RequestExitSession does
    beginChecked: nat,      // BeginSession calls past their checks of running_ and state_
    beginReset: nat,        // BeginSession calls that have set exitRequested_ back
    beginCleared: nat,      // BeginSession calls that have cleared the frame counters
    ending: nat,            // EndSession calls past their check of state_
    draining: nat,          // EndSession calls that have cleared running_, stopping the server
    emitting: seq<Program>, // EndSession calls that emit the last events
    waitCalls: nat,         // WaitFrame calls past their first check
    endChecked: nat,        // EndFrame calls past their first check
    endSubmitted: nat,      // EndFrame calls that have cleared frameBegun_ and not yet advanced
    exitCalls: nat,         // RequestExitSession calls past their check of running_
    events: seq<SessionState>,
    polled: nat)

  /** As the constructor leaves it: two transitions made, nothing begun. */
  const CREATED: Session :=
    Session(Ready, false, false, false, 0, DONE, false, 0, 0, 0, 0, 0, [], 0, 0, 0, 0, [Idle, Ready], 0)

  datatype Step =
    | BeginEnter | BeginRefuse | BeginReset | BeginClear | BeginDone
    | WaitEnter | WaitLeave
    | BeginFrame
    | EndEnter | EndReject | EndSubmit | EndAdvance
    | ExitEnter | ExitLocked
    | HolderWrite | HolderPush
    | EndSession | EndRunning | StopFailed | StopDone
    | EnderWrite(call: nat) | EnderPush(call: nat) | EnderFinish(call: nat)   // which of the emitting calls
    | Poll

  /** The transition AdvanceSessionStateAfterFrameSubmission makes, if any. */
  function Advance(exitRequested: bool, state: SessionState): seq<SessionState> {
    if exitRequested then
      match state
      case Focused => [Visible]
      case Visible => [Synchronized]
      case Ready => [Synchronized]
      case Synchronized => [Stopping]
      case _ => []
    else
      match state
      case Ready => [Synchronized]
      case Synchronized => [Visible]
      case Visible => [Focused]
      case _ => []
  }

  predicate LockFree(s: Session) {
    s.holder.todo == []
  }

  /**
    When the thread that owns the step can take it. The two checks of BeginSession are one step, at the time of the
    first: state_ never comes back to READY, so if the second check finds READY it was so at the first, and if it does
    not the call refuses.
   */
  predicate Enabled(s: Session, step: Step) {
    match step
    case BeginEnter => !s.running && s.state == Ready
    case BeginRefuse => s.beginChecked > 0
    case BeginReset => s.beginChecked > 0
    case BeginClear => s.beginReset > 0 && !s.frameLocked
    case BeginDone => s.beginCleared > 0
    case WaitEnter => s.running && !s.frameLocked
    case WaitLeave => s.waitCalls > 0 && !s.frameLocked
    case BeginFrame => s.running && s.waitedFrames > 0 && !s.frameLocked
    case EndEnter => s.running && s.frameBegun && !s.frameLocked
    case EndReject => s.endChecked > 0
    case EndSubmit => s.endChecked > 0 && !s.frameLocked
    case EndAdvance => s.endSubmitted > 0 && LockFree(s)
    case ExitEnter => s.running
    case ExitLocked => s.exitCalls > 0 && LockFree(s)
    case HolderWrite => s.holder.todo != [] && !s.holder.written
    case HolderPush => s.holder.todo != [] && s.holder.written
    case EndSession => s.state == Stopping
    case EndRunning => s.ending > 0
    case StopFailed => s.draining > 0
    case StopDone => s.draining > 0 && !s.frameLocked
    case EnderWrite(call) => call < |s.emitting| && s.emitting[call].todo != [] && !s.emitting[call].written
    case EnderPush(call) => call < |s.emitting| && s.emitting[call].todo != [] && s.emitting[call].written
    case EnderFinish(call) => call < |s.emitting| && s.emitting[call].todo == []
    case Poll => s.polled < |s.events|
  }

  function Pushed(p: Program): Program
    requires p.todo != []
  {
    Program(p.todo[1..], false)
  }

  /** A step that is not enabled leaves everything alone: the call fails or waits. */
  function Next(s: Session, step: Step): Session {
    if !Enabled(s, step) then s
    else
      match step
      case BeginEnter => s.(beginChecked := s.beginChecked + 1)
      case BeginRefuse => s.(beginChecked := s.beginChecked - 1)
      case BeginReset => s.(beginChecked := s.beginChecked - 1, beginReset := s.beginReset + 1, exitRequested := false)
      case BeginClear =>
        s.(beginReset := s.beginReset - 1, beginCleared := s.beginCleared + 1, frameBegun := false, waitedFrames := 0)
      case BeginDone => s.(beginCleared := s.beginCleared - 1, running := true)
      case WaitEnter => s.(waitCalls := s.waitCalls + 1)
      case WaitLeave =>
        s.(waitCalls := s.waitCalls - 1, waitedFrames := if s.running then s.waitedFrames + 1 else s.waitedFrames)
      case BeginFrame => s.(waitedFrames := s.waitedFrames - 1, frameBegun := true)
      case EndEnter => s.(endChecked := s.endChecked + 1)
      case EndReject => s.(endChecked := s.endChecked - 1)
      case EndSubmit => s.(endChecked := s.endChecked - 1, endSubmitted := s.endSubmitted + 1, frameBegun := false)
      case EndAdvance =>
        s.(endSubmitted := s.endSubmitted - 1,
           holder := if s.running then Program(Advance(s.exitRequested, s.state), false) else DONE)
      case ExitEnter => s.(exitCalls := s.exitCalls + 1)
      case ExitLocked =>
        var idle := s.state == Ready && !s.frameBegun && s.waitedFrames == 0;
        s.(exitCalls := s.exitCalls - 1, exitRequested := true, frameLocked := idle,
           holder := if idle then Program([Synchronized, Stopping], false) else DONE)
      case HolderWrite => s.(state := s.holder.todo[0], holder := s.holder.(written := true))
      case HolderPush =>
        s.(events := s.events + [s.holder.todo[0]], holder := Pushed(s.holder),
           frameLocked := s.frameLocked && |s.holder.todo| > 1)
      case EndSession => s.(ending := s.ending + 1)
      case EndRunning => s.(ending := s.ending - 1, draining := s.draining + 1, running := false)
      case StopFailed => s.(draining := s.draining - 1)
      case StopDone =>
        s.(frameBegun := false, waitedFrames := 0, draining := s.draining - 1,
           emitting := s.emitting + [Program([Idle, Exiting], false)])
      case EnderWrite(call) =>
        s.(state := s.emitting[call].todo[0],
           emitting := s.emitting[call := s.emitting[call].(written := true)])
      case EnderPush(call) =>
        s.(events := s.events + [s.emitting[call].todo[0]],
           emitting := s.emitting[call := Pushed(s.emitting[call])])
      case EnderFinish(call) =>
        s.(exitRequested := false, emitting := s.emitting[..call] + s.emitting[call + 1..])
      case Poll => s.(polled := s.polled + 1)
  }

  function Run(s: Session, steps: seq<Step>): Session {
    if steps == [] then s else Next(Run(s, steps[..|steps| - 1]), steps[|steps| - 1])
  }

  /** A transition to STOPPING has written state_ and not yet pushed its event. */
  predicate InTheGap(s: Session) {
    s.holder.written && s.holder.todo == [Stopping]
  }

  /** STOPPING has been pushed; or it is about to be, by a thread whose frame lock EndSession has to wait for. */
  predicate StoppingAhead(s: Session) {
    Stopping in s.events || (InTheGap(s) && s.frameLocked)
  }

  /** STOPPING comes first, and no other EndSession is between its check of state_ and its return. */
  predicate SafeToEnd(s: Session) {
    StoppingAhead(s) && s.ending == s.draining == 0 && s.emitting == []
  }

  /** If the step is an EndSession that is accepted, it is accepted when it is safe. */
  predicate SafeStep(s: Session, step: Step) {
    step.EndSession? && Enabled(s, step) ==> SafeToEnd(s)
  }

  /** A run from s in which every accepted EndSession is safe. */
  ghost predicate SafeRun(s: Session, steps: seq<Step>) {
    forall k: nat :: k < |steps| ==> SafeAt(s, steps, k)
  }

  ghost predicate SafeAt(s: Session, steps: seq<Step>, k: nat)
    requires k < |steps|
  {
    SafeStep(Run(s, steps[..k]), steps[k])
  }

  lemma SafePrefix(s: Session, steps: seq<Step>)
    requires steps != [] && SafeRun(s, steps)
    ensures var k := |steps| - 1; SafeRun(s, steps[..k]) && SafeStep(Run(s, steps[..k]), steps[k])
  {
    var k := |steps| - 1;
    forall j: nat | j < k
      ensures SafeAt(s, steps[..k], j)
    {
      assert SafeAt(s, steps, j) && steps[..k][..j] == steps[..j];
    }
    assert SafeAt(s, steps, k);
  }

  // ---- the invariant ----

  function Last(events: seq<SessionState>): SessionState
    requires events != []
  {
    events[|events| - 1]
  }

  /** From here the program takes a walk, and state_ is where the program has got to. */
  ghost predicate OnCourse(s: Session, p: Program)
    requires s.events != []
  {
    && (p.todo == [] ==> !p.written)
    && (p.todo != [] ==> Edge(Last(s.events), p.todo[0]))
    && (forall i: nat :: i + 1 < |p.todo| ==> Edge(p.todo[i], p.todo[i + 1]))
    && s.state == if p.written then p.todo[0] else Last(s.events)
  }

  /** What an EndSession may still have to do. */
  predicate Closing(p: Program) {
    (p.todo == [Idle, Exiting]) || p.todo == [Exiting] || p.todo == []
  }

  ghost predicate Inv(s: Session) {
    && IsWalk(s.events)
    && s.polled <= |s.events|
    && s.ending + s.draining + |s.emitting| <= 1
    && (if s.emitting != [] then LockFree(s) && !s.holder.written && OnCourse(s, s.emitting[0])
        else OnCourse(s, s.holder))
    && (s.frameLocked ==> !LockFree(s))
    && (Stopping in s.events ==> LockFree(s) && (s.state == Stopping || s.state == Idle || s.state == Exiting))
    && (s.ending + s.draining > 0 ==> s.state == Stopping && StoppingAhead(s))
    && (s.emitting != [] ==> Stopping in s.events)
    && (forall i: nat :: i < |s.holder.todo| && s.holder.todo[i] == Stopping ==> i == |s.holder.todo| - 1)
    && (forall i: nat :: i < |s.holder.todo| ==> s.holder.todo[i] != Idle && s.holder.todo[i] != Exiting)
    && (Last(s.events) == Idle || Last(s.events) == Exiting ==> Stopping in s.events)
    && (!s.running && !StoppingAhead(s) ==> s.state == Ready && LockFree(s) && !s.exitRequested)
    && (s.emitting != [] ==> Closing(s.emitting[0]) && (s.emitting[0].todo == [] ==> Last(s.events) == Exiting))
    && (s.exitCalls > 0 ==> s.running || StoppingAhead(s))
  }

  lemma PushExtendsWalk(events: seq<SessionState>, next: SessionState)
    requires IsWalk(events) && Edge(Last(events), next)
    ensures IsWalk(events + [next])
  {
    var longer := events + [next];
    forall i: nat | i + 1 < |longer|
      ensures Edge(longer[i], longer[i + 1])
    {
      if i + 1 < |events| {
        assert Edge(events[i], events[i + 1]);
      }
    }
  }

  /** A step of the thread inside stateTransitionMutex_. */
  predicate OfHolder(step: Step) {
    step.HolderWrite? || step.HolderPush?
  }

  /** A step that takes stateTransitionMutex_. */
  predicate Locking(step: Step) {
    step.EndAdvance? || step.ExitLocked?
  }

  predicate OfBegin(step: Step) {
    step.BeginEnter? || step.BeginRefuse? || step.BeginReset? || step.BeginClear? || step.BeginDone?
  }

  /** A step of EndSession up to its last critical section. */
  predicate OfEnd(step: Step) {
    step.EndSession? || step.EndRunning? || step.StopFailed? || step.StopDone?
  }

  /** A step of an EndSession that emits the last events. */
  predicate OfEnder(step: Step) {
    step.EnderWrite? || step.EnderPush? || step.EnderFinish?
  }

  /** A step that only counts calls, frames or polled events. */
  predicate Counting(step: Step) {
    || step.WaitEnter? || step.WaitLeave? || step.BeginFrame? || step.EndEnter? || step.EndReject? || step.EndSubmit?
    || step.ExitEnter? || step.Poll?
  }

  lemma HolderKeepsInv(s: Session, step: Step)
    requires Inv(s) && OfHolder(step) && Enabled(s, step)
    ensures Inv(Next(s, step))
  {
    if step.HolderPush? {
      PushExtendsWalk(s.events, s.holder.todo[0]);
    }
  }

  lemma EnderWriteKeepsInv(s: Session, call: nat)
    requires Inv(s) && Enabled(s, EnderWrite(call))
    ensures Inv(Next(s, EnderWrite(call)))
  {
  }

  lemma EnderPushKeepsInv(s: Session, call: nat)
    requires Inv(s) && Enabled(s, EnderPush(call))
    ensures Inv(Next(s, EnderPush(call)))
  {
    PushExtendsWalk(s.events, s.emitting[0].todo[0]);
  }

  lemma EnderFinishKeepsInv(s: Session, call: nat)
    requires Inv(s) && Enabled(s, EnderFinish(call))
    ensures Inv(Next(s, EnderFinish(call)))
  {
  }

  lemma LockedKeepsInv(s: Session, step: Step)
    requires Inv(s) && Locking(step) && Enabled(s, step)
    ensures Inv(Next(s, step))
  {
  }

  lemma BeginKeepsInv(s: Session, step: Step)
    requires Inv(s) && Enabled(s, step)
    requires OfBegin(step)
    ensures Inv(Next(s, step))
  {
  }

  lemma CallKeepsInv(s: Session, step: Step)
    requires Inv(s) && Enabled(s, step)
    requires OfEnd(step) && SafeStep(s, step)
    ensures Inv(Next(s, step))
  {
  }

  lemma WaitsKeepInv(s: Session, step: Step)
    requires Inv(s) && Enabled(s, step) && (step.WaitEnter? || step.WaitLeave? || step.BeginFrame? || step.Poll?)
    ensures Inv(Next(s, step))
  {
  }

  lemma EndsKeepInv(s: Session, step: Step)
    requires Inv(s) && Enabled(s, step) && (step.EndEnter? || step.EndReject? || step.EndSubmit? || step.ExitEnter?)
    ensures Inv(Next(s, step))
  {
  }

  lemma EnderKeepsInv(s: Session, step: Step)
    requires Inv(s) && OfEnder(step) && Enabled(s, step)
    ensures Inv(Next(s, step))
  {
    match step {
      case EnderWrite(call) => EnderWriteKeepsInv(s, call);
      case EnderPush(call) => EnderPushKeepsInv(s, call);
      case EnderFinish(call) => EnderFinishKeepsInv(s, call);
    }
  }

  lemma StepKeepsInv(s: Session, step: Step)
    requires Inv(s)
    requires SafeStep(s, step)
    ensures Inv(Next(s, step))
  {
    if Enabled(s, step) {
      if OfHolder(step) {
        HolderKeepsInv(s, step);
      } else if Locking(step) {
        LockedKeepsInv(s, step);
      } else if OfBegin(step) {
        BeginKeepsInv(s, step);
      } else if OfEnd(step) {
        CallKeepsInv(s, step);
      } else if OfEnder(step) {
        EnderKeepsInv(s, step);
      } else if step.WaitEnter? || step.WaitLeave? || step.BeginFrame? || step.Poll? {
        WaitsKeepInv(s, step);
      } else {
        EndsKeepInv(s, step);
      }
    }
  }

  lemma {:induction false} InvKept(s: Session, steps: seq<Step>)
    requires Inv(s) && SafeRun(s, steps)
    ensures Inv(Run(s, steps))
  {
    if steps != [] {
      SafePrefix(s, steps);
      InvKept(s, steps[..|steps| - 1]);
      StepKeepsInv(Run(s, steps[..|steps| - 1]), steps[|steps| - 1]);
    }
  }

  lemma Reachable(steps: seq<Step>)
    requires SafeRun(CREATED, steps)
    ensures Inv(Run(CREATED, steps))
  {
    InvKept(CREATED, steps);
  }

  /**
    In every interleaving of begin, frame calls, exit requests and end, with any number of calls in flight, the
    events pushed form a walk of the session-state graph, and the application polls a prefix of them, if every
    EndSession that is accepted is accepted with STOPPING ahead and no two of them overlap.
   */
  lemma EventsAreAWalk(steps: seq<Step>)
    requires SafeRun(CREATED, steps)
    ensures IsWalk(Run(CREATED, steps).events)
    ensures Run(CREATED, steps).polled <= |Run(CREATED, steps).events|
  {
    Reachable(steps);
  }

  // ---- the exact condition ----

  const FIRST_IDLE: seq<Step> := [EndRunning, StopDone, EnderWrite(0), EnderPush(0)]

  const ABOUT_TO_EMIT: Program := Program([Idle, Exiting], false)

  /** Another EndSession has passed its check and not yet written state_. */
  predicate SecondCall(s: Session) {
    || (s.ending + s.draining == 1 && s.emitting == [])
    || (s.ending + s.draining == 0 && s.emitting == [ABOUT_TO_EMIT])
  }

  /** A call is accepted in three situations: when it is safe, in the gap outside the frame lock, and beside another. */
  lemma UnsafeCalls(s: Session)
    requires Inv(s) && Enabled(s, EndSession)
    ensures !SafeToEnd(s) <==> (InTheGap(s) && !s.frameLocked) || (StoppingAhead(s) && SecondCall(s))
  {
  }

  /**
    EndSession only looks at state_, which a transition writes before it pushes the event. So it is also accepted
    in the gap, and from every reachable state there its first event breaks the walk, unless it is the gap of
    RequestExitSession.
   */
  lemma EndSessionInTheGapBreaksTheWalk(s: Session)
    requires Inv(s) && InTheGap(s) && !s.frameLocked
    ensures Enabled(s, EndSession)
    ensures var t := Run(Next(s, EndSession), FIRST_IDLE);
            t.events == s.events + [Idle] && !IsWalk(t.events)
  {
    StoppedThenIdle(Next(s, EndSession));
    BeforeStopping(s);
    NoWalk(s.events, [Idle], |s.events| - 1);
  }

  lemma StoppedThenIdle(s: Session)
    requires s.ending > 0 && s.emitting == [] && !s.frameLocked
    ensures Run(s, FIRST_IDLE).events == s.events + [Idle]
  {
    RunFour(s, EndRunning, StopDone, EnderWrite(0), EnderPush(0));
    Stops(s);
    assert [Idle, Exiting] == [Idle] + [Exiting];
    Emits(Next(Next(s, EndRunning), StopDone), 0, Idle, [Exiting]);
  }

  lemma Stops(s: Session)
    requires s.ending > 0 && s.emitting == [] && !s.frameLocked
    ensures var t := Next(Next(s, EndRunning), StopDone);
            t.emitting == [ABOUT_TO_EMIT] && t.events == s.events
  {
    StopOne(Next(s, EndRunning));
  }

  lemma BeforeStopping(s: Session)
    requires Inv(s) && InTheGap(s)
    ensures Last(s.events) == Synchronized
  {
  }

  lemma NoWalk(events: seq<SessionState>, more: seq<SessionState>, i: nat)
    requires i + 1 < |events| + |more| && !Edge((events + more)[i], (events + more)[i + 1])
    ensures !IsWalk(events + more)
  {
  }

  lemma StopOne(s: Session)
    requires s.draining > 0 && !s.frameLocked
    ensures var t := Next(s, StopDone);
            && t.ending == s.ending && t.draining == s.draining - 1 && t.frameLocked == s.frameLocked
            && t.emitting == s.emitting + [ABOUT_TO_EMIT] && t.events == s.events
  {
  }

  ghost predicate NoCalls(steps: seq<Step>) {
    forall k :: 0 <= k < |steps| ==> !steps[k].EndSession?
  }

  function Copies(n: nat): seq<Program> {
    seq(n, _ => ABOUT_TO_EMIT)
  }

  /** Every EndSession in flight stops its server. */
  lemma {:induction false} StopAll(s: Session) returns (more: seq<Step>)
    requires !s.frameLocked
    ensures NoCalls(more)
    ensures var t := Run(s, more);
            && t.ending == t.draining == 0 && t.events == s.events
            && t.emitting == s.emitting + Copies(s.ending + s.draining)
    decreases 2 * s.ending + s.draining
  {
    more := [];
    if s.ending > 0 {
      var rest := StopAll(Next(s, EndRunning));
      more := [EndRunning] + rest;
      RunCons(s, EndRunning, rest);
    } else if s.draining > 0 {
      StopOne(s);
      var rest := StopAll(Next(s, StopDone));
      more := [StopDone] + rest;
      RunCons(s, StopDone, rest);
    }
  }

  lemma {:induction false} RunCons(s: Session, step: Step, rest: seq<Step>)
    ensures Run(s, [step] + rest) == Run(Next(s, step), rest)
  {
    RunConcat(s, [step], rest);
    RunSnoc(s, [], step);
    assert [] + [step] == [step];
  }

  lemma RunBack(s: Session, steps: seq<Step>, front: seq<Step>, last: Step)
    requires steps != [] && front == steps[..|steps| - 1] && last == steps[|steps| - 1]
    ensures Run(s, steps) == Next(Run(s, front), last)
  {
  }

  lemma {:induction false} RunConcat(s: Session, a: seq<Step>, b: seq<Step>)
    ensures Run(s, a + b) == Run(Run(s, a), b)
  {
    if b == [] {
      assert a + b == a;
    } else {
      var front, last := b[..|b| - 1], b[|b| - 1];
      RunConcat(s, a, front);
      assert (a + b)[..|a + b| - 1] == a + front && (a + b)[|a + b| - 1] == last;
      RunBack(s, a + b, a + front, last);
      RunBack(Run(s, a), b, front, last);
    }
  }

  const BOTH_IDLE: seq<Step> := [EnderWrite(0), EnderPush(0), EnderWrite(1), EnderPush(1)]

  ghost predicate EndsInTwoIdles(events: seq<SessionState>) {
    |events| >= 2 && events[|events| - 2] == events[|events| - 1] == Idle
  }

  /** Two calls past their checks each push an IDLE, whichever of them found the server. */
  lemma SecondEndSessionBreaksTheWalk(s: Session) returns (more: seq<Step>)
    requires Inv(s) && StoppingAhead(s) && SecondCall(s) && Enabled(s, EndSession)
    ensures NoCalls(more)
    ensures var events := Run(Next(s, EndSession), more).events;
            s.events <= events && EndsInTwoIdles(events) && !IsWalk(events)
  {
    var t := Next(s, EndSession);
    SecondIsAccepted(s, t);
    var pushed := PushAhead(t);
    var stopped := BothStop(t, pushed);
    var v := Run(t, stopped);
    BothPushIdle(t, stopped, v);
    more := stopped + BOTH_IDLE;
    NoWalk(v.events, [Idle, Idle], |v.events|);
  }

  lemma BothStop(s: Session, steps: seq<Step>) returns (more: seq<Step>)
    requires NoCalls(steps) && !Run(s, steps).frameLocked && TwoInFlight(Run(s, steps))
    ensures NoCalls(more)
    ensures Run(s, more).emitting == [ABOUT_TO_EMIT, ABOUT_TO_EMIT] && Run(s, more).events == Run(s, steps).events
  {
    var stopped := StopAll(Run(s, steps));
    RunConcat(s, steps, stopped);
    more := steps + stopped;
  }

  /** Two calls past their checks, or one of them past its stop. */
  predicate TwoInFlight(s: Session) {
    s.emitting + Copies(s.ending + s.draining) == [ABOUT_TO_EMIT, ABOUT_TO_EMIT]
  }

  lemma SecondIsAccepted(s: Session, t: Session)
    requires Inv(s) && StoppingAhead(s) && SecondCall(s) && Enabled(s, EndSession) && t == Next(s, EndSession)
    ensures TwoInFlight(t) && t.events == s.events
    ensures t.frameLocked ==> t.holder == Program([Stopping], true)
  {
  }

  /** The thread that holds the frame lock pushes STOPPING and lets it go. */
  lemma PushAhead(s: Session) returns (pushed: seq<Step>)
    requires TwoInFlight(s) && (s.frameLocked ==> s.holder == Program([Stopping], true))
    ensures NoCalls(pushed)
    ensures var t := Run(s, pushed);
            !t.frameLocked && TwoInFlight(t) && s.events <= t.events
  {
    pushed := [];
    if s.frameLocked {
      pushed := [HolderPush];
      RunSnoc(s, [], HolderPush);
      assert [] + [HolderPush] == [HolderPush];
    }
  }

  lemma RunTwo(s: Session, steps: seq<Step>, a: Step, b: Step)
    ensures Run(s, steps + [a, b]) == Next(Next(Run(s, steps), a), b)
  {
    var one, two := steps + [a], steps + [a, b];
    assert one[..|one| - 1] == steps && two[..|two| - 1] == one;
    RunBack(s, one, steps, a);
    RunBack(s, two, one, b);
  }

  lemma RunPair(s: Session, a: Step, b: Step)
    ensures Run(s, [a, b]) == Next(Next(s, a), b)
  {
    RunTwo(s, [], a, b);
    assert [] + [a, b] == [a, b];
  }

  lemma BothPushIdle(s: Session, before: seq<Step>, u: Session)
    requires Run(s, before) == u
    requires u.emitting == [ABOUT_TO_EMIT, ABOUT_TO_EMIT]
    ensures Run(s, before + BOTH_IDLE).events == u.events + [Idle, Idle]
  {
    var first := before + [EnderWrite(0), EnderPush(0)];
    RunTwo(s, before, EnderWrite(0), EnderPush(0));
    assert [Idle, Exiting] == [Idle] + [Exiting];
    Emits(u, 0, Idle, [Exiting]);
    RunTwo(s, first, EnderWrite(1), EnderPush(1));
    Emits(Next(Next(u, EnderWrite(0)), EnderPush(0)), 1, Idle, [Exiting]);
    assert before + BOTH_IDLE == first + [EnderWrite(1), EnderPush(1)];
  }

  /** One transition of a thread in EndSession: its write and its push. */
  lemma Emits(s: Session, call: nat, t: SessionState, todo: seq<SessionState>)
    requires call < |s.emitting| && s.emitting[call] == Program([t] + todo, false)
    ensures Next(Next(s, EnderWrite(call)), EnderPush(call)) ==
            s.(state := t, events := s.events + [t], emitting := s.emitting[call := Program(todo, false)])
  {
    var written := Next(s, EnderWrite(call));
    assert written == s.(state := t, emitting := s.emitting[call := Program([t] + todo, true)]);
    EmitPushes(written, call, t, todo);
    assert written.emitting[call := Program(todo, false)] == s.emitting[call := Program(todo, false)];
  }

  lemma EmitPushes(s: Session, call: nat, t: SessionState, todo: seq<SessionState>)
    requires call < |s.emitting| && s.emitting[call] == Program([t] + todo, true)
    ensures Next(s, EnderPush(call)) ==
            s.(events := s.events + [t], emitting := s.emitting[call := Program(todo, false)])
  {
    assert Pushed(s.emitting[call]) == Program(todo, false);
  }

  /** However the run goes on, with no unsafe EndSession from here on, the events are a walk. */
  ghost predicate AlwaysWalks(s: Session) {
    forall more: seq<Step> :: SafeRun(s, more) ==> IsWalk(Run(s, more).events)
  }

  /**
    The condition is exact. After any run with no unsafe call, one more EndSession that is accepted leaves every
    continuation a walk if and only if STOPPING has been pushed, or RequestExitSession is about to push it, and no
    other EndSession is in flight.
   */
  lemma EndSessionSafeExactly(steps: seq<Step>)
    requires SafeRun(CREATED, steps) && Enabled(Run(CREATED, steps), EndSession)
    ensures AlwaysWalks(Next(Run(CREATED, steps), EndSession)) <==> SafeToEnd(Run(CREATED, steps))
  {
    Reachable(steps);
    var s := Run(CREATED, steps);
    var t := Next(s, EndSession);
    UnsafeCalls(s);
    if SafeToEnd(s) {
      StepKeepsInv(s, EndSession);
      InvWalks(t);
    } else if InTheGap(s) && !s.frameLocked {
      EndSessionInTheGapBreaksTheWalk(s);
      BrokenBy(t, FIRST_IDLE);
    } else {
      var more := SecondEndSessionBreaksTheWalk(s);
      BrokenBy(t, more);
    }
  }

  lemma InvWalks(s: Session)
    requires Inv(s)
    ensures AlwaysWalks(s)
  {
    forall more: seq<Step> | SafeRun(s, more)
      ensures IsWalk(Run(s, more).events)
    {
      InvKept(s, more);
    }
  }

  lemma BrokenBy(s: Session, more: seq<Step>)
    requires NoCalls(more) && !IsWalk(Run(s, more).events)
    ensures !AlwaysWalks(s)
  {
    NoCallsAreSafe(s, more);
  }

  lemma NoCallsAreSafe(s: Session, steps: seq<Step>)
    requires NoCalls(steps)
    ensures SafeRun(s, steps)
  {
  }

  lemma RunSnoc(s: Session, steps: seq<Step>, step: Step)
    ensures Run(s, steps + [step]) == Next(Run(s, steps), step)
  {
    assert (steps + [step])[..|steps|] == steps;
  }

  /** One more step of a run that stays safe. */
  lemma OneMore(steps: seq<Step>, step: Step)
    requires SafeRun(CREATED, steps) && SafeStep(Run(CREATED, steps), step)
    ensures SafeRun(CREATED, steps + [step]) && Run(CREATED, steps + [step]) == Next(Run(CREATED, steps), step)
  {
    RunSnoc(CREATED, steps, step);
    var all := steps + [step];
    forall k: nat | k < |all|
      ensures SafeAt(CREATED, all, k)
    {
      assert all[..k] == if k < |steps| then steps[..k] else steps;
      if k < |steps| {
        assert SafeAt(CREATED, steps, k);
      }
    }
  }

  // ---- the situations are reached ----

  lemma Extended(steps: seq<Step>, s: Session, step: Step) returns (longer: seq<Step>)
    requires SafeRun(CREATED, steps) && Run(CREATED, steps) == s && SafeStep(s, step)
    ensures SafeRun(CREATED, longer) && Run(CREATED, longer) == Next(s, step)
  {
    OneMore(steps, step);
    longer := steps + [step];
  }

  /** A run goes on with steps that are no EndSession. */
  lemma {:induction false} ExtendedBy(steps: seq<Step>, s: Session, more: seq<Step>) returns (longer: seq<Step>)
    requires SafeRun(CREATED, steps) && Run(CREATED, steps) == s && NoCalls(more)
    ensures SafeRun(CREATED, longer) && Run(CREATED, longer) == Run(s, more)
  {
    longer := steps;
    if more != [] {
      var k := |more| - 1;
      var before := ExtendedBy(steps, s, more[..k]);
      longer := Extended(before, Run(s, more[..k]), more[k]);
    }
  }

  const BEGIN: seq<Step> := [BeginEnter, BeginReset, BeginClear, BeginDone]

  lemma RunFour(s: Session, a: Step, b: Step, c: Step, d: Step)
    ensures Run(s, [a, b, c, d]) == Next(Next(Next(Next(s, a), b), c), d)
  {
    RunTwo(s, [], a, b);
    RunTwo(s, [] + [a, b], c, d);
    assert [] + [a, b] + [c, d] == [a, b, c, d];
  }

  /** A whole BeginSession that nothing interrupts. */
  lemma Begins(s: Session)
    requires !s.running && s.state == Ready && !s.frameLocked
    ensures Run(s, BEGIN) == s.(exitRequested := false, frameBegun := false, waitedFrames := 0, running := true)
  {
    RunFour(s, BeginEnter, BeginReset, BeginClear, BeginDone);
  }

  const UP_TO_END: seq<Step> := [WaitEnter, WaitLeave, BeginFrame, EndEnter]

  const FRAME: seq<Step> := UP_TO_END + [EndSubmit, EndAdvance]

  /** A frame waited for, begun and ended, up to the decision on the next state. */
  lemma FrameDecides(s: Session)
    requires s.running && LockFree(s) && !s.frameLocked
    ensures Run(s, FRAME) == s.(frameBegun := false, holder := Program(Advance(s.exitRequested, s.state), false))
  {
    RunFour(s, WaitEnter, WaitLeave, BeginFrame, EndEnter);
    RunTwo(s, UP_TO_END, EndSubmit, EndAdvance);
    FrameSteps(s);
  }

  lemma FrameSteps(s: Session)
    requires s.running && LockFree(s) && !s.frameLocked
    ensures Next(Next(Next(Next(Next(Next(s, WaitEnter), WaitLeave), BeginFrame), EndEnter), EndSubmit), EndAdvance) ==
            s.(frameBegun := false, holder := Program(Advance(s.exitRequested, s.state), false))
  {
  }

  const MOVE: seq<Step> := [HolderWrite, HolderPush]

  lemma Moves(s: Session, next: SessionState, todo: seq<SessionState>)
    requires s.holder == Program([next] + todo, false)
    ensures Run(s, MOVE) == s.(state := next, events := s.events + [next], holder := Program(todo, false),
                               frameLocked := s.frameLocked && todo != [])
  {
    RunPair(s, HolderWrite, HolderPush);
    MoveSteps(s, next, todo);
  }

  lemma MoveSteps(s: Session, next: SessionState, todo: seq<SessionState>)
    requires s.holder == Program([next] + todo, false)
    ensures Next(Next(s, HolderWrite), HolderPush) ==
            s.(state := next, events := s.events + [next], holder := Program(todo, false),
               frameLocked := s.frameLocked && todo != [])
  {
    assert Pushed(Program([next] + todo, true)) == Program(todo, false);
  }

  const ROUND: seq<Step> := FRAME + MOVE

  /** A round of the frame loop takes the session to the next state, if there is one. */
  lemma RoundMoves(s: Session)
    requires s.running && LockFree(s) && !s.holder.written && !s.frameLocked
    ensures var next := Advance(s.exitRequested, s.state);
            Run(s, ROUND) ==
            s.(frameBegun := false, holder := DONE, state := if next == [] then s.state else next[0],
               events := s.events + next)
  {
    RunConcat(s, FRAME, MOVE);
    FrameDecides(s);
    MovesOn(Run(s, FRAME), Advance(s.exitRequested, s.state));
  }

  lemma StaysPut(s: Session)
    requires LockFree(s)
    ensures Run(s, MOVE) == s
  {
    RunPair(s, HolderWrite, HolderPush);
  }

  lemma MovesOn(s: Session, next: seq<SessionState>)
    requires s.holder == Program(next, false) && |next| <= 1 && !s.frameLocked
    ensures Run(s, MOVE) == s.(holder := DONE, state := if next == [] then s.state else next[0],
                               events := s.events + next)
  {
    if next == [] {
      StaysPut(s);
    } else {
      assert next == [next[0]] + [];
      Moves(s, next[0], []);
    }
  }

  const BEGUN: Session := CREATED.(running := true)

  lemma BegunIsReached() returns (steps: seq<Step>)
    ensures SafeRun(CREATED, steps) && Run(CREATED, steps) == BEGUN
  {
    assert Run(CREATED, []) == CREATED;
    steps := ExtendedBy([], CREATED, BEGIN);
    Begins(CREATED);
  }

  /** The first round takes READY to SYNCHRONIZED. */
  lemma SynchronizedIsReached() returns (steps: seq<Step>)
    ensures SafeRun(CREATED, steps) && Run(CREATED, steps) == SYNCHRONIZED
  {
    steps := BegunIsReached();
    steps := ExtendedBy(steps, BEGUN, ROUND);
    RoundMoves(BEGUN);
    assert [Idle, Ready] + [Synchronized] == [Idle, Ready, Synchronized];
  }

  const SYNCHRONIZED: Session := BEGUN.(state := Synchronized, events := [Idle, Ready, Synchronized])

  const LEAVING: Session := SYNCHRONIZED.(exitRequested := true)

  const DECIDED: Session := LEAVING.(holder := Program([Stopping], false))

  const IN_GAP: Session := LEAVING.(state := Stopping, holder := Program([Stopping], true))

  /** The gap is really reached: by the frame that follows an exit request in SYNCHRONIZED. */
  lemma GapIsReached() returns (steps: seq<Step>)
    ensures SafeRun(CREATED, steps) && Run(CREATED, steps) == IN_GAP
    ensures Enabled(IN_GAP, EndSession) && InTheGap(IN_GAP) && !IN_GAP.frameLocked
  {
    steps := DecidedIsReached();
    steps := Extended(steps, DECIDED, HolderWrite);
    Writes(DECIDED);
  }

  lemma Writes(s: Session)
    requires s.holder.todo != [] && !s.holder.written
    ensures Next(s, HolderWrite) == s.(state := s.holder.todo[0], holder := Program(s.holder.todo, true))
  {
  }

  lemma DecidedIsReached() returns (steps: seq<Step>)
    ensures SafeRun(CREATED, steps) && Run(CREATED, steps) == DECIDED
  {
    steps := LeavingIsReached();
    steps := ExtendedBy(steps, LEAVING, FRAME);
    FrameDecides(LEAVING);
  }

  lemma LeavingIsReached() returns (steps: seq<Step>)
    ensures SafeRun(CREATED, steps) && Run(CREATED, steps) == LEAVING
  {
    steps := SynchronizedIsReached();
    steps := ExtendedBy(steps, SYNCHRONIZED, [ExitEnter, ExitLocked]);
    ExitRequests(SYNCHRONIZED);
  }

  /** An exit request while a frame is outstanding, or after READY, only sets the flag. */
  lemma ExitRequests(s: Session)
    requires s.running && LockFree(s) && !s.frameLocked && !s.holder.written
    requires s.state != Ready || s.frameBegun || s.waitedFrames > 0
    ensures Run(s, [ExitEnter, ExitLocked]) == s.(exitRequested := true)
  {
    RunPair(s, ExitEnter, ExitLocked);
  }

  /** What xrEndSession's caller must have seen: the polled events include STOPPING. */
  predicate StoppingPolled(s: Session) {
    s.polled <= |s.events| && Stopping in s.events[..s.polled]
  }

  lemma {:induction false} PollsAll(steps: seq<Step>, n: nat) returns (more: seq<Step>)
    requires SafeRun(CREATED, steps) && Run(CREATED, steps).polled + n <= |Run(CREATED, steps).events|
    ensures SafeRun(CREATED, more)
    ensures Run(CREATED, more) == Run(CREATED, steps).(polled := Run(CREATED, steps).polled + n)
  {
    more := steps;
    if n > 0 {
      var before := PollsAll(steps, n - 1);
      more := Extended(before, Run(CREATED, before), Poll);
    }
  }

  /**
    So is the second situation, by an application that waits for STOPPING: two of its threads have polled it, and the
    second calls EndSession while the first is still stopping the server.
   */
  lemma SecondCallIsReached() returns (steps: seq<Step>)
    ensures SafeRun(CREATED, steps)
    ensures var s := Run(CREATED, steps);
            StoppingPolled(s) && StoppingAhead(s) && SecondCall(s) && Enabled(s, EndSession)
  {
    var gap := GapIsReached();
    var pushed := Extended(gap, IN_GAP, HolderPush);
    assert Run(CREATED, pushed).events == [Idle, Ready, Synchronized, Stopping];
    var polled := PollsAll(pushed, 4);
    var s := Run(CREATED, polled);
    assert s.events[3] == Stopping && s.events[..s.polled] == s.events;
    steps := Extended(polled, s, EndSession);
  }

  // ---- leaving ----

  /** Where the session is going once the transitions now under way are done. */
  function Target(s: Session): SessionState {
    if s.emitting != [] && s.emitting[0].todo != [] then Last(s.emitting[0].todo)
    else if s.holder.todo != [] then Last(s.holder.todo) else s.state
  }

  /** Successful EndFrames until STOPPING, once exit has been requested. */
  function Rank(state: SessionState): nat {
    match state
    case Focused => 3
    case Visible => 2
    case Ready => 2
    case Synchronized => 1
    case _ => 0
  }

  ghost predicate Past(s: Session) {
    Target(s) == Stopping || Target(s) == Idle || Target(s) == Exiting
  }

  /** Exit was requested and no BeginSession is left that would take it back, or the session has got to STOPPING. */
  ghost predicate Leaving(s: Session) {
    Past(s) || (s.exitRequested && s.beginChecked == 0)
  }

  /** An EndFrame call completes its state advance. */
  predicate Completes(s: Session, step: Step) {
    step.EndAdvance? && Enabled(s, step)
  }

  /** The session stays on its way, no farther from STOPPING, and a frame nearer if one is completed. */
  ghost predicate Nearer(s: Session, t: Session, completed: bool) {
    && Leaving(t)
    && Rank(Target(t)) <= Rank(Target(s))
    && (completed && Rank(Target(s)) > 0 ==> Rank(Target(t)) == Rank(Target(s)) - 1)
  }

  lemma LockedRank(s: Session, step: Step)
    requires Inv(s) && Leaving(s) && Locking(step) && Enabled(s, step)
    ensures Nearer(s, Next(s, step), Completes(s, step))
  {
  }

  lemma HolderRank(s: Session, step: Step)
    requires Inv(s) && Leaving(s) && OfHolder(step) && Enabled(s, step)
    ensures Nearer(s, Next(s, step), false)
  {
  }

  lemma ClosedIsPast(s: Session)
    requires Inv(s) && (s.emitting != [] || Last(s.events) == Exiting)
    ensures Past(s)
  {
  }

  lemma EnderRank(s: Session, step: Step)
    requires Inv(s) && OfEnder(step) && Enabled(s, step)
    ensures Past(s) && Past(Next(s, step))
  {
    ClosedIsPast(s);
    EnderKeepsInv(s, step);
    EmitsOrDone(s, step);
    ClosedIsPast(Next(s, step));
  }

  lemma EmitsOrDone(s: Session, step: Step)
    requires Inv(s) && OfEnder(step) && Enabled(s, step)
    ensures Next(s, step).emitting != [] || (Next(s, step).events == s.events && Last(s.events) == Exiting)
  {
  }

  lemma EndRank(s: Session, step: Step)
    requires Inv(s) && Leaving(s) && OfEnd(step) && Enabled(s, step)
    ensures Past(s) && Past(Next(s, step))
  {
  }

  lemma PastIsNear(s: Session, t: Session)
    requires Past(s) && Past(t)
    ensures Nearer(s, t, false)
  {
  }

  /** A BeginSession can only pass its checks in a session that is not leaving. */
  lemma BeginRank(s: Session, step: Step)
    requires Inv(s) && Leaving(s) && OfBegin(step) && Enabled(s, step)
    ensures Nearer(s, Next(s, step), false)
  {
  }

  /** The other steps leave state_, the transitions under way and the request to exit as they are. */
  lemma OtherRank(s: Session, step: Step)
    requires Inv(s) && Leaving(s) && Counting(step) && Enabled(s, step)
    ensures Nearer(s, Next(s, step), false)
  {
  }

  lemma RankFalls(s: Session, step: Step)
    requires Inv(s) && Leaving(s)
    requires SafeStep(s, step)
    ensures Nearer(s, Next(s, step), Completes(s, step))
  {
    if Enabled(s, step) {
      if Locking(step) {
        LockedRank(s, step);
      } else {
        UnlockedRank(s, step);
      }
    }
  }

  lemma UnlockedRank(s: Session, step: Step)
    requires Inv(s) && Leaving(s) && Enabled(s, step) && !Locking(step)
    ensures Nearer(s, Next(s, step), false)
  {
    if OfHolder(step) {
      HolderRank(s, step);
    } else if OfBegin(step) {
      BeginRank(s, step);
    } else if OfEnd(step) {
      EndRank(s, step);
      PastIsNear(s, Next(s, step));
    } else if OfEnder(step) {
      EnderRank(s, step);
      PastIsNear(s, Next(s, step));
    } else {
      OtherRank(s, step);
    }
  }

  function Completions(s: Session, steps: seq<Step>): nat {
    if steps == [] then 0
    else
      Completions(s, steps[..|steps| - 1]) +
      if Completes(Run(s, steps[..|steps| - 1]), steps[|steps| - 1]) then 1 else 0
  }

  lemma {:induction false} RankFallsOverRun(s: Session, steps: seq<Step>)
    requires Inv(s) && Leaving(s) && SafeRun(s, steps)
    ensures Inv(Run(s, steps)) && Leaving(Run(s, steps))
    ensures Rank(Target(Run(s, steps))) == 0 ||
            Rank(Target(Run(s, steps))) + Completions(s, steps) <= Rank(Target(s))
  {
    if steps != [] {
      var k := |steps| - 1;
      SafePrefix(s, steps);
      RankFallsOverRun(s, steps[..k]);
      StepKeepsInv(Run(s, steps[..k]), steps[k]);
      RankFalls(Run(s, steps[..k]), steps[k]);
    }
  }

  /** Frames enough: three completed EndFrames, or two from READY. */
  predicate Enough(s: Session, completed: nat) {
    completed >= 3 || (Target(s) == Ready && completed >= 2)
  }

  /** However the run goes on, with no unsafe EndSession, enough completed EndFrames bring it to STOPPING or past it. */
  ghost predicate AlwaysStops(s: Session) {
    forall steps: seq<Step> :: SafeRun(s, steps) && Enough(s, Completions(s, steps)) ==> Past(Run(s, steps))
  }

  lemma LeavingStops(s: Session)
    requires Inv(s) && Leaving(s)
    ensures AlwaysStops(s)
  {
    forall steps: seq<Step> | SafeRun(s, steps) && Enough(s, Completions(s, steps))
      ensures Past(Run(s, steps))
    {
      RankFallsOverRun(s, steps);
      RankZeroIsPast(s);
      RankZeroIsPast(Run(s, steps));
    }
  }

  /** The frame loop runs, no transition is under way and no request to exit stands. */
  ghost predicate Rolling(s: Session) {
    && s.running && LockFree(s) && !s.holder.written && !s.frameLocked && s.emitting == [] && !s.exitRequested
    && (s.state == Ready || s.state == Synchronized || s.state == Visible || s.state == Focused)
  }

  lemma {:induction false} CompletionsConcat(s: Session, a: seq<Step>, b: seq<Step>)
    ensures Completions(s, a + b) == Completions(s, a) + Completions(Run(s, a), b)
  {
    if b == [] {
      assert a + b == a;
    } else {
      var front, last := b[..|b| - 1], b[|b| - 1];
      CompletionsConcat(s, a, front);
      RunConcat(s, a, front);
      assert (a + b)[..|a + b| - 1] == a + front && (a + b)[|a + b| - 1] == last;
    }
  }

  lemma CompletionsOne(s: Session, step: Step)
    ensures Completions(s, [step]) == if Completes(s, step) then 1 else 0
  {
    assert [step][..0] == [];
  }

  /** A round completes an EndFrame. */
  lemma RoundCompletes(s: Session)
    requires Rolling(s)
    ensures Completions(s, ROUND) >= 1
  {
    FrameCompletes(s);
    CompletionsConcat(s, FRAME, MOVE);
  }

  lemma FrameCompletes(s: Session)
    requires Rolling(s)
    ensures Completions(s, FRAME) >= 1
  {
    var submitted := UP_TO_END + [EndSubmit];
    RunFour(s, WaitEnter, WaitLeave, BeginFrame, EndEnter);
    RunSnoc(s, UP_TO_END, EndSubmit);
    FrameSubmits(s);
    CompletionsConcat(s, submitted, [EndAdvance]);
    CompletionsOne(Run(s, submitted), EndAdvance);
    assert submitted + [EndAdvance] == FRAME;
  }

  lemma FrameSubmits(s: Session)
    requires s.running && LockFree(s) && !s.frameLocked
    ensures Enabled(Next(Next(Next(Next(Next(s, WaitEnter), WaitLeave), BeginFrame), EndEnter), EndSubmit), EndAdvance)
  {
  }

  lemma RoundRolls(s: Session)
    requires Rolling(s)
    ensures Rolling(Run(s, ROUND))
  {
    RoundMoves(s);
  }

  /** The frame loop can go on for any number of frames. */
  lemma {:induction false} KeepsRolling(s: Session, n: nat) returns (steps: seq<Step>)
    requires Rolling(s)
    ensures NoCalls(steps) && Completions(s, steps) >= n && Rolling(Run(s, steps))
  {
    steps := [];
    if n > 0 {
      var before := KeepsRolling(s, n - 1);
      RoundCompletes(Run(s, before));
      RoundRolls(Run(s, before));
      RunConcat(s, before, ROUND);
      CompletionsConcat(s, before, ROUND);
      steps := before + ROUND;
    }
  }

  /** The session once the transitions under way are made. */
  function Finished(s: Session): Session {
    s.(holder := DONE, frameLocked := false, events := s.events + s.holder.todo,
       state := if s.holder.todo == [] then s.state else Last(s.holder.todo))
  }

  predicate Sound(s: Session) {
    && (s.holder.written ==> s.holder.todo != [] && s.state == s.holder.todo[0])
    && (s.frameLocked ==> s.holder.todo != [])
  }

  lemma HolderGoesOn(s: Session, step: Step)
    requires Sound(s) && s.holder.todo != [] && step == (if s.holder.written then HolderPush else HolderWrite)
    ensures var next := Next(s, step);
            && Sound(next) && Finished(next) == Finished(s) && next.holder.written == !s.holder.written
            && |next.holder.todo| == |s.holder.todo| - (if s.holder.written then 1 else 0)
  {
    if s.holder.written {
      assert s.events + [s.holder.todo[0]] + s.holder.todo[1..] == s.events + s.holder.todo;
    }
  }

  /** The transitions under way are made. */
  lemma {:induction false} HolderFinishes(s: Session) returns (steps: seq<Step>)
    requires Sound(s)
    ensures NoCalls(steps) && Run(s, steps) == Finished(s)
    decreases 2 * |s.holder.todo| - (if s.holder.written then 1 else 0)
  {
    steps := [];
    if s.holder.todo != [] {
      var step := if s.holder.written then HolderPush else HolderWrite;
      HolderGoesOn(s, step);
      var rest := HolderFinishes(Next(s, step));
      steps := [step] + rest;
      RunCons(s, step, rest);
    }
  }

  /** A session that is on its way, and not past STOPPING, is running, and so are its frames. */
  lemma NotPastRuns(s: Session)
    requires Inv(s) && s.exitRequested && !Past(s)
    ensures s.running && s.emitting == [] && Sound(s)
    ensures Target(s) == Ready || Target(s) == Synchronized || Target(s) == Visible || Target(s) == Focused
  {
  }

  lemma ResetRolls(s: Session)
    requires s.running && s.holder == DONE && !s.frameLocked && s.emitting == [] && s.beginChecked > 0
    requires s.state == Ready || s.state == Synchronized || s.state == Visible || s.state == Focused
    ensures Rolling(Next(s, BeginReset))
  {
  }

  lemma RollingIsNotPast(s: Session)
    requires Rolling(s)
    ensures !Past(s)
  {
  }

  /** A BeginSession past its checks takes the request to exit back, and then the frame loop never stops. */
  lemma LateBeginLosesExit(s: Session, n: nat) returns (steps: seq<Step>)
    requires Inv(s) && s.exitRequested && !Past(s) && s.beginChecked > 0
    ensures NoCalls(steps) && Completions(s, steps) >= n && !Past(Run(s, steps))
  {
    NotPastRuns(s);
    var finish := HolderFinishes(s);
    var reset := finish + [BeginReset];
    RunSnoc(s, finish, BeginReset);
    ResetRolls(Finished(s));
    var frames := KeepsRolling(Run(s, reset), n);
    steps := reset + frames;
    RunConcat(s, reset, frames);
    CompletionsConcat(s, reset, frames);
    RollingIsNotPast(Run(s, steps));
  }

  /**
    Once exit has been requested, three completed EndFrames bring the session to STOPPING or past it, two from READY,
    whatever is interleaved, if and only if it is there already or no BeginSession is between its checks and its
    reset of the request. Otherwise the request can be lost, and no number of frames is enough.
   */
  lemma StoppingWithinThreeFrames(s: Session)
    requires Inv(s) && s.exitRequested
    ensures AlwaysStops(s) <==> Past(s) || s.beginChecked == 0
  {
    if Past(s) || s.beginChecked == 0 {
      LeavingStops(s);
    } else {
      var steps := LateBeginLosesExit(s, 3);
      NoCallsAreSafe(s, steps);
    }
  }

  // The exit request of an application that has called BeginSession twice.

  const BOTH_CHECKED: Session := CREATED.(beginChecked := 2)

  const FIRST_BEGUN: Session := CREATED.(beginChecked := 1, running := true)

  const WAITED: Session := FIRST_BEGUN.(waitedFrames := 1)

  const EXIT_REQUESTED: Session := WAITED.(exitRequested := true)

  const FINISH_BEGIN: seq<Step> := [BeginReset, BeginClear, BeginDone]

  /** What BeginSession does after its checks takes back a request to exit and forgets the frames. */
  lemma BeginFinishes(s: Session)
    requires s.beginChecked > 0 && !s.frameLocked
    ensures Run(s, FINISH_BEGIN) ==
            s.(beginChecked := s.beginChecked - 1, exitRequested := false, frameBegun := false, waitedFrames := 0,
               running := true)
  {
    RunTwo(s, [], BeginReset, BeginClear);
    RunSnoc(s, [] + [BeginReset, BeginClear], BeginDone);
    assert [] + [BeginReset, BeginClear] + [BeginDone] == FINISH_BEGIN;
    BeginSteps(s);
  }

  lemma BeginSteps(s: Session)
    requires s.beginChecked > 0 && !s.frameLocked
    ensures Next(Next(Next(s, BeginReset), BeginClear), BeginDone) ==
            s.(beginChecked := s.beginChecked - 1, exitRequested := false, frameBegun := false, waitedFrames := 0,
               running := true)
  {
  }

  lemma BothCheck(s: Session)
    requires !s.running && s.state == Ready
    ensures Run(s, [BeginEnter, BeginEnter]) == s.(beginChecked := s.beginChecked + 2)
  {
    RunPair(s, BeginEnter, BeginEnter);
  }

  lemma WaitsForFrame(s: Session)
    requires s.running && !s.frameLocked
    ensures Run(s, [WaitEnter, WaitLeave]) == s.(waitedFrames := s.waitedFrames + 1)
  {
    RunPair(s, WaitEnter, WaitLeave);
  }

  lemma FirstBegunIsReached() returns (steps: seq<Step>)
    ensures SafeRun(CREATED, steps) && Run(CREATED, steps) == FIRST_BEGUN
  {
    assert Run(CREATED, []) == CREATED;
    steps := ExtendedBy([], CREATED, [BeginEnter, BeginEnter]);
    BothCheck(CREATED);
    steps := ExtendedBy(steps, BOTH_CHECKED, FINISH_BEGIN);
    BeginFinishes(BOTH_CHECKED);
  }

  lemma WaitedIsReached() returns (steps: seq<Step>)
    ensures SafeRun(CREATED, steps) && Run(CREATED, steps) == WAITED
  {
    steps := FirstBegunIsReached();
    steps := ExtendedBy(steps, FIRST_BEGUN, [WaitEnter, WaitLeave]);
    WaitsForFrame(FIRST_BEGUN);
  }

  lemma ExitRequestedIsReached() returns (steps: seq<Step>)
    ensures SafeRun(CREATED, steps) && Run(CREATED, steps) == EXIT_REQUESTED
  {
    steps := WaitedIsReached();
    steps := ExtendedBy(steps, WAITED, [ExitEnter, ExitLocked]);
    ExitRequests(WAITED);
  }

  /**
    It happens: two threads pass the checks of BeginSession, the first goes through, waits for a frame and requests
    exit; then the second goes on, and three frames later the session is FOCUSED with no request and nothing under way.
   */
  lemma ExitRequestIsLost() returns (steps: seq<Step>)
    ensures SafeRun(CREATED, steps)
    ensures Run(CREATED, steps) ==
            BEGUN.(state := Focused, events := [Idle, Ready, Synchronized, Visible, Focused])
  {
    var before := ExitRequestedIsReached();
    var begun := ExtendedBy(before, EXIT_REQUESTED, FINISH_BEGIN);
    BeginFinishes(EXIT_REQUESTED);
    steps := RisesToFocused(begun, BEGUN, [Idle, Ready]);
    assert [Idle, Ready] + [Synchronized, Visible, Focused] == [Idle, Ready, Synchronized, Visible, Focused];
  }

  lemma RisesToFocused(steps: seq<Step>, s: Session, events: seq<SessionState>) returns (longer: seq<Step>)
    requires SafeRun(CREATED, steps) && Run(CREATED, steps) == s
    requires s.running && s.holder == DONE && !s.frameLocked && !s.frameBegun && !s.exitRequested && s.state == Ready
    requires s.events == events
    ensures SafeRun(CREATED, longer)
    ensures Run(CREATED, longer) == s.(state := Focused, events := events + [Synchronized, Visible, Focused])
  {
    var synchronized := s.(state := Synchronized, events := events + [Synchronized]);
    var visible := s.(state := Visible, events := events + [Synchronized] + [Visible]);
    longer := Rises(steps, s, Synchronized);
    longer := Rises(longer, synchronized, Visible);
    longer := Rises(longer, visible, Focused);
    assert events + [Synchronized] + [Visible] + [Focused] == events + [Synchronized, Visible, Focused];
  }

  /** A reached run goes on with a round that takes it one state up. */
  lemma Rises(steps: seq<Step>, s: Session, up: SessionState) returns (longer: seq<Step>)
    requires SafeRun(CREATED, steps) && Run(CREATED, steps) == s
    requires s.running && s.holder == DONE && !s.frameLocked && !s.frameBegun
    requires Advance(s.exitRequested, s.state) == [up]
    ensures SafeRun(CREATED, longer) && Run(CREATED, longer) == s.(state := up, events := s.events + [up])
  {
    RoundMoves(s);
    longer := ExtendedBy(steps, s, ROUND);
  }

  // ---- going up ----

  /** The states of a session that is begun and not asked to exit, in the order it reports them. */
  const CLIMB: seq<SessionState> := [Idle, Ready, Synchronized, Visible, Focused]

  /** No exit is requested and the session is not ended. */
  predicate NoExit(steps: seq<Step>) {
    forall k :: 0 <= k < |steps| ==> !steps[k].ExitEnter? && !steps[k].EndSession?
  }

  function Min(x: nat, y: nat): nat {
    if x < y then x else y
  }

  /** n frames have been completed: the events, with the transition under way, are the first 2 + min(n, 3). */
  predicate Climbing(s: Session, n: nat) {
    && s.events + s.holder.todo == CLIMB[..2 + Min(n, 3)]
    && |s.holder.todo| <= 1 && Sound(s) && |s.events| >= 2 && (!s.holder.written ==> s.state == Last(s.events))
    && !s.exitRequested && s.exitCalls == 0 && s.ending == s.draining == 0 && s.emitting == []
    && (s.endChecked + s.endSubmitted > 0 ==> s.running)
  }

  lemma AdvanceClimbs(s: Session, n: nat)
    requires Climbing(s, n) && Enabled(s, EndAdvance)
    ensures Climbing(Next(s, EndAdvance), n + 1)
  {
    assert s.events == s.events + s.holder.todo;
    var t := Next(s, EndAdvance);
    assert t.events == s.events && s.state == CLIMB[1 + Min(n, 3)];
  }

  lemma HolderClimbs(s: Session, n: nat, step: Step)
    requires Climbing(s, n) && OfHolder(step) && Enabled(s, step)
    ensures Climbing(Next(s, step), n)
  {
    assert |s.holder.todo| == 1 && s.holder.todo == [s.holder.todo[0]];
  }

  lemma BeginClimbs(s: Session, n: nat, step: Step)
    requires Climbing(s, n) && OfBegin(step)
    ensures Climbing(Next(s, step), n)
  {
  }

  lemma CountingClimbs(s: Session, n: nat, step: Step)
    requires Climbing(s, n) && Counting(step) && !step.ExitEnter?
    ensures Climbing(Next(s, step), n)
  {
  }

  lemma StepClimbs(s: Session, n: nat, step: Step)
    requires Climbing(s, n) && !step.ExitEnter? && !step.EndSession?
    ensures Climbing(Next(s, step), n + if Completes(s, step) then 1 else 0)
  {
    if Enabled(s, step) {
      if step.EndAdvance? {
        AdvanceClimbs(s, n);
      } else if OfHolder(step) {
        HolderClimbs(s, n, step);
      } else if OfBegin(step) {
        BeginClimbs(s, n, step);
      } else if Counting(step) {
        CountingClimbs(s, n, step);
      }
    }
  }

  lemma {:induction false} RunClimbs(steps: seq<Step>)
    requires NoExit(steps)
    ensures Climbing(Run(CREATED, steps), Completions(CREATED, steps))
  {
    if steps != [] {
      var k := |steps| - 1;
      RunClimbs(steps[..k]);
      StepClimbs(Run(CREATED, steps[..k]), Completions(CREATED, steps[..k]), steps[k]);
    }
  }

  /**
    Over all runs with no request to exit and no EndSession, whatever is interleaved: the events are the first of
    IDLE, READY, SYNCHRONIZED, VISIBLE, FOCUSED. After n completed EndFrames, with no transition under way, there are
    exactly 2 + min(n, 3) of them, and state_ is the last. So each of the first three frames takes the session one
    state up, and a FOCUSED session reports nothing more.
   */
  lemma ClimbsOneStateAFrame(steps: seq<Step>)
    requires NoExit(steps)
    ensures var s, n := Run(CREATED, steps), Completions(CREATED, steps);
            && s.events <= [Idle, Ready, Synchronized, Visible, Focused]
            && (LockFree(s) ==> |s.events| == 2 + Min(n, 3) && s.state == s.events[|s.events| - 1])
            && (!LockFree(s) ==> |s.events| == 1 + Min(n, 3) && n > 0)
  {
    RunClimbs(steps);
    ClimbingMeans(Run(CREATED, steps), Completions(CREATED, steps));
  }

  lemma ClimbingMeans(s: Session, n: nat)
    requires Climbing(s, n)
    ensures s.events <= [Idle, Ready, Synchronized, Visible, Focused]
    ensures LockFree(s) ==> |s.events| == 2 + Min(n, 3) && s.state == s.events[|s.events| - 1]
    ensures !LockFree(s) ==> |s.events| == 1 + Min(n, 3) && n > 0
  {
    if LockFree(s) {
      assert s.events == s.events + s.holder.todo;
    }
  }

  lemma RankZeroIsPast(s: Session)
    ensures Rank(Target(s)) == 0 <==> Past(s)
  {
  }

  /** An exit requested in READY goes to STOPPING at once, or a waited or begun frame is still to be ended. */
  lemma ExitInReady(s: Session)
    requires Inv(s) && Enabled(s, ExitLocked) && s.state == Ready
    ensures var t := Next(s, ExitLocked);
            t.exitRequested && (Past(t) || t.waitedFrames > 0 || t.frameBegun)
  {
  }
}
