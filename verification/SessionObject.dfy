/** The session and the instance's event queue as objects; each method is one call that nothing interrupts. */
module SessionObject {
  import opened SessionLifecycle

  datatype XrResult =
    | Success | FrameDiscarded | ValidationFailure | ViewConfigurationUnsupported | CallOrderInvalid
    | SessionRunning | SessionNotReady | SessionNotRunning | SessionNotStopping | RuntimeFailure

  /** The transitions a lock holder still has to make, one after the other. */
  function Drain(s: Session): Session
    requires !s.holder.written
    decreases |s.holder.todo|
  {
    if s.holder.todo == [] then s else Drain(Next(Next(s, HolderWrite), HolderPush))
  }

  /** A whole BeginSession. */
  function AfterBeginSession(s: Session): Session {
    Next(Next(Next(Next(s, BeginEnter), BeginReset), BeginClear), BeginDone)
  }

  function AfterEndFrame(s: Session): Session
    requires !s.holder.written
  {
    Drain(Next(Next(Next(s, EndEnter), EndSubmit), EndAdvance))
  }

  function AfterRequestExit(s: Session): Session
    requires !s.holder.written
  {
    Drain(Next(Next(s, ExitEnter), ExitLocked))
  }

  /** The same for the thread in EndSession, the only one there. */
  function Emit(s: Session): Session
    requires |s.emitting| == 1 && !s.emitting[0].written
    decreases if |s.emitting| == 1 then |s.emitting[0].todo| else 0
  {
    if s.emitting[0].todo == [] then s else Emit(Next(Next(s, EnderWrite(0)), EnderPush(0)))
  }

  function AfterEndSession(s: Session): Session
    requires Enabled(s, EndSession) && s.emitting == [] && !s.frameLocked
  {
    Next(Emit(Next(Next(Next(s, EndSession), EndRunning), StopDone)), EnderFinish(0))
  }

  /** An EndSession whose server does not stop. */
  function AfterFailedStop(s: Session): Session {
    Next(Next(Next(s, EndSession), EndRunning), StopFailed)
  }

  lemma DrainOne(s: Session, t: SessionState)
    requires s.holder == Program([t], false)
    ensures Drain(s) == s.(state := t, events := s.events + [t], holder := DONE, frameLocked := false)
  {
    assert [t] == [t] + [];
    MoveSteps(s, t, []);
  }

  lemma DrainTwo(s: Session, t: SessionState, u: SessionState)
    requires s.holder == Program([t, u], false)
    ensures Drain(s) == s.(state := u, events := s.events + [t] + [u], holder := DONE, frameLocked := false)
  {
    assert [t, u] == [t] + [u];
    MoveSteps(s, t, [u]);
    DrainOne(s.(state := t, events := s.events + [t], holder := Program([u], false)), u);
  }

  lemma AfterEndFrameIs(s: Session)
    requires s.running && s.frameBegun && s.holder == DONE && !s.frameLocked && s.endChecked == s.endSubmitted == 0
    ensures var next := Advance(s.exitRequested, s.state);
            AfterEndFrame(s) ==
            s.(frameBegun := false, state := if next == [] then s.state else next[0], events := s.events + next)
  {
    var locked := Next(Next(Next(s, EndEnter), EndSubmit), EndAdvance);
    assert locked == s.(frameBegun := false, holder := Program(Advance(s.exitRequested, s.state), false));
    if locked.holder.todo != [] {
      DrainOne(locked, locked.holder.todo[0]);
    }
  }

  lemma AfterRequestExitIs(s: Session)
    requires s.running && s.holder == DONE && !s.frameLocked && s.exitCalls == 0
    ensures AfterRequestExit(s) ==
            if s.state == Ready && !s.frameBegun && s.waitedFrames == 0
            then s.(exitRequested := true, state := Stopping, events := s.events + [Synchronized] + [Stopping])
            else s.(exitRequested := true)
  {
    var locked := Next(Next(s, ExitEnter), ExitLocked);
    if s.state == Ready && !s.frameBegun && s.waitedFrames == 0 {
      assert locked == s.(exitRequested := true, frameLocked := true,
                          holder := Program([Synchronized, Stopping], false));
      DrainTwo(locked, Synchronized, Stopping);
    }
  }

  lemma EmitOne(s: Session, t: SessionState)
    requires s.emitting == [Program([t], false)]
    ensures Emit(s) == s.(state := t, events := s.events + [t], emitting := [DONE])
  {
    assert [t] == [t] + [];
    Emits(s, 0, t, []);
    assert Next(Next(s, EnderWrite(0)), EnderPush(0)).emitting == [DONE];
  }

  lemma EmitTwo(s: Session, t: SessionState, u: SessionState)
    requires s.emitting == [Program([t, u], false)]
    ensures Emit(s) == s.(state := u, events := s.events + [t] + [u], emitting := [DONE])
  {
    var pushed := Next(Next(s, EnderWrite(0)), EnderPush(0));
    assert [t, u] == [t] + [u];
    Emits(s, 0, t, [u]);
    assert pushed.emitting == [Program([u], false)];
    EmitOne(pushed, u);
  }

  lemma EndSessionIs(s: Session)
    requires Enabled(s, EndSession) && s.emitting == [] && !s.frameLocked
    ensures AfterEndSession(s) ==
            s.(state := Exiting, running := false, exitRequested := false, frameBegun := false, waitedFrames := 0,
               events := s.events + [Idle] + [Exiting])
  {
    var stopped := Next(Next(Next(s, EndSession), EndRunning), StopDone);
    assert stopped == s.(running := false, frameBegun := false, waitedFrames := 0,
                         emitting := [Program([Idle, Exiting], false)]);
    EmitTwo(stopped, Idle, Exiting);
    FinishReturns(Emit(stopped));
  }

  lemma FailedStopIs(s: Session)
    requires Enabled(s, EndSession)
    ensures AfterFailedStop(s) == s.(running := false)
  {
  }

  lemma BeginSessionIs(s: Session)
    requires !s.running && s.state == Ready && !s.frameLocked
    ensures AfterBeginSession(s) == s.(running := true, exitRequested := false, frameBegun := false, waitedFrames := 0)
  {
  }

  lemma FinishReturns(s: Session)
    requires s.emitting == [DONE]
    ensures Next(s, EnderFinish(0)) == s.(exitRequested := false, emitting := [])
  {
  }

  class SessionHandle {
    var state: SessionState
    var running: bool
    var exitRequested: bool
    var frameBegun: bool
    var waitedFrameCount: nat
    ghost var events: seq<SessionState>
    ghost var polled: nat

    ghost function View(): Session
      reads this
    {
      Session(state, running, exitRequested, frameBegun, waitedFrameCount, DONE, false, 0, 0, 0, 0, 0, [], 0, 0, 0, 0,
              events, polled)
    }

    constructor ()
      ensures View() == CREATED
    {
      state, running, exitRequested, frameBegun, waitedFrameCount := Idle, false, false, false, 0;
      events, polled := [Idle], 0;
      new;
      TransitionState(Ready);
    }

    method TransitionState(newState: SessionState)
      modifies this`state, this`events
      ensures state == newState && events == old(events) + [newState]
    {
      state := newState;
      events := events + [newState];
    }

    method BeginSession(viewConfigurationSupported: bool) returns (r: XrResult)
      modifies this
      ensures r == if old(running) then SessionRunning else if old(state) != Ready then SessionNotReady
                   else if !viewConfigurationSupported then ViewConfigurationUnsupported else Success
      ensures View() == if r == Success then AfterBeginSession(old(View())) else old(View())
      ensures r == Success ==> running && !exitRequested && !frameBegun && waitedFrameCount == 0 && state == Ready
    {
      if running {
        return SessionRunning;
      }
      if state != Ready {
        return SessionNotReady;
      }
      if !viewConfigurationSupported {
        return ViewConfigurationUnsupported;
      }
      BeginSessionIs(View());
      exitRequested := false;
      frameBegun, waitedFrameCount := false, 0;
      running := true;
      r := Success;
    }

    method WaitFrame() returns (r: XrResult)
      modifies this
      ensures r == if old(running) then Success else SessionNotRunning
      ensures View() == Next(Next(old(View()), WaitEnter), WaitLeave)
      ensures waitedFrameCount == old(waitedFrameCount) + if r == Success then 1 else 0
    {
      if !running {
        return SessionNotRunning;
      }
      waitedFrameCount := waitedFrameCount + 1;
      r := Success;
    }

    method BeginFrame() returns (r: XrResult)
      modifies this
      ensures r == if !old(running) then SessionNotRunning else if old(waitedFrameCount) == 0 then CallOrderInvalid
                   else if old(frameBegun) then FrameDiscarded else Success
      ensures View() == Next(old(View()), SessionLifecycle.BeginFrame)
      ensures var counted := r == Success || r == FrameDiscarded;
              && frameBegun == (old(frameBegun) || counted)
              && waitedFrameCount == old(waitedFrameCount) - if counted then 1 else 0
    {
      if !running {
        return SessionNotRunning;
      }
      if waitedFrameCount == 0 {
        return CallOrderInvalid;
      }
      waitedFrameCount := waitedFrameCount - 1;
      if frameBegun {
        return FrameDiscarded;
      }
      frameBegun := true;
      r := Success;
    }

    method EndFrame(frameEndInfoValid: bool) returns (r: XrResult)
      modifies this
      ensures r == if !old(running) then SessionNotRunning else if !old(frameBegun) then CallOrderInvalid
                   else if !frameEndInfoValid then ValidationFailure else Success
      ensures View() == if r == Success then AfterEndFrame(old(View())) else old(View())
      ensures r == Success && !old(exitRequested) ==>
                (forall i :: 1 <= i < 4 && old(state) == CLIMB[i] ==>
                   state == CLIMB[i + 1] && events == old(events) + [state])
      ensures r == Success && old(exitRequested) && Rank(old(state)) > 0 ==>
                Edge(old(state), state) && Rank(state) == Rank(old(state)) - 1 && events == old(events) + [state]
      ensures (r == Success && (Rank(old(state)) == 0 || (!old(exitRequested) && old(state) == Focused))) ==>
                state == old(state) && events == old(events)
      ensures frameBegun == (old(frameBegun) && r != Success)
    {
      if !running {
        return SessionNotRunning;
      }
      if !frameBegun {
        return CallOrderInvalid;
      }
      if !frameEndInfoValid {
        return ValidationFailure;
      }
      AfterEndFrameIs(View());
      frameBegun := false;
      AdvanceAfterFrameSubmission();
      r := Success;
    }

    method AdvanceAfterFrameSubmission()
      requires running
      modifies this`state, this`events
      ensures var next := Advance(exitRequested, old(state));
              events == old(events) + next && state == if next == [] then old(state) else next[0]
    {
      if exitRequested {
        match state {
          case Focused => TransitionState(Visible);
          case Visible => TransitionState(Synchronized);
          case Ready => TransitionState(Synchronized);
          case Synchronized => TransitionState(Stopping);
          case _ =>
        }
        return;
      }
      match state {
        case Ready => TransitionState(Synchronized);
        case Synchronized => TransitionState(Visible);
        case Visible => TransitionState(Focused);
        case _ =>
      }
    }

    method RequestExitSession() returns (r: XrResult)
      modifies this
      ensures r == if old(running) then Success else SessionNotRunning
      ensures View() == if r == Success then AfterRequestExit(old(View())) else old(View())
      ensures r == Success ==>
                var idle := old(state) == Ready && !old(frameBegun) && old(waitedFrameCount) == 0;
                && exitRequested && running
                && events == old(events) + (if idle then [Synchronized, Stopping] else [])
                && state == if idle then Stopping else old(state)
    {
      if !running {
        return SessionNotRunning;
      }
      AfterRequestExitIs(View());
      exitRequested := true;
      if state == Ready && !frameBegun && waitedFrameCount == 0 {
        TransitionState(Synchronized);
        TransitionState(Stopping);
      }
      r := Success;
    }

    method EndSession(serverStops: bool) returns (r: XrResult)
      modifies this
      ensures r == if old(state) != Stopping then SessionNotStopping else if !serverStops then RuntimeFailure else Success
      ensures r == SessionNotStopping ==> View() == old(View())
      ensures r == RuntimeFailure ==> View() == AfterFailedStop(old(View()))
      ensures r == Success ==> Enabled(old(View()), SessionLifecycle.EndSession) &&
                               View() == AfterEndSession(old(View()))
      ensures r == Success ==>
                && events == old(events) + [Idle, Exiting] && state == Exiting
                && !running && !exitRequested && !frameBegun && waitedFrameCount == 0
    {
      if state != Stopping {
        return SessionNotStopping;
      }
      FailedStopIs(View());
      EndSessionIs(View());
      running := false;
      if !serverStops {
        return RuntimeFailure;
      }
      EmitLastStates();
      r := Success;
    }

    method EmitLastStates()
      modifies this
      ensures View() == old(View()).(state := Exiting, exitRequested := false, frameBegun := false, waitedFrames := 0,
                                     events := old(events) + [Idle] + [Exiting])
    {
      frameBegun, waitedFrameCount := false, 0;
      TransitionState(Idle);
      TransitionState(Exiting);
      exitRequested := false;
    }
  }

  // ---- the instance's event queue ----

  datatype Event = StateChanged(session: nat, state: SessionState) | SpaceChangePending(session: nat) | OtherEvent(code: nat)

  predicate About(e: Event, session: nat) {
    (e.StateChanged? || e.SpaceChangePending?) && e.session == session
  }

  /** The events that are not about the session, in order. */
  function Without(events: seq<Event>, session: nat): seq<Event> {
    if events == [] then []
    else
      Without(events[..|events| - 1], session) +
      if About(events[|events| - 1], session) then [] else [events[|events| - 1]]
  }

  /** The states one session reported, in order. */
  function StatesOf(events: seq<Event>, session: nat): seq<SessionState> {
    if events == [] then []
    else
      var e := events[|events| - 1];
      StatesOf(events[..|events| - 1], session) + if e.StateChanged? && e.session == session then [e.state] else []
  }

  lemma {:induction false} StatesOfConcat(a: seq<Event>, b: seq<Event>, session: nat)
    ensures StatesOf(a + b, session) == StatesOf(a, session) + StatesOf(b, session)
  {
    if b == [] {
      assert a + b == a;
    } else {
      StatesOfConcat(a, b[..|b| - 1], session);
      assert (a + b)[..|a + b| - 1] == a + b[..|b| - 1];
    }
  }

  /** Removing one session's events leaves what the others reported. */
  lemma {:induction false} OthersKept(events: seq<Event>, session: nat, other: nat)
    requires other != session
    ensures StatesOf(Without(events, session), other) == StatesOf(events, other)
  {
    if events != [] {
      var front, e := events[..|events| - 1], events[|events| - 1];
      OthersKept(front, session, other);
      StatesOfConcat(Without(front, session), if About(e, session) then [] else [e], other);
      assert [e][..0] == [];
    }
  }

  /** Taking the oldest event moves its state from the waiting ones to the polled ones. */
  lemma PollMoves(polled: seq<Event>, queue: seq<Event>, session: nat)
    requires queue != []
    ensures StatesOf(polled + [queue[0]], session) + StatesOf(queue[1..], session) ==
            StatesOf(polled, session) + StatesOf(queue, session)
  {
    StatesOfConcat(polled, [queue[0]], session);
    StatesOfConcat([queue[0]], queue[1..], session);
    assert queue == [queue[0]] + queue[1..];
  }

  class EventQueue {
    var queue: seq<Event>
    ghost var pushed: seq<Event>
    ghost var polled: seq<Event>
    ghost var removed: set<nat>

    /** What a session reported is what was polled of it and then what still waits, in order. */
    ghost predicate InOrder(session: nat)
      reads this
    {
      StatesOf(pushed, session) == StatesOf(polled, session) + StatesOf(queue, session)
    }

    /** For every session but those whose events were removed, whatever happened to the others. */
    ghost predicate Valid()
      reads this
    {
      forall session :: session !in removed ==> InOrder(session)
    }

    constructor ()
      ensures Valid() && queue == pushed == polled == [] && removed == {}
    {
      queue, pushed, polled, removed := [], [], [], {};
    }

    method PushEvent(e: Event)
      requires Valid()
      modifies this`queue, this`pushed
      ensures Valid() && pushed == old(pushed) + [e] && queue == old(queue) + [e]
    {
      forall session | session !in removed
        ensures StatesOf(pushed + [e], session) == StatesOf(polled, session) + StatesOf(queue + [e], session)
      {
        assert InOrder(session);
        StatesOfConcat(pushed, [e], session);
        StatesOfConcat(queue, [e], session);
      }
      queue := queue + [e];
      pushed := pushed + [e];
    }

    /** A poll returns the oldest event; so the states an application has seen of a session are a prefix of those reported. */
    method PollEvent() returns (available: bool, e: Event)
      requires Valid()
      modifies this`queue, this`polled
      ensures Valid()
      ensures available <==> old(queue) != []
      ensures available ==> e == old(queue)[0] && polled == old(polled) + [e] && queue == old(queue)[1..]
      ensures !available ==> polled == old(polled) && queue == old(queue)
      ensures forall session :: session !in removed ==> StatesOf(polled, session) <= StatesOf(pushed, session)
    {
      available, e := false, OtherEvent(0);
      if queue != [] {
        e := queue[0];
        forall session | session !in removed
          ensures StatesOf(pushed, session) == StatesOf(polled + [e], session) + StatesOf(queue[1..], session)
        {
          assert InOrder(session);
          PollMoves(polled, queue, session);
        }
        polled := polled + [e];
        queue := queue[1..];
        available := true;
      }
    }

    /** Removes the session's events and nothing else, keeping the order of the rest. */
    method RemoveEventsForSession(session: nat)
      requires Valid()
      modifies this`queue, this`removed
      ensures Valid() && removed == old(removed) + {session}
      ensures queue == Without(old(queue), session)
      ensures forall e :: e in queue <==> e in old(queue) && !About(e, session)
    {
      var kept := [];
      for i := 0 to |queue|
        invariant kept == Without(queue[..i], session)
        invariant forall e :: e in kept <==> e in queue[..i] && !About(e, session)
      {
        assert queue[..i + 1][..i] == queue[..i];
        if !About(queue[i], session) {
          kept := kept + [queue[i]];
        }
      }
      assert queue[..|queue|] == queue;
      forall other | other !in removed && other != session
        ensures StatesOf(pushed, other) == StatesOf(polled, other) + StatesOf(kept, other)
      {
        assert InOrder(other);
        OthersKept(queue, session, other);
      }
      queue := kept;
      removed := removed + {session};
    }
  }
}
