/**
  The live stream-reconfigure handshake: PendingState of StreamingReconfigure.h, and the server's pending fields
  under streamConfigMutex_. The control thread sends requests and handles acks; ticks come from it and from the
  video send thread; a disconnect may drop a pending update at any time.
 */
module StreamReconfigure {
  import opened Protocol

  datatype PendingPhase = Idle | Pending | Acked | TimedOut

  datatype TickAction = NoAction | Retry | Timeout

  /** The class PendingState as a value. */
  datatype PendingState = PendingState(phase: PendingPhase, sequence: nat, retryCount: nat, lastSendNs: int)

  const RESET: PendingState := PendingState(Idle, 0, 0, 0)

  function Begun(sequence: nat, nowNs: int): PendingState {
    PendingState(Pending, sequence, 0, nowNs)
  }

  function TickResult(p: PendingState, nowNs: int, timeoutNs: int, maxRetries: nat): (TickAction, PendingState) {
    if p.phase != Pending || p.sequence == 0 then (NoAction, p)
    else if nowNs - p.lastSendNs < timeoutNs then (NoAction, p)
    else if p.retryCount < maxRetries then (Retry, p.(retryCount := p.retryCount + 1, lastSendNs := nowNs))
    else (Timeout, PendingState(TimedOut, 0, 0, 0))
  }

  function AckResult(p: PendingState, sequence: nat, accepted: bool): (bool, PendingState) {
    if p.phase != Pending || p.sequence == 0 || sequence != p.sequence then (false, p)
    else if accepted then (true, p.(phase := Acked))
    else (false, RESET)
  }

  // ---- the server ----

  datatype Update = Update(sequence: nat, width: nat, height: nat)

  const NO_UPDATE: Update := Update(0, 0, 0)

  datatype Ack = Ack(ok: bool, sequence: nat, width: nat, height: nat)

  /** What became of one request, for the record. */
  datatype Outcome = Open | Applied | Rejected | GaveUp(atNs: int) | Dropped

  /** One request: the update and the times it was sent at. */
  datatype Attempt = Attempt(update: Update, sends: seq<int>, outcome: Outcome)

  /** An accepted ack and the update it accepted. */
  datatype Accepted = Accepted(ack: Ack, update: Update)

  /**
    applied is streamLayout_.streamConfigSequence and layoutWidth, layoutHeight its encoded size. Between an ack
    and its layout, installing is what ApplyPendingStreamConfigLocked is working on; finishing is set between its
    last two locks. attempts and applications are the record of the run.
   */
  datatype Server = Server(
    pendingSequence: nat,
    update: Update,
    pending: PendingState,
    applied: nat,
    layoutWidth: nat,
    layoutHeight: nat,
    installing: Option<Accepted>,
    finishing: bool,
    attempts: seq<Attempt>,
    applications: seq<Accepted>)

  datatype Config = Config(timeoutNs: int, maxRetries: nat)

  datatype Step =
    | Request(width: nat, height: nat, nowNs: int)
    | TickAt(nowNs: int)
    | ReceiveAck(ack: Ack)
    | Install(width: nat, height: nat)   // the layout built from the pending scale; encoder ready, old one drained
    | InstallFails                       // no encoder, or the old one still draining
    | Finish
    | Drop                               // a failed send, or a disconnect

  const MAX_SEQUENCE: nat := 0xFFFF_FFFF

  function Started(width: nat, height: nat): Server {
    Server(0, NO_UPDATE, RESET, 0, width, height, None, false, [], [])
  }

  /** ResetPendingStreamConfigLocked. */
  function Cleared(s: Server): Server {
    s.(pendingSequence := 0, update := NO_UPDATE, pending := RESET)
  }

  /** Closes the request on record, if one is open. */
  function Close(s: Server, outcome: Outcome): Server {
    var last := |s.attempts| - 1;
    if s.pendingSequence != 0 && s.attempts != [] && s.attempts[last].outcome.Open? then
      s.(attempts := s.attempts[last := s.attempts[last].(outcome := outcome)])
    else s
  }

  function Requested(s: Server, width: nat, height: nat, nowNs: int): Server {
    var update := Update(U32(s.applied + 1), width, height);
    s.(update := update, pendingSequence := update.sequence, pending := Begun(update.sequence, nowNs),
       attempts := s.attempts + [Attempt(update, [nowNs], Open)])
  }

  function Ticked(s: Server, nowNs: int, c: Config): Server {
    var (action, pending) := TickResult(s.pending, nowNs, c.timeoutNs, c.maxRetries);
    match action
    case NoAction => s
    case Retry =>
      if s.attempts == [] then s.(pending := pending)
      else
        var last := |s.attempts| - 1;
        s.(pending := pending,
           attempts := s.attempts[last := s.attempts[last].(sends := s.attempts[last].sends + [nowNs])])
    case Timeout => Cleared(Close(s, GaveUp(nowNs)))
  }

  predicate AckFits(s: Server, ack: Ack) {
    ack.ok && ack.width == s.update.width && ack.height == s.update.height &&
    AckResult(s.pending, ack.sequence, true).0
  }

  function Acknowledged(s: Server, ack: Ack): Server {
    if s.pendingSequence == 0 || ack.sequence != s.pendingSequence then s
    else if AckFits(s, ack) then
      s.(pending := AckResult(s.pending, ack.sequence, true).1, installing := Some(Accepted(ack, s.update)))
    else Cleared(Close(s, Rejected))
  }

  function Installed(s: Server, width: nat, height: nat): Server {
    match s.installing
    case None => s
    case Some(a) =>
      if width != a.update.width || height != a.update.height then Cleared(Close(s, Dropped)).(installing := None)
      else
        Close(s, Applied).(applied := a.update.sequence, layoutWidth := width, layoutHeight := height,
                           installing := None, finishing := true, applications := s.applications + [a])
  }

  /** The control thread does one thing at a time: no request and no ack while it installs. */
  function Next(s: Server, step: Step, c: Config): Server {
    match step
    case Request(width, height, nowNs) =>
      if s.pendingSequence != 0 || s.installing.Some? || s.finishing then s else Requested(s, width, height, nowNs)
    case TickAt(nowNs) => Ticked(s, nowNs, c)
    case ReceiveAck(ack) => if s.installing.Some? || s.finishing then s else Acknowledged(s, ack)
    case Install(width, height) => Installed(s, width, height)
    case InstallFails => if s.installing.Some? then Cleared(Close(s, Dropped)).(installing := None) else s
    case Finish => if s.finishing then Cleared(s).(finishing := false) else s
    case Drop => Cleared(Close(s, Dropped))
  }

  function Run(s: Server, steps: seq<Step>, c: Config): Server {
    if steps == [] then s else Next(Run(s, steps[..|steps| - 1], c), steps[|steps| - 1], c)
  }

  // ---- what every reachable state satisfies ----

  /** The pending sequence, the stored update and PendingState tell the same story. */
  predicate Agree(s: Server) {
    if s.pendingSequence == 0 then s.pending == RESET && s.update == NO_UPDATE
    else
      && s.update.sequence == s.pendingSequence == s.pending.sequence
      && (s.pending.phase.Pending? || s.pending.phase.Acked?)
      && s.pendingSequence == (if s.finishing then s.applied else s.applied + 1)
  }

  /** Sent at most 1 + maxRetries times, at least a timeout apart; given up a timeout after the last of all. */
  ghost predicate AttemptOk(a: Attempt, c: Config) {
    && 1 <= |a.sends| <= 1 + c.maxRetries
    && (forall i: nat :: i + 1 < |a.sends| ==> a.sends[i] + c.timeoutNs <= a.sends[i + 1])
    && (a.outcome.GaveUp? ==>
          |a.sends| == 1 + c.maxRetries && a.sends[|a.sends| - 1] + c.timeoutNs <= a.outcome.atNs)
  }

  /** The record of the open request is the pending one. */
  ghost predicate OnRecord(s: Server, c: Config) {
    s.pendingSequence != 0 ==>
      && s.attempts != []
      && var a := s.attempts[|s.attempts| - 1];
         && a.update == s.update && a.outcome == (if s.finishing then Applied else Open)
         && |a.sends| == 1 + s.pending.retryCount && s.pending.retryCount <= c.maxRetries
         && a.sends[|a.sends| - 1] == s.pending.lastSendNs
  }

  /** The application came from an OK ack for the same sequence and encoded size. */
  predicate Answered(a: Accepted) {
    a.ack.ok && a.ack.sequence == a.update.sequence && a.ack.width == a.update.width && a.ack.height == a.update.height
  }

  /** Only a request made at the last sequence number, whose successor wraps to zero, can break agreement. */
  ghost predicate Inv(s: Server, c: Config) {
    && (s.applied < MAX_SEQUENCE || s.finishing ==> Agree(s))
    && (s.applied == MAX_SEQUENCE && !s.finishing ==> s.pendingSequence == 0 && s.pending.sequence == 0)
    && (s.pendingSequence != 0 && s.pending.phase.Acked? ==> s.installing.Some? || s.finishing)
    && (s.finishing ==> s.installing.None? && (s.pendingSequence != 0 ==> s.pending.phase.Acked?))
    && s.applied == |s.applications| <= MAX_SEQUENCE
    && (forall i :: 0 <= i < |s.attempts| ==> AttemptOk(s.attempts[i], c))
    && OnRecord(s, c)
    && (s.installing.Some? ==> Answered(s.installing.value) && s.installing.value.update.sequence == s.applied + 1 &&
                               s.applied < MAX_SEQUENCE && (s.pendingSequence != 0 ==> s.pending.phase.Acked?))
    && (forall i :: 0 <= i < |s.applications| ==>
          Answered(s.applications[i]) && s.applications[i].update.sequence == i + 1)
    && (s.applications != [] ==> var a := s.applications[|s.applications| - 1];
          s.layoutWidth == a.update.width && s.layoutHeight == a.update.height)
  }

  lemma RequestKeepsInv(s: Server, width: nat, height: nat, nowNs: int, c: Config)
    requires Inv(s, c)
    ensures Inv(Next(s, Request(width, height, nowNs), c), c)
  {
  }

  lemma TickKeepsInv(s: Server, nowNs: int, c: Config)
    requires Inv(s, c)
    ensures Inv(Ticked(s, nowNs, c), c)
  {
    match TickResult(s.pending, nowNs, c.timeoutNs, c.maxRetries).0
    case NoAction =>
    case Retry => RetryKeepsInv(s, nowNs, c);
    case Timeout => TimeoutKeepsInv(s, nowNs, c);
  }

  lemma RetryKeepsInv(s: Server, nowNs: int, c: Config)
    requires Inv(s, c) && TickResult(s.pending, nowNs, c.timeoutNs, c.maxRetries).0 == Retry
    ensures Inv(Ticked(s, nowNs, c), c)
  {
    var t := Ticked(s, nowNs, c);
    var last := |s.attempts| - 1;
    assert AttemptOk(s.attempts[last], c);
    assert AttemptOk(t.attempts[last], c);
  }

  lemma TimeoutKeepsInv(s: Server, nowNs: int, c: Config)
    requires Inv(s, c) && TickResult(s.pending, nowNs, c.timeoutNs, c.maxRetries).0 == Timeout
    ensures Inv(Ticked(s, nowNs, c), c)
  {
    var t := Ticked(s, nowNs, c);
    var last := |s.attempts| - 1;
    assert AttemptOk(s.attempts[last], c);
    assert AttemptOk(t.attempts[last], c);
  }

  lemma AckKeepsInv(s: Server, ack: Ack, c: Config)
    requires Inv(s, c)
    ensures Inv(Next(s, ReceiveAck(ack), c), c)
  {
  }

  lemma InstallKeepsInv(s: Server, width: nat, height: nat, c: Config)
    requires Inv(s, c)
    ensures Inv(Installed(s, width, height), c)
  {
  }

  lemma DropKeepsInv(s: Server, c: Config)
    requires Inv(s, c)
    ensures Inv(Cleared(Close(s, Dropped)), c)
  {
  }

  lemma InstallingNotFinishing(s: Server, c: Config)
    requires Inv(s, c) && s.installing.Some?
    ensures !s.finishing && s.installing.value.update.sequence == s.applied + 1
  {
  }

  lemma FinishKeepsInv(s: Server, c: Config)
    requires Inv(s, c)
    ensures Inv(Next(s, Finish, c), c)
  {
  }

  lemma {:induction false} Reachable(width: nat, height: nat, steps: seq<Step>, c: Config)
    ensures Inv(Run(Started(width, height), steps, c), c)
  {
    if steps != [] {
      Reachable(width, height, steps[..|steps| - 1], c);
      StepKeepsInv(Run(Started(width, height), steps[..|steps| - 1], c), steps[|steps| - 1], c);
    }
  }

  lemma StepKeepsInv(s: Server, step: Step, c: Config)
    requires Inv(s, c)
    ensures Inv(Next(s, step, c), c)
  {
    match step
    case Request(w, h, nowNs) => RequestKeepsInv(s, w, h, nowNs, c);
    case TickAt(nowNs) => TickKeepsInv(s, nowNs, c);
    case ReceiveAck(ack) => AckKeepsInv(s, ack, c);
    case Install(w, h) => InstallKeepsInv(s, w, h, c);
    case InstallFails => DropKeepsInv(s, c);
    case Finish => FinishKeepsInv(s, c);
    case Drop => DropKeepsInv(s, c);
  }

  /**
    In every interleaving the three pieces of pending state agree, up to the last sequence number; and there a
    request breaks the agreement, because its own sequence wraps to zero.
   */
  lemma PendingStateAgrees(width: nat, height: nat, steps: seq<Step>, c: Config, w: nat, h: nat, nowNs: int)
    ensures var s := Run(Started(width, height), steps, c);
            && (s.applied < MAX_SEQUENCE || s.finishing ==> Agree(s))
            && (s.pendingSequence == 0 && s.installing.None? && !s.finishing ==>
                  (Agree(Next(s, Request(w, h, nowNs), c)) <==> s.applied != MAX_SEQUENCE))
  {
    Reachable(width, height, steps, c);
    AgreesByInv(Run(Started(width, height), steps, c), c, w, h, nowNs);
  }

  lemma AgreesByInv(s: Server, c: Config, w: nat, h: nat, nowNs: int)
    requires Inv(s, c)
    ensures s.applied < MAX_SEQUENCE || s.finishing ==> Agree(s)
    ensures s.pendingSequence == 0 && s.installing.None? && !s.finishing ==>
              (Agree(Next(s, Request(w, h, nowNs), c)) <==> s.applied != MAX_SEQUENCE)
  {
  }

  // ---- the last sequence number is reached ----

  /** Nothing is pending, installing or finishing. */
  predicate Quiet(s: Server) {
    s.pendingSequence == 0 && s.installing.None? && !s.finishing
  }

  lemma RequestStarts(s: Server, width: nat, height: nat, nowNs: int, c: Config)
    requires Quiet(s) && s.applied < MAX_SEQUENCE
    ensures var t := Next(s, Request(width, height, nowNs), c);
            && t.update == Update(s.applied + 1, width, height) && t.pendingSequence == s.applied + 1
            && t.pending == Begun(s.applied + 1, nowNs) && t.applied == s.applied
            && t.installing.None? && !t.finishing
            && t.attempts == s.attempts + [Attempt(t.update, [nowNs], Open)]
  {
  }

  lemma AckAccepted(s: Server, ack: Ack, c: Config)
    requires s.installing.None? && !s.finishing && s.pendingSequence == s.update.sequence == s.pending.sequence > 0
    requires s.pending.phase.Pending? && ack == Ack(true, s.update.sequence, s.update.width, s.update.height)
    ensures Next(s, ReceiveAck(ack), c) ==
            s.(pending := s.pending.(phase := Acked), installing := Some(Accepted(ack, s.update)))
  {
  }

  lemma InstallThenFinish(s: Server, width: nat, height: nat, c: Config)
    requires s.installing.Some? && s.installing.value.update == Update(s.applied + 1, width, height)
    ensures var t := Next(Next(s, Install(width, height), c), Finish, c);
            Quiet(t) && t.applied == s.applied + 1
  {
  }

  lemma OneRound(s: Server, width: nat, height: nat, nowNs: int, c: Config)
    requires Quiet(s) && s.applied < MAX_SEQUENCE
    ensures var requested := Next(s, Request(width, height, nowNs), c);
            var accepted := Next(requested, ReceiveAck(Ack(true, s.applied + 1, width, height)), c);
            var t := Next(Next(accepted, Install(width, height), c), Finish, c);
            Quiet(t) && t.applied == s.applied + 1
  {
    var requested := Next(s, Request(width, height, nowNs), c);
    RequestStarts(s, width, height, nowNs, c);
    var ack := Ack(true, s.applied + 1, width, height);
    AckAccepted(requested, ack, c);
    InstallThenFinish(Next(requested, ReceiveAck(ack), c), width, height, c);
  }

  lemma Longer(s: Server, steps: seq<Step>, step: Step, c: Config) returns (longer: seq<Step>)
    ensures Run(s, longer, c) == Next(Run(s, steps, c), step, c)
  {
    longer := steps + [step];
    assert longer[..|steps|] == steps;
  }

  /** Every sequence number is applied in some run. */
  lemma {:induction false} SequenceReached(width: nat, height: nat, nowNs: int, c: Config, n: nat)
    returns (steps: seq<Step>)
    requires n <= MAX_SEQUENCE
    ensures var s := Run(Started(width, height), steps, c); Quiet(s) && s.applied == n
  {
    steps := [];
    if n > 0 {
      var s := Started(width, height);
      var before := SequenceReached(width, height, nowNs, c, n - 1);
      OneRound(Run(s, before, c), width, height, nowNs, c);
      var requested := Longer(s, before, Request(width, height, nowNs), c);
      var accepted := Longer(s, requested, ReceiveAck(Ack(true, n, width, height)), c);
      var installed := Longer(s, accepted, Install(width, height), c);
      steps := Longer(s, installed, Finish, c);
    }
  }

  /** So is the last one; and the next request breaks the agreement, since no sequence counts as no request. */
  lemma WrapIsReached(width: nat, height: nat, w: nat, h: nat, nowNs: int, c: Config) returns (steps: seq<Step>)
    ensures var s := Run(Started(width, height), steps, c);
            && s.applied == MAX_SEQUENCE && Quiet(s)
            && var t := Next(s, Request(w, h, nowNs), c);
               t.update == Update(0, w, h) && t.pending.phase.Pending? && t.pendingSequence == 0 && !Agree(t)
  {
    steps := SequenceReached(width, height, nowNs, c, MAX_SEQUENCE);
    RequestWraps(Run(Started(width, height), steps, c), w, h, nowNs, c);
  }

  lemma RequestWraps(s: Server, w: nat, h: nat, nowNs: int, c: Config)
    requires s.applied == MAX_SEQUENCE && Quiet(s)
    ensures var t := Next(s, Request(w, h, nowNs), c);
            t.update == Update(0, w, h) && t.pending.phase.Pending? && t.pendingSequence == 0 && !Agree(t)
  {
  }

  /**
    A sequence number that was not applied is used again. So an ack that answers one request and comes late is taken
    for a second request of the same size, made after the first was dropped.
   */
  lemma LateAckAccepted(s: Server, width: nat, height: nat, nowNs: int, laterNs: int, c: Config)
    requires Quiet(s) && s.applied < MAX_SEQUENCE
    ensures var first := Next(s, Request(width, height, nowNs), c);
            var second := Next(Next(first, Drop, c), Request(width, height, laterNs), c);
            var late := Ack(true, first.update.sequence, first.update.width, first.update.height);
            && |second.attempts| == |s.attempts| + 2
            && second.attempts[|s.attempts|].outcome.Dropped?
            && Next(second, ReceiveAck(late), c).installing == Some(Accepted(late, second.update))
  {
    var first := Next(s, Request(width, height, nowNs), c);
    RequestStarts(s, width, height, nowNs, c);
    var dropped := Next(first, Drop, c);
    RequestStarts(dropped, width, height, laterNs, c);
    var second := Next(dropped, Request(width, height, laterNs), c);
    AckAccepted(second, Ack(true, second.update.sequence, width, height), c);
  }

  lemma {:induction false} SendsSpread(a: Attempt, c: Config, k: nat)
    requires AttemptOk(a, c) && k < |a.sends|
    ensures a.sends[0] + k * c.timeoutNs <= a.sends[k]
  {
    if k > 0 {
      SendsSpread(a, c, k - 1);
      assert k * c.timeoutNs == (k - 1) * c.timeoutNs + c.timeoutNs;
    }
  }

  /**
    Every request of every run is sent at most 1 + maxRetries times, at least a timeout apart, and is given up no
    earlier than maxRetries + 1 timeouts after it was first sent.
   */
  lemma RetriesBounded(width: nat, height: nat, steps: seq<Step>, c: Config, i: nat)
    requires i < |Run(Started(width, height), steps, c).attempts|
    ensures var a := Run(Started(width, height), steps, c).attempts[i];
            && AttemptOk(a, c)
            && (a.outcome.GaveUp? ==> a.sends[0] + (c.maxRetries + 1) * c.timeoutNs <= a.outcome.atNs)
  {
    Reachable(width, height, steps, c);
    GivenUpLate(Run(Started(width, height), steps, c).attempts[i], c);
  }

  lemma GivenUpLate(a: Attempt, c: Config)
    requires AttemptOk(a, c)
    ensures a.outcome.GaveUp? ==> a.sends[0] + (c.maxRetries + 1) * c.timeoutNs <= a.outcome.atNs
  {
    if a.outcome.GaveUp? {
      SendsSpread(a, c, c.maxRetries);
      assert (c.maxRetries + 1) * c.timeoutNs == c.maxRetries * c.timeoutNs + c.timeoutNs;
    }
  }

  // ---- what ticks and acks do ----

  /** Where the sequence numbers have not run out, a request is pending as it is on record. */
  predicate Usual(s: Server) {
    s.applied < MAX_SEQUENCE || s.finishing
  }

  predicate TickActs(s: Server, t: Server, nowNs: int, c: Config)
    requires s.attempts != [] && s.attempts[|s.attempts| - 1].sends != []
  {
    var a := s.attempts[|s.attempts| - 1];
    if !s.pending.phase.Pending? || nowNs < a.sends[|a.sends| - 1] + c.timeoutNs then t == s
    else if |a.sends| < 1 + c.maxRetries then
      && t.attempts == s.attempts[|s.attempts| - 1 := a.(sends := a.sends + [nowNs])]
      && t.pendingSequence == s.pendingSequence && t.update == s.update && t.pending.phase.Pending?
    else
      && t.attempts == s.attempts[|s.attempts| - 1 := a.(outcome := GaveUp(nowNs))]
      && t.pendingSequence == 0 && t.update == NO_UPDATE && t.pending == RESET
  }

  predicate AckActs(s: Server, t: Server, ack: Ack)
    requires s.pendingSequence != 0 ==> s.attempts != []
  {
    if s.installing.Some? || s.finishing || s.pendingSequence == 0 || ack.sequence != s.pendingSequence then t == s
    else if ack.ok && ack.width == s.update.width && ack.height == s.update.height && s.pending.phase.Pending? then
      t == s.(pending := s.pending.(phase := Acked), installing := Some(Accepted(ack, s.update)))
    else
      && t.pendingSequence == 0 && t.update == NO_UPDATE && t.pending == RESET && t.installing == None
      && t.attempts == s.attempts[|s.attempts| - 1 := s.attempts[|s.attempts| - 1].(outcome := Rejected)]
      && t.applied == s.applied
  }

  lemma TickByInv(s: Server, nowNs: int, c: Config)
    requires Inv(s, c) && Usual(s) && s.pendingSequence != 0
    ensures s.attempts != [] && s.attempts[|s.attempts| - 1].sends != []
    ensures TickActs(s, Next(s, TickAt(nowNs), c), nowNs, c)
  {
  }

  lemma AckByInv(s: Server, ack: Ack, c: Config)
    requires Inv(s, c) && Usual(s)
    ensures s.pendingSequence != 0 ==> s.attempts != []
    ensures AckActs(s, Next(s, ReceiveAck(ack), c), ack)
  {
  }

  /**
    In every run a tick acts on a request that awaits its answer, and exactly once a timeout has passed since the last
    send: while there were fewer than 1 + maxRetries sends it sends once more, and after that it gives the request up.
    With nothing pending it does nothing.
   */
  lemma TickExactly(width: nat, height: nat, steps: seq<Step>, c: Config, nowNs: int)
    ensures var s := Run(Started(width, height), steps, c);
            Usual(s) ==>
              if s.pendingSequence == 0 then Next(s, TickAt(nowNs), c) == s
              else
                && s.attempts != [] && s.attempts[|s.attempts| - 1].sends != []
                && TickActs(s, Next(s, TickAt(nowNs), c), nowNs, c)
  {
    Reachable(width, height, steps, c);
    var s := Run(Started(width, height), steps, c);
    if Usual(s) && s.pendingSequence != 0 {
      TickByInv(s, nowNs, c);
    }
  }

  /**
    In every run an ack counts only for the pending sequence, and not while another is being installed: with OK and the
    update's size, for a request that awaits its answer, it hands the update out to be installed; any other ack of that
    sequence rejects the request.
   */
  lemma AckExactly(width: nat, height: nat, steps: seq<Step>, c: Config, ack: Ack)
    ensures var s := Run(Started(width, height), steps, c);
            Usual(s) ==>
              && (s.pendingSequence != 0 ==> s.attempts != [])
              && AckActs(s, Next(s, ReceiveAck(ack), c), ack)
  {
    Reachable(width, height, steps, c);
    var s := Run(Started(width, height), steps, c);
    if Usual(s) {
      AckByInv(s, ack, c);
    }
  }

  /** Ticks in order, each at least a timeout after the one before, the first after `since`. */
  predicate Spaced(times: seq<int>, since: int, timeoutNs: int) {
    times == [] ||
    (Spaced(times[..|times| - 1], since, timeoutNs) && LastOr(times[..|times| - 1], since) + timeoutNs <= LastOr(times, since))
  }

  function LastOr(times: seq<int>, since: int): int {
    if times == [] then since else times[|times| - 1]
  }

  function Ticks(times: seq<int>): seq<Step> {
    seq(|times|, i requires 0 <= i < |times| => TickAt(times[i]))
  }

  /** The request on record was last sent at `sent`, has n sends left, and awaits its answer. */
  predicate SendsLeft(s: Server, n: int, sent: int, c: Config) {
    s.pendingSequence != 0 && s.pending.phase.Pending? && s.pending.sequence != 0 &&
    s.pending.lastSendNs == sent && s.pending.retryCount + n == c.maxRetries
  }

  /** Of an unanswered request each due tick uses up one send, and then the request is gone. */
  lemma {:induction false} TicksUseUp(s: Server, times: seq<int>, c: Config, n: nat, sent: int)
    requires SendsLeft(s, n, sent, c) && Spaced(times, sent, c.timeoutNs) && |times| <= n + 1
    ensures var t := Run(s, Ticks(times), c);
            if |times| <= n then SendsLeft(t, n - |times|, LastOr(times, sent), c)
            else t.pendingSequence == 0 && t.update == NO_UPDATE && t.pending == RESET
  {
    if times != [] {
      var k := |times| - 1;
      TicksUseUp(s, times[..k], c, n, sent);
      assert Ticks(times)[..k] == Ticks(times[..k]) && Ticks(times)[k] == TickAt(times[k]);
    }
  }

  /**
    No request stays for ever. In every run what is pending is being installed or awaits its answer, and a request
    that never gets one is gone after 1 + maxRetries ticks at most, each a timeout after the one before.
   */
  lemma PendingEnds(width: nat, height: nat, steps: seq<Step>, c: Config, times: seq<int>)
    ensures var s := Run(Started(width, height), steps, c);
            Usual(s) && s.pendingSequence != 0 && s.installing.None? && !s.finishing ==>
              && s.pending.phase.Pending? && s.pending.retryCount <= c.maxRetries
              && (|times| == 1 + c.maxRetries - s.pending.retryCount && Spaced(times, s.pending.lastSendNs, c.timeoutNs) ==>
                    Run(s, Ticks(times), c).pendingSequence == 0)
  {
    Reachable(width, height, steps, c);
    var s := Run(Started(width, height), steps, c);
    if Usual(s) && s.pendingSequence != 0 && s.installing.None? && !s.finishing {
      var n := c.maxRetries - s.pending.retryCount;
      if |times| == 1 + n && Spaced(times, s.pending.lastSendNs, c.timeoutNs) {
        TicksUseUp(s, times, c, n, s.pending.lastSendNs);
      }
    }
  }

  // ---- the sends themselves ----

  /** The lock is released before an update is sent: `leaving` and `sent` count the sends by the number of the request. */
  datatype Wire = Wire(server: Server, leaving: multiset<nat>, sent: multiset<nat>)

  datatype WireStep =
    | Decide(step: Step)
    | Leave(attempt: nat)   // a thread that decided to send does so
    | Fail(attempt: nat)    // or the send fails, and the client is dropped later

  /** The request the step decides to send, if any. */
  function Decided(s: Server, step: Step, c: Config): multiset<nat> {
    match step
    case Request(_, _, _) =>
      if s.pendingSequence != 0 || s.installing.Some? || s.finishing then multiset{} else multiset{|s.attempts|}
    case TickAt(nowNs) =>
      if TickResult(s.pending, nowNs, c.timeoutNs, c.maxRetries).0 == Retry && s.attempts != []
      then multiset{|s.attempts| - 1} else multiset{}
    case _ => multiset{}
  }

  function NextWire(w: Wire, step: WireStep, c: Config): Wire {
    match step
    case Decide(step) => w.(server := Next(w.server, step, c), leaving := w.leaving + Decided(w.server, step, c))
    case Leave(i) =>
      if i in w.leaving then w.(leaving := w.leaving - multiset{i}, sent := w.sent + multiset{i}) else w
    case Fail(i) => if i in w.leaving then w.(leaving := w.leaving - multiset{i}) else w
  }

  function RunWire(w: Wire, steps: seq<WireStep>, c: Config): Wire {
    if steps == [] then w else NextWire(RunWire(w, steps[..|steps| - 1], c), steps[|steps| - 1], c)
  }

  function Stamps(s: Server, i: nat): nat {
    if i < |s.attempts| then |s.attempts[i].sends| else 0
  }

  predicate NothingFails(steps: seq<WireStep>) {
    forall k :: 0 <= k < |steps| ==> !steps[k].Fail?
  }

  /** A request is stamped once for each decision to send it. */
  lemma DecidedIsStamped(s: Server, step: Step, c: Config, i: nat)
    requires Inv(s, c)
    ensures Stamps(Next(s, step, c), i) == Stamps(s, i) + Decided(s, step, c)[i]
  {
  }

  /** The sends made and still to be made of request i are the times it was stamped, less those that failed. */
  ghost predicate Balanced(w: Wire, i: nat, c: Config, failed: bool) {
    && Inv(w.server, c)
    && w.sent[i] + w.leaving[i] <= Stamps(w.server, i)
    && (!failed ==> w.sent[i] + w.leaving[i] == Stamps(w.server, i))
  }

  lemma StaysBalanced(w: Wire, step: WireStep, c: Config, i: nat, failed: bool)
    requires Balanced(w, i, c, failed)
    ensures Balanced(NextWire(w, step, c), i, c, failed || step.Fail?)
  {
    if step.Decide? {
      StepKeepsInv(w.server, step.step, c);
      DecidedIsStamped(w.server, step.step, c, i);
    }
  }

  lemma {:induction false} SendsAreStamped(width: nat, height: nat, steps: seq<WireStep>, c: Config, i: nat)
    ensures Balanced(RunWire(Wire(Started(width, height), multiset{}, multiset{}), steps, c), i, c, !NothingFails(steps))
  {
    if steps == [] {
      Reachable(width, height, [], c);
    } else {
      var front, last := steps[..|steps| - 1], steps[|steps| - 1];
      SendsAreStamped(width, height, front, c, i);
      StaysBalanced(RunWire(Wire(Started(width, height), multiset{}, multiset{}), front, c), last, c, i,
                    !NothingFails(front));
    }
  }

  /**
    However the sends that follow the decisions are delayed or overtake one another, no request of any run goes out
    more than 1 + maxRetries times; and if no send fails, a request goes out once for each time it is stamped.
   */
  lemma SendsBounded(width: nat, height: nat, steps: seq<WireStep>, c: Config, i: nat)
    ensures var w := RunWire(Wire(Started(width, height), multiset{}, multiset{}), steps, c);
            && w.sent[i] <= 1 + c.maxRetries
            && (NothingFails(steps) && i !in w.leaving ==> w.sent[i] == Stamps(w.server, i))
  {
    SendsAreStamped(width, height, steps, c, i);
    var s := RunWire(Wire(Started(width, height), multiset{}, multiset{}), steps, c).server;
    if i < |s.attempts| {
      assert AttemptOk(s.attempts[i], c);
    }
  }

  /**
    The applied sequence counts the applications, so it moves by one at a time, and the i-th application carries
    sequence i + 1, was answered by an OK ack with that sequence and its encoded size, and the layout in force is
    the size of the last one.
   */
  lemma AppliedOnlyOnMatchingAck(width: nat, height: nat, steps: seq<Step>, c: Config)
    ensures var s := Run(Started(width, height), steps, c);
            && s.applied == |s.applications|
            && (forall i :: 0 <= i < |s.applications| ==>
                  Answered(s.applications[i]) && s.applications[i].update.sequence == i + 1)
            && (s.applications != [] ==> var a := s.applications[|s.applications| - 1];
                  s.layoutWidth == a.ack.width && s.layoutHeight == a.ack.height)
            && (s.applications == [] ==> s.layoutWidth == width && s.layoutHeight == height)
  {
    Reachable(width, height, steps, c);
    LayoutKept(width, height, steps, c);
    AnsweredByInv(Run(Started(width, height), steps, c), c);
  }

  lemma AnsweredByInv(s: Server, c: Config)
    requires Inv(s, c)
    ensures s.applied == |s.applications|
    ensures forall i :: 0 <= i < |s.applications| ==>
              Answered(s.applications[i]) && s.applications[i].update.sequence == i + 1
    ensures s.applications != [] ==> var a := s.applications[|s.applications| - 1];
              s.layoutWidth == a.ack.width && s.layoutHeight == a.ack.height
  {
    if s.applications != [] {
      assert Answered(s.applications[|s.applications| - 1]);
    }
  }

  lemma LayoutStep(s: Server, step: Step, c: Config)
    ensures var t := Next(s, step, c);
            || t.applications != []
            || (t.applications == s.applications && t.layoutWidth == s.layoutWidth && t.layoutHeight == s.layoutHeight)
  {
  }

  lemma {:induction false} LayoutKept(width: nat, height: nat, steps: seq<Step>, c: Config)
    ensures var s := Run(Started(width, height), steps, c);
            s.applications == [] ==> s.layoutWidth == width && s.layoutHeight == height
  {
    if steps != [] {
      LayoutKept(width, height, steps[..|steps| - 1], c);
      LayoutStep(Run(Started(width, height), steps[..|steps| - 1], c), steps[|steps| - 1], c);
    }
  }

  // ---- the classes ----

  class Tracker {
    var phase: PendingPhase
    var sequence: nat
    var retryCount: nat
    var lastSendNs: int

    function View(): PendingState
      reads this
    {
      PendingState(phase, sequence, retryCount, lastSendNs)
    }

    constructor ()
      ensures View() == RESET
    {
      phase, sequence, retryCount, lastSendNs := Idle, 0, 0, 0;
    }

    method Reset()
      modifies this
      ensures View() == RESET
    {
      phase, sequence, retryCount, lastSendNs := Idle, 0, 0, 0;
    }

    method Begin(sequence: nat, nowNs: int)
      modifies this
      ensures View() == Begun(sequence, nowNs)
    {
      phase := Pending;
      this.sequence := sequence;
      retryCount := 0;
      lastSendNs := nowNs;
    }

    method Tick(nowNs: int, timeoutNs: int, maxRetries: nat) returns (action: TickAction)
      modifies this
      ensures (action, View()) == TickResult(old(View()), nowNs, timeoutNs, maxRetries)
    {
      if phase != Pending || sequence == 0 {
        return NoAction;
      }
      if nowNs - lastSendNs < timeoutNs {
        return NoAction;
      }
      if retryCount < maxRetries {
        retryCount := retryCount + 1;
        lastSendNs := nowNs;
        return Retry;
      }
      phase, sequence, retryCount, lastSendNs := TimedOut, 0, 0, 0;
      action := Timeout;
    }

    method AcceptAck(sequence: nat, accepted: bool) returns (taken: bool)
      modifies this
      ensures (taken, View()) == AckResult(old(View()), sequence, accepted)
    {
      if phase != Pending || this.sequence == 0 || sequence != this.sequence {
        return false;
      }
      phase := if accepted then Acked else Idle;
      this.sequence := if accepted then sequence else 0;
      if !accepted {
        retryCount := 0;
        lastSendNs := 0;
      }
      taken := accepted;
    }
  }

  /** The server's side of the handshake; each method is one critical section of streamConfigMutex_. */
  class StreamConfig {
    const pending: Tracker
    const config: Config
    var pendingSequence: nat
    var update: Update
    var applied: nat
    var layoutWidth: nat
    var layoutHeight: nat
    ghost var installing: Option<Accepted>
    ghost var finishing: bool
    ghost var attempts: seq<Attempt>
    ghost var applications: seq<Accepted>

    ghost function View(): Server
      reads this, pending
    {
      Server(pendingSequence, update, pending.View(), applied, layoutWidth, layoutHeight, installing, finishing,
             attempts, applications)
    }

    ghost predicate Valid()
      reads this, pending
    {
      Inv(View(), config)
    }

    constructor (config: Config, width: nat, height: nat)
      ensures fresh(pending) && this.config == config && View() == Started(width, height) && Valid()
    {
      this.config := config;
      pending := new Tracker();
      pendingSequence, update, applied, layoutWidth, layoutHeight := 0, NO_UPDATE, 0, width, height;
      installing, finishing, attempts, applications := None, false, [], [];
    }

    method ResetPendingLocked()
      modifies this`pendingSequence, this`update, pending
      ensures View() == Cleared(old(View()))
    {
      update := NO_UPDATE;
      pendingSequence := 0;
      pending.Reset();
    }

    /** The sending half of MaybeRequestStreamReconfigure, once a new layout differs from the current one. */
    method RequestUpdate(width: nat, height: nat, nowNs: int) returns (sent: Option<Update>)
      requires Valid() && installing.None? && !finishing
      modifies this, pending
      ensures Valid() && View() == Next(old(View()), Request(width, height, nowNs), config)
      ensures sent == if old(pendingSequence) == 0 then Some(Update(U32(old(applied) + 1), width, height)) else None
    {
      RequestKeepsInv(View(), width, height, nowNs, config);
      if pendingSequence != 0 {
        return None;
      }
      update := Update(U32(applied + 1), width, height);
      pendingSequence := update.sequence;
      pending.Begin(update.sequence, nowNs);
      attempts := attempts + [Attempt(update, [nowNs], Open)];
      sent := Some(update);
    }

    /** The locked half of TickPendingStreamConfigTimeout: the update to send again, or that the client is given up. */
    method TickPending(nowNs: int) returns (retry: Option<Update>, disconnect: bool)
      requires Valid()
      modifies this, pending
      ensures Valid() && View() == Next(old(View()), TickAt(nowNs), config)
      ensures var action := TickResult(old(pending.View()), nowNs, config.timeoutNs, config.maxRetries).0;
              retry == (if action == Retry then Some(old(update)) else None) && (disconnect <==> action == Timeout)
    {
      TickKeepsInv(View(), nowNs, config);
      retry, disconnect := DecideTick(nowNs);
    }

    method DecideTick(nowNs: int) returns (retry: Option<Update>, disconnect: bool)
      modifies this, pending
      ensures View() == Ticked(old(View()), nowNs, config)
      ensures var action := TickResult(old(pending.View()), nowNs, config.timeoutNs, config.maxRetries).0;
              retry == (if action == Retry then Some(old(update)) else None) && (disconnect <==> action == Timeout)
    {
      var action := pending.Tick(nowNs, config.timeoutNs, config.maxRetries);
      retry, disconnect := None, false;
      match action {
        case NoAction =>
        case Retry =>
          retry := Some(update);
          if attempts != [] {
            var last := |attempts| - 1;
            attempts := attempts[last := attempts[last].(sends := attempts[last].sends + [nowNs])];
          }
        case Timeout =>
          CloseAttempt(GaveUp(nowNs));
          ResetPendingLocked();
          disconnect := true;
      }
    }

    ghost method CloseAttempt(outcome: Outcome)
      modifies this`attempts
      ensures View() == Close(old(View()), outcome)
    {
      var last := |attempts| - 1;
      if pendingSequence != 0 && attempts != [] && attempts[last].outcome.Open? {
        attempts := attempts[last := attempts[last].(outcome := outcome)];
      }
    }

    /** The locked half of HandleStreamConfigAck; an accepted update is the one to install. */
    method HandleAck(ack: Ack) returns (accepted: Option<Update>)
      requires Valid() && installing.None? && !finishing
      modifies this, pending
      ensures Valid() && View() == Next(old(View()), ReceiveAck(ack), config)
      ensures accepted == match installing case Some(a) => Some(a.update) case None => None
    {
      AckKeepsInv(View(), ack, config);
      accepted := DecideAck(ack);
    }

    method DecideAck(ack: Ack) returns (accepted: Option<Update>)
      requires installing.None?
      modifies this, pending
      ensures View() == Acknowledged(old(View()), ack)
      ensures accepted == match installing case Some(a) => Some(a.update) case None => None
    {
      accepted := None;
      if pendingSequence == 0 || ack.sequence != pendingSequence {
        return;
      }
      var ok := ack.ok && ack.width == update.width && ack.height == update.height;
      if ok {
        ok := pending.AcceptAck(ack.sequence, true);
      }
      if ok {
        installing := Some(Accepted(ack, update));
        return Some(update);
      }
      var dropped := pending.AcceptAck(ack.sequence, false);
      CloseAttempt(Rejected);
      ResetPendingLocked();
    }

    /** ApplyPendingStreamConfigLocked up to the layout lock: the layout built now must still have the update's size. */
    method InstallLayout(accepted: Update, width: nat, height: nat, encoderReady: bool) returns (installed: bool)
      requires Valid() && installing.Some? && installing.value.update == accepted
      modifies this, pending
      ensures Valid()
      ensures View() == Next(old(View()), if encoderReady then Install(width, height) else InstallFails, config)
      ensures installed == finishing == (encoderReady && width == accepted.width && height == accepted.height)
      ensures applied == if installed then old(applied) + 1 else old(applied)
      ensures installed ==> layoutWidth == width && layoutHeight == height
      ensures !installed ==> pendingSequence == 0 && update == NO_UPDATE && pending.View() == RESET &&
                             layoutWidth == old(layoutWidth) && layoutHeight == old(layoutHeight)
    {
      InstallKeepsInv(View(), width, height, config);
      DropKeepsInv(View(), config);
      InstallingNotFinishing(View(), config);
      installed := DecideInstall(accepted, width, height, encoderReady);
    }

    method DecideInstall(accepted: Update, width: nat, height: nat, encoderReady: bool) returns (installed: bool)
      requires installing.Some? && installing.value.update == accepted && !finishing
      modifies this, pending
      ensures View() == Next(old(View()), if encoderReady then Install(width, height) else InstallFails, config)
      ensures installed == finishing == (encoderReady && width == accepted.width && height == accepted.height)
      ensures applied == if installed then accepted.sequence else old(applied)
      ensures installed ==> layoutWidth == width && layoutHeight == height
      ensures !installed ==> pendingSequence == 0 && update == NO_UPDATE && pending.View() == RESET &&
                             layoutWidth == old(layoutWidth) && layoutHeight == old(layoutHeight)
    {
      if width != accepted.width || height != accepted.height || !encoderReady {
        AbandonInstall();
        return false;
      }
      CommitLayout(accepted, width, height);
      installed := true;
    }

    method AbandonInstall()
      modifies this, pending
      ensures View() == Cleared(Close(old(View()), Dropped)).(installing := None)
    {
      CloseAttempt(Dropped);
      ResetPendingLocked();
      installing := None;
    }

    method CommitLayout(accepted: Update, width: nat, height: nat)
      requires installing.Some? && installing.value.update == accepted
      requires width == accepted.width && height == accepted.height
      modifies this
      ensures View() == Installed(old(View()), width, height)
    {
      CloseAttempt(Applied);
      layoutWidth, layoutHeight := width, height;
      applied := accepted.sequence;
      applications := applications + [installing.value];
      installing, finishing := None, true;
    }

    /** The last lock of ApplyPendingStreamConfigLocked. */
    method FinishApply()
      requires Valid() && finishing
      modifies this, pending
      ensures Valid() && View() == Next(old(View()), Finish, config)
      ensures pendingSequence == 0 && update == NO_UPDATE && pending.View() == RESET && !finishing
    {
      FinishKeepsInv(View(), config);
      ResetPendingLocked();
      finishing := false;
    }
  }
}
