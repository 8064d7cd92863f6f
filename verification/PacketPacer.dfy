/** runtime/src/PacketPacer.cpp: the send schedule of one frame's datagrams. */
module PacketPacer {
  import opened Protocol
  import opened FecCodec
  import opened NalPackets

  function Min(a: int, b: int): int { if a <= b then a else b }
  function Max(a: int, b: int): int { if a <= b then b else a }

  // ---- the plan: how many datagrams ----

  function DatagramsForNal(payloadSize: nat, maxPayload: nat, fecGroupSize: nat): nat {
    if payloadSize == 0 || maxPayload == 0 then 0
    else
      var dataPackets := U32((payloadSize + maxPayload - 1) / maxPayload);
      var parityPackets := if fecGroupSize == 0 then 0 else (dataPackets + fecGroupSize - 1) / fecGroupSize;
      dataPackets + parityPackets
  }

  function PlannedDatagrams(nals: seq<Nal>): nat {
    if nals == [] then 0
    else PlannedDatagrams(nals[..|nals| - 1]) +
         DatagramsForNal(|nals[|nals| - 1].bytes|, MAX_PACKET_PAYLOAD, FEC_GROUP_SIZE)
  }

  function FrameWire(nals: seq<Nal>): seq<Datagram> {
    if nals == [] then [] else FrameWire(nals[..|nals| - 1]) + Wire(nals[|nals| - 1])
  }

  /** The pacer's plan and the send loop cannot drift apart: one unit. */
  lemma PlanMatchesUnit(nal: Nal)
    requires Admitted(nal)
    ensures DatagramsForNal(|nal.bytes|, MAX_PACKET_PAYLOAD, FEC_GROUP_SIZE) == |Wire(nal)|
  {
    var n := PacketsForSize(|nal.bytes|);
    PlannedForSize(|nal.bytes|, n);
    WireLength(nal, n);
  }

  lemma PlannedForSize(size: nat, n: nat)
    requires size <= MAX_NAL_BYTES && n == PacketsForSize(size)
    ensures DatagramsForNal(size, MAX_PACKET_PAYLOAD, FEC_GROUP_SIZE) == n + GroupCount(n)
  {
    PacketsFitU32(size, n);
  }

  lemma PacketsFitU32(size: nat, n: nat)
    requires size <= MAX_NAL_BYTES && n == PacketsForSize(size)
    ensures U32(n) == n && (size == 0 ==> n == 0)
  {
  }

  /** And a whole frame: the planned total is the number of paced sends. */
  lemma {:induction false} PlanMatchesFrame(nals: seq<Nal>)
    requires forall nal :: nal in nals ==> Admitted(nal)
    ensures PlannedDatagrams(nals) == |FrameWire(nals)|
  {
    if nals != [] {
      PlanMatchesFrame(nals[..|nals| - 1]);
      PlanMatchesUnit(nals[|nals| - 1]);
    }
  }

  // ---- the window ----

  /** 0.8 of the frame period, in nanoseconds, before the cast to an integer. */
  function FrameCapNs(refreshRateHz: nat): real
    requires refreshRateHz > 0
  {
    0.8 * 1000000000.0 / refreshRateHz as real
  }

  function PacingWindowNs(windowMs: real, keyframeWindowMs: real, keyframe: bool, refreshRateHz: nat): (w: int)
    ensures w >= 0
    ensures refreshRateHz > 0 ==> w as real <= FrameCapNs(refreshRateHz)
    ensures windowMs <= 0.0 ==> w == 0
    ensures windowMs > 0.0 ==>
              var wantedNs := (if !keyframe then windowMs
                               else if keyframeWindowMs > 0.0 then keyframeWindowMs else windowMs + windowMs) * 1000000.0;
              var allowedNs := if refreshRateHz > 0 && FrameCapNs(refreshRateHz) < wantedNs then FrameCapNs(refreshRateHz)
                               else wantedNs;
              w as real <= allowedNs < w as real + 1.0
  {
    if windowMs <= 0.0 then 0
    else
      var chosen := if !keyframe then windowMs else if keyframeWindowMs > 0.0 then keyframeWindowMs else 2.0 * windowMs;
      var windowNs := (chosen * 1000000.0).Floor;
      var capped := if refreshRateHz > 0 then Min(windowNs, FrameCapNs(refreshRateHz).Floor) else windowNs;
      Max(0, capped)
  }

  // ---- the deadlines ----

  /** windowNs is clamped at zero by the constructor. */
  datatype Plan = Plan(startNs: int, windowNs: nat, totalPackets: nat)

  function DeadlineNs(p: Plan, packetIndex: nat): int {
    if p.windowNs == 0 || p.totalPackets <= 1 then p.startNs
    else
      var index := Min(packetIndex, p.totalPackets - 1);
      p.startNs + (p.windowNs * index) / p.totalPackets
  }

  function SpacingNs(p: Plan): nat {
    if p.windowNs > 0 && p.totalPackets > 1 then p.windowNs / p.totalPackets else 0
  }

  lemma DivBounds(a: nat, n: nat)
    requires n > 0
    ensures n * (a / n) <= a < n * (a / n) + n
  {
  }

  lemma MulMonotone(n: nat, x: int, y: int)
    requires x <= y
    ensures n * x <= n * y
  {
  }

  lemma MulCancel(n: nat, x: int, y: int)
    requires n > 0 && n * x < n * y + n
    ensures x <= y
  {
    if y + 1 <= x {
      MulMonotone(n, y + 1, x);
    }
  }

  lemma DivUnique(a: nat, n: nat, q: int)
    requires n > 0 && n * q <= a < n * q + n
    ensures a / n == q
  {
    DivBounds(a, n);
    MulCancel(n, a / n, q);
    MulCancel(n, q, a / n);
  }

  lemma DivSum(a: nat, b: nat, n: nat, w: nat)
    requires n > 0 && a + b <= n * w
    ensures a / n + b / n <= w
  {
    DivBounds(a, n);
    DivBounds(b, n);
    assert n * (a / n + b / n) == n * (a / n) + n * (b / n);
    MulCancel(n, a / n + b / n, w);
  }

  /** Adding b before dividing raises the quotient by b / n or by one more. */
  lemma DivStep(a: nat, b: nat, n: nat)
    requires n > 0
    ensures (a + b) / n == a / n + b / n || (a + b) / n == a / n + b / n + 1
  {
    var qa, qb := a / n, b / n;
    DivBounds(a, n);
    DivBounds(b, n);
    assert n * (qa + qb) == n * qa + n * qb;
    if a + b < n * (qa + qb) + n {
      DivUnique(a + b, n, qa + qb);
    } else {
      assert n * (qa + qb + 1) == n * (qa + qb) + n;
      DivUnique(a + b, n, qa + qb + 1);
    }
  }

  /** Consecutive packets are SpacingNs or one nanosecond more apart; so deadlines never decrease. */
  lemma EvenSpacing(p: Plan, i: nat)
    requires i + 1 < p.totalPackets
    ensures var gap := DeadlineNs(p, i + 1) - DeadlineNs(p, i);
            gap == SpacingNs(p) || (p.windowNs > 0 && gap == SpacingNs(p) + 1)
  {
    if p.windowNs > 0 {
      assert p.windowNs * (i + 1) == p.windowNs * i + p.windowNs;
      DivStep(p.windowNs * i, p.windowNs, p.totalPackets);
    }
  }

  lemma {:induction false} DeadlinesAscend(p: Plan, i: nat, j: nat)
    requires i <= j
    ensures p.startNs <= DeadlineNs(p, i) <= DeadlineNs(p, j)
    decreases j
  {
    if i < j {
      DeadlinesAscend(p, i, j - 1);
      if j < p.totalPackets {
        EvenSpacing(p, j - 1);
      }
    } else if p.windowNs > 0 && p.totalPackets > 1 {
      var index := Min(i, p.totalPackets - 1);
      DivBounds(p.windowNs * index, p.totalPackets);
      assert p.windowNs * index >= 0;
    }
  }

  /** The exact deadline of a planned packet: its share of the window, rounded down. */
  lemma DeadlineExactly(p: Plan, i: nat)
    requires i < p.totalPackets
    ensures var shareNs := DeadlineNs(p, i) - p.startNs;
            p.totalPackets * shareNs <= p.windowNs * i < p.totalPackets * shareNs + p.totalPackets
    ensures p.totalPackets > 1 ==>
              p.totalPackets * SpacingNs(p) <= p.windowNs < p.totalPackets * SpacingNs(p) + p.totalPackets
  {
    if p.windowNs == 0 || p.totalPackets <= 1 {
      assert p.windowNs * i == 0;
    } else {
      DivBounds(p.windowNs * i, p.totalPackets);
      DivBounds(p.windowNs, p.totalPackets);
    }
  }

  lemma IndexInWindow(w: nat, index: nat, n: nat)
    requires index < n
    ensures w * index + w <= n * w
  {
    assert w * index + w == w * (index + 1);
    MulMonotone(w, index + 1, n);
  }

  /** Packet 0 goes at once, and the last one is due at least one spacing before the window closes. */
  lemma WindowRespected(p: Plan, i: nat)
    ensures DeadlineNs(p, 0) == p.startNs
    ensures DeadlineNs(p, i) + SpacingNs(p) <= p.startNs + p.windowNs
  {
    if p.windowNs > 0 && p.totalPackets > 1 {
      var n := p.totalPackets;
      var index := Min(i, n - 1);
      IndexInWindow(p.windowNs, index, n);
      DivSum(p.windowNs * index, p.windowNs, n, p.windowNs);
    }
  }

  // ---- waiting ----

  const SPIN_THRESHOLD_NS: nat := 1000000
  const MAX_SLEEP_NS: nat := 1000000

  /** One turn of the wait loop sees a flush request or reads the clock. */
  datatype Poll = Poll(flush: bool, now: int)

  /** A requested sleep and the time it was requested at. */
  datatype Sleep = Sleep(at: int, ns: int)

  predicate Ends(poll: Poll, deadlineNs: int) {
    poll.flush || poll.now >= deadlineNs
  }

  /** The clock does not run backwards, and sooner or later the deadline passes or a flush is asked for. */
  predicate ClockScript(polls: seq<Poll>, now: int, deadlineNs: int) {
    && (forall i :: 0 <= i < |polls| ==> now <= polls[i].now)
    && (forall i, j :: 0 <= i <= j < |polls| ==> polls[i].now <= polls[j].now)
    && exists i :: 0 <= i < |polls| && Ends(polls[i], deadlineNs)
  }

  /**
    Waits out the first polls that neither flush nor reach the deadline. Requested sleeps stop short of the
    deadline by the spin threshold and are sliced, so a flush is seen within one slice.
   */
  method WaitUntilNs(deadlineNs: int, polls: seq<Poll>, ghost now: int)
    returns (reached: bool, used: nat, sleeps: seq<Sleep>)
    requires ClockScript(polls, now, deadlineNs)
    ensures used < |polls| && Ends(polls[used], deadlineNs)
    ensures forall i :: 0 <= i < used ==> !Ends(polls[i], deadlineNs)
    ensures reached <==> !polls[used].flush
    ensures forall s :: s in sleeps ==> 0 < s.ns <= MAX_SLEEP_NS && s.at + s.ns <= deadlineNs - SPIN_THRESHOLD_NS
    ensures forall i :: 0 <= i < used && deadlineNs - polls[i].now > SPIN_THRESHOLD_NS ==>
              Sleep(polls[i].now, Min(deadlineNs - SPIN_THRESHOLD_NS - polls[i].now, MAX_SLEEP_NS)) in sleeps
  {
    used, sleeps := 0, [];
    while true
      invariant used < |polls|
      invariant forall i :: 0 <= i < used ==> !Ends(polls[i], deadlineNs)
      invariant exists i :: used <= i < |polls| && Ends(polls[i], deadlineNs)
      invariant forall s :: s in sleeps ==>
                  0 < s.ns <= MAX_SLEEP_NS && s.at + s.ns <= deadlineNs - SPIN_THRESHOLD_NS
      invariant forall i :: 0 <= i < used && deadlineNs - polls[i].now > SPIN_THRESHOLD_NS ==>
                  Sleep(polls[i].now, Min(deadlineNs - SPIN_THRESHOLD_NS - polls[i].now, MAX_SLEEP_NS)) in sleeps
      decreases |polls| - used
    {
      if polls[used].flush {
        return false, used, sleeps;
      }
      var remaining := deadlineNs - polls[used].now;
      if remaining <= 0 {
        return true, used, sleeps;
      }
      if remaining > SPIN_THRESHOLD_NS {
        sleeps := sleeps + [Sleep(polls[used].now, Min(remaining - SPIN_THRESHOLD_NS, MAX_SLEEP_NS))];
      }
      used := used + 1;
    }
  }

  class Pacer {
    const plan: Plan
    var nextPacket: nat
    var flushed: bool
    var maxLatenessNs: int

    constructor (startNs: int, windowNs: int, totalPackets: nat)
      ensures plan == Plan(startNs, Max(0, windowNs), totalPackets)
      ensures nextPacket == 0 && !flushed && maxLatenessNs == 0
    {
      plan := Plan(startNs, Max(0, windowNs), totalPackets);
      nextPacket, flushed, maxLatenessNs := 0, false, 0;
    }

    predicate Enabled()
      reads this
    {
      plan.windowNs > 0 && plan.totalPackets > 1 && !flushed
    }

    /**
      Counts one packet and returns when it may leave. A planned packet leaves no earlier than its deadline
      unless the frame was flushed; a flush is asked for by a poll, never by the clock, and it stays.
     */
    method WaitForNextPacket(now: int, polls: seq<Poll>, after: int) returns (leaves: int)
      requires plan.startNs <= now
      requires ClockScript(polls, now, DeadlineNs(plan, nextPacket))
      requires forall i :: 0 <= i < |polls| ==> polls[i].now <= after
      modifies this`nextPacket, this`flushed, this`maxLatenessNs
      ensures nextPacket == old(nextPacket) + 1
      ensures now <= leaves
      ensures old(flushed) ==> flushed
      ensures old(nextPacket) < plan.totalPackets && !flushed ==> DeadlineNs(plan, old(nextPacket)) <= leaves
      ensures old(flushed) || plan.windowNs == 0 || old(nextPacket) == 0 || old(nextPacket) >= plan.totalPackets ==>
                leaves == now && flushed == old(flushed) && maxLatenessNs == old(maxLatenessNs)
      ensures maxLatenessNs == old(maxLatenessNs) ||
              maxLatenessNs == Max(old(maxLatenessNs), after - DeadlineNs(plan, old(nextPacket)))
      ensures flushed && !old(flushed) ==> exists i :: 0 <= i < |polls| && polls[i].flush && polls[i].now == leaves
    {
      var index := nextPacket;
      nextPacket := nextPacket + 1;
      leaves := now;
      if !Enabled() || index == 0 || index >= plan.totalPackets {
        WindowRespected(plan, 0);
        return;
      }
      var deadline := DeadlineNs(plan, index);
      var reached, used, sleeps := WaitUntilNs(deadline, polls, now);
      if !reached {
        flushed := true;
        return polls[used].now;
      }
      maxLatenessNs := Max(maxLatenessNs, after - deadline);
      leaves := polls[used].now;
    }
  }
}
