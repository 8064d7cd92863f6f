/**
  The five-slot ring that answers retransmission requests, filled by SendNalUnit and read by
  HandleNackRequest. Each critical section of the dispatch mutex is one step.
 */
module NackCache {
  import opened Protocol
  import opened NalPackets

  const MAX_CACHED_FRAMES: nat := 5
  const BITMASK_BITS: nat := 64

  /** packets[i] is None while its size field is zero. */
  datatype CachedFrame = CachedFrame(
    frameIndex: nat,
    packetCount: nat,
    complete: bool,
    packets: seq<Option<Datagram>>)

  datatype Cache = Cache(slots: seq<CachedFrame>, writeIndex: nat)

  datatype NackRequest = NackRequest(
    frameIndex: nat,
    packetIndexStart: nat,
    totalPackets: nat,
    missing: seq<bool>)

  predicate ValidRequest(req: NackRequest) {
    && |req.missing| == BITMASK_BITS
    && req.packetIndexStart < 0x1_0000
  }

  predicate WellFormed(c: Cache) {
    |c.slots| == MAX_CACHED_FRAMES
  }

  const EMPTY_FRAME: CachedFrame := CachedFrame(0, 0, false, [])
  const EMPTY_CACHE: Cache := Cache([EMPTY_FRAME, EMPTY_FRAME, EMPTY_FRAME, EMPTY_FRAME, EMPTY_FRAME], 0)

  // ---- the sender's critical sections, as functions of the cache ----

  /** Grow to at least count entries and empty the first count of them. */
  function Cleared(packets: seq<Option<Datagram>>, count: nat): (r: seq<Option<Datagram>>)
    ensures |r| == if |packets| < count then count else |packets|
    ensures forall i :: 0 <= i < count ==> r[i] == None
  {
    seq(count, _ => None) + (if |packets| <= count then [] else packets[count..])
  }

  function Prepare(c: Cache, frameIndex: nat, totalPackets: nat): (r: Cache)
    requires WellFormed(c)
    ensures WellFormed(r)
  {
    var k := c.writeIndex % MAX_CACHED_FRAMES;
    Cache(c.slots[k := CachedFrame(frameIndex, totalPackets, false, Cleared(c.slots[k].packets, totalPackets))],
          c.writeIndex + 1)
  }

  function StoreAt(c: Cache, k: nat, frameIndex: nat, i: nat, d: Datagram): (r: Cache)
    requires WellFormed(c) && k < MAX_CACHED_FRAMES
    ensures WellFormed(r)
  {
    var slot := c.slots[k];
    if slot.frameIndex == frameIndex && i < |slot.packets| then
      c.(slots := c.slots[k := slot.(packets := slot.packets[i := Some(d)])])
    else c
  }

  function Publish(c: Cache, k: nat, frameIndex: nat): (r: Cache)
    requires WellFormed(c) && k < MAX_CACHED_FRAMES
    ensures WellFormed(r)
  {
    if c.slots[k].frameIndex == frameIndex then c.(slots := c.slots[k := c.slots[k].(complete := true)]) else c
  }

  // ---- HandleNackRequest ----

  predicate Matches(slot: CachedFrame, req: NackRequest) {
    && slot.frameIndex == req.frameIndex
    && slot.packetCount == req.totalPackets
    && slot.complete
    && slot.packets != []
  }

  /** The packets the lowest `bits` bits select, in index order. */
  function Selected(slot: CachedFrame, req: NackRequest, bits: nat): seq<Datagram>
    requires bits <= |req.missing|
  {
    if bits == 0 then []
    else
      var index := req.packetIndexStart + (bits - 1);
      Selected(slot, req, bits - 1) +
      if req.missing[bits - 1] && index < slot.packetCount && index < |slot.packets| && slot.packets[index].Some?
      then [slot.packets[index].value] else []
  }

  /** The scan over the slots: the first match from slot k on. */
  function FirstMatch(slots: seq<CachedFrame>, req: NackRequest, k: nat): (r: Option<nat>)
    requires k <= |slots|
    ensures r.Some? ==> k <= r.value < |slots| && Matches(slots[r.value], req)
    ensures r.None? <==> forall j :: k <= j < |slots| ==> !Matches(slots[j], req)
    ensures r.Some? ==> forall j :: k <= j < r.value ==> !Matches(slots[j], req)
    decreases |slots| - k
  {
    if k == |slots| then None
    else if Matches(slots[k], req) then Some(k)
    else FirstMatch(slots, req, k + 1)
  }

  function Reply(c: Cache, req: NackRequest): seq<Datagram>
  {
    match FirstMatch(c.slots, req, 0)
    case None => []
    case Some(k) => Selected(c.slots[k], req, |req.missing|)
  }

  // ---- runs: one sender, retransmission requests at any point in between ----

  datatype Phase = Idle | Sending(nal: Nal, slot: nat, next: nat)

  /** history is every unit begun so far, oldest first. */
  datatype Sender = Sender(cache: Cache, phase: Phase, history: seq<Nal>)

  datatype Step = Begin(nal: Nal) | StoreNext | Finish

  const INITIAL: Sender := Sender(EMPTY_CACHE, Idle, [])

  /** A step that the sender's program does not offer in this phase leaves the state alone. */
  function Next(s: Sender, step: Step): (r: Sender)
    requires WellFormed(s.cache) && (s.phase.Sending? ==> s.phase.slot < MAX_CACHED_FRAMES)
    ensures WellFormed(r.cache) && (r.phase.Sending? ==> r.phase.slot < MAX_CACHED_FRAMES)
  {
    match step
    case Begin(nal) =>
      if s.phase.Idle? && Admitted(nal) then
        Sender(Prepare(s.cache, nal.frameIndex, TotalPackets(nal)),
               Sending(nal, s.cache.writeIndex % MAX_CACHED_FRAMES, 0), s.history + [nal])
      else s
    case StoreNext =>
      if s.phase.Sending? && s.phase.next < TotalPackets(s.phase.nal) then
        var (nal, i) := (s.phase.nal, s.phase.next);
        s.(cache := StoreAt(s.cache, s.phase.slot, nal.frameIndex, i, Data(nal, i)),
           phase := s.phase.(next := i + 1))
      else s
    case Finish =>
      if s.phase.Sending? && s.phase.next == TotalPackets(s.phase.nal) then
        s.(cache := Publish(s.cache, s.phase.slot, s.phase.nal.frameIndex), phase := Idle)
      else s
  }

  function Run(s: Sender, steps: seq<Step>): (r: Sender)
    requires WellFormed(s.cache) && (s.phase.Sending? ==> s.phase.slot < MAX_CACHED_FRAMES)
    ensures WellFormed(r.cache) && (r.phase.Sending? ==> r.phase.slot < MAX_CACHED_FRAMES)
  {
    if steps == [] then s else Next(Run(s, steps[..|steps| - 1]), steps[|steps| - 1])
  }

  // ---- what every reachable state satisfies ----

  /** The slot carries the unit's header fields and exactly its first `stored` data packets. */
  ghost predicate Holds(slot: CachedFrame, nal: Nal, stored: nat) {
    && Admitted(nal)
    && stored <= TotalPackets(nal) == PacketsForSize(|nal.bytes|)
    && slot.frameIndex == nal.frameIndex
    && slot.packetCount == TotalPackets(nal) <= |slot.packets|
    && (forall i: nat :: i < stored ==> slot.packets[i] == Some(Data(nal, i)))
    && (forall i: nat :: stored <= i < slot.packetCount ==> slot.packets[i] == None)
  }

  /** Unit h is among the last five begun. */
  ghost predicate Recent(s: Sender, h: nat) {
    h < |s.history| <= h + MAX_CACHED_FRAMES
  }

  ghost predicate InProgress(s: Sender, h: nat) {
    s.phase.Sending? && h == |s.history| - 1
  }

  ghost predicate SlotOk(s: Sender, h: nat)
    requires WellFormed(s.cache) && h < |s.history|
  {
    var slot := s.cache.slots[h % MAX_CACHED_FRAMES];
    if InProgress(s, h) then !slot.complete && Holds(slot, s.history[h], s.phase.next)
    else slot.complete && Holds(slot, s.history[h], TotalPackets(s.history[h]))
  }

  ghost predicate Inv(s: Sender) {
    && WellFormed(s.cache)
    && s.cache.writeIndex == |s.history|
    && (s.phase.Sending? ==>
          && s.history != [] && s.phase.nal == s.history[|s.history| - 1]
          && s.phase.slot == (|s.history| - 1) % MAX_CACHED_FRAMES)
    && (forall h: nat :: Recent(s, h) ==> SlotOk(s, h))
    && (forall k: nat :: |s.history| <= k < MAX_CACHED_FRAMES ==> s.cache.slots[k] == EMPTY_FRAME)
  }

  lemma BeginKeepsInv(s: Sender, nal: Nal)
    requires Inv(s) && s.phase.Idle? && Admitted(nal)
    ensures Inv(Next(s, Begin(nal)))
  {
    var t := Next(s, Begin(nal));
    PacketCountFits(nal);
    forall h: nat | Recent(t, h)
      ensures SlotOk(t, h)
    {
      if h < |s.history| {
        assert Recent(s, h) && SlotOk(s, h);
        assert t.cache.slots[h % MAX_CACHED_FRAMES] == s.cache.slots[h % MAX_CACHED_FRAMES];
        assert t.history[h] == s.history[h];
      } else {
        var slot := t.cache.slots[h % MAX_CACHED_FRAMES];
        assert slot.packets == Cleared(s.cache.slots[h % MAX_CACHED_FRAMES].packets, TotalPackets(nal));
        assert Holds(slot, nal, 0);
      }
    }
  }

  lemma StoreKeepsInv(s: Sender)
    requires Inv(s) && s.phase.Sending? && s.phase.next < TotalPackets(s.phase.nal)
    ensures Inv(Next(s, StoreNext))
  {
    var t := Next(s, StoreNext);
    var last := |s.history| - 1;
    assert Recent(s, last) && SlotOk(s, last);
    forall h: nat | Recent(t, h)
      ensures SlotOk(t, h)
    {
      assert Recent(s, h) && SlotOk(s, h);
      if h != last {
        assert t.cache.slots[h % MAX_CACHED_FRAMES] == s.cache.slots[h % MAX_CACHED_FRAMES];
      }
    }
  }

  lemma FinishKeepsInv(s: Sender)
    requires Inv(s) && s.phase.Sending? && s.phase.next == TotalPackets(s.phase.nal)
    ensures Inv(Next(s, Finish))
  {
    var t := Next(s, Finish);
    var last := |s.history| - 1;
    assert Recent(s, last) && SlotOk(s, last);
    forall h: nat | Recent(t, h)
      ensures SlotOk(t, h)
    {
      assert Recent(s, h) && SlotOk(s, h);
      if h != last {
        assert t.cache.slots[h % MAX_CACHED_FRAMES] == s.cache.slots[h % MAX_CACHED_FRAMES];
      }
    }
  }

  lemma StepKeepsInv(s: Sender, step: Step)
    requires Inv(s)
    ensures Inv(Next(s, step))
  {
    if Next(s, step) != s {
      match step
      case Begin(nal) => BeginKeepsInv(s, nal);
      case StoreNext => StoreKeepsInv(s);
      case Finish => FinishKeepsInv(s);
    }
  }

  lemma {:induction false} Reachable(steps: seq<Step>)
    ensures Inv(Run(INITIAL, steps))
  {
    if steps != [] {
      Reachable(steps[..|steps| - 1]);
      StepKeepsInv(Run(INITIAL, steps[..|steps| - 1]), steps[|steps| - 1]);
    }
  }

  // ---- retransmission, stated on the units themselves ----

  /** The data packets of the unit that the request's lowest `bits` bits ask for. */
  function Requested(nal: Nal, req: NackRequest, bits: nat): seq<Datagram>
    requires bits <= |req.missing|
  {
    if bits == 0 then []
    else
      var index := req.packetIndexStart + (bits - 1);
      Requested(nal, req, bits - 1) +
      if req.missing[bits - 1] && index < PacketsForSize(|nal.bytes|) then [Data(nal, index)] else []
  }

  function RequestedAll(nal: Nal, req: NackRequest): seq<Datagram> {
    Requested(nal, req, |req.missing|)
  }

  /** Packet i of the unit is one that the lowest `bits` bits ask for. */
  ghost predicate Asked(nal: Nal, req: NackRequest, bits: nat, i: nat)
    requires bits <= |req.missing|
  {
    && req.packetIndexStart <= i < req.packetIndexStart + bits
    && i < PacketsForSize(|nal.bytes|)
    && req.missing[i - req.packetIndexStart]
  }

  ghost predicate AskedPacket(nal: Nal, req: NackRequest, bits: nat, d: Datagram)
    requires bits <= |req.missing|
  {
    exists i: nat :: Asked(nal, req, bits, i) && d == Data(nal, i)
  }

  ghost predicate InIndexOrder(r: seq<Datagram>) {
    forall p, q :: 0 <= p < q < |r| ==> r[p].header.packetIndex < r[q].header.packetIndex
  }

  /** Every packet of the reply was asked for, and they come in strictly increasing index order (so once each). */
  lemma {:induction false} RequestedInOrder(nal: Nal, req: NackRequest, bits: nat)
    requires bits <= |req.missing|
    ensures forall d :: d in Requested(nal, req, bits) ==> AskedPacket(nal, req, bits, d)
    ensures InIndexOrder(Requested(nal, req, bits))
  {
    if bits > 0 {
      RequestedInOrder(nal, req, bits - 1);
      var rest := Requested(nal, req, bits - 1);
      forall d | d in Requested(nal, req, bits)
        ensures AskedPacket(nal, req, bits, d)
      {
        if d in rest {
          var i: nat :| Asked(nal, req, bits - 1, i) && d == Data(nal, i);
          assert Asked(nal, req, bits, i);
        } else {
          assert Asked(nal, req, bits, req.packetIndexStart + (bits - 1));
        }
      }
      forall p | 0 <= p < |rest|
        ensures rest[p].header.packetIndex < req.packetIndexStart + (bits - 1)
      {
        assert AskedPacket(nal, req, bits - 1, rest[p]);
      }
    }
  }

  /** Nothing that was asked for is missing from the reply. */
  lemma {:induction false} RequestedComplete(nal: Nal, req: NackRequest, bits: nat, i: nat)
    requires bits <= |req.missing| && Asked(nal, req, bits, i)
    ensures Data(nal, i) in Requested(nal, req, bits)
  {
    if i < req.packetIndexStart + (bits - 1) {
      RequestedComplete(nal, req, bits - 1, i);
    }
  }

  lemma {:induction false} FullSlotSelects(slot: CachedFrame, nal: Nal, req: NackRequest, bits: nat)
    requires bits <= |req.missing|
    requires Holds(slot, nal, TotalPackets(nal))
    ensures Selected(slot, req, bits) == Requested(nal, req, bits)
  {
    if bits > 0 {
      FullSlotSelects(slot, nal, req, bits - 1);
    }
  }

  /** A published unit of the last five that the request's header fields name. */
  ghost predicate Served(s: Sender, h: nat, req: NackRequest) {
    && Recent(s, h) && !InProgress(s, h)
    && s.history[h].frameIndex == req.frameIndex
    && TotalPackets(s.history[h]) == req.totalPackets
  }

  /** Every slot but the never used ones belongs to one of the last five units. */
  lemma SlotOwner(s: Sender, k: nat) returns (h: nat)
    requires Inv(s) && k < MAX_CACHED_FRAMES && k < |s.history|
    ensures Recent(s, h) && h % MAX_CACHED_FRAMES == k && SlotOk(s, h)
  {
    h := |s.history| - 1 - (|s.history| - 1 - k) % MAX_CACHED_FRAMES;
    assert Recent(s, h);
  }

  /** The answer is [] or what the request asks of one published unit of the last five. */
  ghost predicate AnswersFromOneUnit(s: Sender, req: NackRequest, reply: seq<Datagram>)
  {
    reply == [] ||
    exists h: nat :: Served(s, h, req) && Admitted(s.history[h]) && reply == RequestedAll(s.history[h], req)
  }

  lemma ReplyFromInv(s: Sender, req: NackRequest)
    requires Inv(s)
    ensures AnswersFromOneUnit(s, req, Reply(s.cache, req))
    ensures (forall h: nat :: !Served(s, h, req)) ==> Reply(s.cache, req) == []
  {
    var found := FirstMatch(s.cache.slots, req, 0);
    if found.Some? && found.value < |s.history| {
      var h := SlotOwner(s, found.value);
      FullSlotSelects(s.cache.slots[found.value], s.history[h], req, |req.missing|);
      assert Served(s, h, req);
    }
  }

  /**
    In every reachable state a request is answered from one published unit of the last five with the
    requested frame index and packet count, with exactly that unit's requested packets; without such
    a unit nothing is sent. A half written slot never answers.
   */
  lemma ReplyComesFromOneUnit(steps: seq<Step>, req: NackRequest)
    ensures AnswersFromOneUnit(Run(INITIAL, steps), req, Reply(Run(INITIAL, steps).cache, req))
    ensures (forall h: nat :: !Served(Run(INITIAL, steps), h, req)) ==> Reply(Run(INITIAL, steps).cache, req) == []
  {
    Reachable(steps);
    ReplyFromInv(Run(INITIAL, steps), req);
  }

  /** If only one unit fits the request, it is the one that answers, with everything asked for. */
  lemma UniqueUnitAnswers(steps: seq<Step>, req: NackRequest, h: nat)
    requires Served(Run(INITIAL, steps), h, req)
    requires forall g: nat :: Served(Run(INITIAL, steps), g, req) ==> g == h
    ensures var s := Run(INITIAL, steps);
            Admitted(s.history[h]) && Reply(s.cache, req) == RequestedAll(s.history[h], req)
  {
    Reachable(steps);
    var s := Run(INITIAL, steps);
    assert SlotOk(s, h);
    var k := h % MAX_CACHED_FRAMES;
    var found := FirstMatch(s.cache.slots, req, 0);
    FullSlotSelects(s.cache.slots[k], s.history[h], req, |req.missing|);
    if s.history[h].bytes != [] {
      assert Matches(s.cache.slots[k], req);
    } else {
      NothingToAsk(s.history[h], req, |req.missing|);
    }
    if found.Some? {
      var g := SlotOwner(s, found.value);
      FullSlotSelects(s.cache.slots[found.value], s.history[g], req, |req.missing|);
      assert Served(s, g, req);
    }
  }

  lemma {:induction false} NothingToAsk(nal: Nal, req: NackRequest, bits: nat)
    requires bits <= |req.missing| && nal.bytes == []
    ensures Requested(nal, req, bits) == []
  {
    if bits > 0 {
      NothingToAsk(nal, req, bits - 1);
    }
  }

  /** Among the units that fit the request the one in the first slot answers. */
  lemma FirstSlotAnswers(s: Sender, h: nat, req: NackRequest)
    requires Inv(s) && Served(s, h, req) && s.history[h].bytes != []
    requires forall g: nat :: Served(s, g, req) ==> h % MAX_CACHED_FRAMES <= g % MAX_CACHED_FRAMES
    ensures Admitted(s.history[h]) && Reply(s.cache, req) == RequestedAll(s.history[h], req)
  {
    assert SlotOk(s, h);
    var k := h % MAX_CACHED_FRAMES;
    assert Matches(s.cache.slots[k], req);
    FullSlotSelects(s.cache.slots[k], s.history[h], req, |req.missing|);
    var found := FirstMatch(s.cache.slots, req, 0);
    if found.value < |s.history| {
      var g := SlotOwner(s, found.value);
      assert Served(s, g, req);
    }
  }

  // ---- two units of one frame ----

  /** The header fields that do not come from the request or from the packet's place in the unit. */
  predicate SameFields(a: Nal, b: Nal) {
    && a.keyframe == b.keyframe && a.alphaBlend == b.alphaBlend && a.packedAlpha == b.packedAlpha
    && a.codec == b.codec && a.timestampNs == b.timestampNs
  }

  /** Two units that no request can tell apart: one frame, one packet count. */
  predicate Twins(a: Nal, b: Nal) {
    && Admitted(a) && Admitted(b)
    && a.frameIndex == b.frameIndex && PacketsForSize(|a.bytes|) == PacketsForSize(|b.bytes|)
  }

  /** Packet i is the same in both: flags, codec, timestamp and payload. */
  predicate PacketsAgree(a: Nal, b: Nal, i: nat)
    requires Twins(a, b)
  {
    SameFields(a, b) && i < PacketsForSize(|a.bytes|) && Payload(a, i) == Payload(b, i)
  }

  lemma TwinPackets(a: Nal, b: Nal, i: nat)
    requires Twins(a, b) && i < PacketsForSize(|a.bytes|)
    ensures Data(a, i) == Data(b, i) <==> PacketsAgree(a, b, i)
  {
    assert TotalPackets(a) == TotalPackets(b);
    if Data(a, i) == Data(b, i) {
      assert Data(a, i).header == Data(b, i).header;
      assert SameFields(a, b);
      assert Data(a, i).payload == Data(b, i).payload;
    }
    if PacketsAgree(a, b, i) {
      assert Data(a, i).header == Data(b, i).header;
    }
  }

  /** Every packet asked for is in both units the same datagram. */
  ghost predicate AgreeWhereAsked(a: Nal, b: Nal, req: NackRequest, bits: nat)
    requires Twins(a, b) && bits <= |req.missing|
  {
    forall i: nat :: Asked(b, req, bits, i) ==> PacketsAgree(a, b, i)
  }

  lemma {:induction false} RequestedEqually(a: Nal, b: Nal, req: NackRequest, bits: nat)
    requires Twins(a, b) && bits <= |req.missing|
    ensures |Requested(a, req, bits)| == |Requested(b, req, bits)|
    ensures Requested(a, req, bits) == Requested(b, req, bits) <==> AgreeWhereAsked(a, b, req, bits)
  {
    if bits > 0 {
      RequestedEqually(a, b, req, bits - 1);
      AgreeOneMore(a, b, req, bits);
      RequestedOneMore(a, req, bits);
      RequestedOneMore(b, req, bits);
      OneMoreEqually(a, b, req, bits, Requested(a, req, bits - 1), Requested(b, req, bits - 1));
    }
  }

  lemma OneMoreEqually(a: Nal, b: Nal, req: NackRequest, bits: nat, p: seq<Datagram>, q: seq<Datagram>)
    requires Twins(a, b) && 0 < bits <= |req.missing| && |p| == |q|
    ensures var index := req.packetIndexStart + (bits - 1);
            AskedLast(b, req, bits, index) ==>
              (p + [Data(a, index)] == q + [Data(b, index)] <==>
               p == q && PacketsAgree(a, b, index))
  {
    var index := req.packetIndexStart + (bits - 1);
    if AskedLast(b, req, bits, index) {
      TwinPackets(a, b, index);
      AppendedEqually(p, Data(a, index), q, Data(b, index));
    }
  }

  lemma RequestedOneMore(nal: Nal, req: NackRequest, bits: nat)
    requires 0 < bits <= |req.missing|
    ensures var index := req.packetIndexStart + (bits - 1);
            Requested(nal, req, bits) ==
            if AskedLast(nal, req, bits, index) then Requested(nal, req, bits - 1) + [Data(nal, index)]
            else Requested(nal, req, bits - 1)
  {
  }

  lemma AppendedEqually(p: seq<Datagram>, d: Datagram, q: seq<Datagram>, e: Datagram)
    requires |p| == |q|
    ensures p + [d] == q + [e] <==> p == q && d == e
  {
    if p + [d] == q + [e] {
      assert (p + [d])[..|p|] == p && (q + [e])[..|q|] == q;
      assert (p + [d])[|p|] == d && (q + [e])[|q|] == e;
    }
  }

  lemma AskedOneMore(nal: Nal, req: NackRequest, bits: nat, i: nat)
    requires 0 < bits <= |req.missing|
    ensures Asked(nal, req, bits, i) == (Asked(nal, req, bits - 1, i) || AskedLast(nal, req, bits, i))
  {
  }

  /** Packet i is the one that bit number bits asks for. */
  predicate AskedLast(nal: Nal, req: NackRequest, bits: nat, i: nat)
    requires 0 < bits <= |req.missing|
  {
    i == req.packetIndexStart + (bits - 1) && req.missing[bits - 1] && i < PacketsForSize(|nal.bytes|)
  }

  lemma AgreeOneMore(a: Nal, b: Nal, req: NackRequest, bits: nat)
    requires Twins(a, b) && 0 < bits <= |req.missing|
    ensures var index := req.packetIndexStart + (bits - 1);
            AgreeWhereAsked(a, b, req, bits) <==>
              AgreeWhereAsked(a, b, req, bits - 1) && (AskedLast(b, req, bits, index) ==> PacketsAgree(a, b, index))
  {
    var index := req.packetIndexStart + (bits - 1);
    if AgreeWhereAsked(a, b, req, bits) {
      forall i: nat | Asked(b, req, bits - 1, i)
        ensures PacketsAgree(a, b, i)
      {
        assert Asked(b, req, bits, i);
      }
      assert AskedLast(b, req, bits, index) ==> Asked(b, req, bits, index);
    }
    if AgreeWhereAsked(a, b, req, bits - 1) && (AskedLast(b, req, bits, index) ==> PacketsAgree(a, b, index)) {
      forall i: nat | Asked(b, req, bits, i)
        ensures PacketsAgree(a, b, i)
      {
        AskedOneMore(b, req, bits, i);
      }
    }
  }

  /**
    The units of one frame share its index, so two of them can also share the packet count. Then the request does
    not say which one it means. When b lost packets but a sits in the first slot, the reply is what b needs if and
    only if the two units agree in flags, codec and timestamp and, at every index asked for, in the payload.
   */
  lemma SharedHeaderAnswersTheFirstSlot(steps: seq<Step>, a: nat, b: nat, req: NackRequest)
    requires Served(Run(INITIAL, steps), a, req) && Served(Run(INITIAL, steps), b, req)
    requires forall g: nat :: Served(Run(INITIAL, steps), g, req) ==> a % MAX_CACHED_FRAMES <= g % MAX_CACHED_FRAMES
    requires Run(INITIAL, steps).history[a].bytes != []
    ensures var s := Run(INITIAL, steps);
            && Twins(s.history[a], s.history[b])
            && (Reply(s.cache, req) == RequestedAll(s.history[b], req) <==>
                AgreeWhereAsked(s.history[a], s.history[b], req, |req.missing|))
  {
    Reachable(steps);
    var s := Run(INITIAL, steps);
    assert SlotOk(s, b);
    FirstSlotAnswers(s, a, req);
    PacketCountFits(s.history[a]);
    PacketCountFits(s.history[b]);
    RequestedEqually(s.history[a], s.history[b], req, |req.missing|);
  }

  /** The sender's steps for the first n packets of one unit. */
  function Storing(nal: Nal, n: nat): seq<Step> {
    if n == 0 then [Begin(nal)] else Storing(nal, n - 1) + [StoreNext]
  }

  lemma RunSnoc(steps: seq<Step>, step: Step)
    ensures Run(INITIAL, steps + [step]) == Next(Run(INITIAL, steps), step)
  {
    assert (steps + [step])[..|steps|] == steps;
  }

  /** The first n packets of the unit are out, after these units. */
  predicate Underway(s: Sender, history: seq<Nal>, nal: Nal, n: nat) {
    s.history == history + [nal] && s.phase.Sending? && s.phase.nal == nal && s.phase.next == n
  }

  lemma BeginStarts(s: Sender, nal: Nal)
    requires WellFormed(s.cache) && s.phase.Idle? && Admitted(nal)
    ensures Underway(Next(s, Begin(nal)), s.history, nal, 0)
  {
  }

  lemma StoreAdvances(s: Sender, history: seq<Nal>, nal: Nal, n: nat)
    requires WellFormed(s.cache) && Underway(s, history, nal, n) && s.phase.slot < MAX_CACHED_FRAMES
    requires n < TotalPackets(nal)
    ensures Underway(Next(s, StoreNext), history, nal, n + 1)
  {
  }

  lemma FinishEnds(s: Sender, history: seq<Nal>, nal: Nal)
    requires WellFormed(s.cache) && Underway(s, history, nal, TotalPackets(nal)) && s.phase.slot < MAX_CACHED_FRAMES
    ensures Next(s, Finish).phase.Idle? && Next(s, Finish).history == history + [nal]
  {
  }

  lemma {:induction false} StoringRuns(before: seq<Step>, history: seq<Nal>, nal: Nal, n: nat)
    requires Run(INITIAL, before).phase.Idle? && Run(INITIAL, before).history == history
    requires Admitted(nal) && n <= TotalPackets(nal)
    ensures Underway(Run(INITIAL, before + Storing(nal, n)), history, nal, n)
  {
    if n == 0 {
      RunSnoc(before, Begin(nal));
      BeginStarts(Run(INITIAL, before), nal);
    } else {
      var stored := before + Storing(nal, n - 1);
      StoringRuns(before, history, nal, n - 1);
      RunSnoc(stored, StoreNext);
      StoreAdvances(Run(INITIAL, stored), history, nal, n - 1);
      assert before + Storing(nal, n) == stored + [StoreNext];
    }
  }

  /** Any idle run can go on to send one more unit whole. */
  lemma SendWhole(before: seq<Step>, nal: Nal) returns (steps: seq<Step>)
    requires Run(INITIAL, before).phase.Idle? && Admitted(nal)
    ensures Run(INITIAL, steps).phase.Idle? && Run(INITIAL, steps).history == Run(INITIAL, before).history + [nal]
  {
    var history := Run(INITIAL, before).history;
    StoringRuns(before, history, nal, TotalPackets(nal));
    var stored := before + Storing(nal, TotalPackets(nal));
    RunSnoc(stored, Finish);
    FinishEnds(Run(INITIAL, stored), history, nal);
    steps := stored + [Finish];
  }

  /**
    It happens: send any two such units one after the other, say two parameter sets of a keyframe. Both are
    published and fit every request for either; every reply is made of the first one's packets, and a packet of the
    second that differs from the first one's is in no reply at all.
   */
  lemma TwinIsNeverResent(a: Nal, b: Nal) returns (steps: seq<Step>)
    requires Twins(a, b) && a.bytes != []
    ensures var s := Run(INITIAL, steps);
            s.history == [a, b] && forall req: NackRequest ::
              req.frameIndex == b.frameIndex && req.totalPackets == TotalPackets(b) ==>
                Served(s, 0, req) && Served(s, 1, req) && Reply(s.cache, req) == RequestedAll(a, req) &&
                NothingOfTwin(a, b, Reply(s.cache, req))
  {
    assert Run(INITIAL, []).phase.Idle?;
    var first := SendWhole([], a);
    steps := SendWhole(first, b);
    var s := Run(INITIAL, steps);
    assert s.history == [a, b];
    Reachable(steps);
    PacketCountFits(a);
    PacketCountFits(b);
    forall req: NackRequest | req.frameIndex == b.frameIndex && req.totalPackets == TotalPackets(b)
      ensures Served(s, 0, req) && Served(s, 1, req) && Reply(s.cache, req) == RequestedAll(a, req)
      ensures NothingOfTwin(a, b, Reply(s.cache, req))
    {
      FirstSlotAnswers(s, 0, req);
      TwinNotRequested(a, b, req);
    }
  }

  /** No packet of b that is not one of a's is there. */
  ghost predicate NothingOfTwin(a: Nal, b: Nal, reply: seq<Datagram>)
    requires Twins(a, b)
  {
    forall i: nat :: i < PacketsForSize(|b.bytes|) && !PacketsAgree(a, b, i) ==> Data(b, i) !in reply
  }

  lemma TwinNotRequested(a: Nal, b: Nal, req: NackRequest)
    requires Twins(a, b)
    ensures NothingOfTwin(a, b, RequestedAll(a, req))
  {
    RequestedInOrder(a, req, |req.missing|);
    forall i: nat | i < PacketsForSize(|b.bytes|) && !PacketsAgree(a, b, i)
      ensures Data(b, i) !in RequestedAll(a, req)
    {
      TwinPackets(a, b, i);
      if Data(b, i) in RequestedAll(a, req) {
        PacketIndexOf(a, req, Data(b, i), i);
      }
    }
  }

  lemma PacketIndexOf(nal: Nal, req: NackRequest, d: Datagram, i: nat)
    requires AskedPacket(nal, req, |req.missing|, d) && d.header.packetIndex == i
    ensures i < PacketsForSize(|nal.bytes|) && d == Data(nal, i)
  {
    var k: nat :| Asked(nal, req, |req.missing|, k) && d == Data(nal, k);
    assert Data(nal, k).header.packetIndex == k;
  }
}
