/** The headset's receive path for one stream of units: ReassembleFrame and TryFecRecovery. */
module NetworkReceiver {
  import opened Protocol
  import opened FecCodec
  import opened NalPackets
  import opened NalReassembler

  class Receiver {
    var frameIndex: nat
    var totalPackets: nat
    var receivedPackets: nat
    var got: seq<bool>
    var sizes: seq<nat>
    var slots: seq<seq<byte>>
    var parityGot: seq<bool>
    var parity: seq<seq<byte>>
    var lastSizes: seq<nat>

    ghost function View(): Pending
      reads this
    {
      Pending(got, sizes, slots, parityGot, parity, lastSizes)
    }

    ghost predicate Buffers()
      reads this
    {
      && (forall i :: 0 <= i < |slots| ==> |slots[i]| == MAX_PACKET_PAYLOAD)
      && (forall i :: 0 <= i < |parity| ==> |parity[i]| == MAX_PACKET_PAYLOAD)
    }

    /** A unit is pending: its bookkeeping is consistent. */
    ghost predicate Counting()
      reads this
    {
      WellShaped(View()) && totalPackets == |got| && receivedPackets == CountTrue(got)
    }

    /** Between units totalPackets is zero; a pending unit is never complete. */
    ghost predicate Valid()
      reads this
    {
      Buffers() && (totalPackets > 0 ==> Counting() && receivedPackets < totalPackets)
    }

    /** The pending unit, if any, is this one, and holds only parts of it. */
    ghost predicate Holds(nal: Nal)
      reads this
    {
      totalPackets > 0 ==> Tracks(nal, View()) && frameIndex == nal.frameIndex
    }

    constructor ()
      ensures Valid() && totalPackets == 0
    {
      frameIndex, totalPackets, receivedPackets := 0, 0, 0;
      got, sizes, slots, parityGot, parity, lastSizes := [], [], [], [], [], [];
    }

    /** The missing packets of one group: how many, and the last one seen. */
    method CountMissing(start: nat, end: nat) returns (missing: nat, index: nat)
      requires start <= end <= |got|
      ensures missing > 0 ==> start <= index < end && !got[index]
      ensures missing == 0 <==> forall i :: start <= i < end ==> got[i]
      ensures missing == 1 ==> forall i :: start <= i < end && i != index ==> got[i]
      ensures missing > 1 ==> exists i :: start <= i < index && !got[i]
    {
      missing, index := 0, 0;
      for i := start to end
        invariant missing == 0 <==> forall j :: start <= j < i ==> got[j]
        invariant missing > 0 ==> start <= index < i && !got[index]
        invariant missing == 1 ==> forall j :: start <= j < i && j != index ==> got[j]
        invariant missing > 1 ==> exists j :: start <= j < index && !got[j]
      {
        if !got[i] {
          missing, index := missing + 1, i;
        }
      }
    }

    method GatherPresent(start: nat, end: nat, missing: nat) returns (present: seq<seq<byte>>)
      requires WellShaped(View()) && start <= missing < end <= |got|
      ensures |present| == end - start - 1
      ensures forall k :: 0 <= k < |present| ==>
                present[k] == SlotBytes(View(), if start + k < missing then start + k else start + k + 1)
    {
      present := [];
      for i := start to end
        invariant |present| == if i <= missing then i - start else i - start - 1
        invariant forall k :: 0 <= k < |present| ==>
                    present[k] == SlotBytes(View(), if start + k < missing then start + k else start + k + 1)
      {
        if i != missing {
          present := present + [slots[i][..sizes[i]]];
        }
      }
    }

    /** Whether group g misses exactly one packet, and which. */
    method SingleLoss(g: nat) returns (single: bool, index: nat)
      requires WellShaped(View()) && g < |parityGot|
      ensures single ==> index < |got| && index / FEC_GROUP_SIZE == g && (Recoverable(View(), index) <==> parityGot[g])
      ensures !single ==> forall i: nat :: i < |got| && i / FEC_GROUP_SIZE == g ==> !Recoverable(View(), i)
    {
      var (groupStart, groupEnd) := GroupRange(g, |got|);
      var missing, at := CountMissing(groupStart, groupEnd);
      single, index := missing == 1, at;
    }

    /** The lost packet of a group as parity XOR the present packets. */
    method DecodeLost(g: nat, index: nat) returns (slot: seq<byte>, size: nat)
      requires WellShaped(View()) && index < |got| && g == index / FEC_GROUP_SIZE
      ensures slot == RecoveredSlot(View(), index) && size == RecoveredSize(View(), index)
    {
      var (groupStart, groupEnd) := GroupRange(g, |got|);
      var present := GatherPresent(groupStart, groupEnd, index);
      assert present == Others(View(), index);
      var buffer := new byte[MAX_PACKET_PAYLOAD];
      size := Decode(present, parity[g], buffer);
      slot := buffer[..];
      if index == groupEnd - 1 && 0 < lastSizes[g] <= MAX_PACKET_PAYLOAD {
        size := lastSizes[g];
      }
    }

    /** One turn of the recovery loop: at most one packet of the group comes back. */
    method RecoverGroup(g: nat) returns (recovered: bool, index: nat)
      requires WellShaped(View()) && receivedPackets == CountTrue(got) && g < |parityGot|
      modifies this`got, this`sizes, this`slots, this`receivedPackets
      ensures receivedPackets == CountTrue(got)
      ensures recovered ==> index < |got| && index / FEC_GROUP_SIZE == g && old(Recoverable(View(), index)) &&
                            View() == RecoverOne(old(View()), index)
      ensures !recovered ==> View() == old(View()) &&
                             forall i: nat :: i < |got| && i / FEC_GROUP_SIZE == g ==> !Recoverable(View(), i)
    {
      recovered, index := false, 0;
      if !parityGot[g] {
        return;
      }
      var single, at := SingleLoss(g);
      if !single {
        return;
      }
      var recoveredSlot, recoveredSize := DecodeLost(g, at);
      CountSet(got, at);
      got := got[at := true];
      sizes := sizes[at := recoveredSize];
      slots := slots[at := recoveredSlot];
      receivedPackets := receivedPackets + 1;
      recovered, index := true, at;
    }

    /** The same, seen from before the loop: the groups up to this one have been visited. */
    method VisitGroup(ghost before: Pending, g: nat) returns (recovered: bool)
      requires WellShaped(before) && g < |before.parityGot|
      requires View() == RecoveredUpTo(before, g) && receivedPackets == CountTrue(got)
      modifies this`got, this`sizes, this`slots, this`receivedPackets
      ensures View() == RecoveredUpTo(before, g + 1) && receivedPackets == CountTrue(got)
      ensures got != before.got <==> recovered || old(got) != before.got
    {
      var one, index := RecoverGroup(g);
      recovered := one;
      if one {
        VisitRecovers(before, g, index);
        NewlyGot(before, g, index);
      } else {
        VisitLeaves(before, g);
      }
    }

    /**
      Recovers every packet that can be recovered, and reports true exactly when some packet was missing
      and now none is.
     */
    method TryFecRecovery() returns (complete: bool)
      requires Buffers() && (totalPackets > 0 ==> Counting())
      modifies this`got, this`sizes, this`slots, this`receivedPackets
      ensures Buffers() && (totalPackets > 0 ==> Counting() && View() == Recovered(old(View())))
      ensures totalPackets == 0 ==> View() == old(View())
      ensures complete <==> totalPackets > 0 && RecoveryCompletes(old(View()))
    {
      if totalPackets == 0 {
        return false;
      }
      ghost var before := View();
      var recovered := VisitGroups();
      FinalTest(before, View());
      complete := recovered && receivedPackets == totalPackets;
    }

    method VisitGroups() returns (recovered: bool)
      requires Counting()
      modifies this`got, this`sizes, this`slots, this`receivedPackets
      ensures View() == Recovered(old(View())) && receivedPackets == CountTrue(got)
      ensures recovered <==> got != old(got)
    {
      ghost var before := View();
      recovered := false;
      NothingVisited(before);
      for g := 0 to GroupCount(totalPackets)
        invariant View() == RecoveredUpTo(before, g) && receivedPackets == CountTrue(got)
        invariant recovered <==> got != before.got
      {
        var one := VisitGroup(before, g);
        recovered := recovered || one;
      }
    }

    /** Copies the slots' used bytes together and marks the unit as consumed. */
    method Deliver() returns (unit: seq<byte>)
      requires Buffers() && Counting()
      modifies this`totalPackets
      ensures Valid() && totalPackets == 0
      ensures unit == Compacted(View(), |got|)
    {
      unit := [];
      for i := 0 to totalPackets
        invariant unit == Compacted(View(), i)
      {
        unit := unit + slots[i][..sizes[i]];
      }
      totalPackets := 0;
    }

    /** A vector of buffers grows to n entries if it is shorter; old contents stay. */
    static method Resized(buffers: seq<seq<byte>>, n: nat) returns (r: seq<seq<byte>>)
      requires forall i :: 0 <= i < |buffers| ==> |buffers[i]| == MAX_PACKET_PAYLOAD
      ensures |r| == n
      ensures forall i :: 0 <= i < n ==> |r[i]| == MAX_PACKET_PAYLOAD
    {
      r := if n <= |buffers| then buffers[..n] else buffers + seq(n - |buffers|, _ => seq(MAX_PACKET_PAYLOAD, _ => 0));
    }

    method StartUnit(header: VideoHeader)
      requires Buffers()
      modifies this
      ensures Buffers() && Counting() && receivedPackets == 0
      ensures frameIndex == header.frameIndex && totalPackets == header.totalPackets
      ensures |slots| == totalPackets && |parity| == GroupCount(totalPackets) &&
              View() == Fresh(totalPackets, slots, parity)
    {
      var n := header.totalPackets;
      var groups := GroupCount(n);
      var newSlots := Resized(slots, n);
      var newParity := Resized(parity, groups);
      frameIndex, totalPackets, receivedPackets := header.frameIndex, n, 0;
      slots, got, sizes := newSlots, seq(n, _ => false), seq(n, _ => 0);
      parity, parityGot, lastSizes := newParity, seq(groups, _ => false), seq(groups, _ => 0);
      NoneCounted(got);
      assert View() == Fresh(n, newSlots, newParity);
    }

    /** The index is tested against the header's own count; pastEnd tells that it is past the end of the arrays. */
    method StoreDataPacket(d: Datagram) returns (complete: bool, pastEnd: bool)
      requires Buffers() && Counting() && !d.header.fec
      modifies this`got, this`sizes, this`slots, this`receivedPackets
      ensures Buffers() && Counting() && View() == Arrive(old(View()), d)
      ensures pastEnd <==> OutOfRange(old(View()), d)
      ensures complete <==> View() != old(View()) && AllGot(View())
      ensures complete <==> receivedPackets != old(receivedPackets) && receivedPackets == totalPackets
    {
      var index := d.header.packetIndex;
      complete, pastEnd := false, false;
      if index < d.header.totalPackets {
        if index >= totalPackets {
          return false, true;
        }
        if !got[index] {
          complete := StorePacketAt(index, d.payload);
        }
      }
    }

    method StorePacketAt(index: nat, payload: PayloadBytes) returns (complete: bool)
      requires Buffers() && Counting() && index < |got| && !got[index]
      modifies this`got, this`sizes, this`slots, this`receivedPackets
      ensures Buffers() && Counting() && View() == StoreData(old(View()), index, payload) && View() != old(View())
      ensures receivedPackets == old(receivedPackets) + 1
      ensures (complete <==> AllGot(View())) && (complete <==> receivedPackets == totalPackets)
    {
      CountSet(got, index);
      slots := slots[index := payload + slots[index][|payload|..]];
      got := got[index := true];
      sizes := sizes[index := |payload|];
      receivedPackets := receivedPackets + 1;
      complete := receivedPackets == totalPackets;
      CountFull(got);
      assert got[index] && !old(got)[index];
    }

    /** Stores a parity; isNew tells whether it was the first of its group. */
    method StoreParityPacket(d: Datagram) returns (isNew: bool)
      requires Buffers() && Counting() && d.header.fec
      modifies this`parityGot, this`parity, this`lastSizes
      ensures Buffers() && Counting() && View() == Arrive(old(View()), d)
      ensures isNew <==> View() != old(View())
    {
      var group := d.header.packetIndex;
      isNew := group < |parityGot| && !parityGot[group];
      if isNew {
        parity := parity[group := d.payload + parity[group][|d.payload|..]];
        lastSizes := lastSizes[group := d.header.fecGroupLastPacketPayloadSize];
        parityGot := parityGot[group := true];
        assert parityGot[group] && !old(parityGot)[group];
      }
    }

    /** The parity branch: store it, and try to recover when at most one packet is missing. */
    method OnParity(d: Datagram) returns (delivered: Option<seq<byte>>)
      requires Valid() && d.header.fec
      modifies this
      ensures Valid() && frameIndex == old(frameIndex)
      ensures old(totalPackets) == 0 || d.header.frameIndex != old(frameIndex) ==>
                delivered == None && View() == old(View()) && totalPackets == old(totalPackets)
      ensures old(totalPackets) > 0 && d.header.frameIndex == old(frameIndex) ==>
                var q := old(Arrive(View(), d));
                var tries := q != old(View()) && old(receivedPackets) + 1 >= old(totalPackets);
                && View() == (if tries then Recovered(q) else q)
                && delivered == (if tries && RecoveryCompletes(q) then Some(Compacted(View(), |got|)) else None)
                && (totalPackets == 0 <==> delivered.Some?)
    {
      delivered := None;
      if d.header.frameIndex == frameIndex && totalPackets > 0 {
        var isNew := StoreParityPacket(d);
        if isNew && receivedPackets + 1 >= totalPackets {
          delivered := RecoverAndDeliver();
        }
      }
    }

    /** Recovers what it can, and delivers the unit if that completes it. */
    method RecoverAndDeliver() returns (delivered: Option<seq<byte>>)
      requires Valid() && totalPackets > 0
      modifies this
      ensures Valid() && frameIndex == old(frameIndex)
      ensures View() == Recovered(old(View()))
      ensures delivered == if RecoveryCompletes(old(View())) then Some(Compacted(View(), |got|)) else None
      ensures totalPackets == 0 <==> delivered.Some?
    {
      delivered := None;
      CountFull(got);
      ghost var q := View();
      var complete := TryFecRecovery();
      CountFull(got);
      CompletesIff(q);
      if complete {
        var unit := Deliver();
        delivered := Some(unit);
      }
    }

    /**
      One datagram of `unit` while `current` may be pending. A frame index of its own keeps the two apart, and whatever
      is delivered is one of them, byte for byte. A unit that shares the pending one's frame index is taken for it:
      then the buffer is still the pending unit's, and only that unit delivered, if and only if the datagram is
      harmless. Nothing is said of what follows an access past the end.
     */
    method ReassembleFrame(d: Datagram, ghost current: Nal, ghost unit: Nal)
      returns (delivered: Option<seq<byte>>, pastEnd: bool)
      requires Valid() && Holds(current) && PartOf(unit, d)
      modifies this
      ensures Valid() && (delivered.Some? ==> totalPackets == 0)
      ensures pastEnd <==> old(totalPackets) > 0 && old(frameIndex) == unit.frameIndex && OutOfRange(old(View()), d)
      ensures !(old(totalPackets) > 0 && old(frameIndex) == unit.frameIndex) ==>
                Holds(if d.header.fec then current else unit) &&
                (delivered.Some? ==>
                   delivered.value == unit.bytes || (old(totalPackets) > 0 && delivered.value == current.bytes))
      ensures old(totalPackets) > 0 && old(frameIndex) == unit.frameIndex && !pastEnd ==>
                (Tracks(current, View()) <==> old(Harmless(current, View(), d))) &&
                (old(Harmless(current, View(), d)) ==>
                   Holds(current) && (delivered.Some? ==> delivered.value == current.bytes))
    {
      PartsHeader(unit, d);
      if d.header.fec {
        delivered := ReassembleParity(d, current, unit);
        pastEnd := false;
      } else {
        delivered, pastEnd := ReassembleData(d, current, unit);
      }
    }

    method ReassembleParity(d: Datagram, ghost current: Nal, ghost unit: Nal) returns (delivered: Option<seq<byte>>)
      requires Valid() && Holds(current) && Sendable(unit) && IsParityOf(unit, d) && d.header.fec
      requires d.header.frameIndex == unit.frameIndex
      modifies this
      ensures Valid() && (delivered.Some? ==> totalPackets == 0)
      ensures !(old(totalPackets) > 0 && old(frameIndex) == unit.frameIndex) ==> Holds(current) && delivered == None
      ensures old(totalPackets) > 0 && old(frameIndex) == unit.frameIndex ==>
                (Tracks(current, View()) <==> old(Harmless(current, View(), d))) &&
                (old(Harmless(current, View(), d)) ==>
                   Holds(current) && (delivered.Some? ==> delivered.value == current.bytes))
    {
      if totalPackets > 0 {
        TakenForPending(current, View(), unit, d);
      }
      delivered := OnParity(d);
    }

    method ReassembleData(d: Datagram, ghost current: Nal, ghost unit: Nal)
      returns (delivered: Option<seq<byte>>, pastEnd: bool)
      requires Valid() && Holds(current) && Sendable(unit) && IsDataOf(unit, d) && !d.header.fec
      requires d.header.frameIndex == unit.frameIndex
      modifies this
      ensures Valid() && (delivered.Some? ==> totalPackets == 0)
      ensures pastEnd <==> old(totalPackets) > 0 && old(frameIndex) == unit.frameIndex && OutOfRange(old(View()), d)
      ensures !(old(totalPackets) > 0 && old(frameIndex) == unit.frameIndex) ==>
                Holds(unit) &&
                (delivered.Some? ==>
                   delivered.value == unit.bytes || (old(totalPackets) > 0 && delivered.value == current.bytes))
      ensures old(totalPackets) > 0 && old(frameIndex) == unit.frameIndex && !pastEnd ==>
                (Tracks(current, View()) <==> old(Harmless(current, View(), d))) &&
                (old(Harmless(current, View(), d)) ==>
                   Holds(current) && (delivered.Some? ==> delivered.value == current.bytes))
    {
      if totalPackets > 0 {
        DeliveredIsUnit(current, View());
        TakenForPending(current, View(), unit, d);
      }
      delivered, pastEnd := OnData(d);
      FirstOfTracks(unit, View(), d);
    }

    /**
      The data branch. A packet of another frame closes the pending unit: if recovery completes it, it is
      delivered and the packet that closed it is not kept. A unit of no packets leaves nothing pending.
     */
    method OnData(d: Datagram) returns (delivered: Option<seq<byte>>, pastEnd: bool)
      requires Valid() && !d.header.fec
      modifies this
      ensures Valid() && (delivered.Some? ==> totalPackets == 0)
      ensures var before := old(View());
              var same := old(totalPackets) > 0 && d.header.frameIndex == old(frameIndex);
              var rescued := !same && old(totalPackets) > 0 && old(receivedPackets) > 0 && RecoveryCompletes(before);
              && (pastEnd <==> same && OutOfRange(before, d))
              && (same ==> frameIndex == old(frameIndex) && View() == Arrive(before, d))
              && (rescued ==> View() == Recovered(before) && delivered == Some(Compacted(View(), |got|)))
              && (!same && !rescued ==> frameIndex == d.header.frameIndex && FirstOf(View(), d))
              && (!rescued ==> delivered == if |got| > 0 && AllGot(View()) then Some(Compacted(View(), |got|)) else None)
              && (delivered == None ==> totalPackets == if same then old(totalPackets) else d.header.totalPackets)
    {
      if d.header.frameIndex != frameIndex || totalPackets == 0 {
        if totalPackets > 0 && 0 < receivedPackets < totalPackets {
          delivered := RecoverAndDeliver();
          if delivered.Some? {
            return delivered, false;
          }
        }
        StartUnit(d.header);
      }
      delivered, pastEnd := StoreAndDeliver(d);
    }

    method StoreAndDeliver(d: Datagram) returns (delivered: Option<seq<byte>>, pastEnd: bool)
      requires Buffers() && Counting() && (totalPackets > 0 ==> receivedPackets < totalPackets) && !d.header.fec
      modifies this
      ensures Valid() && frameIndex == old(frameIndex) && View() == Arrive(old(View()), d)
      ensures pastEnd <==> OutOfRange(old(View()), d)
      ensures delivered == if |got| > 0 && AllGot(View()) then Some(Compacted(View(), |got|)) else None
      ensures totalPackets == if delivered.Some? then 0 else old(totalPackets)
    {
      CountFull(got);
      var complete;
      complete, pastEnd := StoreDataPacket(d);
      delivered := None;
      if complete {
        var unit := Deliver();
        delivered := Some(unit);
      }
    }
  }

  /** The buffer after a datagram of any unit is taken for the pending unit's, before and after recovery. */
  lemma TakenForPending(current: Nal, p: Pending, unit: Nal, d: Datagram)
    requires Tracks(current, p) && PartOf(unit, d)
    ensures var q := Arrive(p, d);
            && (!OutOfRange(p, d) ==>
                  (Tracks(current, q) <==> Harmless(current, p, d)) &&
                  (Tracks(current, Recovered(q)) <==> Harmless(current, p, d)))
            && (Harmless(current, p, d) && AllGot(q) ==> Compacted(q, |q.got|) == current.bytes)
            && (Harmless(current, p, d) && RecoveryCompletes(q) ==>
                  Compacted(Recovered(q), |q.got|) == current.bytes)
  {
    HarmlessExactly(current, p, unit, d);
    RecoveryTracksExactly(current, p, Arrive(p, d));
    DeliveredIsUnit(current, Arrive(p, d));
  }

  lemma DeliveredIsUnit(nal: Nal, q: Pending)
    ensures Tracks(nal, q) ==>
              && (AllGot(q) ==> Compacted(q, |q.got|) == nal.bytes)
              && (RecoveryCompletes(q) ==> Compacted(Recovered(q), |q.got|) == nal.bytes)
  {
    if Tracks(nal, q) {
      RecoveryTracks(nal, q);
      CompletesIff(q);
      WholeBufferIsUnit(nal, q);
      WholeBufferIsUnit(nal, Recovered(q));
    }
  }

  lemma NothingVisited(p: Pending)
    requires WellShaped(p)
    ensures RecoveredUpTo(p, 0) == p
  {
    var r := RecoveredUpTo(p, 0);
    assert r.got == p.got && r.sizes == p.sizes && r.slots == p.slots;
  }

  /** The test TryFecRecovery ends with. */
  lemma FinalTest(before: Pending, after: Pending)
    requires WellShaped(before) && after == Recovered(before)
    ensures RecoveryCompletes(before) <==> after.got != before.got && CountTrue(after.got) == |after.got|
  {
    CountFull(after.got);
    CompletesIff(before);
  }

  lemma NewlyGot(p: Pending, g: nat, i: nat)
    requires WellShaped(p) && Recoverable(RecoveredUpTo(p, g), i)
    ensures RecoverOne(RecoveredUpTo(p, g), i).got != p.got
  {
    assert !p.got[i] && RecoverOne(RecoveredUpTo(p, g), i).got[i];
  }

  lemma {:induction false} NoneCounted(s: seq<bool>)
    requires forall i :: 0 <= i < |s| ==> !s[i]
    ensures CountTrue(s) == 0
  {
    if s != [] {
      NoneCounted(s[..|s| - 1]);
    }
  }

  /** The buffer of a new unit after its first data packet, over leftover slot contents. */
  ghost predicate FirstOf(r: Pending, d: Datagram) {
    exists slots, parity ::
      && |slots| == d.header.totalPackets && |parity| == GroupCount(d.header.totalPackets)
      && (forall i :: 0 <= i < |slots| ==> |slots[i]| == MAX_PACKET_PAYLOAD)
      && (forall i :: 0 <= i < |parity| ==> |parity[i]| == MAX_PACKET_PAYLOAD)
      && r == Arrive(Fresh(d.header.totalPackets, slots, parity), d)
  }

  lemma FirstOfTracks(nal: Nal, r: Pending, d: Datagram)
    requires Sendable(nal) && IsDataOf(nal, d)
    ensures FirstOf(r, d) ==> Tracks(nal, r) && (AllGot(r) ==> Compacted(r, |r.got|) == nal.bytes)
  {
    if FirstOf(r, d) {
      StartedTracks(nal, r, d);
    }
  }

  lemma PartsHeader(nal: Nal, d: Datagram)
    requires PartOf(nal, d)
    ensures d.header.frameIndex == nal.frameIndex
    ensures if d.header.fec then IsParityOf(nal, d) else IsDataOf(nal, d)
    ensures !d.header.fec ==> d.header.totalPackets == PacketsForSize(|nal.bytes|) > 0
  {
    PacketCountFits(nal);
  }

  lemma StartedTracks(nal: Nal, r: Pending, d: Datagram)
    requires Sendable(nal) && IsDataOf(nal, d) && FirstOf(r, d)
    ensures Tracks(nal, r)
    ensures AllGot(r) ==> Compacted(r, |r.got|) == nal.bytes
  {
    var slots, parity :|
      && |slots| == d.header.totalPackets && |parity| == GroupCount(d.header.totalPackets)
      && (forall i :: 0 <= i < |slots| ==> |slots[i]| == MAX_PACKET_PAYLOAD)
      && (forall i :: 0 <= i < |parity| ==> |parity[i]| == MAX_PACKET_PAYLOAD)
      && r == Arrive(Fresh(d.header.totalPackets, slots, parity), d);
    FreshTracks(nal, slots, parity);
    OwnDatagramTracks(nal, Fresh(TotalPackets(nal), slots, parity), d);
    WholeBufferIsUnit(nal, r);
  }

  /**
    A packet resent for a unit whose buffer has gone to another one starts that unit over: the packet is all it has,
    so it completes no unit but one of a single packet.
   */
  lemma ResentStartsOver(r: Pending, d: Datagram)
    requires FirstOf(r, d) && !d.header.fec && d.header.packetIndex < d.header.totalPackets
    ensures |r.got| == d.header.totalPackets
    ensures forall i :: 0 <= i < |r.got| ==> (r.got[i] <==> i == d.header.packetIndex)
    ensures AllGot(r) <==> d.header.totalPackets == 1
  {
    var count, at := d.header.totalPackets, d.header.packetIndex;
    var slots, parity :|
      && |slots| == d.header.totalPackets && |parity| == GroupCount(d.header.totalPackets)
      && (forall i :: 0 <= i < |slots| ==> |slots[i]| == MAX_PACKET_PAYLOAD)
      && (forall i :: 0 <= i < |parity| ==> |parity[i]| == MAX_PACKET_PAYLOAD)
      && r == Arrive(Fresh(d.header.totalPackets, slots, parity), d);
    if count > 1 {
      assert !r.got[if at == 0 then 1 else 0];
    }
  }

  /** Packet i is the only one missing. */
  ghost predicate OnlyMissing(p: Pending, i: nat) {
    i < |p.got| && !p.got[i] && forall j :: 0 <= j < |p.got| && j != i ==> p.got[j]
  }

  lemma CountOneMissing(s: seq<bool>, i: nat)
    requires i < |s| && !s[i]
    ensures CountTrue(s) + 1 >= |s| <==> forall j :: 0 <= j < |s| && j != i ==> s[j]
  {
    var t := s[i := true];
    CountSet(s, i);
    CountFull(t);
    if forall j :: 0 <= j < |s| && j != i ==> s[j] {
      assert forall j :: 0 <= j < |t| ==> t[j];
    }
    if CountTrue(s) + 1 >= |s| {
      forall j | 0 <= j < |s| && j != i
        ensures s[j]
      {
        assert t[j];
      }
    }
  }

  /**
    When a parity delivers. Recovery is tried with at most one packet missing; so the buffer q that a new parity leaves
    is completed exactly when one packet alone is missing and the parity of its group, that one or an earlier one, is
    there. With recoverable losses in two groups the unit waits for another frame's data packet.
   */
  lemma ParityDeliversExactly(q: Pending)
    requires WellShaped(q)
    ensures CountTrue(q.got) + 1 >= |q.got| && RecoveryCompletes(q) <==>
              exists i: nat :: OnlyMissing(q, i) && q.parityGot[i / FEC_GROUP_SIZE]
  {
    if CountTrue(q.got) + 1 >= |q.got| && RecoveryCompletes(q) {
      var i :| 0 <= i < |q.got| && !q.got[i];
      CountOneMissing(q.got, i);
      assert OnlyMissing(q, i) && Recoverable(q, i);
    }
    if i: nat :| OnlyMissing(q, i) && q.parityGot[i / FEC_GROUP_SIZE] {
      CountOneMissing(q.got, i);
      assert Recoverable(q, i);
    }
  }
}
