/** SendNalUnit on the UDP path and HandleNackRequest, over the shared dispatch state. */
module NalSender {
  import opened Protocol
  import opened FecCodec
  import opened NalPackets
  import opened NackCache

  class PacketDispatch {
    var slots: seq<CachedFrame>
    var writeIndex: nat
    var acceptingPackets: bool
    ghost var phase: Phase
    ghost var history: seq<Nal>

    ghost function View(): Sender
      reads this
    {
      Sender(Cache(slots, writeIndex), phase, history)
    }

    ghost predicate Valid()
      reads this
    {
      Inv(View())
    }

    constructor ()
      ensures Valid() && View() == INITIAL
    {
      slots, writeIndex, acceptingPackets := EMPTY_CACHE.slots, 0, false;
      phase, history := Idle, [];
    }

    /** First critical section: claim the next slot and empty it. */
    method PrepareSlot(nal: Nal) returns (k: nat)
      requires Valid() && phase.Idle? && Admitted(nal)
      modifies this`slots, this`writeIndex, this`phase, this`history
      ensures Valid() && View() == Next(old(View()), Begin(nal))
      ensures k == old(writeIndex) % MAX_CACHED_FRAMES
    {
      k := writeIndex % MAX_CACHED_FRAMES;
      var totalPackets := U16(PacketsForSize(|nal.bytes|));
      var packets := slots[k].packets;
      if |packets| < totalPackets {
        packets := packets + seq(totalPackets - |packets|, _ => None);
      }
      ghost var grown := packets;
      for i := 0 to totalPackets
        invariant |packets| == |grown|
        invariant forall j :: 0 <= j < i ==> packets[j] == None
        invariant forall j :: i <= j < |packets| ==> packets[j] == grown[j]
      {
        packets := packets[i := None];
      }
      assert packets == Cleared(slots[k].packets, totalPackets);
      StepKeepsInv(View(), Begin(nal));
      slots := slots[k := CachedFrame(nal.frameIndex, totalPackets, false, packets)];
      writeIndex := writeIndex + 1;
      phase := Sending(nal, k, 0);
      history := history + [nal];
    }

    /** One critical section per data packet. */
    method StorePacket(k: nat, frameIndex: nat, i: nat, d: Datagram)
      requires Valid() && phase.Sending? && phase.slot == k && phase.nal.frameIndex == frameIndex && phase.next == i
      requires i < TotalPackets(phase.nal) == PacketsForSize(|phase.nal.bytes|) && d == Data(phase.nal, i)
      modifies this`slots, this`phase
      ensures Valid() && View() == Next(old(View()), StoreNext)
    {
      StepKeepsInv(View(), StoreNext);
      if slots[k].frameIndex == frameIndex && i < |slots[k].packets| {
        slots := slots[k := slots[k].(packets := slots[k].packets[i := Some(d)])];
      }
      phase := phase.(next := i + 1);
    }

    /** Last critical section: advertise the unit. */
    method PublishSlot(k: nat, frameIndex: nat)
      requires Valid() && phase.Sending? && phase.slot == k && phase.nal.frameIndex == frameIndex
      requires phase.next == TotalPackets(phase.nal)
      modifies this`slots, this`phase
      ensures Valid() && View() == Next(old(View()), Finish)
    {
      StepKeepsInv(View(), Finish);
      if slots[k].frameIndex == frameIndex {
        slots := slots[k := slots[k].(complete := true)];
      }
      phase := Idle;
    }

    /**
      Sends one unit: the datagrams handed to the socket are the unit's closed-form wire image, and the
      unit is published in the cache. While the dispatch refuses packets nothing happens.
     */
    method SendNalUnit(nal: Nal) returns (wire: seq<Datagram>)
      requires Valid() && phase.Idle? && Admitted(nal)
      modifies this`slots, this`writeIndex, this`phase, this`history
      ensures Valid() && phase.Idle?
      ensures acceptingPackets ==> wire == Wire(nal) && history == old(history) + [nal]
      ensures !acceptingPackets ==> wire == [] && View() == old(View())
    {
      wire := [];
      if !acceptingPackets {
        return;
      }
      PacketCountFits(nal);
      var totalPackets := U16(PacketsForSize(|nal.bytes|));
      var k := PrepareSlot(nal);
      wire := SendPackets(nal, k, totalPackets);
      PublishSlot(k, nal.frameIndex);
    }

    /** The packet loop: every data packet in turn, and a parity after each group. */
    method SendPackets(nal: Nal, k: nat, totalPackets: nat) returns (wire: seq<Datagram>)
      requires Valid() && phase == Sending(nal, k, 0)
      requires totalPackets == TotalPackets(nal) == PacketsForSize(|nal.bytes|)
      modifies this`slots, this`phase
      ensures Valid() && phase == Sending(nal, k, totalPackets)
      ensures wire == Wire(nal)
    {
      wire := [];
      var payloads: seq<seq<byte>> := [];
      var offset := 0;
      for i := 0 to totalPackets
        invariant Valid() && phase == Sending(nal, k, i)
        invariant i < totalPackets ==> offset == i * MAX_PACKET_PAYLOAD
        invariant payloads == Payloads(nal, 0, i)
        invariant wire == WirePrefix(nal, i)
      {
        var packets, payload := SendNext(nal, k, totalPackets, i, offset, payloads);
        payloads := payloads + [payload];
        wire := wire + packets;
        offset := offset + |payload|;
      }
    }

    /** One turn of the packet loop: data packet i, and the parity due after it, if any. */
    method SendNext(nal: Nal, k: nat, totalPackets: nat, i: nat, offset: nat, payloads: seq<seq<byte>>)
      returns (packets: seq<Datagram>, payload: seq<byte>)
      requires Valid() && phase == Sending(nal, k, i)
      requires i < totalPackets == TotalPackets(nal) == PacketsForSize(|nal.bytes|)
      requires offset == i * MAX_PACKET_PAYLOAD && payloads == Payloads(nal, 0, i)
      modifies this`slots, this`phase
      ensures Valid() && phase == Sending(nal, k, i + 1)
      ensures payloads + [payload] == Payloads(nal, 0, i + 1)
      ensures i + 1 < totalPackets ==> |payload| == MAX_PACKET_PAYLOAD
      ensures WirePrefix(nal, i) + packets == WirePrefix(nal, i + 1)
    {
      var packet := SendData(nal, k, totalPackets, i, offset);
      payload := packet.payload;
      PayloadsSnoc(nal, i);
      var parity := SendParityIfDue(nal, totalPackets, payloads + [payload], i + 1);
      packets := [packet] + parity;
      assert WirePrefix(nal, i) + packets == WirePrefix(nal, i) + [packet] + parity;
    }

    /** After a full group, and at the end of the unit, one parity datagram. */
    method SendParityIfDue(nal: Nal, totalPackets: nat, payloads: seq<seq<byte>>, next: nat)
      returns (parity: seq<Datagram>)
      requires totalPackets == TotalPackets(nal) == PacketsForSize(|nal.bytes|)
      requires 0 < next <= totalPackets && payloads == Payloads(nal, 0, next)
      ensures parity == ParityAfter(nal, next)
    {
      parity := [];
      if next % FEC_GROUP_SIZE == 0 || next == totalPackets {
        var p := SendParity(nal, totalPackets, payloads, (next - 1) / FEC_GROUP_SIZE, next);
        parity := [p];
      }
    }

    /** Data packet i, cut from the unit at the running offset and copied to the cache. */
    method SendData(nal: Nal, k: nat, totalPackets: nat, i: nat, offset: nat) returns (packet: Datagram)
      requires Valid() && phase == Sending(nal, k, i)
      requires i < totalPackets == TotalPackets(nal) == PacketsForSize(|nal.bytes|)
      requires offset == i * MAX_PACKET_PAYLOAD
      modifies this`slots, this`phase
      ensures Valid() && phase == Sending(nal, k, i + 1)
      ensures packet == Data(nal, i) && packet.payload == Payload(nal, i)
      ensures i + 1 < totalPackets ==> |packet.payload| == MAX_PACKET_PAYLOAD
    {
      var payloadSize := if |nal.bytes| - offset < MAX_PACKET_PAYLOAD then |nal.bytes| - offset
                         else MAX_PACKET_PAYLOAD;
      var payload := nal.bytes[offset..offset + payloadSize];
      var header := VideoHeader(nal.frameIndex, i, totalPackets, U16(payloadSize), false, nal.keyframe,
                                i == totalPackets - 1, nal.alphaBlend, nal.packedAlpha, nal.codec, 0,
                                nal.timestampNs);
      packet := Datagram(header, payload);
      StorePacket(k, nal.frameIndex, i, packet);
    }

    /** The parity datagram of the group that ends before packet `end`. */
    method SendParity(nal: Nal, totalPackets: nat, payloads: seq<seq<byte>>, group: nat, end: nat)
      returns (parity: Datagram)
      requires totalPackets == TotalPackets(nal) == PacketsForSize(|nal.bytes|)
      requires group < GroupCount(totalPackets) && end == GroupRange(group, totalPackets).1 == |payloads|
      requires payloads == Payloads(nal, 0, end)
      ensures parity == ParityOf(nal, group)
    {
      var groupStart := group * FEC_GROUP_SIZE;
      var buffer := new byte[MAX_PACKET_PAYLOAD];
      var groupPayloads := payloads[groupStart..end];
      assert groupPayloads == GroupPayloads(nal, group);
      forall j | 0 <= j < |groupPayloads|
        ensures |groupPayloads[j]| <= MAX_PACKET_PAYLOAD
      {
        PayloadShape(nal, groupStart + j);
      }
      Encode(groupPayloads, buffer);
      assert buffer[..] == buffer[..MAX_PACKET_PAYLOAD];
      var header := VideoHeader(nal.frameIndex, U16(group), totalPackets, MAX_PACKET_PAYLOAD, true, nal.keyframe,
                                false, nal.alphaBlend, nal.packedAlpha, nal.codec,
                                U16(|payloads[groupStart + (end - groupStart) - 1]|), nal.timestampNs);
      parity := Datagram(header, buffer[..]);
    }

    /** The packets a retransmission request is answered with; it changes nothing. */
    method HandleNackRequest(req: NackRequest) returns (packets: seq<Datagram>)
      requires Valid() && ValidRequest(req)
      ensures packets == if acceptingPackets then Reply(View().cache, req) else []
      ensures AnswersFromOneUnit(View(), req, packets)
    {
      packets := [];
      if !acceptingPackets {
        return;
      }
      ReplyFromInv(View(), req);
      var k := FindSlot(req);
      if k < MAX_CACHED_FRAMES {
        packets := CopyRequested(slots[k], req);
      }
    }

    method FindSlot(req: NackRequest) returns (k: nat)
      requires |slots| == MAX_CACHED_FRAMES
      ensures FirstMatch(slots, req, 0) == if k < MAX_CACHED_FRAMES then Some(k) else None
    {
      k := 0;
      while k < MAX_CACHED_FRAMES && !Matches(slots[k], req)
        invariant k <= MAX_CACHED_FRAMES
        invariant FirstMatch(slots, req, 0) == FirstMatch(slots, req, k)
      {
        k := k + 1;
      }
    }

    static method CopyRequested(cached: CachedFrame, req: NackRequest) returns (packets: seq<Datagram>)
      requires ValidRequest(req)
      ensures packets == Selected(cached, req, |req.missing|)
    {
      packets := [];
      for bit := 0 to BITMASK_BITS
        invariant packets == Selected(cached, req, bit)
      {
        if req.missing[bit] {
          var index := req.packetIndexStart + bit;
          if index < cached.packetCount && index < |cached.packets| && cached.packets[index].Some? {
            packets := packets + [cached.packets[index].value];
          }
        }
      }
    }
  }
}
