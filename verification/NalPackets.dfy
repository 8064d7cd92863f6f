/** How SendNalUnit cuts one encoded NAL unit into data and parity datagrams. */
module NalPackets {
  import opened Protocol
  import opened FecCodec

  datatype Nal = Nal(
    frameIndex: nat,
    bytes: seq<byte>,
    keyframe: bool,
    alphaBlend: bool,
    packedAlpha: bool,
    codec: nat,
    timestampNs: int)

  /** A NAL unit the encoder callback lets through. */
  predicate Admitted(nal: Nal) {
    |nal.bytes| <= MAX_NAL_BYTES
  }

  /** ceil(size / MAX_PACKET_PAYLOAD), before the cast to 16 bits. */
  function PacketsForSize(size: nat): nat {
    (size + MAX_PACKET_PAYLOAD - 1) / MAX_PACKET_PAYLOAD
  }

  /** The header field: the packet count cast to uint16. */
  function TotalPackets(nal: Nal): nat {
    U16(PacketsForSize(|nal.bytes|))
  }

  function PayloadEnd(nal: Nal, i: nat): nat {
    if (i + 1) * MAX_PACKET_PAYLOAD < |nal.bytes| then (i + 1) * MAX_PACKET_PAYLOAD else |nal.bytes|
  }

  /** The bytes of data packet i. */
  function Payload(nal: Nal, i: nat): (p: seq<byte>)
    requires i * MAX_PACKET_PAYLOAD <= |nal.bytes|
  {
    nal.bytes[i * MAX_PACKET_PAYLOAD..PayloadEnd(nal, i)]
  }

  function Payloads(nal: Nal, start: nat, end: nat): (ps: seq<seq<byte>>)
    requires start <= end <= PacketsForSize(|nal.bytes|)
  {
    seq(end - start, k requires 0 <= k < end - start => Payload(nal, start + k))
  }

  lemma PayloadsSnoc(nal: Nal, i: nat)
    requires i < PacketsForSize(|nal.bytes|)
    ensures Payloads(nal, 0, i) + [Payload(nal, i)] == Payloads(nal, 0, i + 1)
  {
  }

  function Data(nal: Nal, i: nat): Datagram
    requires i < PacketsForSize(|nal.bytes|)
  {
    Datagram(VideoHeader(nal.frameIndex, i, TotalPackets(nal), U16(|Payload(nal, i)|), false, nal.keyframe,
                         i == TotalPackets(nal) - 1, nal.alphaBlend, nal.packedAlpha, nal.codec, 0, nal.timestampNs),
             Payload(nal, i))
  }

  function GroupPayloads(nal: Nal, g: nat): seq<seq<byte>>
    requires g < GroupCount(PacketsForSize(|nal.bytes|))
  {
    var (start, end) := GroupRange(g, PacketsForSize(|nal.bytes|));
    Payloads(nal, start, end)
  }

  function ParityOf(nal: Nal, g: nat): Datagram
    requires g < GroupCount(PacketsForSize(|nal.bytes|))
  {
    var ps := GroupPayloads(nal, g);
    Datagram(VideoHeader(nal.frameIndex, U16(g), TotalPackets(nal), MAX_PACKET_PAYLOAD, true, nal.keyframe, false,
                         nal.alphaBlend, nal.packedAlpha, nal.codec, U16(|ps[|ps| - 1]|), nal.timestampNs),
             Parity(ps))
  }

  /** What goes out after data packet i - 1: its parity, when it closes a group or the unit. */
  function ParityAfter(nal: Nal, i: nat): seq<Datagram>
    requires 0 < i <= PacketsForSize(|nal.bytes|)
  {
    if i % FEC_GROUP_SIZE == 0 || i == PacketsForSize(|nal.bytes|) then [ParityOf(nal, (i - 1) / FEC_GROUP_SIZE)]
    else []
  }

  /** Everything on the wire up to and including data packet i - 1 and its parity. */
  function WirePrefix(nal: Nal, i: nat): seq<Datagram>
    requires i <= PacketsForSize(|nal.bytes|)
  {
    if i == 0 then [] else WirePrefix(nal, i - 1) + [Data(nal, i - 1)] + ParityAfter(nal, i)
  }

  function Wire(nal: Nal): seq<Datagram> {
    WirePrefix(nal, PacketsForSize(|nal.bytes|))
  }

  /** The cast to uint16 is exact precisely up to 65535 full packets, far above the enforced limit. */
  lemma PacketCountFits(nal: Nal)
    ensures TotalPackets(nal) == PacketsForSize(|nal.bytes|) <==> |nal.bytes| <= 65535 * MAX_PACKET_PAYLOAD
    ensures Admitted(nal) ==> TotalPackets(nal) == PacketsForSize(|nal.bytes|)
  {
  }

  /** Every payload but the last is full, the last is not empty, and they tile the unit. */
  lemma PayloadShape(nal: Nal, i: nat)
    requires i < PacketsForSize(|nal.bytes|)
    ensures 0 < |Payload(nal, i)| <= MAX_PACKET_PAYLOAD
    ensures i + 1 < PacketsForSize(|nal.bytes|) ==> |Payload(nal, i)| == MAX_PACKET_PAYLOAD
    ensures i + 1 == PacketsForSize(|nal.bytes|) ==> PayloadEnd(nal, i) == |nal.bytes|
    ensures U16(|Payload(nal, i)|) == |Payload(nal, i)|
  {
  }

  /** Parity datagrams sent by the time data packet i - 1 is out. */
  function ParitiesBy(nal: Nal, i: nat): nat {
    if i == PacketsForSize(|nal.bytes|) then GroupCount(i) else i / FEC_GROUP_SIZE
  }

  lemma {:induction false} WireLength(nal: Nal, i: nat)
    requires i <= PacketsForSize(|nal.bytes|)
    ensures |WirePrefix(nal, i)| == i + ParitiesBy(nal, i)
  {
    if i > 0 {
      WireLength(nal, i - 1);
    }
  }

  lemma {:induction false} WireGrows(nal: Nal, i: nat, j: nat)
    requires i <= j <= PacketsForSize(|nal.bytes|)
    ensures WirePrefix(nal, i) <= WirePrefix(nal, j)
  {
    if i < j {
      WireGrows(nal, i, j - 1);
    }
  }

  predicate At(wire: seq<Datagram>, k: nat, d: Datagram) {
    k < |wire| && wire[k] == d
  }

  /** Data packet k is datagram k + k / 10. */
  lemma DataPosition(nal: Nal, k: nat)
    requires k < PacketsForSize(|nal.bytes|)
    ensures At(Wire(nal), k + k / FEC_GROUP_SIZE, Data(nal, k))
  {
    WireLength(nal, k);
    WireGrows(nal, k + 1, PacketsForSize(|nal.bytes|));
  }

  /** A group ends where its parity is due. */
  lemma GroupEnd(n: nat, g: nat)
    requires g < GroupCount(n)
    ensures var end := GroupRange(g, n).1;
            && 0 < end <= n && (end - 1) / FEC_GROUP_SIZE == g && (end % FEC_GROUP_SIZE == 0 || end == n)
  {
  }

  lemma ParityDue(nal: Nal, g: nat, end: nat)
    requires 0 < end <= PacketsForSize(|nal.bytes|) && (end - 1) / FEC_GROUP_SIZE == g
    requires end % FEC_GROUP_SIZE == 0 || end == PacketsForSize(|nal.bytes|)
    ensures g < GroupCount(PacketsForSize(|nal.bytes|)) && ParitiesBy(nal, end - 1) == g
    ensures WirePrefix(nal, end) == WirePrefix(nal, end - 1) + [Data(nal, end - 1)] + [ParityOf(nal, g)]
  {
  }

  lemma AfterPrefix(before: seq<Datagram>, d: Datagram, e: Datagram, wire: seq<Datagram>)
    requires before + [d] + [e] <= wire
    ensures At(wire, |before| + 1, e)
  {
    assert (before + [d] + [e])[|before| + 1] == e;
  }

  lemma ParityLast(nal: Nal, g: nat, end: nat)
    requires 0 < end <= PacketsForSize(|nal.bytes|) && (end - 1) / FEC_GROUP_SIZE == g
    requires end % FEC_GROUP_SIZE == 0 || end == PacketsForSize(|nal.bytes|)
    ensures g < GroupCount(PacketsForSize(|nal.bytes|)) && At(WirePrefix(nal, end), end + g, ParityOf(nal, g))
  {
    WireLength(nal, end - 1);
    ParityDue(nal, g, end);
    AfterPrefix(WirePrefix(nal, end - 1), Data(nal, end - 1), ParityOf(nal, g), WirePrefix(nal, end));
  }

  lemma StaysAt(wire: seq<Datagram>, longer: seq<Datagram>, k: nat, d: Datagram)
    requires At(wire, k, d) && wire <= longer
    ensures At(longer, k, d)
  {
  }

  /** The parity of group g comes right after the group's last data packet. */
  lemma ParityPosition(nal: Nal, g: nat)
    requires g < GroupCount(PacketsForSize(|nal.bytes|))
    ensures At(Wire(nal), GroupRange(g, PacketsForSize(|nal.bytes|)).1 + g, ParityOf(nal, g))
  {
    var n := PacketsForSize(|nal.bytes|);
    var end := GroupRange(g, n).1;
    GroupEnd(n, g);
    ParityLast(nal, g, end);
    WireGrows(nal, end, n);
    StaysAt(WirePrefix(nal, end), WirePrefix(nal, n), end + g, ParityOf(nal, g));
  }

  ghost predicate IsDataOf(nal: Nal, d: Datagram) {
    exists i: nat :: i < PacketsForSize(|nal.bytes|) && d == Data(nal, i)
  }

  ghost predicate IsParityOf(nal: Nal, d: Datagram) {
    exists g: nat :: g < GroupCount(PacketsForSize(|nal.bytes|)) && d == ParityOf(nal, g)
  }

  /** Nothing is sent but the unit's data packets and parities. */
  lemma {:induction false} WireMembers(nal: Nal, i: nat, d: Datagram)
    requires i <= PacketsForSize(|nal.bytes|) && d in WirePrefix(nal, i)
    ensures IsDataOf(nal, d) || IsParityOf(nal, d)
  {
    if d in WirePrefix(nal, i - 1) {
      WireMembers(nal, i - 1, d);
    } else if d == Data(nal, i - 1) {
    } else {
      assert d == ParityOf(nal, (i - 1) / FEC_GROUP_SIZE);
    }
  }

  /** The fields every datagram of the unit carries. */
  predicate Carries(h: VideoHeader, nal: Nal) {
    && h.frameIndex == nal.frameIndex && h.keyframe == nal.keyframe
    && h.alphaBlend == nal.alphaBlend && h.packedAlpha == nal.packedAlpha
    && h.codec == nal.codec && h.presentationTimeNs == nal.timestampNs
  }

  /**
    What the header of a datagram on the wire says: the unit's own fields, its packet count, the exact size of the
    payload, and the end-of-frame flag on the unit's last data packet and nowhere else. A parity has the full size and
    tells the size of its group's last packet.
   */
  lemma HeadersExactly(nal: Nal, d: Datagram)
    requires Admitted(nal) && d in Wire(nal)
    ensures var h, n := d.header, PacketsForSize(|nal.bytes|);
            && Carries(h, nal) && h.totalPackets == n && h.payloadSize == |d.payload| <= MAX_PACKET_PAYLOAD
            && (h.endOfFrame <==> !h.fec && h.packetIndex + 1 == n)
            && (!h.fec ==> h.packetIndex < n && d == Data(nal, h.packetIndex) && h.fecGroupLastPacketPayloadSize == 0)
            && (h.fec ==>
                  var g := h.packetIndex;
                  && g < GroupCount(n) && h.payloadSize == MAX_PACKET_PAYLOAD
                  && h.fecGroupLastPacketPayloadSize == |Payload(nal, GroupRange(g, n).1 - 1)|)
  {
    PacketCountFits(nal);
    WireMembers(nal, PacketsForSize(|nal.bytes|), d);
    if IsDataOf(nal, d) {
      var i: nat :| i < PacketsForSize(|nal.bytes|) && d == Data(nal, i);
      PayloadShape(nal, i);
    } else {
      var g: nat :| g < GroupCount(PacketsForSize(|nal.bytes|)) && d == ParityOf(nal, g);
      ParityHeader(nal, g);
    }
  }

  lemma ParityHeader(nal: Nal, g: nat)
    requires Admitted(nal) && g < GroupCount(PacketsForSize(|nal.bytes|))
    ensures var h, n := ParityOf(nal, g).header, PacketsForSize(|nal.bytes|);
            && h.packetIndex == g && |ParityOf(nal, g).payload| == MAX_PACKET_PAYLOAD
            && h.fecGroupLastPacketPayloadSize == |Payload(nal, GroupRange(g, n).1 - 1)|
  {
    var n := PacketsForSize(|nal.bytes|);
    var (start, end) := GroupRange(g, n);
    PacketCountFits(nal);
    PayloadShape(nal, end - 1);
    var ps := GroupPayloads(nal, g);
    assert ps[|ps| - 1] == Payload(nal, end - 1);
  }

  /** For every admitted unit the whole wire image: count, place of every packet, and exact header counts. */
  lemma WireClosedForm(nal: Nal)
    requires Admitted(nal)
    ensures var n := TotalPackets(nal);
            && n == PacketsForSize(|nal.bytes|)
            && |Wire(nal)| == n + GroupCount(n)
            && (forall i: nat :: i < n ==> At(Wire(nal), i + i / FEC_GROUP_SIZE, Data(nal, i)))
            && (forall g: nat :: g < GroupCount(n) ==> At(Wire(nal), GroupRange(g, n).1 + g, ParityOf(nal, g)))
  {
    PacketCountFits(nal);
    WireLength(nal, PacketsForSize(|nal.bytes|));
    EveryDataPosition(nal, PacketsForSize(|nal.bytes|));
    EveryParityPosition(nal, PacketsForSize(|nal.bytes|));
  }

  lemma EveryDataPosition(nal: Nal, n: nat)
    requires n == PacketsForSize(|nal.bytes|)
    ensures forall i: nat :: i < n ==> At(Wire(nal), i + i / FEC_GROUP_SIZE, Data(nal, i))
  {
    forall i: nat | i < n
      ensures At(Wire(nal), i + i / FEC_GROUP_SIZE, Data(nal, i))
    {
      DataPosition(nal, i);
    }
  }

  lemma EveryParityPosition(nal: Nal, n: nat)
    requires n == PacketsForSize(|nal.bytes|)
    ensures forall g: nat :: g < GroupCount(n) ==> At(Wire(nal), GroupRange(g, n).1 + g, ParityOf(nal, g))
  {
    forall g: nat | g < GroupCount(n)
      ensures At(Wire(nal), GroupRange(g, n).1 + g, ParityOf(nal, g))
    {
      ParityPosition(nal, g);
    }
  }
}
