/** The headset's UDP reassembly (NetworkReceiver.cpp): slots per packet, XOR recovery per group, compaction. */
module NalReassembler {
  import opened Protocol
  import opened FecCodec
  import opened NalPackets

  function CountTrue(s: seq<bool>): (n: nat)
    ensures n <= |s|
  {
    if s == [] then 0 else CountTrue(s[..|s| - 1]) + if s[|s| - 1] then 1 else 0
  }

  lemma {:induction false} CountSet(s: seq<bool>, i: nat)
    requires i < |s| && !s[i]
    ensures CountTrue(s[i := true]) == CountTrue(s) + 1
  {
    var t := s[i := true];
    if i == |s| - 1 {
      assert t[..|s| - 1] == s[..|s| - 1];
    } else {
      CountSet(s[..|s| - 1], i);
      assert t[..|s| - 1] == s[..|s| - 1][i := true];
    }
  }

  lemma {:induction false} CountFull(s: seq<bool>)
    ensures CountTrue(s) == |s| <==> forall i :: 0 <= i < |s| ==> s[i]
  {
    if s != [] {
      CountFull(s[..|s| - 1]);
      assert forall i :: 0 <= i < |s| - 1 ==> s[i] == s[..|s| - 1][i];
    }
  }

  /** The reassembly buffer of one unit; slots keep whatever an earlier unit left in them. */
  datatype Pending = Pending(
    got: seq<bool>,
    sizes: seq<nat>,
    slots: seq<seq<byte>>,
    parityGot: seq<bool>,
    parity: seq<seq<byte>>,
    lastSizes: seq<nat>)

  predicate WellShaped(p: Pending) {
    && |p.got| == |p.sizes| == |p.slots|
    && |p.parityGot| == |p.parity| == |p.lastSizes| == GroupCount(|p.got|)
    && (forall i :: 0 <= i < |p.slots| ==> |p.slots[i]| == MAX_PACKET_PAYLOAD)
    && (forall i :: 0 <= i < |p.sizes| ==> p.sizes[i] <= MAX_PACKET_PAYLOAD)
    && (forall g :: 0 <= g < |p.parity| ==> |p.parity[g]| == MAX_PACKET_PAYLOAD)
  }

  function SlotBytes(p: Pending, i: nat): seq<byte>
    requires WellShaped(p) && i < |p.got|
  {
    p.slots[i][..p.sizes[i]]
  }

  // ---- storing one datagram ----

  function StoreData(p: Pending, i: nat, payload: PayloadBytes): (r: Pending)
    requires WellShaped(p)
    ensures WellShaped(r) && |r.got| == |p.got|
  {
    if i < |p.got| && !p.got[i] then
      p.(got := p.got[i := true], sizes := p.sizes[i := |payload|],
         slots := p.slots[i := payload + p.slots[i][|payload|..]])
    else p
  }

  function StoreParity(p: Pending, g: nat, payload: PayloadBytes, lastSize: nat): (r: Pending)
    requires WellShaped(p)
    ensures WellShaped(r) && |r.got| == |p.got|
  {
    if g < |p.parityGot| && !p.parityGot[g] then
      p.(parityGot := p.parityGot[g := true], lastSizes := p.lastSizes[g := lastSize],
         parity := p.parity[g := payload + p.parity[g][|payload|..]])
    else p
  }

  /**
    The index of a data packet is tested against the count in its own header, then used on arrays as long as the
    pending unit's count. Past their end the source has no defined result.
   */
  predicate OutOfRange(p: Pending, d: Datagram) {
    !d.header.fec && |p.got| <= d.header.packetIndex < d.header.totalPackets
  }

  /** One datagram taken for the pending unit's own; where it is out of range the model stops. */
  function Arrive(p: Pending, d: Datagram): (r: Pending)
    requires WellShaped(p)
    ensures WellShaped(r) && |r.got| == |p.got|
  {
    if d.header.fec then StoreParity(p, d.header.packetIndex, d.payload, d.header.fecGroupLastPacketPayloadSize)
    else if d.header.packetIndex < d.header.totalPackets then StoreData(p, d.header.packetIndex, d.payload)
    else p
  }

  // ---- recovery ----

  /** Packet i is missing, the rest of its group is there, and so is the group's parity. */
  predicate Recoverable(p: Pending, i: nat)
    requires WellShaped(p)
  {
    && i < |p.got| && !p.got[i]
    && p.parityGot[i / FEC_GROUP_SIZE]
    && var (start, end) := GroupRange(i / FEC_GROUP_SIZE, |p.got|);
       forall j :: start <= j < end && j != i ==> p.got[j]
  }

  /** The bytes of the group's packets other than i, in index order. */
  function Others(p: Pending, i: nat): seq<seq<byte>>
    requires WellShaped(p) && i < |p.got|
  {
    var (start, end) := GroupRange(i / FEC_GROUP_SIZE, |p.got|);
    seq(end - start - 1, k requires 0 <= k < end - start - 1 =>
      SlotBytes(p, if start + k < i then start + k else start + k + 1))
  }

  function RecoveredSlot(p: Pending, i: nat): (s: seq<byte>)
    requires WellShaped(p) && i < |p.got|
    ensures |s| == MAX_PACKET_PAYLOAD
  {
    seq(MAX_PACKET_PAYLOAD, j requires 0 <= j < MAX_PACKET_PAYLOAD =>
      p.parity[i / FEC_GROUP_SIZE][j] ^ Column(Others(p, i), j))
  }

  function RecoveredSize(p: Pending, i: nat): (n: nat)
    requires WellShaped(p) && i < |p.got|
    ensures n <= MAX_PACKET_PAYLOAD
  {
    var last := p.lastSizes[i / FEC_GROUP_SIZE];
    if i == GroupRange(i / FEC_GROUP_SIZE, |p.got|).1 - 1 && 0 < last <= MAX_PACKET_PAYLOAD then last
    else MAX_PACKET_PAYLOAD
  }

  /** The buffer after recovery has visited the first `groups` groups. */
  function RecoveredUpTo(p: Pending, groups: nat): (r: Pending)
    requires WellShaped(p)
    ensures WellShaped(r) && |r.got| == |p.got|
  {
    p.(got := seq(|p.got|, i requires 0 <= i < |p.got| =>
                p.got[i] || (i / FEC_GROUP_SIZE < groups && Recoverable(p, i))),
       sizes := seq(|p.got|, i requires 0 <= i < |p.got| =>
                  if i / FEC_GROUP_SIZE < groups && Recoverable(p, i) then RecoveredSize(p, i) else p.sizes[i]),
       slots := seq(|p.got|, i requires 0 <= i < |p.got| =>
                  if i / FEC_GROUP_SIZE < groups && Recoverable(p, i) then RecoveredSlot(p, i) else p.slots[i]))
  }

  /** One packet put back. */
  function RecoverOne(p: Pending, i: nat): (r: Pending)
    requires WellShaped(p) && i < |p.got|
    ensures WellShaped(r) && |r.got| == |p.got|
  {
    p.(got := p.got[i := true], sizes := p.sizes[i := RecoveredSize(p, i)], slots := p.slots[i := RecoveredSlot(p, i)])
  }

  /** Visiting the groups before g leaves group g, and what can be recovered there, as it was. */
  lemma LaterGroupUntouched(p: Pending, g: nat, i: nat)
    requires WellShaped(p) && i < |p.got| && i / FEC_GROUP_SIZE == g
    ensures var q := RecoveredUpTo(p, g);
            && Recoverable(q, i) == Recoverable(p, i)
            && RecoveredSize(q, i) == RecoveredSize(p, i)
            && Others(q, i) == Others(p, i) && RecoveredSlot(q, i) == RecoveredSlot(p, i)
  {
    var q := RecoveredUpTo(p, g);
    var (start, end) := GroupRange(g, |p.got|);
    forall j | start <= j < end
      ensures q.got[j] == p.got[j] && SlotBytes(q, j) == SlotBytes(p, j)
    {
      assert j / FEC_GROUP_SIZE == g;
    }
    assert Others(q, i) == Others(p, i);
    assert RecoveredSlot(q, i) == RecoveredSlot(p, i);
  }

  lemma OneRecoverablePerGroup(p: Pending, i: nat, j: nat)
    requires WellShaped(p) && Recoverable(p, i) && Recoverable(p, j) && i / FEC_GROUP_SIZE == j / FEC_GROUP_SIZE
    ensures i == j
  {
  }

  lemma VisitRecovers(p: Pending, g: nat, i: nat)
    requires WellShaped(p) && i < |p.got| && i / FEC_GROUP_SIZE == g && Recoverable(RecoveredUpTo(p, g), i)
    ensures RecoveredUpTo(p, g + 1) == RecoverOne(RecoveredUpTo(p, g), i)
  {
    LaterGroupUntouched(p, g, i);
    var a := RecoveredUpTo(p, g + 1);
    var b := RecoverOne(RecoveredUpTo(p, g), i);
    forall j: nat | j < |p.got|
      ensures a.got[j] == b.got[j] && a.sizes[j] == b.sizes[j] && a.slots[j] == b.slots[j]
    {
      if j / FEC_GROUP_SIZE == g && Recoverable(p, j) {
        OneRecoverablePerGroup(p, i, j);
      }
    }
  }

  lemma VisitLeaves(p: Pending, g: nat)
    requires WellShaped(p)
    requires forall i: nat :: i < |p.got| && i / FEC_GROUP_SIZE == g ==> !Recoverable(RecoveredUpTo(p, g), i)
    ensures RecoveredUpTo(p, g + 1) == RecoveredUpTo(p, g)
  {
    var a := RecoveredUpTo(p, g + 1);
    var b := RecoveredUpTo(p, g);
    forall j: nat | j < |p.got|
      ensures a.got[j] == b.got[j] && a.sizes[j] == b.sizes[j] && a.slots[j] == b.slots[j]
    {
      if j / FEC_GROUP_SIZE == g {
        LaterGroupUntouched(p, g, j);
      }
    }
  }

  function Recovered(p: Pending): Pending
    requires WellShaped(p)
  {
    RecoveredUpTo(p, |p.parityGot|)
  }

  predicate AllGot(p: Pending) {
    forall i :: 0 <= i < |p.got| ==> p.got[i]
  }

  /** At least one packet is missing and every missing packet is recoverable. */
  predicate RecoveryCompletes(p: Pending)
    requires WellShaped(p)
  {
    !AllGot(p) && forall i :: 0 <= i < |p.got| && !p.got[i] ==> Recoverable(p, i)
  }

  /** Something came back and nothing is missing any more: the test TryFecRecovery ends with. */
  lemma CompletesIff(p: Pending)
    requires WellShaped(p)
    ensures RecoveryCompletes(p) <==> Recovered(p).got != p.got && AllGot(Recovered(p))
  {
    var r := Recovered(p);
    forall i: nat | i < |p.got|
      ensures r.got[i] == (p.got[i] || Recoverable(p, i))
    {
      RecoveredGot(p, i);
    }
    if AllGot(p) {
      assert r.got == p.got;
    } else {
      var i :| 0 <= i < |p.got| && !p.got[i];
      assert AllGot(r) ==> r.got[i];
    }
  }

  lemma RecoveredGot(p: Pending, i: nat)
    requires WellShaped(p) && i < |p.got|
    ensures Recovered(p).got[i] == (p.got[i] || Recoverable(p, i))
  {
    assert i / FEC_GROUP_SIZE < |p.parityGot|;
  }

  // ---- delivery ----

  function Compacted(p: Pending, n: nat): seq<byte>
    requires WellShaped(p) && n <= |p.got|
  {
    if n == 0 then [] else Compacted(p, n - 1) + SlotBytes(p, n - 1)
  }

  // ---- the buffer against the unit that was sent ----

  /** The buffer a unit starts with: nothing received, slots as the previous unit left them. */
  function Fresh(totalPackets: nat, slots: seq<seq<byte>>, parity: seq<seq<byte>>): (r: Pending)
    requires |slots| == totalPackets && |parity| == GroupCount(totalPackets)
    requires forall i :: 0 <= i < |slots| ==> |slots[i]| == MAX_PACKET_PAYLOAD
    requires forall i :: 0 <= i < |parity| ==> |parity[i]| == MAX_PACKET_PAYLOAD
    ensures WellShaped(r)
  {
    Pending(seq(totalPackets, _ => false), seq(totalPackets, _ => 0), slots,
            seq(|parity|, _ => false), parity, seq(|parity|, _ => 0))
  }

  ghost predicate Sendable(nal: Nal) {
    Admitted(nal) && nal.bytes != []
  }

  /** Every part that counts as received is the unit's own. */
  ghost predicate Tracks(nal: Nal, p: Pending) {
    && Sendable(nal) && WellShaped(p)
    && |p.got| == PacketsForSize(|nal.bytes|)
    && (forall i: nat :: i < |p.got| && p.got[i] ==> SlotBytes(p, i) == Payload(nal, i))
    && (forall g: nat :: g < |p.parityGot| && p.parityGot[g] ==>
          p.parity[g] == ParityOf(nal, g).payload &&
          p.lastSizes[g] == ParityOf(nal, g).header.fecGroupLastPacketPayloadSize)
  }

  lemma ArriveData(nal: Nal, p: Pending, i: nat)
    requires Tracks(nal, p) && i < PacketsForSize(|nal.bytes|)
    ensures var r := Arrive(p, Data(nal, i));
            Tracks(nal, r) && r.got == p.got[i := true] && r.parityGot == p.parityGot
  {
    PayloadShape(nal, i);
    PacketCountFits(nal);
    var r := Arrive(p, Data(nal, i));
    forall k: nat | k < |r.got| && r.got[k]
      ensures SlotBytes(r, k) == Payload(nal, k)
    {
      if k == i && !p.got[i] {
        assert SlotBytes(r, k) == Payload(nal, i);
      } else {
        assert SlotBytes(r, k) == SlotBytes(p, k);
      }
    }
  }

  lemma ArriveParity(nal: Nal, p: Pending, g: nat)
    requires Tracks(nal, p) && g < GroupCount(PacketsForSize(|nal.bytes|))
    ensures var r := Arrive(p, ParityOf(nal, g));
            Tracks(nal, r) && r.parityGot == p.parityGot[g := true] && r.got == p.got
  {
    var d := ParityOf(nal, g);
    var r := Arrive(p, d);
    assert d.header.fec && d.header.packetIndex == g;
    if !p.parityGot[g] {
      assert d.payload + p.parity[g][|d.payload|..] == d.payload;
    }
    forall k: nat | k < |r.got| && r.got[k]
      ensures SlotBytes(r, k) == Payload(nal, k)
    {
      assert SlotBytes(r, k) == SlotBytes(p, k);
    }
  }

  /** Any order, with duplicates and losses: the buffer knows exactly what arrived. */
  function ArriveAll(p: Pending, arrivals: seq<Datagram>): (r: Pending)
    requires WellShaped(p)
    ensures WellShaped(r) && |r.got| == |p.got|
  {
    if arrivals == [] then p else Arrive(ArriveAll(p, arrivals[..|arrivals| - 1]), arrivals[|arrivals| - 1])
  }

  lemma ArriveOneMore(p: Pending, before: seq<Datagram>, d: Datagram)
    requires WellShaped(p)
    ensures ArriveAll(p, before + [d]) == Arrive(ArriveAll(p, before), d)
  {
    assert (before + [d])[..|before|] == before;
  }

  /** An empty buffer for the unit, over whatever bytes the slots held before. */
  ghost predicate Empty(nal: Nal, p: Pending) {
    && Tracks(nal, p)
    && (forall i :: 0 <= i < |p.got| ==> !p.got[i])
    && (forall g :: 0 <= g < |p.parityGot| ==> !p.parityGot[g])
  }

  /** The buffer is the unit's, and counts as received exactly what is in the arrivals. */
  ghost predicate Knows(nal: Nal, p: Pending, arrivals: seq<Datagram>) {
    && Tracks(nal, p)
    && (forall i: nat :: i < |p.got| ==> (p.got[i] <==> Data(nal, i) in arrivals))
    && (forall g: nat :: g < |p.parityGot| ==> (p.parityGot[g] <==> ParityOf(nal, g) in arrivals))
  }

  lemma DatagramsDiffer(nal: Nal, i: nat, g: nat)
    requires Sendable(nal)
    requires i < PacketsForSize(|nal.bytes|) && g < GroupCount(PacketsForSize(|nal.bytes|))
    ensures Data(nal, i) != ParityOf(nal, g)
    ensures Data(nal, i).header.packetIndex == i && ParityOf(nal, g).header.packetIndex == g
  {
    assert !Data(nal, i).header.fec && ParityOf(nal, g).header.fec;
  }

  lemma KnowsData(nal: Nal, p: Pending, before: seq<Datagram>, k: nat)
    requires Knows(nal, p, before) && k < PacketsForSize(|nal.bytes|)
    ensures Knows(nal, Arrive(p, Data(nal, k)), before + [Data(nal, k)])
  {
    ArriveData(nal, p, k);
    forall g: nat | g < |p.parityGot|
      ensures ParityOf(nal, g) != Data(nal, k)
    {
      DatagramsDiffer(nal, k, g);
    }
  }

  lemma KnowsParity(nal: Nal, p: Pending, before: seq<Datagram>, k: nat)
    requires Knows(nal, p, before) && k < GroupCount(PacketsForSize(|nal.bytes|))
    ensures Knows(nal, Arrive(p, ParityOf(nal, k)), before + [ParityOf(nal, k)])
  {
    ArriveParity(nal, p, k);
    DatagramsDiffer(nal, 0, k);
    forall g: nat | g < |p.parityGot| && g != k
      ensures ParityOf(nal, g) != ParityOf(nal, k)
    {
      DatagramsDiffer(nal, 0, g);
    }
    forall i: nat | i < |p.got|
      ensures Data(nal, i) != ParityOf(nal, k)
    {
      DatagramsDiffer(nal, i, k);
    }
  }

  ghost predicate PartOf(nal: Nal, d: Datagram) {
    Sendable(nal) && (IsDataOf(nal, d) || IsParityOf(nal, d))
  }

  lemma KnowsOneMore(nal: Nal, p: Pending, before: seq<Datagram>, d: Datagram, r: Pending, all: seq<Datagram>)
    requires Knows(nal, p, before) && PartOf(nal, d) && r == Arrive(p, d) && all == before + [d]
    ensures Knows(nal, r, all)
  {
    if IsDataOf(nal, d) {
      var k: nat :| k < PacketsForSize(|nal.bytes|) && d == Data(nal, k);
      KnowsData(nal, p, before, k);
    } else {
      var k: nat :| k < GroupCount(PacketsForSize(|nal.bytes|)) && d == ParityOf(nal, k);
      KnowsParity(nal, p, before, k);
    }
  }

  lemma {:induction false} PartsTrack(nal: Nal, p: Pending, arrivals: seq<Datagram>)
    requires Empty(nal, p) && forall i :: 0 <= i < |arrivals| ==> PartOf(nal, arrivals[i])
    ensures Knows(nal, ArriveAll(p, arrivals), arrivals)
  {
    if arrivals != [] {
      var before := arrivals[..|arrivals| - 1];
      var d := arrivals[|arrivals| - 1];
      PartsTrack(nal, p, before);
      KnowsOneMore(nal, ArriveAll(p, before), before, d, ArriveAll(p, arrivals), arrivals);
    }
  }

  /** After any arrivals from the wire, in any order, lost, repeated or not, the buffer knows exactly those. */
  lemma ArrivalsTrack(nal: Nal, p: Pending, arrivals: seq<Datagram>)
    requires Empty(nal, p) && forall d :: d in arrivals ==> d in Wire(nal)
    ensures Knows(nal, ArriveAll(p, arrivals), arrivals)
  {
    forall i | 0 <= i < |arrivals|
      ensures PartOf(nal, arrivals[i])
    {
      assert arrivals[i] in Wire(nal);
      WireMembers(nal, PacketsForSize(|nal.bytes|), arrivals[i]);
    }
    PartsTrack(nal, p, arrivals);
  }

  // ---- recovery rebuilds the unit ----

  lemma GroupPayloadAt(nal: Nal, g: nat, x: nat)
    requires g < GroupCount(PacketsForSize(|nal.bytes|)) && x < |GroupPayloads(nal, g)|
    ensures g * FEC_GROUP_SIZE + x < PacketsForSize(|nal.bytes|)
    ensures GroupPayloads(nal, g)[x] == Payload(nal, g * FEC_GROUP_SIZE + x)
  {
  }

  lemma OtherAt(nal: Nal, p: Pending, i: nat, g: nat, m: nat, k: nat)
    requires Tracks(nal, p) && Recoverable(p, i)
    requires g == i / FEC_GROUP_SIZE && m == i - g * FEC_GROUP_SIZE && k < |Others(p, i)|
    ensures |Others(p, i)| == |GroupPayloads(nal, g)| - 1
    ensures Others(p, i)[k] == GroupPayloads(nal, g)[if k < m then k else k + 1]
  {
    var x := if k < m then k else k + 1;
    GroupPayloadAt(nal, g, x);
    assert p.got[g * FEC_GROUP_SIZE + x];
    assert Others(p, i)[k] == SlotBytes(p, g * FEC_GROUP_SIZE + x);
  }

  lemma OthersCount(nal: Nal, p: Pending, i: nat, g: nat)
    requires Tracks(nal, p) && Recoverable(p, i) && g == i / FEC_GROUP_SIZE
    ensures |Others(p, i)| == |GroupPayloads(nal, g)| - 1
  {
  }

  /** The group's payloads without packet i are what the buffer holds for the others. */
  lemma OthersAreGroup(nal: Nal, p: Pending, i: nat, g: nat, m: nat)
    requires Tracks(nal, p) && Recoverable(p, i)
    requires g == i / FEC_GROUP_SIZE && m == i - g * FEC_GROUP_SIZE
    ensures m < |GroupPayloads(nal, g)| && GroupPayloads(nal, g)[m] == Payload(nal, i)
    ensures Others(p, i) == GroupPayloads(nal, g)[..m] + GroupPayloads(nal, g)[m + 1..]
  {
    var ps := GroupPayloads(nal, g);
    var others := Others(p, i);
    GroupPayloadAt(nal, g, m);
    OthersCount(nal, p, i, g);
    forall k: nat | k < |others|
      ensures others[k] == ps[if k < m then k else k + 1]
    {
      OtherAt(nal, p, i, g, m, k);
    }
    IsWithout(ps, m, others);
  }

  lemma IsWithout(ps: seq<seq<byte>>, m: nat, others: seq<seq<byte>>)
    requires m < |ps| == |others| + 1 && forall k: nat :: k < |others| ==> others[k] == ps[if k < m then k else k + 1]
    ensures others == ps[..m] + ps[m + 1..]
  {
  }

  /** A group's tail length, as its parity header carries it, is the length of its last packet. */
  lemma TailSize(nal: Nal, g: nat)
    requires g < GroupCount(PacketsForSize(|nal.bytes|))
    ensures var end := GroupRange(g, PacketsForSize(|nal.bytes|)).1;
            && 0 < end <= PacketsForSize(|nal.bytes|)
            && ParityOf(nal, g).header.fecGroupLastPacketPayloadSize == |Payload(nal, end - 1)|
  {
    var end := GroupRange(g, PacketsForSize(|nal.bytes|)).1;
    var ps := GroupPayloads(nal, g);
    assert ps[|ps| - 1] == Payload(nal, end - 1);
    PayloadShape(nal, end - 1);
  }

  lemma RecoveredLength(nal: Nal, p: Pending, i: nat)
    requires Tracks(nal, p) && Recoverable(p, i)
    ensures RecoveredSize(p, i) == |Payload(nal, i)|
  {
    TailSize(nal, i / FEC_GROUP_SIZE);
    PayloadShape(nal, i);
  }

  /** One recovered packet is byte for byte the one that was lost, and its length is right. */
  lemma RecoveredIsLost(nal: Nal, p: Pending, i: nat)
    requires Tracks(nal, p) && Recoverable(p, i)
    ensures RecoveredSize(p, i) == |Payload(nal, i)|
    ensures RecoveredSlot(p, i)[..RecoveredSize(p, i)] == Payload(nal, i)
  {
    RecoveredLength(nal, p, i);
    var g := i / FEC_GROUP_SIZE;
    var m := i - g * FEC_GROUP_SIZE;
    OthersAreGroup(nal, p, i, g, m);
    forall j | 0 <= j < |Payload(nal, i)|
      ensures RecoveredSlot(p, i)[j] == Payload(nal, i)[j]
    {
      ParityRecoversMissing(GroupPayloads(nal, g), m, j);
    }
  }

  lemma RecoveryTracks(nal: Nal, p: Pending)
    requires Tracks(nal, p)
    ensures Tracks(nal, Recovered(p))
    ensures RecoveryCompletes(p) ==> AllGot(Recovered(p))
  {
    var r := Recovered(p);
    forall i: nat | i < |r.got| && r.got[i]
      ensures SlotBytes(r, i) == Payload(nal, i)
    {
      if Recoverable(p, i) {
        RecoveredIsLost(nal, p, i);
      } else {
        assert SlotBytes(r, i) == SlotBytes(p, i);
      }
    }
  }

  lemma {:induction false} CompactedIsUnit(nal: Nal, p: Pending, n: nat)
    requires Tracks(nal, p) && AllGot(p) && n <= |p.got|
    ensures Compacted(p, n) == nal.bytes[..if n < |p.got| then n * MAX_PACKET_PAYLOAD else |nal.bytes|]
  {
    if n > 0 {
      CompactedIsUnit(nal, p, n - 1);
      PayloadShape(nal, n - 1);
      var cut := if n < |p.got| then n * MAX_PACKET_PAYLOAD else |nal.bytes|;
      assert nal.bytes[..cut] == nal.bytes[..(n - 1) * MAX_PACKET_PAYLOAD] + Payload(nal, n - 1);
    }
  }

  /** Every data packet of group g but possibly `lost` arrived. */
  ghost predicate LostAtMost(nal: Nal, arrivals: seq<Datagram>, g: nat, lost: nat) {
    forall i: nat :: i < PacketsForSize(|nal.bytes|) && i / FEC_GROUP_SIZE == g && i != lost ==>
      Data(nal, i) in arrivals
  }

  /** Packet i arrived, or its parity did and it is the only one its group lost. */
  ghost predicate Survives(nal: Nal, arrivals: seq<Datagram>, i: nat)
    requires i < PacketsForSize(|nal.bytes|)
  {
    || Data(nal, i) in arrivals
    || (ParityOf(nal, i / FEC_GROUP_SIZE) in arrivals && LostAtMost(nal, arrivals, i / FEC_GROUP_SIZE, i))
  }

  lemma RecoverableIffSurvives(nal: Nal, p: Pending, arrivals: seq<Datagram>, i: nat)
    requires Knows(nal, p, arrivals) && i < |p.got| && !p.got[i]
    ensures Recoverable(p, i) <==> Survives(nal, arrivals, i)
  {
    var g := i / FEC_GROUP_SIZE;
    var (start, end) := GroupRange(g, |p.got|);
    if Recoverable(p, i) {
      forall k: nat | k < |p.got| && k / FEC_GROUP_SIZE == g && k != i
        ensures Data(nal, k) in arrivals
      {
        assert p.got[k];
      }
    }
    if Survives(nal, arrivals, i) {
      forall k: nat | start <= k < end && k != i
        ensures p.got[k]
      {
        assert k / FEC_GROUP_SIZE == g;
      }
    }
  }

  lemma RecoveredIffSurvives(nal: Nal, p: Pending, arrivals: seq<Datagram>)
    requires Knows(nal, p, arrivals)
    ensures AllGot(Recovered(p)) <==>
            forall i: nat :: i < PacketsForSize(|nal.bytes|) ==> Survives(nal, arrivals, i)
  {
    var r := Recovered(p);
    forall i: nat | i < |p.got|
      ensures r.got[i] <==> Survives(nal, arrivals, i)
    {
      if !p.got[i] {
        RecoverableIffSurvives(nal, p, arrivals, i);
      }
    }
  }

  /**
    The erasure-code round trip, for every unit within the enforced limit and every order, loss and
    repetition of its datagrams. Recovery ends with every packet there if and only if every group lost
    at most one packet and has its parity if it lost one; then compaction gives back the unit byte for byte.
   */
  lemma ErasureRoundTrip(nal: Nal, p: Pending, arrivals: seq<Datagram>)
    requires Empty(nal, p) && forall d :: d in arrivals ==> d in Wire(nal)
    ensures var r := Recovered(ArriveAll(p, arrivals));
            && (AllGot(r) <==> forall i: nat :: i < PacketsForSize(|nal.bytes|) ==> Survives(nal, arrivals, i))
            && (AllGot(r) ==> Compacted(r, |r.got|) == nal.bytes)
  {
    ArrivalsTrack(nal, p, arrivals);
    var q := ArriveAll(p, arrivals);
    RecoveryTracks(nal, q);
    RecoveredIffSurvives(nal, q, arrivals);
    if AllGot(Recovered(q)) {
      CompactedIsUnit(nal, Recovered(q), |q.got|);
    }
  }

  lemma WholeBufferIsUnit(nal: Nal, p: Pending)
    requires Tracks(nal, p)
    ensures AllGot(p) ==> Compacted(p, |p.got|) == nal.bytes
  {
    if AllGot(p) {
      CompactedIsUnit(nal, p, |p.got|);
    }
  }

  lemma OwnDatagramTracks(nal: Nal, p: Pending, d: Datagram)
    requires Tracks(nal, p) && (IsDataOf(nal, d) || IsParityOf(nal, d))
    ensures Tracks(nal, Arrive(p, d))
  {
    if IsDataOf(nal, d) {
      var k: nat :| k < PacketsForSize(|nal.bytes|) && d == Data(nal, k);
      ArriveData(nal, p, k);
    } else {
      var k: nat :| k < GroupCount(PacketsForSize(|nal.bytes|)) && d == ParityOf(nal, k);
      ArriveParity(nal, p, k);
    }
  }

  lemma FreshTracks(nal: Nal, slots: seq<seq<byte>>, parity: seq<seq<byte>>)
    requires Sendable(nal)
    requires |slots| == TotalPackets(nal) && |parity| == GroupCount(TotalPackets(nal))
    requires forall i :: 0 <= i < |slots| ==> |slots[i]| == MAX_PACKET_PAYLOAD
    requires forall i :: 0 <= i < |parity| ==> |parity[i]| == MAX_PACKET_PAYLOAD
    ensures Empty(nal, Fresh(TotalPackets(nal), slots, parity))
  {
    PacketCountFits(nal);
  }

  // ---- two units that share a frame index ----

  /** Taking this datagram of any unit for one of the pending unit's cannot do harm. */
  ghost predicate Harmless(current: Nal, p: Pending, d: Datagram)
    requires Tracks(current, p)
  {
    if d.header.fec then
      var g := d.header.packetIndex;
      || g >= |p.parityGot| || p.parityGot[g]
      || (&& d.payload == ParityOf(current, g).payload
          && d.header.fecGroupLastPacketPayloadSize == ParityOf(current, g).header.fecGroupLastPacketPayloadSize)
    else
      var i := d.header.packetIndex;
      i < |p.got| && (p.got[i] || d.payload == Payload(current, i))
  }

  lemma DataHarmlessExactly(current: Nal, p: Pending, unit: Nal, i: nat)
    requires Tracks(current, p) && Sendable(unit) && i < PacketsForSize(|unit.bytes|)
    ensures !OutOfRange(p, Data(unit, i)) && Tracks(current, Arrive(p, Data(unit, i))) <==>
              Harmless(current, p, Data(unit, i))
  {
    PacketCountFits(unit);
    var d := Data(unit, i);
    var r := Arrive(p, d);
    if i < |p.got| {
      assert !p.got[i] ==> r.got[i] && SlotBytes(r, i) == d.payload;
      forall k: nat | k < |r.got| && k != i
        ensures r.got[k] == p.got[k] && SlotBytes(r, k) == SlotBytes(p, k)
      {
      }
    }
  }

  lemma ParityHarmlessExactly(current: Nal, p: Pending, unit: Nal, g: nat)
    requires Tracks(current, p) && Sendable(unit) && g < GroupCount(PacketsForSize(|unit.bytes|))
    ensures Tracks(current, Arrive(p, ParityOf(unit, g))) <==> Harmless(current, p, ParityOf(unit, g))
  {
    var d := ParityOf(unit, g);
    var r := Arrive(p, d);
    assert d.header.packetIndex == g;
    if g < |p.parityGot| && !p.parityGot[g] {
      assert r.parityGot[g] && r.parity[g] == d.payload;
      assert r.lastSizes[g] == d.header.fecGroupLastPacketPayloadSize;
    }
    forall k: nat | k < |r.got| && r.got[k]
      ensures SlotBytes(r, k) == SlotBytes(p, k)
    {
    }
  }

  /**
    The receiver tells units apart by frame index alone, and the units of one encoded frame share it. A datagram of
    any unit leaves the buffer one of the pending unit if and only if it is harmless: a data packet within the pending
    count that was there already or has the pending unit's bytes; a parity out of range, there already, or equal.
   */
  lemma HarmlessExactly(current: Nal, p: Pending, unit: Nal, d: Datagram)
    requires Tracks(current, p) && PartOf(unit, d)
    ensures !OutOfRange(p, d) && Tracks(current, Arrive(p, d)) <==> Harmless(current, p, d)
  {
    if IsDataOf(unit, d) {
      var i: nat :| i < PacketsForSize(|unit.bytes|) && d == Data(unit, i);
      DataHarmlessExactly(current, p, unit, i);
    } else {
      var g: nat :| g < GroupCount(PacketsForSize(|unit.bytes|)) && d == ParityOf(unit, g);
      ParityHarmlessExactly(current, p, unit, g);
    }
  }

  /** A unit's own datagrams are harmless, so with one unit a frame all of them are. */
  lemma OwnHarmless(nal: Nal, p: Pending, d: Datagram)
    requires Tracks(nal, p) && PartOf(nal, d)
    ensures Harmless(nal, p, d) && !OutOfRange(p, d)
  {
    OwnDatagramTracks(nal, p, d);
    PacketCountFits(nal);
    HarmlessExactly(nal, p, nal, d);
  }

  /** What recovery puts back keeps a buffer that is not the unit's from becoming it. */
  lemma RecoveryTracksExactly(nal: Nal, p: Pending, q: Pending)
    requires Tracks(nal, p) && WellShaped(q) && |q.got| == |p.got|
    ensures Tracks(nal, Recovered(q)) <==> Tracks(nal, q)
  {
    if Tracks(nal, q) {
      RecoveryTracks(nal, q);
    }
    if Tracks(nal, Recovered(q)) {
      var r := Recovered(q);
      forall i: nat | i < |q.got| && q.got[i]
        ensures SlotBytes(q, i) == Payload(nal, i)
      {
        assert r.got[i] && SlotBytes(r, i) == SlotBytes(q, i);
      }
      assert r.parityGot == q.parityGot && r.parity == q.parity && r.lastSizes == q.lastSizes;
    }
  }

  /** The first n data packets of the unit, in order. */
  function AllData(nal: Nal, n: nat): seq<Datagram>
    requires n <= PacketsForSize(|nal.bytes|)
  {
    seq(n, i requires 0 <= i < n => Data(nal, i))
  }

  lemma AllDataArrive(nal: Nal, p: Pending, n: nat)
    requires WellShaped(p) && 0 < n <= PacketsForSize(|nal.bytes|)
    ensures ArriveAll(p, AllData(nal, n)) == Arrive(ArriveAll(p, AllData(nal, n - 1)), Data(nal, n - 1))
  {
    var before := AllData(nal, n - 1);
    assert AllData(nal, n) == before + [Data(nal, n - 1)];
    ArriveOneMore(p, before, Data(nal, n - 1));
  }

  /** The buffer is the unit's but for packet i, which holds these bytes; packets before n are all there. */
  ghost predicate TracksBut(nal: Nal, p: Pending, i: nat, bytes: seq<byte>, n: nat) {
    && Sendable(nal) && WellShaped(p) && n <= |p.got| == PacketsForSize(|nal.bytes|)
    && i < |p.got| && p.got[i] && SlotBytes(p, i) == bytes
    && (forall k: nat :: k < |p.got| && k != i && p.got[k] ==> SlotBytes(p, k) == Payload(nal, k))
    && (forall k: nat :: k < n ==> p.got[k])
  }

  lemma ArriveBut(nal: Nal, p: Pending, i: nat, bytes: seq<byte>, n: nat)
    requires TracksBut(nal, p, i, bytes, n) && n < |p.got|
    ensures TracksBut(nal, Arrive(p, Data(nal, n)), i, bytes, n + 1)
  {
    PacketCountFits(nal);
    var r := Arrive(p, Data(nal, n));
    forall k: nat | k < |r.got| && r.got[k]
      ensures SlotBytes(r, k) == if k == n && !p.got[n] then Payload(nal, n) else SlotBytes(p, k)
    {
    }
  }

  lemma {:induction false} ArriveAllBut(nal: Nal, p: Pending, i: nat, bytes: seq<byte>, n: nat)
    requires TracksBut(nal, p, i, bytes, 0) && n <= |p.got|
    ensures TracksBut(nal, ArriveAll(p, AllData(nal, n)), i, bytes, n)
  {
    if n > 0 {
      ArriveAllBut(nal, p, i, bytes, n - 1);
      ArriveBut(nal, ArriveAll(p, AllData(nal, n - 1)), i, bytes, n - 1);
      AllDataArrive(nal, p, n);
    }
  }

  function EndOf(nal: Nal, n: nat): nat {
    if n == 0 then 0 else PayloadEnd(nal, n - 1)
  }

  lemma {:induction false} CompactedBefore(nal: Nal, p: Pending, i: nat, bytes: seq<byte>, n: nat)
    requires TracksBut(nal, p, i, bytes, |p.got|) && n <= i
    ensures EndOf(nal, n) == n * MAX_PACKET_PAYLOAD && Compacted(p, n) == nal.bytes[..EndOf(nal, n)]
  {
    if n > 0 {
      CompactedBefore(nal, p, i, bytes, n - 1);
      PayloadShape(nal, n - 1);
      PayloadExtends(nal, 0, n);
    }
  }

  lemma {:induction false} CompactedFrom(nal: Nal, p: Pending, i: nat, bytes: seq<byte>, n: nat)
    requires TracksBut(nal, p, i, bytes, |p.got|) && i < n <= |p.got|
    ensures EndOf(nal, i + 1) <= EndOf(nal, n)
    ensures Compacted(p, n) ==
            nal.bytes[..i * MAX_PACKET_PAYLOAD] + bytes + nal.bytes[EndOf(nal, i + 1)..EndOf(nal, n)]
  {
    var head := nal.bytes[..i * MAX_PACKET_PAYLOAD];
    if n == i + 1 {
      CompactedBefore(nal, p, i, bytes, i);
      assert nal.bytes[EndOf(nal, n)..EndOf(nal, n)] == [];
    } else {
      CompactedFrom(nal, p, i, bytes, n - 1);
      PayloadExtends(nal, EndOf(nal, i + 1), n);
      Reassociate(head + bytes, nal.bytes[EndOf(nal, i + 1)..EndOf(nal, n - 1)], Payload(nal, n - 1));
    }
  }

  lemma Reassociate(a: seq<byte>, b: seq<byte>, c: seq<byte>)
    ensures (a + b) + c == a + (b + c)
  {
  }

  /** One more payload, at the end of a stretch of the unit. */
  lemma PayloadExtends(nal: Nal, from: nat, n: nat)
    requires 0 < n <= PacketsForSize(|nal.bytes|) && from <= EndOf(nal, n - 1)
    ensures EndOf(nal, n - 1) == (n - 1) * MAX_PACKET_PAYLOAD <= EndOf(nal, n) <= |nal.bytes|
    ensures nal.bytes[from..EndOf(nal, n)] == nal.bytes[from..EndOf(nal, n - 1)] + Payload(nal, n - 1)
  {
    if n > 1 {
      PayloadShape(nal, n - 2);
    }
  }

  lemma MiddleMatters(a: seq<byte>, x: seq<byte>, y: seq<byte>, c: seq<byte>)
    requires a + x + c == a + y + c
    ensures x == y
  {
    assert |x| == |y|;
    assert (a + x + c)[|a|..|a| + |x|] == x;
    assert (a + y + c)[|a|..|a| + |y|] == y;
  }

  /**
    And harm is done: after a data packet that is in range and not harmless, the pending unit's own data packets
    complete the buffer, and what is delivered is not the unit.
   */
  lemma ForeignPacketSpoils(current: Nal, p: Pending, unit: Nal, i: nat)
    requires Tracks(current, p) && Sendable(unit) && i < PacketsForSize(|unit.bytes|)
    requires !OutOfRange(p, Data(unit, i)) && !Harmless(current, p, Data(unit, i))
    ensures var q := ArriveAll(Arrive(p, Data(unit, i)), AllData(current, PacketsForSize(|current.bytes|)));
            AllGot(q) && Compacted(q, |q.got|) != current.bytes
  {
    var n, bytes := PacketsForSize(|current.bytes|), Payload(unit, i);
    ForeignPacketStored(current, p, unit, i);
    ArriveAllBut(current, Arrive(p, Data(unit, i)), i, bytes, n);
    SpoiledBuffer(current, ArriveAll(Arrive(p, Data(unit, i)), AllData(current, n)), i, bytes);
  }

  lemma ForeignPacketStored(current: Nal, p: Pending, unit: Nal, i: nat)
    requires Tracks(current, p) && Sendable(unit) && i < PacketsForSize(|unit.bytes|)
    requires !OutOfRange(p, Data(unit, i)) && !Harmless(current, p, Data(unit, i))
    ensures TracksBut(current, Arrive(p, Data(unit, i)), i, Payload(unit, i), 0)
    ensures Payload(unit, i) != Payload(current, i)
  {
    PacketCountFits(unit);
    var r := Arrive(p, Data(unit, i));
    forall k: nat | k < |r.got| && r.got[k]
      ensures SlotBytes(r, k) == if k == i then Payload(unit, i) else SlotBytes(p, k)
    {
    }
  }

  lemma SpoiledBuffer(nal: Nal, p: Pending, i: nat, bytes: seq<byte>)
    requires TracksBut(nal, p, i, bytes, |p.got|) && bytes != Payload(nal, i)
    ensures AllGot(p) && Compacted(p, |p.got|) != nal.bytes
  {
    var n := |p.got|;
    CompactedFrom(nal, p, i, bytes, n);
    PayloadShape(nal, n - 1);
    var head, own, tail := nal.bytes[..i * MAX_PACKET_PAYLOAD], Payload(nal, i), nal.bytes[EndOf(nal, i + 1)..];
    assert nal.bytes == head + own + tail;
    if Compacted(p, n) == nal.bytes {
      MiddleMatters(head, bytes, own, tail);
    }
  }

  // ---- a mixture delivered ----

  /** Two units of one frame with one packet count. */
  predicate OneFrame(a: Nal, b: Nal) {
    a.frameIndex == b.frameIndex && PacketsForSize(|a.bytes|) == PacketsForSize(|b.bytes|)
  }

  /** The first k packets of a, then those of b. */
  function Mixture(a: Nal, b: Nal, k: nat): Nal
    requires k * MAX_PACKET_PAYLOAD <= |a.bytes| && k * MAX_PACKET_PAYLOAD <= |b.bytes|
  {
    b.(bytes := a.bytes[..k * MAX_PACKET_PAYLOAD] + b.bytes[k * MAX_PACKET_PAYLOAD..])
  }

  lemma MixturePackets(a: Nal, b: Nal, k: nat, i: nat)
    requires Sendable(a) && Sendable(b) && OneFrame(a, b) && 0 < k < PacketsForSize(|a.bytes|)
    requires i < PacketsForSize(|a.bytes|)
    ensures var m := Mixture(a, b, k);
            && Sendable(m) && PacketsForSize(|m.bytes|) == PacketsForSize(|a.bytes|)
            && Payload(m, i) == if i < k then Payload(a, i) else Payload(b, i)
  {
    var m, from := Mixture(a, b, k), i * MAX_PACKET_PAYLOAD;
    assert |m.bytes| == |b.bytes|;
    assert PayloadEnd(m, i) == PayloadEnd(b, i);
    if i < k {
      assert PayloadEnd(a, i) == PayloadEnd(b, i) == from + MAX_PACKET_PAYLOAD;
    }
  }

  lemma MixtureMixes(a: Nal, b: Nal, k: nat)
    requires Sendable(a) && Sendable(b) && OneFrame(a, b) && 0 < k < PacketsForSize(|a.bytes|)
    ensures Mixes(Mixture(a, b, k), a, b, k)
  {
    MixturePackets(a, b, k, 0);
    forall i: nat | i < PacketsForSize(|a.bytes|)
      ensures Payload(Mixture(a, b, k), i) == if i < k then Payload(a, i) else Payload(b, i)
    {
      MixturePackets(a, b, k, i);
    }
  }

  /** A stored data packet is its index, its count and its bytes. */
  predicate StoredAlike(d: Datagram, e: Datagram) {
    && !d.header.fec && !e.header.fec && d.payload == e.payload
    && d.header.packetIndex == e.header.packetIndex && d.header.totalPackets == e.header.totalPackets
  }

  lemma SameArrival(p: Pending, d: Datagram, e: Datagram)
    requires WellShaped(p) && StoredAlike(d, e)
    ensures Arrive(p, d) == Arrive(p, e)
  {
  }

  lemma {:induction false} SameArrivals(p: Pending, ds: seq<Datagram>, es: seq<Datagram>)
    requires WellShaped(p) && |ds| == |es| && forall i :: 0 <= i < |ds| ==> StoredAlike(ds[i], es[i])
    ensures ArriveAll(p, ds) == ArriveAll(p, es)
  {
    if ds != [] {
      var n := |ds| - 1;
      SameArrivals(p, ds[..n], es[..n]);
      SameArrival(ArriveAll(p, ds[..n]), ds[n], es[n]);
    }
  }

  function MixedPacket(a: Nal, b: Nal, k: nat, i: nat): Datagram
    requires OneFrame(a, b) && i < PacketsForSize(|a.bytes|)
  {
    if i < k then Data(a, i) else Data(b, i)
  }

  ghost predicate HasFirst(nal: Nal, p: Pending, n: nat) {
    Tracks(nal, p) && n <= |p.got| && forall i :: 0 <= i < n ==> p.got[i]
  }

  lemma ArriveNext(nal: Nal, p: Pending, r: Pending, n: nat)
    requires HasFirst(nal, p, n) && n < PacketsForSize(|nal.bytes|) && r == Arrive(p, Data(nal, n))
    ensures HasFirst(nal, r, n + 1)
  {
    ArriveData(nal, p, n);
  }

  lemma {:induction false} AllArrive(nal: Nal, p: Pending, n: nat)
    requires Tracks(nal, p) && n <= |p.got|
    ensures HasFirst(nal, ArriveAll(p, AllData(nal, n)), n)
  {
    if n > 0 {
      AllArrive(nal, p, n - 1);
      AllDataArrive(nal, p, n);
      ArriveNext(nal, ArriveAll(p, AllData(nal, n - 1)), ArriveAll(p, AllData(nal, n)), n - 1);
    } else {
      assert AllData(nal, 0) == [];
    }
  }

  /** The packets of m are the first k of a and then those of b. */
  ghost predicate Mixes(m: Nal, a: Nal, b: Nal, k: nat) {
    && Sendable(m) && Sendable(a) && Sendable(b)
    && OneFrame(a, b) && OneFrame(m, b)
    && forall i: nat :: i < PacketsForSize(|m.bytes|) ==> Payload(m, i) == if i < k then Payload(a, i) else Payload(b, i)
  }

  /** The first k data packets of a, then those of b. */
  function MixedData(a: Nal, b: Nal, k: nat): seq<Datagram>
    requires OneFrame(a, b)
  {
    var n := PacketsForSize(|a.bytes|);
    seq(n, i requires 0 <= i < n => MixedPacket(a, b, k, i))
  }

  lemma MixtureArrives(a: Nal, b: Nal, k: nat, m: Nal, p: Pending)
    requires Mixes(m, a, b, k) && WellShaped(p)
    ensures ArriveAll(p, MixedData(a, b, k)) == ArriveAll(p, AllData(m, PacketsForSize(|m.bytes|)))
  {
    var n := PacketsForSize(|m.bytes|);
    forall i | 0 <= i < n
      ensures StoredAlike(MixedData(a, b, k)[i], AllData(m, n)[i])
    {
      assert StoredAlike(MixedPacket(a, b, k, i), Data(m, i));
    }
    SameArrivals(p, MixedData(a, b, k), AllData(m, n));
  }

  /**
    When the tail of one unit of a frame and the head of the next are lost, the receiver sees the first k packets of a
    and the rest of b, takes them for one unit and delivers the mixture: a only if their tails agree, b only if their
    heads do.
   */
  lemma MixtureDelivered(a: Nal, b: Nal, k: nat, p: Pending)
    requires Sendable(a) && Sendable(b) && OneFrame(a, b) && 0 < k < PacketsForSize(|a.bytes|)
    requires Empty(a, p)
    ensures var q, cut := ArriveAll(p, MixedData(a, b, k)), k * MAX_PACKET_PAYLOAD;
            && AllGot(q) && Compacted(q, |q.got|) == a.bytes[..cut] + b.bytes[cut..]
            && (Compacted(q, |q.got|) == a.bytes <==> a.bytes[cut..] == b.bytes[cut..])
            && (Compacted(q, |q.got|) == b.bytes <==> a.bytes[..cut] == b.bytes[..cut])
  {
    var n, m, cut := PacketsForSize(|a.bytes|), Mixture(a, b, k), k * MAX_PACKET_PAYLOAD;
    MixtureMixes(a, b, k);
    MixtureArrives(a, b, k, m, p);
    AllArrive(m, p, n);
    WholeBufferIsUnit(m, ArriveAll(p, MixedData(a, b, k)));
    HeadAndTail(a.bytes, b.bytes, cut);
  }

  lemma HeadAndTail(a: seq<byte>, b: seq<byte>, cut: nat)
    requires cut <= |a| && cut <= |b|
    ensures a[..cut] + b[cut..] == a <==> a[cut..] == b[cut..]
    ensures a[..cut] + b[cut..] == b <==> a[..cut] == b[..cut]
  {
    var m := a[..cut] + b[cut..];
    assert m[..cut] == a[..cut] && m[cut..] == b[cut..];
    assert a == a[..cut] + a[cut..] && b == b[..cut] + b[cut..];
  }
}
