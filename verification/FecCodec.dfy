/** common/FecCodec.h: one XOR parity payload per group of data payloads. */
module FecCodec {
  import opened Protocol

  /** Byte j of a payload that is padded with zeros on the right. */
  function PadAt(payload: seq<byte>, j: nat): byte {
    if j < |payload| then payload[j] else 0
  }

  /** The XOR of byte j over all payloads. */
  function Column(payloads: seq<seq<byte>>, j: nat): byte {
    if payloads == [] then 0
    else Column(payloads[..|payloads| - 1], j) ^ PadAt(payloads[|payloads| - 1], j)
  }

  /** The whole parity payload, MAX_PACKET_PAYLOAD bytes. */
  function Parity(payloads: seq<seq<byte>>): (p: seq<byte>)
    ensures |p| == MAX_PACKET_PAYLOAD
  {
    seq(MAX_PACKET_PAYLOAD, j requires 0 <= j => Column(payloads, j))
  }

  ghost predicate Fits(payloads: seq<seq<byte>>) {
    forall i :: 0 <= i < |payloads| ==> |payloads[i]| <= MAX_PACKET_PAYLOAD
  }

  lemma XorCancels(a: byte, b: byte, c: byte)
    ensures (a ^ b) ^ c == (a ^ c) ^ b
    ensures (a ^ b) ^ b == a
  {
  }

  lemma ColumnSnoc(payloads: seq<seq<byte>>, p: seq<byte>, j: nat)
    ensures Column(payloads + [p], j) == Column(payloads, j) ^ PadAt(p, j)
  {
    assert (payloads + [p])[..|payloads|] == payloads;
  }

  /** Taking one payload out of a column leaves the column of the others. */
  lemma {:induction false} ColumnWithout(payloads: seq<seq<byte>>, m: nat, j: nat)
    requires m < |payloads|
    ensures Column(payloads, j) == Column(payloads[..m] + payloads[m + 1..], j) ^ PadAt(payloads[m], j)
  {
    var last := |payloads| - 1;
    var init := payloads[..last];
    if m == last {
      assert payloads[..m] + payloads[m + 1..] == init;
    } else {
      ColumnWithout(init, m, j);
      var rest := init[..m] + init[m + 1..];
      assert payloads[..m] + payloads[m + 1..] == rest + [payloads[last]];
      ColumnSnoc(rest, payloads[last], j);
      XorCancels(Column(rest, j), PadAt(payloads[m], j), PadAt(payloads[last], j));
    }
  }

  /** Erasure recovery: parity XOR the present payloads is the missing payload, zero padded. */
  lemma {:induction false} ParityRecoversMissing(payloads: seq<seq<byte>>, m: nat, j: nat)
    requires m < |payloads| && j < MAX_PACKET_PAYLOAD
    ensures Parity(payloads)[j] ^ Column(payloads[..m] + payloads[m + 1..], j) == PadAt(payloads[m], j)
  {
    ColumnWithout(payloads, m, j);
    var rest := Column(payloads[..m] + payloads[m + 1..], j);
    assert (rest ^ PadAt(payloads[m], j)) ^ rest == PadAt(payloads[m], j);
  }

  /** Writes the parity of the payloads over the first MAX_PACKET_PAYLOAD bytes of the buffer. */
  method Encode(payloads: seq<seq<byte>>, outParity: array<byte>)
    requires Fits(payloads)
    requires MAX_PACKET_PAYLOAD <= outParity.Length
    modifies outParity
    ensures outParity[..MAX_PACKET_PAYLOAD] == Parity(payloads)
    ensures outParity[MAX_PACKET_PAYLOAD..] == old(outParity[MAX_PACKET_PAYLOAD..])
  {
    for j := 0 to MAX_PACKET_PAYLOAD
      invariant forall k :: 0 <= k < j ==> outParity[k] == 0
      invariant forall k :: MAX_PACKET_PAYLOAD <= k < outParity.Length ==> outParity[k] == old(outParity[k])
    {
      outParity[j] := 0;
    }
    assert payloads[..0] == [];
    for i := 0 to |payloads|
      invariant forall k :: 0 <= k < MAX_PACKET_PAYLOAD ==> outParity[k] == Column(payloads[..i], k)
      invariant forall k :: MAX_PACKET_PAYLOAD <= k < outParity.Length ==> outParity[k] == old(outParity[k])
    {
      XorInto(payloads[i], outParity);
      assert payloads[..i + 1][..i] == payloads[..i];
    }
    assert payloads[..|payloads|] == payloads;
  }

  /** Both loops' inner step: XOR one payload into the front of the buffer. */
  method XorInto(payload: seq<byte>, buffer: array<byte>)
    requires |payload| <= MAX_PACKET_PAYLOAD <= buffer.Length
    modifies buffer
    ensures forall k :: 0 <= k < buffer.Length ==> buffer[k] == old(buffer[k]) ^ PadAt(payload, k)
  {
    for j := 0 to |payload|
      invariant forall k :: 0 <= k < j ==> buffer[k] == old(buffer[k]) ^ payload[k]
      invariant forall k :: j <= k < buffer.Length ==> buffer[k] == old(buffer[k])
    {
      buffer[j] := buffer[j] ^ payload[j];
    }
  }

  /** Recovers the one payload of a group that is not among the present ones. */
  method Decode(present: seq<seq<byte>>, fecPayload: seq<byte>, outRecovered: array<byte>) returns (size: nat)
    requires Fits(present)
    requires |fecPayload| == MAX_PACKET_PAYLOAD <= outRecovered.Length
    modifies outRecovered
    ensures size == MAX_PACKET_PAYLOAD
    ensures forall j :: 0 <= j < MAX_PACKET_PAYLOAD ==> outRecovered[j] == fecPayload[j] ^ Column(present, j)
    ensures forall payloads: seq<seq<byte>>, m: nat ::
              m < |payloads| && present == payloads[..m] + payloads[m + 1..] && fecPayload == Parity(payloads) &&
              |payloads[m]| <= MAX_PACKET_PAYLOAD ==>
                outRecovered[..|payloads[m]|] == payloads[m]
  {
    for j := 0 to MAX_PACKET_PAYLOAD
      invariant forall k :: 0 <= k < j ==> outRecovered[k] == fecPayload[k]
    {
      outRecovered[j] := fecPayload[j];
    }
    assert present[..0] == [];
    for i := 0 to |present|
      invariant forall k :: 0 <= k < MAX_PACKET_PAYLOAD ==> outRecovered[k] == fecPayload[k] ^ Column(present[..i], k)
    {
      ghost var before := outRecovered[..];
      XorInto(present[i], outRecovered);
      forall k | 0 <= k < MAX_PACKET_PAYLOAD
        ensures outRecovered[k] == fecPayload[k] ^ Column(present[..i + 1], k)
      {
        assert present[..i + 1] == present[..i] + [present[i]];
        ColumnSnoc(present[..i], present[i], k);
        assert before[k] == fecPayload[k] ^ Column(present[..i], k);
      }
    }
    assert present[..|present|] == present;
    forall payloads: seq<seq<byte>>, m: nat |
      m < |payloads| && present == payloads[..m] + payloads[m + 1..] && fecPayload == Parity(payloads) &&
      |payloads[m]| <= MAX_PACKET_PAYLOAD
      ensures outRecovered[..|payloads[m]|] == payloads[m]
    {
      forall j | 0 <= j < |payloads[m]|
        ensures outRecovered[j] == payloads[m][j]
      {
        ParityRecoversMissing(payloads, m, j);
      }
    }
    size := MAX_PACKET_PAYLOAD;
  }

  function GroupCount(totalDataPackets: nat): nat {
    (totalDataPackets + FEC_GROUP_SIZE - 1) / FEC_GROUP_SIZE
  }

  /** The data packets [start, end) of one group. */
  function GroupRange(group: nat, totalDataPackets: nat): (nat, nat) {
    var start := group * FEC_GROUP_SIZE;
    (start, if start + FEC_GROUP_SIZE < totalDataPackets then start + FEC_GROUP_SIZE else totalDataPackets)
  }

  /** The group ranges partition the packets: packet i lies in group i / FEC_GROUP_SIZE and in no other. */
  lemma GroupsPartition(totalDataPackets: nat, i: nat, group: nat)
    requires i < totalDataPackets
    ensures i / FEC_GROUP_SIZE < GroupCount(totalDataPackets)
    ensures (GroupRange(group, totalDataPackets).0 <= i < GroupRange(group, totalDataPackets).1) ==
            (group == i / FEC_GROUP_SIZE)
  {
    assert FEC_GROUP_SIZE * (i / FEC_GROUP_SIZE) + i % FEC_GROUP_SIZE == i;
  }
}
