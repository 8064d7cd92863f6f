/** Constants and wire records of common/Protocol.h that several modules share. */
module Protocol {
  type byte = bv8

  const FEC_GROUP_SIZE: nat := 10
  const MAX_PACKET_PAYLOAD: nat := 1400
  const TCP_MAX_RECORD_PAYLOAD: nat := 16 * 1024 * 1024
  const TCP_NAL_HEADER_BYTES: nat := 24
  /** The encoder callback drops any NAL unit longer than this. */
  const MAX_NAL_BYTES: nat := TCP_MAX_RECORD_PAYLOAD - TCP_NAL_HEADER_BYTES

  function U16(n: nat): nat { n % 0x1_0000 }
  function U32(n: nat): nat { n % 0x1_0000_0000 }

  datatype Option<+T> = None | Some(value: T)

  /** The fields of VideoPacketHeader; the flag bits are spelled out. */
  datatype VideoHeader = VideoHeader(
    frameIndex: nat,
    packetIndex: nat,
    totalPackets: nat,
    payloadSize: nat,
    fec: bool,
    keyframe: bool,
    endOfFrame: bool,
    alphaBlend: bool,
    packedAlpha: bool,
    codec: nat,
    fecGroupLastPacketPayloadSize: nat,
    presentationTimeNs: int)

  /** What fits behind the header in one UDP datagram. */
  type PayloadBytes = s: seq<byte> | |s| <= MAX_PACKET_PAYLOAD

  datatype Datagram = Datagram(header: VideoHeader, payload: PayloadBytes)
}
