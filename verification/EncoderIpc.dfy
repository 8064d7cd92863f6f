/**
  The wire protocol between the runtime and the encoder helper (EncoderHelperIpc.h): little-endian fields, framed
  messages, and a socket that sends and receives as little as it likes at a time.
 */
module EncoderIpc {
  import opened Protocol

  type Octet = n: nat | n < 256

  const MAGIC: nat := 0x4F58_4831
  const VERSION: nat := 2
  const MAX_PAYLOAD: nat := 8 * 1024 * 1024
  const MAX_SLOTS: nat := 16
  const HEADER_BYTES: nat := 12
  const INIT_BYTES: nat := 36

  // ---- little-endian fields ----

  function Power(n: nat): (p: nat)
    ensures p > 0
  {
    if n == 0 then 1 else 256 * Power(n - 1)
  }

  /** The n low bytes of v, lowest first. */
  function LittleEndian(v: nat, n: nat): (s: seq<Octet>)
    ensures |s| == n
  {
    seq(n, i requires 0 <= i < n => v / Power(i) % 256)
  }

  function Value(s: seq<Octet>): nat {
    if s == [] then 0 else s[0] + 256 * Value(s[1..])
  }

  lemma DivideTwice(v: nat, p: nat)
    requires p > 0
    ensures v / 256 / p == v / (256 * p)
  {
    var q := v / 256 / p;
    assert q * p <= v / 256 < q * p + p;
    assert (q * p) * 256 == q * (256 * p) && (q * p + p) * 256 == q * (256 * p) + 256 * p;
    QuotientIs(v, 256 * p, q);
  }

  lemma QuotientIs(v: nat, d: nat, q: nat)
    requires d > 0 && q * d <= v < q * d + d
    ensures v / d == q
  {
    var r := v / d;
    assert r * d <= v < r * d + d;
    if r < q {
      NextMultiple(r, q, d);
    } else if q < r {
      NextMultiple(q, r, d);
    }
  }

  lemma NextMultiple(x: nat, y: nat, d: nat)
    requires x < y
    ensures x * d + d <= y * d
  {
    MulMonotone(x + 1, y, d);
  }

  lemma MulMonotone(x: nat, y: nat, d: nat)
    requires x <= y
    ensures x * d <= y * d
  {
  }

  lemma FirstByte(v: nat, n: nat)
    requires n > 0
    ensures LittleEndian(v, n) == [v % 256] + LittleEndian(v / 256, n - 1)
  {
    forall i: nat | 0 < i < n
      ensures LittleEndian(v, n)[i] == LittleEndian(v / 256, n - 1)[i - 1]
    {
      DivideTwice(v, Power(i - 1));
      assert Power(i) == 256 * Power(i - 1);
    }
    assert LittleEndian(v, n)[0] == v / Power(0) % 256;
  }

  /** A field of n bytes reads back as what was put exactly when it fits n bytes. */
  lemma {:induction false} ValueOfBytes(v: nat, n: nat)
    ensures Value(LittleEndian(v, n)) == v <==> v < Power(n)
  {
    if n > 0 {
      FirstByte(v, n);
      ValueOfBytes(v / 256, n - 1);
      ValueBelow(LittleEndian(v / 256, n - 1));
      assert LittleEndian(v, n)[1..] == LittleEndian(v / 256, n - 1);
      DivideBelow(v, Power(n - 1));
    } else {
      assert Power(n) == 1;
    }
  }

  lemma DivideBelow(v: nat, p: nat)
    ensures v / 256 < p <==> v < 256 * p
  {
  }

  lemma {:induction false} ValueBelow(s: seq<Octet>)
    ensures Value(s) < Power(|s|)
  {
    if s != [] {
      ValueBelow(s[1..]);
      assert Power(|s|) == 256 * Power(|s| - 1);
    }
  }

  /** And any n bytes are the bytes of their value. */
  lemma {:induction false} BytesOfValue(s: seq<Octet>)
    ensures LittleEndian(Value(s), |s|) == s
  {
    if s != [] {
      BytesOfValue(s[1..]);
      FirstByte(Value(s), |s|);
      assert (s[0] + 256 * Value(s[1..])) / 256 == Value(s[1..]);
    }
  }

  lemma {:induction false} ValueSnoc(s: seq<Octet>, x: Octet)
    ensures Value(s + [x]) == Value(s) + x * Power(|s|)
  {
    if s != [] {
      ValueSnoc(s[1..], x);
      assert (s + [x])[1..] == s[1..] + [x];
      assert Power(|s|) == 256 * Power(|s| - 1);
      assert 256 * (x * Power(|s| - 1)) == x * Power(|s|);
    } else {
      assert [x][1..] == [] && s + [x] == [x];
    }
  }

  lemma Powers()
    ensures Power(2) == 0x1_0000 && Power(4) == 0x1_0000_0000 && Power(8) == 0x1_0000_0000_0000_0000
  {
    assert Power(1) == 256;
    assert Power(3) == 256 * Power(2);
    assert Power(5) == 256 * Power(4);
    assert Power(6) == 256 * Power(5);
    assert Power(7) == 256 * Power(6);
  }

  /** int64 values travel as their two's complement. */
  function TwosComplement(v: int): nat
    requires -0x8000_0000_0000_0000 <= v < 0x8000_0000_0000_0000
  {
    if v < 0 then v + 0x1_0000_0000_0000_0000 else v
  }

  function Signed(u: nat): int {
    if u < 0x8000_0000_0000_0000 then u else u - 0x1_0000_0000_0000_0000
  }

  lemma SignedRoundTrip(v: int)
    requires -0x8000_0000_0000_0000 <= v < 0x8000_0000_0000_0000
    ensures Signed(Value(LittleEndian(TwosComplement(v), 8))) == v
  {
    Powers();
    ValueOfBytes(TwosComplement(v), 8);
  }

  /** A vector of bytes that fields are pushed on. */
  class ByteVector {
    var bytes: seq<Octet>

    constructor ()
      ensures bytes == []
    {
      bytes := [];
    }

    method PutU16(v: nat)
      requires v < 0x1_0000
      modifies this
      ensures bytes == old(bytes) + LittleEndian(v, 2)
    {
      bytes := bytes + [v % 256];
      bytes := bytes + [v / 256 % 256];
      FirstByte(v, 2);
      FirstByte(v / 256, 1);
    }

    /** The loop of PutU32 and PutU64. */
    method PutLoop(v: nat, n: nat)
      modifies this
      ensures bytes == old(bytes) + LittleEndian(v, n)
    {
      for i := 0 to n
        invariant bytes == old(bytes) + LittleEndian(v, n)[..i]
      {
        bytes := bytes + [v / Power(i) % 256];
      }
    }

    method PutU32(v: nat)
      requires v < 0x1_0000_0000
      modifies this
      ensures bytes == old(bytes) + LittleEndian(v, 4)
    {
      PutLoop(v, 4);
    }
  }

  /** What reading n bytes at pos comes to: the value, or zero and no longer ok. */
  function FieldAt(data: seq<Octet>, pos: nat, n: nat): nat {
    if pos + n > |data| then 0 else Value(data[pos..pos + n])
  }

  class Reader {
    const data: seq<Octet>
    var pos: nat
    var ok: bool

    constructor (data: seq<Octet>)
      ensures this.data == data && pos == 0 && ok
    {
      this.data := data;
      pos, ok := 0, true;
    }

    method ReadField(n: nat) returns (v: nat)
      requires pos <= |data|
      modifies this
      ensures pos <= |data|
      ensures v == FieldAt(data, old(pos), n)
      ensures ok == (old(ok) && old(pos) + n <= |data|)
      ensures pos == if old(pos) + n <= |data| then old(pos) + n else old(pos)
    {
      if pos + n > |data| {
        ok := false;
        return 0;
      }
      v := 0;
      for i := 0 to n
        invariant pos == old(pos) && ok == old(ok)
        invariant v == Value(data[pos..pos + i])
      {
        ValueSnoc(data[pos..pos + i], data[pos + i]);
        assert data[pos..pos + i + 1] == data[pos..pos + i] + [data[pos + i]];
        v := v + data[pos + i] * Power(i);
      }
      pos := pos + n;
    }
  }

  // ---- frames ----

  datatype Message = Message(kind: nat, payload: seq<Octet>)

  predicate Typed(m: Message) {
    m.kind < 0x1_0000
  }

  function Header(kind: nat, length: nat): (h: seq<Octet>)
    ensures |h| == HEADER_BYTES
  {
    LittleEndian(MAGIC, 4) + LittleEndian(kind, 2) + LittleEndian(VERSION, 2) + LittleEndian(length, 4)
  }

  /** The payload length is truncated to 32 bits, as the cast does. */
  function Framed(m: Message): seq<Octet> {
    Header(m.kind, U32(|m.payload|)) + m.payload
  }

  datatype FrameHeader = FrameHeader(kind: nat, version: nat, length: nat, ok: bool)

  function HeaderOf(h: seq<Octet>): FrameHeader
    requires |h| == HEADER_BYTES
  {
    var length := Value(h[8..12]);
    FrameHeader(Value(h[4..6]), Value(h[6..8]), length,
                Value(h[0..4]) == MAGIC && Value(h[6..8]) == VERSION && length <= MAX_PAYLOAD)
  }

  lemma HeaderSlices(a: seq<Octet>, b: seq<Octet>, c: seq<Octet>, d: seq<Octet>)
    requires |a| == |d| == 4 && |b| == |c| == 2
    ensures var h := a + b + c + d; h[0..4] == a && h[4..6] == b && h[6..8] == c && h[8..12] == d
  {
  }

  lemma HeaderFields(kind: nat, length: nat)
    requires kind < 0x1_0000 && length < 0x1_0000_0000
    ensures HeaderOf(Header(kind, length)) == FrameHeader(kind, VERSION, length, length <= MAX_PAYLOAD)
  {
    HeaderSlices(LittleEndian(MAGIC, 4), LittleEndian(kind, 2), LittleEndian(VERSION, 2), LittleEndian(length, 4));
    Powers();
    ValueOfBytes(MAGIC, 4);
    ValueOfBytes(kind, 2);
    ValueOfBytes(VERSION, 2);
    ValueOfBytes(length, 4);
  }

  lemma HeaderIsOfItsFields(h: seq<Octet>)
    requires |h| == HEADER_BYTES && HeaderOf(h).ok
    ensures h == Header(HeaderOf(h).kind, HeaderOf(h).length)
    ensures HeaderOf(h).kind < 0x1_0000
  {
    BytesOfValue(h[0..4]);
    BytesOfValue(h[4..6]);
    BytesOfValue(h[6..8]);
    BytesOfValue(h[8..12]);
    Powers();
    ValueBelow(h[4..6]);
    assert h == h[0..4] + h[4..6] + h[6..8] + h[8..12];
  }

  /** One message off the front of a stream, as RecvFramed and RecvMsg read it. */
  function Parsed(stream: seq<Octet>): Option<(Message, seq<Octet>)> {
    if |stream| < HEADER_BYTES then None
    else
      var header := HeaderOf(stream[..HEADER_BYTES]);
      if !header.ok || |stream| < HEADER_BYTES + header.length then None
      else
        Some((Message(header.kind, stream[HEADER_BYTES..HEADER_BYTES + header.length]),
              stream[HEADER_BYTES + header.length..]))
  }

  /** A framed message parses back, whatever follows it, exactly when its payload is within the limit. */
  lemma ParsedFramed(m: Message, rest: seq<Octet>)
    requires Typed(m)
    ensures Parsed(Framed(m) + rest) == Some((m, rest)) <==> |m.payload| <= MAX_PAYLOAD
  {
    var stream := Framed(m) + rest;
    assert stream[..HEADER_BYTES] == Header(m.kind, U32(|m.payload|));
    HeaderFields(m.kind, U32(|m.payload|));
    if |m.payload| <= MAX_PAYLOAD {
      assert stream[HEADER_BYTES..HEADER_BYTES + |m.payload|] == m.payload;
      assert stream[HEADER_BYTES + |m.payload|..] == rest;
    }
  }

  /** Whatever parses is the frame of what it parses to: nothing else is accepted. */
  lemma ParsedIsFramed(stream: seq<Octet>)
    ensures match Parsed(stream)
            case None => true
            case Some((m, rest)) => Typed(m) && |m.payload| <= MAX_PAYLOAD && stream == Framed(m) + rest
  {
    if Parsed(stream).Some? {
      var h := stream[..HEADER_BYTES];
      HeaderIsOfItsFields(h);
      var (m, rest) := Parsed(stream).value;
      assert stream == h + m.payload + rest;
    }
  }

  function FramedAll(messages: seq<Message>): seq<Octet> {
    if messages == [] then [] else Framed(messages[0]) + FramedAll(messages[1..])
  }

  predicate Sendable(messages: seq<Message>) {
    forall i :: 0 <= i < |messages| ==> Typed(messages[i]) && |messages[i].payload| <= MAX_PAYLOAD
  }

  /** n messages off the front of a stream. */
  function ParsedAll(stream: seq<Octet>, n: nat): Option<(seq<Message>, seq<Octet>)> {
    if n == 0 then Some(([], stream))
    else match Parsed(stream)
      case None => None
      case Some((m, rest)) =>
        match ParsedAll(rest, n - 1)
        case None => None
        case Some((messages, rest')) => Some(([m] + messages, rest'))
  }

  /** A stream of framed messages parses to the messages. */
  lemma {:induction false} StreamRoundTrip(messages: seq<Message>, rest: seq<Octet>)
    requires Sendable(messages)
    ensures ParsedAll(FramedAll(messages) + rest, |messages|) == Some((messages, rest))
  {
    if messages == [] {
      assert FramedAll(messages) + rest == rest;
    } else {
      StreamRoundTrip(messages[1..], rest);
      ParsedFramed(messages[0], FramedAll(messages[1..]) + rest);
      assert FramedAll(messages) + rest == Framed(messages[0]) + (FramedAll(messages[1..]) + rest);
      assert messages == [messages[0]] + messages[1..];
    }
  }

  lemma {:induction false} FramedAllAppend(messages: seq<Message>, m: Message)
    ensures FramedAll(messages + [m]) == FramedAll(messages) + Framed(m)
  {
    if messages == [] {
      assert [m][1..] == [] && FramedAll([m]) == Framed(m) + FramedAll([]);
    } else {
      FramedAllAppend(messages[1..], m);
      assert (messages + [m])[1..] == messages[1..] + [m];
    }
  }

  /** v stands at position k, its low byte first. */
  predicate LowFirst(data: seq<Octet>, k: nat, v: nat) {
    && k + 4 <= |data|
    && data[k] == v % 256 && data[k + 1] == v / 256 % 256
    && data[k + 2] == v / 65536 % 256 && data[k + 3] == v / 16777216 % 256
  }

  lemma FourBytes(v: nat)
    ensures LowFirst(LittleEndian(v, 4), 0, v)
  {
    Powers();
  }

  lemma LowFirstWithin(before: seq<Octet>, data: seq<Octet>, after: seq<Octet>, k: nat, v: nat)
    requires LowFirst(data, k, v)
    ensures LowFirst(before + data + after, |before| + k, v)
  {
    var all := before + data + after;
    assert forall j :: 0 <= j < |data| ==> all[|before| + j] == data[j];
  }

  lemma PartsInPlace(a: seq<Octet>, b: seq<Octet>, c: seq<Octet>, d: seq<Octet>, p: seq<Octet>, x: nat, y: nat)
    requires |b| == |c| == 2 && |a| == |d| == 4 && LowFirst(a, 0, x) && LowFirst(d, 0, y)
    ensures var f := a + b + c + d + p;
            && LowFirst(f, 0, x) && f[4..6] == b && f[6..8] == c && LowFirst(f, 8, y) && f[12..] == p
  {
    var f := a + b + c + d + p;
    assert f[0..4] == a && f[8..12] == d;
    assert forall j :: 0 <= j < 4 ==> f[j] == f[0..4][j] && f[8 + j] == f[8..12][j];
  }

  lemma TwoBytes(v: nat)
    requires v < 0x1_0000
    ensures LittleEndian(v, 2) == [v % 256, v / 256]
  {
    Powers();
  }

  /** The bytes of a frame on the wire: magic, kind, version 2, length, payload, each number low byte first. */
  lemma FrameLayout(m: Message)
    requires Typed(m)
    ensures var f := Framed(m);
            && LowFirst(f, 0, 0x4F58_4831) && f[4..6] == [m.kind % 256, m.kind / 256] && f[6..8] == [2, 0]
            && LowFirst(f, 8, U32(|m.payload|)) && f[12..] == m.payload
  {
    FourBytes(MAGIC);
    FourBytes(U32(|m.payload|));
    TwoBytes(m.kind);
    TwoBytes(VERSION);
    PartsInPlace(LittleEndian(MAGIC, 4), LittleEndian(m.kind, 2), LittleEndian(VERSION, 2),
                 LittleEndian(U32(|m.payload|), 4), m.payload, MAGIC, U32(|m.payload|));
  }

  // ---- the Init payload ----

  datatype Init = Init(
    width: nat, height: nat, fps: nat, bitrateMbps: nat, keyframeIntervalSec: nat, slotCount: nat,
    preset: nat, codec: nat, profile: nat)

  function Fields(i: Init): seq<nat> {
    [i.width, i.height, i.fps, i.bitrateMbps, i.keyframeIntervalSec, i.slotCount, i.preset, i.codec, i.profile]
  }

  function FromFields(f: seq<nat>): Init
    requires |f| == 9
  {
    Init(f[0], f[1], f[2], f[3], f[4], f[5], f[6], f[7], f[8])
  }

  function Words(f: seq<nat>): (s: seq<Octet>)
    ensures |s| == 4 * |f|
  {
    if f == [] then [] else LittleEndian(f[0], 4) + Words(f[1..])
  }

  function InitBytes(i: Init): seq<Octet> {
    Words(Fields(i))
  }

  predicate FitsWords(f: seq<nat>) {
    forall i :: 0 <= i < |f| ==> f[i] < 0x1_0000_0000
  }

  /** What DeserializeInit accepts of nine fields. */
  predicate Acceptable(i: Init) {
    i.preset <= 2 && i.codec <= 1 && i.profile <= 1 && 0 < i.slotCount <= MAX_SLOTS && i.width != 0 && i.height != 0
  }

  predicate ValidInit(i: Init) {
    FitsWords(Fields(i)) && Acceptable(i)
  }

  function WordAt(data: seq<Octet>, i: nat): nat
    requires |data| >= 4 * i + 4
  {
    Value(data[4 * i..4 * i + 4])
  }

  function WordsOf(data: seq<Octet>, n: nat): (f: seq<nat>)
    requires |data| >= 4 * n
    ensures |f| == n
  {
    seq(n, i requires 0 <= i < n => WordAt(data, i))
  }

  lemma WordAfter(data: seq<Octet>, i: nat)
    requires |data| >= 4 * i + 8
    ensures WordAt(data[4..], i) == WordAt(data, i + 1)
  {
    assert data[4..][4 * i..4 * i + 4] == data[4 * (i + 1)..4 * (i + 1) + 4];
  }

  lemma WordsFirst(data: seq<Octet>, n: nat)
    requires 0 < n && |data| >= 4 * n
    ensures WordsOf(data, n) == [Value(data[..4])] + WordsOf(data[4..], n - 1)
  {
    assert data[0..4] == data[..4];
    forall i | 0 <= i < n - 1
      ensures WordAt(data[4..], i) == WordAt(data, i + 1)
    {
      WordAfter(data, i);
    }
  }

  function ParsedInit(data: seq<Octet>): Option<Init> {
    if |data| < INIT_BYTES then None
    else
      var i := FromFields(NineWords(data));
      if Acceptable(i) then Some(i) else None
  }

  function NineWords(data: seq<Octet>): (f: seq<nat>)
    requires |data| >= INIT_BYTES
    ensures |f| == 9
  {
    WordsOf(data, 9)
  }

  lemma WordBack(v: nat)
    requires v <= 0xFFFF_FFFF
    ensures |LittleEndian(v, 4)| == 4 && Value(LittleEndian(v, 4)) == v
  {
    Powers();
    ValueOfBytes(v, 4);
  }

  lemma {:induction false} WordsBack(f: seq<nat>, rest: seq<Octet>)
    requires FitsWords(f)
    ensures WordsOf(Words(f) + rest, |f|) == f
  {
    if f != [] {
      WordsBack(f[1..], rest);
      WordBack(f[0]);
      var data := Words(f) + rest;
      assert data[..4] == LittleEndian(f[0], 4);
      assert data[4..] == Words(f[1..]) + rest;
      WordsFirst(data, |f|);
    }
  }

  lemma {:induction false} WordsOfPrefix(data: seq<Octet>, n: nat)
    requires |data| >= 4 * n
    ensures |WordsOf(data, n)| == n && FitsWords(WordsOf(data, n))
    ensures Words(WordsOf(data, n)) == data[..4 * n]
  {
    if n > 0 {
      WordsOfPrefix(data[4..], n - 1);
      BytesOfValue(data[..4]);
      Powers();
      ValueBelow(data[..4]);
      WordsFirst(data, n);
      assert WordsOf(data, n)[1..] == WordsOf(data[4..], n - 1);
      assert data[..4 * n] == data[..4] + data[4..][..4 * (n - 1)];
    }
  }

  /** DeserializeInit inverts SerializeInit exactly on the valid values, whatever follows in the buffer. */
  lemma InitRoundTrip(i: Init, rest: seq<Octet>)
    requires FitsWords(Fields(i))
    ensures ParsedInit(InitBytes(i) + rest) == Some(i) <==> ValidInit(i)
  {
    WordsBack(Fields(i), rest);
    assert NineWords(InitBytes(i) + rest) == Fields(i);
  }

  /** Any accepted buffer begins with the serialization of its result, which is a valid value. */
  lemma AcceptedInitIsSerialized(data: seq<Octet>)
    ensures match ParsedInit(data)
            case None => true
            case Some(i) => ValidInit(i) && InitBytes(i) <= data
  {
    if ParsedInit(data).Some? {
      WordsOfPrefix(data, 9);
      var i := ParsedInit(data).value;
      assert Fields(i) == NineWords(data);
    }
  }

  lemma {:induction false} WordPlace(f: seq<nat>, k: nat)
    requires k < |f|
    ensures LowFirst(Words(f), 4 * k, f[k])
  {
    FourBytes(f[0]);
    if k == 0 {
      LowFirstWithin([], LittleEndian(f[0], 4), Words(f[1..]), 0, f[0]);
      assert [] + LittleEndian(f[0], 4) + Words(f[1..]) == Words(f);
    } else {
      WordPlace(f[1..], k - 1);
      LowFirstWithin(LittleEndian(f[0], 4), Words(f[1..]), [], 4 * (k - 1), f[k]);
      assert LittleEndian(f[0], 4) + Words(f[1..]) + [] == Words(f);
    }
  }

  /** Where each field of the Init payload is on the wire. */
  lemma InitLayout(i: Init)
    ensures var s := InitBytes(i);
            && |s| == 36
            && LowFirst(s, 0, i.width) && LowFirst(s, 4, i.height) && LowFirst(s, 8, i.fps)
            && LowFirst(s, 12, i.bitrateMbps) && LowFirst(s, 16, i.keyframeIntervalSec) && LowFirst(s, 20, i.slotCount)
            && LowFirst(s, 24, i.preset) && LowFirst(s, 28, i.codec) && LowFirst(s, 32, i.profile)
  {
    var f := Fields(i);
    WordPlace(f, 0);
    WordPlace(f, 1);
    WordPlace(f, 2);
    WordPlace(f, 3);
    WordPlace(f, 4);
    WordPlace(f, 5);
    WordPlace(f, 6);
    WordPlace(f, 7);
    WordPlace(f, 8);
  }

  /** A buffer is accepted exactly when it has nine words, the codes are known, and size and slot count are usable. */
  lemma AcceptedExactly(i: Init, rest: seq<Octet>)
    requires FitsWords(Fields(i))
    ensures ParsedInit(InitBytes(i) + rest) == Some(i) <==>
              i.preset <= 2 && i.codec <= 1 && i.profile <= 1 && 1 <= i.slotCount <= 16 && i.width > 0 && i.height > 0
  {
    InitRoundTrip(i, rest);
  }

  method SerializeInit(i: Init) returns (bytes: seq<Octet>)
    requires FitsWords(Fields(i))
    ensures bytes == InitBytes(i)
  {
    bytes := SerializeWords(Fields(i));
  }

  method SerializeWords(f: seq<nat>) returns (bytes: seq<Octet>)
    requires FitsWords(f)
    ensures bytes == Words(f)
  {
    var p := new ByteVector();
    for k := 0 to |f|
      invariant p.bytes + Words(f[k..]) == Words(f)
    {
      p.PutU32(f[k]);
      assert f[k..][1..] == f[k + 1..];
    }
    bytes := p.bytes;
  }

  method DeserializeInit(data: seq<Octet>) returns (init: Option<Init>)
    ensures init == ParsedInit(data)
  {
    var r := new Reader(data);
    var f: seq<nat> := [];
    while |f| < 9
      invariant |f| <= 9 && r.pos <= |data| && r.data == data
      invariant r.ok ==> r.pos == 4 * |f| && f == WordsOf(data, |f|)
      invariant !r.ok ==> |data| < INIT_BYTES
    {
      WordsSnoc(data, |f|);
      var v := r.ReadField(4);
      f := f + [v];
    }
    if !r.ok {
      return None;
    }
    var i := FromFields(f);
    if i.preset > 2 || i.codec > 1 || i.profile > 1 {
      return None;
    }
    if i.slotCount == 0 || i.slotCount > MAX_SLOTS || i.width == 0 || i.height == 0 {
      return None;
    }
    init := Some(i);
  }

  lemma WordsSnoc(data: seq<Octet>, n: nat)
    ensures |data| >= 4 * n + 4 ==> WordsOf(data, n + 1) == WordsOf(data, n) + [Value(data[4 * n..4 * n + 4])]
  {
  }

  // ---- the socket ----

  /** What one send or read does: moves at most so many bytes, at least one if there is room; is interrupted; fails. */
  datatype IoStep = Moves(atMost: nat) | Interrupted | Fails

  function Moved(atMost: nat, room: nat): nat {
    if atMost < room then atMost else room
  }

  /** after is what is left of before once some calls are used up. */
  predicate UsedUp(before: seq<IoStep>, after: seq<IoStep>) {
    |after| <= |before| && after == before[|before| - |after|..]
  }

  /** The calls used up end in one that failed or moved nothing, or there are none left. */
  predicate Broken(before: seq<IoStep>, after: seq<IoStep>) {
    after == [] || (0 < |before| - |after| && before[|before| - |after| - 1] in {Fails, Moves(0)})
  }

  class Socket {
    var wire: seq<Octet>       // everything sent so far
    var taken: nat             // how much of it was received
    var sends: seq<IoStep>     // what the calls still to come will do
    var receives: seq<IoStep>

    predicate Valid()
      reads this
    {
      taken <= |wire|
    }

    function Unread(): seq<Octet>
      requires Valid()
      reads this
    {
      wire[taken..]
    }

    constructor (sends: seq<IoStep>, receives: seq<IoStep>)
      ensures Valid() && wire == [] && taken == 0 && this.sends == sends && this.receives == receives
    {
      wire, taken := [], 0;
      this.sends, this.receives := sends, receives;
    }

    /** Sends all of data or fails; a failure leaves a proper prefix of it on the wire. */
    method SendAll(data: seq<Octet>) returns (ok: bool)
      requires Valid()
      modifies this`wire, this`sends
      ensures Valid()
      ensures ok ==> wire == old(wire) + data
      ensures !ok ==> exists n :: 0 <= n < |data| && wire == old(wire) + data[..n]
      ensures UsedUp(old(sends), sends) && (!ok ==> Broken(old(sends), sends))
    {
      var off := 0;
      ghost var k := 0;
      while off < |data|
        invariant 0 <= off <= |data| && 0 <= k <= |old(sends)|
        invariant wire == old(wire) + data[..off] && sends == old(sends)[k..]
        decreases |sends|
      {
        if sends == [] {
          return false;
        }
        var step := sends[0];
        sends, k := sends[1..], k + 1;
        match step {
          case Moves(atMost) =>
            var n := Moved(atMost, |data| - off);
            if n == 0 {
              return false;
            }
            wire := wire + data[off..off + n];
            assert data[..off + n] == data[..off] + data[off..off + n];
            off := off + n;
          case Interrupted =>
          case Fails =>
            return false;
        }
      }
      assert data[..off] == data;
      ok := true;
    }

    /** One call of read, with room for so many bytes. */
    method Read(room: nat) returns (outcome: IoStep, chunk: seq<Octet>)
      requires Valid() && receives != []
      modifies this`taken, this`receives
      ensures Valid() && old(taken) <= taken && |chunk| <= room && old(Unread()) == chunk + Unread()
      ensures receives == old(receives)[1..] && outcome == old(receives)[0]
      ensures chunk != [] ==> outcome.Moves?
      ensures chunk == [] && outcome.Moves? ==> room == 0 || old(Unread()) == [] || outcome == Moves(0)
    {
      outcome, receives := receives[0], receives[1..];
      var n := if outcome.Moves? then Moved(outcome.atMost, Moved(room, |wire| - taken)) else 0;
      assert wire[taken..] == wire[taken..taken + n] + wire[taken + n..];
      chunk := wire[taken..taken + n];
      taken := taken + n;
    }

    /** Reads exactly len bytes of the stream, or fails: at its end, or when a call does. */
    method RecvAll(len: nat) returns (ok: bool, data: seq<Octet>)
      requires Valid()
      modifies this`taken, this`receives
      ensures Valid() && old(taken) <= taken
      ensures ok ==> |data| == len && old(Unread()) == data + Unread()
      ensures UsedUp(old(receives), receives)
      ensures !ok ==> |old(Unread())| < len || Broken(old(receives), receives)
    {
      data := [];
      ghost var stream, k := Unread(), 0;
      while |data| < len
        invariant Valid() && old(taken) <= taken && |data| <= len && |data| <= |stream|
        invariant data == stream[..|data|] && Unread() == stream[|data|..]
        invariant k <= |old(receives)| && receives == old(receives)[k..]
        decreases |receives|
      {
        if receives == [] {
          return false, data;
        }
        var outcome, chunk := Read(len - |data|);
        k := k + 1;
        assert outcome == old(receives)[k - 1];
        if chunk != [] {
          assert chunk + Unread() == stream[|data|..];
          data := data + chunk;
        } else if outcome != Interrupted {
          return false, data;
        }
      }
      ok := true;
    }

    method SendMessage(m: Message) returns (ok: bool)
      requires Valid() && Typed(m)
      modifies this`wire, this`sends
      ensures Valid()
      ensures ok ==> wire == old(wire) + Framed(m)
      ensures UsedUp(old(sends), sends) && (!ok ==> Broken(old(sends), sends))
    {
      var out := new ByteVector();
      out.PutU32(MAGIC);
      out.PutU16(m.kind);
      out.PutU16(VERSION);
      out.PutU32(U32(|m.payload|));
      assert out.bytes == Header(m.kind, U32(|m.payload|));
      ok := SendAll(out.bytes + m.payload);
    }

    /** RecvFramed and RecvMsg: a message received is the one the unread stream parses to. */
    method RecvFramed() returns (message: Option<Message>)
      requires Valid()
      modifies this`taken, this`receives
      ensures Valid() && old(taken) <= taken
      ensures message.Some? ==> Parsed(old(Unread())) == Some((message.value, Unread()))
      ensures UsedUp(old(receives), receives)
      ensures message == None ==> Parsed(old(Unread())) == None || Broken(old(receives), receives)
    {
      var ok, header := RecvAll(HEADER_BYTES);
      if !ok {
        return None;
      }
      var parsed := ParseHeader(header);
      if !parsed.ok {
        return None;
      }
      var payload;
      ok, payload := RecvAll(parsed.length);
      if !ok {
        return None;
      }
      assert old(Unread())[..HEADER_BYTES] == header;
      assert old(Unread()) == header + payload + Unread();
      message := Some(Message(parsed.kind, payload));
    }

    method SendMessages(messages: seq<Message>) returns (ok: bool)
      requires Valid() && Sendable(messages)
      modifies this`wire, this`sends
      ensures Valid()
      ensures ok ==> wire == old(wire) + FramedAll(messages)
      ensures UsedUp(old(sends), sends) && (!ok ==> Broken(old(sends), sends))
    {
      for i := 0 to |messages|
        invariant Valid() && wire == old(wire) + FramedAll(messages[..i]) && UsedUp(old(sends), sends)
      {
        ok := SendMessage(messages[i]);
        if !ok {
          return;
        }
        FramedAllAppend(messages[..i], messages[i]);
        assert messages[..i + 1] == messages[..i] + [messages[i]];
      }
      assert messages[..|messages|] == messages;
      ok := true;
    }

    method RecvMessages(n: nat) returns (ok: bool, messages: seq<Message>)
      requires Valid()
      modifies this`taken, this`receives
      ensures Valid()
      ensures ok ==> ParsedAll(old(Unread()), n) == Some((messages, Unread()))
      ensures UsedUp(old(receives), receives)
      ensures !ok ==> ParsedAll(old(Unread()), n) == None || Broken(old(receives), receives)
    {
      messages := [];
      ghost var start := Unread();
      for i := 0 to n
        invariant Valid() && |messages| == i && UsedUp(old(receives), receives)
        invariant ParsedAll(start, i) == Some((messages, Unread()))
      {
        ghost var before := Unread();
        var message := RecvFramed();
        if message == None {
          ParsedAllStops(start, i, n, messages, before);
          return false, messages;
        }
        ParsedAllAppend(start, i, messages, before, message.value, Unread());
        messages := messages + [message.value];
      }
      ok := true;
    }
  }

  lemma {:induction false} ParsedAllAppend(stream: seq<Octet>, n: nat, messages: seq<Message>, before: seq<Octet>,
                                           m: Message, rest: seq<Octet>)
    requires ParsedAll(stream, n) == Some((messages, before)) && Parsed(before) == Some((m, rest))
    ensures ParsedAll(stream, n + 1) == Some((messages + [m], rest))
  {
    if n == 0 {
      assert ParsedAll(rest, 0) == Some(([], rest));
      assert messages + [m] == [m] + [];
    } else {
      var (first, rest1) := Parsed(stream).value;
      ParsedAllAppend(rest1, n - 1, messages[1..], before, m, rest);
      assert messages + [m] == [first] + (messages[1..] + [m]);
    }
  }

  lemma {:induction false} ParsedAllStops(stream: seq<Octet>, i: nat, n: nat, messages: seq<Message>,
                                          before: seq<Octet>)
    requires i < n && ParsedAll(stream, i) == Some((messages, before))
    ensures Parsed(before) == None ==> ParsedAll(stream, n) == None
  {
    if i > 0 {
      var (first, rest) := Parsed(stream).value;
      ParsedAllStops(rest, i - 1, n - 1, messages[1..], before);
    }
  }

  method ParseHeader(header: seq<Octet>) returns (out: FrameHeader)
    ensures |header| < HEADER_BYTES ==> !out.ok
    ensures |header| == HEADER_BYTES ==> out == HeaderOf(header)
  {
    if |header| < HEADER_BYTES {
      return FrameHeader(1, 0, 0, false);
    }
    var r := new Reader(header[..HEADER_BYTES]);
    var magic := r.ReadField(4);
    var kind := r.ReadField(2);
    var version := r.ReadField(2);
    var length := r.ReadField(4);
    out := FrameHeader(kind, version, length, r.ok && magic == MAGIC && version == VERSION && length <= MAX_PAYLOAD);
    assert header[..HEADER_BYTES] == header || |header| != HEADER_BYTES;
  }

  lemma WholeStream(messages: seq<Message>, stream: seq<Octet>)
    requires Sendable(messages) && stream == FramedAll(messages)
    ensures ParsedAll(stream, |messages|) == Some((messages, []))
  {
    StreamRoundTrip(messages, []);
    assert stream + [] == stream;
  }

  /** Receiving what a stream of framed messages holds. */
  method ReceiveSent(socket: Socket, ghost messages: seq<Message>, count: nat)
    returns (received: bool, result: seq<Message>)
    requires socket.Valid() && Sendable(messages) && socket.Unread() == FramedAll(messages) && count == |messages|
    modifies socket
    ensures received ==> result == messages
    ensures !received ==> Broken(old(socket.receives), socket.receives)
    ensures socket.sends == old(socket.sends)
  {
    WholeStream(messages, socket.Unread());
    received, result := socket.RecvMessages(count);
  }

  /**
    Whatever the partial writes, partial reads and interruptions: what is received is what was sent; and sending or
    receiving fails only where a call failed or moved nothing, or the calls run out.
   */
  method Exchange(messages: seq<Message>, sends: seq<IoStep>, receives: seq<IoStep>)
    returns (sent: bool, received: bool, result: seq<Message>, sendsLeft: seq<IoStep>, receivesLeft: seq<IoStep>)
    requires Sendable(messages)
    ensures sent && received ==> result == messages
    ensures !sent ==> Broken(sends, sendsLeft)
    ensures sent && !received ==> Broken(receives, receivesLeft)
  {
    var socket := new Socket(sends, receives);
    result, received := [], false;
    sent := socket.SendMessages(messages);
    if sent {
      received, result := ReceiveSent(socket, messages, |messages|);
    }
    sendsLeft, receivesLeft := socket.sends, socket.receives;
  }
}
