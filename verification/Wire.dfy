/** The version-2 SAUD datagram: the C++ serializer and parser
    (core/src/PacketSerializer.cpp) and the Swift parser
    (ios/SyncAudioReceiver/AudioPacket.swift). */
module Wire {
  import opened Numbers

  const HEADER_SIZE := 52
  const MAXIMUM_DATAGRAM_SIZE := 1200
  const MAXIMUM_PAYLOAD_SIZE := MAXIMUM_DATAGRAM_SIZE - HEADER_SIZE
  const MAGIC: seq<u8> := [0x53, 0x41, 0x55, 0x44]
  const PROTOCOL_VERSION: u8 := 2
  const PCM_S16_LITTLE_ENDIAN: u8 := 1

  datatype Packet = Packet(
    protocolVersion: u8,
    flags: u16,
    sessionId: u64,
    streamId: u32,
    sequenceNumber: u32,
    sampleRate: u32,
    channelCount: u16,
    sampleFormat: u8,
    startFrame: u64,
    timestamp: u64,
    frameCount: u16,
    payload: seq<u8>)

  // ---- Network byte order ------------------------------------------------

  /** The value of four bytes in network byte order. */
  function Word(a: int, b: int, c: int, d: int): int {
    a * 0x100_0000 + b * 0x1_0000 + c * 0x100 + d
  }

  function U16Bytes(v: u16): (b: seq<u8>)
    ensures |b| == 2 && b[0] as int * 0x100 + b[1] == v
  {
    [v / 0x100, v % 0x100]
  }

  /** Big-endian: the ensures is the positional value, not the way it is built. */
  function U32Bytes(v: u32): (b: seq<u8>)
    ensures |b| == 4
    ensures Word(b[0], b[1], b[2], b[3]) == v
  {
    U16Bytes(v / 0x1_0000) + U16Bytes(v % 0x1_0000)
  }

  function U64Bytes(v: u64): (b: seq<u8>)
    ensures |b| == 8
    ensures Word(b[0], b[1], b[2], b[3]) * 0x1_0000_0000 + Word(b[4], b[5], b[6], b[7]) == v
  {
    U32Bytes(v / 0x1_0000_0000) + U32Bytes(v % 0x1_0000_0000)
  }

  function U16At(d: seq<u8>, i: nat): u16
    requires i + 2 <= |d|
  {
    d[i] as int * 0x100 + d[i + 1]
  }

  function U32At(d: seq<u8>, i: nat): u32
    requires i + 4 <= |d|
  {
    U16At(d, i) as int * 0x1_0000 + U16At(d, i + 2)
  }

  function U64At(d: seq<u8>, i: nat): u64
    requires i + 8 <= |d|
  {
    U32At(d, i) as int * 0x1_0000_0000 + U32At(d, i + 4)
  }

  // Writing a field and reading it back at the same place.

  lemma U16Field(d: seq<u8>, i: nat, v: u16)
    requires i + 2 <= |d|
    ensures d[i..i + 2] == U16Bytes(v) <==> U16At(d, i) == v
  {
    assert d[i..i + 2] == [d[i], d[i + 1]];
  }

  lemma U32Field(d: seq<u8>, i: nat, v: u32)
    requires i + 4 <= |d|
    ensures d[i..i + 4] == U32Bytes(v) <==> U32At(d, i) == v
  {
    U16Field(d, i, v / 0x1_0000);
    U16Field(d, i + 2, v % 0x1_0000);
    assert d[i..i + 4] == d[i..i + 2] + d[i + 2..i + 4];
    var b := U32Bytes(v);
    assert b[..2] == U16Bytes(v / 0x1_0000) && b[2..] == U16Bytes(v % 0x1_0000);
    if d[i..i + 4] == b {
      assert d[i..i + 2] == b[..2] && d[i + 2..i + 4] == b[2..];
    }
  }

  lemma U64Field(d: seq<u8>, i: nat, v: u64)
    requires i + 8 <= |d|
    ensures d[i..i + 8] == U64Bytes(v) <==> U64At(d, i) == v
  {
    U32Field(d, i, v / 0x1_0000_0000);
    U32Field(d, i + 4, v % 0x1_0000_0000);
    assert d[i..i + 8] == d[i..i + 4] + d[i + 4..i + 8];
    var b := U64Bytes(v);
    assert b[..4] == U32Bytes(v / 0x1_0000_0000) && b[4..] == U32Bytes(v % 0x1_0000_0000);
    if d[i..i + 8] == b {
      assert d[i..i + 4] == b[..4] && d[i + 4..i + 8] == b[4..];
    }
  }

  // ---- Validation --------------------------------------------------------

  /** What `validate` accepts. */
  predicate WellFormed(p: Packet) {
    && p.protocolVersion == PROTOCOL_VERSION
    && 8000 <= p.sampleRate <= 192000
    && 0 < p.channelCount <= 2
    && p.streamId != 0
    && p.frameCount != 0
    && p.startFrame <= U64_LIMIT - 1 - p.frameCount
    && p.timestamp <= I64_MAX
    && 0 < |p.payload| <= MAXIMUM_PAYLOAD_SIZE
    && p.sampleFormat == PCM_S16_LITTLE_ENDIAN
    && |p.payload| % (2 * p.channelCount) == 0
    && |p.payload| / (2 * p.channelCount) == p.frameCount
  }

  /** The payload holds exactly `frameCount` interleaved frames. */
  lemma PayloadSize(p: Packet)
    requires 0 < p.channelCount <= 2
    ensures (|p.payload| % (2 * p.channelCount) == 0 && |p.payload| / (2 * p.channelCount) == p.frameCount)
            <==> |p.payload| == p.frameCount * p.channelCount * 2
  {
    if p.channelCount == 1 {
      assert 2 * p.channelCount == 2;
    } else {
      assert 2 * p.channelCount == 4;
    }
  }

  // ---- The datagram as a table of fields -----------------------------------

  function Header(p: Packet): (h: seq<u8>)
    requires |p.payload| < U16_LIMIT
    ensures |h| == HEADER_SIZE
  {
    MAGIC + [p.protocolVersion, HEADER_SIZE] + U16Bytes(p.flags) + U64Bytes(p.sessionId)
    + U32Bytes(p.sequenceNumber) + U32Bytes(p.sampleRate) + U16Bytes(p.channelCount)
    + [p.sampleFormat, 0] + U64Bytes(p.startFrame) + U64Bytes(p.timestamp)
    + U16Bytes(|p.payload|) + U16Bytes(p.frameCount) + U32Bytes(p.streamId)
  }

  /** The packet whose fields sit at the published offsets. */
  function FieldsOf(d: seq<u8>): (p: Packet)
    requires HEADER_SIZE <= |d|
  {
    Packet(d[4], U16At(d, 6), U64At(d, 8), U32At(d, 48), U32At(d, 16), U32At(d, 20), U16At(d, 24), d[26],
           U64At(d, 28), U64At(d, 36), U16At(d, 46), d[HEADER_SIZE..])
  }

  /** Magic and header size in place, and every field of `p` at its published offset. */
  ghost predicate HasLayout(d: seq<u8>, p: Packet) {
    && |d| == HEADER_SIZE + |p.payload|
    && d[..4] == MAGIC
    && d[5] == HEADER_SIZE
    && U16At(d, 44) == |p.payload|
    && FieldsOf(d) == p
  }

  /** A datagram is the encoding of `p` exactly when it has the published layout and a
      zero reserved byte. */
  lemma LayoutCharacterisesEncoding(d: seq<u8>, p: Packet)
    requires |p.payload| < U16_LIMIT
    ensures d == Header(p) + p.payload <==> HasLayout(d, p) && d[27] == 0
  {
    var h := Header(p);
    if |d| == HEADER_SIZE + |p.payload| {
      HeaderFields(d, p);
      assert d == d[..HEADER_SIZE] + d[HEADER_SIZE..];
      assert (h + p.payload)[..HEADER_SIZE] == h && (h + p.payload)[HEADER_SIZE..] == p.payload;
    }
  }

  lemma HeaderFields(d: seq<u8>, p: Packet)
    requires |d| == HEADER_SIZE + |p.payload| && |p.payload| < U16_LIMIT
    ensures d[..HEADER_SIZE] == Header(p)
            <==> d[..4] == MAGIC && d[5] == HEADER_SIZE && d[27] == 0 && U16At(d, 44) == |p.payload|
                 && FieldsOf(d).(payload := p.payload) == p
  {
    HeaderSlices(p);
    Cut(d, Header(p));
    StreamFields(d, p);
    TimingFields(d, p);
    assert d[4..6] == [d[4], d[5]] && d[26..28] == [d[26], d[27]];
  }

  lemma StreamFields(d: seq<u8>, p: Packet)
    requires |d| >= HEADER_SIZE
    ensures (&& d[6..8] == U16Bytes(p.flags) && d[8..16] == U64Bytes(p.sessionId)
             && d[16..20] == U32Bytes(p.sequenceNumber) && d[20..24] == U32Bytes(p.sampleRate)
             && d[24..26] == U16Bytes(p.channelCount))
            <==> (&& U16At(d, 6) == p.flags && U64At(d, 8) == p.sessionId && U32At(d, 16) == p.sequenceNumber
                  && U32At(d, 20) == p.sampleRate && U16At(d, 24) == p.channelCount)
  {
    U16Field(d, 6, p.flags);
    U64Field(d, 8, p.sessionId);
    U32Field(d, 16, p.sequenceNumber);
    U32Field(d, 20, p.sampleRate);
    U16Field(d, 24, p.channelCount);
  }

  lemma TimingFields(d: seq<u8>, p: Packet)
    requires |d| >= HEADER_SIZE && |p.payload| < U16_LIMIT
    ensures (&& d[28..36] == U64Bytes(p.startFrame) && d[36..44] == U64Bytes(p.timestamp)
             && d[44..46] == U16Bytes(|p.payload|) && d[46..48] == U16Bytes(p.frameCount)
             && d[48..52] == U32Bytes(p.streamId))
            <==> (&& U64At(d, 28) == p.startFrame && U64At(d, 36) == p.timestamp && U16At(d, 44) == |p.payload|
                  && U16At(d, 46) == p.frameCount && U32At(d, 48) == p.streamId)
  {
    U64Field(d, 28, p.startFrame);
    U64Field(d, 36, p.timestamp);
    U16Field(d, 44, |p.payload|);
    U16Field(d, 46, p.frameCount);
    U32Field(d, 48, p.streamId);
  }

  /** A datagram starts with a header exactly when it agrees with it field by field. */
  lemma Cut(d: seq<u8>, h: seq<u8>)
    requires |d| >= |h| == HEADER_SIZE
    ensures d[..HEADER_SIZE] == h <==>
            && d[..4] == h[..4] && d[4..6] == h[4..6] && d[6..8] == h[6..8] && d[8..16] == h[8..16]
            && d[16..20] == h[16..20] && d[20..24] == h[20..24] && d[24..26] == h[24..26] && d[26..28] == h[26..28]
            && d[28..36] == h[28..36] && d[36..44] == h[36..44] && d[44..46] == h[44..46] && d[46..48] == h[46..48]
            && d[48..52] == h[48..52]
  {
    assert d[..HEADER_SIZE] == d[..4] + d[4..6] + d[6..8] + d[8..16] + d[16..20] + d[20..24] + d[24..26] + d[26..28]
                               + d[28..36] + d[36..44] + d[44..46] + d[46..48] + d[48..52];
    assert h == h[..4] + h[4..6] + h[6..8] + h[8..16] + h[16..20] + h[20..24] + h[24..26] + h[26..28] + h[28..36]
                + h[36..44] + h[44..46] + h[46..48] + h[48..52];
  }

  lemma HeaderSlices(p: Packet)
    requires |p.payload| < U16_LIMIT
    ensures var h := Header(p);
            && h[..4] == MAGIC && h[4..6] == [p.protocolVersion, HEADER_SIZE]
            && h[6..8] == U16Bytes(p.flags) && h[8..16] == U64Bytes(p.sessionId)
            && h[16..20] == U32Bytes(p.sequenceNumber) && h[20..24] == U32Bytes(p.sampleRate)
            && h[24..26] == U16Bytes(p.channelCount) && h[26..28] == [p.sampleFormat, 0]
            && h[28..36] == U64Bytes(p.startFrame) && h[36..44] == U64Bytes(p.timestamp)
            && h[44..46] == U16Bytes(|p.payload|) && h[46..48] == U16Bytes(p.frameCount)
            && h[48..52] == U32Bytes(p.streamId)
  {
  }

  // ---- C++ serializer and parser -------------------------------------------

  /** `output` is the vector that the append helpers push into. */
  method AppendU8(output: seq<u8>, v: u8) returns (r: seq<u8>)
    ensures r == output + [v]
  {
    r := output + [v];
  }

  method AppendU16(output: seq<u8>, v: u16) returns (r: seq<u8>)
    ensures r == output + U16Bytes(v)
  {
    r := AppendU8(output, v / 0x100);
    r := AppendU8(r, v % 0x100);
  }

  method AppendU32(output: seq<u8>, v: u32) returns (r: seq<u8>)
    ensures r == output + U32Bytes(v)
  {
    r := AppendU16(output, v / 0x1_0000);
    r := AppendU16(r, v % 0x1_0000);
  }

  method AppendU64(output: seq<u8>, v: u64) returns (r: seq<u8>)
    ensures r == output + U64Bytes(v)
  {
    r := AppendU32(output, v / 0x1_0000_0000);
    r := AppendU32(r, v % 0x1_0000_0000);
  }

  /** The value `serialize` returns or throws. */
  function Encode(p: Packet): Result<seq<u8>> {
    if WellFormed(p) then Ok(Header(p) + p.payload) else Err
  }

  method Serialize(p: Packet) returns (r: Result<seq<u8>>)
    ensures r == Encode(p)
    ensures r.Ok? <==> WellFormed(p)
    ensures r.Ok? ==> HasLayout(r.value, p) && r.value[27] == 0 && |r.value| <= MAXIMUM_DATAGRAM_SIZE
  {
    if !WellFormed(p) || |p.payload| >= U16_LIMIT {
      return Err;
    }
    var o := MAGIC;
    o := AppendU8(o, p.protocolVersion);
    o := AppendU8(o, HEADER_SIZE);
    o := AppendU16(o, p.flags);
    o := AppendU64(o, p.sessionId);
    o := AppendU32(o, p.sequenceNumber);
    o := AppendU32(o, p.sampleRate);
    o := AppendU16(o, p.channelCount);
    o := AppendU8(o, p.sampleFormat);
    o := AppendU8(o, 0);
    o := AppendU64(o, p.startFrame);
    o := AppendU64(o, p.timestamp);
    o := AppendU16(o, |p.payload|);
    o := AppendU16(o, p.frameCount);
    o := AppendU32(o, p.streamId);
    assert o == Header(p);
    r := Ok(o + p.payload);
    LayoutCharacterisesEncoding(r.value, p);
  }

  /** The cursor of `deserialize`. Reading past the end throws, which the sticky
      `truncated` flag records; nothing read after that is used. */
  class Reader {
    const data: seq<u8>
    var offset: nat
    var truncated: bool

    ghost predicate Valid()
      reads this
    {
      offset <= |data|
    }

    constructor (bytes: seq<u8>)
      ensures Valid() && data == bytes && offset == 0 && !truncated
    {
      data := bytes;
      offset := 0;
      truncated := false;
    }

    method ReadU8() returns (v: u8)
      requires Valid()
      modifies this
      ensures Valid()
      ensures truncated <==> old(truncated) || old(offset) + 1 > |data|
      ensures !truncated ==> v == data[old(offset)] && offset == old(offset) + 1
    {
      v := 0;
      if 1 > |data| - offset {
        truncated := true;
      } else {
        v := data[offset];
        offset := offset + 1;
      }
    }

    method ReadU16() returns (v: u16)
      requires Valid()
      modifies this
      ensures Valid()
      ensures truncated <==> old(truncated) || old(offset) + 2 > |data|
      ensures !truncated ==> v == U16At(data, old(offset)) && offset == old(offset) + 2
    {
      var high := ReadU8();
      var low := ReadU8();
      v := high as int * 0x100 + low;
    }

    method ReadU32() returns (v: u32)
      requires Valid()
      modifies this
      ensures Valid()
      ensures truncated <==> old(truncated) || old(offset) + 4 > |data|
      ensures !truncated ==> v == U32At(data, old(offset)) && offset == old(offset) + 4
    {
      var high := ReadU16();
      var low := ReadU16();
      v := high as int * 0x1_0000 + low;
    }

    method ReadU64() returns (v: u64)
      requires Valid()
      modifies this
      ensures Valid()
      ensures truncated <==> old(truncated) || old(offset) + 8 > |data|
      ensures !truncated ==> v == U64At(data, old(offset)) && offset == old(offset) + 8
    {
      var high := ReadU32();
      var low := ReadU32();
      v := high as int * 0x1_0000_0000 + low;
    }

    method ReadBytes(count: nat) returns (v: seq<u8>)
      requires Valid()
      modifies this
      ensures Valid()
      ensures truncated <==> old(truncated) || old(offset) + count > |data|
      ensures !truncated ==> offset == old(offset) + count && v == data[old(offset)..offset]
    {
      v := [];
      if count > |data| - offset {
        truncated := true;
      } else {
        v := data[offset..offset + count];
        offset := offset + count;
      }
    }
  }

  /** The value `deserialize` returns or throws. */
  function Decode(d: seq<u8>): Result<Packet> {
    if && HEADER_SIZE <= |d| <= MAXIMUM_DATAGRAM_SIZE
       && d[..4] == MAGIC
       && d[5] == HEADER_SIZE
       && U16At(d, 44) == |d| - HEADER_SIZE
       && WellFormed(FieldsOf(d))
    then Ok(FieldsOf(d)) else Err
  }

  /** Bytes 6 to 27, the reserved byte being read and dropped. */
  method ReadStreamFields(reader: Reader)
    returns (flags: u16, sessionId: u64, sequenceNumber: u32, sampleRate: u32, channelCount: u16, sampleFormat: u8)
    requires reader.Valid() && !reader.truncated && reader.offset == 6 && HEADER_SIZE <= |reader.data|
    modifies reader
    ensures var d := reader.data;
            && flags == U16At(d, 6) && sessionId == U64At(d, 8) && sequenceNumber == U32At(d, 16)
            && sampleRate == U32At(d, 20) && channelCount == U16At(d, 24) && sampleFormat == d[26]
    ensures reader.Valid() && reader.offset == 28 && !reader.truncated
  {
    flags := reader.ReadU16();
    sessionId := reader.ReadU64();
    sequenceNumber := reader.ReadU32();
    sampleRate := reader.ReadU32();
    channelCount := reader.ReadU16();
    sampleFormat := reader.ReadU8();
    var reserved := reader.ReadU8();
  }

  /** Bytes 28 to 51. */
  method ReadTimingFields(reader: Reader)
    returns (startFrame: u64, timestamp: u64, payloadSize: u16, frameCount: u16, streamId: u32)
    requires reader.Valid() && !reader.truncated && reader.offset == 28 && HEADER_SIZE <= |reader.data|
    modifies reader
    ensures var d := reader.data;
            && startFrame == U64At(d, 28) && timestamp == U64At(d, 36) && payloadSize == U16At(d, 44)
            && frameCount == U16At(d, 46) && streamId == U32At(d, 48)
    ensures reader.Valid() && reader.offset == HEADER_SIZE && !reader.truncated
  {
    startFrame := reader.ReadU64();
    timestamp := reader.ReadU64();
    payloadSize := reader.ReadU16();
    frameCount := reader.ReadU16();
    streamId := reader.ReadU32();
  }

  /** The sequential reader computes exactly the offset table. */
  method Deserialize(d: seq<u8>) returns (r: Result<Packet>)
    ensures r == Decode(d)
  {
    if |d| < HEADER_SIZE || |d| > MAXIMUM_DATAGRAM_SIZE {
      return Err;
    }
    var reader := new Reader(d);
    var magic := reader.ReadBytes(4);
    if magic != MAGIC {
      return Err;
    }
    var version := reader.ReadU8();
    var headerSize := reader.ReadU8();
    if headerSize != HEADER_SIZE {
      return Err;
    }
    var flags, sessionId, sequenceNumber, sampleRate, channelCount, sampleFormat := ReadStreamFields(reader);
    var startFrame, timestamp, payloadSize, frameCount, streamId := ReadTimingFields(reader);
    if |d| - reader.offset != payloadSize {
      return Err;
    }
    var payload := reader.ReadBytes(payloadSize);
    var p := Packet(version, flags, sessionId, streamId, sequenceNumber, sampleRate, channelCount, sampleFormat,
                    startFrame, timestamp, frameCount, payload);
    assert p == FieldsOf(d);
    r := if !reader.truncated && WellFormed(p) then Ok(p) else Err;
  }

  lemma DecodeIffLayout(d: seq<u8>)
    ensures Decode(d).Ok? <==> exists p :: WellFormed(p) && HasLayout(d, p)
    ensures forall p :: WellFormed(p) && HasLayout(d, p) ==> Decode(d) == Ok(p)
    ensures Decode(d).Ok? ==> WellFormed(Decode(d).value) && HasLayout(d, Decode(d).value)
  {
    if Decode(d).Ok? {
      assert HasLayout(d, FieldsOf(d));
    }
    forall p | WellFormed(p) && HasLayout(d, p)
      ensures Decode(d) == Ok(p)
    {
      assert p == FieldsOf(d);
    }
  }

  // ---- Round trips ---------------------------------------------------------

  /** Whatever the host sends, the client parses back unchanged. */
  lemma DecodeEncode(p: Packet)
    requires WellFormed(p)
    ensures Encode(p).Ok? && Decode(Encode(p).value) == Ok(p)
  {
    var d := Encode(p).value;
    LayoutCharacterisesEncoding(d, p);
    DecodeIffLayout(d);
  }

  lemma ReservedByteIgnored(d: seq<u8>)
    requires HEADER_SIZE <= |d|
    ensures var e := d[27 := 0];
            FieldsOf(e) == FieldsOf(d) && e[..4] == d[..4] && U16At(e, 44) == U16At(d, 44)
  {
    assert d[27 := 0][HEADER_SIZE..] == d[HEADER_SIZE..];
  }

  /** Re-serialising any accepted datagram reproduces it, except for the reserved byte. */
  lemma EncodeDecode(d: seq<u8>)
    requires Decode(d).Ok?
    ensures Encode(Decode(d).value) == Ok(d[27 := 0])
  {
    DecodeIffLayout(d);
    var p := Decode(d).value;
    var e := d[27 := 0];
    ReservedByteIgnored(d);
    LayoutCharacterisesEncoding(e, p);
  }

  // ---- The Swift parser ------------------------------------------------------

  datatype SwiftPacket = SwiftPacket(
    sessionId: u64,
    streamId: u32,
    sequenceNumber: u32,
    sampleRate: u32,
    channels: u16,
    startFrame: u64,
    timestamp: u64,
    frameCount: u16,
    payload: seq<u8>)

  function SwiftParse(bytes: seq<u8>): Option<SwiftPacket> {
    if !(&& |bytes| >= HEADER_SIZE
         && |bytes| <= MAXIMUM_DATAGRAM_SIZE
         && bytes[0..4] == [0x53, 0x41, 0x55, 0x44]
         && bytes[4] == 2
         && bytes[5] == HEADER_SIZE
         && bytes[26] == 1 && bytes[27] == 0) then None
    else
      var sampleRate := U32At(bytes, 20);
      var channels := U16At(bytes, 24);
      var startFrame := U64At(bytes, 28);
      var timestamp := U64At(bytes, 36);
      var payloadSize := U16At(bytes, 44);
      var frameCount := U16At(bytes, 46);
      var streamId := U32At(bytes, 48);
      if !(&& 8000 <= sampleRate <= 192000
           && channels > 0
           && channels <= 2
           && frameCount > 0
           && streamId > 0
           && startFrame <= U64_LIMIT - 1 - frameCount
           && timestamp <= I64_MAX
           && payloadSize <= MAXIMUM_DATAGRAM_SIZE - HEADER_SIZE
           && |bytes| == HEADER_SIZE + payloadSize
           && payloadSize == frameCount * channels * 2) then None
      else
        Some(SwiftPacket(U64At(bytes, 8), streamId, U32At(bytes, 16), sampleRate, channels, startFrame, timestamp,
                         frameCount, bytes[HEADER_SIZE..]))
  }

  /** The fields that the Swift packet keeps. */
  function ToSwift(p: Packet): SwiftPacket {
    SwiftPacket(p.sessionId, p.streamId, p.sequenceNumber, p.sampleRate, p.channelCount, p.startFrame, p.timestamp,
                p.frameCount, p.payload)
  }

  /** The two parsers accept the same datagrams up to the reserved byte, which only Swift
      inspects, and then agree on every field. */
  lemma ParsersAgree(d: seq<u8>)
    ensures SwiftParse(d).Some? <==> Decode(d).Ok? && d[27] == 0
    ensures SwiftParse(d).Some? ==> SwiftParse(d).value == ToSwift(Decode(d).value)
  {
    if HEADER_SIZE <= |d| {
      assert d[0..4] == d[..4];
      var p := FieldsOf(d);
      if 0 < p.channelCount <= 2 {
        PayloadSize(p);
      }
    }
  }

  /** So everything a C++ host sends is readable by both kinds of client. */
  lemma SwiftReadsHostPackets(p: Packet)
    requires WellFormed(p)
    ensures SwiftParse(Encode(p).value) == Some(ToSwift(p))
  {
    DecodeEncode(p);
    LayoutCharacterisesEncoding(Encode(p).value, p);
    ParsersAgree(Encode(p).value);
  }
}
