/** The 40-byte SCLK message: `ClockSyncSerializer` in core/src/ClockSync.cpp, the host's reply
    in desktop/src/ClockSyncTransport.cpp, and the Swift client's `ClockSyncWire` in
    ios/SyncAudioReceiver/ClockSync.swift. Swift's `Double` is an exact real. */
module ClockWire {
  import opened Numbers
  import opened ClockSync
  import Wire

  const MESSAGE_SIZE := 40
  const MAGIC: seq<u8> := [0x53, 0x43, 0x4C, 0x4B]
  const PROTOCOL_VERSION: u8 := 1
  const REQUEST: u8 := 1
  const RESPONSE: u8 := 2
  const SECOND := 1_000_000_000

  /** `kind` is the message type byte; `t1` to `t3` are the stamps of RFC 5905. */
  datatype Message = Message(kind: u8, requestId: u32, t1: u64, t2: u64, t3: u64)

  predicate KnownKind(kind: u8) {
    kind == REQUEST || kind == RESPONSE
  }

  function HeadBytes(m: Message): seq<u8> {
    [PROTOCOL_VERSION, m.kind] + Wire.U16Bytes(MESSAGE_SIZE) + Wire.U32Bytes(m.requestId) + Wire.U32Bytes(0)
  }

  function StampBytes(m: Message): seq<u8> {
    Wire.U64Bytes(m.t1) + Wire.U64Bytes(m.t2) + Wire.U64Bytes(m.t3)
  }

  function Encode(m: Message): Result<seq<u8>> {
    if KnownKind(m.kind) then Ok(MAGIC + (HeadBytes(m) + StampBytes(m))) else Err
  }

  /** The message whose fields sit at the published offsets. */
  function FieldsOf(d: seq<u8>): Message
    requires |d| == MESSAGE_SIZE
  {
    Message(d[5], Wire.U32At(d, 8), Wire.U64At(d, 16), Wire.U64At(d, 24), Wire.U64At(d, 32))
  }

  function Decode(d: seq<u8>): Result<Message> {
    if && |d| == MESSAGE_SIZE && d[..4] == MAGIC && d[4] == PROTOCOL_VERSION && KnownKind(d[5])
       && Wire.U16At(d, 6) == MESSAGE_SIZE
    then Ok(FieldsOf(d)) else Err
  }

  // ---- The serializer writes in place -------------------------------------------

  /** `span` after `bytes` were written at `offset`. */
  ghost predicate Wrote(before: seq<u8>, after: seq<u8>, offset: nat, bytes: seq<u8>) {
    && offset + |bytes| <= |before| == |after|
    && after == before[..offset] + bytes + before[offset + |bytes|..]
  }

  lemma WroteTwice(a: seq<u8>, b: seq<u8>, c: seq<u8>, offset: nat, first: seq<u8>, second: seq<u8>)
    requires Wrote(a, b, offset, first) && Wrote(b, c, offset + |first|, second)
    ensures Wrote(a, c, offset, first + second)
  {
    assert b[..offset + |first|] == a[..offset] + first;
    assert b[offset + |first| + |second|..] == a[offset + |first| + |second|..];
  }

  method AppendU8(output: array<u8>, offset: nat, v: u8) returns (next: nat)
    requires offset + 1 <= output.Length
    modifies output
    ensures next == offset + 1 && Wrote(old(output[..]), output[..], offset, [v])
  {
    output[offset] := v;
    next := offset + 1;
  }

  method AppendU16(output: array<u8>, offset: nat, v: u16) returns (next: nat)
    requires offset + 2 <= output.Length
    modifies output
    ensures next == offset + 2 && Wrote(old(output[..]), output[..], offset, Wire.U16Bytes(v))
  {
    hide Wrote;
    next := AppendU8(output, offset, v / 0x100);
    ghost var middle := output[..];
    next := AppendU8(output, next, v % 0x100);
    WroteTwice(old(output[..]), middle, output[..], offset, [v / 0x100], [v % 0x100]);
    assert [v / 0x100] + [v % 0x100] == Wire.U16Bytes(v);
  }

  method AppendU32(output: array<u8>, offset: nat, v: u32) returns (next: nat)
    requires offset + 4 <= output.Length
    modifies output
    ensures next == offset + 4 && Wrote(old(output[..]), output[..], offset, Wire.U32Bytes(v))
  {
    hide Wrote;
    next := AppendU16(output, offset, v / 0x1_0000);
    ghost var middle := output[..];
    next := AppendU16(output, next, v % 0x1_0000);
    WroteTwice(old(output[..]), middle, output[..], offset, Wire.U16Bytes(v / 0x1_0000), Wire.U16Bytes(v % 0x1_0000));
  }

  method AppendU64(output: array<u8>, offset: nat, v: u64) returns (next: nat)
    requires offset + 8 <= output.Length
    modifies output
    ensures next == offset + 8 && Wrote(old(output[..]), output[..], offset, Wire.U64Bytes(v))
  {
    hide Wrote;
    next := AppendU32(output, offset, v / 0x1_0000_0000);
    ghost var middle := output[..];
    next := AppendU32(output, next, v % 0x1_0000_0000);
    WroteTwice(old(output[..]), middle, output[..], offset, Wire.U32Bytes(v / 0x1_0000_0000),
               Wire.U32Bytes(v % 0x1_0000_0000));
  }

  method AppendHead(output: array<u8>, m: Message) returns (offset: nat)
    requires output.Length == MESSAGE_SIZE
    modifies output
    ensures offset == 16 && Wrote(old(output[..]), output[..], 4, HeadBytes(m))
  {
    hide Wrote, Wire.U16Bytes, Wire.U32Bytes;
    ghost var s0 := output[..];
    offset := AppendU8(output, 4, PROTOCOL_VERSION);
    ghost var s1 := output[..];
    offset := AppendU8(output, offset, m.kind);
    ghost var s2 := output[..];
    WroteTwice(s0, s1, s2, 4, [PROTOCOL_VERSION], [m.kind]);
    offset := AppendU16(output, offset, MESSAGE_SIZE);
    ghost var s3 := output[..];
    ghost var start := [PROTOCOL_VERSION, m.kind];
    assert [PROTOCOL_VERSION] + [m.kind] == start;
    WroteTwice(s0, s2, s3, 4, start, Wire.U16Bytes(MESSAGE_SIZE));
    offset := AppendU32(output, offset, m.requestId);
    ghost var s4 := output[..];
    WroteTwice(s0, s3, s4, 4, start + Wire.U16Bytes(MESSAGE_SIZE), Wire.U32Bytes(m.requestId));
    offset := AppendU32(output, offset, 0); // Reserved.
    WroteTwice(s0, s4, output[..], 4, start + Wire.U16Bytes(MESSAGE_SIZE) + Wire.U32Bytes(m.requestId),
               Wire.U32Bytes(0));
  }

  method AppendStamps(output: array<u8>, m: Message)
    requires output.Length == MESSAGE_SIZE
    modifies output
    ensures Wrote(old(output[..]), output[..], 16, StampBytes(m))
  {
    hide Wrote, Wire.U64Bytes;
    ghost var s0 := output[..];
    var offset := AppendU64(output, 16, m.t1);
    ghost var s1 := output[..];
    offset := AppendU64(output, offset, m.t2);
    ghost var s2 := output[..];
    WroteTwice(s0, s1, s2, 16, Wire.U64Bytes(m.t1), Wire.U64Bytes(m.t2));
    offset := AppendU64(output, offset, m.t3);
    WroteTwice(s0, s2, output[..], 16, Wire.U64Bytes(m.t1) + Wire.U64Bytes(m.t2), Wire.U64Bytes(m.t3));
  }

  method Serialize(m: Message) returns (r: Result<seq<u8>>)
    ensures r == Encode(m)
  {
    if !KnownKind(m.kind) {
      return Err;
    }
    var output := new u8[MESSAGE_SIZE](_ => 0);
    output[0], output[1], output[2], output[3] := MAGIC[0], MAGIC[1], MAGIC[2], MAGIC[3];
    ghost var blank := output[..];
    assert blank[..4] == MAGIC;
    hide Wrote, HeadBytes, StampBytes, Encode, KnownKind;
    var offset := AppendHead(output, m);
    ghost var middle := output[..];
    AppendStamps(output, m);
    HeadLength(m);
    WroteTwice(blank, middle, output[..], 4, HeadBytes(m), StampBytes(m));
    WroteAll(blank, output[..], m);
    r := Ok(output[..]);
  }

  lemma HeadLength(m: Message)
    ensures |HeadBytes(m)| == 12 && |StampBytes(m)| == 24
  {
  }

  lemma WroteAll(blank: seq<u8>, d: seq<u8>, m: Message)
    requires |blank| == MESSAGE_SIZE && blank[..4] == MAGIC && KnownKind(m.kind)
    requires Wrote(blank, d, 4, HeadBytes(m) + StampBytes(m))
    ensures Encode(m) == Ok(d)
  {
    assert d == Encode(m).value;
  }

  /** Reading through the same moving offset as the datagram parser. */
  method Deserialize(d: seq<u8>) returns (r: Result<Message>)
    ensures r == Decode(d)
  {
    if |d| != MESSAGE_SIZE || d[..4] != MAGIC {
      return Err;
    }
    var reader := new Wire.Reader(d);
    var magic := reader.ReadBytes(4);
    var version := reader.ReadU8();
    if version != PROTOCOL_VERSION {
      return Err;
    }
    var kind := reader.ReadU8();
    if !KnownKind(kind) {
      return Err;
    }
    var size := reader.ReadU16();
    if size != MESSAGE_SIZE {
      return Err;
    }
    var requestId := reader.ReadU32();
    var reserved := reader.ReadU32();
    var t1 := reader.ReadU64();
    var t2 := reader.ReadU64();
    var t3 := reader.ReadU64();
    r := Ok(Message(kind, requestId, t1, t2, t3));
  }

  // ---- Round trips ------------------------------------------------------------------

  /** A message is an encoding of `m` exactly when every field sits at its offset and the four
      reserved bytes are zero. */
  lemma EncodingIsLayout(d: seq<u8>, m: Message)
    requires KnownKind(m.kind)
    ensures Encode(m) == Ok(d) <==> Decode(d) == Ok(m) && Wire.U32At(d, 12) == 0
  {
    var e := Encode(m).value;
    hide KnownKind;
    if |d| == MESSAGE_SIZE {
      Slices(m);
      Cut(d, e);
      assert d[4..6] == [d[4], d[5]];
      Wire.U16Field(d, 6, MESSAGE_SIZE);
      Wire.U32Field(d, 8, m.requestId);
      Wire.U32Field(d, 12, 0);
      Wire.U64Field(d, 16, m.t1);
      Wire.U64Field(d, 24, m.t2);
      Wire.U64Field(d, 32, m.t3);
    }
  }

  lemma Slices(m: Message)
    requires KnownKind(m.kind)
    ensures var e := Encode(m).value;
            && |e| == MESSAGE_SIZE && e[..4] == MAGIC && e[4..6] == [PROTOCOL_VERSION, m.kind]
            && e[6..8] == Wire.U16Bytes(MESSAGE_SIZE) && e[8..12] == Wire.U32Bytes(m.requestId)
            && e[12..16] == Wire.U32Bytes(0) && e[16..24] == Wire.U64Bytes(m.t1)
            && e[24..32] == Wire.U64Bytes(m.t2) && e[32..40] == Wire.U64Bytes(m.t3)
  {
  }

  lemma Cut(d: seq<u8>, e: seq<u8>)
    requires |d| == |e| == MESSAGE_SIZE
    ensures d == e <==> && d[..4] == e[..4] && d[4..6] == e[4..6] && d[6..8] == e[6..8] && d[8..12] == e[8..12]
                        && d[12..16] == e[12..16] && d[16..24] == e[16..24] && d[24..32] == e[24..32]
                        && d[32..40] == e[32..40]
  {
    assert d == d[..4] + d[4..6] + d[6..8] + d[8..12] + d[12..16] + d[16..24] + d[24..32] + d[32..40];
    assert e == e[..4] + e[4..6] + e[6..8] + e[8..12] + e[12..16] + e[16..24] + e[24..32] + e[32..40];
  }

  lemma DecodeEncode(m: Message)
    requires KnownKind(m.kind)
    ensures Decode(Encode(m).value) == Ok(m)
  {
    EncodingIsLayout(Encode(m).value, m);
  }

  /** Two encodings are the same message. */
  lemma EncodeIsInjective(m: Message, n: Message)
    requires KnownKind(m.kind) && Encode(m) == Encode(n)
    ensures m == n
  {
    EncodingIsLayout(Encode(m).value, m);
    EncodingIsLayout(Encode(m).value, n);
  }

  // ---- The exchange --------------------------------------------------------------------

  /** What the host sends back for a datagram received at `t2` when the clock then reads `t3`. */
  function Reply(d: seq<u8>, t2: u64, t3: u64): Option<seq<u8>> {
    match Decode(d)
    case Ok(m) => if m.kind == REQUEST then Some(Encode(Message(RESPONSE, m.requestId, m.t1, t2, t3)).value) else None
    case Err => None
  }

  /** The host answers requests and nothing else, responses included, so two hosts never answer each other; the
      answer repeats the request's number and stamp and is itself no request. */
  lemma OnlyRequestsAreAnswered(d: seq<u8>, t2: u64, t3: u64)
    ensures Reply(d, t2, t3).Some? <==> exists m :: Decode(d) == Ok(m) && m.kind == 1
    ensures Reply(d, t2, t3).Some? ==>
              && Decode(Reply(d, t2, t3).value)
                 == Ok(Message(2, Decode(d).value.requestId, Decode(d).value.t1, t2, t3))
              && forall t4, t5 :: Reply(Reply(d, t2, t3).value, t4, t5).None?
  {
    hide Encode;
    if Decode(d).Ok? && Decode(d).value.kind == REQUEST {
      DecodeEncode(Message(RESPONSE, Decode(d).value.requestId, Decode(d).value.t1, t2, t3));
    }
    hide Decode;
  }

  /** What the C++ client takes for an answer: a response to the request that is outstanding, by number and stamp. */
  lemma CppTakesAnswer(d: seq<u8>, id: u32, t1: u64, t4: u64)
    ensures CppSample(d, id, t1, t4).Ok?
       <==> exists m :: && Decode(d) == Ok(m) && m.kind == 2 && m.requestId == id && m.t1 == t1
                        && EstimateOf(t1, m.t2, m.t3, t4).Ok?
    ensures CppSample(d, id, t1, t4).Ok? ==>
              CppSample(d, id, t1, t4) == EstimateOf(t1, Decode(d).value.t2, Decode(d).value.t3, t4)
  {
    hide Decode, EstimateOf;
  }

  /** Only requests and responses have an encoding. */
  lemma EncodingExistsIff(m: Message)
    ensures Encode(m).Ok? <==> m.kind == 1 || m.kind == 2
  {
  }

  /** The C++ client's handling of a datagram received at `t4` while request `id` of time `t1`
      is outstanding. */
  function CppSample(d: seq<u8>, id: u32, t1: u64, t4: u64): Result<Estimate> {
    match Decode(d)
    case Ok(m) =>
      if m.kind != RESPONSE || m.requestId != id || m.t1 != t1 then Err else EstimateOf(m.t1, m.t2, m.t3, t4)
    case Err => Err
  }

  /** The Swift client's request. */
  function SwiftRequest(id: u32, t1: u64): seq<u8> {
    MAGIC + [1, 1, 0, MESSAGE_SIZE] + Wire.U32Bytes(id) + [0, 0, 0, 0] + Wire.U64Bytes(t1) + seq(16, _ => 0)
  }

  /** The Swift client's handling of a datagram. */
  function SwiftSample(d: seq<u8>, id: u32, t1: u64, t4: u64): Option<Estimate> {
    if !(&& |d| == MESSAGE_SIZE && d[..4] == MAGIC && d[4] == 1 && d[5] == 2 && d[6] == 0 && d[7] == MESSAGE_SIZE
         && Wire.U32At(d, 8) == id && Wire.U64At(d, 16) == t1 && t4 >= t1)
    then None
    else
      var t2, t3 := Wire.U64At(d, 24), Wire.U64At(d, 32);
      if t3 < t2 then None
      else
        var roundTrip := (t4 as int - t1) - (t3 as int - t2);
        if !(0 <= roundTrip < SECOND) then None
        else Some(Estimate((t2 as int - t1 + t3 as int - t4) as real / 2.0, roundTrip, 1, t4))
  }

  /** The Swift request is byte for byte the C++ one, so the host answers both alike. */
  lemma SwiftRequestIsCppRequest(id: u32, t1: u64)
    ensures Encode(Message(REQUEST, id, t1, 0, 0)) == Ok(SwiftRequest(id, t1))
  {
    hide SwiftRequest, Encode, Decode;
    SwiftRequestDecodes(id, t1);
    EncodingIsLayout(SwiftRequest(id, t1), Message(REQUEST, id, t1, 0, 0));
  }

  lemma SwiftRequestDecodes(id: u32, t1: u64)
    ensures var d := SwiftRequest(id, t1);
            Decode(d) == Ok(Message(REQUEST, id, t1, 0, 0)) && Wire.U32At(d, 12) == 0
  {
    hide SwiftRequest, Wire.U32Bytes, Wire.U64Bytes, Wire.U32At, Wire.U64At;
    var d := SwiftRequest(id, t1);
    SwiftRequestSlices(id, t1);
    Wire.U32Field(d, 8, id);
    Wire.U64Field(d, 16, t1);
    assert Wire.U16At(d, 6) == MESSAGE_SIZE;
  }

  lemma SwiftRequestSlices(id: u32, t1: u64)
    ensures var d := SwiftRequest(id, t1);
            && |d| == MESSAGE_SIZE && d[..4] == MAGIC && d[4] == 1 && d[5] == 1 && d[6] == 0 && d[7] == MESSAGE_SIZE
            && d[8..12] == Wire.U32Bytes(id) && d[16..24] == Wire.U64Bytes(t1)
            && Wire.U32At(d, 12) == 0 && Wire.U64At(d, 24) == 0 && Wire.U64At(d, 32) == 0
  {
    hide Wire.U32Bytes, Wire.U64Bytes;
  }

  /** For stamps that fit 63 bits, Swift takes exactly the C++ samples with a round trip under a
      second; the round trips are equal and the C++ offset is Swift's, rounded. */
  lemma ClientsAgreeOnSamples(d: seq<u8>, id: u32, t1: u64, t4: u64)
    requires Decode(d).Ok? ==> Decode(d).value.t2 <= I64_MAX && Decode(d).value.t3 <= I64_MAX
    requires t1 <= I64_MAX && t4 <= I64_MAX
    ensures var s, c := SwiftSample(d, id, t1, t4), CppSample(d, id, t1, t4);
            && (s.Some? <==> c.Ok? && c.value.roundTrip < SECOND)
            && (s.Some? ==>
                  && s.value.roundTrip == c.value.roundTrip
                  && Distance(c.value.offset, s.value.offset) <= 0.5)
  {
    if |d| == MESSAGE_SIZE {
      assert Wire.U16At(d, 6) == MESSAGE_SIZE <==> d[6] == 0 && d[7] == MESSAGE_SIZE;
    }
    hide Wire.U16At, Wire.U32At, Wire.U64At;
  }

  /** A whole exchange, from either client: the host's answer to the request is a sample whose
      offset is within half its round trip of the truth. */
  lemma ExchangeIsHonest(id: u32, x: Exchange, truth: real)
    requires Happens(x, truth) && x.t2 <= x.t3
    requires x.t1 <= I64_MAX && x.t2 <= I64_MAX && x.t3 <= I64_MAX && x.t4 <= I64_MAX
    ensures var reply := Reply(SwiftRequest(id, x.t1), x.t2, x.t3);
            && reply.Some? && Reply(Encode(Message(REQUEST, id, x.t1, 0, 0)).value, x.t2, x.t3) == reply
            && var sample := CppSample(reply.value, id, x.t1, x.t4);
            && sample.Ok? && Honest(sample.value, truth)
  {
    hide Encode, Decode, SwiftRequest, EstimateOf, Honest, Happens;
    SwiftRequestIsCppRequest(id, x.t1);
    DecodeEncode(Message(REQUEST, id, x.t1, 0, 0));
    DecodeEncode(Message(RESPONSE, id, x.t1, x.t2, x.t3));
    HonestExchangeIsAccepted(x, truth);
    OffsetWithinHalfRoundTrip(x, truth);
  }

  // ---- The error of the Swift filter ---------------------------------------------------

  /** What the Swift client makes of an exchange with the host. */
  function SwiftEstimate(id: u32, x: Exchange): Option<Estimate> {
    match Reply(SwiftRequest(id, x.t1), x.t2, x.t3)
    case Some(d) => SwiftSample(d, id, x.t1, x.t4)
    case None => None
  }

  lemma SwiftEstimateIs(id: u32, x: Exchange)
    ensures var roundTrip := (x.t4 as int - x.t1) - (x.t3 as int - x.t2);
            SwiftEstimate(id, x)
            == if x.t4 < x.t1 || x.t3 < x.t2 || roundTrip < 0 || roundTrip >= SECOND then None
               else Some(Estimate((x.t2 as int - x.t1 + x.t3 as int - x.t4) as real / 2.0, roundTrip, 1, x.t4))
  {
    hide Encode, SwiftRequest, Wire.U32At, Wire.U64At, Wire.U16At;
    SwiftRequestIsCppRequest(id, x.t1);
    DecodeEncode(Message(REQUEST, id, x.t1, 0, 0));
    DecodeEncode(Message(RESPONSE, id, x.t1, x.t2, x.t3));
    EncodingSucceeds(Message(RESPONSE, id, x.t1, x.t2, x.t3));
    var d := Encode(Message(RESPONSE, id, x.t1, x.t2, x.t3)).value;
    SizeField(d);
  }

  lemma EncodingSucceeds(m: Message)
    requires KnownKind(m.kind)
    ensures Encode(m).Ok?
  {
  }

  lemma SizeField(d: seq<u8>)
    requires |d| == MESSAGE_SIZE
    ensures Wire.U16At(d, 6) == MESSAGE_SIZE ==> d[6] == 0 && d[7] == MESSAGE_SIZE
  {
  }

  /** The samples are what the Swift client makes of these exchanges. */
  ghost predicate SwiftComesFrom(samples: seq<Estimate>, ids: seq<u32>, exchanges: seq<Exchange>, truth: real) {
    && |samples| == |ids| == |exchanges|
    && forall i :: 0 <= i < |samples| ==>
         Happens(exchanges[i], truth) && SwiftEstimate(ids[i], exchanges[i]) == Some(samples[i])
  }

  ghost predicate SwiftResultsWithin(trips: seq<nat>, bound: real) {
    forall ids: seq<u32>, exchanges: seq<Exchange>, samples: seq<Estimate>, fastest: seq<Estimate>, chosen, r, truth ::
      SwiftComesFrom(samples, ids, exchanges, truth) && IsSelection(samples, fastest, chosen, r) &&
      HasTrips(fastest, trips) ==>
        Distance(r.offset, truth) <= bound
  }

  /** Unrounded, the exact error bound is half the second-lowest round trip. */
  lemma SwiftSecondLowestIsTight(trips: seq<nat>, bound: real)
    requires trips != [] && Sorted(trips) && AllUpTo(trips, SECOND - 1)
    ensures SwiftResultsWithin(trips, bound) <==> SecondLowest(trips) as real / 2.0 <= bound
  {
    hide SwiftComesFrom, IsSelection;
    if SecondLowest(trips) as real / 2.0 <= bound {
      forall ids: seq<u32>, exchanges: seq<Exchange>, samples: seq<Estimate>, fastest: seq<Estimate>, chosen, r, truth |
        SwiftComesFrom(samples, ids, exchanges, truth) && IsSelection(samples, fastest, chosen, r) &&
        HasTrips(fastest, trips)
        ensures Distance(r.offset, truth) <= bound
      {
        SwiftResultWithin(samples, ids, exchanges, fastest, chosen, r, truth, trips);
      }
    } else {
      var ids, exchanges, samples, chosen, r := SwiftSlowMajority(trips);
      assert SwiftComesFrom(samples, ids, exchanges, 0.0) && IsSelection(samples, samples, chosen, r);
    }
  }

  /** Half the reported round trip bounds the error exactly when there is one sample or the two lowest
      round trips are equal; with half a nanosecond more they may differ by one. */
  lemma SwiftReportedRoundTripBoundsIff(trips: seq<nat>)
    requires trips != [] && Sorted(trips) && AllUpTo(trips, SECOND - 1)
    ensures SwiftResultsWithin(trips, trips[0] as real / 2.0) <==> |trips| == 1 || trips[0] == trips[1]
    ensures SwiftResultsWithin(trips, (trips[0] + 1) as real / 2.0) <==> |trips| == 1 || trips[1] <= trips[0] + 1
  {
    SwiftSecondLowestIsTight(trips, trips[0] as real / 2.0);
    SwiftSecondLowestIsTight(trips, (trips[0] + 1) as real / 2.0);
    hide SwiftResultsWithin;
  }

  lemma SwiftResultWithin(samples: seq<Estimate>, ids: seq<u32>, exchanges: seq<Exchange>, fastest: seq<Estimate>,
                          chosen: seq<Estimate>, r: Estimate, truth: real, trips: seq<nat>)
    requires SwiftComesFrom(samples, ids, exchanges, truth) && IsSelection(samples, fastest, chosen, r)
    requires trips != [] && Sorted(trips) && HasTrips(fastest, trips)
    ensures Distance(r.offset, truth) <= SecondLowest(trips) as real / 2.0
  {
    SwiftWithinHalf(samples, ids, exchanges, truth);
    forall i | 0 <= i < |fastest|
      ensures Distance(fastest[i].offset, truth) <= trips[i] as real / 2.0
    {
      assert fastest[i] in multiset(samples);
    }
    hide SwiftComesFrom;
    WithinTwoFastest(samples, fastest, chosen, r, truth, SecondLowest(trips) as real / 2.0);
  }

  lemma SwiftWithinHalf(samples: seq<Estimate>, ids: seq<u32>, exchanges: seq<Exchange>, truth: real)
    requires SwiftComesFrom(samples, ids, exchanges, truth)
    ensures forall e :: e in samples ==> Distance(e.offset, truth) <= e.roundTrip as real / 2.0
  {
    hide SwiftEstimate;
    forall e | e in samples
      ensures Distance(e.offset, truth) <= e.roundTrip as real / 2.0
    {
      var i :| 0 <= i < |samples| && samples[i] == e;
      SwiftEstimateIs(ids[i], exchanges[i]);
      var x := exchanges[i];
      assert (x.t2 as int - x.t1 + x.t3 as int - x.t4) as real == 2.0 * truth + x.outward - x.back;
      assert e.roundTrip as real == x.outward + x.back;
    }
  }

  lemma SwiftSlowMajority(trips: seq<nat>)
    returns (ids: seq<u32>, exchanges: seq<Exchange>, samples: seq<Estimate>, chosen: seq<Estimate>, r: Estimate)
    requires trips != [] && Sorted(trips) && AllUpTo(trips, SECOND - 1)
    ensures AllUpTo(trips, I64_MAX) && exchanges == SlowRequests(trips)
    ensures SwiftComesFrom(samples, ids, exchanges, 0.0) && HasTrips(samples, trips)
    ensures IsSelection(samples, samples, chosen, r)
    ensures r.offset == SecondLowest(trips) as real / 2.0 && r.roundTrip == trips[0]
  {
    hide SwiftEstimate;
    ids := seq(|trips|, _ => 0);
    exchanges := SlowRequests(trips);
    samples := seq(|trips|, i requires 0 <= i < |trips| => Estimate(trips[i] as real / 2.0, trips[i], 1, trips[i]));
    forall i | 0 <= i < |trips|
      ensures SwiftEstimate(ids[i], exchanges[i]) == Some(samples[i])
    {
      SwiftEstimateIs(ids[i], exchanges[i]);
      assert exchanges[i] == SlowRequest(trips[i]);
    }
    chosen := samples[..Min(3, |samples|)];
    r := chosen[|chosen| / 2].(roundTrip := trips[0], samples := |samples|);
  }
}
