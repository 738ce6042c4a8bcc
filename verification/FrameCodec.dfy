/** The canonical frame encoding, as functions on bytes, and the proof that it is a two-sided inverse. */
module FrameCodec {
  import opened Common
  import opened ByteOrder
  import opened ProtocolTypes
  import opened Negotiation

  const FRAME_HEADER_BYTES := 4
  const MAX_FRAME_PAYLOAD := 65535
  const OPTIONAL_FRAME_BIT := 0x80

  datatype EncodeError =
    | TooLargeToEncode(maximum: nat, actual: nat)
    | NoStreamData
    | InvalidOptionalFrameType(frameType: u8)

  datatype DecodeError =
    | TruncatedHeader
    | LengthMismatch(advertised: nat, found: nat)
    | PayloadTooLarge(maximum: nat, actual: nat)
    | UnknownMandatoryFrame(frameType: u8)
    | EmptyStreamData
    | InvalidPayload

  // ---------------------------------------------------------------- error codes and capabilities

  function ErrorNumber(e: ProtocolErrorCode): u16 {
    match e
    case NoSharedVersion => 0x0001
    case IncompatibleCapabilities => 0x0002
    case AuthenticationFailed => 0x0003
    case ReplayDetected => 0x0004
    case ProtocolViolation => 0x0005
    case ResourceLimit => 0x0006
    case FlowNotFound => 0x0007
    case FlowState => 0x0008
    case ResumeUnsupported => 0x0009
    case Internal => 0x00ff
    case Unknown(value) => value
  }

  function ErrorNamed(value: u16): ProtocolErrorCode {
    if value == 0x0001 then NoSharedVersion
    else if value == 0x0002 then IncompatibleCapabilities
    else if value == 0x0003 then AuthenticationFailed
    else if value == 0x0004 then ReplayDetected
    else if value == 0x0005 then ProtocolViolation
    else if value == 0x0006 then ResourceLimit
    else if value == 0x0007 then FlowNotFound
    else if value == 0x0008 then FlowState
    else if value == 0x0009 then ResumeUnsupported
    else if value == 0x00ff then Internal
    else Unknown(value)
  }

  predicate IsNamed(value: u16) { 1 <= value <= 9 || value == 0xff }

  /** An error survives the wire unless it hides a named code behind its number. */
  lemma ErrorRoundTrips(e: ProtocolErrorCode, value: u16)
    ensures ErrorNamed(ErrorNumber(e)) == e <==> !(e.Unknown? && IsNamed(e.code))
    ensures ErrorNumber(ErrorNamed(value)) == value
  {
  }

  /** What the constructors of an offer and its advertisement require. */
  predicate ValidOffer(o: NegotiationOffer) {
    NewOffer(o.versions, o.capabilities, o.clientNonce).Ok?
  }

  // ---------------------------------------------------------------- encoding

  function U16Bytes(v: u16): (b: Bytes)
    ensures |b| == 2
  {
    BigEndian(v, 2)
  }

  function U64Bytes(v: u64): (b: Bytes)
    ensures |b| == 8
  {
    BigEndian(v, 8)
  }

  /** Version, capabilities and both nonces; also what an attachment proof signs. */
  function CanonicalBytes(p: NegotiatedParameters): Bytes {
    U16Bytes(p.version) + (U64Bytes(p.capabilities) + (p.clientNonce + p.serverNonce))
  }

  function TypeOf(f: Frame): u8 {
    match f
    case Offer(_) => 0x01
    case Accept(_) => 0x02
    case Attach(_, _, _, _, _) => 0x03
    case AttachAccepted(_, _, _) => 0x04
    case StreamOpen(_) => 0x10
    case StreamData(_, _, _, _) => 0x11
    case StreamAcknowledgement(_, _, _) => 0x12
    case StreamFinish(_, _, _) => 0x13
    case StreamReset(_, _) => 0x14
    case ConnectionClose(_) => 0x20
    case UnknownOptional(frameType, _) => frameType
  }

  function OfferBytes(o: NegotiationOffer): Bytes {
    U16Bytes(o.versions.minimum) + (U16Bytes(o.versions.maximum)
    + (U64Bytes(o.capabilities.required) + (U64Bytes(o.capabilities.optional) + o.clientNonce)))
  }

  function SegmentBytes(flow: u64, epoch: u64, number: u64): Bytes {
    U64Bytes(flow) + (U64Bytes(epoch) + U64Bytes(number))
  }

  function PayloadOf(f: Frame): Bytes {
    match f
    case Offer(offer) => OfferBytes(offer)
    case Accept(parameters) => CanonicalBytes(parameters)
    case Attach(sessionId, epoch, attachmentId, parameters, proof) =>
      sessionId + (U64Bytes(epoch) + (attachmentId + (CanonicalBytes(parameters) + proof)))
    case AttachAccepted(sessionId, epoch, attachmentId) => sessionId + (U64Bytes(epoch) + attachmentId)
    case StreamOpen(flow) => U64Bytes(flow)
    case StreamData(flow, epoch, sequence, bytes) => SegmentBytes(flow, epoch, sequence) + bytes
    case StreamAcknowledgement(flow, epoch, through) => SegmentBytes(flow, epoch, through)
    case StreamFinish(flow, epoch, finalNext) => SegmentBytes(flow, epoch, finalNext)
    case StreamReset(flow, error) => U64Bytes(flow) + U16Bytes(ErrorNumber(error))
    case ConnectionClose(error) => U16Bytes(ErrorNumber(error))
    case UnknownOptional(_, payload) => payload
  }

  function Encode(f: Frame): Result<Bytes, EncodeError> {
    if f.StreamData? && f.bytes == [] then Err(NoStreamData)
    else if f.UnknownOptional? && f.frameType < OPTIONAL_FRAME_BIT then
      Err(InvalidOptionalFrameType(f.frameType))
    else if |PayloadOf(f)| > MAX_FRAME_PAYLOAD then
      Err(TooLargeToEncode(MAX_FRAME_PAYLOAD, |PayloadOf(f)|))
    else Ok([TypeOf(f), 0] + U16Bytes(|PayloadOf(f)|) + PayloadOf(f))
  }

  // ---------------------------------------------------------------- decoding

  type Parse<+T> = Result<Parsed<T>, DecodeError>

  function ReadArray(b: Bytes, n: nat): (r: Parse<Bytes>)
    ensures r.Ok? ==> |r.value.value| == n
    ensures r.Err? ==> r.error == InvalidPayload
  {
    if |b| < n then Err(InvalidPayload) else Ok(Parsed(b[..n], b[n..]))
  }

  function ReadU16(b: Bytes): (r: Parse<u16>)
    ensures r.Err? ==> r.error == InvalidPayload
  {
    var p :- ReadArray(b, 2);
    Widths();
    FromBigEndianRoundTrip(p.value);
    Ok(Parsed(FromBigEndian(p.value), p.rest))
  }

  function ReadU64(b: Bytes): (r: Parse<u64>)
    ensures r.Err? ==> r.error == InvalidPayload
  {
    var p :- ReadArray(b, 8);
    Widths();
    FromBigEndianRoundTrip(p.value);
    Ok(Parsed(FromBigEndian(p.value), p.rest))
  }

  predicate AllZero(b: Bytes) { forall i | 0 <= i < |b| :: b[i] == 0 }

  /** Nonces and attachment ids refuse the all-zero array. */
  function ReadNonZero(b: Bytes): (r: Parse<NonZeroId16>)
    ensures r.Err? ==> r.error == InvalidPayload
  {
    var p :- ReadArray(b, 16);
    if AllZero(p.value) then Err(InvalidPayload)
    else
      assert exists i :: 0 <= i < |p.value| && p.value[i] != 0;
      Ok(Parsed(p.value, p.rest))
  }

  function ReadParameters(b: Bytes): (r: Parse<NegotiatedParameters>)
    ensures r.Err? ==> r.error == InvalidPayload
  {
    var version :- ReadU16(b);
    var capabilities :- ReadU64(version.rest);
    var client :- ReadNonZero(capabilities.rest);
    var server :- ReadNonZero(client.rest);
    Ok(Parsed(NegotiatedParameters(version.value, capabilities.value, client.value, server.value),
              server.rest))
  }

  function ReadVersions(b: Bytes): (r: Parse<VersionRange>)
    ensures r.Err? ==> r.error == InvalidPayload
  {
    var minimum :- ReadU16(b);
    var maximum :- ReadU16(minimum.rest);
    var range := VersionRange(minimum.value, maximum.value);
    if range.IsValid() then Ok(Parsed(range, maximum.rest)) else Err(InvalidPayload)
  }

  function ReadOffer(b: Bytes): (r: Parse<NegotiationOffer>)
    ensures r.Err? ==> r.error == InvalidPayload
  {
    var versions :- ReadVersions(b);
    var required :- ReadU64(versions.rest);
    var optional :- ReadU64(required.rest);
    var nonce :- ReadNonZero(optional.rest);
    var offer := NegotiationOffer(versions.value,
      CapabilityAdvertisement(required.value, optional.value), nonce.value);
    if ValidOffer(offer) then Ok(Parsed(offer, nonce.rest)) else Err(InvalidPayload)
  }

  datatype Segment = Segment(flow: u64, epoch: u64, number: u64)

  function ReadSegment(b: Bytes): (r: Parse<Segment>)
    ensures r.Err? ==> r.error == InvalidPayload
  {
    var flow :- ReadU64(b);
    var epoch :- ReadU64(flow.rest);
    var number :- ReadU64(epoch.rest);
    Ok(Parsed(Segment(flow.value, epoch.value, number.value), number.rest))
  }

  datatype Attachment = Attachment(sessionId: Id16, epoch: u64, attachmentId: NonZeroId16)

  function ReadAttachment(b: Bytes): (r: Parse<Attachment>)
    ensures r.Err? ==> r.error == InvalidPayload
  {
    var sessionId :- ReadArray(b, 16);
    var epoch :- ReadU64(sessionId.rest);
    var attachmentId :- ReadNonZero(epoch.rest);
    Ok(Parsed(Attachment(sessionId.value, epoch.value, attachmentId.value), attachmentId.rest))
  }

  function ReadAttach(b: Bytes): (r: Parse<Frame>)
    ensures r.Err? ==> r.error == InvalidPayload
  {
    var a :- ReadAttachment(b);
    var parameters :- ReadParameters(a.rest);
    var proof :- ReadArray(parameters.rest, 32);
    Ok(Parsed(Attach(a.value.sessionId, a.value.epoch, a.value.attachmentId, parameters.value, proof.value),
              proof.rest))
  }

  function ReadError(b: Bytes): (r: Parse<ProtocolErrorCode>)
    ensures r.Err? ==> r.error == InvalidPayload
  {
    var number :- ReadU16(b);
    Ok(Parsed(ErrorNamed(number.value), number.rest))
  }

  function ReadData(b: Bytes): Parse<Frame> {
    var s :- ReadSegment(b);
    if s.rest == [] then Err(EmptyStreamData)
    else Ok(Parsed(StreamData(s.value.flow, s.value.epoch, s.value.number, s.rest), []))
  }

  function ReadReset(b: Bytes): (r: Parse<Frame>)
    ensures r.Err? ==> r.error == InvalidPayload
  {
    var flow :- ReadU64(b);
    var error :- ReadError(flow.rest);
    Ok(Parsed(StreamReset(flow.value, error.value), error.rest))
  }

  function ReadFrame(frameType: u8, b: Bytes): Parse<Frame> {
    match frameType
    case 0x01 => var p :- ReadOffer(b); Ok(Parsed(Offer(p.value), p.rest))
    case 0x02 => var p :- ReadParameters(b); Ok(Parsed(Accept(p.value), p.rest))
    case 0x03 => ReadAttach(b)
    case 0x04 =>
      var a :- ReadAttachment(b);
      Ok(Parsed(AttachAccepted(a.value.sessionId, a.value.epoch, a.value.attachmentId), a.rest))
    case 0x10 => var flow :- ReadU64(b); Ok(Parsed(StreamOpen(flow.value), flow.rest))
    case 0x11 => ReadData(b)
    case 0x12 =>
      var s :- ReadSegment(b);
      Ok(Parsed(StreamAcknowledgement(s.value.flow, s.value.epoch, s.value.number), s.rest))
    case 0x13 =>
      var s :- ReadSegment(b);
      Ok(Parsed(StreamFinish(s.value.flow, s.value.epoch, s.value.number), s.rest))
    case 0x14 => ReadReset(b)
    case 0x20 => var error :- ReadError(b); Ok(Parsed(ConnectionClose(error.value), error.rest))
    case _ =>
      if frameType >= OPTIONAL_FRAME_BIT then Ok(Parsed(UnknownOptional(frameType, b), []))
      else Err(UnknownMandatoryFrame(frameType))
  }

  function DecodePayload(frameType: u8, b: Bytes): Result<Frame, DecodeError> {
    var p :- ReadFrame(frameType, b);
    if p.rest == [] then Ok(p.value) else Err(InvalidPayload)
  }

  function Advertised(b: Bytes): (n: nat)
    requires |b| >= FRAME_HEADER_BYTES
    ensures n <= MAX_FRAME_PAYLOAD
  {
    Widths();
    FromBigEndianRoundTrip(b[2..4]);
    FromBigEndian(b[2..4])
  }

  function DecodeExact(b: Bytes, maximum: nat): Result<Frame, DecodeError> {
    if |b| < FRAME_HEADER_BYTES then Err(TruncatedHeader)
    else
      var advertised := Advertised(b);
      var found := |b| - FRAME_HEADER_BYTES;
      if advertised > maximum then Err(PayloadTooLarge(maximum, advertised))
      else if found != advertised then Err(LengthMismatch(advertised, found))
      else if b[1] != 0 then Err(InvalidPayload)
      else DecodePayload(b[0], b[FRAME_HEADER_BYTES..])
  }

  // ---------------------------------------------------------------- each reader inverts its writer

  /** The reader accepts exactly the written form of `v`, and stops right behind it. */
  lemma ReadU16Exact(b: Bytes, v: u16, rest: Bytes)
    ensures ReadU16(b) == Ok(Parsed(v, rest)) <==> b == U16Bytes(v) + rest
  {
    Widths();
    BigEndianRoundTrip(v, 2);
    if |b| >= 2 {
      FromBigEndianRoundTrip(b[..2]);
      assert b == b[..2] + b[2..];
    }
  }

  lemma ReadU64Exact(b: Bytes, v: u64, rest: Bytes)
    ensures ReadU64(b) == Ok(Parsed(v, rest)) <==> b == U64Bytes(v) + rest
  {
    Widths();
    BigEndianRoundTrip(v, 8);
    if |b| >= 8 {
      FromBigEndianRoundTrip(b[..8]);
      assert b == b[..8] + b[8..];
    }
  }

  lemma ReadArrayExact(b: Bytes, n: nat, v: Bytes, rest: Bytes)
    requires |v| == n
    ensures ReadArray(b, n) == Ok(Parsed(v, rest)) <==> b == v + rest
  {
    if |b| >= n {
      assert b == b[..n] + b[n..];
    }
  }

  lemma ReadNonZeroExact(b: Bytes, v: NonZeroId16, rest: Bytes)
    ensures ReadNonZero(b) == Ok(Parsed(v, rest)) <==> b == v + rest
  {
    ReadArrayExact(b, 16, v, rest);
    assert !AllZero(v);
  }

  lemma ReadParametersExact(b: Bytes, v: NegotiatedParameters, rest: Bytes)
    ensures ReadParameters(b) == Ok(Parsed(v, rest)) <==> b == CanonicalBytes(v) + rest
  {
    hide ReadU16, ReadU64, ReadNonZero, U16Bytes, U64Bytes;
    var server := v.serverNonce + rest;
    var client := v.clientNonce + server;
    var capabilities := U64Bytes(v.capabilities) + client;
    assert CanonicalBytes(v) + rest == U16Bytes(v.version) + capabilities;
    ReadU16Exact(b, v.version, capabilities);
    ReadU64Exact(capabilities, v.capabilities, client);
    ReadNonZeroExact(client, v.clientNonce, server);
    ReadNonZeroExact(server, v.serverNonce, rest);
    if ReadParameters(b) == Ok(Parsed(v, rest)) {
      var r1 := ReadU16(b).value.rest;
      var r2 := ReadU64(r1).value.rest;
      var r3 := ReadNonZero(r2).value.rest;
      ReadU16Exact(b, v.version, r1);
      ReadU64Exact(r1, v.capabilities, r2);
      ReadNonZeroExact(r2, v.clientNonce, r3);
      ReadNonZeroExact(r3, v.serverNonce, rest);
    }
  }

  lemma ReadVersionsExact(b: Bytes, v: VersionRange, rest: Bytes)
    ensures ReadVersions(b) == Ok(Parsed(v, rest))
      <==> v.IsValid() && b == U16Bytes(v.minimum) + (U16Bytes(v.maximum) + rest)
  {
    hide ReadU16, U16Bytes;
    var maximum := U16Bytes(v.maximum) + rest;
    ReadU16Exact(b, v.minimum, maximum);
    ReadU16Exact(maximum, v.maximum, rest);
    if ReadVersions(b) == Ok(Parsed(v, rest)) {
      var r1 := ReadU16(b).value.rest;
      ReadU16Exact(b, v.minimum, r1);
      ReadU16Exact(r1, v.maximum, rest);
    }
  }

  lemma ReadOfferExact(b: Bytes, v: NegotiationOffer, rest: Bytes)
    ensures ReadOffer(b) == Ok(Parsed(v, rest)) <==> ValidOffer(v) && b == OfferBytes(v) + rest
  {
    hide ReadVersions, ReadU64, ReadNonZero, U16Bytes, U64Bytes, Contains;
    var nonce := v.clientNonce + rest;
    var optional := U64Bytes(v.capabilities.optional) + nonce;
    var required := U64Bytes(v.capabilities.required) + optional;
    assert OfferBytes(v) + rest == U16Bytes(v.versions.minimum) + (U16Bytes(v.versions.maximum) + required);
    ReadVersionsExact(b, v.versions, required);
    ReadU64Exact(required, v.capabilities.required, optional);
    ReadU64Exact(optional, v.capabilities.optional, nonce);
    ReadNonZeroExact(nonce, v.clientNonce, rest);
    if ReadOffer(b) == Ok(Parsed(v, rest)) {
      var r1 := ReadVersions(b).value.rest;
      var r2 := ReadU64(r1).value.rest;
      var r3 := ReadU64(r2).value.rest;
      ReadVersionsExact(b, v.versions, r1);
      ReadU64Exact(r1, v.capabilities.required, r2);
      ReadU64Exact(r2, v.capabilities.optional, r3);
      ReadNonZeroExact(r3, v.clientNonce, rest);
    }
  }

  lemma ReadSegmentExact(b: Bytes, v: Segment, rest: Bytes)
    ensures ReadSegment(b) == Ok(Parsed(v, rest))
      <==> b == SegmentBytes(v.flow, v.epoch, v.number) + rest
  {
    hide ReadU64, U64Bytes;
    var number := U64Bytes(v.number) + rest;
    var epoch := U64Bytes(v.epoch) + number;
    assert SegmentBytes(v.flow, v.epoch, v.number) + rest == U64Bytes(v.flow) + epoch;
    ReadU64Exact(b, v.flow, epoch);
    ReadU64Exact(epoch, v.epoch, number);
    ReadU64Exact(number, v.number, rest);
    if ReadSegment(b) == Ok(Parsed(v, rest)) {
      var r1 := ReadU64(b).value.rest;
      var r2 := ReadU64(r1).value.rest;
      ReadU64Exact(b, v.flow, r1);
      ReadU64Exact(r1, v.epoch, r2);
      ReadU64Exact(r2, v.number, rest);
    }
  }

  function AttachmentBytes(v: Attachment): Bytes {
    v.sessionId + (U64Bytes(v.epoch) + v.attachmentId)
  }

  lemma ReadAttachmentExact(b: Bytes, v: Attachment, rest: Bytes)
    ensures ReadAttachment(b) == Ok(Parsed(v, rest)) <==> b == AttachmentBytes(v) + rest
  {
    hide ReadArray, ReadU64, ReadNonZero, U64Bytes;
    var attachmentId := v.attachmentId + rest;
    var epoch := U64Bytes(v.epoch) + attachmentId;
    assert AttachmentBytes(v) + rest == v.sessionId + epoch;
    ReadArrayExact(b, 16, v.sessionId, epoch);
    ReadU64Exact(epoch, v.epoch, attachmentId);
    ReadNonZeroExact(attachmentId, v.attachmentId, rest);
    if ReadAttachment(b) == Ok(Parsed(v, rest)) {
      var r1 := ReadArray(b, 16).value.rest;
      var r2 := ReadU64(r1).value.rest;
      ReadArrayExact(b, 16, v.sessionId, r1);
      ReadU64Exact(r1, v.epoch, r2);
      ReadNonZeroExact(r2, v.attachmentId, rest);
    }
  }

  lemma ReadAttachExact(b: Bytes, f: Frame, rest: Bytes)
    requires f.Attach?
    ensures ReadAttach(b) == Ok(Parsed(f, rest)) <==> b == PayloadOf(f) + rest
  {
    hide ReadArray, ReadAttachment, ReadParameters, CanonicalBytes, U64Bytes;
    var v := Attachment(f.sessionId, f.epoch, f.attachmentId);
    var proof := f.proof + rest;
    var parameters := CanonicalBytes(f.attachParameters) + proof;
    assert PayloadOf(f) + rest == AttachmentBytes(v) + parameters;
    ReadAttachmentExact(b, v, parameters);
    ReadParametersExact(parameters, f.attachParameters, proof);
    ReadArrayExact(proof, 32, f.proof, rest);
    if ReadAttach(b) == Ok(Parsed(f, rest)) {
      var r1 := ReadAttachment(b).value.rest;
      var r2 := ReadParameters(r1).value.rest;
      ReadAttachmentExact(b, v, r1);
      ReadParametersExact(r1, f.attachParameters, r2);
      ReadArrayExact(r2, 32, f.proof, rest);
    }
  }

  predicate CanonicalError(e: ProtocolErrorCode) { !(e.Unknown? && IsNamed(e.code)) }

  lemma ReadErrorExact(b: Bytes, e: ProtocolErrorCode, rest: Bytes)
    ensures ReadError(b) == Ok(Parsed(e, rest)) <==> CanonicalError(e) && b == U16Bytes(ErrorNumber(e)) + rest
  {
    hide ReadU16, U16Bytes, ErrorNumber, ErrorNamed, IsNamed;
    ErrorRoundTrips(e, 0);
    ReadU16Exact(b, ErrorNumber(e), rest);
    if ReadError(b) == Ok(Parsed(e, rest)) {
      var number := ReadU16(b).value.value;
      ErrorRoundTrips(e, number);
      ReadU16Exact(b, number, rest);
    }
  }

  lemma ReadResetExact(b: Bytes, f: Frame, rest: Bytes)
    requires f.StreamReset?
    ensures ReadReset(b) == Ok(Parsed(f, rest)) <==> CanonicalError(f.error) && b == PayloadOf(f) + rest
  {
    hide ReadU64, ReadError, U64Bytes, U16Bytes, ErrorNumber, CanonicalError;
    var error := U16Bytes(ErrorNumber(f.error)) + rest;
    assert PayloadOf(f) + rest == U64Bytes(f.flowId) + error;
    ReadU64Exact(b, f.flowId, error);
    ReadErrorExact(error, f.error, rest);
    if ReadReset(b) == Ok(Parsed(f, rest)) {
      var r1 := ReadU64(b).value.rest;
      ReadU64Exact(b, f.flowId, r1);
      ReadErrorExact(r1, f.error, rest);
    }
  }

  lemma ReadDataExact(b: Bytes, f: Frame)
    requires f.StreamData?
    ensures ReadData(b) == Ok(Parsed(f, [])) <==> f.bytes != [] && b == PayloadOf(f)
  {
    hide ReadSegment, SegmentBytes;
    var v := Segment(f.flowId, f.epoch, f.sequence);
    ReadSegmentExact(b, v, f.bytes);
  }

  // ---------------------------------------------------------------- the two-sided inverse

  /** The frames the constructors of the protocol can produce. */
  predicate Canonical(f: Frame) {
    match f
    case Offer(offer) => ValidOffer(offer)
    case StreamData(_, _, _, bytes) => bytes != []
    case StreamReset(_, error) => CanonicalError(error)
    case ConnectionClose(error) => CanonicalError(error)
    case UnknownOptional(frameType, _) => frameType >= OPTIONAL_FRAME_BIT
    case _ => true
  }

  lemma ReadFrameExact(f: Frame, b: Bytes)
    ensures ReadFrame(TypeOf(f), b) == Ok(Parsed(f, [])) <==> Canonical(f) && b == PayloadOf(f)
  {
    hide ReadOffer, ReadParameters, ReadAttach, ReadAttachment, ReadU64, ReadSegment, ReadData, ReadReset, ReadError;
    hide ValidOffer, CanonicalError, OfferBytes, CanonicalBytes, U64Bytes, U16Bytes, SegmentBytes;
    assert PayloadOf(f) + [] == PayloadOf(f);
    match f
    case Offer(offer) => ReadOfferExact(b, offer, []);
    case Accept(parameters) => ReadParametersExact(b, parameters, []);
    case Attach(_, _, _, _, _) => ReadAttachExact(b, f, []);
    case AttachAccepted(sessionId, epoch, attachmentId) =>
      ReadAttachmentExact(b, Attachment(sessionId, epoch, attachmentId), []);
    case StreamOpen(flow) => ReadU64Exact(b, flow, []);
    case StreamData(_, _, _, _) => ReadDataExact(b, f);
    case StreamAcknowledgement(flow, epoch, through) => ReadSegmentExact(b, Segment(flow, epoch, through), []);
    case StreamFinish(flow, epoch, finalNext) => ReadSegmentExact(b, Segment(flow, epoch, finalNext), []);
    case StreamReset(_, _) => ReadResetExact(b, f, []);
    case ConnectionClose(error) => ReadErrorExact(b, error, []);
    case UnknownOptional(frameType, _) =>
      if frameType < OPTIONAL_FRAME_BIT {
        OnlyMarkedTypesAreOptional(frameType, b);
      }
  }

  lemma OnlyMarkedTypesAreOptional(frameType: u8, b: Bytes)
    requires frameType < OPTIONAL_FRAME_BIT
    ensures ReadFrame(frameType, b).Ok? ==> !ReadFrame(frameType, b).value.value.UnknownOptional?
  {
    hide ReadOffer, ReadParameters, ReadAttachment, ReadU64, ReadSegment, ReadError;
  }

  /** Decoding dispatches on the type byte, so the result carries that type. */
  lemma ReadFrameType(frameType: u8, b: Bytes)
    ensures ReadFrame(frameType, b).Ok? ==> TypeOf(ReadFrame(frameType, b).value.value) == frameType
  {
    hide ReadOffer, ReadParameters, ReadAttachment, ReadU64, ReadSegment, ReadError;
  }

  /**
   * The codec is a two-sided inverse: decoding some bytes gives `f` exactly
   * when `f` is canonical, those bytes are its one encoding, and the payload
   * is within the decoder's limit.
   */
  lemma DecodeIsInverseOfEncode(f: Frame, b: Bytes, maximum: nat)
    ensures DecodeExact(b, maximum) == Ok(f)
      <==> Canonical(f) && Encode(f) == Ok(b) && |PayloadOf(f)| <= maximum
  {
    hide ReadFrame, PayloadOf, Canonical;
    Widths();
    var payload := PayloadOf(f);
    ReadFrameExact(f, payload);
    if Canonical(f) {
      NonEmptyWhenCanonical(f);
    }
    if Encode(f) == Ok(b) {
      EncodedHeader(f, b);
    }
    if DecodeExact(b, maximum) == Ok(f) {
      var body := b[FRAME_HEADER_BYTES..];
      ReadFrameType(b[0], body);
      ReadFrameExact(f, body);
      HeaderRestored(b);
    }
  }

  lemma NonEmptyWhenCanonical(f: Frame)
    requires Canonical(f)
    ensures !(f.StreamData? && f.bytes == []) && !(f.UnknownOptional? && f.frameType < OPTIONAL_FRAME_BIT)
  {
  }

  lemma EncodedHeader(f: Frame, b: Bytes)
    requires Encode(f) == Ok(b)
    ensures |b| == FRAME_HEADER_BYTES + |PayloadOf(f)|
    ensures b[0] == TypeOf(f) && b[1] == 0 && b[FRAME_HEADER_BYTES..] == PayloadOf(f)
    ensures Advertised(b) == |PayloadOf(f)|
  {
    hide PayloadOf, TypeOf;
    Widths();
    var n := |PayloadOf(f)|;
    BigEndianRoundTrip(n, 2);
    assert b[2..4] == U16Bytes(n);
  }

  lemma HeaderRestored(b: Bytes)
    requires |b| >= FRAME_HEADER_BYTES && b[1] == 0 && Advertised(b) == |b| - FRAME_HEADER_BYTES
    ensures b == [b[0], 0] + U16Bytes(|b| - FRAME_HEADER_BYTES) + b[FRAME_HEADER_BYTES..]
  {
    FromBigEndianRoundTrip(b[2..4]);
    assert b == [b[0], b[1]] + b[2..4] + b[4..];
  }
}
