/** Frames and datagrams byte by byte: the numbers and offsets two implementations have to share. */
module FrameLayout {
  import opened Common
  import opened ByteOrder
  import opened ProtocolTypes
  import opened Negotiation
  import opened FrameCodec

  /** The two bytes from `at` on are this number, the more significant one first. */
  predicate Has16(b: Bytes, at: nat, v: nat) {
    at + 2 <= |b| && v == b[at] as int * 0x100 + b[at + 1] as int
  }

  /** The eight bytes from `at` on are this number, most significant first. */
  predicate Has64(b: Bytes, at: nat, v: nat) {
    && at + 8 <= |b|
    && v == b[at] as int * 0x100_0000_0000_0000 + b[at + 1] as int * 0x1_0000_0000_0000
          + b[at + 2] as int * 0x100_0000_0000 + b[at + 3] as int * 0x1_0000_0000
          + b[at + 4] as int * 0x100_0000 + b[at + 5] as int * 0x1_0000
          + b[at + 6] as int * 0x100 + b[at + 7] as int
  }

  predicate HasBytes(b: Bytes, at: nat, v: Bytes) {
    at + |v| <= |b| && b[at..at + |v|] == v
  }

  lemma OneMoreByte(b: Bytes, k: nat)
    requires k < |b|
    ensures FromBigEndian(b[..k + 1]) == 256 * FromBigEndian(b[..k]) + b[k]
  {
    var longer := b[..k + 1];
    assert longer[..k] == b[..k];
  }

  lemma NoBytes(b: Bytes)
    ensures FromBigEndian(b[..0]) == 0
  {
  }

  lemma U16At(b: Bytes, at: nat, v: u16)
    requires HasBytes(b, at, U16Bytes(v))
    ensures Has16(b, at, v)
  {
    hide FromBigEndian, BigEndian;
    var part := b[at..at + 2];
    Widths();
    BigEndianRoundTrip(v, 2);
    NoBytes(part);
    OneMoreByte(part, 0);
    OneMoreByte(part, 1);
    assert part[..2] == part;
  }

  lemma U64At(b: Bytes, at: nat, v: u64)
    requires HasBytes(b, at, U64Bytes(v))
    ensures Has64(b, at, v)
  {
    hide FromBigEndian, BigEndian;
    var part := b[at..at + 8];
    Widths();
    BigEndianRoundTrip(v, 8);
    NoBytes(part);
    OneMoreByte(part, 0);
    OneMoreByte(part, 1);
    OneMoreByte(part, 2);
    OneMoreByte(part, 3);
    OneMoreByte(part, 4);
    OneMoreByte(part, 5);
    OneMoreByte(part, 6);
    OneMoreByte(part, 7);
    assert part[..8] == part;
  }

  /** Reading on from an offset: the part found there, and where the next one starts. */
  lemma Part(b: Bytes, at: nat, part: Bytes, rest: Bytes)
    requires at <= |b| && b[at..] == part + rest
    ensures HasBytes(b, at, part) && at + |part| <= |b| && b[at + |part|..] == rest
  {
    assert b[at..][..|part|] == part && b[at..][|part|..] == rest;
  }

  lemma Part16(b: Bytes, at: nat, v: u16, rest: Bytes)
    requires at <= |b| && b[at..] == U16Bytes(v) + rest
    ensures Has16(b, at, v) && at + 2 <= |b| && b[at + 2..] == rest
  {
    hide U16Bytes;
    Part(b, at, U16Bytes(v), rest);
    U16At(b, at, v);
  }

  lemma Part64(b: Bytes, at: nat, v: u64, rest: Bytes)
    requires at <= |b| && b[at..] == U64Bytes(v) + rest
    ensures Has64(b, at, v) && at + 8 <= |b| && b[at + 8..] == rest
  {
    hide U64Bytes;
    Part(b, at, U64Bytes(v), rest);
    U64At(b, at, v);
  }

  // ---------------------------------------------------------------- frames

  /** Every frame starts with its type, a zero, and the length of what follows. */
  lemma HeaderLayout(f: Frame, b: Bytes)
    requires Encode(f) == Ok(b)
    ensures |b| >= 4 && b[0] == TypeOf(f) && b[1] == 0 && Has16(b, 2, |b| - 4)
  {
    hide U16Bytes, PayloadOf;
    var n := |PayloadOf(f)|;
    assert b[2..] == U16Bytes(n) + PayloadOf(f);
    Part16(b, 2, n, PayloadOf(f));
  }

  lemma PayloadAt(f: Frame, b: Bytes)
    requires Encode(f) == Ok(b)
    ensures |b| == 4 + |PayloadOf(f)| && b[4..] == PayloadOf(f) && b[0] == TypeOf(f)
  {
    hide PayloadOf;
    EncodedHeader(f, b);
  }

  lemma OfferLayout(f: Frame, b: Bytes)
    requires f.Offer? && Encode(f) == Ok(b)
    ensures
      && b[0] == 0x01 && |b| == 40
      && Has16(b, 4, f.offer.versions.minimum) && Has16(b, 6, f.offer.versions.maximum)
      && Has64(b, 8, f.offer.capabilities.required) && Has64(b, 16, f.offer.capabilities.optional)
      && HasBytes(b, 24, f.offer.clientNonce)
  {
    hide U16Bytes, U64Bytes;
    PayloadAt(f, b);
    var end: Bytes := [];
    var after24 := f.offer.clientNonce + end;
    var after16 := U64Bytes(f.offer.capabilities.optional) + after24;
    var after8 := U64Bytes(f.offer.capabilities.required) + after16;
    var after6 := U16Bytes(f.offer.versions.maximum) + after8;
    assert PayloadOf(f) == U16Bytes(f.offer.versions.minimum) + after6;
    Part16(b, 4, f.offer.versions.minimum, after6);
    Part16(b, 6, f.offer.versions.maximum, after8);
    Part64(b, 8, f.offer.capabilities.required, after16);
    Part64(b, 16, f.offer.capabilities.optional, after24);
    Part(b, 24, f.offer.clientNonce, end);
  }

  lemma AcceptLayout(f: Frame, b: Bytes)
    requires f.Accept? && Encode(f) == Ok(b)
    ensures
      && b[0] == 0x02 && |b| == 46
      && Has16(b, 4, f.parameters.version) && Has64(b, 6, f.parameters.capabilities)
      && HasBytes(b, 14, f.parameters.clientNonce) && HasBytes(b, 30, f.parameters.serverNonce)
  {
    hide U16Bytes, U64Bytes;
    PayloadAt(f, b);
    var end: Bytes := [];
    var after30 := f.parameters.serverNonce + end;
    var after14 := f.parameters.clientNonce + after30;
    var after6 := U64Bytes(f.parameters.capabilities) + after14;
    assert PayloadOf(f) == U16Bytes(f.parameters.version) + after6;
    Part16(b, 4, f.parameters.version, after6);
    Part64(b, 6, f.parameters.capabilities, after14);
    Part(b, 14, f.parameters.clientNonce, after30);
    Part(b, 30, f.parameters.serverNonce, end);
  }

  lemma AttachLayout(f: Frame, b: Bytes)
    requires f.Attach? && Encode(f) == Ok(b)
    ensures
      && b[0] == 0x03 && |b| == 118
      && HasBytes(b, 4, f.sessionId) && Has64(b, 20, f.epoch) && HasBytes(b, 28, f.attachmentId)
      && Has16(b, 44, f.attachParameters.version) && Has64(b, 46, f.attachParameters.capabilities)
      && HasBytes(b, 54, f.attachParameters.clientNonce) && HasBytes(b, 70, f.attachParameters.serverNonce)
      && HasBytes(b, 86, f.proof)
  {
    hide U16Bytes, U64Bytes;
    PayloadAt(f, b);
    var end: Bytes := [];
    var after86 := f.proof + end;
    var after70 := f.attachParameters.serverNonce + after86;
    var after54 := f.attachParameters.clientNonce + after70;
    var after46 := U64Bytes(f.attachParameters.capabilities) + after54;
    var after44 := U16Bytes(f.attachParameters.version) + after46;
    var after28 := f.attachmentId + after44;
    var after20 := U64Bytes(f.epoch) + after28;
    assert PayloadOf(f) == f.sessionId + after20;
    Part(b, 4, f.sessionId, after20);
    Part64(b, 20, f.epoch, after28);
    Part(b, 28, f.attachmentId, after44);
    Part16(b, 44, f.attachParameters.version, after46);
    Part64(b, 46, f.attachParameters.capabilities, after54);
    Part(b, 54, f.attachParameters.clientNonce, after70);
    Part(b, 70, f.attachParameters.serverNonce, after86);
    Part(b, 86, f.proof, end);
  }

  lemma AttachAcceptedLayout(f: Frame, b: Bytes)
    requires f.AttachAccepted? && Encode(f) == Ok(b)
    ensures
      && b[0] == 0x04 && |b| == 44
      && HasBytes(b, 4, f.sessionId) && Has64(b, 20, f.epoch) && HasBytes(b, 28, f.attachmentId)
  {
    hide U16Bytes, U64Bytes;
    PayloadAt(f, b);
    var end: Bytes := [];
    var after28 := f.attachmentId + end;
    var after20 := U64Bytes(f.epoch) + after28;
    assert PayloadOf(f) == f.sessionId + after20;
    Part(b, 4, f.sessionId, after20);
    Part64(b, 20, f.epoch, after28);
    Part(b, 28, f.attachmentId, end);
  }

  lemma StreamOpenLayout(f: Frame, b: Bytes)
    requires f.StreamOpen? && Encode(f) == Ok(b)
    ensures
      && b[0] == 0x10 && |b| == 12
      && Has64(b, 4, f.flowId)
  {
    hide U16Bytes, U64Bytes;
    PayloadAt(f, b);
    var end: Bytes := [];
    assert PayloadOf(f) == U64Bytes(f.flowId) + end;
    Part64(b, 4, f.flowId, end);
  }

  lemma StreamDataLayout(f: Frame, b: Bytes)
    requires f.StreamData? && Encode(f) == Ok(b)
    ensures
      && b[0] == 0x11 && |b| == 28 + |f.bytes|
      && Has64(b, 4, f.flowId) && Has64(b, 12, f.epoch) && Has64(b, 20, f.sequence) && HasBytes(b, 28, f.bytes)
  {
    hide U16Bytes, U64Bytes;
    PayloadAt(f, b);
    var end: Bytes := [];
    var after28 := f.bytes + end;
    var after20 := U64Bytes(f.sequence) + after28;
    var after12 := U64Bytes(f.epoch) + after20;
    assert PayloadOf(f) == U64Bytes(f.flowId) + after12;
    Part64(b, 4, f.flowId, after12);
    Part64(b, 12, f.epoch, after20);
    Part64(b, 20, f.sequence, after28);
    Part(b, 28, f.bytes, end);
  }

  lemma AcknowledgementLayout(f: Frame, b: Bytes)
    requires f.StreamAcknowledgement? && Encode(f) == Ok(b)
    ensures
      && b[0] == 0x12 && |b| == 28
      && Has64(b, 4, f.flowId) && Has64(b, 12, f.epoch) && Has64(b, 20, f.through)
  {
    hide U16Bytes, U64Bytes;
    PayloadAt(f, b);
    var end: Bytes := [];
    var after20 := U64Bytes(f.through) + end;
    var after12 := U64Bytes(f.epoch) + after20;
    assert PayloadOf(f) == U64Bytes(f.flowId) + after12;
    Part64(b, 4, f.flowId, after12);
    Part64(b, 12, f.epoch, after20);
    Part64(b, 20, f.through, end);
  }

  lemma FinishLayout(f: Frame, b: Bytes)
    requires f.StreamFinish? && Encode(f) == Ok(b)
    ensures
      && b[0] == 0x13 && |b| == 28
      && Has64(b, 4, f.flowId) && Has64(b, 12, f.epoch) && Has64(b, 20, f.finalNextSequence)
  {
    hide U16Bytes, U64Bytes;
    PayloadAt(f, b);
    var end: Bytes := [];
    var after20 := U64Bytes(f.finalNextSequence) + end;
    var after12 := U64Bytes(f.epoch) + after20;
    assert PayloadOf(f) == U64Bytes(f.flowId) + after12;
    Part64(b, 4, f.flowId, after12);
    Part64(b, 12, f.epoch, after20);
    Part64(b, 20, f.finalNextSequence, end);
  }

  lemma ResetLayout(f: Frame, b: Bytes)
    requires f.StreamReset? && Encode(f) == Ok(b)
    ensures
      && b[0] == 0x14 && |b| == 14
      && Has64(b, 4, f.flowId) && Has16(b, 12, ErrorNumber(f.error))
  {
    hide U16Bytes, U64Bytes, ErrorNumber;
    PayloadAt(f, b);
    var end: Bytes := [];
    var after12 := U16Bytes(ErrorNumber(f.error)) + end;
    assert PayloadOf(f) == U64Bytes(f.flowId) + after12;
    Part64(b, 4, f.flowId, after12);
    Part16(b, 12, ErrorNumber(f.error), end);
  }

  lemma CloseLayout(f: Frame, b: Bytes)
    requires f.ConnectionClose? && Encode(f) == Ok(b)
    ensures
      && b[0] == 0x20 && |b| == 6
      && Has16(b, 4, ErrorNumber(f.error))
  {
    hide U16Bytes, U64Bytes, ErrorNumber;
    PayloadAt(f, b);
    var end: Bytes := [];
    assert PayloadOf(f) == U16Bytes(ErrorNumber(f.error)) + end;
    Part16(b, 4, ErrorNumber(f.error), end);
  }

  lemma OptionalLayout(f: Frame, b: Bytes)
    requires f.UnknownOptional? && Encode(f) == Ok(b)
    ensures b[0] == f.frameType >= 0x80 && |b| == 4 + |f.payload| && HasBytes(b, 4, f.payload)
  {
    PayloadAt(f, b);
    Part(b, 4, f.payload, []);
  }

  /** The numbers of the error codes. */
  lemma ErrorNumbers()
    ensures ErrorNumber(NoSharedVersion) == 0x0001 && ErrorNumber(IncompatibleCapabilities) == 0x0002
    ensures ErrorNumber(AuthenticationFailed) == 0x0003 && ErrorNumber(ReplayDetected) == 0x0004
    ensures ErrorNumber(ProtocolViolation) == 0x0005 && ErrorNumber(ResourceLimit) == 0x0006
    ensures ErrorNumber(FlowNotFound) == 0x0007 && ErrorNumber(FlowState) == 0x0008
    ensures ErrorNumber(ResumeUnsupported) == 0x0009 && ErrorNumber(Internal) == 0x00ff
  {
  }

  // ---------------------------------------------------------------- errors

  /** Why a frame cannot be encoded. */
  lemma EncodingErrors(f: Frame)
    ensures Encode(f) == Err(NoStreamData) <==> f.StreamData? && f.bytes == []
    ensures f.UnknownOptional? && f.frameType < 0x80 ==> Encode(f) == Err(InvalidOptionalFrameType(f.frameType))
    ensures Encode(f).Ok? <==>
      && (f.StreamData? ==> 0 < |f.bytes| <= 65535 - 24)
      && (f.UnknownOptional? ==> 0x80 <= f.frameType && |f.payload| <= 65535)
    ensures Encode(f).Err? && Encode(f).error.TooLargeToEncode? ==>
      Encode(f).error == TooLargeToEncode(65535, if f.StreamData? then 24 + |f.bytes| else |PayloadOf(f)|)
  {
    hide BigEndian, ErrorNumber;
  }

  /** The length a header announces. */
  predicate Announces(b: Bytes, n: nat) { |b| >= 4 && n == b[2] as int * 0x100 + b[3] as int }

  predicate KnownType(t: u8) {
    t == 0x01 || t == 0x02 || t == 0x03 || t == 0x04
    || t == 0x10 || t == 0x11 || t == 0x12 || t == 0x13 || t == 0x14 || t == 0x20
  }

  lemma AdvertisedIsAnnounced(b: Bytes)
    requires |b| >= 4
    ensures Announces(b, Advertised(b))
  {
    hide FromBigEndian;
    var part := b[2..4];
    NoBytes(part);
    OneMoreByte(part, 0);
    OneMoreByte(part, 1);
    assert part[..2] == part;
  }

  /** Why bytes are not one whole frame, in the order it is checked. */
  lemma HeaderErrors(b: Bytes, maximum: nat, n: nat)
    requires |b| >= 4 ==> Announces(b, n)
    ensures var r := DecodeExact(b, maximum);
      && (r == Err(TruncatedHeader) <==> |b| < 4)
      && (|b| >= 4 && n > maximum ==> r == Err(PayloadTooLarge(maximum, n)))
      && (|b| >= 4 && n <= maximum && n != |b| - 4 ==> r == Err(LengthMismatch(n, |b| - 4)))
      && (|b| >= 4 && n <= maximum && n == |b| - 4 && b[1] != 0 ==> r == Err(InvalidPayload))
  {
    hide DecodePayload, Advertised, ReadFrame;
    if |b| >= 4 {
      AdvertisedIsAnnounced(b);
      if Advertised(b) <= maximum && Advertised(b) == |b| - 4 {
        PayloadErrorsAreLate(b[0], b[4..]);
      }
    }
  }

  lemma PayloadErrorsAreLate(frameType: u8, payload: Bytes)
    ensures DecodePayload(frameType, payload) != Err(TruncatedHeader)
  {
    hide ReadOffer, ReadParameters, ReadAttach, ReadAttachment, ReadU64, ReadSegment, ReadReset, ReadError;
  }

  /** Why a payload is not that of its type. */
  lemma PayloadErrors(frameType: u8, payload: Bytes)
    ensures var r := DecodePayload(frameType, payload);
      && (r == Err(UnknownMandatoryFrame(frameType)) <==> frameType < 0x80 && !KnownType(frameType))
      && (r == Err(EmptyStreamData) <==> frameType == 0x11 && |payload| == 24)
      && (r.Err? ==> r.error in {UnknownMandatoryFrame(frameType), EmptyStreamData, InvalidPayload})
      && (frameType >= 0x80 ==> r == Ok(UnknownOptional(frameType, payload)))
  {
    hide ReadOffer, ReadParameters, ReadAttach, ReadAttachment, ReadU64, ReadSegment, ReadReset, ReadError;
    SegmentTakes24(payload);
  }

  lemma SegmentTakes24(b: Bytes)
    ensures ReadSegment(b).Ok? <==> |b| >= 24
    ensures ReadSegment(b).Ok? ==> |ReadSegment(b).value.rest| == |b| - 24
  {
    hide FromBigEndian;
  }
}
