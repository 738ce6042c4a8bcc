/** Frames written into a growing buffer and read back through a moving offset. */
module FrameWire {
  import opened Common
  import opened ByteOrder
  import opened ProtocolTypes
  import opened Bits
  import opened Negotiation
  import opened FrameCodec

  /** The constructor of nonces and attachment ids: scans for a byte that is not zero. */
  method NewNonZero(bytes: Id16) returns (r: Result<NonZeroId16, DecodeError>)
    ensures r == if AllZero(bytes) then Err(InvalidPayload) else Ok(bytes)
  {
    var index := 0;
    while index < |bytes|
      invariant 0 <= index <= |bytes|
      invariant forall i | 0 <= i < index :: bytes[i] == 0
    {
      if bytes[index] != 0 {
        return Ok(bytes);
      }
      index := index + 1;
    }
    return Err(InvalidPayload);
  }

  lemma CanonicalParts(b: Bytes, p: NegotiatedParameters)
    requires |b| == 42 && b[..2] == U16Bytes(p.version) && b[2..10] == U64Bytes(p.capabilities)
    requires forall i | 0 <= i < 16 :: b[10 + i] == p.clientNonce[i] && b[26 + i] == p.serverNonce[i]
    ensures b == CanonicalBytes(p)
  {
    hide U16Bytes, U64Bytes;
    assert b[10..26] == p.clientNonce;
    assert b[26..] == p.serverNonce;
    assert b == b[..2] + (b[2..10] + (b[10..26] + b[26..]));
  }

  method WriteIntegers(bytes: array<u8>, p: NegotiatedParameters)
    requires bytes.Length == 42
    modifies bytes
    ensures forall k | 0 <= k < 2 :: bytes[k] == U16Bytes(p.version)[k]
    ensures forall k | 2 <= k < 10 :: bytes[k] == U64Bytes(p.capabilities)[k - 2]
  {
    hide BigEndian;
    var version := U16Bytes(p.version);
    var capabilities := U64Bytes(p.capabilities);
    bytes[0], bytes[1] := version[0], version[1];
    bytes[2], bytes[3], bytes[4], bytes[5] :=
      capabilities[0], capabilities[1], capabilities[2], capabilities[3];
    bytes[6], bytes[7], bytes[8], bytes[9] :=
      capabilities[4], capabilities[5], capabilities[6], capabilities[7];
  }

  method WriteCanonicalBytes(p: NegotiatedParameters) returns (bytes: array<u8>)
    ensures fresh(bytes) && bytes[..] == CanonicalBytes(p)
  {
    hide CanonicalBytes, BigEndian;
    bytes := new u8[42];
    WriteIntegers(bytes, p);
    var index := 0;
    while index < 16
      invariant 0 <= index <= 16
      invariant forall k | 0 <= k < 2 :: bytes[k] == U16Bytes(p.version)[k]
      invariant forall k | 2 <= k < 10 :: bytes[k] == U64Bytes(p.capabilities)[k - 2]
      invariant forall i | 0 <= i < index :: bytes[10 + i] == p.clientNonce[i] && bytes[26 + i] == p.serverNonce[i]
    {
      bytes[10 + index] := p.clientNonce[index];
      bytes[26 + index] := p.serverNonce[index];
      index := index + 1;
    }
    ghost var b := bytes[..];
    assert b[..2] == U16Bytes(p.version) && b[2..10] == U64Bytes(p.capabilities);
    CanonicalParts(b, p);
  }

  method EncodePayload(f: Frame) returns (r: Result<(u8, Bytes), EncodeError>)
    ensures r == if f.StreamData? && f.bytes == [] then Err(NoStreamData)
                 else if f.UnknownOptional? && f.frameType < OPTIONAL_FRAME_BIT then
                   Err(InvalidOptionalFrameType(f.frameType))
                 else Ok((TypeOf(f), PayloadOf(f)))
  {
    hide BigEndian, CanonicalBytes, ErrorNumber;
    var payload: Bytes := [];
    var frameType: u8;
    match f {
    case Offer(offer) =>
      payload := payload + U16Bytes(offer.versions.minimum) + U16Bytes(offer.versions.maximum);
      payload := payload + U64Bytes(offer.capabilities.required);
      payload := payload + U64Bytes(offer.capabilities.optional);
      payload := payload + offer.clientNonce;
      assert payload == OfferBytes(offer);
      frameType := 0x01;
    case Accept(parameters) =>
      var canonical := WriteCanonicalBytes(parameters);
      payload := payload + canonical[..];
      frameType := 0x02;
    case Attach(sessionId, epoch, attachmentId, parameters, proof) =>
      payload := payload + sessionId + U64Bytes(epoch);
      payload := payload + attachmentId;
      var canonical := WriteCanonicalBytes(parameters);
      payload := payload + canonical[..];
      payload := payload + proof;
      frameType := 0x03;
    case AttachAccepted(sessionId, epoch, attachmentId) =>
      payload := payload + sessionId + U64Bytes(epoch);
      payload := payload + attachmentId;
      frameType := 0x04;
    case StreamOpen(flow) =>
      payload := payload + U64Bytes(flow);
      frameType := 0x10;
    case StreamData(flow, epoch, sequence, bytes) =>
      if bytes == [] {
        return Err(NoStreamData);
      }
      payload := payload + U64Bytes(flow) + U64Bytes(epoch);
      payload := payload + U64Bytes(sequence);
      assert payload == SegmentBytes(flow, epoch, sequence);
      payload := payload + bytes;
      frameType := 0x11;
    case StreamAcknowledgement(flow, epoch, through) =>
      payload := payload + U64Bytes(flow) + U64Bytes(epoch);
      payload := payload + U64Bytes(through);
      assert payload == SegmentBytes(flow, epoch, through);
      frameType := 0x12;
    case StreamFinish(flow, epoch, finalNext) =>
      payload := payload + U64Bytes(flow) + U64Bytes(epoch);
      payload := payload + U64Bytes(finalNext);
      assert payload == SegmentBytes(flow, epoch, finalNext);
      frameType := 0x13;
    case StreamReset(flow, error) =>
      payload := payload + U64Bytes(flow);
      payload := payload + U16Bytes(ErrorNumber(error));
      frameType := 0x14;
    case ConnectionClose(error) =>
      payload := payload + U16Bytes(ErrorNumber(error));
      frameType := 0x20;
    case UnknownOptional(optionalType, bytes) =>
      if optionalType < OPTIONAL_FRAME_BIT {
        return Err(InvalidOptionalFrameType(optionalType));
      }
      payload := payload + bytes;
      frameType := optionalType;
    }
    assert payload == PayloadOf(f);
    return Ok((frameType, payload));
  }

  method EncodeFrame(f: Frame) returns (r: Result<Bytes, EncodeError>)
    ensures r == Encode(f)
  {
    hide PayloadOf, TypeOf, U16Bytes;
    var encoded :- EncodePayload(f);
    var (frameType, payload) := encoded;
    if |payload| > MAX_FRAME_PAYLOAD {
      return Err(TooLargeToEncode(MAX_FRAME_PAYLOAD, |payload|));
    }
    var bytes: Bytes := [frameType, 0];
    bytes := bytes + U16Bytes(|payload|);
    bytes := bytes + payload;
    return Ok(bytes);
  }

  class Reader {
    const bytes: Bytes
    var offset: nat

    ghost predicate Valid()
      reads this
    {
      offset <= |bytes|
    }

    function Remaining(): Bytes
      requires Valid()
      reads this
    {
      bytes[offset..]
    }

    constructor (bytes: Bytes)
      ensures Valid() && this.bytes == bytes && Remaining() == bytes
    {
      this.bytes := bytes;
      offset := 0;
    }

    method Array(n: nat) returns (r: Result<Bytes, DecodeError>)
      requires Valid()
      modifies this
      ensures Valid() && Follows(ReadArray(old(Remaining()), n), r, Remaining())
    {
      var end := offset + n;
      if end > |bytes| {
        return Err(InvalidPayload);
      }
      var slice := bytes[offset..end];
      assert Remaining()[..n] == slice && Remaining()[n..] == bytes[end..];
      offset := end;
      return Ok(slice);
    }

    method U16() returns (r: Result<u16, DecodeError>)
      requires Valid()
      modifies this
      ensures Valid() && Follows(ReadU16(old(Remaining())), r, Remaining())
    {
      var slice :- Array(2);
      Widths();
      FromBigEndianRoundTrip(slice);
      return Ok(FromBigEndian(slice));
    }

    method U64() returns (r: Result<u64, DecodeError>)
      requires Valid()
      modifies this
      ensures Valid() && Follows(ReadU64(old(Remaining())), r, Remaining())
    {
      var slice :- Array(8);
      Widths();
      FromBigEndianRoundTrip(slice);
      return Ok(FromBigEndian(slice));
    }

    method Versions() returns (r: Result<VersionRange, DecodeError>)
      requires Valid()
      modifies this
      ensures Valid() && Follows(ReadVersions(old(Remaining())), r, Remaining())
    {
      hide ReadU16;
      var minimum :- U16();
      var maximum :- U16();
      if minimum > maximum {
        return Err(InvalidPayload);
      }
      return Ok(VersionRange(minimum, maximum));
    }

    method NonZero() returns (r: Result<NonZeroId16, DecodeError>)
      requires Valid()
      modifies this
      ensures Valid() && Follows(ReadNonZero(old(Remaining())), r, Remaining())
    {
      var slice :- Array(16);
      r := NewNonZero(slice);
    }

    method Parameters() returns (r: Result<NegotiatedParameters, DecodeError>)
      requires Valid()
      modifies this
      ensures Valid() && Follows(ReadParameters(old(Remaining())), r, Remaining())
    {
      hide ReadU16, ReadU64, ReadNonZero;
      var version :- U16();
      var capabilities :- U64();
      var client :- NonZero();
      var server :- NonZero();
      return Ok(NegotiatedParameters(version, capabilities, client, server));
    }

    method ErrorCode() returns (r: Result<ProtocolErrorCode, DecodeError>)
      requires Valid()
      modifies this
      ensures Valid() && Follows(ReadError(old(Remaining())), r, Remaining())
    {
      hide ReadU16;
      var number :- U16();
      return Ok(ErrorNamed(number));
    }

    method TakeRemaining() returns (rest: Bytes)
      requires Valid()
      modifies this
      ensures Valid() && rest == old(Remaining()) && Remaining() == []
    {
      rest := Remaining();
      offset := |bytes|;
    }

    method OfferFrame() returns (r: Result<NegotiationOffer, DecodeError>)
      requires Valid()
      modifies this
      ensures Valid() && Follows(ReadOffer(old(Remaining())), r, Remaining())
    {
      hide ReadVersions, ReadU64, ReadNonZero, And;
      var versions :- Versions();
      var required :- U64();
      var optional :- U64();
      var nonce :- NonZero();
      if And(required, optional) != 0 {
        return Err(InvalidPayload);
      }
      var offer := NegotiationOffer(versions, CapabilityAdvertisement(required, optional), nonce);
      if NewOffer(versions, offer.capabilities, nonce).Err? {
        return Err(InvalidPayload);
      }
      return Ok(offer);
    }

    method ThreeNumbers() returns (r: Result<Segment, DecodeError>)
      requires Valid()
      modifies this
      ensures Valid() && Follows(ReadSegment(old(Remaining())), r, Remaining())
    {
      hide ReadU64;
      var flow :- U64();
      var epoch :- U64();
      var number :- U64();
      return Ok(Segment(flow, epoch, number));
    }

    method AttachmentHead() returns (r: Result<Attachment, DecodeError>)
      requires Valid()
      modifies this
      ensures Valid() && Follows(ReadAttachment(old(Remaining())), r, Remaining())
    {
      hide ReadU64, ReadArray, ReadNonZero;
      var sessionId :- Array(16);
      var epoch :- U64();
      var attachmentId :- NonZero();
      return Ok(Attachment(sessionId, epoch, attachmentId));
    }

    method AttachFrame() returns (r: Result<Frame, DecodeError>)
      requires Valid()
      modifies this
      ensures Valid() && Follows(ReadAttach(old(Remaining())), r, Remaining())
    {
      hide ReadAttachment, ReadParameters, ReadArray;
      var head :- AttachmentHead();
      var parameters :- Parameters();
      var proof :- Array(32);
      return Ok(Attach(head.sessionId, head.epoch, head.attachmentId, parameters, proof));
    }

    method DataFrame() returns (r: Result<Frame, DecodeError>)
      requires Valid()
      modifies this
      ensures Valid() && Follows(ReadData(old(Remaining())), r, Remaining())
    {
      hide ReadSegment;
      var head :- ThreeNumbers();
      var data := TakeRemaining();
      if data == [] {
        return Err(EmptyStreamData);
      }
      return Ok(StreamData(head.flow, head.epoch, head.number, data));
    }

    method ResetFrame() returns (r: Result<Frame, DecodeError>)
      requires Valid()
      modifies this
      ensures Valid() && Follows(ReadReset(old(Remaining())), r, Remaining())
    {
      hide ReadU64, ReadError;
      var flow :- U64();
      var error :- ErrorCode();
      return Ok(StreamReset(flow, error));
    }

    method ControlFrame(frameType: u8) returns (r: Result<Frame, DecodeError>)
      requires Valid() && 1 <= frameType <= 4
      modifies this
      ensures Valid() && Follows(ReadFrame(frameType, old(Remaining())), r, Remaining())
    {
      hide ReadOffer, ReadParameters, ReadAttach, ReadAttachment;
      if frameType == 0x01 {
        var offer :- OfferFrame();
        return Ok(Offer(offer));
      } else if frameType == 0x02 {
        var parameters :- Parameters();
        return Ok(Accept(parameters));
      } else if frameType == 0x03 {
        r := AttachFrame();
      } else {
        var head :- AttachmentHead();
        return Ok(AttachAccepted(head.sessionId, head.epoch, head.attachmentId));
      }
    }

    method AnyFrame(frameType: u8) returns (r: Result<Frame, DecodeError>)
      requires Valid()
      modifies this
      ensures Valid() && Follows(ReadFrame(frameType, old(Remaining())), r, Remaining())
    {
      hide ReadOffer, ReadParameters, ReadAttach, ReadAttachment, ReadU64, ReadSegment, ReadData, ReadReset, ReadError;
      if 1 <= frameType <= 4 {
        r := ControlFrame(frameType);
      } else if frameType == 0x10 {
        var flow :- U64();
        return Ok(StreamOpen(flow));
      } else if frameType == 0x11 {
        r := DataFrame();
      } else if frameType == 0x12 {
        var head :- ThreeNumbers();
        return Ok(StreamAcknowledgement(head.flow, head.epoch, head.number));
      } else if frameType == 0x13 {
        var head :- ThreeNumbers();
        return Ok(StreamFinish(head.flow, head.epoch, head.number));
      } else if frameType == 0x14 {
        r := ResetFrame();
      } else if frameType == 0x20 {
        var error :- ErrorCode();
        return Ok(ConnectionClose(error));
      } else if frameType >= OPTIONAL_FRAME_BIT {
        var payload := TakeRemaining();
        return Ok(UnknownOptional(frameType, payload));
      } else {
        return Err(UnknownMandatoryFrame(frameType));
      }
    }
  }

  method DecodeFramePayload(frameType: u8, payload: Bytes) returns (r: Result<Frame, DecodeError>)
    ensures r == DecodePayload(frameType, payload)
  {
    hide ReadFrame;
    var reader := new Reader(payload);
    var frame :- reader.AnyFrame(frameType);
    if reader.Remaining() == [] {
      return Ok(frame);
    }
    return Err(InvalidPayload);
  }

  method DecodeFrame(b: Bytes, maximum: nat) returns (r: Result<Frame, DecodeError>)
    ensures r == DecodeExact(b, maximum)
  {
    if |b| < FRAME_HEADER_BYTES {
      return Err(TruncatedHeader);
    }
    var advertised := Advertised(b);
    if advertised > maximum {
      return Err(PayloadTooLarge(maximum, advertised));
    }
    var found := |b| - FRAME_HEADER_BYTES;
    if found != advertised {
      return Err(LengthMismatch(advertised, found));
    }
    if b[1] != 0 {
      return Err(InvalidPayload);
    }
    r := DecodeFramePayload(b[0], b[FRAME_HEADER_BYTES..]);
  }
}
