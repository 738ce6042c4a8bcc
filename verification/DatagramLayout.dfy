/** Datagram envelopes and framed requests byte by byte. */
module DatagramLayout {
  import opened Common
  import opened ByteOrder
  import opened FrameLayout
  import opened DatagramCodec

  /** The four bytes from `at` on are this number, most significant first. */
  predicate Has32(b: Bytes, at: nat, v: nat) {
    && at + 4 <= |b|
    && v == b[at] as int * 0x100_0000 + b[at + 1] as int * 0x1_0000
          + b[at + 2] as int * 0x100 + b[at + 3] as int
  }

  lemma U32At(b: Bytes, at: nat, v: u32, rest: Bytes)
    requires at <= |b| && b[at..] == BigEndian(v, 4) + rest
    ensures Has32(b, at, v) && at + 4 <= |b| && b[at + 4..] == rest
  {
    hide FromBigEndian, BigEndian;
    Part(b, at, BigEndian(v, 4), rest);
    var part := b[at..at + 4];
    Widths();
    BigEndianRoundTrip(v, 4);
    NoBytes(part);
    OneMoreByte(part, 0);
    OneMoreByte(part, 1);
    OneMoreByte(part, 2);
    OneMoreByte(part, 3);
    assert part[..4] == part;
  }

  lemma NumberAt(b: Bytes, at: nat, v: u128, rest: Bytes)
    requires at <= |b| && b[at..] == BigEndian(v, 16) + rest
    ensures at + 16 <= |b| && FromBigEndian(b[at..at + 16]) == v && b[at + 16..] == rest
  {
    hide FromBigEndian, BigEndian;
    Part(b, at, BigEndian(v, 16), rest);
    WideWidths();
    BigEndianRoundTrip(v, 16);
  }

  /** Where the fixed part of an envelope begins. */
  function BodyAt(d: Datagram): nat { if d.ClientToServer? then 2 + |d.credential| else 1 }

  function PortAt(d: Datagram): nat { BodyAt(d) + 9 + (if d.address.ip.V4? then 4 else 16) }

  /** Direction, credential, session, address family, address, port and payload, each at its place. */
  lemma EnvelopeLayout(d: Datagram, b: Bytes)
    requires Encode(d) == Ok(b)
    ensures |b| == PortAt(d) + 2 + |d.payload|
    ensures b[0] == if d.ClientToServer? then 0x01 else 0x02
    ensures d.ClientToServer? ==> b[1] == |d.credential| && HasBytes(b, 2, d.credential)
    ensures Has64(b, BodyAt(d), d.sessionId)
    ensures b[BodyAt(d) + 8] == if d.address.ip.V4? then 0x04 else 0x06
    ensures match d.address.ip
            case V4(ip) => Has32(b, BodyAt(d) + 9, ip)
            case V6(ip) => FromBigEndian(b[BodyAt(d) + 9..BodyAt(d) + 25]) == ip
    ensures Has16(b, PortAt(d), d.address.port) && HasBytes(b, PortAt(d) + 2, d.payload)
  {
    hide BigEndian, FromBigEndian, Body;
    var at := BodyAt(d);
    if d.ClientToServer? {
      assert b[2..] == d.credential + Body(d);
      Part(b, 2, d.credential, Body(d));
    } else {
      assert b[1..] == Body(d);
    }
    BodyLayout(d, b, at);
  }

  lemma BodyLayout(d: Datagram, b: Bytes, at: nat)
    requires at == BodyAt(d) <= |b| && b[at..] == Body(d)
    ensures |b| == PortAt(d) + 2 + |d.payload|
    ensures Has64(b, at, d.sessionId)
    ensures b[at + 8] == if d.address.ip.V4? then 0x04 else 0x06
    ensures match d.address.ip
            case V4(ip) => Has32(b, at + 9, ip)
            case V6(ip) => FromBigEndian(b[at + 9..at + 25]) == ip
    ensures Has16(b, PortAt(d), d.address.port) && HasBytes(b, PortAt(d) + 2, d.payload)
  {
    hide BigEndian, FromBigEndian;
    var end: Bytes := [];
    var port := BigEndian(d.address.port, 2) + d.payload;
    var addressed := AddressBytes(d.address) + d.payload;
    SessionAt(b, at, d.sessionId, addressed);
    match d.address.ip {
      case V4(ip) =>
        var digits := BigEndian(ip, 4) + port;
        assert addressed == [IPV4] + digits;
        Part(b, at + 8, [IPV4], digits);
        U32At(b, at + 9, ip, port);
      case V6(ip) =>
        var digits := BigEndian(ip, 16) + port;
        assert addressed == [IPV6] + digits;
        Part(b, at + 8, [IPV6], digits);
        NumberAt(b, at + 9, ip, port);
    }
    PortIsAt(b, PortAt(d), d.address.port, d.payload);
    assert d.payload == d.payload + end;
    Part(b, PortAt(d) + 2, d.payload, end);
  }

  lemma SessionAt(b: Bytes, at: nat, v: u64, rest: Bytes)
    requires at <= |b| && b[at..] == BigEndian(v, 8) + rest
    ensures Has64(b, at, v) && at + 8 <= |b| && b[at + 8..] == rest
  {
    hide BigEndian;
    Part64(b, at, v, rest);
  }

  lemma PortIsAt(b: Bytes, at: nat, v: u16, rest: Bytes)
    requires at <= |b| && b[at..] == BigEndian(v, 2) + rest
    ensures Has16(b, at, v) && at + 2 <= |b| && b[at + 2..] == rest
  {
    hide BigEndian;
    Part16(b, at, v, rest);
  }

  /** Why a datagram cannot be encoded. */
  lemma EncodingErrors(d: Datagram)
    ensures Encode(d).Ok? <==>
      (d.ClientToServer? ==> 1 <= |d.credential| <= 128) && |d.payload| <= 61440
    ensures d.ClientToServer? && !(1 <= |d.credential| <= 128) ==>
      Encode(d) == Err(BadCredentialLength(1, 128, |d.credential|))
    ensures (d.ClientToServer? ==> 1 <= |d.credential| <= 128) && |d.payload| > 61440 ==>
      Encode(d) == Err(DatagramCodec.EncodeError.PayloadTooLarge(61440, |d.payload|))
  {
    hide BigEndian;
  }

  /** The first things an envelope is refused for. */
  lemma DecodingErrors(b: Bytes)
    ensures |b| > 61597 ==> Decode(b) == Err(TooLarge(61597, |b|))
    ensures b == [] ==> Decode(b) == Err(TooShort)
    ensures 2 <= |b| <= 61597 && b[0] == 0x01 && !(1 <= b[1] <= 128) ==>
      Decode(b) == Err(InvalidCredentialLength(1, 128, b[1]))
    ensures Decode(b).Ok? ==> b[0] == 0x01 || b[0] == 0x02
  {
    hide ReadSession, ReadAddress;
  }

  /** Where the body of these bytes begins, if they have one. */
  predicate BodyStarts(b: Bytes, at: nat) {
    && 1 <= |b| <= 61597 && at <= |b|
    && (if b[0] == 0x01 then |b| >= 2 && 1 <= b[1] <= 128 && at == 2 + b[1] as int else at == 1)
  }

  /** The rest of what an envelope is refused for, in the order it is checked; the direction comes last. */
  lemma BodyErrors(b: Bytes, at: nat)
    requires BodyStarts(b, at)
    ensures var r := Decode(b);
      if |b| < at + 8 then r == Err(TooShort)
      else if FromBigEndian(b[at..at + 8]) == 0 then r == Err(ZeroSessionId)
      else if |b| == at + 8 then r == Err(TooShort)
      else if b[at + 8] != 0x04 && b[at + 8] != 0x06 then r == Err(InvalidAddressFamily(b[at + 8]))
      else
        var payloadAt := at + 9 + (if b[at + 8] == 0x04 then 4 else 16) + 2;
        if |b| < payloadAt then r == Err(TooShort)
        else if |b| - payloadAt > 61440 then r == Err(TooLarge(61440, |b| - payloadAt))
        else if b[0] == 0x01 || b[0] == 0x02 then r.Ok?
        else r == Err(UnknownDirection(b[0]))
  {
    hide FromBigEndian, ReadSession, ReadAddress, ReadCredential;
    CredentialLeaves(b, at);
    var body := b[at..];
    SessionReads(body);
    if |body| >= 8 && FromBigEndian(body[..8]) != 0 {
      AddressReads(body[8..]);
      if |body| > 8 {
        assert body[8..][0] == b[at + 8];
      }
    }
    if |body| >= 8 {
      assert body[..8] == b[at..at + 8];
    }
  }

  lemma CredentialLeaves(b: Bytes, at: nat)
    requires BodyStarts(b, at)
    ensures var r := ReadCredential(b[0], b[1..]); r.Ok? && r.value.rest == b[at..]
  {
    if b[0] == 0x01 {
      assert b[1..][1..] == b[2..] && b[2..][b[1]..] == b[at..];
    }
  }

  lemma SessionReads(b: Bytes)
    ensures |b| < 8 ==> ReadSession(b) == Err(TooShort)
    ensures |b| >= 8 && FromBigEndian(b[..8]) == 0 ==> ReadSession(b) == Err(ZeroSessionId)
    ensures |b| >= 8 && FromBigEndian(b[..8]) != 0 ==> ReadSession(b).Ok? && ReadSession(b).value.rest == b[8..]
  {
    hide FromBigEndian, Pow256;
  }

  lemma AddressReads(b: Bytes)
    ensures b == [] ==> ReadAddress(b) == Err(TooShort)
    ensures b != [] && b[0] != 0x04 && b[0] != 0x06 ==> ReadAddress(b) == Err(InvalidAddressFamily(b[0]))
    ensures b != [] && (b[0] == 0x04 || b[0] == 0x06) ==>
      var length := if b[0] == 0x04 then 7 else 19;
      if |b| < length then ReadAddress(b) == Err(TooShort)
      else ReadAddress(b).Ok? && ReadAddress(b).value.rest == b[length..]
  {
    hide FromBigEndian, Pow256;
  }
}
