/** Datagram envelopes appended to a buffer and read back through a moving offset. */
module DatagramWire {
  import opened Common
  import opened ByteOrder
  import opened DatagramCodec

  method EncodeDatagram(d: Datagram) returns (r: Result<Bytes, EncodeError>)
    ensures r == Encode(d)
  {
    hide BigEndian;
    if d.ClientToServer? && !(1 <= |d.credential| <= MAX_CREDENTIAL) {
      return Err(BadCredentialLength(1, MAX_CREDENTIAL, |d.credential|));
    }
    if |d.payload| > MAX_PAYLOAD {
      return Err(PayloadTooLarge(MAX_PAYLOAD, |d.payload|));
    }
    var encoded: Bytes := [if d.ClientToServer? then CLIENT_TO_SERVER else SERVER_TO_CLIENT];
    if d.ClientToServer? {
      encoded := encoded + [|d.credential|];
      encoded := encoded + d.credential;
      assert encoded == [CLIENT_TO_SERVER] + CredentialBytes(d.credential);
    }
    ghost var head := encoded;
    encoded := encoded + BigEndian(d.sessionId, 8);
    encoded := PushAddress(encoded, d.address);
    encoded := encoded + d.payload;
    assert encoded == head + Body(d);
    if d.ClientToServer? {
      assert encoded == [CLIENT_TO_SERVER] + (CredentialBytes(d.credential) + Body(d));
    }
    return Ok(encoded);
  }

  method PushAddress(bytes: Bytes, a: SocketAddr) returns (encoded: Bytes)
    ensures encoded == bytes + AddressBytes(a)
  {
    hide BigEndian;
    match a.ip {
      case V4(ip) =>
        encoded := bytes + [IPV4];
        encoded := encoded + BigEndian(ip, 4);
      case V6(ip) =>
        encoded := bytes + [IPV6];
        encoded := encoded + BigEndian(ip, 16);
    }
    encoded := encoded + BigEndian(a.port, 2);
  }

  class EnvelopeReader {
    const bytes: Bytes
    var offset: nat

    ghost predicate Valid()
      reads this
    {
      offset <= |bytes|
    }

    function Remaining(): Bytes
      requires Valid()
      reads this
    {
      bytes[offset..]
    }

    constructor (bytes: Bytes)
      ensures Valid() && this.bytes == bytes && Remaining() == bytes
    {
      this.bytes := bytes;
      offset := 0;
    }

    method Byte() returns (r: Result<u8, DecodeError>)
      requires Valid()
      modifies this
      ensures Valid() && Follows(ReadU8(old(Remaining())), r, Remaining())
    {
      if offset >= |bytes| {
        return Err(TooShort);
      }
      var byte := bytes[offset];
      assert Remaining()[1..] == bytes[offset + 1..];
      offset := offset + 1;
      return Ok(byte);
    }

    method Slice(length: nat) returns (r: Result<Bytes, DecodeError>)
      requires Valid()
      modifies this
      ensures Valid() && Follows(ReadBytes(old(Remaining()), length), r, Remaining())
    {
      var end := offset + length;
      if end > |bytes| {
        return Err(TooShort);
      }
      var slice := bytes[offset..end];
      assert Remaining()[..length] == slice && Remaining()[length..] == bytes[end..];
      offset := end;
      return Ok(slice);
    }

    method Number(width: nat) returns (r: Result<nat, DecodeError>)
      requires Valid()
      modifies this
      ensures Valid() && Follows(ReadNumber(old(Remaining()), width), r, Remaining())
    {
      hide FromBigEndian, Pow256;
      var slice :- Slice(width);
      return Ok(FromBigEndian(slice));
    }

    method Credential(direction: u8) returns (r: Result<Bytes, DecodeError>)
      requires Valid()
      modifies this
      ensures Valid() && Follows(ReadCredential(direction, old(Remaining())), r, Remaining())
    {
      hide ReadU8, ReadBytes;
      if direction != CLIENT_TO_SERVER {
        return Ok([]);
      }
      var length :- Byte();
      if !(1 <= length <= MAX_CREDENTIAL) {
        return Err(InvalidCredentialLength(1, MAX_CREDENTIAL, length));
      }
      r := Slice(length);
    }

    method Session() returns (r: Result<DatagramSessionId, DecodeError>)
      requires Valid()
      modifies this
      ensures Valid() && Follows(ReadSession(old(Remaining())), r, Remaining())
    {
      Widths();
      var number :- Number(8);
      if number == 0 {
        return Err(ZeroSessionId);
      }
      return Ok(number);
    }

    method Address() returns (r: Result<SocketAddr, DecodeError>)
      requires Valid()
      modifies this
      ensures Valid() && Follows(ReadAddress(old(Remaining())), r, Remaining())
    {
      hide ReadNumber, ReadU8;
      Widths();
      WideWidths();
      var family :- Byte();
      var ip: IpAddr;
      if family == IPV4 {
        var number :- Number(4);
        ip := V4(number);
      } else if family == IPV6 {
        var number :- Number(16);
        ip := V6(number);
      } else {
        return Err(InvalidAddressFamily(family));
      }
      var port :- Number(2);
      return Ok(SocketAddr(ip, port));
    }
  }

  method DecodeDatagram(b: Bytes) returns (r: Result<Datagram, DecodeError>)
    ensures r == Decode(b)
  {
    hide ReadU8, ReadCredential, ReadSession, ReadAddress;
    if |b| > MAX_ENVELOPE {
      return Err(TooLarge(MAX_ENVELOPE, |b|));
    }
    var reader := new EnvelopeReader(b);
    var direction :- reader.Byte();
    var credential :- reader.Credential(direction);
    var session :- reader.Session();
    var address :- reader.Address();
    var payload := reader.Remaining();
    if |payload| > MAX_PAYLOAD {
      return Err(TooLarge(MAX_PAYLOAD, |payload|));
    }
    if direction == CLIENT_TO_SERVER {
      return Ok(ClientToServer(credential, session, address, payload));
    } else if direction == SERVER_TO_CLIENT {
      return Ok(ServerToClient(session, address, payload));
    } else {
      return Err(UnknownDirection(direction));
    }
  }
}
