/** Datagram envelopes: direction, credential, session, address, payload. */
module DatagramCodec {
  import opened Common
  import opened ByteOrder

  const MAX_PAYLOAD: nat := 60 * 1024
  const MAX_CREDENTIAL: nat := 128
  const MAX_ENVELOPE: nat := MAX_PAYLOAD + 29 + MAX_CREDENTIAL

  const CLIENT_TO_SERVER: u8 := 0x01
  const SERVER_TO_CLIENT: u8 := 0x02
  const IPV4: u8 := 0x04
  const IPV6: u8 := 0x06

  datatype Datagram =
    | ClientToServer(credential: Bytes, sessionId: DatagramSessionId, address: SocketAddr, payload: Bytes)
    | ServerToClient(sessionId: DatagramSessionId, address: SocketAddr, payload: Bytes)

  datatype EncodeError =
    | BadCredentialLength(minimum: nat, maximum: nat, actual: nat)
    | PayloadTooLarge(maximum: nat, actual: nat)

  datatype DecodeError =
    | TooShort
    | TooLarge(maximum: nat, actual: nat)
    | UnknownDirection(direction: u8)
    | InvalidCredentialLength(minimum: nat, maximum: nat, actual: nat)
    | InvalidAddressFamily(family: u8)
    | ZeroSessionId

  // ---------------------------------------------------------------- encoding

  function AddressBytes(a: SocketAddr): Bytes {
    match a.ip
    case V4(ip) => [IPV4] + (BigEndian(ip, 4) + BigEndian(a.port, 2))
    case V6(ip) => [IPV6] + (BigEndian(ip, 16) + BigEndian(a.port, 2))
  }

  function Body(d: Datagram): Bytes {
    BigEndian(d.sessionId, 8) + (AddressBytes(d.address) + d.payload)
  }

  function CredentialBytes(credential: Bytes): Bytes
    requires 1 <= |credential| <= MAX_CREDENTIAL
  {
    [|credential|] + credential
  }

  function Encode(d: Datagram): Result<Bytes, EncodeError> {
    if d.ClientToServer? && !(1 <= |d.credential| <= MAX_CREDENTIAL) then
      Err(BadCredentialLength(1, MAX_CREDENTIAL, |d.credential|))
    else if |d.payload| > MAX_PAYLOAD then Err(PayloadTooLarge(MAX_PAYLOAD, |d.payload|))
    else if d.ClientToServer? then Ok([CLIENT_TO_SERVER] + (CredentialBytes(d.credential) + Body(d)))
    else Ok([SERVER_TO_CLIENT] + Body(d))
  }

  // ---------------------------------------------------------------- decoding

  type Parse<+T> = Result<Parsed<T>, DecodeError>

  function ReadBytes(b: Bytes, n: nat): (r: Parse<Bytes>)
    ensures r.Ok? ==> |r.value.value| == n
  {
    if |b| < n then Err(TooShort) else Ok(Parsed(b[..n], b[n..]))
  }

  function ReadU8(b: Bytes): Parse<u8> {
    if b == [] then Err(TooShort) else Ok(Parsed(b[0], b[1..]))
  }

  function ReadNumber(b: Bytes, width: nat): (r: Parse<nat>)
    ensures r.Ok? ==> r.value.value < Pow256(width)
  {
    var p :- ReadBytes(b, width);
    FromBigEndianRoundTrip(p.value);
    Ok(Parsed(FromBigEndian(p.value), p.rest))
  }

  function ReadSession(b: Bytes): Parse<DatagramSessionId> {
    Widths();
    var p :- ReadNumber(b, 8);
    if p.value == 0 then Err(ZeroSessionId) else Ok(Parsed(p.value, p.rest))
  }

  function ReadIp(b: Bytes): Parse<IpAddr> {
    Widths();
    WideWidths();
    var family :- ReadU8(b);
    if family.value == IPV4 then
      var p :- ReadNumber(family.rest, 4);
      Ok(Parsed(V4(p.value), p.rest))
    else if family.value == IPV6 then
      var p :- ReadNumber(family.rest, 16);
      Ok(Parsed(V6(p.value), p.rest))
    else Err(InvalidAddressFamily(family.value))
  }

  function ReadAddress(b: Bytes): Parse<SocketAddr> {
    Widths();
    var ip :- ReadIp(b);
    var port :- ReadNumber(ip.rest, 2);
    Ok(Parsed(SocketAddr(ip.value, port.value), port.rest))
  }

  function ReadCredential(direction: u8, b: Bytes): (r: Parse<Bytes>)
    ensures r.Ok? && direction == CLIENT_TO_SERVER ==> 1 <= |r.value.value| <= MAX_CREDENTIAL
  {
    if direction != CLIENT_TO_SERVER then Ok(Parsed([], b))
    else
      var length :- ReadU8(b);
      if !(1 <= length.value <= MAX_CREDENTIAL) then
        Err(InvalidCredentialLength(1, MAX_CREDENTIAL, length.value))
      else ReadBytes(length.rest, length.value)
  }

  function Decode(b: Bytes): Result<Datagram, DecodeError> {
    if |b| > MAX_ENVELOPE then Err(TooLarge(MAX_ENVELOPE, |b|))
    else
      var direction :- ReadU8(b);
      var credential :- ReadCredential(direction.value, direction.rest);
      var session :- ReadSession(credential.rest);
      var address :- ReadAddress(session.rest);
      var payload := address.rest;
      if |payload| > MAX_PAYLOAD then Err(TooLarge(MAX_PAYLOAD, |payload|))
      else if direction.value == CLIENT_TO_SERVER then
        Ok(ClientToServer(credential.value, session.value, address.value, payload))
      else if direction.value == SERVER_TO_CLIENT then Ok(ServerToClient(session.value, address.value, payload))
      else Err(UnknownDirection(direction.value))
  }

  // ---------------------------------------------------------------- the two-sided inverse

  lemma ReadNumberExact(b: Bytes, width: nat, v: nat, rest: Bytes)
    requires v < Pow256(width)
    ensures ReadNumber(b, width) == Ok(Parsed(v, rest)) <==> b == BigEndian(v, width) + rest
  {
    hide BigEndian, FromBigEndian, Pow256;
    BigEndianRoundTrip(v, width);
    if |b| >= width {
      FromBigEndianRoundTrip(b[..width]);
      assert b == b[..width] + b[width..];
    }
  }

  lemma ReadU8Exact(b: Bytes, v: u8, rest: Bytes)
    ensures ReadU8(b) == Ok(Parsed(v, rest)) <==> b == [v] + rest
  {
    if b != [] {
      assert b == [b[0]] + b[1..];
    }
  }

  lemma ReadBytesExact(b: Bytes, n: nat, v: Bytes, rest: Bytes)
    requires |v| == n
    ensures ReadBytes(b, n) == Ok(Parsed(v, rest)) <==> b == v + rest
  {
    if |b| >= n {
      assert b == b[..n] + b[n..];
    }
  }

  lemma ReadSessionExact(b: Bytes, v: DatagramSessionId, rest: Bytes)
    ensures ReadSession(b) == Ok(Parsed(v, rest)) <==> b == BigEndian(v, 8) + rest
  {
    hide ReadNumber, BigEndian;
    Widths();
    ReadNumberExact(b, 8, v, rest);
  }

  function IpBytes(ip: IpAddr): Bytes {
    match ip
    case V4(a) => [IPV4] + BigEndian(a, 4)
    case V6(a) => [IPV6] + BigEndian(a, 16)
  }

  lemma ReadIpExact(b: Bytes, ip: IpAddr, rest: Bytes)
    ensures ReadIp(b) == Ok(Parsed(ip, rest)) <==> b == IpBytes(ip) + rest
  {
    hide ReadNumber, BigEndian, ReadU8;
    Widths();
    WideWidths();
    var (family, width, number) := if ip.V4? then (IPV4, 4, ip.address4) else (IPV6, 16, ip.address6);
    var digits := BigEndian(number, width) + rest;
    assert IpBytes(ip) + rest == [family] + digits;
    ReadU8Exact(b, family, digits);
    ReadNumberExact(digits, width, number, rest);
    if ReadIp(b) == Ok(Parsed(ip, rest)) {
      var p := ReadU8(b).value;
      ReadU8Exact(b, p.value, p.rest);
      ReadNumberExact(p.rest, width, number, rest);
    }
  }

  lemma ReadAddressExact(b: Bytes, a: SocketAddr, rest: Bytes)
    ensures ReadAddress(b) == Ok(Parsed(a, rest)) <==> b == AddressBytes(a) + rest
  {
    hide ReadNumber, BigEndian, ReadIp;
    Widths();
    var port := BigEndian(a.port, 2) + rest;
    assert AddressBytes(a) + rest == IpBytes(a.ip) + port;
    ReadIpExact(b, a.ip, port);
    ReadNumberExact(port, 2, a.port, rest);
    if ReadAddress(b) == Ok(Parsed(a, rest)) {
      var r := ReadIp(b).value.rest;
      ReadIpExact(b, a.ip, r);
      ReadNumberExact(r, 2, a.port, rest);
    }
  }

  lemma ReadCredentialExact(b: Bytes, v: Bytes, rest: Bytes)
    requires 1 <= |v| <= MAX_CREDENTIAL
    ensures ReadCredential(CLIENT_TO_SERVER, b) == Ok(Parsed(v, rest)) <==> b == CredentialBytes(v) + rest
  {
    hide ReadU8, ReadBytes;
    var tail := v + rest;
    assert CredentialBytes(v) + rest == [|v|] + tail;
    ReadU8Exact(b, |v|, tail);
    ReadBytesExact(tail, |v|, v, rest);
    if ReadCredential(CLIENT_TO_SERVER, b) == Ok(Parsed(v, rest)) {
      var p := ReadU8(b).value;
      ReadU8Exact(b, p.value, p.rest);
      ReadBytesExact(p.rest, |v|, v, rest);
    }
  }

  /** No encoding is longer than the envelope, and the longest possible one fills it. */
  lemma EnvelopeIsTight(d: Datagram)
    requires Encode(d).Ok?
    ensures |Encode(d).value| <= MAX_ENVELOPE
    ensures |Encode(d).value| == MAX_ENVELOPE
      <==> d.ClientToServer? && |d.credential| == MAX_CREDENTIAL && d.address.ip.V6? && |d.payload| == MAX_PAYLOAD
  {
    hide BigEndian;
  }

  /** Every datagram the encoder accepts decodes to itself, and nothing but its encoding does. */
  lemma DecodeIsInverseOfEncode(d: Datagram, b: Bytes)
    ensures Decode(b) == Ok(d) <==> Encode(d) == Ok(b)
  {
    if Encode(d) == Ok(b) {
      EncodedDecodes(d, b);
    }
    if Decode(b) == Ok(d) {
      DecodedEncodes(d, b);
    }
  }

  lemma EncodedDecodes(d: Datagram, b: Bytes)
    requires Encode(d) == Ok(b)
    ensures Decode(b) == Ok(d)
  {
    hide ReadU8, ReadCredential, ReadSession, ReadAddress, BigEndian, AddressBytes, CredentialBytes;
    EnvelopeIsTight(d);
    var addressed := AddressBytes(d.address) + d.payload;
    var body := Body(d);
    ReadSessionExact(body, d.sessionId, addressed);
    ReadAddressExact(addressed, d.address, d.payload);
    if d.ClientToServer? {
      var after := CredentialBytes(d.credential) + body;
      ReadU8Exact(b, CLIENT_TO_SERVER, after);
      ReadCredentialExact(after, d.credential, body);
    } else {
      ReadU8Exact(b, SERVER_TO_CLIENT, body);
      NoCredential(SERVER_TO_CLIENT, body);
    }
  }

  lemma NoCredential(direction: u8, b: Bytes)
    requires direction != CLIENT_TO_SERVER
    ensures ReadCredential(direction, b) == Ok(Parsed([], b))
  {
  }

  lemma DecodedEncodes(d: Datagram, b: Bytes)
    requires Decode(b) == Ok(d)
    ensures Encode(d) == Ok(b)
  {
    hide ReadU8, ReadCredential, ReadSession, ReadAddress, BigEndian, AddressBytes, CredentialBytes;
    var direction := ReadU8(b).value;
    var credential := ReadCredential(direction.value, direction.rest).value;
    var session := ReadSession(credential.rest).value;
    ReadU8Exact(b, direction.value, direction.rest);
    ReadSessionExact(credential.rest, d.sessionId, session.rest);
    ReadAddressExact(session.rest, d.address, d.payload);
    if d.ClientToServer? {
      ReadCredentialExact(direction.rest, d.credential, credential.rest);
    } else {
      NoCredential(direction.value, direction.rest);
    }
  }
}
