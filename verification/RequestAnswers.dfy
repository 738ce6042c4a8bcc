/** The framing of the helper protocol byte by byte, and every way a request stream can fail. */
module RequestAnswers {
  import opened Common
  import opened ByteOrder
  import opened HostProtocol
  import opened DatagramLayout
  import opened RequestStream

  /** A framed request: four bytes of length, most significant first, then the body. */
  lemma FramedRequest(json: Json, request: Request)
    ensures var body := json.write(request);
      match EncodeRequest(json, request)
      case Ok(b) => 1 <= |body| <= 65536 && |b| == 4 + |body| && Has32(b, 0, |body|) && b[4..] == body
      case Err(e) => (body == [] && e == EmptyFrame) || (|body| > 65536 && e == FrameTooLarge)
  {
    hide BigEndian;
    var body := json.write(request);
    if 1 <= |body| <= 65536 {
      var b := BigEndian(|body|, 4) + body;
      assert b[0..] == b;
      U32At(b, 0, |body|, body);
    }
  }

  /** What a whole body is answered. */
  lemma BodyAnswers(json: Json, body: Bytes)
    requires 1 <= |body| <= 65536
    ensures var r := DecodeRequest(json, body);
      && (r == Err(InvalidJson) <==> json.parse(body) == None)
      && (r == Err(WrongVersion) <==> json.parse(body).Some? && json.parse(body).value.version != 1)
      && (forall request :: r == Ok(request) <==> json.parse(body) == Some(request) && request.version == 1)
  {
  }

  /** What the front of a stream is answered, by the length it announces. */
  lemma StreamAnswers(json: Json, b: Bytes, n: nat)
    requires |b| >= 4 ==> Has32(b, 0, n)
    ensures var p := ParseStream(json, b);
      && (|b| < 4 ==> p == Progress([], Pending(b, None), None))
      && (|b| >= 4 && n == 0 ==> p == Progress([], Idle, Some(EmptyFrame)))
      && (|b| >= 4 && n > 65536 ==> p == Progress([], Idle, Some(FrameTooLarge)))
      && (1 <= n <= 65536 && 4 <= |b| < 4 + n ==> p == Progress([], Pending(b[4..], Some(n)), None))
      && (1 <= n <= 65536 && 4 + n <= |b| ==>
            match DecodeRequest(json, b[4..4 + n])
            case Err(e) => p == Progress([], Idle, Some(e))
            case Ok(request) =>
              var rest := ParseStream(json, b[4 + n..]);
              p == Progress([request] + rest.requests, rest.pending, rest.error))
  {
    hide FromBigEndian, DecodeRequest;
    if |b| >= 4 {
      AnnouncedLength(b, n);
      if 4 + n <= |b| {
        assert b[4..][..n] == b[4..4 + n] && b[4..][n..] == b[4 + n..];
      }
    }
  }

  lemma AnnouncedLength(b: Bytes, n: nat)
    requires Has32(b, 0, n)
    ensures FromBigEndian(b[..4]) == n
  {
    hide BigEndian, FromBigEndian;
    var part := b[..4];
    Widths();
    FromBigEndianRoundTrip(part);
    var v := FromBigEndian(part);
    assert b[0..] == BigEndian(v, 4) + b[4..];
    U32At(b, 0, v, b[4..]);
  }
}
