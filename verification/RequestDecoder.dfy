/** The helper protocol's length-prefixed request stream, with the JSON body codec left abstract. */
module RequestStream {
  import opened Common
  import opened ByteOrder
  import opened HostProtocol

  const MAX_FRAME_LENGTH: nat := 65536
  const FRAME_HEADER_LENGTH: nat := 4

  datatype CodecError = EmptyFrame | FrameTooLarge | InvalidJson | WrongVersion

  /** What serde does: reads a request from a body, and writes one. */
  datatype Json = Json(parse: Bytes -> Option<Request>, write: Request -> Bytes)

  function DecodeRequest(json: Json, body: Bytes): Result<Request, CodecError> {
    if body == [] then Err(EmptyFrame)
    else if |body| > MAX_FRAME_LENGTH then Err(FrameTooLarge)
    else
      match json.parse(body)
      case None => Err(InvalidJson)
      case Some(request) => if request.version != PROTOCOL_VERSION then Err(WrongVersion) else Ok(request)
  }

  function EncodeRequest(json: Json, request: Request): Result<Bytes, CodecError> {
    var body := json.write(request);
    if body == [] then Err(EmptyFrame)
    else if |body| > MAX_FRAME_LENGTH then Err(FrameTooLarge)
    else Ok(BigEndian(|body|, 4) + body)
  }

  /** The decoder between pushes: part of a header, or a known length and part of a body. */
  datatype Pending = Pending(buffer: Bytes, expected: Option<nat>)

  const Idle := Pending([], None)

  predicate PendingValid(p: Pending) {
    match p.expected
    case None => |p.buffer| < FRAME_HEADER_LENGTH
    case Some(length) => |p.buffer| < length <= MAX_FRAME_LENGTH
  }

  /** The bytes of the stream that `p` stands for. */
  function BytesOf(p: Pending): Bytes {
    match p.expected
    case None => p.buffer
    case Some(length) => BigEndian(length, 4) + p.buffer
  }

  datatype Progress = Progress(requests: seq<Request>, pending: Pending, error: Option<CodecError>)

  function FailedWith(e: CodecError): Progress { Progress([], Idle, Some(e)) }

  function Then(first: seq<Request>, second: Progress): Progress {
    second.(requests := first + second.requests)
  }

  /** The whole stream, parsed at once. */
  function ParseStream(json: Json, b: Bytes): Progress
    decreases |b|
  {
    if |b| < FRAME_HEADER_LENGTH then Progress([], Pending(b, None), None)
    else
      var length := FromBigEndian(b[..4]);
      if length == 0 then FailedWith(EmptyFrame)
      else if length > MAX_FRAME_LENGTH then FailedWith(FrameTooLarge)
      else ParseBody(json, length, b[4..])
  }

  function ParseBody(json: Json, length: nat, b: Bytes): Progress
    requires 0 < length
    decreases |b|
  {
    if |b| < length then Progress([], Pending(b, Some(length)), None)
    else
      match DecodeRequest(json, b[..length])
      case Err(e) => FailedWith(e)
      case Ok(request) => Then([request], ParseStream(json, b[length..]))
  }

  /** Parsing resumed from a pending state. */
  function Resume(json: Json, p: Pending, b: Bytes): Progress
    requires PendingValid(p)
  {
    match p.expected
    case None => ParseStream(json, p.buffer + b)
    case Some(length) => ParseBody(json, length, p.buffer + b)
  }

  class RequestDecoder {
    const json: Json
    var buffer: Bytes
    var expectedBodyLength: Option<nat>

    function State(): Pending
      reads this
    {
      Pending(buffer, expectedBodyLength)
    }

    ghost predicate Valid()
      reads this
    {
      PendingValid(State())
    }

    constructor (json: Json)
      ensures this.json == json && State() == Idle && Valid()
    {
      this.json := json;
      buffer := [];
      expectedBodyLength := None;
    }

    method Clear()
      modifies this
      ensures State() == Idle
    {
      buffer := [];
      expectedBodyLength := None;
    }

    method Push(chunk: Bytes) returns (r: Result<seq<Request>, CodecError>)
      requires Valid()
      modifies this
      ensures Valid()
      ensures var p := Resume(json, old(State()), chunk);
        && State() == p.pending
        && r == if p.error.Some? then Err(p.error.value) else Ok(p.requests)
    {
      hide DecodeRequest, ParseStream, ParseBody, PendingValid;
      var bytes := chunk;
      var requests: seq<Request> := [];
      ghost var whole := Resume(json, State(), chunk);
      while true
        invariant Valid()
        invariant whole == Then(requests, Resume(json, State(), bytes))
        decreases |bytes|, if expectedBodyLength.None? then 1 else 0
      {
        assert requests + [] == requests;
        if expectedBodyLength.None? {
          var complete :- TakeHeader(bytes);
          if complete.None? {
            return Ok(requests);
          }
          bytes := complete.value;
        }
        var taken :- TakeBody(bytes);
        if taken.None? {
          return Ok(requests);
        }
        ghost var later := Resume(json, State(), taken.value.1).requests;
        assert requests + ([taken.value.0] + later) == requests + [taken.value.0] + later;
        requests := requests + [taken.value.0];
        bytes := taken.value.1;
        if bytes == [] {
          IdleParses();
          assert requests + [] == requests;
          return Ok(requests);
        }
      }
    }

    lemma IdleParses()
      ensures Resume(json, Idle, []) == Progress([], Idle, None)
    {
      var nothing: Bytes := [];
      assert nothing + nothing == nothing;
    }

    /** The body half of the loop: a complete request and the bytes after it, or nothing if it is still short. */
    method TakeBody(bytes: Bytes) returns (r: Result<Option<(Request, Bytes)>, CodecError>)
      requires Valid() && expectedBodyLength.Some?
      modifies this
      ensures Valid()
      ensures var p := Resume(json, old(State()), bytes);
        match r
        case Err(e) => p == FailedWith(e) && State() == Idle
        case Ok(None) => p == Progress([], State(), None)
        case Ok(Some((request, rest))) =>
          State() == Idle && p == Then([request], Resume(json, Idle, rest)) && |rest| < |bytes|
    {
      hide DecodeRequest;
      var length := expectedBodyLength.value;
      var required := length - |buffer|;
      var consumed := if required < |bytes| then required else |bytes|;
      ghost var all := buffer + bytes;
      buffer := buffer + bytes[..consumed];
      var rest := bytes[consumed..];
      assert buffer + rest == all;
      if |buffer| < length {
        assert buffer == all;
        return Ok(None);
      }
      assert all[..length] == buffer && all[length..] == rest;
      var request := DecodeRequest(json, buffer);
      Clear();
      if request.Err? {
        return Err(request.error);
      }
      assert [] + rest == rest;
      return Ok(Some((request.value, rest)));
    }

    /** The header half of the loop: the bytes after a complete header, or nothing if it is still short. */
    method TakeHeader(bytes: Bytes) returns (r: Result<Option<Bytes>, CodecError>)
      requires Valid() && expectedBodyLength.None?
      modifies this
      ensures Valid()
      ensures var p := Resume(json, old(State()), bytes);
        match r
        case Err(e) => p == FailedWith(e) && State() == Idle
        case Ok(None) => p == Progress([], State(), None)
        case Ok(Some(rest)) => expectedBodyLength.Some? && p == Resume(json, State(), rest)
                               && |rest| <= |bytes|
    {
      var required := FRAME_HEADER_LENGTH - |buffer|;
      var consumed := if required < |bytes| then required else |bytes|;
      ghost var all := buffer + bytes;
      buffer := buffer + bytes[..consumed];
      var rest := bytes[consumed..];
      assert buffer + rest == all;
      if |buffer| < FRAME_HEADER_LENGTH {
        assert buffer == all;
        return Ok(None);
      }
      assert all[..4] == buffer && all[4..] == rest;
      var length := FromBigEndian(buffer);
      buffer := [];
      if length == 0 {
        Clear();
        return Err(EmptyFrame);
      }
      if length > MAX_FRAME_LENGTH {
        Clear();
        return Err(FrameTooLarge);
      }
      expectedBodyLength := Some(length);
      assert [] + rest == rest;
      return Ok(Some(rest));
    }
  }

  // ---------------------------------------------------------------- refinement

  /** A pending state behaves as the bytes it stands for. */
  lemma ResumeIsWholeStream(json: Json, p: Pending, b: Bytes)
    requires PendingValid(p)
    ensures Resume(json, p, b) == ParseStream(json, BytesOf(p) + b)
  {
    hide BigEndian, FromBigEndian, ParseBody;
    match p.expected
    case None =>
    case Some(length) =>
      HeaderRoundTrip(length);
      var all := BytesOf(p) + b;
      assert all[..4] == BigEndian(length, 4) && all[4..] == p.buffer + b;
  }

  lemma {:induction false} ParsePending(json: Json, b: Bytes)
    ensures PendingValid(ParseStream(json, b).pending)
    ensures ParseStream(json, b).error.Some? ==> ParseStream(json, b).pending == Idle
    decreases |b|
  {
    hide DecodeRequest;
    if |b| >= 4 {
      var length := FromBigEndian(b[..4]);
      if 0 < length <= MAX_FRAME_LENGTH && |b| - 4 >= length {
        ParsePending(json, b[4..][length..]);
      }
    }
  }

  /** A stream read without error so far parses on as if it had been cut there. */
  lemma {:induction false} ParseAppend(json: Json, a: Bytes, b: Bytes)
    ensures var p := ParseStream(json, a);
      var whole := ParseStream(json, a + b);
      && PendingValid(p.pending)
      && (p.error.None? ==> whole == Then(p.requests, Resume(json, p.pending, b)))
      && (p.error.Some? ==> whole.requests == p.requests && whole.error == p.error && whole.pending == Idle)
    decreases |a|
  {
    hide DecodeRequest;
    ParsePending(json, a);
    if |a| < 4 {
      assert [] + ParseStream(json, a + b).requests == ParseStream(json, a + b).requests;
    } else {
      var length := FromBigEndian(a[..4]);
      assert (a + b)[..4] == a[..4] && (a + b)[4..] == a[4..] + b;
      if 0 < length <= MAX_FRAME_LENGTH {
        BodyAppend(json, length, a[4..], b);
      }
    }
  }

  lemma {:induction false} BodyAppend(json: Json, length: nat, a: Bytes, b: Bytes)
    requires 0 < length <= MAX_FRAME_LENGTH
    ensures var p := ParseBody(json, length, a);
      var whole := ParseBody(json, length, a + b);
      && PendingValid(p.pending)
      && (p.error.None? ==> whole == Then(p.requests, Resume(json, p.pending, b)))
      && (p.error.Some? ==> whole.requests == p.requests && whole.error == p.error && whole.pending == Idle)
    decreases |a|
  {
    hide DecodeRequest, ParseStream;
    if |a| < length {
      assert [] + ParseBody(json, length, a + b).requests == ParseBody(json, length, a + b).requests;
    } else {
      assert (a + b)[..length] == a[..length] && (a + b)[length..] == a[length..] + b;
      var decoded := DecodeRequest(json, a[..length]);
      if decoded.Ok? {
        ParseAppend(json, a[length..], b);
        var rest := ParseStream(json, a[length..]);
        if rest.error.None? {
          var last := Resume(json, rest.pending, b);
          assert [decoded.value] + (rest.requests + last.requests) == [decoded.value] + rest.requests + last.requests;
        }
      }
    }
  }

  /** Successive pushes, up to and including the first that fails. */
  function PushEach(json: Json, p: Pending, chunks: seq<Bytes>): Progress
    requires PendingValid(p)
    decreases |chunks|
  {
    if chunks == [] then Progress([], p, None)
    else
      var first := Resume(json, p, chunks[0]);
      ResumeKeepsPending(json, p, chunks[0]);
      if first.error.Some? then first
      else Then(first.requests, PushEach(json, first.pending, chunks[1..]))
  }

  /** However the stream is cut, requests, residue and error are those of the whole stream. */
  lemma {:induction false} ChunkingDoesNotMatter(json: Json, p: Pending, chunks: seq<Bytes>)
    requires PendingValid(p)
    ensures PushEach(json, p, chunks) == ParseStream(json, BytesOf(p) + Concat(chunks))
    decreases |chunks|
  {
    hide ParseStream, ParseBody, BytesOf;
    var b := BytesOf(p);
    if chunks == [] {
      assert b + Concat(chunks) == b;
      assert b + [] == b;
      PendingParses(json, p);
    } else {
      var rest := Concat(chunks[1..]);
      assert b + Concat(chunks) == b + chunks[0] + rest;
      ResumeIsWholeStream(json, p, chunks[0]);
      ParseAppend(json, b + chunks[0], rest);
      ParsePending(json, b + chunks[0]);
      var first := Resume(json, p, chunks[0]);
      if first.error.None? {
        ChunkingDoesNotMatter(json, first.pending, chunks[1..]);
        ResumeIsWholeStream(json, first.pending, rest);
      }
    }
  }

  lemma PendingParses(json: Json, p: Pending)
    requires PendingValid(p)
    ensures ParseStream(json, BytesOf(p)) == Progress([], p, None)
  {
    assert BytesOf(p) + [] == BytesOf(p);
    assert p.buffer + [] == p.buffer;
    ResumeIsWholeStream(json, p, []);
  }

  /** What the caller is given: a push that fails returns none of its requests. */
  function Returned(json: Json, p: Pending, chunks: seq<Bytes>): seq<Request>
    requires PendingValid(p)
    decreases |chunks|
  {
    if chunks == [] then []
    else
      var first := Resume(json, p, chunks[0]);
      ResumeKeepsPending(json, p, chunks[0]);
      if first.error.Some? then [] else first.requests + Returned(json, first.pending, chunks[1..])
  }

  /** The requests a failing push had decoded before its error. */
  function Lost(json: Json, p: Pending, chunks: seq<Bytes>): seq<Request>
    requires PendingValid(p)
    decreases |chunks|
  {
    if chunks == [] then []
    else
      var first := Resume(json, p, chunks[0]);
      ResumeKeepsPending(json, p, chunks[0]);
      if first.error.Some? then first.requests else Lost(json, first.pending, chunks[1..])
  }

  lemma ResumeKeepsPending(json: Json, p: Pending, b: Bytes)
    requires PendingValid(p)
    ensures PendingValid(Resume(json, p, b).pending)
  {
    ResumeIsWholeStream(json, p, b);
    ParsePending(json, BytesOf(p) + b);
  }

  lemma {:induction false} EachIsReturnedThenLost(json: Json, p: Pending, chunks: seq<Bytes>)
    requires PendingValid(p)
    ensures var whole := PushEach(json, p, chunks);
      && whole.requests == Returned(json, p, chunks) + Lost(json, p, chunks)
      && (whole.error.None? ==> Lost(json, p, chunks) == [])
    decreases |chunks|
  {
    hide Resume;
    if chunks != [] {
      ResumeKeepsPending(json, p, chunks[0]);
      var first := Resume(json, p, chunks[0]);
      if first.error.None? {
        EachIsReturnedThenLost(json, first.pending, chunks[1..]);
        assert first.requests + (Returned(json, first.pending, chunks[1..]) + Lost(json, first.pending, chunks[1..]))
            == Returned(json, p, chunks) + Lost(json, p, chunks);
      }
    }
  }

  /**
   * The caller receives a prefix of the stream's requests, and all of them
   * exactly when no failing push had decoded one.
   */
  lemma ReturnedIsAllExactlyWhen(json: Json, p: Pending, chunks: seq<Bytes>)
    requires PendingValid(p)
    ensures var whole := ParseStream(json, BytesOf(p) + Concat(chunks));
      && whole.requests == Returned(json, p, chunks) + Lost(json, p, chunks)
      && (Returned(json, p, chunks) == whole.requests
          <==> Lost(json, p, chunks) == [])
  {
    hide PushEach, ParseStream, Returned, Lost;
    ChunkingDoesNotMatter(json, p, chunks);
    EachIsReturnedThenLost(json, p, chunks);
  }

  // ---------------------------------------------------------------- round trip

  /** The body codec reads back what it writes for this request, and the version is current. */
  ghost predicate Transmissible(json: Json, request: Request) {
    && request.version == PROTOCOL_VERSION
    && json.parse(json.write(request)) == Some(request)
    && EncodeRequest(json, request).Ok?
  }

  function Wire(json: Json, request: Request): Bytes {
    match EncodeRequest(json, request)
    case Ok(b) => b
    case Err(_) => []
  }

  function Encodings(json: Json, requests: seq<Request>): Bytes {
    if requests == [] then [] else Wire(json, requests[0]) + Encodings(json, requests[1..])
  }

  lemma ParseOne(json: Json, request: Request, rest: Bytes)
    requires Transmissible(json, request)
    ensures ParseStream(json, Wire(json, request) + rest) == Then([request], ParseStream(json, rest))
  {
    hide BigEndian, FromBigEndian;
    var body := json.write(request);
    var header := BigEndian(|body|, 4);
    HeaderRoundTrip(|body|);
    var all := Wire(json, request) + rest;
    assert all[..4] == header && all[4..] == body + rest;
    assert (body + rest)[..|body|] == body && (body + rest)[|body|..] == rest;
  }

  lemma HeaderRoundTrip(length: nat)
    requires length <= MAX_FRAME_LENGTH
    ensures FromBigEndian(BigEndian(length, 4)) == length
  {
    hide BigEndian, FromBigEndian;
    Widths();
    BigEndianRoundTrip(length, 4);
  }

  const EMPTY_FRAME: Bytes := [0, 0, 0, 0]

  /** Any request followed by an empty frame: pushed whole it is lost, pushed in two it is returned. */
  lemma ChunkingChangesWhatIsReturned(json: Json, request: Request)
    requires Transmissible(json, request)
    ensures Concat([Wire(json, request) + EMPTY_FRAME]) == Concat([Wire(json, request), EMPTY_FRAME])
    ensures Returned(json, Idle, [Wire(json, request) + EMPTY_FRAME]) == []
    ensures Returned(json, Idle, [Wire(json, request), EMPTY_FRAME]) == [request]
  {
    hide FromBigEndian, ParseStream, Transmissible, Wire;
    var first := Wire(json, request);
    var whole := first + EMPTY_FRAME;
    var none: seq<Bytes>, second: seq<Bytes> := [], [EMPTY_FRAME];
    ParseOne(json, request, []);
    ParseOne(json, request, EMPTY_FRAME);
    ParseEmptyFrame(json);
    assert first + [] == first && [] + first == first;
    assert [] + whole == whole && [] + EMPTY_FRAME == EMPTY_FRAME;
    assert [whole][1..] == none && [first, EMPTY_FRAME][1..] == second && second[1..] == none;
    assert Concat(second) == EMPTY_FRAME;
  }

  lemma ParseEmptyFrame(json: Json)
    ensures ParseStream(json, EMPTY_FRAME) == FailedWith(EmptyFrame)
    ensures ParseStream(json, []) == Progress([], Idle, None)
  {
    hide BigEndian, FromBigEndian;
    SmallHeader(0);
    assert EMPTY_FRAME[..4] == EMPTY_FRAME;
  }

  lemma SmallHeader(n: u8)
    ensures FromBigEndian([0, 0, 0, n]) == n
  {
    hide FromBigEndian;
    Extend([], 0);
    Extend([0], 0);
    Extend([0, 0], 0);
    Extend([0, 0, 0], n);
    NothingIsZero();
    assert [] + [0] == [0] && [0] + [0] == [0, 0] && [0, 0] + [0] == [0, 0, 0];
    assert [0, 0, 0] + [n] == [0, 0, 0, n];
  }

  lemma Extend(b: Bytes, n: u8)
    ensures FromBigEndian(b + [n]) == 256 * FromBigEndian(b) + n
  {
    assert (b + [n])[..|b|] == b;
  }

  lemma NothingIsZero()
    ensures FromBigEndian([]) == 0
  {
  }

  /** Requests written one after another are read back as they are, with nothing left over. */
  lemma {:induction false} RequestsRoundTrip(json: Json, requests: seq<Request>)
    requires forall i | 0 <= i < |requests| :: Transmissible(json, requests[i])
    ensures ParseStream(json, Encodings(json, requests)) == Progress(requests, Idle, None)
    decreases |requests|
  {
    hide Transmissible, Wire;
    if requests != [] {
      ParseOne(json, requests[0], Encodings(json, requests[1..]));
      RequestsRoundTrip(json, requests[1..]);
    }
  }

  /** The same through any chunking of the connection. */
  lemma RequestsSurviveAnyChunking(json: Json, requests: seq<Request>, chunks: seq<Bytes>)
    requires forall i | 0 <= i < |requests| :: Transmissible(json, requests[i])
    requires Concat(chunks) == Encodings(json, requests)
    ensures PushEach(json, Idle, chunks) == Progress(requests, Idle, None)
  {
    hide ParseStream, Transmissible;
    ChunkingDoesNotMatter(json, Idle, chunks);
    RequestsRoundTrip(json, requests);
    assert [] + Concat(chunks) == Concat(chunks);
  }
}
