/** The incremental frame decoder, and its refinement of a parser that sees the whole stream at once. */
module FrameDecoding {
  import opened Common
  import opened ByteOrder
  import opened ProtocolTypes
  import opened FrameCodec
  import opened FrameWire

  /** Frames parsed, bytes still buffered, and the error that ended parsing, if any. */
  datatype Progress = Progress(frames: seq<Frame>, buffered: Bytes, error: Option<DecodeError>)

  /** The bytes are the start of a frame this decoder may still accept. */
  predicate Pending(b: Bytes, maximum: nat) {
    |b| < FRAME_HEADER_BYTES
    || (Advertised(b) <= maximum && |b| < FRAME_HEADER_BYTES + Advertised(b))
  }

  /** Parses as many frames as the bytes hold. */
  function ParseAll(b: Bytes, maximum: nat): Progress
    decreases |b|
  {
    if Pending(b, maximum) then Progress([], b, None)
    else if Advertised(b) > maximum then Progress([], [], Some(PayloadTooLarge(maximum, Advertised(b))))
    else
      var total := FRAME_HEADER_BYTES + Advertised(b);
      match DecodeExact(b[..total], maximum)
      case Err(e) => Progress([], b, Some(e))
      case Ok(frame) =>
        var rest := ParseAll(b[total..], maximum);
        rest.(frames := [frame] + rest.frames)
  }

  function Then(first: Progress, second: Progress): Progress {
    second.(frames := first.frames + second.frames)
  }

  /** One byte at a time, stopping at the first error; the remaining bytes are dropped. */
  function PushAll(buffered: Bytes, bytes: Bytes, maximum: nat): Progress
    decreases |bytes|
  {
    if bytes == [] then Progress([], buffered, None)
    else
      var first := ParseAll(buffered + [bytes[0]], maximum);
      if first.error.Some? then first
      else Then(first, PushAll(first.buffered, bytes[1..], maximum))
  }

  class FrameDecoder {
    const maximum: nat
    var buffered: Bytes

    constructor (maximum: nat)
      ensures this.maximum == maximum && buffered == []
    {
      this.maximum := maximum;
      buffered := [];
    }

    method Push(bytes: Bytes) returns (r: Result<seq<Frame>, DecodeError>)
      modifies this
      ensures var p := PushAll(old(buffered), bytes, maximum);
        && buffered == p.buffered
        && r == if p.error.Some? then Err(p.error.value) else Ok(p.frames)
    {
      hide ParseAll;
      var frames: seq<Frame> := [];
      ghost var whole := PushAll(buffered, bytes, maximum);
      assert bytes[0..] == bytes;
      for i := 0 to |bytes|
        invariant whole == Then(Progress(frames, [], None), PushAll(buffered, bytes[i..], maximum))
      {
        assert bytes[i..][0] == bytes[i] && bytes[i..][1..] == bytes[i + 1..];
        buffered := buffered + [bytes[i]];
        var more :- ParseBuffered();
        frames := frames + more;
      }
      assert bytes[|bytes|..] == [] && frames + [] == frames;
      return Ok(frames);
    }

    /** The inner loop of a push: every complete frame leaves the buffer. */
    method ParseBuffered() returns (r: Result<seq<Frame>, DecodeError>)
      modifies this
      ensures var p := ParseAll(old(buffered), maximum);
        && buffered == p.buffered
        && r == if p.error.Some? then Err(p.error.value) else Ok(p.frames)
    {
      hide DecodeExact, Advertised;
      var frames: seq<Frame> := [];
      ghost var whole := ParseAll(buffered, maximum);
      while true
        invariant whole.frames == frames + ParseAll(buffered, maximum).frames
        invariant whole.error == ParseAll(buffered, maximum).error
        invariant whole.buffered == ParseAll(buffered, maximum).buffered
        decreases |buffered|
      {
        if |buffered| < FRAME_HEADER_BYTES {
          assert frames + [] == frames;
          return Ok(frames);
        }
        var advertised := Advertised(buffered);
        if advertised > maximum {
          buffered := [];
          return Err(PayloadTooLarge(maximum, advertised));
        }
        var total := FRAME_HEADER_BYTES + advertised;
        if |buffered| < total {
          assert frames + [] == frames;
          return Ok(frames);
        }
        var frame :- DecodeFrame(buffered[..total], maximum);
        buffered := buffered[total..];
        frames := frames + [frame];
      }
    }
  }

  method NewFrameDecoder(maximum: nat) returns (r: Result<FrameDecoder, DecodeError>)
    ensures r.Err? <==> maximum > MAX_FRAME_PAYLOAD
    ensures r.Err? ==> r.error == PayloadTooLarge(MAX_FRAME_PAYLOAD, maximum)
    ensures r.Ok? ==> fresh(r.value) && r.value.maximum == maximum && r.value.buffered == []
  {
    if maximum > MAX_FRAME_PAYLOAD {
      return Err(PayloadTooLarge(MAX_FRAME_PAYLOAD, maximum));
    }
    var decoder := new FrameDecoder(maximum);
    return Ok(decoder);
  }

  // ---------------------------------------------------------------- refinement of the whole-buffer parser

  lemma ParseStep(b: Bytes, maximum: nat)
    requires !Pending(b, maximum) && Advertised(b) <= maximum
    ensures var total := FRAME_HEADER_BYTES + Advertised(b);
      var decoded := DecodeExact(b[..total], maximum);
      ParseAll(b, maximum) ==
        if decoded.Err? then Progress([], b, Some(decoded.error))
        else Then(Progress([decoded.value], [], None), ParseAll(b[total..], maximum))
  {
    hide DecodeExact;
  }

  lemma ParseTooLarge(b: Bytes, maximum: nat)
    requires |b| >= FRAME_HEADER_BYTES && Advertised(b) > maximum
    ensures ParseAll(b, maximum) == Progress([], [], Some(PayloadTooLarge(maximum, Advertised(b))))
  {
  }

  /** Decoding a complete frame within the limit fails for its content only. */
  lemma DecodeNeverTooLarge(b: Bytes, maximum: nat)
    requires |b| >= FRAME_HEADER_BYTES && Advertised(b) <= maximum
    ensures DecodeExact(b, maximum).Err? ==> !DecodeExact(b, maximum).error.PayloadTooLarge?
  {
    hide ReadOffer, ReadParameters, ReadAttach, ReadAttachment, ReadU64, ReadSegment, ReadReset, ReadError;
  }

  /** A prefix without an error parses the same whatever follows it. */
  lemma {:induction false} ParseAppend(a: Bytes, b: Bytes, maximum: nat)
    ensures var p := ParseAll(a, maximum);
      var whole := ParseAll(a + b, maximum);
      && (p.error.None? ==> whole == Then(p, ParseAll(p.buffered + b, maximum)))
      && (p.error.Some? ==> whole.frames == p.frames && whole.error == p.error)
    decreases |a|
  {
    hide DecodeExact, ParseAll, Advertised;
    if Pending(a, maximum) {
      PendingParses(a, maximum);
      assert [] + ParseAll(a + b, maximum).frames == ParseAll(a + b, maximum).frames;
    } else {
      SameHeader(a, b);
      if Advertised(a) > maximum {
        ParseTooLarge(a, maximum);
        ParseTooLarge(a + b, maximum);
      } else {
        var total := FRAME_HEADER_BYTES + Advertised(a);
        assert (a + b)[..total] == a[..total] && (a + b)[total..] == a[total..] + b;
        ParseStep(a, maximum);
        ParseStep(a + b, maximum);
        ParseAppend(a[total..], b, maximum);
        var decoded := DecodeExact(a[..total], maximum);
        if decoded.Ok? {
          var rest := ParseAll(a[total..], maximum);
          ThenIsAssociative(Progress([decoded.value], [], None), rest, ParseAll(rest.buffered + b, maximum));
        }
      }
    }
  }

  lemma ThenIsAssociative(a: Progress, b: Progress, c: Progress)
    ensures Then(a, Then(b, c)) == Then(Then(a, b), c)
  {
  }

  lemma SameHeader(a: Bytes, b: Bytes)
    requires |a| >= FRAME_HEADER_BYTES
    ensures Advertised(a + b) == Advertised(a)
  {
    assert (a + b)[2..4] == a[2..4];
  }

  /** The bytes begin with a complete frame that decoding rejects with `e`. */
  predicate Poisoned(b: Bytes, maximum: nat, e: DecodeError) {
    && |b| >= FRAME_HEADER_BYTES && Advertised(b) <= maximum
    && |b| >= FRAME_HEADER_BYTES + Advertised(b)
    && DecodeExact(b[..FRAME_HEADER_BYTES + Advertised(b)], maximum) == Err(e)
  }

  /** One more byte completes at most one frame. */
  lemma OneByte(buffered: Bytes, byte: u8, maximum: nat)
    requires Pending(buffered, maximum)
    ensures var p := ParseAll(buffered + [byte], maximum);
      && (p.error.None? ==> Pending(p.buffered, maximum))
      && (p.error.Some? ==>
            (p.error.value.PayloadTooLarge? && p.buffered == [])
            || (p.buffered == buffered + [byte] && Poisoned(p.buffered, maximum, p.error.value)
                && |p.buffered| == FRAME_HEADER_BYTES + Advertised(p.buffered)))
  {
    hide DecodeExact;
    var b := buffered + [byte];
    if |buffered| >= FRAME_HEADER_BYTES {
      SameHeader(buffered, [byte]);
    }
    if !Pending(b, maximum) && Advertised(b) <= maximum {
      var total := FRAME_HEADER_BYTES + Advertised(b);
      assert |b| == total;
      assert b[..total] == b && b[total..] == [];
      assert ParseAll([], maximum) == Progress([], [], None);
    }
  }

  /**
   * Feeding bytes one at a time to a decoder that holds no rejected frame is
   * parsing the buffer and the bytes at once.  Only a rejected frame leaves a
   * different residue: the decoder keeps that one frame and drops what follows.
   */
  lemma {:induction false} PushIsParse(buffered: Bytes, bytes: Bytes, maximum: nat)
    requires Pending(buffered, maximum)
    ensures var p := PushAll(buffered, bytes, maximum);
      var whole := ParseAll(buffered + bytes, maximum);
      && p.frames == whole.frames && p.error == whole.error
      && (p.error.None? ==> p.buffered == whole.buffered && Pending(p.buffered, maximum))
      && (p.error.Some? ==>
            (p.error.value.PayloadTooLarge? && p.buffered == [])
            || (Poisoned(p.buffered, maximum, p.error.value)
                && |p.buffered| == FRAME_HEADER_BYTES + Advertised(p.buffered)))
    decreases |bytes|
  {
    hide ParseAll, Pending, Poisoned, Advertised;
    if bytes == [] {
      assert buffered + bytes == buffered;
      PendingParses(buffered, maximum);
    } else {
      var first := ParseAll(buffered + [bytes[0]], maximum);
      assert buffered + [bytes[0]] + bytes[1..] == buffered + bytes;
      ParseAppend(buffered + [bytes[0]], bytes[1..], maximum);
      OneByte(buffered, bytes[0], maximum);
      if first.error.None? {
        PushIsParse(first.buffered, bytes[1..], maximum);
      }
    }
  }

  lemma PendingParses(b: Bytes, maximum: nat)
    requires Pending(b, maximum)
    ensures ParseAll(b, maximum) == Progress([], b, None)
  {
  }

  /** A decoder that has rejected a frame gives the same error to every later push that brings a byte. */
  lemma PoisonIsForever(b: Bytes, bytes: Bytes, maximum: nat, e: DecodeError)
    requires Poisoned(b, maximum, e) && bytes != []
    ensures var p := PushAll(b, bytes, maximum);
      && p == Progress([], b + [bytes[0]], Some(e)) && Poisoned(p.buffered, maximum, e)
  {
    hide DecodeExact;
    SameHeader(b, [bytes[0]]);
    var longer := b + [bytes[0]];
    var total := FRAME_HEADER_BYTES + Advertised(b);
    assert longer[..total] == b[..total];
  }

  /** The buffer after each of these pushes, whatever they returned. */
  function BufferAfter(b: Bytes, chunks: seq<Bytes>, maximum: nat): Bytes
    decreases |chunks|
  {
    if chunks == [] then b else BufferAfter(PushAll(b, chunks[0], maximum).buffered, chunks[1..], maximum)
  }

  function NonEmpty(chunks: seq<Bytes>): nat {
    if chunks == [] then 0 else (if chunks[0] == [] then 0 else 1) + NonEmpty(chunks[1..])
  }

  /** After a rejection the rejected frame stays in front, and each push that brings bytes leaves one more. */
  lemma {:induction false} PoisonedBufferGrows(b: Bytes, chunks: seq<Bytes>, maximum: nat, e: DecodeError)
    requires Poisoned(b, maximum, e)
    ensures var after := BufferAfter(b, chunks, maximum);
      b <= after && |after| == |b| + NonEmpty(chunks)
    decreases |chunks|
  {
    hide Poisoned, PushAll;
    if chunks != [] {
      if chunks[0] == [] {
        NothingPushed(b, maximum);
        PoisonedBufferGrows(b, chunks[1..], maximum, e);
      } else {
        PoisonIsForever(b, chunks[0], maximum, e);
        PoisonedBufferGrows(b + [chunks[0][0]], chunks[1..], maximum, e);
      }
    }
  }

  /** The bytes are no more than the one frame their header declares. */
  predicate AtMostOneFrame(b: Bytes) {
    |b| < FRAME_HEADER_BYTES || |b| <= FRAME_HEADER_BYTES + Advertised(b)
  }

  /** The push ends with the rejection of a complete frame, not of an announced length. */
  predicate Rejects(b: Bytes, chunk: Bytes, maximum: nat) {
    var p := PushAll(b, chunk, maximum);
    p.error.Some? && !p.error.value.PayloadTooLarge?
  }

  /** Some push brings bytes after an earlier one rejected a frame. */
  predicate PushesAfterRejection(b: Bytes, chunks: seq<Bytes>, maximum: nat)
    decreases |chunks|
  {
    && chunks != []
    && (|| (Rejects(b, chunks[0], maximum) && NonEmpty(chunks[1..]) > 0)
        || PushesAfterRejection(PushAll(b, chunks[0], maximum).buffered, chunks[1..], maximum))
  }

  lemma {:induction false} RejectedStaysOneFrame(
      b: Bytes, chunks: seq<Bytes>, maximum: nat, e: DecodeError)
    requires Poisoned(b, maximum, e) && |b| == FRAME_HEADER_BYTES + Advertised(b)
    ensures AtMostOneFrame(BufferAfter(b, chunks, maximum)) <==> NonEmpty(chunks) == 0
  {
    hide PushAll, BufferAfter, Advertised;
    PoisonedBufferGrows(b, chunks, maximum, e);
    var after := BufferAfter(b, chunks, maximum);
    assert after == b + after[|b|..];
    SameHeader(b, after[|b|..]);
  }

  lemma {:induction false} OnlyEmptyPushes(b: Bytes, chunks: seq<Bytes>, maximum: nat)
    requires NonEmpty(chunks) == 0
    ensures !PushesAfterRejection(b, chunks, maximum)
    decreases |chunks|
  {
    hide PushAll;
    if chunks != [] {
      NothingPushed(b, maximum);
      OnlyEmptyPushes(b, chunks[1..], maximum);
    }
  }

  /**
   * The documented bound, exactly: after any pushes the decoder retains at most
   * one declared frame, unless a push brought bytes after one that rejected a
   * complete frame.  A refused length clears the buffer and decoding goes on.
   */
  lemma {:induction false} BoundHoldsExactlyUntilRejection(b: Bytes, chunks: seq<Bytes>, maximum: nat)
    requires Pending(b, maximum)
    ensures AtMostOneFrame(BufferAfter(b, chunks, maximum)) <==> !PushesAfterRejection(b, chunks, maximum)
    decreases |chunks|
  {
    hide PushAll, Poisoned, Advertised;
    if chunks == [] {
      PendingIsAtMostOneFrame(b, maximum);
    } else {
      var p := PushAll(b, chunks[0], maximum);
      PushIsParse(b, chunks[0], maximum);
      PushLeaves(b, chunks[0], maximum);
      if Rejects(b, chunks[0], maximum) {
        RejectedStaysOneFrame(p.buffered, chunks[1..], maximum, p.error.value);
        if NonEmpty(chunks[1..]) == 0 {
          OnlyEmptyPushes(p.buffered, chunks[1..], maximum);
        }
      } else {
        BoundHoldsExactlyUntilRejection(p.buffered, chunks[1..], maximum);
      }
    }
  }

  lemma PendingIsAtMostOneFrame(b: Bytes, maximum: nat)
    requires Pending(b, maximum)
    ensures AtMostOneFrame(b)
  {
  }

  /** A push that rejects no complete frame leaves a pending buffer. */
  lemma PushLeaves(b: Bytes, chunk: Bytes, maximum: nat)
    requires Pending(b, maximum)
    ensures var p := PushAll(b, chunk, maximum);
      if Rejects(b, chunk, maximum)
      then Poisoned(p.buffered, maximum, p.error.value)
        && |p.buffered| == FRAME_HEADER_BYTES + Advertised(p.buffered)
      else Pending(p.buffered, maximum)
  {
    hide PushAll, DecodeExact;
    PushIsParse(b, chunk, maximum);
    var p := PushAll(b, chunk, maximum);
    if p.error.Some? && Poisoned(p.buffered, maximum, p.error.value) {
      var total := FRAME_HEADER_BYTES + Advertised(p.buffered);
      assert p.buffered == p.buffered[..total] + p.buffered[total..];
      SameHeader(p.buffered[..total], p.buffered[total..]);
      DecodeNeverTooLarge(p.buffered[..total], maximum);
    }
  }

  /** Four bytes poison a new decoder, and a fifth breaks the bound. */
  lemma RejectionHappens(maximum: nat)
    ensures Poisoned(PushAll([], REJECTED, maximum).buffered, maximum, UnknownMandatoryFrame(5))
    ensures PushesAfterRejection([], [REJECTED, [0]], maximum)
    ensures !AtMostOneFrame(BufferAfter([], [REJECTED, [0]], maximum))
  {
    hide PushAll, BufferAfter, Poisoned, Advertised, DecodeExact;
    var chunks: seq<Bytes> := [REJECTED, [0]];
    var last: seq<Bytes>, none: seq<Bytes> := [[0]], [];
    TwoSmallFrames(maximum);
    PushLeaves([], REJECTED, maximum);
    assert chunks[1..] == last && last[1..] == none;
    assert NonEmpty(last) == 1;
    BoundHoldsExactlyUntilRejection([], chunks, maximum);
  }

  /** Between pushes the buffer holds less than one largest frame, until a frame is rejected. */
  lemma BufferIsBounded(buffered: Bytes, bytes: Bytes, maximum: nat)
    requires Pending(buffered, maximum)
    ensures var p := PushAll(buffered, bytes, maximum);
      && |p.buffered| <= FRAME_HEADER_BYTES + maximum
      && (p.error.None? ==> |p.buffered| < FRAME_HEADER_BYTES + maximum || |p.buffered| < FRAME_HEADER_BYTES)
  {
    PushIsParse(buffered, bytes, maximum);
  }

  // ---------------------------------------------------------------- chunking

  /** Successive pushes, up to and including the first that fails. */
  function PushEach(buffered: Bytes, chunks: seq<Bytes>, maximum: nat): Progress
    decreases |chunks|
  {
    if chunks == [] then Progress([], buffered, None)
    else
      var first := PushAll(buffered, chunks[0], maximum);
      if first.error.Some? then first
      else Then(first, PushEach(first.buffered, chunks[1..], maximum))
  }

  /** What the caller is given: a push that fails returns none of its frames. */
  function Returned(buffered: Bytes, chunks: seq<Bytes>, maximum: nat): seq<Frame>
    decreases |chunks|
  {
    if chunks == [] then []
    else
      var first := PushAll(buffered, chunks[0], maximum);
      if first.error.Some? then []
      else first.frames + Returned(first.buffered, chunks[1..], maximum)
  }

  lemma {:induction false} PushAppend(buffered: Bytes, a: Bytes, b: Bytes, maximum: nat)
    ensures PushAll(buffered, a + b, maximum) ==
      var first := PushAll(buffered, a, maximum);
      if first.error.Some? then first else Then(first, PushAll(first.buffered, b, maximum))
    decreases |a|
  {
    hide ParseAll;
    if a == [] {
      assert a + b == b;
      assert [] + PushAll(buffered, b, maximum).frames == PushAll(buffered, b, maximum).frames;
    } else {
      var first := ParseAll(buffered + [a[0]], maximum);
      assert (a + b)[0] == a[0] && (a + b)[1..] == a[1..] + b;
      if first.error.None? {
        PushAppend(first.buffered, a[1..], b, maximum);
        var inner := PushAll(first.buffered, a[1..], maximum);
        if inner.error.None? {
          var last := PushAll(inner.buffered, b, maximum);
          assert first.frames + (inner.frames + last.frames) == first.frames + inner.frames + last.frames;
        }
      }
    }
  }

  /** However the stream is cut into pushes, frames, residue and error are those of one push. */
  lemma {:induction false} ChunkingDoesNotMatter(buffered: Bytes, chunks: seq<Bytes>, maximum: nat)
    ensures PushEach(buffered, chunks, maximum) == PushAll(buffered, Concat(chunks), maximum)
    decreases |chunks|
  {
    hide PushAll;
    if chunks == [] {
      assert PushAll(buffered, [], maximum) == Progress([], buffered, None) by { NothingPushed(buffered, maximum); }
    } else {
      PushAppend(buffered, chunks[0], Concat(chunks[1..]), maximum);
      var first := PushAll(buffered, chunks[0], maximum);
      if first.error.None? {
        ChunkingDoesNotMatter(first.buffered, chunks[1..], maximum);
      }
    }
  }

  lemma NothingPushed(buffered: Bytes, maximum: nat)
    ensures PushAll(buffered, [], maximum) == Progress([], buffered, None)
  {
  }

  /** The frames a failing push had completed before its error; the caller never sees them. */
  function Lost(buffered: Bytes, chunks: seq<Bytes>, maximum: nat): seq<Frame>
    decreases |chunks|
  {
    if chunks == [] then []
    else
      var first := PushAll(buffered, chunks[0], maximum);
      if first.error.Some? then first.frames else Lost(first.buffered, chunks[1..], maximum)
  }

  /** The stream's frames are those the caller receives, then those the failing push takes with it. */
  lemma {:induction false} ReturnedThenLost(buffered: Bytes, chunks: seq<Bytes>, maximum: nat)
    ensures var whole := PushAll(buffered, Concat(chunks), maximum);
      && whole.frames == Returned(buffered, chunks, maximum) + Lost(buffered, chunks, maximum)
      && (whole.error.None? ==> Lost(buffered, chunks, maximum) == [])
    decreases |chunks|
  {
    hide PushAll;
    ChunkingDoesNotMatter(buffered, chunks, maximum);
    if chunks != [] {
      var first := PushAll(buffered, chunks[0], maximum);
      if first.error.None? {
        ReturnedThenLost(first.buffered, chunks[1..], maximum);
        ChunkingDoesNotMatter(first.buffered, chunks[1..], maximum);
        assert first.frames + (Returned(first.buffered, chunks[1..], maximum) + Lost(first.buffered, chunks[1..], maximum))
            == Returned(buffered, chunks, maximum) + Lost(buffered, chunks, maximum);
      }
    }
  }

  /** So the caller receives every frame exactly when no failing push had completed one. */
  lemma ReturnedIsAllExactlyWhen(buffered: Bytes, chunks: seq<Bytes>, maximum: nat)
    ensures var whole := PushAll(buffered, Concat(chunks), maximum);
      && Returned(buffered, chunks, maximum) <= whole.frames
      && (Returned(buffered, chunks, maximum) == whole.frames
          <==> Lost(buffered, chunks, maximum) == [])
  {
    hide PushAll, Returned, Lost;
    ReturnedThenLost(buffered, chunks, maximum);
  }

  /** A header that announces no payload is decoded by its fourth byte. */
  lemma PushFourBytes(b: Bytes, maximum: nat)
    requires |b| == 4 && b[2] == 0 && b[3] == 0
    ensures PushAll([], b, maximum) ==
      var decoded := DecodeExact(b, maximum);
      if decoded.Err? then Progress([], b, Some(decoded.error)) else Progress([decoded.value], [], None)
  {
    hide DecodeExact, ParseAll, PushAll, Advertised;
    NoPayload(b);
    var start := b[..3];
    PendingParses(start, maximum);
    PendingParses([], maximum);
    PushIsParse([], start, maximum);
    PushAppend([], start, [b[3]], maximum);
    assert [] + start == start && start + [b[3]] == b;
    PushOne(start, b[3], maximum);
    assert b[..4] == b && b[4..] == [];
    ParseStep(b, maximum);
  }

  lemma PushOne(buffered: Bytes, byte: u8, maximum: nat)
    ensures PushAll(buffered, [byte], maximum) == ParseAll(buffered + [byte], maximum)
  {
    var first := ParseAll(buffered + [byte], maximum);
    assert [byte][1..] == [];
    assert first.frames + [] == first.frames;
  }

  /** Type 5 names no frame and may not be skipped; type 0x80 may. */
  const REJECTED: Bytes := [5, 0, 0, 0]
  const SKIPPED: Bytes := [0x80, 0, 0, 0]

  lemma TwoSmallFrames(maximum: nat)
    ensures PushAll([], REJECTED, maximum) == Progress([], REJECTED, Some(UnknownMandatoryFrame(5)))
    ensures PushAll([], SKIPPED, maximum) == Progress([UnknownOptional(0x80, [])], [], None)
  {
    hide PushAll, Advertised;
    NoPayload(REJECTED);
    NoPayload(SKIPPED);
    PushFourBytes(REJECTED, maximum);
    PushFourBytes(SKIPPED, maximum);
    assert REJECTED[4..] == [] && SKIPPED[4..] == [];
  }

  /** One stream, cut in two ways, returns two different lists of frames. */
  lemma ChunkingChangesWhatIsReturned(maximum: nat)
    ensures Concat([SKIPPED + REJECTED]) == Concat([SKIPPED, REJECTED])
    ensures Returned([], [SKIPPED + REJECTED], maximum) == []
    ensures Returned([], [SKIPPED, REJECTED], maximum) == [UnknownOptional(0x80, [])]
  {
    hide PushAll;
    var first, second, whole := SKIPPED, REJECTED, SKIPPED + REJECTED;
    TwoSmallFrames(maximum);
    PushAppend([], first, second, maximum);
    var none: seq<Bytes> := [];
    assert [first, second][1..] == [second] && [second][1..] == none && [whole][1..] == none;
    assert Concat([second]) == second;
  }

  lemma NoPayload(b: Bytes)
    requires |b| >= 4 && b[2] == 0 && b[3] == 0
    ensures Advertised(b) == 0
  {
    assert b[2..4] == [0, 0];
    assert FromBigEndian([0]) == 0 by { assert [0][..0] == []; }
    assert [0, 0][..1] == [0];
  }

  // ---------------------------------------------------------------- what a stream means

  predicate Sendable(f: Frame, maximum: nat) {
    Canonical(f) && Encode(f).Ok? && |PayloadOf(f)| <= maximum
  }

  predicate AllSendable(frames: seq<Frame>, maximum: nat) {
    forall i | 0 <= i < |frames| :: Sendable(frames[i], maximum)
  }

  function Wire(f: Frame): Bytes {
    match Encode(f)
    case Ok(b) => b
    case Err(_) => []
  }

  function Encodings(frames: seq<Frame>): Bytes {
    if frames == [] then [] else Wire(frames[0]) + Encodings(frames[1..])
  }

  lemma ParseOne(f: Frame, rest: Bytes, maximum: nat)
    requires Sendable(f, maximum)
    ensures ParseAll(Wire(f) + rest, maximum) == Then(Progress([f], [], None), ParseAll(rest, maximum))
  {
    hide Encode, PayloadOf, Canonical, DecodeExact;
    var b := Wire(f);
    EncodedHeader(f, b);
    SameHeader(b, rest);
    DecodeIsInverseOfEncode(f, b, maximum);
    assert (b + rest)[..|b|] == b && (b + rest)[|b|..] == rest;
  }

  /** A stream parses without error to exactly the frames it is the encoding of. */
  lemma {:induction false} StreamIsItsFrames(b: Bytes, frames: seq<Frame>, tail: Bytes, maximum: nat)
    ensures ParseAll(b, maximum) == Progress(frames, tail, None)
      <==> AllSendable(frames, maximum) && Pending(tail, maximum) && b == Encodings(frames) + tail
    decreases |frames| + |b|
  {
    hide Sendable, DecodeExact, Wire;
    if Pending(tail, maximum) && AllSendable(frames, maximum) && b == Encodings(frames) + tail {
      ParseEncodings(frames, tail, maximum);
    }
    if ParseAll(b, maximum) == Progress(frames, tail, None) {
      ParsedIsEncoded(b, maximum);
    }
  }

  lemma {:induction false} ParseEncodings(frames: seq<Frame>, tail: Bytes, maximum: nat)
    requires AllSendable(frames, maximum) && Pending(tail, maximum)
    ensures ParseAll(Encodings(frames) + tail, maximum) == Progress(frames, tail, None)
    decreases |frames|
  {
    hide Sendable, ParseAll, Wire;
    if frames == [] {
      assert Encodings(frames) + tail == tail;
      PendingParses(tail, maximum);
    } else {
      var rest := Encodings(frames[1..]) + tail;
      assert Encodings(frames) + tail == Wire(frames[0]) + rest;
      ParseOne(frames[0], rest, maximum);
      ParseEncodings(frames[1..], tail, maximum);
    }
  }

  lemma {:induction false} ParsedIsEncoded(b: Bytes, maximum: nat)
    requires ParseAll(b, maximum).error.None?
    ensures var p := ParseAll(b, maximum);
      AllSendable(p.frames, maximum) && Pending(p.buffered, maximum) && b == Encodings(p.frames) + p.buffered
    decreases |b|
  {
    hide Sendable, DecodeExact, Wire, ParseAll, Advertised;
    if Pending(b, maximum) {
      PendingParses(b, maximum);
    } else {
      if Advertised(b) > maximum {
        ParseTooLarge(b, maximum);
      }
      var total := FRAME_HEADER_BYTES + Advertised(b);
      ParseStep(b, maximum);
      var frame := DecodeExact(b[..total], maximum).value;
      var rest := ParseAll(b[total..], maximum);
      ParsedIsEncoded(b[total..], maximum);
      AcceptedIsSendable(frame, b[..total], maximum);
      var p := ParseAll(b, maximum);
      assert p.frames == [frame] + rest.frames;
      assert p.frames[1..] == rest.frames;
      assert b == b[..total] + b[total..];
      assert AllSendable(p.frames, maximum);
    }
  }

  lemma AcceptedIsSendable(f: Frame, b: Bytes, maximum: nat)
    requires DecodeExact(b, maximum) == Ok(f)
    ensures Sendable(f, maximum) && Wire(f) == b
  {
    hide Encode, PayloadOf, Canonical, DecodeExact;
    DecodeIsInverseOfEncode(f, b, maximum);
  }

  /** A peer's frames arrive as sent, however the carrier cuts them up. */
  lemma FramesSurviveAnyChunking(frames: seq<Frame>, chunks: seq<Bytes>, maximum: nat)
    requires AllSendable(frames, maximum) && Concat(chunks) == Encodings(frames)
    ensures PushEach([], chunks, maximum) == Progress(frames, [], None)
    ensures Returned([], chunks, maximum) == frames
  {
    hide PushAll, ParseAll, Sendable;
    ChunkingDoesNotMatter([], chunks, maximum);
    ReturnedThenLost([], chunks, maximum);
    ReturnedIsAllExactlyWhen([], chunks, maximum);
    PushIsParse([], Concat(chunks), maximum);
    ParseEncodings(frames, [], maximum);
    assert [] + Concat(chunks) == Encodings(frames) + [];
  }
}
