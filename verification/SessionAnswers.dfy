/**
 * What each session operation answers, and what it leaves, in terms of queue
 * elements, cursors and sums: every acceptance in both directions, and every
 * error.
 */
module SessionAnswers {
  import opened Common
  import opened ProtocolTypes
  import opened SessionModel
  import opened SessionInvariants
  import opened SessionDispatch

  /** The epochs a session still takes segments and acknowledgements on. */
  predicate Open(s: Session, epoch: nat) { epoch == s.current || s.retiring == Some(epoch) }

  /** A closed epoch is behind or ahead of the current one. */
  predicate ClosedEpoch(s: Session, epoch: nat, e: TraceError) {
    !Open(s, epoch) && e == (if epoch < s.current then StaleEpoch else FutureEpoch)
  }

  // ---------------------------------------------------------------- opening and closing

  lemma OpeningAnswers(s: Session, id: FlowId)
    ensures var (next, result) := OpenFlow(s, id);
      && (result.Ok? <==> |s.flows| < s.limits.maxFlows && s.nextFlow <= id < U64_MAX)
      && (result.Ok? ==> next.flows == s.flows[id := Flow(0, 0, None, [], 0)] && next.nextFlow == id + 1)
      && (result.Err? ==> next == s)
      && (result.Err? ==> result.error == (if |s.flows| >= s.limits.maxFlows then FlowLimit else FlowFinished))
      && next.(flows := s.flows, nextFlow := s.nextFlow, events := s.events) == s
  {
  }

  lemma ClosingAnswers(s: Session, id: FlowId)
    ensures var (next, result) := CloseFlow(s, id);
      && (result.Ok? <==> id in s.flows && |s.flows[id].pending| == 0)
      && next == s.(flows := if result.Ok? then s.flows - {id} else s.flows)
      && (result.Err? ==> result.error == (if id in s.flows then FlowHasPendingSegments else UnknownFlow))
  {
  }

  lemma ResettingAnswers(s: Session, id: FlowId)
    ensures var (next, result) := ResetFlow(s, id);
      && result == (if id in s.flows then Ok(()) else Err(UnknownFlow))
      && next == s.(flows := next.flows)
      && (forall other :: other in next.flows <==> other in s.flows && other != id)
      && (forall other <- next.flows :: next.flows[other] == s.flows[other])
  {
  }

  // ---------------------------------------------------------------- sending

  /** One more segment of this size would respect all four limits. */
  ghost predicate Fits(s: Session, id: FlowId, bytes: Bytes)
    requires id in s.flows
  {
    && Total(Segments, s.flows) < s.limits.maxSessionPendingSegments
    && Total(Measure.Bytes, s.flows) + |bytes| <= s.limits.maxSessionPendingBytes
    && |s.flows[id].pending| < s.limits.maxPendingSegments
    && BytesOf(s.flows[id].pending) + |bytes| <= s.limits.maxPendingBytes
  }

  /** A payload is taken exactly when it fits, as the next sequence on the current epoch. */
  lemma SendingAnswers(s: Session, id: FlowId, bytes: Bytes)
    ensures var (next, result) := Send(s, id, bytes);
      && (result.Ok? <==> id in s.flows && Fits(s, id, bytes))
      && (result.Err? ==> next.(events := s.events) == s)
      && (result.Err? ==> (result.error == UnknownFlow <==> id !in s.flows))
      && (result.Ok? ==>
            var before, after := s.flows[id], next.flows[id];
            var segment := Segment(id, s.current, before.nextSend, bytes);
            && result.value == segment
            && after.nextSend == before.nextSend + 1
            && after.pending == before.pending + [PendingSegment(segment, s.tick + s.limits.maxPendingAge)]
            && after.nextReceive == before.nextReceive && after.finalNext == before.finalNext
            && next.flows.Keys == s.flows.Keys
            && (forall other <- s.flows | other != id :: next.flows[other] == s.flows[other])
            && next.(flows := s.flows) == s)
  {
  }

  /** Which limit a refused payload is told of: the session's before the flow's, segments before bytes. */
  lemma SendingErrors(s: Session, id: FlowId, bytes: Bytes)
    requires id in s.flows && Send(s, id, bytes).1.Err?
    ensures var e := Send(s, id, bytes).1.error;
      var first := Total(Segments, s.flows) >= s.limits.maxSessionPendingSegments;
      var second := Total(Measure.Bytes, s.flows) + |bytes| > s.limits.maxSessionPendingBytes;
      var third := |s.flows[id].pending| >= s.limits.maxPendingSegments;
      var fourth := BytesOf(s.flows[id].pending) + |bytes| > s.limits.maxPendingBytes;
      && (e == SessionPendingSegmentLimit <==> first)
      && (e == SessionPendingByteLimit <==> !first && second)
      && (e == PendingSegmentLimit <==> !first && !second && third)
      && (e == PendingByteLimit <==> !first && !second && !third && fourth)
  {
  }

  // ---------------------------------------------------------------- acknowledging

  /** Everything the acknowledgement covers was sent on its epoch or an older one. */
  ghost predicate CoversNothingNewer(pending: seq<PendingSegment>, ack: Acknowledgement) {
    forall i | 0 <= i < |pending| && pending[i].segment.sequence <= ack.through ::
      pending[i].segment.epoch <= ack.epoch
  }

  /** Accepted exactly when it is on an open epoch, below the next sequence, and covers nothing newer. */
  lemma AcknowledgingAnswers(s: Session, ack: Acknowledgement)
    ensures var (next, result) := Acknowledge(s, ack);
      && (result.Ok? <==>
            && Open(s, ack.epoch) && ack.flow in s.flows
            && ack.through < s.flows[ack.flow].nextSend
            && CoversNothingNewer(s.flows[ack.flow].pending, ack))
      && (result.Err? ==> next == s)
      && (result.Err? ==>
            || ClosedEpoch(s, ack.epoch, result.error)
            || (Open(s, ack.epoch) && ack.flow !in s.flows && result.error == UnknownFlow)
            || (Open(s, ack.epoch) && ack.flow in s.flows && result.error == InvalidAcknowledgement))
  {
    if ack.flow in s.flows {
      var pending := s.flows[ack.flow].pending;
      if i :| 0 <= i < |pending| && pending[i].segment.sequence <= ack.through && pending[i].segment.epoch > ack.epoch {
        assert pending[i] in pending;
      }
    }
  }

  /**
   * What an accepted acknowledgement releases: the front of that one queue, up
   * to the sequence it names, and so nothing that was sent on a newer epoch.
   */
  lemma AcknowledgingReleases(s: Session, ack: Acknowledgement)
    requires SessionValid(s) && Acknowledge(s, ack).1.Ok?
    ensures var next := Acknowledge(s, ack).0;
      && next.flows.Keys == s.flows.Keys && next.(flows := s.flows) == s
      && (forall other <- s.flows | other != ack.flow :: next.flows[other] == s.flows[other])
      && var before, after := s.flows[ack.flow], next.flows[ack.flow];
         && after.(pending := before.pending, pendingBytes := before.pendingBytes) == before
         && |after.pending| <= |before.pending|
         && var released := |before.pending| - |after.pending|;
            && after.pending == before.pending[released..]
            && (forall i | 0 <= i < released ::
                  before.pending[i].segment.sequence <= ack.through && before.pending[i].segment.epoch <= ack.epoch)
            && (forall i | 0 <= i < |after.pending| :: after.pending[i].segment.sequence > ack.through)
  {
    hide Total, CoversNothingNewer, CoversNewerEpoch, Uncovered;
    var flow := s.flows[ack.flow];
    QueueOf(s, ack.flow);
    UncoveredIsSuffix(flow.pending, flow.nextSend - |flow.pending|, ack.through);
    AcknowledgingAnswers(s, ack);
    ReleasedIsOld(flow, ack);
  }

  lemma QueueOf(s: Session, id: FlowId)
    requires SessionValid(s) && id in s.flows
    ensures QueueValid(id, s.flows[id])
  {
    assert FlowValid(s.current, s.tick, s.limits, id, s.flows[id]);
  }

  lemma ReleasedIsOld(flow: Flow, ack: Acknowledgement)
    requires CoversNothingNewer(flow.pending, ack)
    ensures forall i | 0 <= i < |flow.pending| && flow.pending[i].segment.sequence <= ack.through ::
      flow.pending[i].segment.epoch <= ack.epoch
  {
  }

  // ---------------------------------------------------------------- receiving

  /** The four things that can happen to a segment on an open epoch of a known flow, and only these. */
  lemma ReceivingAnswers(s: Session, segment: Segment)
    requires SessionValid(s) && Open(s, segment.epoch) && segment.flow in s.flows
    ensures var (next, result) := Receive(s, segment);
      var flow := s.flows[segment.flow];
      var ended := flow.finalNext.Some? && flow.finalNext.value <= segment.sequence;
      && (result == Ok(Delivered(segment.bytes)) <==> segment.sequence == flow.nextReceive && !ended)
      && (result == Ok(Duplicate) <==> segment.sequence < flow.nextReceive)
      && (result == Ok(OutOfOrder) <==> segment.sequence > flow.nextReceive && !ended)
      && (result == Err(FlowFinished) <==> ended)
      && (if segment.sequence == flow.nextReceive && !ended
          then next == s.(flows := s.flows[segment.flow := flow.(nextReceive := flow.nextReceive + 1)])
          else next.(events := s.events) == s)
  {
    assert FlowValid(s.current, s.tick, s.limits, segment.flow, s.flows[segment.flow]);
    hide Total;
  }

  lemma ReceivingRefusals(s: Session, segment: Segment)
    requires !(Open(s, segment.epoch) && segment.flow in s.flows)
    ensures var (next, result) := Receive(s, segment);
      && next == s && result.Err?
      && (ClosedEpoch(s, segment.epoch, result.error)
          || (Open(s, segment.epoch) && result.error == UnknownFlow))
  {
  }

  /** An end of stream is taken once, at or above the cursor; the same end may be repeated. */
  lemma FinishingAnswers(s: Session, id: FlowId, epoch: nat, finalNext: nat)
    requires SessionValid(s)
    ensures var (next, result) := FinishReceiving(s, id, epoch, finalNext);
      && (result.Ok? <==>
            && Open(s, epoch) && id in s.flows && s.flows[id].nextReceive <= finalNext
            && (s.flows[id].finalNext == None || s.flows[id].finalNext == Some(finalNext)))
      && (result.Ok? ==> next == s.(flows := s.flows[id := s.flows[id].(finalNext := Some(finalNext))]))
      && (result.Err? ==> next == s)
      && (result.Err? ==>
            || ClosedEpoch(s, epoch, result.error)
            || (Open(s, epoch) && id !in s.flows && result.error == UnknownFlow)
            || (Open(s, epoch) && id in s.flows && result.error == FlowFinished))
  {
    hide Total, FlowValid;
    if id in s.flows {
      assert s.flows[id := s.flows[id]] == s.flows;
      assert s.flows[id].(finalNext := s.flows[id].finalNext) == s.flows[id];
    }
  }

  /** Resuming hands out the queue again, oldest first, with only the epoch brought up to date. */
  lemma ResumingAnswers(s: Session, id: FlowId)
    requires SessionValid(s)
    ensures var r := Resume(s, id);
      && (id !in s.flows ==> r == Err(UnknownFlow))
      && (id in s.flows ==>
            && r.Ok? && |r.value| == |s.flows[id].pending|
            && forall i | 0 <= i < |r.value| ::
                 r.value[i] == Segment(id, s.current,
                   s.flows[id].nextSend - |r.value| + i, s.flows[id].pending[i].segment.bytes))
  {
    if id in s.flows {
      QueueOf(s, id);
    }
  }

  // ---------------------------------------------------------------- time and transitions

  /** A flow is dropped exactly when one of its segments has outlived its deadline. */
  lemma AdvancingAnswers(s: Session, ticks: nat)
    ensures var next := AdvanceTime(s, ticks);
      && next.tick == s.tick + ticks
      && (forall id :: id in next.flows <==>
            id in s.flows && forall i | 0 <= i < |s.flows[id].pending| ::
              s.tick + ticks < s.flows[id].pending[i].expiresAt)
      && (forall id <- next.flows :: next.flows[id] == s.flows[id])
      && next.(tick := s.tick, flows := s.flows, events := s.events) == s
  {
    var next, tick := AdvanceTime(s, ticks), s.tick + ticks;
    forall id <- s.flows
      ensures id in next.flows <==>
        forall i | 0 <= i < |s.flows[id].pending| :: tick < s.flows[id].pending[i].expiresAt
    {
      var pending := s.flows[id].pending;
      if i :| 0 <= i < |pending| && pending[i].expiresAt <= tick {
        assert pending[i] in pending;
      }
    }
  }

  /** Two epochs are open at most: a new one starts only when the last transition has completed. */
  lemma TransitionAnswers(s: Session)
    ensures var (next, result) := BeginTransition(s);
      && (result.Ok? <==> s.retiring == None)
      && (result.Ok? ==>
            && result.value == s.current + 1 == next.current
            && next.retiring == Some(s.current)
            && next.accepted == None && next.retiringAttachment == s.accepted
            && next.(current := s.current, retiring := None, accepted := s.accepted,
                     retiringAttachment := s.retiringAttachment) == s)
      && (result.Err? ==> next == s && result.error == TransitionInProgress)
    ensures var next := CompleteTransition(s);
      && next.retiring == None && next.retiringAttachment == None
      && next.(retiring := s.retiring, retiringAttachment := s.retiringAttachment, events := s.events) == s
  {
  }

  // ---------------------------------------------------------------- attaching

  /** The request answers for this session's transcript on its current epoch. */
  predicate Authentic(s: Session, auth: Authenticator, sessionId: Id16, request: AttachmentRequest) {
    && s.negotiated == Some(request.parameters)
    && request.attachment.epoch == s.current
    && auth.verifies(sessionId, s.current, request.attachment.attachmentId, request.parameters, request.proof)
  }

  /** The first authentic request of an epoch is accepted, and only its exact repeat after that. */
  lemma AttachingAnswers(s: Session, auth: Authenticator, sessionId: Id16, request: AttachmentRequest)
    requires SessionValid(s)
    ensures var (next, result) := Authenticate(s, auth, sessionId, request);
      var authentic := Authentic(s, auth, sessionId, request);
      && (result == Ok(Accepted) <==> authentic && s.accepted == None)
      && (result == Ok(AlreadyAccepted) <==> authentic && s.accepted == Some(request.attachment))
      && (result == Err(Replay) <==>
            authentic && s.accepted.Some? && s.accepted.value != request.attachment)
      && (result == Ok(Accepted) ==>
            next == s.(accepted := Some(request.attachment), replay := Some(s.current)))
      && (result != Ok(Accepted) ==> next.(events := s.events) == s)
  {
    hide Total, FlowsValid;
  }

  /** The first thing wrong with a request that is not authentic. */
  lemma AttachingErrors(s: Session, auth: Authenticator, sessionId: Id16, request: AttachmentRequest)
    requires SessionValid(s) && !Authentic(s, auth, sessionId, request)
    ensures var result := Authenticate(s, auth, sessionId, request).1;
      var epoch := request.attachment.epoch;
      && result.Err?
      && (result.error == MissingNegotiation <==> s.negotiated == None)
      && (result.error == NegotiationMismatch <==>
            s.negotiated.Some? && s.negotiated.value != request.parameters)
      && (result.error == AttachmentStaleEpoch <==> s.negotiated == Some(request.parameters) && epoch < s.current)
      && (result.error == AttachmentFutureEpoch <==> s.negotiated == Some(request.parameters) && epoch > s.current)
      && (result.error == InvalidProof <==> s.negotiated == Some(request.parameters) && epoch == s.current)
  {
    hide Total, FlowsValid;
  }

  lemma BindingAnswers(s: Session, parameters: NegotiatedParameters)
    requires SessionValid(s)
    ensures var (next, result) := BindParameters(s, parameters);
      && (result.Ok? <==> s.negotiated == None && s.replay == None)
      && next == s.(negotiated := if result.Ok? then Some(parameters) else s.negotiated)
      && (result.Err? ==> result.error == (if s.replay.Some? then BindingError.AttachmentAlreadyAccepted else AlreadyBound))
  {
    hide Total, FlowsValid;
  }

  // ---------------------------------------------------------------- the event log

  /** The log is its newest entries: the old ones followed by the new, cut to the limit from the front. */
  predicate Logged(s: Session, next: Session, news: seq<SessionEvent>) {
    && |next.events| == (if |s.events| + |news| <= s.limits.maxEvents then |s.events| + |news| else s.limits.maxEvents)
    && forall i | 0 <= i < |next.events| ::
         next.events[i] == (s.events + news)[|s.events| + |news| - |next.events| + i]
  }

  lemma RecordIsLogged(s: Session, base: Session, news: seq<SessionEvent>)
    requires base.events == s.events && base.limits == s.limits
    ensures Logged(s, Record(base, news), news)
  {
  }

  lemma SilenceIsLogged(s: Session, next: Session)
    requires SessionValid(s) && next.events == s.events
    ensures Logged(s, next, [])
  {
    hide FlowsValid;
    assert s.events + [] == s.events;
  }

  lemma EventsOfFlows(s: Session, id: FlowId, bytes: Bytes)
    requires SessionValid(s)
    ensures Logged(s, OpenFlow(s, id).0, if OpenFlow(s, id).1.Ok? then [FlowOpened] else [])
    ensures Logged(s, Send(s, id, bytes).0,
      if id in s.flows && Send(s, id, bytes).1.Err? then [PendingLimitReached] else [])
  {
    hide SessionValid, Logged, Record, SendRefusal, Enqueue;
    RecordIsLogged(s, s.(nextFlow := if id < U64_MAX then id + 1 else s.nextFlow, flows := s.flows[id := NewFlow]), [FlowOpened]);
    RecordIsLogged(s, s, [PendingLimitReached]);
    SilenceIsLogged(s, OpenFlow(s, id).0.(events := s.events));
    SilenceIsLogged(s, Send(s, id, bytes).0.(events := s.events));
    SilenceIsLogged(s, s);
  }

  lemma EventsOfReceiving(s: Session, segment: Segment)
    requires SessionValid(s)
    ensures Logged(s, Receive(s, segment).0,
      if Receive(s, segment).1 == Ok(Duplicate) then [DuplicateIgnored]
      else if Receive(s, segment).1 == Ok(OutOfOrder) then [OutOfOrderRejected] else [])
  {
    hide SessionValid, Logged, Record;
    RecordIsLogged(s, s, [DuplicateIgnored]);
    RecordIsLogged(s, s, [OutOfOrderRejected]);
    SilenceIsLogged(s, Receive(s, segment).0.(events := s.events));
  }

  lemma EventsOfTransitions(s: Session, from: CarrierClass, to: CarrierClass, reason: TransitionReason)
    requires SessionValid(s)
    ensures Logged(s, BeginExplainedTransition(s, from, to, reason).0,
      if s.retiring.None? then [TransitionStarted(from, to, reason)] else [])
    ensures Logged(s, CompleteTransition(s), [TransitionCompleted])
  {
    hide SessionValid, Logged, Record;
    RecordIsLogged(s, BeginTransition(s).0, [TransitionStarted(from, to, reason)]);
    RecordIsLogged(s, s.(retiring := None, retiringAttachment := None), [TransitionCompleted]);
    SilenceIsLogged(s, s);
  }

  lemma EventsOfAttaching(s: Session, auth: Authenticator, sessionId: Id16, request: AttachmentRequest)
    requires SessionValid(s)
    ensures var (next, result) := Authenticate(s, auth, sessionId, request);
      Logged(s, next, if result.Ok? || s.negotiated.None? then [] else [TransitionRejected(AttachmentRejected)])
  {
    hide SessionValid, Logged, Record;
    RecordIsLogged(s, s, [TransitionRejected(AttachmentRejected)]);
    SilenceIsLogged(s, Authenticate(s, auth, sessionId, request).0.(events := s.events));
  }

  // ---------------------------------------------------------------- frames

  /** This carrier's attachment is the current or the retiring one. */
  predicate Holds(s: Session, carrier: CarrierId) {
    || (s.accepted.Some? && s.accepted.value.carrier == carrier && s.accepted.value.epoch == s.current)
    || (s.retiringAttachment.Some? && s.retiringAttachment.value.carrier == carrier)
  }

  predicate HoldsCurrent(s: Session, carrier: CarrierId) {
    s.accepted.Some? && s.accepted.value.carrier == carrier && s.accepted.value.epoch == s.current
  }

  /** A frame that carries no stream: negotiation is over, and a closed carrier is not heard. */
  lemma FramesRefused(s: Session, closed: bool, at: Endpoint, frame: Frame)
    ensures var d := Dispatch(s, closed, at, frame);
      && (d.result == Err(Closed) <==> closed)
      && (closed ==> d == Dispatched(s, true, Err(Closed)))
      && (d.result == Err(UnexpectedFrame) <==>
            !closed && (frame.Offer? || frame.Accept? || frame.AttachAccepted?))
      && (d.result == Err(SessionMismatch) <==> !closed && frame.Attach? && frame.sessionId != at.sessionId)
      && (d.result == Err(CarrierNotAttached) <==>
            && !closed && !frame.Offer? && !frame.Accept? && !frame.AttachAccepted? && !frame.Attach?
            && (if frame.StreamOpen? then !HoldsCurrent(s, at.carrier) else !Holds(s, at.carrier)))
  {
    hide Authenticate, OpenFlow, Receive, Acknowledge, FinishReceiving, ResetFlow;
  }

  /** Only a connection close from an attached carrier closes its dispatcher, and it always does. */
  lemma ClosingFrames(s: Session, at: Endpoint, frame: Frame)
    ensures var d := Dispatch(s, false, at, frame);
      && (d.closed <==> frame.ConnectionClose? && Holds(s, at.carrier))
      && (d.closed <==> frame.ConnectionClose? && d.result.Ok?)
      && (d.closed ==> d == Dispatched(s, true, Ok(ConnectionClosed(frame.error))))
  {
    hide Authenticate, OpenFlow, Receive, Acknowledge, FinishReceiving, ResetFlow;
  }

  /** What the other frames of an attached carrier do: each is one session call with the frame's own fields. */
  lemma StreamFrames(s: Session, at: Endpoint, frame: Frame)
    requires Holds(s, at.carrier)
    ensures var d := Dispatch(s, false, at, frame);
      match frame
      case StreamData(flow, epoch, sequence, bytes) =>
        var (next, result) := Receive(s, Segment(flow, epoch, sequence, bytes));
        && d.session == next
        && (result.Err? ==> d.result == Err(TraceFailure(result.error)))
        && (result == Ok(Delivered(bytes)) <==> d.result == Ok(DataDelivered(bytes)))
        && (result == Ok(Duplicate) <==> d.result == Ok(DataDuplicate))
        && (result == Ok(OutOfOrder) <==> d.result == Ok(DataOutOfOrder))
      case StreamAcknowledgement(flow, epoch, through) =>
        var (next, result) := Acknowledge(s, Acknowledgement(flow, epoch, through));
        d.session == next
        && d.result == (if result.Ok? then Ok(Acknowledged) else Err(TraceFailure(result.error)))
      case StreamFinish(flow, epoch, finalNext) =>
        var (next, result) := FinishReceiving(s, flow, epoch, finalNext);
        d.session == next
        && d.result == (if result.Ok? then Ok(DispatchedFinish) else Err(TraceFailure(result.error)))
      case StreamReset(flow, error) =>
        var (next, result) := ResetFlow(s, flow);
        d.session == next
        && d.result == (if result.Ok? then Ok(FlowReset(error)) else Err(TraceFailure(result.error)))
      case StreamOpen(flow) =>
        HoldsCurrent(s, at.carrier) ==>
          var (next, result) := OpenFlow(s, flow);
          d.session == next
          && d.result == (if result.Ok? then Ok(DispatchedOpen) else Err(TraceFailure(result.error)))
      case UnknownOptional(_, _) => d == Dispatched(s, false, Ok(OptionalFrameIgnored))
      case _ => true
  {
    hide Authenticate, OpenFlow, Acknowledge, FinishReceiving, ResetFlow;
  }

  /** An attach frame asks for this carrier, and the answer echoes it. */
  lemma AttachFrames(s: Session, at: Endpoint, frame: Frame)
    requires frame.Attach? && frame.sessionId == at.sessionId
    ensures var d := Dispatch(s, false, at, frame);
      var (next, result) := Authenticate(s, at.auth, at.sessionId,
        AttachmentRequest(Attachment(at.carrier, frame.epoch, frame.attachmentId), frame.attachParameters, frame.proof));
      var echo := AttachAccepted(frame.sessionId, frame.epoch, frame.attachmentId);
      && d.session == next && !d.closed
      && (result == Ok(Accepted) <==> d.result == Ok(AttachmentAccepted(echo)))
      && (result == Ok(AlreadyAccepted) <==> d.result == Ok(DispatchOutcome.AttachmentAlreadyAccepted(echo)))
      && (result.Err? ==> d.result == Err(AttachmentFailure(result.error)))
  {
    hide Authenticate;
    var request := AttachmentRequest(
      Attachment(at.carrier, frame.epoch, frame.attachmentId), frame.attachParameters, frame.proof);
    match Authenticate(s, at.auth, at.sessionId, request).1
    case Ok(Accepted) =>
    case Ok(AlreadyAccepted) =>
    case Err(_) =>
  }

  /** An accepted carrier is heard at once, and until the transition after it completes. */
  lemma AcceptedCarriersAreHeard(s: Session, auth: Authenticator, sessionId: Id16, request: AttachmentRequest)
    requires SessionValid(s) && Authenticate(s, auth, sessionId, request).1.Ok?
    ensures var next := Authenticate(s, auth, sessionId, request).0;
      && HoldsCurrent(next, request.attachment.carrier)
      && (next.retiring.None? ==>
            var later := BeginTransition(next).0;
            Holds(later, request.attachment.carrier) && !HoldsCurrent(later, request.attachment.carrier))
  {
    hide Total, FlowsValid;
  }
}
