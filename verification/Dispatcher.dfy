/** How authenticated frames from one carrier act on a session. */
module SessionDispatch {
  import opened Common
  import opened ProtocolTypes
  import opened SessionModel
  import opened SessionInvariants
  import opened SessionTracing

  datatype DispatchOutcome =
    | AttachmentAccepted(response: Frame)
    | AttachmentAlreadyAccepted(response: Frame)
    | DispatchedOpen
    | Acknowledged
    | DataDelivered(bytes: Bytes)
    | DataDuplicate
    | DataOutOfOrder
    | DispatchedFinish
    | FlowReset(error: ProtocolErrorCode)
    | ConnectionClosed(error: ProtocolErrorCode)
    | OptionalFrameIgnored

  datatype DispatchError =
    | Closed
    | CarrierNotAttached
    | SessionMismatch
    | UnexpectedFrame
    | AttachmentFailure(attachment: AttachmentError)
    | TraceFailure(trace: TraceError)

  /** The fixed identity of one carrier's dispatcher. */
  datatype Endpoint = Endpoint(sessionId: Id16, carrier: CarrierId, auth: Authenticator)

  datatype Dispatched = Dispatched(
    session: Session, closed: bool, result: Result<DispatchOutcome, DispatchError>)

  function Lift<T>(closed: bool, step: (Session, Result<T, TraceError>), outcome: T -> DispatchOutcome)
    : Dispatched
  {
    Dispatched(step.0, closed,
               match step.1
               case Ok(value) => Ok(outcome(value))
               case Err(error) => Err(TraceFailure(error)))
  }

  function AttachFrame(s: Session, at: Endpoint, frame: Frame): Dispatched
    requires frame.Attach?
  {
    if frame.sessionId != at.sessionId then Dispatched(s, false, Err(SessionMismatch))
    else
      var request := AttachmentRequest(
        Attachment(at.carrier, frame.epoch, frame.attachmentId), frame.attachParameters, frame.proof);
      var (next, result) := Authenticate(s, at.auth, at.sessionId, request);
      var response := AttachAccepted(at.sessionId, frame.epoch, frame.attachmentId);
      Dispatched(next, false,
                 match result
                 case Ok(Accepted) => Ok(AttachmentAccepted(response))
                 case Ok(AlreadyAccepted) => Ok(DispatchOutcome.AttachmentAlreadyAccepted(response))
                 case Err(error) => Err(AttachmentFailure(error)))
  }

  /** Frames that need a carrier holding the current or the retiring attachment. */
  function CarriedFrame(s: Session, frame: Frame): Dispatched
    requires !frame.Offer? && !frame.Accept? && !frame.Attach? && !frame.AttachAccepted?
    requires !frame.StreamOpen?
  {
    match frame
    case StreamData(flow, epoch, sequence, bytes) =>
      Lift(false, Receive(s, Segment(flow, epoch, sequence, bytes)), DeliveryOutcome)
    case StreamAcknowledgement(flow, epoch, through) =>
      Lift(false, Acknowledge(s, Acknowledgement(flow, epoch, through)), _ => Acknowledged)
    case StreamFinish(flow, epoch, finalNext) =>
      Lift(false, FinishReceiving(s, flow, epoch, finalNext), _ => DispatchedFinish)
    case StreamReset(flow, error) => Lift(false, ResetFlow(s, flow), _ => FlowReset(error))
    case ConnectionClose(error) => Dispatched(s, true, Ok(ConnectionClosed(error)))
    case UnknownOptional(_, _) => Dispatched(s, false, Ok(OptionalFrameIgnored))
  }

  function DeliveryOutcome(result: ReceiveResult): DispatchOutcome {
    match result
    case Delivered(bytes) => DataDelivered(bytes)
    case Duplicate => DataDuplicate
    case OutOfOrder => DataOutOfOrder
  }

  function Dispatch(s: Session, closed: bool, at: Endpoint, frame: Frame): Dispatched {
    if closed then Dispatched(s, true, Err(Closed))
    else
      match frame
      case Offer(_) => Dispatched(s, false, Err(UnexpectedFrame))
      case Accept(_) => Dispatched(s, false, Err(UnexpectedFrame))
      case AttachAccepted(_, _, _) => Dispatched(s, false, Err(UnexpectedFrame))
      case Attach(_, _, _, _, _) => AttachFrame(s, at, frame)
      case StreamOpen(flow) =>
        if CarrierActive(s, at.carrier) then Lift(false, OpenFlow(s, flow), _ => DispatchedOpen)
        else Dispatched(s, false, Err(CarrierNotAttached))
      case _ =>
        if CarrierDispatchable(s, at.carrier) then CarriedFrame(s, frame)
        else Dispatched(s, false, Err(CarrierNotAttached))
  }

  // ---------------------------------------------------------------- safety of one frame

  /** Two sessions that differ at most in their event log. */
  ghost predicate SameButEvents(s: Session, t: Session) {
    t.(events := s.events) == s
  }

  lemma DispatchValid(s: Session, closed: bool, at: Endpoint, frame: Frame)
    requires SessionValid(s)
    ensures SessionValid(Dispatch(s, closed, at, frame).session)
  {
    hide SessionValid;
    match frame
    case Attach(_, epoch, id, parameters, proof) =>
      AuthenticateValid(s, at.auth, at.sessionId,
                        AttachmentRequest(Attachment(at.carrier, epoch, id), parameters, proof));
    case StreamOpen(flow) => OpenFlowValid(s, flow);
    case StreamData(flow, epoch, sequence, bytes) =>
      ReceiveValid(s, Segment(flow, epoch, sequence, bytes));
    case StreamAcknowledgement(flow, epoch, through) =>
      AcknowledgeValid(s, Acknowledgement(flow, epoch, through));
    case StreamFinish(flow, epoch, finalNext) => FinishReceivingValid(s, flow, epoch, finalNext);
    case StreamReset(flow, _) => ResetFlowValid(s, flow);
    case _ =>
  }

  lemma ResetFlowValid(s: Session, id: FlowId)
    requires SessionValid(s)
    ensures SessionValid(ResetFlow(s, id).0)
  {
    hide FlowValid, Total;
    if id in s.flows {
      RemoveValid(s.current, s.tick, s.limits, s.nextFlow, s.flows, {id});
    }
  }

  /** An error is only ever an error: nothing but the event log can have moved. */
  lemma ErrorsChangeNothing(s: Session, closed: bool, at: Endpoint, frame: Frame)
    requires Dispatch(s, closed, at, frame).result.Err?
    ensures SameButEvents(s, Dispatch(s, closed, at, frame).session)
    ensures Dispatch(s, closed, at, frame).closed == closed
  {
  }

  /** Without an attachment a carrier cannot touch a flow; it can only try to attach. */
  lemma UnattachedCarrierTouchesNoFlow(s: Session, closed: bool, at: Endpoint, frame: Frame)
    requires !CarrierDispatchable(s, at.carrier)
    ensures Dispatch(s, closed, at, frame).session.flows == s.flows
    ensures Dispatch(s, closed, at, frame).result.Ok? ==> frame.Attach?
  {
  }

  /** A carrier that no longer holds the current epoch can finish flows but never start one. */
  lemma RetiringCarrierOpensNoFlow(s: Session, closed: bool, at: Endpoint, frame: Frame)
    requires !CarrierActive(s, at.carrier)
    ensures Dispatch(s, closed, at, frame).session.flows.Keys <= s.flows.Keys
    ensures Dispatch(s, closed, at, frame).session.nextFlow == s.nextFlow
  {
  }

  // ---------------------------------------------------------------- the dispatcher object

  class SessionFrameDispatcher {
    const endpoint: Endpoint
    var closed: bool

    constructor (endpoint: Endpoint)
      ensures this.endpoint == endpoint && !closed
    {
      this.endpoint := endpoint;
      closed := false;
    }

    /** Exhausting a 64-bit cursor aborts the process, so callers stay below it. */
    ghost predicate CursorRoom(session: SessionTracer, frame: Frame)
      reads this, session, session.transition, session.replay
    {
      frame.StreamData? && frame.sequence == U64_MAX ==>
        SessionModel.Receive(session.Model(),
          Segment(frame.flowId, frame.epoch, frame.sequence, frame.bytes)).1 != Ok(Delivered(frame.bytes))
    }

    method DispatchFrame(session: SessionTracer, frame: Frame)
      returns (result: Result<DispatchOutcome, DispatchError>)
      requires session.Valid() && CursorRoom(session, frame)
      modifies this, session, session.replay
      ensures session.Valid()
      ensures Dispatched(session.Model(), closed, result) ==
              Dispatch(old(session.Model()), old(closed), endpoint, frame)
    {
      if closed {
        return Err(Closed);
      }
      hide SessionValid, Total;
      match frame {
        case Attach(_, _, _, _, _) =>
          result := AttachCarrier(session, frame);
        case StreamOpen(flow) =>
          if !IsActive(session) {
            return Err(CarrierNotAttached);
          }
          var opening := session.OpenReliableFlowWithId(flow);
          result := if opening.Ok? then Ok(DispatchedOpen) else Err(TraceFailure(opening.error));
        case Offer(_) =>
          result := Err(UnexpectedFrame);
        case Accept(_) =>
          result := Err(UnexpectedFrame);
        case AttachAccepted(_, _, _) =>
          result := Err(UnexpectedFrame);
        case _ =>
          if !IsDispatchable(session) {
            return Err(CarrierNotAttached);
          }
          result := DispatchCarried(session, frame);
      }
    }

    predicate IsActive(session: SessionTracer)
      reads session, session.transition, session.replay
      ensures IsActive(session) <==> CarrierActive(session.Model(), endpoint.carrier)
    {
      && session.accepted.Some?
      && session.accepted.value.carrier == endpoint.carrier
      && session.accepted.value.epoch == session.transition.current
    }

    predicate IsDispatchable(session: SessionTracer)
      reads session, session.transition, session.replay
      ensures IsDispatchable(session) <==> CarrierDispatchable(session.Model(), endpoint.carrier)
    {
      || IsActive(session)
      || (session.retiringAttachment.Some?
          && session.retiringAttachment.value.carrier == endpoint.carrier)
    }

    method AttachCarrier(session: SessionTracer, frame: Frame)
      returns (result: Result<DispatchOutcome, DispatchError>)
      requires session.Valid() && frame.Attach?
      modifies session, session.replay
      ensures session.Valid()
      ensures Dispatched(session.Model(), false, result) ==
              AttachFrame(old(session.Model()), endpoint, frame)
    {
      if frame.sessionId != endpoint.sessionId {
        return Err(SessionMismatch);
      }
      hide SessionValid, Total;
      var acceptance := session.AuthenticateCarrierAttachment(
        endpoint.auth, endpoint.sessionId,
        AttachmentRequest(Attachment(endpoint.carrier, frame.epoch, frame.attachmentId),
                          frame.attachParameters, frame.proof));
      var response := AttachAccepted(endpoint.sessionId, frame.epoch, frame.attachmentId);
      match acceptance {
        case Ok(Accepted) => result := Ok(AttachmentAccepted(response));
        case Ok(AlreadyAccepted) => result := Ok(DispatchOutcome.AttachmentAlreadyAccepted(response));
        case Err(error) => result := Err(AttachmentFailure(error));
      }
    }

    method DispatchCarried(session: SessionTracer, frame: Frame)
      returns (result: Result<DispatchOutcome, DispatchError>)
      requires session.Valid() && CursorRoom(session, frame) && !closed
      requires !frame.Offer? && !frame.Accept? && !frame.Attach? && !frame.AttachAccepted?
      requires !frame.StreamOpen?
      modifies this, session
      ensures session.Valid()
      ensures Dispatched(session.Model(), closed, result) == CarriedFrame(old(session.Model()), frame)
    {
      hide SessionValid, Total;
      match frame {
        case StreamData(flow, epoch, sequence, bytes) =>
          var received := session.Receive(Segment(flow, epoch, sequence, bytes));
          result := if received.Ok? then Ok(DeliveryOutcome(received.value))
                    else Err(TraceFailure(received.error));
        case StreamAcknowledgement(flow, epoch, through) =>
          var applied := session.Acknowledge(Acknowledgement(flow, epoch, through));
          result := if applied.Ok? then Ok(Acknowledged) else Err(TraceFailure(applied.error));
        case StreamFinish(flow, epoch, finalNext) =>
          var applied := session.FinishReceiving(flow, epoch, finalNext);
          result := if applied.Ok? then Ok(DispatchedFinish) else Err(TraceFailure(applied.error));
        case StreamReset(flow, error) =>
          var applied := session.ResetReliableFlow(flow);
          result := if applied.Ok? then Ok(FlowReset(error)) else Err(TraceFailure(applied.error));
        case ConnectionClose(error) =>
          closed := true;
          result := Ok(ConnectionClosed(error));
        case UnknownOptional(_, _) =>
          result := Ok(OptionalFrameIgnored);
      }
    }
  }
}
