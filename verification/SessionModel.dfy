/**
 * The meaning of every session operation, on values.
 *
 * A session value holds no aggregate counters: how much is pending is always
 * the sum over the flows, release removes exactly the acknowledged segments,
 * and expiry looks at every pending segment.  `SessionTracer` computes the
 * same transitions with running counters, front-of-queue pops and loops.
 */
module SessionModel {
  import opened Common
  import opened ProtocolTypes

  datatype Segment = Segment(flow: FlowId, epoch: nat, sequence: nat, bytes: Bytes)

  datatype Acknowledgement = Acknowledgement(flow: FlowId, epoch: nat, through: nat)

  datatype FlowLimits = FlowLimits(
    maxFlows: nat,
    maxPendingSegments: nat,
    maxPendingBytes: nat,
    maxSessionPendingSegments: nat,
    maxSessionPendingBytes: nat,
    maxPendingAge: nat,
    maxEvents: nat)
  {
    predicate Positive() {
      && 0 < maxFlows && 0 < maxPendingSegments && 0 < maxPendingBytes
      && 0 < maxSessionPendingSegments && 0 < maxSessionPendingBytes
      && 0 < maxPendingAge && 0 < maxEvents
    }
  }

  datatype TraceError =
    | UnknownFlow
    | FlowLimit
    | PendingSegmentLimit
    | PendingByteLimit
    | SessionPendingSegmentLimit
    | SessionPendingByteLimit
    | FlowHasPendingSegments
    | FlowFinished
    | InvalidAcknowledgement
    | TransitionInProgress
    | StaleEpoch
    | FutureEpoch

  datatype ReceiveResult = Delivered(bytes: Bytes) | Duplicate | OutOfOrder

  datatype PendingSegment = PendingSegment(segment: Segment, expiresAt: nat)

  datatype Flow = Flow(
    nextSend: nat,
    nextReceive: nat,
    finalNext: Option<nat>,
    pending: seq<PendingSegment>,
    pendingBytes: nat)

  const NewFlow := Flow(0, 0, None, [], 0)

  datatype CarrierClass = Quic | Tls

  datatype TransitionReason =
    PrimaryUnhealthy | PrimaryRecovered | LossThresholdExceeded | LatencyThresholdExceeded

  datatype TransitionRejection =
    IncompatibleVersion | DatagramFlow | FlowControlExhausted | AttachmentRejected

  datatype SessionEvent =
    | FlowOpened
    | FlowTimedOut
    | PendingLimitReached
    | DuplicateIgnored
    | OutOfOrderRejected
    | TransitionStarted(from: CarrierClass, to: CarrierClass, reason: TransitionReason)
    | TransitionCompleted
    | TransitionRejected(rejection: TransitionRejection)

  type CarrierId = u64

  datatype Attachment = Attachment(carrier: CarrierId, epoch: nat, attachmentId: NonZeroId16)

  /** A carrier's request to become the session's current carrier. */
  datatype AttachmentRequest = AttachmentRequest(
    attachment: Attachment, parameters: NegotiatedParameters, proof: Proof)

  datatype AttachmentError =
    | MissingNegotiation
    | NegotiationMismatch
    | InvalidProof
    | AttachmentStaleEpoch
    | AttachmentFutureEpoch
    | Replay

  datatype AttachmentAcceptance = Accepted | AlreadyAccepted

  datatype BindingError = AlreadyBound | AttachmentAlreadyAccepted

  /** Proof verification is an arbitrary predicate of the authenticated transcript. */
  datatype Authenticator = Authenticator(
    verifies: (Id16, nat, NonZeroId16, NegotiatedParameters, Proof) -> bool)

  datatype EpochValidity = Current | Retiring | Stale | Future

  datatype Session = Session(
    current: nat,
    retiring: Option<nat>,
    replay: Option<nat>,
    negotiated: Option<NegotiatedParameters>,
    accepted: Option<Attachment>,
    retiringAttachment: Option<Attachment>,
    tick: nat,
    nextFlow: u64,
    limits: FlowLimits,
    flows: map<FlowId, Flow>,
    events: seq<SessionEvent>)

  function Fresh(epoch: nat, limits: FlowLimits): Session {
    Session(epoch, None, None, None, None, None, 0, 0, limits, map[], [])
  }

  // ---------------------------------------------------------------- sizes

  function BytesOf(pending: seq<PendingSegment>): nat {
    if pending == [] then 0 else |pending[0].segment.bytes| + BytesOf(pending[1..])
  }

  datatype Measure = Segments | Bytes {
    function Of(flow: Flow): nat {
      if Segments? then |flow.pending| else BytesOf(flow.pending)
    }
  }

  /** The measure of everything pending, summed over all flows. */
  ghost function Total(m: Measure, flows: map<FlowId, Flow>): nat
    decreases |flows|
  {
    if flows == map[] then 0
    else
      var id :| id in flows;
      m.Of(flows[id]) + Total(m, flows - {id})
  }

  // ---------------------------------------------------------------- events

  /** The last `max` entries of a history. */
  function Retain(history: seq<SessionEvent>, max: nat): seq<SessionEvent> {
    if |history| <= max then history else history[|history| - max..]
  }

  function Record(s: Session, more: seq<SessionEvent>): Session {
    s.(events := Retain(s.events + more, s.limits.maxEvents))
  }

  // ---------------------------------------------------------------- epochs

  function Validity(current: nat, retiring: Option<nat>, epoch: nat): EpochValidity {
    if epoch == current then Current
    else if retiring == Some(epoch) then Retiring
    else if epoch < current then Stale
    else Future
  }

  /** The receive window: the current epoch and at most one retiring epoch. */
  predicate InWindow(s: Session, epoch: nat) {
    epoch == s.current || s.retiring == Some(epoch)
  }

  function WindowError(s: Session, epoch: nat): TraceError
    requires !InWindow(s, epoch)
  {
    if epoch < s.current then StaleEpoch else FutureEpoch
  }

  // ---------------------------------------------------------------- flows

  function OpenFlow(s: Session, id: FlowId): (Session, Result<(), TraceError>) {
    if |s.flows| >= s.limits.maxFlows then (s, Err(FlowLimit))
    else if id < s.nextFlow || id == U64_MAX then (s, Err(FlowFinished))
    else (Record(s.(nextFlow := id + 1, flows := s.flows[id := NewFlow]), [FlowOpened]), Ok(()))
  }

  function CloseFlow(s: Session, id: FlowId): (Session, Result<(), TraceError>) {
    if id !in s.flows then (s, Err(UnknownFlow))
    else if s.flows[id].pending != [] then (s, Err(FlowHasPendingSegments))
    else (s.(flows := s.flows - {id}), Ok(()))
  }

  function ResetFlow(s: Session, id: FlowId): (Session, Result<(), TraceError>) {
    if id !in s.flows then (s, Err(UnknownFlow)) else (s.(flows := s.flows - {id}), Ok(()))
  }

  function Enqueue(flow: Flow, segment: Segment, expiresAt: nat): Flow {
    var pending := flow.pending + [PendingSegment(segment, expiresAt)];
    flow.(nextSend := flow.nextSend + 1, pending := pending, pendingBytes := BytesOf(pending))
  }

  /** The limit a payload would break, if any; session limits are reported first. */
  ghost function SendRefusal(s: Session, flow: Flow, bytes: Bytes): Option<TraceError> {
    if Total(Segments, s.flows) + 1 > s.limits.maxSessionPendingSegments then
      Some(SessionPendingSegmentLimit)
    else if Total(Measure.Bytes, s.flows) + |bytes| > s.limits.maxSessionPendingBytes then
      Some(SessionPendingByteLimit)
    else if |flow.pending| + 1 > s.limits.maxPendingSegments then Some(PendingSegmentLimit)
    else if BytesOf(flow.pending) + |bytes| > s.limits.maxPendingBytes then Some(PendingByteLimit)
    else None
  }

  ghost function Send(s: Session, id: FlowId, bytes: Bytes): (Session, Result<Segment, TraceError>) {
    if id !in s.flows then (s, Err(UnknownFlow))
    else
      var refusal := SendRefusal(s, s.flows[id], bytes);
      if refusal.Some? then (Record(s, [PendingLimitReached]), Err(refusal.value))
      else
        var segment := Segment(id, s.current, s.flows[id].nextSend, bytes);
        var flow := Enqueue(s.flows[id], segment, s.tick + s.limits.maxPendingAge);
        (s.(flows := s.flows[id := flow]), Ok(segment))
  }

  /** The pending segments a cumulative acknowledgement does not cover. */
  function Uncovered(pending: seq<PendingSegment>, through: nat): seq<PendingSegment> {
    if pending == [] then []
    else
      (if pending[0].segment.sequence <= through then [] else [pending[0]])
      + Uncovered(pending[1..], through)
  }

  /** Some covered segment was sent on an epoch newer than the acknowledgement's. */
  predicate CoversNewerEpoch(pending: seq<PendingSegment>, ack: Acknowledgement) {
    exists p <- pending :: p.segment.sequence <= ack.through && p.segment.epoch > ack.epoch
  }

  function Acknowledge(s: Session, ack: Acknowledgement): (Session, Result<(), TraceError>) {
    if !InWindow(s, ack.epoch) then (s, Err(WindowError(s, ack.epoch)))
    else if ack.flow !in s.flows then (s, Err(UnknownFlow))
    else
      var flow := s.flows[ack.flow];
      if ack.through >= flow.nextSend || CoversNewerEpoch(flow.pending, ack) then
        (s, Err(InvalidAcknowledgement))
      else
        var pending := Uncovered(flow.pending, ack.through);
        (s.(flows := s.flows[ack.flow :=
           flow.(pending := pending, pendingBytes := BytesOf(pending))]), Ok(()))
  }

  function Receive(s: Session, segment: Segment): (Session, Result<ReceiveResult, TraceError>) {
    if !InWindow(s, segment.epoch) then (s, Err(WindowError(s, segment.epoch)))
    else if segment.flow !in s.flows then (s, Err(UnknownFlow))
    else
      var flow := s.flows[segment.flow];
      if flow.finalNext.Some? && segment.sequence >= flow.finalNext.value then
        (s, Err(FlowFinished))
      else if segment.sequence < flow.nextReceive then
        (Record(s, [DuplicateIgnored]), Ok(Duplicate))
      else if segment.sequence > flow.nextReceive then
        (Record(s, [OutOfOrderRejected]), Ok(OutOfOrder))
      else
        (s.(flows := s.flows[segment.flow := flow.(nextReceive := flow.nextReceive + 1)]),
         Ok(Delivered(segment.bytes)))
  }

  function FinishReceiving(s: Session, id: FlowId, epoch: nat, finalNext: nat)
    : (Session, Result<(), TraceError>)
  {
    if !InWindow(s, epoch) then (s, Err(WindowError(s, epoch)))
    else if id !in s.flows then (s, Err(UnknownFlow))
    else
      var flow := s.flows[id];
      if finalNext < flow.nextReceive then (s, Err(FlowFinished))
      else if flow.finalNext.Some? then
        (s, if flow.finalNext.value == finalNext then Ok(()) else Err(FlowFinished))
      else (s.(flows := s.flows[id := flow.(finalNext := Some(finalNext))]), Ok(()))
  }

  /** The segments waiting for acknowledgement, oldest first. */
  function Unacknowledged(flow: Flow): seq<Segment> {
    seq(|flow.pending|, i requires 0 <= i < |flow.pending| => flow.pending[i].segment)
  }

  /** The same segments reissued on the current epoch. */
  function Resume(s: Session, id: FlowId): Result<seq<Segment>, TraceError> {
    if id !in s.flows then Err(UnknownFlow)
    else
      var pending := s.flows[id].pending;
      Ok(seq(|pending|, i requires 0 <= i < |pending| =>
        pending[i].segment.(epoch := s.current)))
  }

  // ---------------------------------------------------------------- time

  /** The flows of which SOME pending segment has outlived its deadline. */
  ghost function Expired(flows: map<FlowId, Flow>, tick: nat): set<FlowId> {
    set id <- flows | exists p <- flows[id].pending :: p.expiresAt <= tick
  }

  ghost function DropExpired(flows: map<FlowId, Flow>, tick: nat): map<FlowId, Flow> {
    flows - Expired(flows, tick)
  }

  function TimeOuts(count: nat): seq<SessionEvent> {
    seq(count, _ => FlowTimedOut)
  }

  ghost function AdvanceTime(s: Session, ticks: nat): Session {
    var tick := s.tick + ticks;
    Record(s.(tick := tick, flows := DropExpired(s.flows, tick)),
           TimeOuts(|Expired(s.flows, tick)|))
  }

  // ---------------------------------------------------------------- transitions

  function BeginTransition(s: Session): (Session, Result<nat, TraceError>) {
    if s.retiring.Some? then (s, Err(TransitionInProgress))
    else
      (s.(current := s.current + 1, retiring := Some(s.current),
          accepted := None, retiringAttachment := s.accepted),
       Ok(s.current + 1))
  }

  function BeginExplainedTransition(
      s: Session, from: CarrierClass, to: CarrierClass, reason: TransitionReason)
    : (Session, Result<nat, TraceError>)
  {
    var (next, result) := BeginTransition(s);
    if result.Err? then (next, result)
    else (Record(next, [TransitionStarted(from, to, reason)]), result)
  }

  function CompleteTransition(s: Session): Session {
    Record(s.(retiring := None, retiringAttachment := None), [TransitionCompleted])
  }

  /** A version shared by both peers, newest first; its absence is recorded. */
  function NegotiateTransitionVersion(s: Session, local: VersionRange, peer: VersionRange)
    : (Session, Option<u16>)
  {
    var version := local.Negotiate(peer);
    (if version.Some? then s else Record(s, [TransitionRejected(IncompatibleVersion)]), version)
  }

  // ---------------------------------------------------------------- attachments

  function BindParameters(s: Session, parameters: NegotiatedParameters)
    : (Session, Result<(), BindingError>)
  {
    if s.accepted.Some? || s.replay.Some? then (s, Err(AttachmentAlreadyAccepted))
    else if s.negotiated.Some? then (s, Err(AlreadyBound))
    else (s.(negotiated := Some(parameters)), Ok(()))
  }

  /** Why a request is refused, checked in the order the session checks it. */
  function AttachmentRefusal(
      s: Session, auth: Authenticator, sessionId: Id16, request: AttachmentRequest)
    : Option<AttachmentError>
  {
    var a := request.attachment;
    if s.negotiated.None? then Some(MissingNegotiation)
    else if request.parameters != s.negotiated.value then Some(NegotiationMismatch)
    else if a.epoch != s.current && (s.retiring == Some(a.epoch) || a.epoch < s.current) then
      Some(AttachmentStaleEpoch)
    else if a.epoch > s.current then Some(AttachmentFutureEpoch)
    else if !auth.verifies(sessionId, a.epoch, a.attachmentId, s.negotiated.value, request.proof) then
      Some(InvalidProof)
    else if s.accepted != Some(a) && s.replay.Some? && a.epoch <= s.replay.value then Some(Replay)
    else None
  }

  function Authenticate(
      s: Session, auth: Authenticator, sessionId: Id16, request: AttachmentRequest)
    : (Session, Result<AttachmentAcceptance, AttachmentError>)
  {
    var refusal := AttachmentRefusal(s, auth, sessionId, request);
    if refusal == Some(MissingNegotiation) then (s, Err(MissingNegotiation))
    else if refusal.Some? then
      (Record(s, [TransitionRejected(AttachmentRejected)]), Err(refusal.value))
    else if s.accepted == Some(request.attachment) then (s, Ok(AlreadyAccepted))
    else
      (s.(accepted := Some(request.attachment), replay := Some(request.attachment.epoch)),
       Ok(Accepted))
  }

  /** This carrier may carry every current-epoch frame. */
  predicate CarrierActive(s: Session, carrier: CarrierId) {
    s.accepted.Some? && s.accepted.value.carrier == carrier && s.accepted.value.epoch == s.current
  }

  /** This carrier may carry current frames, or in-flight frames of the retiring epoch. */
  predicate CarrierDispatchable(s: Session, carrier: CarrierId) {
    || CarrierActive(s, carrier)
    || (s.retiringAttachment.Some? && s.retiringAttachment.value.carrier == carrier)
  }
}
