/** Whole histories of one session: any sequence of local calls and peer frames. */
module SessionHistory {
  import opened Common
  import opened ProtocolTypes
  import opened SessionModel
  import opened SessionInvariants
  import opened SessionDispatch

  datatype Op =
    | OpOpen
    | OpOpenWithId(id: FlowId)
    | OpClose(id: FlowId)
    | OpSend(id: FlowId, bytes: Bytes)
    | OpAcknowledge(ack: Acknowledgement)
    | OpReceive(segment: Segment)
    | OpFinish(id: FlowId, epoch: nat, finalNext: nat)
    | OpReset(id: FlowId)
    | OpAdvance(ticks: nat)
    | OpBegin
    | OpBeginExplained(from: CarrierClass, to: CarrierClass, reason: TransitionReason)
    | OpNegotiate(local: VersionRange, peer: VersionRange)
    | OpComplete
    | OpBind(parameters: NegotiatedParameters)
    | OpAttach(auth: Authenticator, sessionId: Id16, request: AttachmentRequest)
    | OpDispatcher(slot: nat, endpoint: Endpoint)
    | OpFrame(slot: nat, frame: Frame)

  /** One carrier's dispatcher: who it is, and whether the peer closed it. */
  datatype Slot = Slot(endpoint: Endpoint, closed: bool)

  /** A session, its dispatchers, and a log of every flow opened and carrier accepted. */
  datatype History = History(
    session: Session,
    slots: map<nat, Slot>,
    openedFlows: seq<FlowId>,
    attachments: seq<Attachment>)

  function Begin(epoch: nat, limits: FlowLimits): History {
    History(Fresh(epoch, limits), map[], [], [])
  }

  ghost function SessionStep(s: Session, op: Op): Session {
    match op
    case OpOpen => OpenFlow(s, s.nextFlow).0
    case OpOpenWithId(id) => OpenFlow(s, id).0
    case OpClose(id) => CloseFlow(s, id).0
    case OpSend(id, bytes) => Send(s, id, bytes).0
    case OpAcknowledge(ack) => Acknowledge(s, ack).0
    case OpReceive(segment) => Receive(s, segment).0
    case OpFinish(id, epoch, finalNext) => FinishReceiving(s, id, epoch, finalNext).0
    case OpReset(id) => ResetFlow(s, id).0
    case OpAdvance(ticks) => AdvanceTime(s, ticks)
    case OpBegin => BeginTransition(s).0
    case OpBeginExplained(from, to, reason) => BeginExplainedTransition(s, from, to, reason).0
    case OpNegotiate(local, peer) => NegotiateTransitionVersion(s, local, peer).0
    case OpComplete => CompleteTransition(s)
    case OpBind(parameters) => BindParameters(s, parameters).0
    case OpAttach(auth, sessionId, request) => Authenticate(s, auth, sessionId, request).0
    case OpDispatcher(_, _) => s
    case OpFrame(_, _) => s
  }

  /** The attachment this operation answers with a first acceptance, as its caller sees it. */
  ghost function Answered(h: History, op: Op): Option<Attachment> {
    if op.OpAttach? then
      if Authenticate(h.session, op.auth, op.sessionId, op.request).1 == Ok(Accepted)
      then Some(op.request.attachment) else None
    else if op.OpFrame? && op.slot in h.slots then
      var slot := h.slots[op.slot];
      var result := Dispatch(h.session, slot.closed, slot.endpoint, op.frame).result;
      if result.Ok? && result.value.AttachmentAccepted? && result.value.response.AttachAccepted? then
        Some(Attachment(slot.endpoint.carrier, result.value.response.epoch, result.value.response.attachmentId))
      else None
    else None
  }

  /** One step's entries in the logs: a new flow, a first acceptance. */
  function Log(h: History, next: Session, slots: map<nat, Slot>, answered: Option<Attachment>): History {
    History(next, slots,
            if next.nextFlow > h.session.nextFlow then h.openedFlows + [next.nextFlow - 1]
            else h.openedFlows,
            if answered.Some? then h.attachments + [answered.value] else h.attachments)
  }

  ghost function Step(h: History, op: Op): History {
    if op.OpDispatcher? then h.(slots := h.slots[op.slot := Slot(op.endpoint, false)])
    else if op.OpFrame? then
      if op.slot !in h.slots then h
      else
        var slot := h.slots[op.slot];
        var d := Dispatch(h.session, slot.closed, slot.endpoint, op.frame);
        Log(h, d.session, h.slots[op.slot := slot.(closed := d.closed)], Answered(h, op))
    else Log(h, SessionStep(h.session, op), h.slots, Answered(h, op))
  }

  ghost function Execute(h: History, ops: seq<Op>): History
    decreases |ops|
  {
    if ops == [] then h else Execute(Step(h, ops[0]), ops[1..])
  }

  // ---------------------------------------------------------------- invariants

  lemma SessionStepValid(s: Session, op: Op)
    requires SessionValid(s)
    ensures SessionValid(SessionStep(s, op))
  {
    hide SessionValid;
    match op
    case OpOpen => OpenFlowValid(s, s.nextFlow);
    case OpOpenWithId(id) => OpenFlowValid(s, id);
    case OpClose(id) => CloseFlowValid(s, id);
    case OpSend(id, bytes) => SendValid(s, id, bytes);
    case OpAcknowledge(ack) => AcknowledgeValid(s, ack);
    case OpReceive(segment) => ReceiveValid(s, segment);
    case OpFinish(id, epoch, finalNext) => FinishReceivingValid(s, id, epoch, finalNext);
    case OpReset(id) => ResetFlowValid(s, id);
    case OpAdvance(ticks) => AdvanceTimeValid(s, ticks);
    case OpBegin => BeginTransitionValid(s);
    case OpBeginExplained(from, to, reason) =>
      BeginTransitionValid(s);
      RecordValid(BeginTransition(s).0, [TransitionStarted(from, to, reason)]);
    case OpNegotiate(_, _) => RecordValid(s, [TransitionRejected(IncompatibleVersion)]);
    case OpComplete => CompleteTransitionValid(s);
    case OpBind(parameters) => BindParametersValid(s, parameters);
    case OpAttach(auth, sessionId, request) => AuthenticateValid(s, auth, sessionId, request);
    case OpDispatcher(_, _) =>
    case OpFrame(_, _) =>
  }

  lemma CloseFlowValid(s: Session, id: FlowId)
    requires SessionValid(s)
    ensures SessionValid(CloseFlow(s, id).0)
  {
    ResetFlowValid(s, id);
  }

  ghost predicate EpochsAscend(attachments: seq<Attachment>) {
    forall i, j | 0 <= i < j < |attachments| :: attachments[i].epoch < attachments[j].epoch
  }

  ghost predicate IdsAscend(ids: seq<FlowId>) {
    forall i, j | 0 <= i < j < |ids| :: ids[i] < ids[j]
  }

  /**
   * The logs agree with the session: flow identifiers are handed out in strictly
   * ascending order, accepted attachments have strictly ascending epochs, and
   * the replay window and the held attachment are those of the last one.
   */
  ghost predicate LogsValid(h: History) {
    && FlowLogValid(h.session, h.openedFlows)
    && AttachmentLogValid(h.session, h.attachments)
  }

  ghost predicate FlowLogValid(s: Session, ids: seq<FlowId>) {
    && IdsAscend(ids)
    && (forall id <- ids :: id < s.nextFlow)
    && (forall id <- s.flows :: id in ids)
  }

  ghost predicate AttachmentLogValid(s: Session, attachments: seq<Attachment>) {
    && EpochsAscend(attachments)
    && (attachments == [] ==> s.replay == None)
    && (attachments != [] ==> s.replay == Some(attachments[|attachments| - 1].epoch))
    && (s.accepted.Some? ==> attachments != [] && s.accepted.value == attachments[|attachments| - 1])
    && (s.retiringAttachment.Some? ==> s.retiringAttachment.value in attachments)
  }

  ghost predicate HistoryValid(h: History) {
    SessionValid(h.session) && LogsValid(h)
  }

  /** How the flow table and the attachment state can move in one step. */
  ghost predicate SmallMove(s: Session, t: Session) {
    && (|| (t.nextFlow == s.nextFlow && t.flows.Keys <= s.flows.Keys)
        || (s.nextFlow < t.nextFlow && t.flows.Keys <= s.flows.Keys + {t.nextFlow - 1}))
    && (t.retiringAttachment in {s.retiringAttachment, s.accepted, None})
    && (|| (t.replay == s.replay && (t.accepted == s.accepted || t.accepted == None))
        || (t.accepted.Some? && t.replay == Some(t.accepted.value.epoch)
            && (s.replay.Some? ==> s.replay.value < t.accepted.value.epoch)))
  }

  lemma OpenMoves(s: Session, id: FlowId)
    requires SessionValid(s)
    ensures SmallMove(s, OpenFlow(s, id).0)
  {
  }

  lemma AuthenticateMoves(s: Session, auth: Authenticator, sessionId: Id16, request: AttachmentRequest)
    requires SessionValid(s)
    ensures SmallMove(s, Authenticate(s, auth, sessionId, request).0)
  {
  }

  lemma SessionStepMoves(s: Session, op: Op)
    requires SessionValid(s)
    ensures SmallMove(s, SessionStep(s, op))
  {
    hide SessionValid;
    if op.OpOpen? {
      OpenMoves(s, s.nextFlow);
    } else if op.OpOpenWithId? {
      OpenMoves(s, op.id);
    } else if op.OpAttach? {
      AuthenticateMoves(s, op.auth, op.sessionId, op.request);
    }
  }

  lemma DispatchMoves(s: Session, closed: bool, at: Endpoint, frame: Frame)
    requires SessionValid(s)
    ensures SmallMove(s, Dispatch(s, closed, at, frame).session)
  {
    hide SessionValid;
    if frame.StreamOpen? {
      OpenMoves(s, frame.flowId);
    } else if frame.Attach? {
      AuthenticateMoves(s, at.auth, at.sessionId,
        AttachmentRequest(Attachment(at.carrier, frame.epoch, frame.attachmentId),
                          frame.attachParameters, frame.proof));
    }
  }

  /** An acceptance is answered exactly when the replay window moves, and names the attachment then held. */
  ghost predicate AnswerShows(s: Session, next: Session, answered: Option<Attachment>) {
    answered == if next.replay != s.replay then next.accepted else None
  }

  lemma AuthenticateAnswers(s: Session, auth: Authenticator, sessionId: Id16, request: AttachmentRequest)
    requires SessionValid(s)
    ensures var (next, result) := Authenticate(s, auth, sessionId, request);
      AnswerShows(s, next, if result == Ok(Accepted) then Some(request.attachment) else None)
  {
  }

  lemma StepAnswers(h: History, op: Op)
    requires SessionValid(h.session) && !op.OpDispatcher? && (op.OpFrame? ==> op.slot in h.slots)
    ensures AnswerShows(h.session, Step(h, op).session, Answered(h, op))
  {
    hide SessionValid, Authenticate;
    if op.OpAttach? {
      AuthenticateAnswers(h.session, op.auth, op.sessionId, op.request);
    } else if op.OpFrame? && op.frame.Attach? {
      var at := h.slots[op.slot].endpoint;
      AuthenticateAnswers(h.session, at.auth, at.sessionId,
        AttachmentRequest(Attachment(at.carrier, op.frame.epoch, op.frame.attachmentId),
                          op.frame.attachParameters, op.frame.proof));
    }
  }

  lemma LogKeepsFlowLog(h: History, next: Session, slots: map<nat, Slot>, answered: Option<Attachment>)
    requires FlowLogValid(h.session, h.openedFlows) && SmallMove(h.session, next)
    ensures FlowLogValid(next, Log(h, next, slots, answered).openedFlows)
  {
    var ids := Log(h, next, slots, answered).openedFlows;
    forall id <- next.flows ensures id in ids {
      if id in h.session.flows {
        assert id in h.openedFlows;
      }
    }
    forall i, j | 0 <= i < j < |ids| ensures ids[i] < ids[j] {
      assert ids[i] in h.openedFlows;
    }
  }

  lemma LogKeepsLogs(h: History, next: Session, slots: map<nat, Slot>, answered: Option<Attachment>)
    requires LogsValid(h) && SmallMove(h.session, next) && AnswerShows(h.session, next, answered)
    ensures LogsValid(Log(h, next, slots, answered))
  {
    LogKeepsFlowLog(h, next, slots, answered);
    hide FlowLogValid;
    assert EpochsAscend(Log(h, next, slots, answered).attachments);
  }

  lemma StepValid(h: History, op: Op)
    requires HistoryValid(h)
    ensures HistoryValid(Step(h, op))
  {
    hide SessionValid, LogsValid, SmallMove, AnswerShows, Answered, Dispatch, SessionStep;
    if op.OpDispatcher? {
      SlotsAreNotLogged(h, h.slots[op.slot := Slot(op.endpoint, false)]);
    } else if op.OpFrame? {
      if op.slot in h.slots {
        var slot := h.slots[op.slot];
        var d := Dispatch(h.session, slot.closed, slot.endpoint, op.frame);
        DispatchValid(h.session, slot.closed, slot.endpoint, op.frame);
        DispatchMoves(h.session, slot.closed, slot.endpoint, op.frame);
        StepAnswers(h, op);
        LogKeepsLogs(h, d.session, h.slots[op.slot := slot.(closed := d.closed)], Answered(h, op));
      }
    } else {
      SessionStepValid(h.session, op);
      SessionStepMoves(h.session, op);
      StepAnswers(h, op);
      LogKeepsLogs(h, SessionStep(h.session, op), h.slots, Answered(h, op));
    }
  }

  lemma SlotsAreNotLogged(h: History, slots: map<nat, Slot>)
    requires LogsValid(h)
    ensures LogsValid(h.(slots := slots))
  {
  }

  lemma {:induction false} ExecuteValid(h: History, ops: seq<Op>)
    requires HistoryValid(h)
    ensures HistoryValid(Execute(h, ops))
    decreases |ops|
  {
    hide HistoryValid;
    if ops != [] {
      StepValid(h, ops[0]);
      ExecuteValid(Step(h, ops[0]), ops[1..]);
    }
  }

  /** Every history of a session keeps all of its invariants. */
  lemma EveryHistoryIsValid(epoch: nat, limits: FlowLimits, ops: seq<Op>)
    requires limits.Positive()
    ensures HistoryValid(Execute(Begin(epoch, limits), ops))
  {
    FreshValid(epoch, limits);
    ExecuteValid(Begin(epoch, limits), ops);
  }

  /**
   * Whatever happened before, a frame that changes any flow came from a carrier
   * whose attachment was accepted for the current or the retiring epoch.
   */
  lemma EffectsNeedAnAcceptedCarrier(
      epoch: nat, limits: FlowLimits, ops: seq<Op>, slot: nat, frame: Frame)
    requires limits.Positive()
    requires slot in Execute(Begin(epoch, limits), ops).slots
    requires var h := Execute(Begin(epoch, limits), ops);
      Step(h, OpFrame(slot, frame)).session.flows != h.session.flows
    ensures var h := Execute(Begin(epoch, limits), ops);
      exists a <- h.attachments ::
        a.carrier == h.slots[slot].endpoint.carrier && InWindow(h.session, a.epoch)
  {
    var h := Execute(Begin(epoch, limits), ops);
    EveryHistoryIsValid(epoch, limits, ops);
    hide FlowsValid;
    var at := h.slots[slot].endpoint;
    if !CarrierDispatchable(h.session, at.carrier) {
      UnattachedCarrierTouchesNoFlow(h.session, h.slots[slot].closed, at, frame);
    } else if CarrierActive(h.session, at.carrier) {
      assert h.session.accepted.value in h.attachments;
    } else {
      assert h.session.retiringAttachment.value in h.attachments;
    }
  }

  /** No two acceptances ever share an epoch, whichever carrier or identifier they name. */
  lemma OneAttachmentPerEpoch(epoch: nat, limits: FlowLimits, ops: seq<Op>, i: nat, j: nat)
    requires limits.Positive()
    requires i < |Execute(Begin(epoch, limits), ops).attachments|
    requires j < |Execute(Begin(epoch, limits), ops).attachments|
    ensures var attachments := Execute(Begin(epoch, limits), ops).attachments;
      attachments[i].epoch == attachments[j].epoch <==> i == j
  {
    EveryHistoryIsValid(epoch, limits, ops);
  }

  /**
   * A lost acceptance can be asked for again: repeating an accepted request
   * changes nothing, while any other claim to the same epoch is a replay.
   */
  lemma RetransmissionIsIdempotent(
      s: Session, auth: Authenticator, sessionId: Id16, request: AttachmentRequest, other: AttachmentRequest)
    requires SessionValid(s)
    requires Authenticate(s, auth, sessionId, request).1.Ok?
    requires other.attachment != request.attachment && other.attachment.epoch == s.current
    ensures var after := Authenticate(s, auth, sessionId, request).0;
      && Authenticate(after, auth, sessionId, request) == (after, Ok(AlreadyAccepted))
      && Authenticate(after, auth, sessionId, other).1.Err?
      && Authenticate(after, auth, sessionId, other).0.(events := after.events) == after
  {
    hide FlowsValid;
  }

  // ---------------------------------------------------------------- cursors over a history

  /** Cursors only advance, and a recorded end of stream is never moved. */
  ghost predicate CursorsAdvance(before: Flow, after: Flow) {
    && before.nextSend <= after.nextSend
    && before.nextReceive <= after.nextReceive
    && (before.finalNext.Some? ==> after.finalNext == before.finalNext)
  }

  ghost predicate TableAdvances(s: Session, t: Session) {
    forall id <- s.flows | id in t.flows :: CursorsAdvance(s.flows[id], t.flows[id])
  }

  lemma SessionStepAdvances(s: Session, op: Op)
    requires SessionValid(s)
    ensures TableAdvances(s, SessionStep(s, op))
  {
    hide SessionStep, SessionValid, TableAdvances;
    if OnFlows(op) {
      FlowStepAdvances(s, op);
    } else {
      ControlStepAdvances(s, op);
    }
  }

  predicate OnFlows(op: Op) {
    || op.OpOpen? || op.OpOpenWithId? || op.OpClose? || op.OpSend? || op.OpAcknowledge?
    || op.OpReceive? || op.OpFinish? || op.OpReset? || op.OpAdvance?
  }

  lemma FlowStepAdvances(s: Session, op: Op)
    requires SessionValid(s) && OnFlows(op)
    ensures TableAdvances(s, SessionStep(s, op))
  {
    hide Total, FlowValid;
  }

  /** Transitions, negotiation and attachment leave every flow alone. */
  lemma ControlStepAdvances(s: Session, op: Op)
    requires !OnFlows(op)
    ensures TableAdvances(s, SessionStep(s, op))
  {
    hide Authenticate;
    if op.OpAttach? {
      AuthenticateKeepsFlows(s, op.auth, op.sessionId, op.request);
    }
  }

  lemma AuthenticateKeepsFlows(s: Session, auth: Authenticator, sessionId: Id16, request: AttachmentRequest)
    ensures Authenticate(s, auth, sessionId, request).0.flows == s.flows
  {
  }

  lemma StepAdvances(h: History, op: Op)
    requires HistoryValid(h)
    ensures TableAdvances(h.session, Step(h, op).session)
    ensures SmallMove(h.session, Step(h, op).session)
  {
    hide SessionValid, SmallMove, TableAdvances;
    if op.OpFrame? && op.slot in h.slots {
      var slot := h.slots[op.slot];
      DispatchMoves(h.session, slot.closed, slot.endpoint, op.frame);
      DispatchAdvances(h.session, slot.closed, slot.endpoint, op.frame);
    } else if !op.OpFrame? && !op.OpDispatcher? {
      SessionStepMoves(h.session, op);
      SessionStepAdvances(h.session, op);
    } else {
      StayingMoves(h.session);
    }
  }

  lemma StayingMoves(s: Session)
    ensures TableAdvances(s, s) && SmallMove(s, s)
  {
  }

  lemma DispatchAdvances(s: Session, closed: bool, at: Endpoint, frame: Frame)
    requires SessionValid(s)
    ensures TableAdvances(s, Dispatch(s, closed, at, frame).session)
  {
    hide Total, FlowValid;
  }

  /** A flow that is gone stays gone: its identifier is never handed out again. */
  lemma {:induction false} GoneForGood(h: History, ops: seq<Op>, id: FlowId)
    requires HistoryValid(h) && id < h.session.nextFlow && id !in h.session.flows
    ensures id !in Execute(h, ops).session.flows
    decreases |ops|
  {
    hide HistoryValid, TableAdvances;
    if ops != [] {
      StepValid(h, ops[0]);
      StepAdvances(h, ops[0]);
      GoneForGood(Step(h, ops[0]), ops[1..], id);
    }
  }

  /** Over any history, for a flow alive before and after. */
  lemma {:induction false} CursorsNeverRetreat(h: History, ops: seq<Op>, id: FlowId)
    requires HistoryValid(h)
    requires id in h.session.flows && id in Execute(h, ops).session.flows
    ensures CursorsAdvance(h.session.flows[id], Execute(h, ops).session.flows[id])
    decreases |ops|
  {
    if ops != [] {
      var next := Step(h, ops[0]);
      StepValid(h, ops[0]);
      StepAdvances(h, ops[0]);
      IdsBelowNext(h, id);
      hide HistoryValid;
      if id in next.session.flows {
        CursorsNeverRetreat(next, ops[1..], id);
      } else {
        GoneForGood(next, ops[1..], id);
      }
    }
  }

  lemma IdsBelowNext(h: History, id: FlowId)
    requires HistoryValid(h) && id in h.session.flows
    ensures id < h.session.nextFlow
  {
  }

  // ---------------------------------------------------------------- closed carriers

  ghost predicate Reopens(ops: seq<Op>, slot: nat) {
    exists i :: 0 <= i < |ops| && ops[i].OpDispatcher? && ops[i].slot == slot
  }

  /**
   * A closed dispatcher stays closed, and until it is replaced none of its
   * frames has any effect: removing them from the history changes nothing.
   */
  ghost function WithoutFrames(ops: seq<Op>, slot: nat): seq<Op> {
    if ops == [] then []
    else
      (if ops[0].OpFrame? && ops[0].slot == slot then [] else [ops[0]])
      + WithoutFrames(ops[1..], slot)
  }

  lemma {:induction false} CloseIsAbsorbing(h: History, ops: seq<Op>, slot: nat)
    requires slot in h.slots && h.slots[slot].closed
    requires !Reopens(ops, slot)
    ensures Execute(h, WithoutFrames(ops, slot)) == Execute(h, ops)
    ensures slot in Execute(h, ops).slots && Execute(h, ops).slots[slot].closed
    decreases |ops|
  {
    if ops != [] {
      var op, rest := ops[0], ops[1..];
      assert forall i | 0 <= i < |rest| :: rest[i] == ops[i + 1];
      assert !Reopens(rest, slot);
      var next := Step(h, op);
      if op.OpFrame? && op.slot == slot {
        assert h.slots[slot := h.slots[slot].(closed := true)] == h.slots;
        assert next == h;
        CloseIsAbsorbing(h, rest, slot);
        assert WithoutFrames(ops, slot) == WithoutFrames(rest, slot);
      } else {
        CloseIsAbsorbing(next, rest, slot);
        assert WithoutFrames(ops, slot) == [op] + WithoutFrames(rest, slot);
        assert WithoutFrames(ops, slot)[1..] == WithoutFrames(rest, slot);
      }
    }
  }

  /** A connection close on this slot that is answered with success. */
  ghost predicate AnswersClose(h: History, op: Op, slot: nat) {
    && op.OpFrame? && op.slot == slot && slot in h.slots && op.frame.ConnectionClose?
    && Dispatch(h.session, h.slots[slot].closed, h.slots[slot].endpoint, op.frame).result.Ok?
  }

  /**
   * After an answered connection close, until the slot is given a new
   * dispatcher, every frame on it is answered with Closed and changes nothing.
   */
  lemma CloseSilencesTheCarrier(h: History, close: Op, ops: seq<Op>, slot: nat, frame: Frame)
    requires AnswersClose(h, close, slot) && !Reopens(ops, slot)
    ensures var later := Execute(Step(h, close), ops);
      && slot in later.slots
      && Dispatch(later.session, later.slots[slot].closed, later.slots[slot].endpoint, frame).result == Err(Closed)
      && Step(later, OpFrame(slot, frame)) == later
  {
    AnsweredCloseCloses(h, close, slot);
    CloseIsAbsorbing(Step(h, close), ops, slot);
    ClosedSlotIsDeaf(Execute(Step(h, close), ops), slot, frame);
  }

  lemma AnsweredCloseCloses(h: History, close: Op, slot: nat)
    requires AnswersClose(h, close, slot)
    ensures slot in Step(h, close).slots && Step(h, close).slots[slot].closed
  {
  }

  lemma ClosedSlotIsDeaf(h: History, slot: nat, frame: Frame)
    requires slot in h.slots && h.slots[slot].closed
    ensures Dispatch(h.session, h.slots[slot].closed, h.slots[slot].endpoint, frame).result == Err(Closed)
    ensures Step(h, OpFrame(slot, frame)) == h
  {
    assert h.slots[slot := h.slots[slot].(closed := true)] == h.slots;
  }

  /** The slot was closed by operation `i`, and has kept its dispatcher since. */
  ghost predicate ClosedAt(h: History, ops: seq<Op>, slot: nat, i: nat) {
    i < |ops| && AnswersClose(Execute(h, ops[..i]), ops[i], slot) && !Reopens(ops[i + 1..], slot)
  }

  lemma OneStepCloses(h: History, op: Op, slot: nat)
    requires slot in Step(h, op).slots && Step(h, op).slots[slot].closed
    ensures AnswersClose(h, op, slot)
      || (slot in h.slots && h.slots[slot].closed && !(op.OpDispatcher? && op.slot == slot))
  {
  }

  /** Conversely, nothing else closes a slot. */
  lemma {:induction false} ClosedOnlyByClose(h: History, ops: seq<Op>, slot: nat)
    requires slot in Execute(h, ops).slots && Execute(h, ops).slots[slot].closed
    ensures (slot in h.slots && h.slots[slot].closed && !Reopens(ops, slot))
      || exists i: nat :: ClosedAt(h, ops, slot, i)
    decreases |ops|
  {
    hide Step, AnswersClose;
    if ops != [] {
      var next, rest := Step(h, ops[0]), ops[1..];
      ClosedOnlyByClose(next, rest, slot);
      if i: nat :| ClosedAt(next, rest, slot, i) {
        LaterPrefix(h, ops, i);
        assert ClosedAt(h, ops, slot, i + 1);
      } else {
        OneStepCloses(h, ops[0], slot);
        if AnswersClose(h, ops[0], slot) {
          assert ops[..0] == [];
          assert ClosedAt(h, ops, slot, 0);
        } else {
          assert forall k | 0 < k < |ops| :: ops[k] == rest[k - 1];
        }
      }
    }
  }

  lemma LaterPrefix(h: History, ops: seq<Op>, i: nat)
    requires i < |ops| - 1
    ensures Execute(h, ops[..i + 1]) == Execute(Step(h, ops[0]), ops[1..][..i])
    ensures ops[i + 1] == ops[1..][i] && ops[i + 2..] == ops[1..][i + 1..]
  {
    hide Step;
    assert ops[..i + 1][1..] == ops[1..][..i];
  }
}
