/**
 * A sending session, any number of faulty carriers and a receiving session,
 * with logs of what was sent and what was delivered on every flow.
 */
module EndToEnd {
  import opened Common
  import opened ProtocolTypes
  import opened SessionModel
  import opened SessionInvariants
  import opened SessionHistory
  import opened FaultyCarrier
  import opened SessionDispatch

  type Ledger = map<FlowId, seq<Bytes>>

  datatype System = System(
    sender: History,
    receiver: History,
    carriers: map<nat, Carrier>,
    issued: seq<Segment>,      // every segment the sender ever handed to a carrier's owner
    arrived: seq<Segment>,     // handed over by carriers, not yet received
    sent: Ledger,
    delivered: Ledger)

  datatype Event =
    | AtSender(op: Op)
    | AtReceiver(op: Op)
    | Retransmit(flow: FlowId)
    | ResumeOn(flow: FlowId)
    | OpenCarrier(carrier: nat)
    | SetAvailable(carrier: nat, up: bool)
    | TransmitOn(carrier: nat, index: nat, disposition: Disposition)
    | AdvanceCarrier(carrier: nat, ticks: nat)
    | Arrive(index: nat)
    | Lose(index: nat)

  function LogOf(ledger: Ledger, id: FlowId): seq<Bytes> {
    if id in ledger then ledger[id] else []
  }

  function Append(ledger: Ledger, id: FlowId, bytes: Bytes): Ledger {
    ledger[id := LogOf(ledger, id) + [bytes]]
  }

  function Start(sender: History, receiver: History): System {
    System(sender, receiver, map[], [], [], map[], map[])
  }

  /** Data reaches the receiver only out of a carrier; every other call or frame is free. */
  predicate InjectsData(op: Op) {
    op.OpReceive? || (op.OpFrame? && op.frame.StreamData?)
  }

  ghost function SenderStep(sys: System, op: Op): System {
    var next := sys.(sender := Step(sys.sender, op));
    if op.OpSend? && Send(sys.sender.session, op.id, op.bytes).1.Ok? then
      next.(issued := next.issued + [Send(sys.sender.session, op.id, op.bytes).1.value],
            sent := Append(next.sent, op.id, op.bytes))
    else next
  }

  function ArriveStep(sys: System, index: nat): System
    requires index < |sys.arrived|
  {
    var segment := sys.arrived[index];
    var (session, result) := Receive(sys.receiver.session, segment);
    var next := sys.(
      receiver := sys.receiver.(session := session),
      arrived := sys.arrived[..index] + sys.arrived[index + 1..]);
    if result.Ok? && result.value.Delivered? then
      next.(delivered := Append(next.delivered, segment.flow, result.value.bytes))
    else next
  }

  function Reissue(s: Session, id: FlowId): seq<Segment> {
    var resumed := Resume(s, id);
    if resumed.Ok? then resumed.value else []
  }

  ghost function SystemStep(sys: System, event: Event): System {
    match event
    case AtSender(op) => SenderStep(sys, op)
    case AtReceiver(op) =>
      if InjectsData(op) then sys else sys.(receiver := Step(sys.receiver, op))
    case Retransmit(flow) =>
      if flow in sys.sender.session.flows then
        sys.(issued := sys.issued + Unacknowledged(sys.sender.session.flows[flow]))
      else sys
    case ResumeOn(flow) => sys.(issued := sys.issued + Reissue(sys.sender.session, flow))
    case OpenCarrier(carrier) => sys.(carriers := sys.carriers[carrier := NewCarrier])
    case SetAvailable(carrier, up) =>
      if carrier in sys.carriers then
        sys.(carriers := sys.carriers[carrier := sys.carriers[carrier].(available := up)])
      else sys
    case TransmitOn(carrier, index, disposition) =>
      if carrier in sys.carriers && index < |sys.issued| then
        sys.(carriers := sys.carriers[carrier :=
          AfterTransmit(sys.carriers[carrier], sys.issued[index], disposition)])
      else sys
    case AdvanceCarrier(carrier, ticks) =>
      if carrier in sys.carriers then
        var (next, ready) := AfterAdvance(sys.carriers[carrier], ticks);
        sys.(carriers := sys.carriers[carrier := next], arrived := sys.arrived + ready)
      else sys
    case Arrive(index) => if index < |sys.arrived| then ArriveStep(sys, index) else sys
    case Lose(index) =>
      if index < |sys.arrived| then
        sys.(arrived := sys.arrived[..index] + sys.arrived[index + 1..])
      else sys
  }

  ghost function Run(sys: System, events: seq<Event>): System
    decreases |events|
  {
    if events == [] then sys else Run(SystemStep(sys, events[0]), events[1..])
  }

  // ---------------------------------------------------------------- what one call moves

  /** Send cursors and queues are untouched; a flow that appears is brand new. */
  ghost predicate SendSideKept(s: Session, t: Session) {
    && s.nextFlow <= t.nextFlow
    && forall id <- t.flows ::
         if id in s.flows then
           t.flows[id].nextSend == s.flows[id].nextSend && t.flows[id].pending == s.flows[id].pending
         else t.flows[id] == NewFlow && s.nextFlow <= id < t.nextFlow
  }

  ghost predicate ReceiveSideKept(s: Session, t: Session) {
    && s.nextFlow <= t.nextFlow
    && forall id <- t.flows ::
         if id in s.flows then t.flows[id].nextReceive == s.flows[id].nextReceive
         else t.flows[id].nextReceive == 0 && s.nextFlow <= id < t.nextFlow
  }

  /** The acknowledgement an operation applies, if it is one. */
  function AcknowledgementOf(op: Op): Option<Acknowledgement> {
    if op.OpAcknowledge? then Some(op.ack)
    else if op.OpFrame? && op.frame.StreamAcknowledgement? then
      Some(Acknowledgement(op.frame.flowId, op.frame.epoch, op.frame.through))
    else None
  }

  /** An acknowledgement drops the covered front of one queue and nothing else. */
  ghost predicate Acknowledges(s: Session, t: Session, ack: Acknowledgement) {
    && t.nextFlow == s.nextFlow && t.flows.Keys == s.flows.Keys
    && forall id <- s.flows ::
         && t.flows[id].nextSend == s.flows[id].nextSend
         && (t.flows[id].pending == s.flows[id].pending
             || (id == ack.flow && t.flows[id].pending == Uncovered(s.flows[id].pending, ack.through)))
  }

  ghost predicate IdsBelow(s: Session) {
    forall id <- s.flows :: id < s.nextFlow
  }

  lemma ValidIdsBelow(h: History)
    requires HistoryValid(h)
    ensures IdsBelow(h.session)
  {
    hide FlowValid, Total;
  }

  lemma SenderKeeps(h: History, op: Op)
    requires IdsBelow(h.session) && AcknowledgementOf(op).None?
    requires op.OpSend? ==> Send(h.session, op.id, op.bytes).1.Err?
    ensures SendSideKept(h.session, Step(h, op).session)
  {
    if op.OpFrame? && op.slot in h.slots {
      FrameKeepsSendSide(h.session, h.slots[op.slot], op.frame);
    } else if !op.OpFrame? && !op.OpDispatcher? {
      CallKeepsSendSide(h.session, op);
    }
    hide Dispatch, SessionStep;
  }

  lemma CallKeepsSendSide(s: Session, op: Op)
    requires IdsBelow(s) && !op.OpAcknowledge?
    requires op.OpSend? ==> Send(s, op.id, op.bytes).1.Err?
    ensures SendSideKept(s, SessionStep(s, op))
  {
    hide Total, SendRefusal;
  }

  lemma FrameKeepsSendSide(s: Session, slot: Slot, frame: Frame)
    requires IdsBelow(s) && !frame.StreamAcknowledgement?
    ensures SendSideKept(s, Dispatch(s, slot.closed, slot.endpoint, frame).session)
  {
  }

  lemma SenderAcknowledges(h: History, op: Op)
    requires AcknowledgementOf(op).Some?
    ensures Acknowledges(h.session, Step(h, op).session, AcknowledgementOf(op).value)
  {
    hide Uncovered, CoversNewerEpoch;
  }

  lemma ReceiverKeeps(h: History, op: Op)
    requires IdsBelow(h.session) && !InjectsData(op)
    ensures ReceiveSideKept(h.session, Step(h, op).session)
  {
    if op.OpFrame? && op.slot in h.slots {
      FrameKeepsReceiveSide(h.session, h.slots[op.slot], op.frame);
    } else if !op.OpFrame? && !op.OpDispatcher? {
      CallKeepsReceiveSide(h.session, op);
    }
    hide Dispatch, SessionStep;
  }

  lemma CallKeepsReceiveSide(s: Session, op: Op)
    requires IdsBelow(s) && !op.OpReceive?
    ensures ReceiveSideKept(s, SessionStep(s, op))
  {
    hide Total, SendRefusal, Uncovered;
  }

  lemma FrameKeepsReceiveSide(s: Session, slot: Slot, frame: Frame)
    requires IdsBelow(s) && !frame.StreamData?
    ensures ReceiveSideKept(s, Dispatch(s, slot.closed, slot.endpoint, frame).session)
  {
    hide Uncovered;
  }

  // ---------------------------------------------------------------- safety

  /** This segment carries exactly what was sent under its flow and sequence. */
  predicate Authentic(sent: Ledger, segment: Segment) {
    && segment.sequence < |LogOf(sent, segment.flow)|
    && LogOf(sent, segment.flow)[segment.sequence] == segment.bytes
  }

  ghost predicate AllAuthentic(sent: Ledger, segments: seq<Segment>) {
    forall segment <- segments :: Authentic(sent, segment)
  }

  ghost predicate CarriersAuthentic(sent: Ledger, carriers: map<nat, Carrier>) {
    forall c <- carriers :: ScheduledAuthentic(sent, carriers[c].scheduled)
  }

  ghost predicate ScheduledAuthentic(sent: Ledger, scheduled: seq<Scheduled>) {
    forall s <- scheduled :: Authentic(sent, s.segment)
  }

  ghost predicate SentMatches(s: Session, sent: Ledger) {
    && (forall id <- sent :: id < s.nextFlow)
    && forall id <- s.flows ::
         && |LogOf(sent, id)| == s.flows[id].nextSend
         && QueueAuthentic(sent, s.flows[id].pending)
  }

  ghost predicate QueueAuthentic(sent: Ledger, pending: seq<PendingSegment>) {
    forall p <- pending :: Authentic(sent, p.segment)
  }

  ghost predicate DeliveredMatches(s: Session, delivered: Ledger) {
    && (forall id <- delivered :: id < s.nextFlow)
    && forall id <- s.flows :: |LogOf(delivered, id)| == s.flows[id].nextReceive
  }

  ghost predicate Prefixes(delivered: Ledger, sent: Ledger) {
    forall id <- delivered :: LogOf(delivered, id) <= LogOf(sent, id)
  }

  ghost predicate SystemSafe(sys: System) {
    && HistoryValid(sys.sender) && HistoryValid(sys.receiver)
    && SentMatches(sys.sender.session, sys.sent)
    && DeliveredMatches(sys.receiver.session, sys.delivered)
    && Prefixes(sys.delivered, sys.sent)
    && AllAuthentic(sys.sent, sys.issued)
    && AllAuthentic(sys.sent, sys.arrived)
    && CarriersAuthentic(sys.sent, sys.carriers)
  }

  /** Appending to a sent log keeps every older segment authentic. */
  lemma AppendKeeps(sent: Ledger, id: FlowId, bytes: Bytes, segment: Segment)
    requires Authentic(sent, segment)
    ensures Authentic(Append(sent, id, bytes), segment)
  {
  }

  lemma AppendKeepsAll(sys: System, id: FlowId, bytes: Bytes)
    requires SystemSafe(sys)
    ensures var sent := Append(sys.sent, id, bytes);
      && AllAuthentic(sent, sys.issued) && AllAuthentic(sent, sys.arrived)
      && CarriersAuthentic(sent, sys.carriers) && Prefixes(sys.delivered, sent)
      && forall other <- sys.sender.session.flows ::
           QueueAuthentic(sent, sys.sender.session.flows[other].pending)
  {
    hide HistoryValid, Authentic, Append;
    forall segment | Authentic(sys.sent, segment) ensures Authentic(Append(sys.sent, id, bytes), segment) {
      AppendKeeps(sys.sent, id, bytes, segment);
    }
    AppendKeepsPrefixes(sys.delivered, sys.sent, id, bytes);
  }

  lemma AppendKeepsPrefixes(delivered: Ledger, sent: Ledger, id: FlowId, bytes: Bytes)
    requires Prefixes(delivered, sent)
    ensures Prefixes(delivered, Append(sent, id, bytes))
  {
  }

  lemma SendKeepsSafe(sys: System, id: FlowId, bytes: Bytes)
    requires SystemSafe(sys)
    requires Send(sys.sender.session, id, bytes).1.Ok?
    ensures SystemSafe(SenderStep(sys, OpSend(id, bytes)))
  {
    hide HistoryValid, Total, SendRefusal, AllAuthentic, CarriersAuthentic, Prefixes;
    var s := sys.sender.session;
    var next := SenderStep(sys, OpSend(id, bytes));
    StepValid(sys.sender, OpSend(id, bytes));
    AppendKeepsAll(sys, id, bytes);
    IdsBelowNext(sys.sender, id);
    var segment := Send(s, id, bytes).1.value;
    AuthenticSnoc(next.sent, sys.issued, segment);
    var t := next.sender.session;
    assert t.flows == s.flows[id := Enqueue(s.flows[id], segment, s.tick + s.limits.maxPendingAge)];
    hide Send;
    forall other <- t.flows ensures
      && |LogOf(next.sent, other)| == t.flows[other].nextSend
      && QueueAuthentic(next.sent, t.flows[other].pending)
    {
      assert QueueAuthentic(next.sent, s.flows[other].pending);
    }
  }

  lemma AuthenticSnoc(sent: Ledger, segments: seq<Segment>, last: Segment)
    requires AllAuthentic(sent, segments) && Authentic(sent, last)
    ensures AllAuthentic(sent, segments + [last])
  {
  }

  lemma SenderStepSafe(sys: System, op: Op)
    requires SystemSafe(sys)
    ensures SystemSafe(SenderStep(sys, op))
  {
    if op.OpSend? && Send(sys.sender.session, op.id, op.bytes).1.Ok? {
      SendKeepsSafe(sys, op.id, op.bytes);
    } else {
      hide HistoryValid, AllAuthentic, CarriersAuthentic, Prefixes, SentMatches;
      StepValid(sys.sender, op);
      if AcknowledgementOf(op).None? {
        ValidIdsBelow(sys.sender);
        SenderKeeps(sys.sender, op);
        KeptStaysMatched(sys.sender.session, Step(sys.sender, op).session, sys.sent);
      } else {
        SenderAcknowledges(sys.sender, op);
        AcknowledgedStaysMatched(
          sys.sender.session, Step(sys.sender, op).session, AcknowledgementOf(op).value, sys.sent);
      }
    }
  }

  lemma KeptStaysMatched(s: Session, t: Session, sent: Ledger)
    requires SentMatches(s, sent) && SendSideKept(s, t)
    ensures SentMatches(t, sent)
  {
  }

  lemma AcknowledgedStaysMatched(s: Session, t: Session, ack: Acknowledgement, sent: Ledger)
    requires SentMatches(s, sent) && Acknowledges(s, t, ack)
    ensures SentMatches(t, sent)
  {
    forall id <- t.flows ensures QueueAuthentic(sent, t.flows[id].pending) {
      UncoveredMembers(s.flows[id].pending, ack.through);
    }
  }

  lemma {:induction false} UncoveredMembers(pending: seq<PendingSegment>, through: nat)
    ensures forall p <- Uncovered(pending, through) :: p in pending
  {
    if pending != [] {
      UncoveredMembers(pending[1..], through);
    }
  }

  lemma ReceiverStepSafe(sys: System, op: Op)
    requires SystemSafe(sys) && !InjectsData(op)
    ensures SystemSafe(sys.(receiver := Step(sys.receiver, op)))
  {
    hide HistoryValid, AllAuthentic, CarriersAuthentic, Prefixes, SentMatches, DeliveredMatches;
    StepValid(sys.receiver, op);
    ValidIdsBelow(sys.receiver);
    ReceiverKeeps(sys.receiver, op);
    KeptStaysDelivered(sys.receiver.session, Step(sys.receiver, op).session, sys.delivered);
  }

  lemma KeptStaysDelivered(s: Session, t: Session, delivered: Ledger)
    requires DeliveredMatches(s, delivered) && ReceiveSideKept(s, t)
    ensures DeliveredMatches(t, delivered)
  {
  }

  lemma ArriveSafe(sys: System, index: nat)
    requires SystemSafe(sys) && index < |sys.arrived|
    ensures SystemSafe(ArriveStep(sys, index))
  {
    hide HistoryValid, CarriersAuthentic, SentMatches;
    var segment := sys.arrived[index];
    var next := ArriveStep(sys, index);
    StepValid(sys.receiver, OpReceive(segment));
    ReceiveIsAStep(sys.receiver, segment);
    assert Authentic(sys.sent, segment);
    if segment.flow in sys.receiver.session.flows {
      IdsBelowNext(sys.receiver, segment.flow);
    }
  }

  lemma ReceiveIsAStep(h: History, segment: Segment)
    ensures Step(h, OpReceive(segment)) == h.(session := Receive(h.session, segment).0)
  {
  }

  lemma AdvanceAuthentic(sent: Ledger, scheduled: seq<Scheduled>, tick: nat)
    requires ScheduledAuthentic(sent, scheduled)
    ensures AllAuthentic(sent, Ready(scheduled, tick))
    ensures ScheduledAuthentic(sent, Waiting(scheduled, tick))
  {
    AdvanceConserves(scheduled, tick);
    forall segment <- Ready(scheduled, tick) ensures Authentic(sent, segment) {
      assert segment in multiset(Ready(scheduled, tick));
      CarriedMembers(scheduled, segment);
    }
    forall s <- Waiting(scheduled, tick) ensures Authentic(sent, s.segment) {
      CarriedMembers(Waiting(scheduled, tick), s.segment);
      CarriedMembers(scheduled, s.segment);
    }
  }

  lemma CarrierStepSafe(sys: System, event: Event)
    requires SystemSafe(sys)
    requires event.OpenCarrier? || event.SetAvailable? || event.TransmitOn? || event.AdvanceCarrier?
    ensures SystemSafe(SystemStep(sys, event))
  {
    hide HistoryValid, SentMatches, DeliveredMatches, Prefixes, Authentic;
    if event.AdvanceCarrier? && event.carrier in sys.carriers {
      var c := sys.carriers[event.carrier];
      AdvanceAuthentic(sys.sent, c.scheduled, c.tick + event.ticks);
    }
  }

  lemma ReissueAuthentic(sys: System, flow: FlowId)
    requires SystemSafe(sys) && flow in sys.sender.session.flows
    ensures AllAuthentic(sys.sent, Unacknowledged(sys.sender.session.flows[flow]))
    ensures AllAuthentic(sys.sent, Reissue(sys.sender.session, flow))
  {
    hide HistoryValid;
    var pending := sys.sender.session.flows[flow].pending;
    assert QueueAuthentic(sys.sent, pending);
    assert forall i | 0 <= i < |pending| :: pending[i] in pending;
  }

  lemma SystemStepSafe(sys: System, event: Event)
    requires SystemSafe(sys)
    ensures SystemSafe(SystemStep(sys, event))
  {
    hide SystemSafe;
    match event
    case AtSender(op) => SenderStepSafe(sys, op);
    case AtReceiver(op) =>
      if !InjectsData(op) {
        ReceiverStepSafe(sys, op);
      }
    case Arrive(index) =>
      if index < |sys.arrived| {
        ArriveSafe(sys, index);
      }
    case Lose(index) => LoseSafe(sys, index);
    case Retransmit(flow) => IssueSafe(sys, event);
    case ResumeOn(flow) => IssueSafe(sys, event);
    case _ => CarrierStepSafe(sys, event);
  }

  lemma LoseSafe(sys: System, index: nat)
    requires SystemSafe(sys)
    ensures SystemSafe(SystemStep(sys, Lose(index)))
  {
    hide HistoryValid, SentMatches, DeliveredMatches, Prefixes, Authentic, CarriersAuthentic;
  }

  lemma IssueSafe(sys: System, event: Event)
    requires SystemSafe(sys) && (event.Retransmit? || event.ResumeOn?)
    ensures SystemSafe(SystemStep(sys, event))
  {
    hide HistoryValid, SentMatches, DeliveredMatches, Prefixes, AllAuthentic, CarriersAuthentic;
    if event.flow in sys.sender.session.flows {
      var s := sys.sender.session;
      ReissueAuthentic(sys, event.flow);
      AuthenticConcat(sys.sent, sys.issued, Unacknowledged(s.flows[event.flow]));
      AuthenticConcat(sys.sent, sys.issued, Reissue(s, event.flow));
    } else {
      assert sys.issued + [] == sys.issued;
    }
  }

  lemma AuthenticConcat(sent: Ledger, first: seq<Segment>, second: seq<Segment>)
    requires AllAuthentic(sent, first) && AllAuthentic(sent, second)
    ensures AllAuthentic(sent, first + second)
  {
  }

  lemma {:induction false} RunSafe(sys: System, events: seq<Event>)
    requires SystemSafe(sys)
    ensures SystemSafe(Run(sys, events))
    decreases |events|
  {
    hide SystemSafe;
    if events != [] {
      SystemStepSafe(sys, events[0]);
      RunSafe(SystemStep(sys, events[0]), events[1..]);
    }
  }

  /**
   * End-to-end safety.  Whatever the carriers lose, duplicate, delay or reorder,
   * whatever is retransmitted, resumed, reset, timed out or moved to a new
   * epoch, and whatever is acknowledged: what was delivered on a flow is a
   * prefix of what was sent on it.
   */
  lemma DeliveredIsAPrefixOfSent(
      senderEpoch: nat, senderLimits: FlowLimits, receiverEpoch: nat, receiverLimits: FlowLimits,
      events: seq<Event>, id: FlowId)
    requires senderLimits.Positive() && receiverLimits.Positive()
    ensures
      var sys := Run(Start(Begin(senderEpoch, senderLimits), Begin(receiverEpoch, receiverLimits)), events);
      LogOf(sys.delivered, id) <= LogOf(sys.sent, id)
  {
    var start := Start(Begin(senderEpoch, senderLimits), Begin(receiverEpoch, receiverLimits));
    EveryHistoryIsValid(senderEpoch, senderLimits, []);
    EveryHistoryIsValid(receiverEpoch, receiverLimits, []);
    hide HistoryValid;
    assert SystemSafe(start);
    RunSafe(start, events);
  }

  // ---------------------------------------------------------------- honest acknowledgements

  /** Peers acknowledge only what they have delivered; the session does not make them up. */
  ghost predicate Honest(sys: System, event: Event) {
    event.AtSender? && AcknowledgementOf(event.op).Some? ==>
      var ack := AcknowledgementOf(event.op).value;
      ack.through < |LogOf(sys.delivered, ack.flow)|
  }

  ghost predicate HonestRun(sys: System, events: seq<Event>)
    decreases |events|
  {
    events != [] ==> Honest(sys, events[0]) && HonestRun(SystemStep(sys, events[0]), events[1..])
  }

  /** Everything the sender has let go of was delivered. */
  ghost predicate ReleasedWasDelivered(s: Session, delivered: Ledger) {
    forall id <- s.flows :: s.flows[id].nextSend - |s.flows[id].pending| <= |LogOf(delivered, id)|
  }

  lemma HonestAcknowledgement(sys: System, op: Op)
    requires SystemSafe(sys) && ReleasedWasDelivered(sys.sender.session, sys.delivered)
    requires AcknowledgementOf(op).Some? && Honest(sys, AtSender(op))
    ensures ReleasedWasDelivered(Step(sys.sender, op).session, sys.delivered)
  {
    var s, t, ack := sys.sender.session, Step(sys.sender, op).session, AcknowledgementOf(op).value;
    SenderAcknowledges(sys.sender, op);
    forall id <- t.flows
      ensures t.flows[id].nextSend - |t.flows[id].pending| <= |LogOf(sys.delivered, id)|
    {
      QueueIsGapFree(sys.sender, id);
      UncoveredIsSuffix(s.flows[id].pending, s.flows[id].nextSend - |s.flows[id].pending|, ack.through);
    }
  }

  lemma QueueIsGapFree(h: History, id: FlowId)
    requires HistoryValid(h) && id in h.session.flows
    ensures QueueValid(id, h.session.flows[id])
    ensures forall p <- h.session.flows[id].pending :: p.segment.epoch <= h.session.current
  {
    var s := h.session;
    assert FlowValid(s.current, s.tick, s.limits, id, s.flows[id]);
    var pending := s.flows[id].pending;
    assert forall i | 0 <= i < |pending| :: pending[i].segment.epoch <= s.current;
  }

  lemma HonestSenderStep(sys: System, op: Op)
    requires SystemSafe(sys) && ReleasedWasDelivered(sys.sender.session, sys.delivered)
    requires Honest(sys, AtSender(op))
    ensures ReleasedWasDelivered(SenderStep(sys, op).sender.session, sys.delivered)
  {
    hide SystemSafe, HistoryValid, ReleasedWasDelivered;
    SafeHistories(sys);
    ValidIdsBelow(sys.sender);
    if AcknowledgementOf(op).Some? {
      HonestAcknowledgement(sys, op);
    } else if op.OpSend? && Send(sys.sender.session, op.id, op.bytes).1.Ok? {
      SendStaysReleased(sys.sender.session, op.id, op.bytes, sys.delivered);
    } else {
      SenderKeeps(sys.sender, op);
      KeptStaysReleased(sys.sender.session, Step(sys.sender, op).session, sys.delivered);
    }
  }

  lemma SafeHistories(sys: System)
    requires SystemSafe(sys)
    ensures HistoryValid(sys.sender) && HistoryValid(sys.receiver)
  {
    hide HistoryValid;
  }

  lemma KeptStaysReleased(s: Session, t: Session, delivered: Ledger)
    requires ReleasedWasDelivered(s, delivered) && SendSideKept(s, t)
    ensures ReleasedWasDelivered(t, delivered)
  {
  }

  lemma SendStaysReleased(s: Session, id: FlowId, bytes: Bytes, delivered: Ledger)
    requires ReleasedWasDelivered(s, delivered) && Send(s, id, bytes).1.Ok?
    ensures ReleasedWasDelivered(Send(s, id, bytes).0, delivered)
  {
    hide Total, SendRefusal;
  }

  lemma HonestStep(sys: System, event: Event)
    requires SystemSafe(sys) && ReleasedWasDelivered(sys.sender.session, sys.delivered)
    requires Honest(sys, event)
    ensures ReleasedWasDelivered(SystemStep(sys, event).sender.session, SystemStep(sys, event).delivered)
  {
    hide SystemSafe, Step, Receive, Honest;
    if event.AtSender? {
      HonestSenderStep(sys, event.op);
    }
  }

  lemma {:induction false} HonestRunKeeps(sys: System, events: seq<Event>)
    requires SystemSafe(sys) && ReleasedWasDelivered(sys.sender.session, sys.delivered)
    requires HonestRun(sys, events)
    ensures SystemSafe(Run(sys, events))
    ensures ReleasedWasDelivered(Run(sys, events).sender.session, Run(sys, events).delivered)
    decreases |events|
  {
    hide SystemSafe, ReleasedWasDelivered, Honest;
    if events != [] {
      SystemStepSafe(sys, events[0]);
      HonestStep(sys, events[0]);
      HonestRunKeeps(SystemStep(sys, events[0]), events[1..]);
    }
  }

  /** In an honest run: sender base <= receiver cursor <= sender next_send. */
  lemma CursorsStayNested(
      senderEpoch: nat, senderLimits: FlowLimits, receiverEpoch: nat, receiverLimits: FlowLimits,
      events: seq<Event>, id: FlowId)
    requires senderLimits.Positive() && receiverLimits.Positive()
    requires var start := Start(Begin(senderEpoch, senderLimits), Begin(receiverEpoch, receiverLimits));
      && HonestRun(start, events)
      && id in Run(start, events).sender.session.flows
      && id in Run(start, events).receiver.session.flows
    ensures var sys :=
        Run(Start(Begin(senderEpoch, senderLimits), Begin(receiverEpoch, receiverLimits)), events);
      var outgoing, incoming := sys.sender.session.flows[id], sys.receiver.session.flows[id];
      outgoing.nextSend - |outgoing.pending| <= incoming.nextReceive <= outgoing.nextSend
  {
    var start := Start(Begin(senderEpoch, senderLimits), Begin(receiverEpoch, receiverLimits));
    EveryHistoryIsValid(senderEpoch, senderLimits, []);
    EveryHistoryIsValid(receiverEpoch, receiverLimits, []);
    hide HistoryValid;
    HonestRunKeeps(start, events);
    SafeFacts(Run(start, events), id);
  }

  lemma SafeFacts(sys: System, id: FlowId)
    requires SystemSafe(sys)
    requires id in sys.sender.session.flows && id in sys.receiver.session.flows
    ensures |LogOf(sys.sent, id)| == sys.sender.session.flows[id].nextSend
    ensures |LogOf(sys.delivered, id)| == sys.receiver.session.flows[id].nextReceive
    ensures LogOf(sys.delivered, id) <= LogOf(sys.sent, id)
    ensures QueueAuthentic(sys.sent, sys.sender.session.flows[id].pending)
  {
    hide HistoryValid;
  }

  // ---------------------------------------------------------------- recovery

  /** Receives a batch in order; refused segments are skipped. */
  function ReceiveAll(s: Session, segments: seq<Segment>): (Session, seq<Bytes>)
    decreases |segments|
  {
    if segments == [] then (s, [])
    else
      var (next, result) := Receive(s, segments[0]);
      var (last, rest) := ReceiveAll(next, segments[1..]);
      (last, (if result.Ok? && result.value.Delivered? then [result.value.bytes] else []) + rest)
  }

  /** Nothing the receiver has agreed to stands in the way of this stream position. */
  predicate MayReach(s: Session, id: FlowId, epoch: nat, end: nat)
    requires id in s.flows
  {
    InWindow(s, epoch) && (s.flows[id].finalNext.Some? ==> end <= s.flows[id].finalNext.value)
  }

  /** A gap-free batch of one flow that starts at or below the receive cursor. */
  ghost predicate Consecutive(segments: seq<Segment>, id: FlowId, epoch: nat, first: nat, content: seq<Bytes>) {
    && first + |segments| == |content|
    && forall i | 0 <= i < |segments| ::
         segments[i] == Segment(id, epoch, first + i, content[first + i])
  }

  lemma {:induction false} BatchDelivers(
      s: Session, segments: seq<Segment>, id: FlowId, epoch: nat, first: nat, content: seq<Bytes>)
    requires id in s.flows && Consecutive(segments, id, epoch, first, content)
    requires MayReach(s, id, epoch, |content|)
    requires s.flows[id].nextReceive <= |content|
    requires segments != [] ==> first <= s.flows[id].nextReceive
    ensures var (last, delivered) := ReceiveAll(s, segments);
      && id in last.flows
      && (segments != [] ==> last.flows[id].nextReceive == |content|)
      && (segments != [] ==> delivered == content[s.flows[id].nextReceive..])
      && (segments == [] ==> delivered == [])
    decreases |segments|
  {
    if segments != [] {
      var (next, result) := Receive(s, segments[0]);
      assert segments[0] == Segment(id, epoch, first, content[first]);
      assert forall i | 0 <= i < |segments[1..]| :: segments[1..][i] == segments[i + 1];
      BatchDelivers(next, segments[1..], id, epoch, first + 1, content);
    }
  }

  /** If the end is out of reach, no batch of this flow and epoch gets there. */
  lemma {:induction false} BatchStopsShort(
      s: Session, segments: seq<Segment>, id: FlowId, epoch: nat, end: nat)
    requires id in s.flows && !MayReach(s, id, epoch, end)
    requires s.flows[id].nextReceive < end
    requires s.flows[id].finalNext.Some? ==> s.flows[id].nextReceive <= s.flows[id].finalNext.value
    requires forall segment <- segments :: segment.flow == id && segment.epoch == epoch
    ensures id in ReceiveAll(s, segments).0.flows
    ensures ReceiveAll(s, segments).0.flows[id].nextReceive < end
    decreases |segments|
  {
    if segments != [] {
      assert segments[0].flow == id && segments[0].epoch == epoch;
      BatchStopsShort(Receive(s, segments[0]).0, segments[1..], id, epoch, end);
    }
  }

  lemma ResumeIsConsecutive(sys: System, id: FlowId)
    requires SystemSafe(sys)
    requires id in sys.sender.session.flows && id in sys.receiver.session.flows
    ensures var s := sys.sender.session;
      Consecutive(Reissue(s, id), id, s.current,
                  s.flows[id].nextSend - |s.flows[id].pending|, LogOf(sys.sent, id))
  {
    hide SystemSafe, HistoryValid;
    SafeHistories(sys);
    QueueIsGapFree(sys.sender, id);
    SafeFacts(sys, id);
    var pending := sys.sender.session.flows[id].pending;
    forall i | 0 <= i < |pending| ensures Authentic(sys.sent, pending[i].segment) {
      assert pending[i] in pending;
    }
  }

  /**
   * Recovery.  After any honest run, hand the receiver what the sender reissues
   * on its current epoch.  The stream is then complete exactly when it was
   * complete already, or the sender's epoch is inside the receiver's window
   * and the receiver has recorded no earlier end of stream; and in that case
   * what was delivered is, byte for byte, everything that was sent.
   */
  lemma RecoveryIsComplete(sys: System, id: FlowId)
    requires SystemSafe(sys) && ReleasedWasDelivered(sys.sender.session, sys.delivered)
    requires id in sys.sender.session.flows && id in sys.receiver.session.flows
    ensures var outgoing, incoming := sys.sender.session.flows[id], sys.receiver.session.flows[id];
      var (last, recovered) := ReceiveAll(sys.receiver.session, Reissue(sys.sender.session, id));
      && id in last.flows
      && (last.flows[id].nextReceive == outgoing.nextSend <==>
          || incoming.nextReceive == outgoing.nextSend
          || MayReach(sys.receiver.session, id, sys.sender.session.current, outgoing.nextSend))
      && (MayReach(sys.receiver.session, id, sys.sender.session.current, outgoing.nextSend) ==>
          LogOf(sys.delivered, id) + recovered == LogOf(sys.sent, id))
  {
    hide SystemSafe, HistoryValid, Resume, Consecutive, ReceiveAll, QueueAuthentic;
    var s, r := sys.sender.session, sys.receiver.session;
    SafeHistories(sys);
    SafeFacts(sys, id);
    ResumeIsConsecutive(sys, id);
    QueueIsGapFree(sys.sender, id);
    FinishCursorHolds(sys.receiver, id);
    BatchRecovers(r, Reissue(s, id), id, s.current,
                  s.flows[id].nextSend - |s.flows[id].pending|, LogOf(sys.sent, id));
    var cursor := r.flows[id].nextReceive;
    assert LogOf(sys.sent, id) == LogOf(sys.sent, id)[..cursor] + LogOf(sys.sent, id)[cursor..];
  }

  /** Recovery, restated for every state an honest run can reach. */
  lemma EveryHonestRunCanRecover(
      senderEpoch: nat, senderLimits: FlowLimits, receiverEpoch: nat, receiverLimits: FlowLimits,
      events: seq<Event>, id: FlowId)
    requires senderLimits.Positive() && receiverLimits.Positive()
    requires var start := Start(Begin(senderEpoch, senderLimits), Begin(receiverEpoch, receiverLimits));
      && HonestRun(start, events)
      && id in Run(start, events).sender.session.flows
      && id in Run(start, events).receiver.session.flows
    ensures var sys :=
        Run(Start(Begin(senderEpoch, senderLimits), Begin(receiverEpoch, receiverLimits)), events);
      var s, r := sys.sender.session, sys.receiver.session;
      MayReach(r, id, s.current, s.flows[id].nextSend) ==>
        LogOf(sys.delivered, id) + ReceiveAll(r, Reissue(s, id)).1 == LogOf(sys.sent, id)
  {
    var start := Start(Begin(senderEpoch, senderLimits), Begin(receiverEpoch, receiverLimits));
    EveryHistoryIsValid(senderEpoch, senderLimits, []);
    EveryHistoryIsValid(receiverEpoch, receiverLimits, []);
    hide HistoryValid;
    HonestRunKeeps(start, events);
    hide SystemSafe;
    RecoveryIsComplete(Run(start, events), id);
  }

  /** What one gap-free batch achieves at a receiver, in all cases. */
  lemma BatchRecovers(
      r: Session, segments: seq<Segment>, id: FlowId, epoch: nat, first: nat, content: seq<Bytes>)
    requires id in r.flows && Consecutive(segments, id, epoch, first, content)
    requires first <= r.flows[id].nextReceive <= |content|
    requires r.flows[id].finalNext.Some? ==> r.flows[id].nextReceive <= r.flows[id].finalNext.value
    ensures var (last, recovered) := ReceiveAll(r, segments);
      && id in last.flows
      && (last.flows[id].nextReceive == |content| <==>
          r.flows[id].nextReceive == |content| || MayReach(r, id, epoch, |content|))
      && (MayReach(r, id, epoch, |content|) ==> recovered == content[r.flows[id].nextReceive..])
  {
    if MayReach(r, id, epoch, |content|) {
      BatchDelivers(r, segments, id, epoch, first, content);
    } else if r.flows[id].nextReceive < |content| {
      BatchStopsShort(r, segments, id, epoch, |content|);
    } else {
      BatchKeepsComplete(r, segments, id, epoch, first, content);
    }
  }

  lemma FinishCursorHolds(h: History, id: FlowId)
    requires HistoryValid(h) && id in h.session.flows
    ensures h.session.flows[id].finalNext.Some? ==>
      h.session.flows[id].nextReceive <= h.session.flows[id].finalNext.value
  {
    var s := h.session;
    assert FlowValid(s.current, s.tick, s.limits, id, s.flows[id]);
  }

  lemma {:induction false} BatchKeepsComplete(
      s: Session, segments: seq<Segment>, id: FlowId, epoch: nat, first: nat, content: seq<Bytes>)
    requires id in s.flows && Consecutive(segments, id, epoch, first, content)
    requires s.flows[id].nextReceive == |content|
    ensures id in ReceiveAll(s, segments).0.flows
    ensures ReceiveAll(s, segments).0.flows[id].nextReceive == |content|
    decreases |segments|
  {
    if segments != [] {
      assert segments[0] == Segment(id, epoch, first, content[first]);
      assert forall i | 0 <= i < |segments[1..]| :: segments[1..][i] == segments[i + 1];
      BatchKeepsComplete(Receive(s, segments[0]).0, segments[1..], id, epoch, first + 1, content);
    }
  }

  /** A current-epoch acknowledgement of the last sequence then empties the queue. */
  lemma FinalAcknowledgementReleasesAll(h: History, id: FlowId)
    requires HistoryValid(h) && id in h.session.flows && h.session.flows[id].nextSend > 0
    ensures var s := h.session;
      var (next, result) := Acknowledge(s, Acknowledgement(id, s.current, s.flows[id].nextSend - 1));
      && result.Ok? && id in next.flows && next.flows[id].pending == []
      && next.flows[id].pendingBytes == 0
      && (forall other <- s.flows | other != id :: next.flows[other] == s.flows[other])
  {
    hide FlowValid, TableValid, LogsValid, AttachmentsValid;
    var s := h.session;
    var flow := s.flows[id];
    QueueIsGapFree(h, id);
    UncoveredIsSuffix(flow.pending, flow.nextSend - |flow.pending|, flow.nextSend - 1);
  }
}
