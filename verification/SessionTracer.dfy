/**
 * The session in its mutable form: running counters instead of sums, pops at
 * the queue's front instead of a filter, and an expiry loop that looks only at
 * each queue's oldest segment.  Every method is proved to take exactly the
 * transition `SessionModel` gives that operation.
 */
module SessionTracing {
  import opened Common
  import opened FiniteSets
  import opened ProtocolTypes
  import opened SessionModel
  import opened SessionInvariants

  /** The current epoch and the single retiring epoch. */
  class TransitionState {
    var current: nat
    var retiring: Option<nat>

    constructor (current: nat)
      ensures this.current == current && retiring == None
    {
      this.current := current;
      retiring := None;
    }

    method Advance() returns (next: Option<nat>)
      requires retiring.None? ==> current < U64_MAX
      modifies this
      ensures old(retiring).Some? ==> next == None && unchanged(this)
      ensures old(retiring).None? ==>
        next == Some(current) && current == old(current) + 1 && retiring == Some(old(current))
    {
      if retiring.Some? {
        return None;
      }
      var epoch: u64 := current + 1;
      retiring := Some(current);
      current := epoch;
      next := Some(epoch);
    }

    method RetirePrevious()
      modifies this
      ensures current == old(current) && retiring == None
    {
      retiring := None;
    }

    function Validate(epoch: nat): EpochValidity
      reads this
    {
      Validity(current, retiring, epoch)
    }
  }

  /** The most recent epoch whose attachment was accepted. */
  class ReplayWindow {
    var latest: Option<nat>

    constructor ()
      ensures latest == None
    {
      latest := None;
    }

    predicate Accepts(epoch: nat)
      reads this
    {
      latest.None? || epoch > latest.value
    }

    method Accept(epoch: nat) returns (newer: bool)
      modifies this
      ensures newer == old(Accepts(epoch))
      ensures latest == if newer then Some(epoch) else old(latest)
    {
      if !Accepts(epoch) {
        return false;
      }
      latest := Some(epoch);
      newer := true;
    }
  }

  function SaturatingSub(a: nat, b: nat): nat {
    if a >= b then a - b else 0
  }

  ghost function Elements(ids: seq<FlowId>): set<FlowId> {
    set id <- ids
  }

  /** Strictly ascending: the order in which an ordered map lists its keys. */
  ghost predicate Ascending(ids: seq<FlowId>) {
    forall i, j | 0 <= i < j < |ids| :: ids[i] < ids[j]
  }

  lemma {:induction false} AscendingSize(ids: seq<FlowId>)
    requires Ascending(ids)
    ensures |Elements(ids)| == |ids|
  {
    if ids != [] {
      var init := ids[..|ids| - 1];
      AscendingSize(init);
      assert Elements(ids) == Elements(init) + {ids[|ids| - 1]};
    } else {
      assert Elements(ids) == {};
    }
  }

  lemma AscendingAppend(ids: seq<FlowId>, id: FlowId)
    requires Ascending(ids) && forall other <- ids :: other < id
    ensures Ascending(ids + [id])
  {
    assert forall i | 0 <= i < |ids| :: ids[i] in ids;
  }

  lemma ElementsStart(ids: seq<FlowId>)
    ensures Elements(ids[..0]) == {}
  {
  }

  lemma ElementsStep(ids: seq<FlowId>, i: nat)
    requires Ascending(ids) && i < |ids|
    ensures Elements(ids[..i + 1]) == Elements(ids[..i]) + {ids[i]}
    ensures ids[i] in Elements(ids) - Elements(ids[..i])
  {
    assert ids[..i + 1] == ids[..i] + [ids[i]];
  }

  /** Recording events one at a time retains what recording them together does. */
  lemma RetainStep(history: seq<SessionEvent>, event: SessionEvent, max: nat)
    requires 0 < max
    ensures Retain(Retain(history, max) + [event], max) == Retain(history + [event], max)
  {
  }

  /** The parts of the session invariant that single methods rely on. */
  lemma SessionFacts(s: Session, id: FlowId)
    requires SessionValid(s) && id in s.flows
    ensures QueueValid(id, s.flows[id]) && s.flows[id].pendingBytes == BytesOf(s.flows[id].pending)
    ensures s.limits.Positive() && |s.events| <= s.limits.maxEvents
  {
    assert FlowValid(s.current, s.tick, s.limits, id, s.flows[id]);
  }

  class SessionTracer {
    const transition: TransitionState
    const replay: ReplayWindow
    var negotiated: Option<NegotiatedParameters>
    var accepted: Option<Attachment>
    var retiringAttachment: Option<Attachment>
    var tick: u64
    var nextFlow: u64
    var pendingSegments: nat
    var pendingBytes: nat
    const limits: FlowLimits
    var flows: map<FlowId, Flow>
    var events: seq<SessionEvent>

    ghost function Model(): Session
      reads this, transition, replay
    {
      Session(transition.current, transition.retiring, replay.latest, negotiated, accepted,
              retiringAttachment, tick, nextFlow, limits, flows, events)
    }

    /** The session invariant, and the counters agree with the sums they stand for. */
    ghost predicate Valid()
      reads this, transition, replay
    {
      && SessionValid(Model())
      && pendingSegments == Total(Segments, flows)
      && pendingBytes == Total(Measure.Bytes, flows)
    }

    constructor (epoch: nat, limits: FlowLimits)
      requires limits.Positive()
      ensures Valid() && fresh(transition) && fresh(replay)
      ensures Model() == Fresh(epoch, limits)
    {
      transition := new TransitionState(epoch);
      replay := new ReplayWindow();
      negotiated, accepted, retiringAttachment := None, None, None;
      tick, nextFlow := 0, 0;
      pendingSegments, pendingBytes := 0, 0;
      this.limits := limits;
      flows := map[];
      events := [];
    }

    method RecordEvent(event: SessionEvent)
      requires limits.Positive() && |events| <= limits.maxEvents
      modifies this`events
      ensures Model() == Record(old(Model()), [event])
    {
      if |events| >= limits.maxEvents {
        events := events[1..];
      }
      events := events + [event];
    }

    method BindNegotiatedParameters(parameters: NegotiatedParameters)
      returns (result: Result<(), BindingError>)
      requires Valid()
      modifies this
      ensures Valid()
      ensures (Model(), result) == BindParameters(old(Model()), parameters)
    {
      BindParametersValid(Model(), parameters);
      if accepted.Some? || replay.latest.Some? {
        return Err(AttachmentAlreadyAccepted);
      }
      if negotiated.Some? {
        return Err(AlreadyBound);
      }
      negotiated := Some(parameters);
      result := Ok(());
    }

    /** Opens the session's next unused flow identifier. */
    method OpenReliableFlow() returns (result: Result<FlowId, TraceError>)
      requires Valid()
      modifies this
      ensures Valid()
      ensures var (next, outcome) := OpenFlow(old(Model()), old(nextFlow));
        Model() == next
        && result == if outcome.Ok? then Ok(old(nextFlow)) else Err(outcome.error)
    {
      var id := nextFlow;
      var outcome := OpenReliableFlowWithId(id);
      result := if outcome.Ok? then Ok(id) else Err(outcome.error);
    }

    method OpenReliableFlowWithId(id: FlowId) returns (result: Result<(), TraceError>)
      requires Valid()
      modifies this
      ensures Valid()
      ensures (Model(), result) == OpenFlow(old(Model()), id)
    {
      hide FlowValid, Total;
      OpenFlowValid(Model(), id);
      TotalUpdate(Segments, flows, id, NewFlow);
      TotalUpdate(Measure.Bytes, flows, id, NewFlow);
      if |flows| >= limits.maxFlows {
        return Err(FlowLimit);
      }
      if id < nextFlow || id == U64_MAX {
        return Err(FlowFinished);
      }
      nextFlow := id + 1;
      flows := flows[id := NewFlow];
      RecordEvent(FlowOpened);
      result := Ok(());
    }

    method CloseReliableFlow(id: FlowId) returns (result: Result<(), TraceError>)
      requires Valid()
      modifies this
      ensures Valid()
      ensures (Model(), result) == CloseFlow(old(Model()), id)
    {
      if id !in flows {
        return Err(UnknownFlow);
      }
      if flows[id].pending != [] {
        return Err(FlowHasPendingSegments);
      }
      RemoveValid(transition.current, tick, limits, nextFlow, flows, {id});
      TotalRemove(Segments, flows, id);
      TotalRemove(Measure.Bytes, flows, id);
      flows := flows - {id};
      result := Ok(());
    }

    /** The first limit these bytes would break, read off the counters. */
    method BrokenLimit(id: FlowId, bytes: Bytes) returns (error: Option<TraceError>)
      requires Valid() && id in flows
      ensures error == SendRefusal(Model(), flows[id], bytes)
    {
      var flow := flows[id];
      assert FlowValid(transition.current, tick, limits, id, flow);
      if pendingSegments >= limits.maxSessionPendingSegments {
        return Some(SessionPendingSegmentLimit);
      }
      if |bytes| > SaturatingSub(limits.maxSessionPendingBytes, pendingBytes) {
        return Some(SessionPendingByteLimit);
      }
      if |flow.pending| == limits.maxPendingSegments {
        return Some(PendingSegmentLimit);
      }
      if |bytes| > SaturatingSub(limits.maxPendingBytes, flow.pendingBytes) {
        return Some(PendingByteLimit);
      }
      error := None;
    }

    /** Stores a changed flow and adjusts both counters by what its queue gained and lost. */
    method StoreFlow(
        id: FlowId, flow: Flow, addedSegments: nat, addedBytes: nat, releasedSegments: nat, releasedBytes: nat)
      requires Valid() && id in flows
      requires SessionValid(Model().(flows := flows[id := flow]))
      requires |flow.pending| == |flows[id].pending| + addedSegments - releasedSegments
      requires BytesOf(flow.pending) == BytesOf(flows[id].pending) + addedBytes - releasedBytes
      modifies `flows, `pendingSegments, `pendingBytes
      ensures Valid() && Model() == old(Model()).(flows := old(flows)[id := flow])
    {
      hide SessionValid, Total;
      TotalUpdate(Segments, flows, id, flow);
      TotalUpdate(Measure.Bytes, flows, id, flow);
      flows := flows[id := flow];
      pendingSegments := pendingSegments + addedSegments - releasedSegments;
      pendingBytes := pendingBytes + addedBytes - releasedBytes;
    }

    method Send(id: FlowId, bytes: Bytes) returns (result: Result<Segment, TraceError>)
      requires Valid()
      requires SessionModel.Send(Model(), id, bytes).1.Ok? ==>
        flows[id].nextSend < U64_MAX && tick + limits.maxPendingAge <= U64_MAX
      modifies this
      ensures Valid()
      ensures (Model(), result) == SessionModel.Send(old(Model()), id, bytes)
    {
      if id !in flows {
        return Err(UnknownFlow);
      }
      hide FlowValid, Total, SendRefusal;
      SendValid(Model(), id, bytes);
      var error := BrokenLimit(id, bytes);
      if error.Some? {
        RecordEvent(PendingLimitReached);
        result := Err(error.value);
      } else {
        var segment := EnqueueSegment(id, bytes);
        result := Ok(segment);
      }
    }

    method EnqueueSegment(id: FlowId, bytes: Bytes) returns (segment: Segment)
      requires Valid() && id in flows && SendRefusal(Model(), flows[id], bytes).None?
      requires flows[id].nextSend < U64_MAX && tick + limits.maxPendingAge <= U64_MAX
      modifies this
      ensures Valid()
      ensures (Model(), Ok(segment)) == SessionModel.Send(old(Model()), id, bytes)
    {
      hide SessionValid, Total, SendRefusal;
      SessionFacts(Model(), id);
      SendValid(Model(), id, bytes);
      var flow := flows[id];
      segment := Segment(id, transition.current, flow.nextSend, bytes);
      var next: u64 := flow.nextSend + 1;
      var deadline: u64 := tick + limits.maxPendingAge;
      BytesAppend(flow.pending, PendingSegment(segment, deadline));
      StoreFlow(id,
                flow.(nextSend := next,
                      pendingBytes := flow.pendingBytes + |bytes|,
                      pending := flow.pending + [PendingSegment(segment, deadline)]),
                1, |bytes|, 0, 0);
    }

    function RequireValidEpoch(epoch: nat): (error: Option<TraceError>)
      reads this, transition, replay
      ensures error.None? <==> InWindow(Model(), epoch)
      ensures error.Some? ==> error.value == WindowError(Model(), epoch)
    {
      match transition.Validate(epoch)
      case Current => None
      case Retiring => None
      case Stale => Some(StaleEpoch)
      case Future => Some(FutureEpoch)
    }

    /** Pops acknowledged segments off the front, keeping count of what is released. */
    method Acknowledge(ack: Acknowledgement) returns (result: Result<(), TraceError>)
      requires Valid()
      modifies this
      ensures Valid()
      ensures (Model(), result) == SessionModel.Acknowledge(old(Model()), ack)
    {
      var epochError := RequireValidEpoch(ack.epoch);
      if epochError.Some? {
        return Err(epochError.value);
      }
      if ack.flow !in flows {
        return Err(UnknownFlow);
      }
      var flow := flows[ack.flow];
      if ack.through >= flow.nextSend {
        return Err(InvalidAcknowledgement);
      }
      if exists p <- flow.pending :: p.segment.sequence <= ack.through && p.segment.epoch > ack.epoch {
        return Err(InvalidAcknowledgement);
      }
      hide SessionValid, Total;
      SessionFacts(Model(), ack.flow);
      AcknowledgeValid(Model(), ack);
      var rest, restBytes, releasedSegments, releasedBytes := Release(flow, ack.through);
      StoreFlow(ack.flow, flow.(pending := rest, pendingBytes := restBytes),
                0, 0, releasedSegments, releasedBytes);
      result := Ok(());
    }

    method Receive(segment: Segment) returns (result: Result<ReceiveResult, TraceError>)
      requires Valid()
      requires SessionModel.Receive(Model(), segment).1 == Ok(Delivered(segment.bytes)) ==>
        segment.sequence < U64_MAX
      modifies this
      ensures Valid()
      ensures (Model(), result) == SessionModel.Receive(old(Model()), segment)
    {
      var epochError := RequireValidEpoch(segment.epoch);
      if epochError.Some? {
        return Err(epochError.value);
      }
      if segment.flow !in flows {
        return Err(UnknownFlow);
      }
      result := ReceiveInWindow(segment);
    }

    method ReceiveInWindow(segment: Segment) returns (result: Result<ReceiveResult, TraceError>)
      requires Valid() && InWindow(Model(), segment.epoch) && segment.flow in flows
      requires SessionModel.Receive(Model(), segment).1 == Ok(Delivered(segment.bytes)) ==>
        segment.sequence < U64_MAX
      modifies this
      ensures Valid()
      ensures (Model(), result) == SessionModel.Receive(old(Model()), segment)
    {
      hide SessionValid, Total;
      SessionFacts(Model(), segment.flow);
      ReceiveValid(Model(), segment);
      var flow := flows[segment.flow];
      if flow.finalNext.Some? && segment.sequence >= flow.finalNext.value {
        return Err(FlowFinished);
      }
      if segment.sequence < flow.nextReceive {
        RecordEvent(DuplicateIgnored);
        result := Ok(Duplicate);
      } else if segment.sequence > flow.nextReceive {
        RecordEvent(OutOfOrderRejected);
        result := Ok(OutOfOrder);
      } else {
        AdvanceReceiveCursor(segment.flow);
        result := Ok(Delivered(segment.bytes));
      }
    }

    method AdvanceReceiveCursor(id: FlowId)
      requires Valid() && id in flows && flows[id].nextReceive < U64_MAX
      requires SessionValid(Model().(flows := flows[id := flows[id].(nextReceive := flows[id].nextReceive + 1)]))
      modifies this
      ensures Valid()
      ensures Model() == old(Model()).(flows := old(flows)[id :=
        old(flows)[id].(nextReceive := old(flows)[id].nextReceive + 1)])
    {
      var next: u64 := flows[id].nextReceive + 1;
      StoreFlow(id, flows[id].(nextReceive := next), 0, 0, 0, 0);
    }

    method FinishReceiving(id: FlowId, epoch: nat, finalNext: nat) returns (result: Result<(), TraceError>)
      requires Valid()
      modifies this
      ensures Valid()
      ensures (Model(), result) == SessionModel.FinishReceiving(old(Model()), id, epoch, finalNext)
    {
      var epochError := RequireValidEpoch(epoch);
      if epochError.Some? {
        return Err(epochError.value);
      }
      if id !in flows {
        return Err(UnknownFlow);
      }
      hide FlowValid, Total;
      FinishReceivingValid(Model(), id, epoch, finalNext);
      var flow := flows[id];
      if finalNext < flow.nextReceive {
        return Err(FlowFinished);
      }
      match flow.finalNext {
        case Some(existing) =>
          result := if existing == finalNext then Ok(()) else Err(FlowFinished);
        case None =>
          StoreFlow(id, flow.(finalNext := Some(finalNext)), 0, 0, 0, 0);
          result := Ok(());
      }
    }

    /** Drops a flow together with everything it still had pending. */
    method DropFlow(id: FlowId)
      requires Valid() && id in flows
      modifies `flows, `pendingSegments, `pendingBytes
      ensures Valid() && Model() == old(Model()).(flows := old(flows) - {id})
    {
      hide FlowValid, Total;
      SessionFacts(Model(), id);
      RemoveValid(transition.current, tick, limits, nextFlow, flows, {id});
      TotalRemove(Segments, flows, id);
      TotalRemove(Measure.Bytes, flows, id);
      var flow := flows[id];
      flows := flows - {id};
      pendingSegments := pendingSegments - |flow.pending|;
      pendingBytes := pendingBytes - flow.pendingBytes;
    }

    method ResetReliableFlow(id: FlowId) returns (result: Result<(), TraceError>)
      requires Valid()
      modifies this
      ensures Valid()
      ensures (Model(), result) == ResetFlow(old(Model()), id)
    {
      if id !in flows {
        return Err(UnknownFlow);
      }
      DropFlow(id);
      result := Ok(());
    }

    /** What is unacknowledged, oldest first: consecutive sequences up to the next to be sent. */
    method Pending(id: FlowId) returns (result: Result<seq<Segment>, TraceError>)
      requires Valid()
      ensures result.Err? <==> id !in flows
      ensures result.Err? ==> result.error == UnknownFlow
      ensures result.Ok? ==>
        var flow := flows[id];
        && |result.value| == |flow.pending| <= flow.nextSend
        && forall i | 0 <= i < |result.value| ::
             && result.value[i].flow == id
             && result.value[i].sequence == flow.nextSend - |flow.pending| + i
             && result.value[i].bytes == flow.pending[i].segment.bytes
             && result.value[i].epoch == flow.pending[i].segment.epoch
    {
      if id !in flows {
        return Err(UnknownFlow);
      }
      SessionFacts(Model(), id);
      var segments: seq<Segment> := [];
      for i := 0 to |flows[id].pending|
        invariant |segments| == i
        invariant forall j | 0 <= j < i :: segments[j] == flows[id].pending[j].segment
      {
        segments := segments + [flows[id].pending[i].segment];
      }
      result := Ok(segments);
    }

    method ResumeUnacknowledged(id: FlowId) returns (result: Result<seq<Segment>, TraceError>)
      ensures result == Resume(Model(), id)
    {
      if id !in flows {
        return Err(UnknownFlow);
      }
      var flow, epoch := flows[id], transition.current;
      var segments := [];
      for i := 0 to |flow.pending|
        invariant |segments| == i
        invariant forall k | 0 <= k < i :: segments[k] == flow.pending[k].segment.(epoch := epoch)
      {
        segments := segments + [flow.pending[i].segment.(epoch := epoch)];
      }
      result := Ok(segments);
      assert segments == Resume(Model(), id).value;
    }

    /**
     * Removes the flows whose OLDEST pending segment is out of time.  Deadlines
     * are ordered within a queue, so these are exactly the flows with any
     * segment out of time, and they are reported in ascending order.
     */
    method AdvanceTime(ticks: nat) returns (timedOut: seq<FlowId>)
      requires Valid()
      requires tick + ticks <= U64_MAX
      modifies this
      ensures Valid()
      ensures Model() == SessionModel.AdvanceTime(old(Model()), ticks)
      ensures Ascending(timedOut)
      ensures Elements(timedOut) == Expired(old(flows), old(tick) + ticks)
    {
      hide SessionValid, Total, Expired;
      AdvanceTimeValid(Model(), ticks);
      TracerFacts();
      timedOut := CollectExpired(tick + ticks);
      AscendingSize(timedOut);
      DropAll(timedOut);
      tick := tick + ticks;
      RecordTimeOuts(|timedOut|);
    }

    /** Looks at each queue's front only. */
    method CollectExpired(deadline: nat) returns (timedOut: seq<FlowId>)
      requires Valid()
      ensures Ascending(timedOut)
      ensures Elements(timedOut) == Expired(flows, deadline) <= flows.Keys
    {
      timedOut := [];
      hide Valid;
      var rest := flows.Keys;
      while rest != {}
        invariant rest <= flows.Keys && Ascending(timedOut)
        invariant forall id <- timedOut :: id in Expired(flows, deadline) - rest
        invariant forall id <- flows.Keys - rest :: id in Expired(flows, deadline) ==> id in timedOut
        invariant forall id <- timedOut, other <- rest :: id < other
      {
        LeastExists(rest);
        var id :| IsLeast(id, rest);
        FrontExpired(id, deadline);
        rest := rest - {id};
        if flows[id].pending != [] && flows[id].pending[0].expiresAt <= deadline {
          AscendingAppend(timedOut, id);
          timedOut := timedOut + [id];
        }
      }
    }

    lemma FrontExpired(id: FlowId, deadline: nat)
      requires Valid() && id in flows
      ensures id in Expired(flows, deadline) <==>
              flows[id].pending != [] && flows[id].pending[0].expiresAt <= deadline
    {
      assert FlowValid(transition.current, tick, limits, id, flows[id]);
      FrontDecidesExpiry(Model(), flows[id].pending, deadline);
    }

    lemma TracerFacts()
      requires Valid()
      ensures limits.Positive() && |events| <= limits.maxEvents
    {
    }

    method DropAll(gone: seq<FlowId>)
      requires Valid() && Ascending(gone) && Elements(gone) <= flows.Keys
      modifies `flows, `pendingSegments, `pendingBytes
      ensures Valid() && Model() == old(Model()).(flows := old(flows) - Elements(gone))
    {
      hide SessionValid, Total, Elements, Ascending;
      ghost var before := flows;
      ElementsStart(gone);
      for i := 0 to |gone|
        invariant Valid()
        invariant flows == before - Elements(gone[..i])
        invariant Model() == old(Model()).(flows := flows)
      {
        ElementsStep(gone, i);
        DropFlow(gone[i]);
        assert before - Elements(gone[..i]) - {gone[i]} == before - Elements(gone[..i + 1]);
      }
      assert gone[..|gone|] == gone;
    }

    method RecordTimeOuts(count: nat)
      requires limits.Positive() && |events| <= limits.maxEvents
      modifies `events
      ensures Model() == Record(old(Model()), TimeOuts(count))
    {
      for i := 0 to count
        invariant |events| <= limits.maxEvents
        invariant Model() == Record(old(Model()), TimeOuts(i))
      {
        RetainStep(old(events) + TimeOuts(i), FlowTimedOut, limits.maxEvents);
        assert old(events) + TimeOuts(i) + [FlowTimedOut] == old(events) + TimeOuts(i + 1);
        RecordEvent(FlowTimedOut);
      }
    }

    method BeginTransition() returns (result: Result<nat, TraceError>)
      requires Valid()
      requires transition.retiring.None? ==> transition.current < U64_MAX
      modifies this, transition
      ensures Valid()
      ensures (Model(), result) == SessionModel.BeginTransition(old(Model()))
    {
      hide FlowValid, Total;
      BeginTransitionValid(Model());
      var next := transition.Advance();
      if next.None? {
        return Err(TransitionInProgress);
      }
      retiringAttachment, accepted := accepted, None;
      result := Ok(next.value);
    }

    method BeginExplainedTransition(from: CarrierClass, to: CarrierClass, reason: TransitionReason)
      returns (result: Result<nat, TraceError>)
      requires Valid()
      requires transition.retiring.None? ==> transition.current < U64_MAX
      modifies this, transition
      ensures Valid()
      ensures (Model(), result) ==
              SessionModel.BeginExplainedTransition(old(Model()), from, to, reason)
    {
      result := BeginTransition();
      if result.Ok? {
        RecordValid(Model(), [TransitionStarted(from, to, reason)]);
        RecordEvent(TransitionStarted(from, to, reason));
      }
    }

    method NegotiateTransitionVersion(local: VersionRange, peer: VersionRange)
      returns (version: Option<u16>)
      requires Valid()
      modifies this
      ensures Valid()
      ensures (Model(), version) == SessionModel.NegotiateTransitionVersion(old(Model()), local, peer)
    {
      version := local.Negotiate(peer);
      if version.None? {
        RecordValid(Model(), [TransitionRejected(IncompatibleVersion)]);
        RecordEvent(TransitionRejected(IncompatibleVersion));
      }
    }

    method RejectAttachment(error: AttachmentError)
      returns (result: Result<AttachmentAcceptance, AttachmentError>)
      requires Valid()
      modifies this`events
      ensures Valid() && result == Err(error)
      ensures Model() == Record(old(Model()), [TransitionRejected(AttachmentRejected)])
    {
      RecordValid(Model(), [TransitionRejected(AttachmentRejected)]);
      RecordEvent(TransitionRejected(AttachmentRejected));
      result := Err(error);
    }

    method AuthenticateCarrierAttachment(
        auth: Authenticator, sessionId: Id16, request: AttachmentRequest)
      returns (result: Result<AttachmentAcceptance, AttachmentError>)
      requires Valid()
      modifies this, replay
      ensures Valid()
      ensures (Model(), result) == Authenticate(old(Model()), auth, sessionId, request)
    {
      AuthenticateValid(Model(), auth, sessionId, request);
      hide FlowValid, Total;
      var attachment := request.attachment;
      if negotiated.None? {
        return Err(MissingNegotiation);
      }
      if request.parameters != negotiated.value {
        result := RejectAttachment(NegotiationMismatch);
        return;
      }
      match transition.Validate(attachment.epoch) {
        case Current =>
        case Retiring =>
          result := RejectAttachment(AttachmentStaleEpoch);
          return;
        case Stale =>
          result := RejectAttachment(AttachmentStaleEpoch);
          return;
        case Future =>
          result := RejectAttachment(AttachmentFutureEpoch);
          return;
      }
      if !auth.verifies(sessionId, attachment.epoch, attachment.attachmentId, negotiated.value, request.proof) {
        result := RejectAttachment(InvalidProof);
        return;
      }
      if accepted == Some(attachment) {
        return Ok(AlreadyAccepted);
      }
      var newer := replay.Accept(attachment.epoch);
      if !newer {
        result := RejectAttachment(Replay);
        return;
      }
      accepted := Some(attachment);
      result := Ok(Accepted);
    }

    method CompleteTransition()
      requires Valid()
      modifies this, transition
      ensures Valid()
      ensures Model() == SessionModel.CompleteTransition(old(Model()))
    {
      CompleteTransitionValid(Model());
      transition.RetirePrevious();
      retiringAttachment := None;
      RecordEvent(TransitionCompleted);
    }
  }

  lemma FrontBytes(pending: seq<PendingSegment>)
    requires pending != []
    ensures BytesOf(pending) == |pending[0].segment.bytes| + BytesOf(pending[1..])
  {
  }

  /** The release loop: pops while the front is covered, and stops at the first that is not. */
  method Release(flow: Flow, through: nat)
    returns (rest: seq<PendingSegment>, restBytes: nat, releasedSegments: nat, releasedBytes: nat)
    requires exists id :: QueueValid(id, flow)
    requires flow.pendingBytes == BytesOf(flow.pending)
    ensures rest == Uncovered(flow.pending, through) && restBytes == BytesOf(rest)
    ensures releasedSegments == |flow.pending| - |rest|
    ensures releasedBytes == BytesOf(flow.pending) - BytesOf(rest)
  {
    hide Uncovered, BytesOf;
    rest, restBytes, releasedSegments, releasedBytes := flow.pending, flow.pendingBytes, 0, 0;
    ghost var first := flow.nextSend - |flow.pending|;
    while rest != [] && rest[0].segment.sequence <= through
      invariant releasedSegments <= |flow.pending| && rest == flow.pending[releasedSegments..]
      invariant releasedSegments > 0 ==> first + releasedSegments - 1 <= through
      invariant restBytes == BytesOf(rest)
      invariant releasedBytes == BytesOf(flow.pending) - BytesOf(rest)
      decreases |rest|
    {
      var size := |rest[0].segment.bytes|;
      FrontBytes(rest);
      assert rest[1..] == flow.pending[releasedSegments + 1..];
      restBytes := restBytes - size;
      rest := rest[1..];
      releasedSegments := releasedSegments + 1;
      releasedBytes := releasedBytes + size;
    }
    UncoveredIsSuffix(flow.pending, first, through);
  }
}
