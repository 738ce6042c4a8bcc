/** What every session operation keeps, and hence what holds after any history. */
module SessionInvariants {
  import opened Common
  import opened FiniteSets
  import opened ProtocolTypes
  import opened SessionModel

  // ---------------------------------------------------------------- sums

  lemma {:induction false} BytesAppend(pending: seq<PendingSegment>, last: PendingSegment)
    ensures BytesOf(pending + [last]) == BytesOf(pending) + |last.segment.bytes|
  {
    if pending == [] {
      assert (pending + [last])[1..] == [];
    } else {
      assert (pending + [last])[1..] == pending[1..] + [last];
      BytesAppend(pending[1..], last);
    }
  }

  lemma {:induction false} BytesSplit(pending: seq<PendingSegment>, k: nat)
    requires k <= |pending|
    ensures BytesOf(pending) == BytesOf(pending[..k]) + BytesOf(pending[k..])
  {
    if k == 0 {
      assert pending[0..] == pending;
    } else {
      assert pending[..k][1..] == pending[1..][..k - 1];
      assert pending[k..] == pending[1..][k - 1..];
      BytesSplit(pending[1..], k - 1);
    }
  }

  /** A total does not depend on the order in which the flows are visited. */
  lemma {:induction false} TotalRemove(m: Measure, flows: map<FlowId, Flow>, id: FlowId)
    requires id in flows
    ensures Total(m, flows) == m.Of(flows[id]) + Total(m, flows - {id})
    decreases |flows|
  {
    var first :| first in flows && Total(m, flows) == m.Of(flows[first]) + Total(m, flows - {first});
    if first != id {
      TotalRemove(m, flows - {first}, id);
      TotalRemove(m, flows - {id}, first);
      assert flows - {first} - {id} == flows - {id} - {first};
    }
  }

  lemma TotalUpdate(m: Measure, flows: map<FlowId, Flow>, id: FlowId, flow: Flow)
    ensures Total(m, flows[id := flow]) == Total(m, flows - {id}) + m.Of(flow)
    ensures id !in flows ==> flows - {id} == flows
    ensures id in flows ==> Total(m, flows) == m.Of(flows[id]) + Total(m, flows - {id})
  {
    TotalRemove(m, flows[id := flow], id);
    assert flows[id := flow] - {id} == flows - {id};
    if id in flows {
      TotalRemove(m, flows, id);
    }
  }

  lemma {:induction false} TotalShrinks(m: Measure, flows: map<FlowId, Flow>, gone: set<FlowId>)
    ensures Total(m, flows - gone) <= Total(m, flows)
    decreases |gone|
  {
    if id :| id in gone {
      TotalShrinks(m, flows, gone - {id});
      var rest := flows - (gone - {id});
      if id in flows {
        TotalRemove(m, rest, id);
        assert rest - {id} == flows - gone;
      } else {
        assert rest == flows - gone;
      }
    } else {
      assert flows - gone == flows;
    }
  }

  // ---------------------------------------------------------------- invariant

  /** The queue lists, in order and without gaps, the sequences just below `nextSend`. */
  ghost predicate QueueValid(id: FlowId, flow: Flow) {
    && |flow.pending| <= flow.nextSend
    && forall i | 0 <= i < |flow.pending| ::
         && flow.pending[i].segment.flow == id
         && flow.pending[i].segment.sequence == flow.nextSend - |flow.pending| + i
  }

  /** Epochs and deadlines never decrease along the queue, and no deadline has passed. */
  ghost predicate QueueOrdered(current: nat, tick: nat, limits: FlowLimits, pending: seq<PendingSegment>) {
    && (forall i | 0 <= i < |pending| ::
          && pending[i].segment.epoch <= current
          && tick < pending[i].expiresAt <= tick + limits.maxPendingAge)
    && (forall i, j | 0 <= i <= j < |pending| ::
          && pending[i].segment.epoch <= pending[j].segment.epoch
          && pending[i].expiresAt <= pending[j].expiresAt)
  }

  ghost predicate FlowValid(current: nat, tick: nat, limits: FlowLimits, id: FlowId, flow: Flow) {
    && QueueValid(id, flow)
    && QueueOrdered(current, tick, limits, flow.pending)
    && flow.pendingBytes == BytesOf(flow.pending)
    && |flow.pending| <= limits.maxPendingSegments
    && flow.pendingBytes <= limits.maxPendingBytes
    && (flow.finalNext.Some? ==> flow.nextReceive <= flow.finalNext.value)
  }

  /** The invariant of the flow table, given the session's clock, limits and next free id. */
  ghost predicate TableValid(
      current: nat, tick: nat, limits: FlowLimits, nextFlow: u64, flows: map<FlowId, Flow>)
  {
    && (forall id <- flows :: FlowValid(current, tick, limits, id, flows[id]))
    && (forall id <- flows :: id < nextFlow)
    && |flows| <= limits.maxFlows
    && Total(Segments, flows) <= limits.maxSessionPendingSegments
    && Total(Measure.Bytes, flows) <= limits.maxSessionPendingBytes
  }

  ghost predicate FlowsValid(s: Session) {
    TableValid(s.current, s.tick, s.limits, s.nextFlow, s.flows)
  }

  /** An attachment is held exactly when the replay window has reached the current epoch. */
  ghost predicate AttachmentsValid(s: Session) {
    && (s.accepted.Some? <==> s.replay == Some(s.current))
    && (s.accepted.Some? ==> s.accepted.value.epoch == s.current && s.negotiated.Some?)
    && (s.replay.Some? ==> s.replay.value <= s.current)
    && (s.retiring.Some? ==> s.retiring.value + 1 == s.current)
    && (s.retiringAttachment.Some? ==> s.retiring == Some(s.retiringAttachment.value.epoch))
  }

  ghost predicate SessionValid(s: Session) {
    && s.limits.Positive()
    && FlowsValid(s)
    && AttachmentsValid(s)
    && |s.events| <= s.limits.maxEvents
  }

  // ---------------------------------------------------------------- preservation

  lemma FreshValid(epoch: nat, limits: FlowLimits)
    requires limits.Positive()
    ensures SessionValid(Fresh(epoch, limits))
  {
  }

  /** A flow's own invariant survives a new epoch, and time that reaches no deadline. */
  lemma FlowValidCarries(s: Session, current: nat, tick: nat, id: FlowId, flow: Flow)
    requires FlowValid(s.current, s.tick, s.limits, id, flow)
    requires s.current <= current && s.tick <= tick
    requires tick == s.tick || forall p <- flow.pending :: tick < p.expiresAt
    ensures FlowValid(current, tick, s.limits, id, flow)
  {
  }

  /** Inserting a valid flow keeps the table valid if the limits still hold. */
  lemma InsertValid(
      current: nat, tick: nat, limits: FlowLimits, nextFlow: u64, flows: map<FlowId, Flow>,
      id: FlowId, flow: Flow)
    requires TableValid(current, tick, limits, nextFlow, flows) && id < nextFlow
    requires FlowValid(current, tick, limits, id, flow)
    requires id in flows || |flows| < limits.maxFlows
    requires Total(Segments, flows - {id}) + |flow.pending| <= limits.maxSessionPendingSegments
    requires Total(Measure.Bytes, flows - {id}) + BytesOf(flow.pending)
             <= limits.maxSessionPendingBytes
    ensures TableValid(current, tick, limits, nextFlow, flows[id := flow])
  {
    hide FlowValid;
    TotalUpdate(Segments, flows, id, flow);
    TotalUpdate(Measure.Bytes, flows, id, flow);
    assert flows[id := flow].Keys == flows.Keys + {id};
  }

  /** Replacing one flow by a valid flow that weighs no more keeps the session valid. */
  lemma ReplaceValid(s: Session, id: FlowId, flow: Flow)
    requires SessionValid(s) && id in s.flows
    requires FlowValid(s.current, s.tick, s.limits, id, flow)
    requires |flow.pending| <= |s.flows[id].pending|
    requires BytesOf(flow.pending) <= BytesOf(s.flows[id].pending)
    ensures SessionValid(s.(flows := s.flows[id := flow]))
  {
    TotalUpdate(Segments, s.flows, id, flow);
    TotalUpdate(Measure.Bytes, s.flows, id, flow);
    InsertValid(s.current, s.tick, s.limits, s.nextFlow, s.flows, id, flow);
  }

  lemma RemoveValid(
      current: nat, tick: nat, limits: FlowLimits, nextFlow: u64, flows: map<FlowId, Flow>,
      gone: set<FlowId>)
    requires TableValid(current, tick, limits, nextFlow, flows)
    ensures TableValid(current, tick, limits, nextFlow, flows - gone)
  {
    TotalShrinks(Segments, flows, gone);
    TotalShrinks(Measure.Bytes, flows, gone);
    assert (flows - gone).Keys <= flows.Keys;
    SubsetSize((flows - gone).Keys, flows.Keys);
  }

  lemma RecordValid(s: Session, more: seq<SessionEvent>)
    requires SessionValid(s)
    ensures SessionValid(Record(s, more))
  {
    var next := Record(s, more);
  }

  lemma NewFlowValid(s: Session, id: FlowId)
    ensures FlowValid(s.current, s.tick, s.limits, id, NewFlow)
  {
  }

  lemma OpenFlowValid(s: Session, id: FlowId)
    requires SessionValid(s)
    ensures SessionValid(OpenFlow(s, id).0)
  {
    hide FlowValid;
    NewFlowValid(s, id);
    if OpenFlow(s, id).1.Ok? {
      TotalUpdate(Segments, s.flows, id, NewFlow);
      TotalUpdate(Measure.Bytes, s.flows, id, NewFlow);
      InsertValid(s.current, s.tick, s.limits, id + 1, s.flows, id, NewFlow);
    }
  }

  lemma EnqueueValid(
      current: nat, tick: nat, limits: FlowLimits, id: FlowId, flow: Flow, segment: Segment)
    requires FlowValid(current, tick, limits, id, flow) && 0 < limits.maxPendingAge
    requires segment.flow == id && segment.epoch == current && segment.sequence == flow.nextSend
    requires |flow.pending| < limits.maxPendingSegments
    requires BytesOf(flow.pending) + |segment.bytes| <= limits.maxPendingBytes
    ensures FlowValid(current, tick, limits, id, Enqueue(flow, segment, tick + limits.maxPendingAge))
  {
    BytesAppend(flow.pending, PendingSegment(segment, tick + limits.maxPendingAge));
  }

  lemma SendTableValid(s: Session, id: FlowId, bytes: Bytes)
    requires s.limits.Positive() && FlowsValid(s)
    requires id in s.flows && SendRefusal(s, s.flows[id], bytes).None?
    ensures FlowsValid(Send(s, id, bytes).0)
  {
    hide FlowValid;
    var segment := Segment(id, s.current, s.flows[id].nextSend, bytes);
    var last := PendingSegment(segment, s.tick + s.limits.maxPendingAge);
    var flow := Enqueue(s.flows[id], segment, last.expiresAt);
    EnqueueValid(s.current, s.tick, s.limits, id, s.flows[id], segment);
    BytesAppend(s.flows[id].pending, last);
    TotalUpdate(Segments, s.flows, id, flow);
    TotalUpdate(Measure.Bytes, s.flows, id, flow);
    InsertValid(s.current, s.tick, s.limits, s.nextFlow, s.flows, id, flow);
  }

  lemma SendValid(s: Session, id: FlowId, bytes: Bytes)
    requires SessionValid(s)
    ensures SessionValid(Send(s, id, bytes).0)
  {
    if id in s.flows {
      if SendRefusal(s, s.flows[id], bytes).Some? {
        RecordValid(s, [PendingLimitReached]);
      } else {
        SendTableValid(s, id, bytes);
      }
    }
  }

  /** On a gap-free queue, what an acknowledgement leaves is a suffix. */
  lemma {:induction false} UncoveredIsSuffix(pending: seq<PendingSegment>, first: nat, through: nat)
    requires forall i | 0 <= i < |pending| :: pending[i].segment.sequence == first + i
    ensures Uncovered(pending, through) ==
            pending[if through < first then 0
                    else if through - first + 1 < |pending| then through - first + 1
                    else |pending|..]
  {
    if pending != [] {
      assert forall i | 0 <= i < |pending[1..]| :: pending[1..][i] == pending[i + 1];
      UncoveredIsSuffix(pending[1..], first + 1, through);
    }
  }

  lemma SuffixFlowValid(s: Session, id: FlowId, flow: Flow, k: nat)
    requires FlowValid(s.current, s.tick, s.limits, id, flow)
    requires k <= |flow.pending|
    ensures FlowValid(s.current, s.tick, s.limits, id, flow.(pending := flow.pending[k..], pendingBytes := BytesOf(flow.pending[k..])))
    ensures BytesOf(flow.pending[k..]) <= BytesOf(flow.pending)
  {
    BytesSplit(flow.pending, k);
    var rest := flow.pending[k..];
    assert forall i | 0 <= i < |rest| :: rest[i] == flow.pending[k + i];
  }

  lemma TableFlowValid(s: Session, id: FlowId)
    requires FlowsValid(s) && id in s.flows
    ensures FlowValid(s.current, s.tick, s.limits, id, s.flows[id])
  {
  }

  lemma AcknowledgeValid(s: Session, ack: Acknowledgement)
    requires SessionValid(s)
    ensures SessionValid(Acknowledge(s, ack).0)
  {
    hide TableValid;
    if Acknowledge(s, ack).1.Ok? {
      var flow := s.flows[ack.flow];
      assert FlowsValid(s);
      assert FlowValid(s.current, s.tick, s.limits, ack.flow, flow) by { TableFlowValid(s, ack.flow); }
      UncoveredIsSuffix(flow.pending, flow.nextSend - |flow.pending|, ack.through);
      var k := |flow.pending| - |Uncovered(flow.pending, ack.through)|;
      SuffixFlowValid(s, ack.flow, flow, k);
      ReplaceValid(s, ack.flow, flow.(pending := flow.pending[k..], pendingBytes := BytesOf(flow.pending[k..])));
    }
  }

  lemma ReceiveValid(s: Session, segment: Segment)
    requires SessionValid(s)
    ensures SessionValid(Receive(s, segment).0)
  {
    RecordValid(s, [DuplicateIgnored]);
    RecordValid(s, [OutOfOrderRejected]);
    var (next, result) := Receive(s, segment);
    if result.Ok? && result.value.Delivered? {
      assert FlowValid(s.current, s.tick, s.limits, segment.flow, s.flows[segment.flow]);
      ReplaceValid(s, segment.flow, next.flows[segment.flow]);
    }
  }

  lemma FinishReceivingValid(s: Session, id: FlowId, epoch: nat, finalNext: nat)
    requires SessionValid(s)
    ensures SessionValid(FinishReceiving(s, id, epoch, finalNext).0)
  {
    var (next, result) := FinishReceiving(s, id, epoch, finalNext);
    if result.Ok? && next != s {
      assert FlowValid(s.current, s.tick, s.limits, id, s.flows[id]);
      ReplaceValid(s, id, next.flows[id]);
    }
  }

  /** Deadlines are ordered, so a flow holds an expired segment iff its oldest one expired. */
  lemma FrontDecidesExpiry(s: Session, pending: seq<PendingSegment>, tick: nat)
    requires QueueOrdered(s.current, s.tick, s.limits, pending)
    ensures (exists p <- pending :: p.expiresAt <= tick) <==>
            (pending != [] && pending[0].expiresAt <= tick)
  {
    if p :| p in pending && p.expiresAt <= tick {
      var i :| 0 <= i < |pending| && pending[i] == p;
      assert pending[0].expiresAt <= pending[i].expiresAt;
    }
  }

  lemma ExpireTableValid(s: Session, tick: nat)
    requires FlowsValid(s) && s.tick <= tick
    ensures TableValid(s.current, tick, s.limits, s.nextFlow, DropExpired(s.flows, tick))
  {
    var live := DropExpired(s.flows, tick);
    RemoveValid(s.current, s.tick, s.limits, s.nextFlow, s.flows, Expired(s.flows, tick));
    forall id <- live ensures FlowValid(s.current, tick, s.limits, id, live[id]) {
      FlowValidCarries(s, s.current, tick, id, live[id]);
    }
  }

  lemma AdvanceTimeValid(s: Session, ticks: nat)
    requires SessionValid(s)
    ensures SessionValid(AdvanceTime(s, ticks))
  {
    hide FlowValid, TableValid, DropExpired, Expired, TimeOuts;
    var tick := s.tick + ticks;
    ExpireTableValid(s, tick);
    RecordValid(s.(tick := tick, flows := DropExpired(s.flows, tick)), TimeOuts(|Expired(s.flows, tick)|));
  }

  lemma BeginTransitionValid(s: Session)
    requires SessionValid(s)
    ensures SessionValid(BeginTransition(s).0)
  {
    var next := BeginTransition(s).0;
    forall id <- next.flows
      ensures FlowValid(next.current, next.tick, next.limits, id, next.flows[id])
    {
      FlowValidCarries(s, next.current, s.tick, id, s.flows[id]);
    }
  }

  lemma CompleteTransitionValid(s: Session)
    requires SessionValid(s)
    ensures SessionValid(CompleteTransition(s))
  {
    var next := CompleteTransition(s);
  }

  lemma BindParametersValid(s: Session, parameters: NegotiatedParameters)
    requires SessionValid(s)
    ensures SessionValid(BindParameters(s, parameters).0)
  {
    var next := BindParameters(s, parameters).0;
  }

  lemma AuthenticateValid(s: Session, auth: Authenticator, sessionId: Id16, request: AttachmentRequest)
    requires SessionValid(s)
    ensures SessionValid(Authenticate(s, auth, sessionId, request).0)
  {
    var next := Authenticate(s, auth, sessionId, request).0;
    RecordValid(s, [TransitionRejected(AttachmentRejected)]);
  }
}
