/** Recovery through the carriers: how any honest run can be carried on to a complete stream. */
module EndToEndRecovery {
  import opened Common
  import opened ProtocolTypes
  import opened SessionModel
  import opened SessionInvariants
  import opened SessionHistory
  import opened FaultyCarrier
  import opened EndToEnd

  lemma {:induction false} RunConcat(sys: System, a: seq<Event>, b: seq<Event>)
    ensures Run(sys, a + b) == Run(Run(sys, a), b)
    ensures HonestRun(sys, a + b) <==> HonestRun(sys, a) && HonestRun(Run(sys, a), b)
    decreases |a|
  {
    hide SystemStep, Honest;
    if a == [] {
      assert a + b == b;
    } else {
      assert (a + b)[0] == a[0] && (a + b)[1..] == a[1..] + b;
      RunConcat(SystemStep(sys, a[0]), a[1..], b);
    }
  }

  /** A carrier number not in use. */
  ghost function Above(used: set<nat>): (n: nat)
    ensures forall k <- used :: k < n
  {
    if used == {} then 0
    else
      var k :| k in used;
      assert forall x <- used :: x == k || x in used - {k};
      var n := Above(used - {k});
      if n <= k then k + 1 else n
  }

  /** Sends one issued segment over an idle carrier and has it received at once. */
  function CarryOne(sys: System, carrier: nat, index: nat): seq<Event> {
    [TransmitOn(carrier, index, Deliver), AdvanceCarrier(carrier, 0), Arrive(|sys.arrived|)]
  }

  /** What the receiver makes of one segment. */
  function Received(sys: System, segment: Segment): System {
    var (session, result) := Receive(sys.receiver.session, segment);
    var next := sys.(receiver := sys.receiver.(session := session));
    if result.Ok? && result.value.Delivered? then
      next.(delivered := Append(next.delivered, segment.flow, result.value.bytes))
    else next
  }

  lemma IdleCarrierDelivers(segment: Segment)
    ensures AfterAdvance(AfterTransmit(NewCarrier, segment, Deliver), 0) == (NewCarrier, [segment])
  {
    var scheduled := AfterTransmit(NewCarrier, segment, Deliver).scheduled;
    assert scheduled == [Scheduled(0, segment)];
    assert scheduled[0] == Scheduled(0, segment) && scheduled[1..] == [];
    assert [segment] + [] == [segment] && [] + [] == ([segment])[1..];
    assert Ready([], 0) == [] && Waiting([], 0) == [];
  }

  lemma RunOne(sys: System, a: Event)
    ensures Run(sys, [a]) == SystemStep(sys, a)
    ensures HonestRun(sys, [a]) <==> Honest(sys, a)
  {
    hide SystemStep, Honest;
    var none: seq<Event> := [];
    assert [a][1..] == none;
  }

  lemma RunTwo(sys: System, a: Event, b: Event)
    requires !a.AtSender? && !b.AtSender?
    ensures Run(sys, [a, b]) == SystemStep(SystemStep(sys, a), b)
    ensures HonestRun(sys, [a, b])
  {
    hide SystemStep, Run, HonestRun;
    RunOne(sys, a);
    RunOne(SystemStep(sys, a), b);
    RunConcat(sys, [a], [b]);
    assert [a, b] == [a] + [b];
  }

  lemma RunThree(sys: System, a: Event, b: Event, c: Event)
    requires !a.AtSender? && !b.AtSender? && !c.AtSender?
    ensures Run(sys, [a, b, c]) == SystemStep(SystemStep(SystemStep(sys, a), b), c)
    ensures HonestRun(sys, [a, b, c])
  {
    hide SystemStep, Run, HonestRun;
    RunTwo(sys, a, b);
    RunOne(Run(sys, [a, b]), c);
    RunConcat(sys, [a, b], [c]);
    assert [a, b, c] == [a, b] + [c];
  }

  /** A delivered transmission is handed over by the next advance, and the carrier is idle again. */
  lemma HandOver(sys: System, carrier: nat, index: nat)
    requires carrier in sys.carriers && sys.carriers[carrier] == NewCarrier && index < |sys.issued|
    ensures SystemStep(SystemStep(sys, TransmitOn(carrier, index, Deliver)), AdvanceCarrier(carrier, 0))
         == sys.(arrived := sys.arrived + [sys.issued[index]])
  {
    hide AfterAdvance, AfterTransmit;
    var segment := sys.issued[index];
    IdleCarrierDelivers(segment);
    assert sys.carriers[carrier := AfterTransmit(NewCarrier, segment, Deliver)][carrier := NewCarrier] == sys.carriers;
  }

  lemma LastArrival(sys: System, segment: Segment)
    ensures SystemStep(sys.(arrived := sys.arrived + [segment]), Arrive(|sys.arrived|)) == Received(sys, segment)
  {
    hide Receive;
    var n, arrived := |sys.arrived|, sys.arrived + [segment];
    assert arrived[n] == segment && arrived[..n] + arrived[n + 1..] == sys.arrived;
  }

  lemma CarryOneReceives(sys: System, carrier: nat, index: nat)
    requires carrier in sys.carriers && sys.carriers[carrier] == NewCarrier && index < |sys.issued|
    ensures Run(sys, CarryOne(sys, carrier, index)) == Received(sys, sys.issued[index])
    ensures HonestRun(sys, CarryOne(sys, carrier, index))
  {
    hide Received, SystemStep, Run, HonestRun;
    RunThree(sys, TransmitOn(carrier, index, Deliver), AdvanceCarrier(carrier, 0), Arrive(|sys.arrived|));
    HandOver(sys, carrier, index);
    LastArrival(sys, sys.issued[index]);
  }

  /** Sends every issued segment from `index` on, one after the other. */
  function CarryAll(sys: System, carrier: nat, index: nat): seq<Event>
    requires index <= |sys.issued|
    decreases |sys.issued| - index
  {
    if index == |sys.issued| then []
    else CarryOne(sys, carrier, index) + CarryAll(Received(sys, sys.issued[index]), carrier, index + 1)
  }

  /** Carrying a batch of one flow is the receiver's `ReceiveAll`, and the log grows by what it recovers. */
  lemma {:induction false} CarryAllReceives(sys: System, carrier: nat, index: nat, id: FlowId)
    requires carrier in sys.carriers && sys.carriers[carrier] == NewCarrier && index <= |sys.issued|
    requires forall i | index <= i < |sys.issued| :: sys.issued[i].flow == id
    ensures var events := CarryAll(sys, carrier, index);
      var last := Run(sys, events);
      var (session, recovered) := ReceiveAll(sys.receiver.session, sys.issued[index..]);
      && HonestRun(sys, events)
      && last == sys.(receiver := sys.receiver.(session := session), delivered := last.delivered)
      && LogOf(last.delivered, id) == LogOf(sys.delivered, id) + recovered
    decreases |sys.issued| - index
  {
    hide Receive, SystemStep, Run, HonestRun, CarryOne;
    if index == |sys.issued| {
      assert sys.issued[index..] == [];
      NothingRuns(sys);
    } else {
      var segment := sys.issued[index];
      var next := Received(sys, segment);
      var rest := CarryAll(next, carrier, index + 1);
      CarryOneReceives(sys, carrier, index);
      CarryAllReceives(next, carrier, index + 1, id);
      RunConcat(sys, CarryOne(sys, carrier, index), rest);
      assert sys.issued[index..][0] == segment && sys.issued[index..][1..] == sys.issued[index + 1..];
    }
  }

  lemma NothingRuns(sys: System)
    ensures Run(sys, []) == sys && HonestRun(sys, [])
  {
  }

  /** The state after the sender reissued the queue and a new carrier was opened. */
  function Resumed(sys: System, id: FlowId, carrier: nat): System {
    sys.(issued := sys.issued + Reissue(sys.sender.session, id), carriers := sys.carriers[carrier := NewCarrier])
  }

  ghost function Recovery(sys: System, id: FlowId): seq<Event> {
    var carrier := Above(sys.carriers.Keys);
    [ResumeOn(id), OpenCarrier(carrier)] + CarryAll(Resumed(sys, id, carrier), carrier, |sys.issued|)
  }

  /** Reissuing over a new carrier recovers the whole stream. */
  lemma RecoveryDelivers(sys: System, id: FlowId)
    requires SystemSafe(sys) && ReleasedWasDelivered(sys.sender.session, sys.delivered)
    requires id in sys.sender.session.flows && id in sys.receiver.session.flows
    requires MayReach(sys.receiver.session, id, sys.sender.session.current, sys.sender.session.flows[id].nextSend)
    ensures var last := Run(sys, Recovery(sys, id));
      && HonestRun(sys, Recovery(sys, id))
      && last.sender == sys.sender && last.sent == sys.sent
      && LogOf(last.delivered, id) == LogOf(sys.sent, id)
  {
    hide SystemSafe, ReleasedWasDelivered, Run, HonestRun, MayReach, CarryAll, ReceiveAll, LogOf;
    var carrier := Above(sys.carriers.Keys);
    var ready := Resumed(sys, id, carrier);
    var batch := Reissue(sys.sender.session, id);
    RunTwo(sys, ResumeOn(id), OpenCarrier(carrier));
    assert ready.issued[|sys.issued|..] == batch;
    ResumeIsConsecutive(sys, id);
    assert forall i | |sys.issued| <= i < |ready.issued| :: ready.issued[i] == batch[i - |sys.issued|];
    CarryAllReceives(ready, carrier, |sys.issued|, id);
    RunConcat(sys, [ResumeOn(id), OpenCarrier(carrier)], CarryAll(ready, carrier, |sys.issued|));
    RecoveryIsComplete(sys, id);
  }

  /** The acknowledgement that ends a recovery; a flow that sent nothing needs none. */
  function Confirmation(s: Session, id: FlowId): seq<Event>
    requires id in s.flows
  {
    if s.flows[id].nextSend == 0 then []
    else [AtSender(OpAcknowledge(Acknowledgement(id, s.current, s.flows[id].nextSend - 1)))]
  }

  /** Acknowledging what was delivered is honest, and empties the queue. */
  lemma ConfirmationEmpties(sys: System, id: FlowId)
    requires SystemSafe(sys) && id in sys.sender.session.flows
    requires LogOf(sys.delivered, id) == LogOf(sys.sent, id)
    requires |LogOf(sys.sent, id)| == sys.sender.session.flows[id].nextSend
    ensures var events := Confirmation(sys.sender.session, id);
      var last := Run(sys, events);
      && HonestRun(sys, events)
      && last.sent == sys.sent && last.delivered == sys.delivered
      && id in last.sender.session.flows && last.sender.session.flows[id].pending == []
  {
    hide SystemSafe, HistoryValid, Acknowledge;
    var s := sys.sender.session;
    SafeHistories(sys);
    if s.flows[id].nextSend == 0 {
      QueueIsGapFree(sys.sender, id);
      NothingRuns(sys);
    } else {
      RunOne(sys, Confirmation(s, id)[0]);
      FinalAcknowledgementReleasesAll(sys.sender, id);
    }
  }

  /**
   * End-to-end recovery.  Whatever has been lost, from every state an honest
   * run can reach in which the receiver may still take the sender's epoch and
   * has recorded no earlier end, there is an honest continuation through the
   * carriers after which everything sent is delivered and nothing is queued.
   */
  lemma EveryHonestRunCanBeCompleted(
      senderEpoch: nat, senderLimits: FlowLimits, receiverEpoch: nat, receiverLimits: FlowLimits,
      events: seq<Event>, id: FlowId)
    requires senderLimits.Positive() && receiverLimits.Positive()
    requires var start := Start(Begin(senderEpoch, senderLimits), Begin(receiverEpoch, receiverLimits));
      var sys := Run(start, events);
      && HonestRun(start, events)
      && id in sys.sender.session.flows && id in sys.receiver.session.flows
      && MayReach(sys.receiver.session, id, sys.sender.session.current, sys.sender.session.flows[id].nextSend)
    ensures exists more: seq<Event> ::
      var start := Start(Begin(senderEpoch, senderLimits), Begin(receiverEpoch, receiverLimits));
      var last := Run(start, events + more);
      && HonestRun(start, events + more)
      && LogOf(last.sent, id) == LogOf(Run(start, events).sent, id)
      && LogOf(last.delivered, id) == LogOf(last.sent, id)
      && id in last.sender.session.flows && last.sender.session.flows[id].pending == []
  {
    var start := Start(Begin(senderEpoch, senderLimits), Begin(receiverEpoch, receiverLimits));
    EveryHistoryIsValid(senderEpoch, senderLimits, []);
    EveryHistoryIsValid(receiverEpoch, receiverLimits, []);
    hide HistoryValid, Run, HonestRun, MayReach, LogOf;
    HonestRunKeeps(start, events);
    hide SystemSafe, ReleasedWasDelivered;
    CompletionFrom(start, events, id);
  }

  lemma CompletionFrom(start: System, events: seq<Event>, id: FlowId)
    requires HonestRun(start, events)
    requires var sys := Run(start, events);
      && SystemSafe(sys) && ReleasedWasDelivered(sys.sender.session, sys.delivered)
      && id in sys.sender.session.flows && id in sys.receiver.session.flows
      && MayReach(sys.receiver.session, id, sys.sender.session.current, sys.sender.session.flows[id].nextSend)
    ensures exists more: seq<Event> ::
      var last := Run(start, events + more);
      && HonestRun(start, events + more)
      && LogOf(last.sent, id) == LogOf(Run(start, events).sent, id)
      && LogOf(last.delivered, id) == LogOf(last.sent, id)
      && id in last.sender.session.flows && last.sender.session.flows[id].pending == []
  {
    hide SystemSafe, ReleasedWasDelivered, Run, HonestRun, MayReach, LogOf, Recovery, Confirmation;
    var sys := Run(start, events);
    var recovery := Recovery(sys, id);
    RecoveryDelivers(sys, id);
    HonestRunKeeps(sys, recovery);
    SafeFacts(sys, id);
    var recovered := Run(sys, recovery);
    var confirmation := Confirmation(recovered.sender.session, id);
    ConfirmationEmpties(recovered, id);
    RunConcat(sys, recovery, confirmation);
    RunConcat(start, events, recovery + confirmation);
    assert HonestRun(start, events + (recovery + confirmation));
  }
}
