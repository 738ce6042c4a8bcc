/** Admission of captured flows: one lease per flow, bounded per protocol, owned by a runtime generation. */
module TunFlows {
  import opened Common
  import opened ClientRuntimes

  datatype ConfigError = NoTcpFlows | NoUdpAssociations

  datatype AdmissionError = NotOnline | TcpFlowLimit | UdpAssociationLimit

  datatype Limits = Limits(maxTcpFlows: nat, maxUdpAssociations: nat) {
    function Of(protocol: FlowProtocol): nat { if protocol.Tcp? then maxTcpFlows else maxUdpAssociations }

    predicate Valid() { maxTcpFlows > 0 && maxUdpAssociations > 0 }
  }

  /** Leases by flow: the generation each was admitted in. */
  type Leases = map<FlowKey, nat>

  function Using(flows: Leases, protocol: FlowProtocol): set<FlowKey> {
    set k | k in flows && k.protocol == protocol
  }

  predicate IsOnline(s: Snapshot, generation: nat) {
    s.generation == generation && s.phase.Online?
  }

  /** The generation seen by two successive reads of the runtime's snapshot. */
  function CurrentGeneration(first: Snapshot, second: Snapshot): Option<nat> {
    if IsOnline(second, first.generation) then Some(first.generation) else None
  }

  ghost predicate Bounded(flows: Leases, limits: Limits) {
    forall protocol: FlowProtocol :: |Using(flows, protocol)| <= limits.Of(protocol)
  }

  /** Who is admitted: holders of a lease, and new flows while there is room. */
  function Admission(flows: Leases, limits: Limits, key: FlowKey, first: Snapshot, second: Snapshot)
    : Result<nat, AdmissionError>
  {
    if !IsOnline(second, first.generation) then Err(NotOnline)
    else if key in flows || |Using(flows, key.protocol)| < limits.Of(key.protocol) then Ok(first.generation)
    else Err(if key.protocol.Tcp? then TcpFlowLimit else UdpAssociationLimit)
  }

  /** Who is let in, and what the others are told; both reads of the runtime must see one online generation. */
  lemma AdmittingAnswers(flows: Leases, limits: Limits, key: FlowKey, first: Snapshot, second: Snapshot)
    ensures var r := Admission(flows, limits, key, first, second);
      var online := second.phase == Online && second.generation == first.generation;
      var others := |set k | k in flows && k.protocol == key.protocol|;
      var room := if key.protocol == Tcp then others < limits.maxTcpFlows else others < limits.maxUdpAssociations;
      && (r == Ok(first.generation) <==> online && (key in flows || room))
      && (r.Ok? ==> r == Ok(first.generation))
      && (r == Err(NotOnline) <==> !online)
      && (r == Err(TcpFlowLimit) <==> online && key !in flows && !room && key.protocol == Tcp)
      && (r == Err(UdpAssociationLimit) <==> online && key !in flows && !room && key.protocol == Udp)
  {
  }

  /** Giving up its own lease always makes room for the flow that held it. */
  lemma HoldersLeaveRoom(flows: Leases, limits: Limits, key: FlowKey)
    requires Bounded(flows, limits) && key in flows
    ensures |Using(flows - {key}, key.protocol)| < limits.Of(key.protocol)
  {
    assert Using(flows - {key}, key.protocol) == Using(flows, key.protocol) - {key};
  }

  /** Leases of a dead generation still take slots: a registry full of them refuses a new flow. */
  lemma StaleLeasesFillTheRegistry(limits: Limits, flows: Leases, key: FlowKey, online: Snapshot)
    requires key !in flows && online.phase.Online?
    requires |Using(flows, key.protocol)| == limits.Of(key.protocol)
    requires forall k <- flows :: flows[k] < online.generation
    ensures Admission(flows, limits, key, online, online).Err?
    ensures forall k <- flows :: !IsOnline(online, flows[k])
  {
  }

  /** A runtime that connects, loses its connection and connects again. */
  const CONNECT: seq<Step> := [CallStart, Dialled(1, None), Report(1)]
  const RECONNECT: seq<Step> :=
    [PeerCloses(1), ReportClosed(1, Connection), CallStart, Dialled(2, None), Report(2)]

  const HERE: SocketAddr := SocketAddr(V4(1), 1)
  const THERE: SocketAddr := SocketAddr(V4(2), 2)

  /** It happens: a flow admitted before the loss keeps the one slot, and a new flow is refused after it. */
  lemma ADeadLeaseRefusesANewFlow()
    ensures var limits, dead, key := Limits(1, 1), FlowKey(Tcp, HERE, THERE), FlowKey(Tcp, THERE, HERE);
      var before := Run(NewWorld, CONNECT).inner.snapshot;
      var after := Run(Run(NewWorld, CONNECT), RECONNECT).inner.snapshot;
      && limits.Valid()
      && Admission(map[], limits, dead, before, before) == Ok(1)
      && !IsOnline(after, 1)
      && Admission(map[dead := 1], limits, key, after, after) == Err(TcpFlowLimit)
  {
    ConnectsThenReconnects();
    var dead := FlowKey(Tcp, HERE, THERE);
    assert Using(map[], Tcp) == {} && Using(map[dead := 1], Tcp) == {dead};
  }

  lemma RunStep(w: World, first: Step, rest: seq<Step>)
    ensures Run(w, [first] + rest) == Run(Take(w, first), rest)
  {
    assert ([first] + rest)[1..] == rest;
  }

  lemma ConnectsThenReconnects()
    ensures Run(NewWorld, CONNECT).inner.snapshot == Snapshot(2, 1, Online, None)
    ensures Run(Run(NewWorld, CONNECT), RECONNECT).inner.snapshot == Snapshot(5, 2, Online, None)
  {
    hide Run, Take;
    Connects();
    FirstSnapshots();
    Reconnects(FirstConnection());
  }

  /** The world after the first connection. */
  function FirstConnection(): World {
    Take(Take(Take(NewWorld, CallStart), Dialled(1, None)), Report(1))
  }

  lemma Connects()
    ensures Run(NewWorld, CONNECT) == FirstConnection()
  {
    hide Take;
    RunThree(NewWorld, CallStart, Dialled(1, None), Report(1));
  }

  lemma FirstSnapshots()
    ensures var w := FirstConnection();
      && w.inner.snapshot == Snapshot(2, 1, Online, None)
      && w.tasks == map[1 := Watching(0)]
  {
  }

  lemma RunThree(w: World, a: Step, b: Step, c: Step)
    ensures Run(w, [a, b, c]) == Take(Take(Take(w, a), b), c)
  {
    hide Take;
    var none: seq<Step> := [];
    RunStep(w, a, [b, c]);
    RunStep(Take(w, a), b, [c]);
    RunStep(Take(Take(w, a), b), c, none);
    assert [a, b, c] == [a] + [b, c] && [b, c] == [b] + [c] && [c] == [c] + none;
  }

  lemma Reconnects(w: World)
    requires w.inner.snapshot == Snapshot(2, 1, Online, None) && w.tasks == map[1 := Watching(0)]
    ensures Run(w, RECONNECT).inner.snapshot == Snapshot(5, 2, Online, None)
  {
    hide Run;
    var lost := Take(Take(w, PeerCloses(1)), ReportClosed(1, Connection));
    assert lost.inner.snapshot == Snapshot(3, 1, Failed, Some(Connection));
    RunStep(w, PeerCloses(1), RECONNECT[1..]);
    RunStep(Take(w, PeerCloses(1)), ReportClosed(1, Connection), RECONNECT[2..]);
    RunThree(lost, CallStart, Dialled(2, None), Report(2));
    assert RECONNECT == [PeerCloses(1)] + RECONNECT[1..];
    assert RECONNECT[1..] == [ReportClosed(1, Connection)] + RECONNECT[2..];
    assert RECONNECT[2..] == [CallStart, Dialled(2, None), Report(2)];
  }

  class TunFlowRegistry {
    const limits: Limits
    var flows: Leases

    ghost predicate Valid()
      reads this
    {
      Bounded(flows, limits)
    }

    constructor (limits: Limits)
      requires limits.Valid()
      ensures Valid() && flows == map[] && this.limits == limits
    {
      this.limits := limits;
      flows := map[];
      new;
      NoFlows();
    }

    /**
     * A flow that holds a lease is always admitted again while the runtime is
     * online; a new flow is, exactly when the leases of its protocol, of
     * whatever generation, leave room.  A refusal changes nothing.
     */
    method Admit(key: FlowKey, first: Snapshot, second: Snapshot) returns (r: Result<nat, AdmissionError>)
      requires Valid()
      modifies this
      ensures Valid()
      ensures r == Admission(old(flows), limits, key, first, second)
      ensures key in old(flows) && IsOnline(second, first.generation) ==> r.Ok?
      ensures flows == if r.Ok? then old(flows)[key := first.generation] else old(flows)
    {
      var generation := CurrentGeneration(first, second);
      if generation.None? {
        return Err(NotOnline);
      }
      if key in flows {
        if flows[key] == generation.value {
          assert flows == flows[key := generation.value];
          return Ok(generation.value);
        }
        Shrinks(flows, key);
        HoldersLeaveRoom(flows, limits, key);
        flows := flows - {key};
      }
      r := AdmitNew(key, generation.value);
      assert r.Ok? ==> flows == old(flows)[key := generation.value];
    }

    method AdmitNew(key: FlowKey, generation: nat) returns (r: Result<nat, AdmissionError>)
      requires Valid() && key !in flows
      modifies this
      ensures Valid()
      ensures r.Ok? <==> |Using(old(flows), key.protocol)| < limits.Of(key.protocol)
      ensures r.Ok? ==> r.value == generation && flows == old(flows)[key := generation]
      ensures r.Err? ==> flows == old(flows)
      ensures r.Err? ==> r.error == (if key.protocol.Tcp? then TcpFlowLimit else UdpAssociationLimit)
    {
      var used := |Using(flows, key.protocol)|;
      if used >= limits.Of(key.protocol) {
        return Err(if key.protocol.Tcp? then TcpFlowLimit else UdpAssociationLimit);
      }
      Grows(flows, key, generation);
      flows := flows[key := generation];
      return Ok(generation);
    }

    method IsActive(key: FlowKey, generation: nat, now: Snapshot) returns (active: bool)
      ensures active <==> IsOnline(now, generation) && HasLease(flows, key, generation)
    {
      return IsOnline(now, generation) && key in flows && flows[key] == generation;
    }

    method Release(key: FlowKey) returns (held: bool)
      requires Valid()
      modifies this
      ensures Valid() && held == (key in old(flows)) && flows == old(flows) - {key}
    {
      held := key in flows;
      Shrinks(flows, key);
      flows := flows - {key};
    }

    method Clear()
      requires Valid()
      modifies this
      ensures Valid() && flows == map[]
    {
      NoFlows();
      flows := map[];
    }

    lemma NoFlows()
      ensures Bounded(map[], limits)
    {
      assert forall protocol: FlowProtocol :: Using(map[], protocol) == {};
    }

    lemma Shrinks(flows: Leases, key: FlowKey)
      requires Bounded(flows, limits)
      ensures Bounded(flows - {key}, limits)
    {
      forall protocol: FlowProtocol ensures |Using(flows - {key}, protocol)| <= |Using(flows, protocol)| {
        var all, fewer := Using(flows, protocol), Using(flows - {key}, protocol);
        assert all == fewer + (all - fewer);
      }
    }

    lemma Grows(flows: Leases, key: FlowKey, generation: nat)
      requires Bounded(flows, limits) && key !in flows
      requires |Using(flows, key.protocol)| < limits.Of(key.protocol)
      ensures Bounded(flows[key := generation], limits)
    {
      forall protocol: FlowProtocol ensures |Using(flows[key := generation], protocol)| <= limits.Of(protocol) {
        if protocol == key.protocol {
          assert Using(flows[key := generation], protocol) == Using(flows, protocol) + {key};
        } else {
          assert Using(flows[key := generation], protocol) == Using(flows, protocol);
        }
      }
    }
  }

  method NewTunFlowRegistry(limits: Limits) returns (r: Result<TunFlowRegistry, ConfigError>)
    ensures r.Ok? <==> limits.Valid()
    ensures r.Err? ==> r.error == if limits.maxTcpFlows == 0 then NoTcpFlows else NoUdpAssociations
    ensures r.Ok? ==> fresh(r.value) && r.value.Valid() && r.value.limits == limits && r.value.flows == map[]
  {
    if limits.maxTcpFlows == 0 {
      return Err(NoTcpFlows);
    }
    if limits.maxUdpAssociations == 0 {
      return Err(NoUdpAssociations);
    }
    var registry := new TunFlowRegistry(limits);
    return Ok(registry);
  }

  predicate HasLease(flows: Leases, key: FlowKey, generation: nat) {
    key in flows && flows[key] == generation
  }

  /**
   * A flow admitted once is active only until the runtime moves on: after any
   * run that ends in another generation, its lease is dead for good.
   */
  lemma LeasesDieWithTheirGeneration(w: World, steps: seq<Step>, later: seq<Step>, flows: Leases, key: FlowKey)
    requires WorldValid(w) && key in flows
    requires flows[key] == w.inner.snapshot.generation
    requires Run(w, steps).inner.snapshot.generation != w.inner.snapshot.generation
    ensures !IsOnline(Run(Run(w, steps), later).inner.snapshot, flows[key])
  {
    hide Take, InnerValid, TasksValid, ClientsValid;
    RunExtends(w, steps);
    RunValid(w, steps);
    RunExtends(Run(w, steps), later);
  }
}
