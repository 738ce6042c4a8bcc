/** UDP associations: two indexes over the same pairs, and session ids that wrap around. */
module UdpAssociations {
  import opened Common
  import opened CyclicSearch

  datatype AssociationError = NotUdp | Limit | UnknownSession | SourceMismatch

  type SessionId = DatagramSessionId

  const IDS: nat := U64_MAX

  /** The indexes are inverse to each other, so both are injective and equally large. */
  ghost predicate Inverse(byFlow: map<FlowKey, SessionId>, bySession: map<SessionId, FlowKey>) {
    && (forall f <- byFlow :: byFlow[f] in bySession && bySession[byFlow[f]] == f)
    && (forall s <- bySession :: bySession[s] in byFlow && byFlow[bySession[s]] == s)
  }

  lemma {:induction false} InverseSize(byFlow: map<FlowKey, SessionId>, bySession: map<SessionId, FlowKey>)
    requires Inverse(byFlow, bySession)
    ensures |byFlow| == |bySession|
    decreases byFlow.Keys
  {
    if byFlow == map[] {
      assert forall s <- bySession :: bySession[s] in byFlow;
    } else {
      var f :| f in byFlow;
      var s := byFlow[f];
      var fewerFlows := byFlow - {f};
      var fewerSessions := bySession - {s};
      assert fewerFlows.Keys == byFlow.Keys - {f} && |fewerFlows| == |fewerFlows.Keys|;
      assert fewerSessions.Keys == bySession.Keys - {s} && |fewerSessions| == |fewerSessions.Keys|;
      assert |byFlow| == |byFlow.Keys| && |bySession| == |bySession.Keys|;
      InverseSize(fewerFlows, fewerSessions);
    }
  }

  /** While some id is free, a search from any cursor meets one. */
  lemma SomeIdIsFree(bySession: map<SessionId, FlowKey>, cursor: SessionId)
    requires |bySession| < IDS
    ensures exists k: nat :: k <= |bySession| && Candidate(1, IDS, cursor, k) !in bySession.Keys
  {
    var used: set<nat> := set s | s in bySession :: s as nat;
    assert used == bySession.Keys;
    assert |bySession.Keys| == |bySession|;
    FreeCandidate(used, 1, IDS, cursor);
    var k: nat :| k <= |used| && Candidate(1, IDS, cursor, k) !in used;
  }

  /** `session` is free and every id tried before it was taken. */
  ghost predicate IsFirstFree(bySession: map<SessionId, FlowKey>, cursor: SessionId, k: nat, session: SessionId) {
    && session !in bySession && session == Candidate(1, IDS, cursor, k)
    && forall j | 0 <= j < k :: Candidate(1, IDS, cursor, j) in bySession.Keys
  }

  class UdpAssociationTable {
    var nextSession: SessionId
    var byFlow: map<FlowKey, SessionId>
    var bySession: map<SessionId, FlowKey>
    const limit: u64

    ghost predicate Valid()
      reads this
    {
      && limit > 0
      && Inverse(byFlow, bySession)
      && |byFlow| <= limit
      && forall f <- byFlow :: f.protocol == Udp
    }

    constructor (limit: u64)
      requires limit > 0
      ensures Valid() && byFlow == map[] && this.limit == limit
    {
      this.limit := limit;
      nextSession := 1;
      byFlow := map[];
      bySession := map[];
    }

    /** A known flow keeps its session; a new one gets an id no flow holds. */
    method SessionFor(flow: FlowKey) returns (r: Result<SessionId, AssociationError>)
      requires Valid()
      modifies this
      ensures Valid()
      ensures flow.protocol != Udp ==> r == Err(NotUdp)
      ensures flow.protocol == Udp && flow in old(byFlow) ==> r == Ok(old(byFlow)[flow])
      ensures flow.protocol == Udp && flow !in old(byFlow) && |old(byFlow)| == limit ==> r == Err(Limit)
      ensures flow.protocol == Udp && flow !in old(byFlow) && |old(byFlow)| < limit ==> r.Ok?
      ensures if r.Ok? && flow !in old(byFlow)
              then r.value !in old(bySession)
                && byFlow == old(byFlow)[flow := r.value] && bySession == old(bySession)[r.value := flow]
              else byFlow == old(byFlow) && bySession == old(bySession) && nextSession == old(nextSession)
    {
      if flow.protocol != Udp {
        return Err(NotUdp);
      }
      if flow in byFlow {
        return Ok(byFlow[flow]);
      }
      if |byFlow| == limit {
        return Err(Limit);
      }
      InverseSize(byFlow, bySession);
      var session := AllocateSession();
      ghost var flows := byFlow;
      byFlow := byFlow[flow := session];
      bySession := bySession[session := flow];
      assert byFlow.Keys == flows.Keys + {flow};
      assert |byFlow| == |byFlow.Keys| && |flows| == |flows.Keys|;
      return Ok(session);
    }

    /** A response reaches a flow only as that flow's own destination answering on its own session. */
    method FlowForResponse(session: SessionId, source: SocketAddr) returns (r: Result<FlowKey, AssociationError>)
      requires Valid()
      ensures r.Ok? <==> exists f <- byFlow :: byFlow[f] == session && f.destination == source
      ensures r.Ok? ==> r.value in byFlow && byFlow[r.value] == session && r.value.destination == source
      ensures r.Err? ==> r.error == if session in bySession then SourceMismatch else UnknownSession
    {
      if session !in bySession {
        return Err(UnknownSession);
      }
      var flow := bySession[session];
      if flow.destination != source {
        return Err(SourceMismatch);
      }
      return Ok(flow);
    }

    method Clear()
      requires Valid()
      modifies this
      ensures Valid() && byFlow == map[] && bySession == map[] && nextSession == old(nextSession)
    {
      byFlow := map[];
      bySession := map[];
    }

    /**
     * Terminates across the 64-bit wrap-around: the loop meets the nearest
     * free id, which the pigeonhole principle puts within |bySession| steps.
     */
    method AllocateSession() returns (session: SessionId)
      requires |bySession| < IDS
      modifies this`nextSession
      ensures session !in bySession
      ensures exists k: nat :: k <= |bySession| && IsFirstFree(bySession, old(nextSession), k, session)
    {
      hide Candidate;
      ghost var start := nextSession;
      SomeIdIsFree(bySession, start);
      ghost var free: nat :| free <= |bySession| && Candidate(1, IDS, start, free) !in bySession.Keys;
      ghost var tried: nat := 0;
      CandidatesFollow(1, IDS, start, 0);
      while true
        invariant tried <= free
        invariant nextSession == Candidate(1, IDS, start, tried)
        invariant forall j | 0 <= j < tried :: Candidate(1, IDS, start, j) in bySession.Keys
        decreases free - tried
      {
        var candidate := nextSession;
        nextSession := if candidate == U64_MAX then 1 else candidate + 1;
        if candidate !in bySession {
          assert IsFirstFree(bySession, start, tried, candidate);
          return candidate;
        }
        CandidatesFollow(1, IDS, start, tried);
        tried := tried + 1;
      }
    }
  }
}
