/** What the quota table and a connection are answered: every grant in both directions. */
module AdmissionAnswers {
  import opened Common
  import opened Admission
  import opened AdmissionSteps

  /** The principal's live sessions, counted over the table. */
  function SessionsHeld(sessions: Sessions, principal: PrincipalId): nat {
    |set k | k in sessions && k.0 == principal|
  }

  lemma SessionAnswers(c: Control, principal: PrincipalId)
    requires c.nextLease <= U64_MAX
    ensures var (next, result) := OpenSession(c, principal);
      && (result.Ok? <==> SessionsHeld(c.sessions, principal) < c.maxSessions)
      && (result.Ok? ==> result.value == c.nextLease && next.nextLease == c.nextLease + 1
                         && next.sessions == c.sessions[(principal, c.nextLease) := 0])
      && (result.Err? ==> next == c && result.error == SessionQuotaExceeded)
      && next.maxSessions == c.maxSessions && next.maxFlows == c.maxFlows
  {
  }

  lemma FlowAnswers(c: Control, key: (PrincipalId, Lease))
    ensures var (next, result) := OpenFlow(c, key);
      && (result.Ok? <==> key in c.sessions && c.sessions[key] < c.maxFlows)
      && (result.Ok? ==> next == c.(sessions := c.sessions[key := c.sessions[key] + 1]))
      && (result.Err? ==> next == c)
      && (result.Err? ==> result.error == (if key in c.sessions then FlowQuotaExceeded else UnknownSessionLease))
    ensures var (next, result) := CloseFlow(c, key);
      && (result.Ok? <==> key in c.sessions && c.sessions[key] > 0)
      && (result.Ok? ==> next == c.(sessions := c.sessions[key := c.sessions[key] - 1]))
      && (result.Err? ==> next == c && result.error == UnknownSessionLease)
    ensures var (next, result) := CloseSession(c, key);
      && (result.Ok? <==> key in c.sessions)
      && next == c.(sessions := next.sessions)
      && (forall k :: k in next.sessions <==> k in c.sessions && k != key)
      && (forall k <- next.sessions :: next.sessions[k] == c.sessions[k])
      && (result.Err? ==> result.error == UnknownSessionLease)
  {
  }

  /** The connection's own calls, made one after the other until it has nothing pending. */
  function Settle(w: World, i: ConnId): World {
    Take(Take(Take(w, QuotaCall(i)), QuotaCall(i)), QuotaCall(i))
  }

  /**
   * A reservation made without interference is granted exactly when the
   * connection is this principal's or nobody's, and the quotas have room; a
   * refused one leaves the table as it was.
   */
  lemma ReservingAnswers(w: World, i: ConnId, principal: PrincipalId)
    requires WorldValid(w) && w.control.nextLease < U64_MAX
    requires i in w.conns && w.conns[i].doing.Idle?
    ensures var c := w.conns[i];
      var after := Settle(Take(w, ReserveFlow(i, principal)), i);
      var granted :=
        if c.slot.Some? then c.slot.value.principal == principal && c.held[c.slot.value.lease] < w.control.maxFlows
        else SessionsHeld(w.control.sessions, principal) < w.control.maxSessions && 0 < w.control.maxFlows;
      && i in after.conns && after.conns[i].doing.Idle?
      && (granted ==>
            && after.conns[i].slot.Some? && after.conns[i].slot.value.principal == principal
            && after.conns[i].held == c.held + multiset{after.conns[i].slot.value.lease}
            && (c.slot.Some? ==> after.conns[i].slot == c.slot))
      && (!granted ==> after.control.sessions == w.control.sessions && after.conns[i] == c)
  {
    hide Apart, Claims;
    var c := w.conns[i];
    assert ConnValid(c, w.control);
    if c.slot.Some? {
      ReserveWithSession(w, i, principal);
    } else {
      ReserveWithoutSession(w, i, principal);
    }
  }

  lemma ReserveWithSession(w: World, i: ConnId, principal: PrincipalId)
    requires w.control.nextLease < U64_MAX && i in w.conns && w.conns[i].doing.Idle?
    requires w.conns[i].slot.Some? && ConnValid(w.conns[i], w.control)
    ensures var c := w.conns[i];
      var after := Settle(Take(w, ReserveFlow(i, principal)), i);
      var lease := c.slot.value.lease;
      && i in after.conns
      && after.conns[i] ==
           (if c.slot.value.principal == principal && c.held[lease] < w.control.maxFlows
            then c.(held := c.held + multiset{lease}) else c)
      && (!(c.slot.value.principal == principal && c.held[lease] < w.control.maxFlows) ==>
            after.control.sessions == w.control.sessions)
  {
  }

  lemma ReserveWithoutSession(w: World, i: ConnId, principal: PrincipalId)
    requires w.control.nextLease < U64_MAX && i in w.conns && w.conns[i].doing.Idle?
    requires w.conns[i].slot.None? && forall k <- w.control.sessions :: k.1 < w.control.nextLease
    ensures var c := w.conns[i];
      var after := Settle(Take(w, ReserveFlow(i, principal)), i);
      var lease := w.control.nextLease;
      && i in after.conns
      && (if SessionsHeld(w.control.sessions, principal) < w.control.maxSessions && 0 < w.control.maxFlows
          then after.conns[i] == Conn(Some(Admitted(principal, lease)), Idle, c.held + multiset{lease})
          else after.conns[i] == c && after.control.sessions == w.control.sessions)
  {
  }

  /** A first datagram binds the connection to its principal if there is a session to be had, and uses no flow. */
  lemma DatagramAnswers(w: World, i: ConnId, principal: PrincipalId)
    requires w.control.nextLease < U64_MAX && i in w.conns && w.conns[i].doing.Idle?
    ensures var c := w.conns[i];
      var after := Settle(Take(w, AdmitDatagram(i, principal)), i);
      var bound := c.slot.None? && SessionsHeld(w.control.sessions, principal) < w.control.maxSessions;
      && i in after.conns
      && after.conns[i] == (if bound then c.(slot := Some(Admitted(principal, w.control.nextLease))) else c)
      && after.control.sessions ==
           (if bound then w.control.sessions[(principal, w.control.nextLease) := 0] else w.control.sessions)
  {
  }

  /** A release gives back one flow of the session it was reserved on, if the connection still has it. */
  lemma ReleasingAnswers(w: World, i: ConnId, lease: Lease)
    requires w.control.nextLease < U64_MAX && i in w.conns && w.conns[i].doing.Idle?
    requires ConnValid(w.conns[i], w.control) && lease in w.conns[i].held
    ensures var c := w.conns[i];
      var after := Settle(Take(w, ReleaseFlow(i, lease)), i);
      && i in after.conns
      && after.conns[i] == c.(held := c.held - multiset{lease})
      && after.control.sessions ==
           (if c.slot.Some? && c.slot.value.lease == lease
            then w.control.sessions[c.slot.value.Key() := w.control.sessions[c.slot.value.Key()] - 1]
            else w.control.sessions)
  {
  }

  /** Closing gives back the session with all its flows. */
  lemma ClosingAnswers(w: World, i: ConnId)
    requires w.control.nextLease < U64_MAX && i in w.conns && w.conns[i].doing.Idle?
    requires ConnValid(w.conns[i], w.control)
    ensures var c := w.conns[i];
      var after := Settle(Take(w, Close(i)), i);
      && i in after.conns && after.conns[i] == c.(slot := None)
      && after.control.sessions ==
           (if c.slot.Some? then w.control.sessions - {c.slot.value.Key()} else w.control.sessions)
  {
  }
}
