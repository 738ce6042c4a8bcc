/** Session and flow quotas shared by every connection of a server process. */
module Admission {
  import opened Common

  type PrincipalId = u64
  type Lease = u64
  type Sessions = map<(PrincipalId, Lease), nat>

  datatype AdmissionError = SessionQuotaExceeded | FlowQuotaExceeded | UnknownSessionLease

  datatype Control = Control(maxSessions: nat, maxFlows: nat, nextLease: nat, sessions: Sessions)

  function SessionsOf(sessions: Sessions, principal: PrincipalId): set<(PrincipalId, Lease)> {
    set k | k in sessions && k.0 == principal
  }

  function OpenSession(c: Control, principal: PrincipalId): (Control, Result<Lease, AdmissionError>)
    requires c.nextLease <= U64_MAX
  {
    if |SessionsOf(c.sessions, principal)| >= c.maxSessions then (c, Err(SessionQuotaExceeded))
    else
      (c.(nextLease := c.nextLease + 1, sessions := c.sessions[(principal, c.nextLease) := 0]),
       Ok(c.nextLease))
  }

  function OpenFlow(c: Control, key: (PrincipalId, Lease)): (Control, Result<(), AdmissionError>) {
    if key !in c.sessions then (c, Err(UnknownSessionLease))
    else if c.sessions[key] >= c.maxFlows then (c, Err(FlowQuotaExceeded))
    else (c.(sessions := c.sessions[key := c.sessions[key] + 1]), Ok(()))
  }

  function CloseFlow(c: Control, key: (PrincipalId, Lease)): (Control, Result<(), AdmissionError>) {
    if key !in c.sessions || c.sessions[key] == 0 then (c, Err(UnknownSessionLease))
    else (c.(sessions := c.sessions[key := c.sessions[key] - 1]), Ok(()))
  }

  function CloseSession(c: Control, key: (PrincipalId, Lease)): (Control, Result<(), AdmissionError>) {
    if key !in c.sessions then (c, Err(UnknownSessionLease))
    else (c.(sessions := c.sessions - {key}), Ok(()))
  }

  class AdmissionControl {
    const maxSessions: nat
    const maxFlows: nat
    var nextLease: u64
    var sessions: Sessions

    function Model(): Control
      reads this
    {
      Control(maxSessions, maxFlows, nextLease, sessions)
    }

    constructor (maxSessions: nat, maxFlows: nat)
      ensures Model() == Control(maxSessions, maxFlows, 0, map[])
    {
      this.maxSessions := maxSessions;
      this.maxFlows := maxFlows;
      nextLease := 0;
      sessions := map[];
    }

    method NewSession(principal: PrincipalId) returns (r: Result<Lease, AdmissionError>)
      requires |SessionsOf(sessions, principal)| < maxSessions ==> nextLease < U64_MAX
      modifies this
      ensures (Model(), r) == OpenSession(old(Model()), principal)
    {
      if |SessionsOf(sessions, principal)| >= maxSessions {
        return Err(SessionQuotaExceeded);
      }
      var lease := nextLease;
      nextLease := nextLease + 1;
      sessions := sessions[(principal, lease) := 0];
      return Ok(lease);
    }

    method NewFlow(principal: PrincipalId, lease: Lease) returns (r: Result<(), AdmissionError>)
      modifies this`sessions
      ensures (Model(), r) == OpenFlow(old(Model()), (principal, lease))
    {
      var key := (principal, lease);
      if key !in sessions {
        return Err(UnknownSessionLease);
      }
      if sessions[key] >= maxFlows {
        return Err(FlowQuotaExceeded);
      }
      sessions := sessions[key := sessions[key] + 1];
      return Ok(());
    }

    method EndFlow(principal: PrincipalId, lease: Lease) returns (r: Result<(), AdmissionError>)
      modifies this`sessions
      ensures (Model(), r) == CloseFlow(old(Model()), (principal, lease))
    {
      var key := (principal, lease);
      if key !in sessions || sessions[key] == 0 {
        return Err(UnknownSessionLease);
      }
      sessions := sessions[key := sessions[key] - 1];
      return Ok(());
    }

    method EndSession(principal: PrincipalId, lease: Lease) returns (r: Result<(), AdmissionError>)
      modifies this`sessions
      ensures (Model(), r) == CloseSession(old(Model()), (principal, lease))
    {
      var key := (principal, lease);
      if key !in sessions {
        return Err(UnknownSessionLease);
      }
      sessions := sessions - {key};
      return Ok(());
    }
  }
}
