/**
 * Connections sharing the quotas, interleaved.  A connection's session lock
 * serialises its own operations; between any two of its quota calls, every
 * other connection may make one of theirs.
 */
module AdmissionSteps {
  import opened Common
  import opened Admission

  type ConnId = nat

  datatype Admitted = Admitted(principal: PrincipalId, lease: Lease) {
    function Key(): (PrincipalId, Lease) { (principal, lease) }
  }

  /** The quota call a connection is about to make while it holds its session lock. */
  datatype Doing =
    | Idle
    | Opening(principal: PrincipalId, datagram: bool)
    | AddingFlow(admitted: Admitted, created: bool)
    | RollingBack(admitted: Admitted)
    | EndingFlow(admitted: Admitted)
    | EndingSession(admitted: Admitted)

  /** `held` records the leases of reservations granted and not yet released. */
  datatype Conn = Conn(slot: Option<Admitted>, doing: Doing, held: multiset<Lease>)

  datatype World = World(control: Control, conns: map<ConnId, Conn>)

  datatype Step =
    | Connect(conn: ConnId)
    | AdmitDatagram(conn: ConnId, principal: PrincipalId)
    | ReserveFlow(conn: ConnId, principal: PrincipalId)
    | ReleaseFlow(conn: ConnId, lease: Lease)
    | Close(conn: ConnId)
    | QuotaCall(conn: ConnId)

  function Begin(c: Conn, step: Step): Conn
    requires c.doing.Idle?
  {
    match step
    case AdmitDatagram(_, principal) =>
      if c.slot.None? then c.(doing := Opening(principal, true)) else c
    case ReserveFlow(_, principal) =>
      if c.slot.None? then c.(doing := Opening(principal, false))
      else if c.slot.value.principal != principal then c
      else c.(doing := AddingFlow(c.slot.value, false))
    case ReleaseFlow(_, lease) =>
      if lease !in c.held then c
      else if c.slot.Some? && c.slot.value.lease == lease then c.(doing := EndingFlow(c.slot.value))
      else c.(held := c.held - multiset{lease})
    case Close(_) =>
      if c.slot.None? then c else c.(slot := None, doing := EndingSession(c.slot.value))
    case _ => c
  }

  /** One call under the quotas lock; `None` where the source ignores the call's result. */
  function Call(control: Control, c: Conn): (Control, Conn)
    requires control.nextLease <= U64_MAX
  {
    match c.doing
    case Idle => (control, c)
    case Opening(principal, datagram) =>
      var (next, lease) := OpenSession(control, principal);
      (next,
       if lease.Err? then c.(doing := Idle)
       else
         var admitted := Admitted(principal, lease.value);
         c.(slot := Some(admitted), doing := if datagram then Idle else AddingFlow(admitted, true)))
    case AddingFlow(a, created) =>
      var (next, r) := OpenFlow(control, a.Key());
      (next,
       if r.Ok? then c.(doing := Idle, held := c.held + multiset{a.lease})
       else c.(doing := if created then RollingBack(a) else Idle))
    case RollingBack(a) => (CloseSession(control, a.Key()).0, c.(slot := None, doing := Idle))
    case EndingFlow(a) => (CloseFlow(control, a.Key()).0, c.(doing := Idle, held := c.held - multiset{a.lease}))
    case EndingSession(a) => (CloseSession(control, a.Key()).0, c.(doing := Idle))
  }

  function Take(w: World, step: Step): World {
    if step.Connect? then
      if step.conn in w.conns then w else w.(conns := w.conns[step.conn := Conn(None, Idle, multiset{})])
    else if step.conn !in w.conns then w
    else
      var c := w.conns[step.conn];
      if step.QuotaCall? then
        if w.control.nextLease > U64_MAX then w
        else
          var (control, next) := Call(w.control, c);
          World(control, w.conns[step.conn := next])
      else if c.doing.Idle? then w.(conns := w.conns[step.conn := Begin(c, step)])
      else w
  }

  function Run(w: World, steps: seq<Step>): World
    decreases |steps|
  {
    if steps == [] then w else Run(Take(w, steps[0]), steps[1..])
  }

  function NewWorld(maxSessions: nat, maxFlows: nat): World {
    World(Control(maxSessions, maxFlows, 0, map[]), map[])
  }

  // ---------------------------------------------------------------- invariant

  /** The session a connection answers for: its own, or the one it is closing. */
  function Claim(c: Conn): Option<Admitted> {
    if c.doing.EndingSession? then Some(c.doing.admitted) else c.slot
  }

  predicate Claims(c: Conn, key: (PrincipalId, Lease)) {
    Claim(c).Some? && Claim(c).value.Key() == key
  }

  predicate DoingValid(c: Conn, maxFlows: nat) {
    match c.doing
    case Idle => true
    case Opening(_, _) => c.slot.None?
    case AddingFlow(a, created) => c.slot == Some(a) && (created ==> c.held[a.lease] == 0)
    case RollingBack(a) => c.slot == Some(a) && maxFlows == 0
    case EndingFlow(a) => c.slot == Some(a) && c.held[a.lease] > 0
    case EndingSession(_) => c.slot.None?
  }

  /** A connection's claim is a live session whose flows are its outstanding reservations. */
  predicate ConnValid(c: Conn, control: Control) {
    && DoingValid(c, control.maxFlows)
    && (Claim(c).Some? ==> Claim(c).value.Key() in control.sessions)
    && (c.slot.Some? && c.slot.value.Key() in control.sessions ==>
          control.sessions[c.slot.value.Key()] == c.held[c.slot.value.lease])
    && (forall l <- c.held :: l < control.nextLease)
  }

  /** No two connections share a lease, live or merely outstanding. */
  predicate Apart(c: Conn, d: Conn) {
    && (Claim(c).Some? && Claim(d).Some? ==> Claim(c).value.lease != Claim(d).value.lease)
    && (Claim(c).Some? ==> Claim(c).value.lease !in d.held)
    && (Claim(d).Some? ==> Claim(d).value.lease !in c.held)
    && (forall l <- c.held :: l !in d.held)
  }

  ghost predicate ControlValid(c: Control) {
    && (forall k <- c.sessions :: k.1 < c.nextLease && c.sessions[k] <= c.maxFlows)
    && (forall p: PrincipalId :: |SessionsOf(c.sessions, p)| <= c.maxSessions)
  }

  ghost predicate WorldValid(w: World) {
    && ControlValid(w.control)
    && (forall i <- w.conns :: ConnValid(w.conns[i], w.control))
    && (forall i, j | i in w.conns && j in w.conns && i != j :: Apart(w.conns[i], w.conns[j]))
    && (forall k <- w.control.sessions :: exists i :: i in w.conns && Claims(w.conns[i], k))
  }

  // ---------------------------------------------------------------- the quotas

  lemma SessionsOfGrows(sessions: Sessions, key: (PrincipalId, Lease), flows: nat, p: PrincipalId)
    ensures key !in sessions ==>
      |SessionsOf(sessions[key := flows], p)| == |SessionsOf(sessions, p)| + (if key.0 == p then 1 else 0)
    ensures key in sessions ==> SessionsOf(sessions[key := flows], p) == SessionsOf(sessions, p)
  {
    var more := sessions[key := flows];
    if key !in sessions {
      if key.0 == p {
        assert SessionsOf(more, p) == SessionsOf(sessions, p) + {key};
      } else {
        assert SessionsOf(more, p) == SessionsOf(sessions, p);
      }
    }
  }

  lemma SessionsOfShrinks(sessions: Sessions, key: (PrincipalId, Lease), p: PrincipalId)
    ensures |SessionsOf(sessions - {key}, p)| <= |SessionsOf(sessions, p)|
  {
    var fewer := SessionsOf(sessions - {key}, p);
    var all := SessionsOf(sessions, p);
    assert all == fewer + (all - fewer);
  }

  lemma CallKeepsControl(control: Control, c: Conn)
    requires ControlValid(control) && control.nextLease <= U64_MAX
    ensures ControlValid(Call(control, c).0)
  {
    var next := Call(control, c).0;
    forall p: PrincipalId ensures |SessionsOf(next.sessions, p)| <= control.maxSessions {
      match c.doing
      case Idle =>
      case Opening(principal, _) => SessionsOfGrows(control.sessions, (principal, control.nextLease), 0, p);
      case AddingFlow(a, _) =>
        if a.Key() in control.sessions {
          SessionsOfGrows(control.sessions, a.Key(), control.sessions[a.Key()] + 1, p);
        }
      case EndingFlow(a) =>
        if a.Key() in control.sessions && control.sessions[a.Key()] > 0 {
          SessionsOfGrows(control.sessions, a.Key(), control.sessions[a.Key()] - 1, p);
        }
      case RollingBack(a) => SessionsOfShrinks(control.sessions, a.Key(), p);
      case EndingSession(a) => SessionsOfShrinks(control.sessions, a.Key(), p);
    }
  }

  // ---------------------------------------------------------------- one connection's step

  /** Leases a call may hand out are new; everything else a connection claims it already had. */
  predicate Evolves(before: Control, c: Conn, d: Conn) {
    && (Claim(d).Some? ==> Claim(d) == Claim(c) || Claim(d).value.lease == before.nextLease)
    && (forall l <- d.held :: l in c.held || (Claim(c).Some? && l == Claim(c).value.lease))
  }

  lemma BeginIsLocal(c: Conn, step: Step, control: Control)
    requires ConnValid(c, control) && c.doing.Idle?
    ensures ConnValid(Begin(c, step), control) && Claim(Begin(c, step)) == Claim(c)
    ensures Begin(c, step).held <= c.held
  {
    if step.ReleaseFlow? {
      ReleaseIsLocal(c, step, control);
    }
  }

  lemma ReleaseIsLocal(c: Conn, step: Step, control: Control)
    requires ConnValid(c, control) && c.doing.Idle? && step.ReleaseFlow?
    ensures ConnValid(Begin(c, step), control) && Claim(Begin(c, step)) == Claim(c)
    ensures Begin(c, step).held <= c.held
  {
    var d := Begin(c, step);
    assert forall l <- d.held :: l in c.held;
  }

  lemma CallIsLocal(control: Control, c: Conn)
    requires ControlValid(control) && control.nextLease <= U64_MAX && ConnValid(c, control)
    ensures var (next, d) := Call(control, c);
      && ConnValid(d, next) && Evolves(control, c, d)
      && control.nextLease <= next.nextLease && next.maxFlows == control.maxFlows
  {
    match c.doing
    case Opening(_, _) => OpeningIsLocal(control, c);
    case AddingFlow(_, _) => AddingIsLocal(control, c);
    case RollingBack(_) =>
    case EndingFlow(_) => EndingFlowIsLocal(control, c);
    case _ =>
  }

  lemma OpeningIsLocal(control: Control, c: Conn)
    requires control.nextLease <= U64_MAX && ConnValid(c, control) && c.doing.Opening?
    ensures var (next, d) := Call(control, c); ConnValid(d, next) && Evolves(control, c, d)
  {
    FreshLeaseIsUnheld(control, c);
  }

  lemma AddingIsLocal(control: Control, c: Conn)
    requires ControlValid(control) && control.nextLease <= U64_MAX && ConnValid(c, control) && c.doing.AddingFlow?
    ensures var (next, d) := Call(control, c); ConnValid(d, next) && Evolves(control, c, d)
  {
    var a := c.doing.admitted;
    var (next, d) := Call(control, c);
    assert OpenFlow(control, a.Key()).1.Ok? ==> d.held[a.lease] == c.held[a.lease] + 1;
  }

  lemma EndingFlowIsLocal(control: Control, c: Conn)
    requires control.nextLease <= U64_MAX && ConnValid(c, control) && c.doing.EndingFlow?
    ensures var (next, d) := Call(control, c); ConnValid(d, next) && Evolves(control, c, d)
  {
    var a := c.doing.admitted;
    var (next, d) := Call(control, c);
    assert d.held[a.lease] == c.held[a.lease] - 1;
  }

  /** A call touches only the session its connection claims. */
  lemma CallTouchesItsSession(control: Control, c: Conn)
    requires control.nextLease <= U64_MAX && ConnValid(c, control)
    ensures var (next, d) := Call(control, c);
      && (forall k: (PrincipalId, Lease) | !Claims(c, k) && k.1 < control.nextLease ::
            (k in next.sessions <==> k in control.sessions)
            && (k in control.sessions ==> next.sessions[k] == control.sessions[k]))
      && (forall k <- next.sessions :: k in control.sessions || Claims(d, k))
      && (forall k <- next.sessions | Claims(c, k) :: Claims(d, k))
  {
  }

  lemma FreshLeaseIsUnheld(control: Control, c: Conn)
    requires ConnValid(c, control) && control.nextLease <= U64_MAX
    ensures c.held[control.nextLease] == 0
  {
  }

  /** The other connections keep what they had. */
  lemma OthersKeep(control: Control, c: Conn, other: Conn)
    requires ControlValid(control) && control.nextLease <= U64_MAX
    requires ConnValid(c, control) && ConnValid(other, control) && Apart(c, other)
    ensures var (next, d) := Call(control, c);
      ConnValid(other, next) && Apart(d, other) && Apart(other, d)
  {
    hide Call;
    CallIsLocal(control, c);
    CallTouchesItsSession(control, c);
  }

  lemma CallKeepsWorld(w: World, i: ConnId)
    requires WorldValid(w) && i in w.conns && w.control.nextLease <= U64_MAX
    ensures var (next, d) := Call(w.control, w.conns[i]);
      WorldValid(World(next, w.conns[i := d]))
  {
    hide Call, ControlValid, ConnValid, Apart, Evolves;
    var c := w.conns[i];
    var (next, d) := Call(w.control, c);
    CallIsLocal(w.control, c);
    CallTouchesItsSession(w.control, c);
    CallKeepsControl(w.control, c);
    var conns := w.conns[i := d];
    forall j <- w.conns | j != i ensures ConnValid(w.conns[j], next) && Apart(d, w.conns[j]) && Apart(w.conns[j], d) {
      OthersKeep(w.control, c, w.conns[j]);
    }
    forall k <- next.sessions ensures exists j :: j in conns && Claims(conns[j], k) {
      if k in w.control.sessions {
        var j :| j in w.conns && Claims(w.conns[j], k);
        assert j in conns && Claims(conns[j], k);
      } else {
        assert i in conns && Claims(conns[i], k);
      }
    }
  }

  lemma TakeValid(w: World, step: Step)
    requires WorldValid(w)
    ensures WorldValid(Take(w, step))
  {
    hide Call, ControlValid;
    if step.Connect? {
      if step.conn !in w.conns {
        NewConnection(w, step.conn);
      }
    } else if step.conn in w.conns {
      var c := w.conns[step.conn];
      if step.QuotaCall? {
        if w.control.nextLease <= U64_MAX {
          CallKeepsWorld(w, step.conn);
        }
      } else if c.doing.Idle? {
        BeginKeepsWorld(w, step);
      }
    }
  }

  lemma NewConnection(w: World, i: ConnId)
    requires WorldValid(w) && i !in w.conns
    ensures WorldValid(w.(conns := w.conns[i := Conn(None, Idle, multiset{})]))
  {
    hide ControlValid;
    var conns := w.conns[i := Conn(None, Idle, multiset{})];
    forall k <- w.control.sessions ensures exists j :: j in conns && Claims(conns[j], k) {
      var j :| j in w.conns && Claims(w.conns[j], k);
      assert j in conns && Claims(conns[j], k);
    }
  }

  lemma BeginKeepsWorld(w: World, step: Step)
    requires WorldValid(w) && step.conn in w.conns && w.conns[step.conn].doing.Idle?
    ensures WorldValid(w.(conns := w.conns[step.conn := Begin(w.conns[step.conn], step)]))
  {
    hide ControlValid, ConnValid, Begin, Apart;
    var c := w.conns[step.conn];
    var conns := w.conns[step.conn := Begin(c, step)];
    BeginIsLocal(c, step, w.control);
    forall j <- w.conns | j != step.conn
      ensures Apart(Begin(c, step), w.conns[j]) && Apart(w.conns[j], Begin(c, step))
    {
      ShrinkingStaysApart(c, Begin(c, step), w.conns[j]);
    }
    forall k <- w.control.sessions ensures exists j :: j in conns && Claims(conns[j], k) {
      var j :| j in w.conns && Claims(w.conns[j], k);
      assert j in conns && Claims(conns[j], k);
    }
  }

  lemma ShrinkingStaysApart(c: Conn, d: Conn, other: Conn)
    requires Apart(c, other) && Claim(d) == Claim(c) && d.held <= c.held
    ensures Apart(d, other) && Apart(other, d)
  {
    assert forall l <- d.held :: l in c.held;
  }

  lemma {:induction false} RunValid(w: World, steps: seq<Step>)
    requires WorldValid(w)
    ensures WorldValid(Run(w, steps))
    decreases |steps|
  {
    hide WorldValid, Take;
    if steps != [] {
      TakeValid(w, steps[0]);
      RunValid(Take(w, steps[0]), steps[1..]);
    }
  }

  // ---------------------------------------------------------------- main results

  lemma EveryWorldIsValid(maxSessions: nat, maxFlows: nat, steps: seq<Step>)
    ensures WorldValid(Run(NewWorld(maxSessions, maxFlows), steps))
  {
    var w := NewWorld(maxSessions, maxFlows);
    assert forall p: PrincipalId :: SessionsOf(w.control.sessions, p) == {};
    RunValid(w, steps);
  }

  /** Each live session belongs to exactly one connection, which counts its outstanding reservations. */
  lemma SessionsAreOwned(maxSessions: nat, maxFlows: nat, steps: seq<Step>, key: (PrincipalId, Lease))
    requires key in Run(NewWorld(maxSessions, maxFlows), steps).control.sessions
    ensures var w := Run(NewWorld(maxSessions, maxFlows), steps);
      && (exists i :: i in w.conns && Claims(w.conns[i], key))
      && (forall i, j | i in w.conns && j in w.conns && Claims(w.conns[i], key) && Claims(w.conns[j], key) :: i == j)
      && (forall i <- w.conns | w.conns[i].slot.Some? && w.conns[i].slot.value.Key() == key ::
            w.control.sessions[key] == w.conns[i].held[key.1])
      && (forall i, j | i in w.conns && j in w.conns && i != j && Claims(w.conns[i], key) ::
            w.conns[j].held[key.1] == 0)
  {
    hide ControlValid;
    EveryWorldIsValid(maxSessions, maxFlows, steps);
  }

  /** The quotas hold throughout, over every interleaving. */
  lemma QuotasHold(maxSessions: nat, maxFlows: nat, steps: seq<Step>)
    ensures var c := Run(NewWorld(maxSessions, maxFlows), steps).control;
      && c.maxSessions == maxSessions && c.maxFlows == maxFlows
      && (forall p: PrincipalId :: |SessionsOf(c.sessions, p)| <= maxSessions)
      && (forall k <- c.sessions :: c.sessions[k] <= maxFlows)
  {
    EveryWorldIsValid(maxSessions, maxFlows, steps);
    LimitsStay(NewWorld(maxSessions, maxFlows), steps);
  }

  lemma {:induction false} LimitsStay(w: World, steps: seq<Step>)
    ensures Run(w, steps).control.maxSessions == w.control.maxSessions
    ensures Run(w, steps).control.maxFlows == w.control.maxFlows
    decreases |steps|
  {
    if steps != [] {
      LimitsStay(Take(w, steps[0]), steps[1..]);
    }
  }

  /** The results the source throws away are never errors, and a rollback means the flow quota is zero. */
  lemma IgnoredResultsAreOk(maxSessions: nat, maxFlows: nat, steps: seq<Step>, i: ConnId)
    requires i in Run(NewWorld(maxSessions, maxFlows), steps).conns
    ensures var w := Run(NewWorld(maxSessions, maxFlows), steps);
      match w.conns[i].doing
      case EndingFlow(a) => CloseFlow(w.control, a.Key()).1.Ok?
      case EndingSession(a) => CloseSession(w.control, a.Key()).1.Ok?
      case RollingBack(a) => CloseSession(w.control, a.Key()).1.Ok? && maxFlows == 0
      case AddingFlow(a, _) => OpenFlow(w.control, a.Key()).1 != Err(UnknownSessionLease)
      case _ => true
  {
    hide ControlValid;
    EveryWorldIsValid(maxSessions, maxFlows, steps);
    LimitsStay(NewWorld(maxSessions, maxFlows), steps);
  }

  /** When every connection has closed and nothing is in flight, no session is left in the table. */
  lemma ClosingEverythingEmptiesTheTable(maxSessions: nat, maxFlows: nat, steps: seq<Step>)
    requires forall i <- Run(NewWorld(maxSessions, maxFlows), steps).conns ::
      var c := Run(NewWorld(maxSessions, maxFlows), steps).conns[i]; c.slot.None? && c.doing.Idle?
    ensures Run(NewWorld(maxSessions, maxFlows), steps).control.sessions == map[]
  {
    hide ControlValid;
    EveryWorldIsValid(maxSessions, maxFlows, steps);
    var w := Run(NewWorld(maxSessions, maxFlows), steps);
    assert forall i <- w.conns :: Claim(w.conns[i]).None?;
  }
}
