/** Runs of the traffic host with failing calls, crashes between any two calls, and restarts. */
module TrafficHostRuns {
  import opened Common
  import opened HostProtocol
  import opened TrafficHosting

  datatype Machine = Machine(world: World, host: Option<Host>)

  datatype Event =
    | Deliver(request: Request, answers: Answers)
    | CrashDuring(interrupted: Request, given: Answers, calls: nat)  // dies after that many calls
    | Restart(capabilities: set<Capability>, load: Answer)

  datatype Happening = Happening(machine: Machine, passed: seq<Passed>)

  ghost function Happens(m: Machine, e: Event): Happening {
    match e
    case Deliver(request, answers) =>
      if m.host.None? then Happening(m, [])
      else
        var handled := Handle(m.host.value, m.world, request, answers);
        Happening(Machine(WorldAfter(m.world, handled.passed), Some(handled.host)), handled.passed)
    case CrashDuring(request, answers, calls) =>
      if m.host.None? then Happening(m, [])
      else
        var passed := Handle(m.host.value, m.world, request, answers).passed;
        var made := if calls <= |passed| then passed[..calls] else passed;
        Happening(Machine(WorldAfter(m.world, made), None), made)
    case Restart(capabilities, load) =>
      Happening(Machine(m.world, if load.ok then Some(NewHost(capabilities, m.world.journal)) else None),
                [Passed(LoadJournal, m.world)])
  }

  ghost function After(m: Machine, events: seq<Event>): Machine
    decreases |events|
  {
    if events == [] then m else After(Happens(m, events[0]).machine, events[1..])
  }

  /** Every platform call of the run, with the world it left. */
  ghost function Trace(m: Machine, events: seq<Event>): seq<Passed>
    decreases |events|
  {
    if events == [] then []
    else Happens(m, events[0]).passed + Trace(Happens(m, events[0]).machine, events[1..])
  }

  const Installed := Machine(World(Clean, None), None)

  // ---------------------------------------------------------------- the journal covers the network

  predicate Journaled(w: World) {
    w.network != Clean ==> w.journal.Some?
  }

  /** The state a host reports is the state the platform is in. */
  predicate Truthful(h: Host, w: World) {
    && (h.recoveryRequired ==> h.state.Recovering?)
    && !h.state.Starting? && !h.state.Stopping?
    && (h.state.Stopped? ==> w == World(Clean, None))
    && (h.state.Running? ==>
          && w.journal.Some? && w.journal.value.profileGeneration == h.generation
          && w.network == Applied(w.journal.value.configuration))
  }

  predicate CacheBounded(h: Host) {
    && |h.responses| <= MAX_CACHED_RESPONSES
    && forall id <- h.responses :: h.responses[id].requestId == id
  }

  lemma CachedKeepsBound(m: map<u64, Response>, r: Response)
    requires |m| <= MAX_CACHED_RESPONSES && forall id <- m :: m[id].requestId == id
    ensures var n := Cached(m, r);
      |n| <= MAX_CACHED_RESPONSES && forall id <- n :: n[id].requestId == id
  {
    AddedSize(m, r);
    var added := m[r.requestId := r];
    if |added| > MAX_CACHED_RESPONSES {
      RemovedSize(added, Smallest(added.Keys));
    }
  }

  lemma HandleKeeps(h: Host, w: World, request: Request, a: Answers)
    requires Journaled(w) && Truthful(h, w) && CacheBounded(h)
    ensures var done := Handle(h, w, request, a);
      && Truthful(done.host, WorldAfter(w, done.passed)) && CacheBounded(done.host)
      && (forall i | 0 <= i < |done.passed| :: Journaled(done.passed[i].world))
      && h.generation <= done.host.generation
  {
    hide Cached, ExecuteCommand;
    if request.requestId !in h.responses {
      CachedKeepsBound(h.responses, Handle(h, w, request, a).response);
      if Refusal(h, request).None? {
        ExecuteKeeps(h, w, request, a);
      }
    }
  }

  lemma ExecuteKeeps(h: Host, w: World, request: Request, a: Answers)
    requires Journaled(w) && Truthful(h, w) && h.generation <= request.profileGeneration
    ensures var done := ExecuteCommand(h, w, request, a);
      && Truthful(done.host, WorldAfter(w, done.passed)) && done.host.responses == h.responses
      && (forall i | 0 <= i < |done.passed| :: Journaled(done.passed[i].world))
      && h.generation <= done.host.generation
  {
  }

  ghost predicate MachineValid(m: Machine) {
    Journaled(m.world) && (m.host.Some? ==> Truthful(m.host.value, m.world) && CacheBounded(m.host.value))
  }

  lemma HappensValid(m: Machine, e: Event)
    requires MachineValid(m)
    ensures MachineValid(Happens(m, e).machine)
    ensures forall i | 0 <= i < |Happens(m, e).passed| :: Journaled(Happens(m, e).passed[i].world)
  {
    hide Handle;
    if e.Deliver? && m.host.Some? {
      HandleKeeps(m.host.value, m.world, e.request, e.answers);
    } else if e.CrashDuring? && m.host.Some? {
      HandleKeeps(m.host.value, m.world, e.interrupted, e.given);
    }
  }

  lemma {:induction false} RunKeeps(m: Machine, events: seq<Event>)
    requires MachineValid(m)
    ensures MachineValid(After(m, events))
    ensures forall i | 0 <= i < |Trace(m, events)| :: Journaled(Trace(m, events)[i].world)
    decreases |events|
  {
    hide MachineValid, Journaled, Happens;
    if events != [] {
      HappensValid(m, events[0]);
      RunKeeps(Happens(m, events[0]).machine, events[1..]);
    }
  }

  /**
   * Crash safety: after every single call of every run, settings that have not
   * been undone are covered by a journal record.
   */
  lemma MutationIsAlwaysJournaled(events: seq<Event>, i: nat)
    requires i < |Trace(Installed, events)|
    ensures Trace(Installed, events)[i].world.network != Clean ==>
              Trace(Installed, events)[i].world.journal.Some?
  {
    RunKeeps(Installed, events);
  }

  /** Whatever a surviving host reports is true of the platform, and it is never Busy between requests. */
  lemma HostReportsTheTruth(events: seq<Event>)
    requires After(Installed, events).host.Some?
    ensures var m := After(Installed, events);
      Truthful(m.host.value, m.world) && CacheBounded(m.host.value)
  {
    RunKeeps(Installed, events);
  }

  lemma NeverBusy(events: seq<Event>, request: Request, a: Answers)
    requires After(Installed, events).host.Some?
    requires request.requestId !in After(Installed, events).host.value.responses
    ensures var m := After(Installed, events);
      Handle(m.host.value, m.world, request, a).response.response != Err(Busy)
  {
    hide Truthful, CacheBounded, Handle, After;
    HostReportsTheTruth(events);
    var m := After(Installed, events);
    TruthfulIsNotBusy(m.host.value, m.world, request, a);
  }

  lemma TruthfulIsNotBusy(h: Host, w: World, request: Request, a: Answers)
    requires Truthful(h, w) && request.requestId !in h.responses
    ensures Handle(h, w, request, a).response.response != Err(Busy)
  {
    hide Cached, ValidConfiguration, AfterUndo, AfterStart;
  }

  // ---------------------------------------------------------------- recovery comes first

  predicate Mutates(call: Call) { call.WriteJournal? || call.StartNetwork? || call.StopNetwork? }

  /** A record is on disk, and no host is running that does not know it. */
  ghost predicate Guarded(m: Machine) {
    m.world.journal.Some? && (m.host.Some? ==> m.host.value.recoveryRequired)
  }

  lemma GuardedHandle(h: Host, w: World, request: Request, a: Answers)
    requires h.recoveryRequired
    ensures var done := Handle(h, w, request, a);
      && (forall i | 0 <= i < |done.passed| :: !Mutates(done.passed[i].call))
      && (done.host.recoveryRequired || (request.command.Recover? && done.response.response == Ok(Recovered)))
      && (w.journal.Some? && !done.host.recoveryRequired ==>
            |done.passed| > 0 && done.passed[|done.passed| - 1].world.journal.None?)
  {
    hide Cached;
  }

  /**
   * As long as the record found on disk stays there, no call of any later
   * incarnation writes the journal, starts the network or stops it.
   */
  lemma {:induction false} RecordBlocksMutation(m: Machine, events: seq<Event>)
    requires Guarded(m)
    requires forall i | 0 <= i < |Trace(m, events)| :: Trace(m, events)[i].world.journal.Some?
    ensures forall i | 0 <= i < |Trace(m, events)| :: !Mutates(Trace(m, events)[i].call)
    decreases |events|
  {
    hide Handle, Mutates;
    if events != [] {
      var next := Happens(m, events[0]);
      var rest := Trace(next.machine, events[1..]);
      assert Trace(m, events) == next.passed + rest;
      assert forall i | 0 <= i < |next.passed| :: next.passed[i] == Trace(m, events)[i];
      assert forall i | 0 <= i < |rest| :: rest[i] == Trace(m, events)[|next.passed| + i];
      GuardedHappens(m, events[0]);
      RecordBlocksMutation(next.machine, events[1..]);
    }
  }

  lemma GuardedHappens(m: Machine, e: Event)
    requires Guarded(m)
    requires forall i | 0 <= i < |Happens(m, e).passed| :: Happens(m, e).passed[i].world.journal.Some?
    ensures Guarded(Happens(m, e).machine)
    ensures forall i | 0 <= i < |Happens(m, e).passed| :: !Mutates(Happens(m, e).passed[i].call)
  {
    hide Handle;
    if m.host.Some? {
      match e
      case Deliver(request, a) => GuardedHandle(m.host.value, m.world, request, a);
      case CrashDuring(request, a, _) => GuardedHandle(m.host.value, m.world, request, a);
      case Restart(_, _) =>
    }
  }

  /** The event is a Recover that this host runs now and answers with success. */
  ghost predicate Recovers(m: Machine, e: Event) {
    && e.Deliver? && m.host.Some? && e.request.command.Recover?
    && e.request.requestId !in m.host.value.responses
    && Handle(m.host.value, m.world, e.request, e.answers).response.response == Ok(Recovered)
  }

  ghost predicate NeverRecovers(m: Machine, events: seq<Event>)
    decreases |events|
  {
    events != [] ==> !Recovers(m, events[0]) && NeverRecovers(Happens(m, events[0]).machine, events[1..])
  }

  /** A host that needs recovery leaves the network alone until one of its Recover commands succeeds. */
  lemma {:induction false} NothingRunsBeforeRecovery(m: Machine, events: seq<Event>)
    requires m.host.Some? && m.host.value.recoveryRequired
    requires forall e <- events :: e.Deliver?
    requires NeverRecovers(m, events)
    ensures forall i | 0 <= i < |Trace(m, events)| :: !Mutates(Trace(m, events)[i].call)
    decreases |events|
  {
    hide Mutates, Handle;
    if events != [] {
      var e := events[0];
      GuardedHandle(m.host.value, m.world, e.request, e.answers);
      RetryIsSilent(m.host.value, m.world, e.request, e.answers);
      NothingRunsBeforeRecovery(Happens(m, e).machine, events[1..]);
    }
  }

  /** A retry of a remembered request returns the remembered response and touches nothing. */
  lemma RetryIsSilent(h: Host, w: World, request: Request, a: Answers)
    ensures request.requestId in h.responses ==>
      Handle(h, w, request, a) == Handled(h, [], h.responses[request.requestId])
  {
  }

  /** Within one incarnation, the generation a host accepts never falls. */
  lemma {:induction false} GenerationNeverFalls(m: Machine, events: seq<Event>)
    requires MachineValid(m) && m.host.Some?
    requires forall e <- events :: e.Deliver?
    ensures After(m, events).host.Some?
    ensures m.host.value.generation <= After(m, events).host.value.generation
    decreases |events|
  {
    hide Handle;
    if events != [] {
      HandleKeeps(m.host.value, m.world, events[0].request, events[0].answers);
      HappensValid(m, events[0]);
      GenerationNeverFalls(Happens(m, events[0]).machine, events[1..]);
    }
  }

  /**
   * A Start answered with Started has its configuration in force, except that
   * a running host repeats Started for its own generation without looking at
   * the configuration it is given.
   */
  lemma StartedMeansApplied(h: Host, w: World, request: Request, a: Answers)
    requires Truthful(h, w) && request.requestId !in h.responses && request.command.Start?
    requires Handle(h, w, request, a).response.response == Ok(Started)
    ensures WorldAfter(w, Handle(h, w, request, a).passed).network == Applied(request.command.configuration)
      <==> !h.state.Running? || request.profileGeneration != h.generation
           || w.network == Applied(request.command.configuration)
  {
    hide Cached;
  }

  const YES: Answer := Answer(true, true, Clean)
  const ALL_WELL: Answers := Answers(YES, YES, YES)
  const USUAL: StartParameters := StartParameters(1500, Some(IpNetwork(V4(1), 24)), None, [V4(1)])
  const OTHER: StartParameters := USUAL.(mtu := 1400)

  /** A run where it happens: a host started with one configuration answers Started to another. */
  lemma StartedMayIgnoreTheConfiguration()
    ensures var m := After(Installed,
        [Restart({}, YES), Deliver(Request(PROTOCOL_VERSION, 1, 3, {}, Start(USUAL)), ALL_WELL)]);
      var request := Request(PROTOCOL_VERSION, 2, 3, {}, Start(OTHER));
      && m.host.Some? && request.requestId !in m.host.value.responses
      && var done := Handle(m.host.value, m.world, request, ALL_WELL);
         && done.response.response == Ok(Started)
         && WorldAfter(m.world, done.passed).network == Applied(USUAL)
         && USUAL != OTHER
  {
    hide Cached, Happens, After;
    var started := Request(PROTOCOL_VERSION, 1, 3, {}, Start(USUAL));
    var h := NewHost({}, None);
    RunTwo(Installed, Restart({}, YES), Deliver(started, ALL_WELL));
    FreshHost();
    FirstStart(h, started);
    var w := World(Applied(USUAL), Some(RecoveryRecord(3, USUAL)));
    var running := Handle(h, World(Clean, None), started, ALL_WELL).host;
    SecondStart(running, w, Request(PROTOCOL_VERSION, 2, 3, {}, Start(OTHER)));
  }

  lemma RunFirst(m: Machine, e: Event, rest: seq<Event>)
    ensures After(m, [e] + rest) == After(Happens(m, e).machine, rest)
  {
    hide Happens;
    assert ([e] + rest)[1..] == rest;
  }

  lemma RunTwo(m: Machine, a: Event, b: Event)
    ensures After(m, [a, b]) == Happens(Happens(m, a).machine, b).machine
  {
    hide Happens;
    var none: seq<Event> := [];
    RunFirst(m, a, [b]);
    RunFirst(Happens(m, a).machine, b, none);
    assert [a, b] == [a] + [b] && [b] == [b] + none;
  }

  /** Before anything has been journaled, a restart yields an idle host. */
  lemma FreshHost()
    ensures Happens(Installed, Restart({}, YES)).machine == Machine(World(Clean, None), Some(NewHost({}, None)))
  {
  }

  lemma FirstStart(h: Host, request: Request)
    requires h == NewHost({}, None) && request == Request(PROTOCOL_VERSION, 1, 3, {}, Start(USUAL))
    ensures var m := Happens(Machine(World(Clean, None), Some(h)), Deliver(request, ALL_WELL)).machine;
      var done := Handle(h, World(Clean, None), request, ALL_WELL);
      && m == Machine(World(Applied(USUAL), Some(RecoveryRecord(3, USUAL))), Some(done.host))
      && done.host.state.Running? && done.host.generation == 3 && !done.host.recoveryRequired
      && done.host.capabilities == {} && 2 !in done.host.responses
  {
    hide Cached, ValidConfiguration;
    UsualIsValid();
    var r := Handle(h, World(Clean, None), request, ALL_WELL).response;
    AddedSize(map[], r);
    CachedWithRoom(map[], r);
  }

  lemma SecondStart(h: Host, w: World, request: Request)
    requires h.state.Running? && h.generation == 3 && !h.recoveryRequired && h.capabilities == {}
    requires request == Request(PROTOCOL_VERSION, 2, 3, {}, Start(OTHER)) && 2 !in h.responses
    ensures var done := Handle(h, w, request, ALL_WELL);
      done.response.response == Ok(Started) && done.passed == []
  {
    hide Cached, ValidConfiguration;
    UsualIsValid();
  }

  lemma UsualIsValid()
    ensures ValidConfiguration(USUAL) && ValidConfiguration(OTHER)
  {
  }

  lemma CachedWithRoom(m: map<u64, Response>, r: Response)
    requires |m[r.requestId := r]| <= MAX_CACHED_RESPONSES
    ensures Cached(m, r) == m[r.requestId := r]
  {
  }

  // ---------------------------------------------------------------- the response cache

  /** A fresh response is remembered exactly when there is room or it is not the smallest id. */
  lemma RetainedExactlyWhen(m: map<u64, Response>, r: Response)
    requires r.requestId !in m && |m| <= MAX_CACHED_RESPONSES
    ensures r.requestId in Cached(m, r)
      <==> |m| < MAX_CACHED_RESPONSES || exists id <- m :: id < r.requestId
  {
    AddedSize(m, r);
    var added := m[r.requestId := r];
    if |m| == MAX_CACHED_RESPONSES {
      var least := Smallest(added.Keys);
      assert Cached(m, r) == added - {least};
      if least == r.requestId {
        forall id <- m ensures r.requestId <= id { assert id in added.Keys; }
      } else {
        assert least in m && r.requestId in added.Keys;
      }
    }
  }

  /**
   * A retry, exactly: it repeats the first answer and makes no call if there
   * was room or a smaller id was cached, and otherwise it is computed afresh.
   */
  lemma RetryIsRememberedExactlyWhen(h: Host, w: World, request: Request, a: Answers, b: Answers)
    requires request.requestId !in h.responses && CacheBounded(h)
    ensures var first := Handle(h, w, request, a);
      var next := WorldAfter(w, first.passed);
      var again := Handle(first.host, next, request, b);
      var afresh := Compute(first.host, next, request, b);
      var remembered := |h.responses| < MAX_CACHED_RESPONSES || exists id <- h.responses :: id < request.requestId;
      && (remembered <==> request.requestId in first.host.responses)
      && (remembered ==> again == Handled(first.host, [], first.response))
      && (!remembered ==> again.passed == afresh.passed && again.response.response == afresh.result)
  {
    hide Cached, Compute;
    ComputeKeepsCache(h, w, request, a);
    var first := Handle(h, w, request, a);
    RetainedExactlyWhen(h.responses, first.response);
    CachedIsStored(h.responses, first.response);
  }

  /**
   * Idempotence, exactly: a retry makes no call and repeats the first answer
   * if the answer was remembered, or if computing it again is harmless.  That
   * is so unless the platform failed or a recovery was carried out.
   */
  lemma RetryIsIdempotentExactlyWhen(h: Host, w: World, request: Request, a: Answers, b: Answers)
    requires request.requestId !in h.responses && CacheBounded(h)
    ensures var first := Handle(h, w, request, a);
      var again := Handle(first.host, WorldAfter(w, first.passed), request, b);
      var remembered := |h.responses| < MAX_CACHED_RESPONSES || exists id <- h.responses :: id < request.requestId;
      (again.passed == [] && again.response.response == first.response.response)
      <==> (remembered
            || (first.response.response != Err(Platform)
                && !(request.command.Recover? && Refusal(h, request).None?)))
  {
    hide Cached, Compute, Refusal;
    RetryIsRememberedExactlyWhen(h, w, request, a, b);
    var first := Handle(h, w, request, a);
    RecomputingIsSilentExactlyWhen(h, first.host, w, request, a, b);
  }

  lemma RecomputingIsSilentExactlyWhen(h: Host, later: Host, w: World, request: Request, a: Answers, b: Answers)
    requires later == Compute(h, w, request, a).host.(responses := later.responses)
    ensures var first := Compute(h, w, request, a);
      var again := Compute(later, WorldAfter(w, first.passed), request, b);
      (again.passed == [] && again.result == first.result)
      <==> (first.result != Err(Platform) && !(request.command.Recover? && Refusal(h, request).None?))
  {
    hide ValidConfiguration, AfterUndo, AfterStart;
  }

  lemma ComputeKeepsCache(h: Host, w: World, request: Request, a: Answers)
    ensures Compute(h, w, request, a).host.responses == h.responses
  {
  }

  lemma CachedIsStored(m: map<u64, Response>, r: Response)
    ensures r.requestId in Cached(m, r) ==> Cached(m, r)[r.requestId] == r
  {
  }

  function Filler(id: u64): Response { Response(PROTOCOL_VERSION, id, 0, {}, Ok(HelloDone)) }

  function FullCache(n: nat): map<u64, Response>
    requires n <= MAX_CACHED_RESPONSES
  {
    map id: u64 | 1000 <= id < 1000 + n :: Filler(id)
  }

  lemma {:induction false} FullCacheSize(n: nat)
    requires n <= MAX_CACHED_RESPONSES
    ensures |FullCache(n)| == n
    decreases n
  {
    if n > 0 {
      FullCacheSize(n - 1);
      AddedSize(FullCache(n - 1), Filler(1000 + n - 1));
      assert FullCache(n) == FullCache(n - 1)[1000 + n - 1 := Filler(1000 + n - 1)];
    }
  }

  function Greeting(i: nat): Event
    requires i < MAX_CACHED_RESPONSES
  {
    Deliver(Request(PROTOCOL_VERSION, 1000 + i, 0, {}, Hello), ALL_WELL)
  }

  function Greetings(from: nat): seq<Event>
    requires from <= MAX_CACHED_RESPONSES
    decreases MAX_CACHED_RESPONSES - from
  {
    if from == MAX_CACHED_RESPONSES then [] else [Greeting(from)] + Greetings(from + 1)
  }

  /** An idle host that has answered `n` greetings. */
  function Greeted(n: nat): Host
    requires n <= MAX_CACHED_RESPONSES
  {
    NewHost({}, None).(responses := FullCache(n))
  }

  lemma GreetingIsCached(i: nat)
    requires i < MAX_CACHED_RESPONSES
    ensures Happens(Machine(World(Clean, None), Some(Greeted(i))), Greeting(i)).machine
         == Machine(World(Clean, None), Some(Greeted(i + 1)))
  {
    hide Cached;
    FullCacheSize(i);
    FullCacheSize(i + 1);
    var r := Filler(1000 + i);
    assert FullCache(i + 1) == FullCache(i)[r.requestId := r];
    CachedWithRoom(FullCache(i), r);
  }

  lemma {:induction false} GreetingsFillTheCache(from: nat)
    requires from <= MAX_CACHED_RESPONSES
    ensures After(Machine(World(Clean, None), Some(Greeted(from))), Greetings(from))
         == Machine(World(Clean, None), Some(Greeted(MAX_CACHED_RESPONSES)))
    decreases MAX_CACHED_RESPONSES - from
  {
    hide Happens, Greeted, Greeting;
    if from < MAX_CACHED_RESPONSES {
      GreetingIsCached(from);
      GreetingsFillTheCache(from + 1);
      assert Greetings(from)[1..] == Greetings(from + 1);
    }
  }

  const NO: Answer := Answer(false, false, Clean)
  const ALL_FAIL: Answers := Answers(NO, NO, NO)

  /**
   * A run where a retry is not idempotent: with 256 larger ids remembered, a
   * Start whose journal write failed is sent again under the same id, and the
   * host writes, starts and answers differently.
   */
  lemma AForgottenStartRunsTwice()
    ensures var m := After(Installed, [Restart({}, YES)] + Greetings(0));
      var request := Request(PROTOCOL_VERSION, 5, 0, {}, Start(USUAL));
      && m.host.Some? && request.requestId !in m.host.value.responses
      && var first := Handle(m.host.value, m.world, request, ALL_FAIL);
         var again := Handle(first.host, WorldAfter(m.world, first.passed), request, ALL_WELL);
         && first.response.response == Err(Platform) && again.response.response == Ok(Started)
         && |again.passed| == 2
         && again.passed[0].call == WriteJournal && again.passed[1].call == StartNetwork
  {
    hide Cached, Compute, FullCache, Happens, Greetings;
    var h, w := Greeted(MAX_CACHED_RESPONSES), World(Clean, None);
    var request := Request(PROTOCOL_VERSION, 5, 0, {}, Start(USUAL));
    RunFirst(Installed, Restart({}, YES), Greetings(0));
    FreshHost();
    NoGreetingsYet();
    GreetingsFillTheCache(0);
    FullCacheSize(MAX_CACHED_RESPONSES);
    FullCacheIds();
    UsualIsValid();
    RetryIsRememberedExactlyWhen(h, w, request, ALL_FAIL, ALL_WELL);
    StartFailsThenWorks(h, w, request, ALL_FAIL, ALL_WELL);
  }

  lemma NoGreetingsYet()
    ensures Greeted(0) == NewHost({}, None)
  {
  }

  lemma FullCacheIds()
    ensures forall id <- FullCache(MAX_CACHED_RESPONSES) ::
      1000 <= id && FullCache(MAX_CACHED_RESPONSES)[id].requestId == id
  {
  }

  lemma StartFailsThenWorks(h: Host, w: World, request: Request, a: Answers, b: Answers)
    requires request.command.Start? && ValidConfiguration(request.command.configuration)
    requires request.version == PROTOCOL_VERSION && request.capabilities == {}
    requires h.state == HostState.Stopped && !h.recoveryRequired && h.generation == request.profileGeneration == 0
    requires request.requestId !in h.responses
    requires !a.first.ok && !a.first.effect && b.first.ok && b.second.ok
    ensures var first := Handle(h, w, request, a);
      var afresh := Compute(first.host, WorldAfter(w, first.passed), request, b);
      && first.response.response == Err(Platform)
      && afresh.result == Ok(Started) && |afresh.passed| == 2
      && afresh.passed[0].call == WriteJournal && afresh.passed[1].call == StartNetwork
  {
    hide Cached, ValidConfiguration;
  }

  datatype Asked = Asked(request: Request, answers: Answers)

  ghost function Serve(h: Host, w: World, asked: seq<Asked>): Host
    decreases |asked|
  {
    if asked == [] then h
    else
      var done := Handle(h, w, asked[0].request, asked[0].answers);
      Serve(done.host, WorldAfter(w, done.passed), asked[1..])
  }

  /** The responses that were computed rather than remembered, oldest first. */
  ghost function Computed(h: Host, w: World, asked: seq<Asked>): seq<Response>
    decreases |asked|
  {
    if asked == [] then []
    else
      var done := Handle(h, w, asked[0].request, asked[0].answers);
      (if asked[0].request.requestId in h.responses then [] else [done.response])
      + Computed(done.host, WorldAfter(w, done.passed), asked[1..])
  }

  /** Each request retries a remembered one or carries an id above all earlier ones. */
  ghost predicate Disciplined(h: Host, w: World, asked: seq<Asked>, last: int)
    decreases |asked|
  {
    asked != [] ==>
      var done := Handle(h, w, asked[0].request, asked[0].answers);
      var id := asked[0].request.requestId;
      && (id in h.responses || last < id)
      && Disciplined(done.host, WorldAfter(w, done.passed), asked[1..], if last < id then id else last)
  }

  function LastId(log: seq<Response>): int {
    if log == [] then -1 else log[|log| - 1].requestId
  }

  function Kept(log: seq<Response>): seq<Response> {
    if |log| <= MAX_CACHED_RESPONSES then log else log[|log| - MAX_CACHED_RESPONSES..]
  }

  predicate Ascending(log: seq<Response>) {
    forall i, j | 0 <= i < j < |log| :: log[i].requestId < log[j].requestId
  }

  /** The cache holds the given responses, each under its id, and nothing else. */
  ghost predicate Holds(m: map<u64, Response>, kept: seq<Response>) {
    && |m| == |kept|
    && (forall i | 0 <= i < |kept| :: kept[i].requestId in m && m[kept[i].requestId] == kept[i])
    && (forall id <- m :: exists i | 0 <= i < |kept| :: kept[i].requestId == id)
  }

  lemma CachedIsTail(m: map<u64, Response>, log: seq<Response>, r: Response)
    requires Ascending(log) && Holds(m, Kept(log)) && LastId(log) < r.requestId
    ensures Ascending(log + [r]) && Holds(Cached(m, r), Kept(log + [r]))
  {
    hide Holds, Ascending, Smallest;
    var kept := Kept(log);
    var all := kept + [r];
    LaterIsNew(m, log, r);
    HoldsMore(m, kept, r);
    if |log| < MAX_CACHED_RESPONSES {
      assert Kept(log + [r]) == all;
    } else {
      assert Kept(log + [r]) == all[1..];
      HoldsFewer(m[r.requestId := r], all);
    }
  }

  lemma LaterIsNew(m: map<u64, Response>, log: seq<Response>, r: Response)
    requires Ascending(log) && Holds(m, Kept(log)) && LastId(log) < r.requestId
    ensures r.requestId !in m && |m| == |Kept(log)|
    ensures Ascending(log + [r]) && Ascending(Kept(log) + [r])
    ensures |m[r.requestId := r]| == |m| + 1
  {
    StillAscending(log, r);
    hide Ascending, LastId, Kept;
    KeptIsBelow(log, r.requestId);
    AddedSize(m, r);
  }

  lemma StillAscending(log: seq<Response>, r: Response)
    requires Ascending(log) && LastId(log) < r.requestId
    ensures Ascending(log + [r]) && Ascending(Kept(log) + [r])
  {
    var longer := log + [r];
    assert Ascending(longer);
    assert Kept(log) + [r] == longer[|log| - |Kept(log)|..];
  }

  lemma KeptIsBelow(log: seq<Response>, id: u64)
    requires Ascending(log) && LastId(log) < id
    ensures forall i | 0 <= i < |Kept(log)| :: Kept(log)[i].requestId < id
  {
  }

  lemma HoldsMore(m: map<u64, Response>, kept: seq<Response>, r: Response)
    requires Holds(m, kept) && r.requestId !in m
    ensures Holds(m[r.requestId := r], kept + [r])
  {
    var all := kept + [r];
    AddedSize(m, r);
    assert all[|kept|] == r;
    forall id <- m ensures exists i | 0 <= i < |all| :: all[i].requestId == id {
      var i :| 0 <= i < |kept| && kept[i].requestId == id;
      assert all[i].requestId == id;
    }
  }

  lemma FirstIsSmallest(m: map<u64, Response>, kept: seq<Response>)
    requires Holds(m, kept) && Ascending(kept) && |kept| > 0
    ensures m.Keys != {} && Smallest(m.Keys) == kept[0].requestId
  {
    var first := kept[0].requestId;
    assert first in m.Keys;
    forall id <- m ensures first <= id {
      var i :| 0 <= i < |kept| && kept[i].requestId == id;
    }
  }

  lemma HoldsFewer(m: map<u64, Response>, kept: seq<Response>)
    requires Holds(m, kept) && Ascending(kept) && |kept| > 0
    ensures m.Keys != {} && Smallest(m.Keys) == kept[0].requestId
    ensures Holds(m - {kept[0].requestId}, kept[1..])
  {
    var first := kept[0].requestId;
    FirstIsSmallest(m, kept);
    RemovedSize(m, first);
    var fewer, rest := m - {first}, kept[1..];
    forall i | 0 <= i < |rest| ensures rest[i].requestId in fewer && fewer[rest[i].requestId] == rest[i] {
      assert rest[i] == kept[i + 1] && kept[0].requestId < kept[i + 1].requestId;
    }
    forall id <- fewer ensures exists i | 0 <= i < |rest| :: rest[i].requestId == id {
      var i :| 0 <= i < |kept| && kept[i].requestId == id;
      assert rest[i - 1].requestId == id;
    }
  }

  lemma ServeStep(h: Host, w: World, a: Asked, log: seq<Response>)
    requires Ascending(log) && Holds(h.responses, Kept(log))
    requires LastId(log) < a.request.requestId && a.request.requestId !in h.responses
    ensures var done := Handle(h, w, a.request, a.answers);
      && done.response.requestId == a.request.requestId
      && Ascending(log + [done.response]) && Holds(done.host.responses, Kept(log + [done.response]))
  {
    hide Ascending, Holds, Kept, LastId, Cached;
    CachedIsTail(h.responses, log, Handle(h, w, a.request, a.answers).response);
  }

  /**
   * For a client whose new ids only grow, the cache is exactly the last 256
   * computed responses, whatever retries come in between.
   */
  lemma {:induction false} CacheIsTheLastResponses(h: Host, w: World, asked: seq<Asked>, log: seq<Response>)
    requires Ascending(log) && Holds(h.responses, Kept(log)) && Disciplined(h, w, asked, LastId(log))
    ensures Ascending(log + Computed(h, w, asked))
    ensures Holds(Serve(h, w, asked).responses, Kept(log + Computed(h, w, asked)))
    decreases |asked|
  {
    hide Ascending, Holds, Kept, Handle;
    if asked == [] {
      assert log + Computed(h, w, asked) == log;
    } else {
      var a := asked[0];
      var done := Handle(h, w, a.request, a.answers);
      var next := WorldAfter(w, done.passed);
      if a.request.requestId in h.responses {
        RetryIsSilent(h, w, a.request, a.answers);
        assert Computed(h, w, asked) == Computed(done.host, next, asked[1..]);
        RememberedIsNotNew(h.responses, log, a.request.requestId);
        CacheIsTheLastResponses(done.host, next, asked[1..], log);
      } else {
        ServeStep(h, w, a, log);
        CacheIsTheLastResponses(done.host, next, asked[1..], log + [done.response]);
        assert log + [done.response] + Computed(done.host, next, asked[1..])
            == log + Computed(h, w, asked);
      }
    }
  }

  lemma RememberedIsNotNew(m: map<u64, Response>, log: seq<Response>, id: u64)
    requires Ascending(log) && Holds(m, Kept(log)) && id in m
    ensures id <= LastId(log)
  {
  }
}
