/**
 * The privileged traffic host: it journals before it mutates the network,
 * so a crash between any two calls leaves a record to recover from.
 */
module TrafficHosting {
  import opened Common
  import opened FiniteSets
  import opened HostProtocol

  const MAX_CACHED_RESPONSES := 256

  datatype RecoveryRecord = RecoveryRecord(profileGeneration: u64, configuration: StartParameters)

  /** What survives a crash: the routes and DNS settings in force, and the journal file. */
  datatype Network = Clean | Applied(configuration: StartParameters) | Torn

  datatype World = World(network: Network, journal: Option<RecoveryRecord>)

  datatype Call = LoadJournal | WriteJournal | ClearJournal | StartNetwork | StopNetwork | RecoverNetwork

  /** One call and the world it left behind. */
  datatype Passed = Passed(call: Call, world: World)

  /**
   * How the platform answers one call.  A failed journal call may still have
   * taken effect; a failed backend call leaves the network as it pleases.
   */
  datatype Answer = Answer(ok: bool, effect: bool, left: Network)

  /** The answers to the calls of one request, in order; no request makes more than three. */
  datatype Answers = Answers(first: Answer, second: Answer, third: Answer)

  function AfterWrite(w: World, record: RecoveryRecord, a: Answer): World {
    if a.ok || a.effect then w.(journal := Some(record)) else w
  }

  function AfterClear(w: World, a: Answer): World {
    if a.ok || a.effect then w.(journal := None) else w
  }

  function AfterStart(w: World, c: StartParameters, a: Answer): World {
    w.(network := if a.ok then Applied(c) else a.left)
  }

  /** Undoing never adds settings to a network that has none. */
  function AfterUndo(w: World, a: Answer): World {
    w.(network := if a.ok || w.network.Clean? then Clean else a.left)
  }

  datatype Host = Host(
    capabilities: set<Capability>,
    state: HostState,
    generation: u64,
    recoveryRequired: bool,
    responses: map<u64, Response>)

  function NewHost(capabilities: set<Capability>, journal: Option<RecoveryRecord>): Host {
    Host(capabilities, if journal.Some? then Recovering else Stopped, 0, journal.Some?, map[])
  }

  datatype Outcome = Outcome(host: Host, passed: seq<Passed>, result: CommandResult)

  function Max(a: u64, b: u64): u64 { if a < b then b else a }

  function ExecuteStart(h: Host, w: World, request: Request, a: Answers): Outcome
    requires request.command.Start?
  {
    var c := request.command.configuration;
    if h.recoveryRequired then Outcome(h, [], Err(RecoveryRequired))
    else if !ValidConfiguration(c) then Outcome(h, [], Err(InvalidConfiguration))
    else if h.state.Starting? || h.state.Stopping? then Outcome(h, [], Err(Busy))
    else if h.state.Running? && request.profileGeneration == h.generation then
      Outcome(h, [], Ok(Started))
    else
      var written := AfterWrite(w, RecoveryRecord(request.profileGeneration, c), a.first);
      var trace := [Passed(WriteJournal, written)];
      if !a.first.ok then Outcome(h.(state := Failed), trace, Err(Platform))
      else
        var started := AfterStart(written, c, a.second);
        var longer := trace + [Passed(StartNetwork, started)];
        if !a.second.ok then
          Outcome(h.(state := Recovering, recoveryRequired := true), longer, Err(Platform))
        else
          Outcome(h.(state := Running, generation := request.profileGeneration), longer, Ok(Started))
  }

  function ExecuteStop(h: Host, w: World, request: Request, a: Answers): Outcome {
    if h.recoveryRequired then Outcome(h, [], Err(RecoveryRequired))
    else if h.state.Stopped? then Outcome(h, [], Ok(StoppedDone))
    else
      var stopped := AfterUndo(w, a.first);
      var trace := [Passed(StopNetwork, stopped)];
      var lost := h.(state := Recovering, recoveryRequired := true);
      if !a.first.ok then Outcome(lost, trace, Err(Platform))
      else
        var cleared := trace + [Passed(ClearJournal, AfterClear(stopped, a.second))];
        if !a.second.ok then Outcome(lost, cleared, Err(Platform))
        else
          Outcome(h.(state := HostState.Stopped, generation := Max(h.generation, request.profileGeneration)),
                  cleared, Ok(StoppedDone))
  }

  function ExecuteRecover(h: Host, w: World, a: Answers): Outcome {
    var trace := [Passed(LoadJournal, w)];
    if !a.first.ok then Outcome(h.(state := Recovering), trace, Err(Platform))
    else if w.journal.None? then
      Outcome(h.(state := HostState.Stopped, recoveryRequired := false), trace, Ok(Recovered))
    else
      var undone := AfterUndo(w, a.second);
      var longer := trace + [Passed(RecoverNetwork, undone)];
      var lost := h.(state := Recovering, recoveryRequired := true);
      if !a.second.ok then Outcome(lost, longer, Err(Platform))
      else
        var cleared := longer + [Passed(ClearJournal, AfterClear(undone, a.third))];
        if !a.third.ok then Outcome(lost, cleared, Err(Platform))
        else
          Outcome(h.(state := HostState.Stopped, recoveryRequired := false,
                     generation := Max(h.generation, w.journal.value.profileGeneration)),
                  cleared, Ok(Recovered))
  }

  function ExecuteCommand(h: Host, w: World, request: Request, a: Answers): Outcome {
    match request.command
    case Hello => Outcome(h, [], Ok(HelloDone))
    case Status => Outcome(h, [], Ok(StatusIs(h.state)))
    case Recover => ExecuteRecover(h, w, a)
    case Start(_) => ExecuteStart(h, w, request, a)
    case Stop => ExecuteStop(h, w, request, a)
  }

  function Refusal(h: Host, request: Request): Option<ErrorCode> {
    if request.version != PROTOCOL_VERSION then Some(UnsupportedVersion)
    else if !(request.capabilities <= h.capabilities) then Some(UnsupportedCapability)
    else if request.profileGeneration < h.generation then Some(GenerationConflict)
    else None
  }

  function Smallest(keys: set<u64>): (k: u64)
    requires keys != {}
    ensures k in keys && forall j <- keys :: k <= j
  {
    LeastExists(keys);
    assert exists k: u64 :: k in keys && forall j <- keys :: k <= j by {
      var k :| IsLeast(k, keys);
    }
    var k: u64 :| k in keys && forall j <- keys :: k <= j;
    k
  }

  /** Adding a response drops the smallest id once the cache is over its limit. */
  ghost function Cached(responses: map<u64, Response>, r: Response): map<u64, Response> {
    var added := responses[r.requestId := r];
    if |added| <= MAX_CACHED_RESPONSES then added
    else added - {Smallest(added.Keys)}
  }

  datatype Handled = Handled(host: Host, passed: seq<Passed>, response: Response)

  /** What answers a request whose response is not remembered. */
  function Compute(h: Host, w: World, request: Request, a: Answers): Outcome {
    var refusal := Refusal(h, request);
    if refusal.Some? then Outcome(h, [], Err(refusal.value)) else ExecuteCommand(h, w, request, a)
  }

  /** One request from start to finish. */
  ghost function Handle(h: Host, w: World, request: Request, a: Answers): Handled {
    if request.requestId in h.responses then Handled(h, [], h.responses[request.requestId])
    else
      var done := Compute(h, w, request, a);
      var response := Response(PROTOCOL_VERSION, request.requestId, request.profileGeneration,
                               h.capabilities, done.result);
      Handled(done.host.(responses := Cached(done.host.responses, response)), done.passed, response)
  }

  /** The world after the calls of `passed`. */
  function WorldAfter(w: World, passed: seq<Passed>): World {
    if passed == [] then w else passed[|passed| - 1].world
  }

  // ---------------------------------------------------------------- the object

  /** The platform: a network backend and a journal file, each free to fail. */
  class PlatformWorld {
    var world: World
    ghost var passed: seq<Passed>

    constructor (w: World)
      ensures world == w && passed == []
    {
      world := w;
      passed := [];
    }

    method Load(a: Answer) returns (r: Result<Option<RecoveryRecord>, ErrorCode>)
      modifies this
      ensures world == old(world) && passed == old(passed) + [Passed(LoadJournal, world)]
      ensures r == if a.ok then Ok(world.journal) else Err(Platform)
    {
      passed := passed + [Passed(LoadJournal, world)];
      r := if a.ok then Ok(world.journal) else Err(Platform);
    }

    method Write(record: RecoveryRecord, a: Answer) returns (ok: bool)
      modifies this
      ensures world == AfterWrite(old(world), record, a)
      ensures passed == old(passed) + [Passed(WriteJournal, world)] && ok == a.ok
    {
      world := AfterWrite(world, record, a);
      passed := passed + [Passed(WriteJournal, world)];
      ok := a.ok;
    }

    method Clear(a: Answer) returns (ok: bool)
      modifies this
      ensures world == AfterClear(old(world), a)
      ensures passed == old(passed) + [Passed(ClearJournal, world)] && ok == a.ok
    {
      world := AfterClear(world, a);
      passed := passed + [Passed(ClearJournal, world)];
      ok := a.ok;
    }

    method Start(c: StartParameters, a: Answer) returns (ok: bool)
      modifies this
      ensures world == AfterStart(old(world), c, a)
      ensures passed == old(passed) + [Passed(StartNetwork, world)] && ok == a.ok
    {
      world := AfterStart(world, c, a);
      passed := passed + [Passed(StartNetwork, world)];
      ok := a.ok;
    }

    method Stop(a: Answer) returns (ok: bool)
      modifies this
      ensures world == AfterUndo(old(world), a)
      ensures passed == old(passed) + [Passed(StopNetwork, world)] && ok == a.ok
    {
      world := AfterUndo(world, a);
      passed := passed + [Passed(StopNetwork, world)];
      ok := a.ok;
    }

    method Recover(record: RecoveryRecord, a: Answer) returns (ok: bool)
      modifies this
      ensures world == AfterUndo(old(world), a)
      ensures passed == old(passed) + [Passed(RecoverNetwork, world)] && ok == a.ok
    {
      world := AfterUndo(world, a);
      passed := passed + [Passed(RecoverNetwork, world)];
      ok := a.ok;
    }
  }

  class TrafficHost {
    const platform: PlatformWorld
    const capabilities: set<Capability>
    var state: HostState
    var generation: u64
    var recoveryRequired: bool
    var responses: map<u64, Response>

    ghost function Model(): Host
      reads this
    {
      Host(capabilities, state, generation, recoveryRequired, responses)
    }

    constructor (platform: PlatformWorld, capabilities: set<Capability>, found: Option<RecoveryRecord>)
      ensures this.platform == platform && Model() == NewHost(capabilities, found)
    {
      this.platform := platform;
      this.capabilities := capabilities;
      state := if found.Some? then Recovering else HostState.Stopped;
      generation := 0;
      recoveryRequired := found.Some?;
      responses := map[];
    }

    method HandleRequest(request: Request, a: Answers) returns (response: Response)
      requires |responses| <= MAX_CACHED_RESPONSES
      modifies this, platform
      ensures var handled := Handle(old(Model()), old(platform.world), request, a);
        && Model() == handled.host && response == handled.response
        && platform.passed == old(platform.passed) + handled.passed
        && platform.world == WorldAfter(old(platform.world), handled.passed)
    {
      if request.requestId in responses {
        return responses[request.requestId];
      }
      var result: CommandResult;
      if request.version != PROTOCOL_VERSION {
        result := Err(UnsupportedVersion);
      } else if !(request.capabilities <= capabilities) {
        result := Err(UnsupportedCapability);
      } else if request.profileGeneration < generation {
        result := Err(GenerationConflict);
      } else {
        result := Execute(request, a);
      }
      response := Response(PROTOCOL_VERSION, request.requestId, request.profileGeneration,
                           capabilities, result);
      Cache(response);
    }

    method Execute(request: Request, a: Answers) returns (result: CommandResult)
      modifies this, platform
      ensures var done := ExecuteCommand(old(Model()), old(platform.world), request, a);
        && Model() == done.host && result == done.result
        && platform.passed == old(platform.passed) + done.passed
        && platform.world == WorldAfter(old(platform.world), done.passed)
    {
      match request.command
      case Hello => result := Ok(HelloDone);
      case Status => result := Ok(StatusIs(state));
      case Recover => result := RecoverNow(a);
      case Start(configuration) =>
        if recoveryRequired {
          return Err(RecoveryRequired);
        }
        if !ValidConfiguration(configuration) {
          return Err(InvalidConfiguration);
        }
        if state.Starting? || state.Stopping? {
          return Err(Busy);
        }
        if state.Running? && request.profileGeneration == generation {
          return Ok(Started);
        }
        var record := RecoveryRecord(request.profileGeneration, configuration);
        var written := platform.Write(record, a.first);
        if !written {
          state := Failed;
          return Err(Platform);
        }
        state := Starting;
        var started := platform.Start(configuration, a.second);
        if !started {
          state := Recovering;
          recoveryRequired := true;
          return Err(Platform);
        }
        generation := request.profileGeneration;
        state := Running;
        result := Ok(Started);
      case Stop =>
        if recoveryRequired {
          return Err(RecoveryRequired);
        }
        if state.Stopped? {
          return Ok(StoppedDone);
        }
        state := Stopping;
        var ok := platform.Stop(a.first);
        if ok {
          ok := platform.Clear(a.second);
        }
        if !ok {
          state := Recovering;
          recoveryRequired := true;
          return Err(Platform);
        }
        generation := Max(generation, request.profileGeneration);
        state := HostState.Stopped;
        result := Ok(StoppedDone);
    }

    method RecoverNow(a: Answers) returns (result: CommandResult)
      modifies this, platform
      ensures var done := ExecuteRecover(old(Model()), old(platform.world), a);
        && Model() == done.host && result == done.result
        && platform.passed == old(platform.passed) + done.passed
        && platform.world == WorldAfter(old(platform.world), done.passed)
    {
      state := Recovering;
      var loaded := platform.Load(a.first);
      if loaded.Err? {
        return Err(Platform);
      }
      if loaded.value.None? {
        recoveryRequired := false;
        state := HostState.Stopped;
        return Ok(Recovered);
      }
      var record := loaded.value.value;
      var ok := platform.Recover(record, a.second);
      if ok {
        ok := platform.Clear(a.third);
      }
      if !ok {
        recoveryRequired := true;
        return Err(Platform);
      }
      generation := Max(generation, record.profileGeneration);
      recoveryRequired := false;
      state := HostState.Stopped;
      result := Ok(Recovered);
    }

    method Cache(response: Response)
      requires |responses| <= MAX_CACHED_RESPONSES
      modifies this`responses
      ensures responses == Cached(old(responses), response)
    {
      ghost var before := responses;
      responses := responses[response.requestId := response];
      ghost var added := responses;
      AddedSize(before, response);
      while |responses| > MAX_CACHED_RESPONSES
        invariant responses == added || responses == Cached(before, response)
        invariant responses == added ==> |responses| <= MAX_CACHED_RESPONSES + 1
        invariant responses == Cached(before, response) && responses != added ==>
          |responses| <= MAX_CACHED_RESPONSES
        decreases |responses|
      {
        var oldest := Smallest(responses.Keys);
        RemovedSize(responses, oldest);
        responses := responses - {oldest};
      }
    }
  }

  lemma AddedSize(m: map<u64, Response>, r: Response)
    ensures |m[r.requestId := r]| == |m| + (if r.requestId in m then 0 else 1)
  {
    var added := m[r.requestId := r];
    assert added.Keys == m.Keys + {r.requestId};
    assert |added.Keys| == |added| && |m.Keys| == |m|;
  }

  lemma RemovedSize(m: map<u64, Response>, k: u64)
    requires k in m
    ensures |m - {k}| == |m| - 1
  {
    assert (m - {k}).Keys == m.Keys - {k};
    assert |m.Keys| == |m| && |(m - {k}).Keys| == |m - {k}|;
  }
}
