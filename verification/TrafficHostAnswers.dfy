/** What every request to the traffic host is answered, which calls it makes, and in which order. */
module TrafficHostAnswers {
  import opened Common
  import opened HostProtocol
  import opened TrafficHosting
  import opened TrafficHostRuns

  /** The request is new, of the right version, asks for nothing unsupported, and is not outdated. */
  predicate Heard(h: Host, request: Request) {
    && request.requestId !in h.responses
    && request.version == 1
    && request.capabilities <= h.capabilities
    && h.generation <= request.profileGeneration
  }

  function Calls(passed: seq<Passed>): seq<Call> {
    seq(|passed|, i requires 0 <= i < |passed| => passed[i].call)
  }

  /** The envelope of every new answer, and the three ways a request is turned away unheard. */
  lemma RefusalAnswers(h: Host, w: World, request: Request, a: Answers)
    requires request.requestId !in h.responses
    ensures var done := Handle(h, w, request, a);
      var result := done.response.response;
      && done.response == Response(1, request.requestId, request.profileGeneration, h.capabilities, result)
      && (request.version != 1 ==> result == Err(UnsupportedVersion))
      && (request.version == 1 && !(request.capabilities <= h.capabilities) ==> result == Err(UnsupportedCapability))
      && (request.version == 1 && request.capabilities <= h.capabilities && !Heard(h, request) ==>
            result == Err(GenerationConflict))
      && (!Heard(h, request) ==>
            done.passed == [] && done.host.(responses := h.responses) == h)
      && (Heard(h, request) ==>
            result != Err(UnsupportedVersion) && result != Err(UnsupportedCapability)
            && result != Err(GenerationConflict) && result != Err(Unauthorized))
  {
    hide Cached, ValidConfiguration;
  }

  lemma HelloAnswers(h: Host, w: World, request: Request, a: Answers)
    requires Heard(h, request) && request.command.Hello?
    ensures var done := Handle(h, w, request, a);
      && done.response.response == Ok(HelloDone) && done.passed == []
      && done.host.(responses := h.responses) == h
  {
    hide Cached;
  }

  /**
   * In every run, a Status request makes no call and is told the truth: the
   * platform is clean when it says Stopped, runs the journaled configuration
   * when it says Running, and is Recovering whenever recovery is required.
   */
  lemma StatusIsTrue(events: seq<Event>, request: Request, a: Answers)
    requires After(Installed, events).host.Some?
    requires Heard(After(Installed, events).host.value, request) && request.command.Status?
    ensures var m := After(Installed, events);
      var done := Handle(m.host.value, m.world, request, a);
      && done.passed == []
      && done.host.(responses := m.host.value.responses) == m.host.value
      && done.response.response.Ok? && done.response.response.value.StatusIs?
      && var x := done.response.response.value.state;
         && (x.Stopped? ==> m.world == World(Clean, None))
         && (x.Running? ==> m.world.journal.Some?
                            && m.world.network == Applied(m.world.journal.value.configuration)
                            && m.world.journal.value.profileGeneration == m.host.value.generation)
         && (m.host.value.recoveryRequired ==> x.Recovering?)
         && !x.Starting? && !x.Stopping?
         && x == m.host.value.state
  {
    hide After, Cached;
    HostReportsTheTruth(events);
  }

  // ---------------------------------------------------------------- start

  /** What a configuration must be to be tried at all. */
  ghost predicate Usable(c: StartParameters) {
    && 576 <= c.mtu && c.mtu <= 9000
    && !(c.ipv4 == None && c.ipv6 == None)
    && 1 <= |c.dns| && |c.dns| <= 16
    && forall network: IpNetwork | (c.ipv4 == Some(network) || c.ipv6 == Some(network)) ::
         network.prefixLength <= 128 && (network.address.V4? ==> network.prefixLength <= 32)
  }

  lemma UsableIsValid(c: StartParameters)
    ensures ValidConfiguration(c) <==> Usable(c)
  {
    if ValidConfiguration(c) {
      forall network: IpNetwork | (c.ipv4 == Some(network) || c.ipv6 == Some(network))
        ensures network.prefixLength <= 128 && (network.address.V4? ==> network.prefixLength <= 32)
      {
        assert NetworkFits(Some(network));
      }
    }
  }

  /** What a Start is refused for, and what it does when it is not: journal first, then the network. */
  lemma StartAnswers(h: Host, w: World, request: Request, a: Answers)
    requires Truthful(h, w) && Heard(h, request) && request.command.Start?
    ensures var done := Handle(h, w, request, a);
      var result, calls, c := done.response.response, Calls(done.passed), request.command.configuration;
      var repeated := h.state.Running? && h.generation == request.profileGeneration;
      if h.recoveryRequired then result == Err(RecoveryRequired) && calls == []
      else if !Usable(c) then result == Err(InvalidConfiguration) && calls == []
      else if repeated then result == Ok(Started) && calls == []
      else
        && (!a.first.ok ==>
              result == Err(Platform) && calls == [WriteJournal]
              && done.host.state.Failed? && !done.host.recoveryRequired)
        && (a.first.ok && !a.second.ok ==>
              result == Err(Platform) && calls == [WriteJournal, StartNetwork]
              && done.host.recoveryRequired && done.host.state.Recovering?)
        && (a.first.ok && a.second.ok ==>
              result == Ok(Started) && calls == [WriteJournal, StartNetwork]
              && done.host.state.Running? && done.host.generation == request.profileGeneration
              && WorldAfter(w, done.passed)
                   == World(Applied(c), Some(RecoveryRecord(request.profileGeneration, c))))
  {
    hide Cached, ValidConfiguration, Usable;
    UsableIsValid(request.command.configuration);
  }

  // ---------------------------------------------------------------- stop and recover

  /** A Stop undoes the network before it forgets the record, and stops at the first failure. */
  lemma StopAnswers(h: Host, w: World, request: Request, a: Answers)
    requires Truthful(h, w) && Heard(h, request) && request.command.Stop?
    ensures var done := Handle(h, w, request, a);
      var result, calls := done.response.response, Calls(done.passed);
      if h.recoveryRequired then result == Err(RecoveryRequired) && calls == []
      else if h.state.Stopped? then result == Ok(StoppedDone) && calls == []
      else
        && (!a.first.ok ==> result == Err(Platform) && calls == [StopNetwork])
        && (a.first.ok && !a.second.ok ==> result == Err(Platform) && calls == [StopNetwork, ClearJournal])
        && (!(a.first.ok && a.second.ok) ==> done.host.recoveryRequired && done.host.state.Recovering?)
        && (a.first.ok && a.second.ok ==>
              result == Ok(StoppedDone) && calls == [StopNetwork, ClearJournal]
              && done.host.state.Stopped? && done.host.generation == request.profileGeneration
              && WorldAfter(w, done.passed) == World(Clean, None))
  {
    hide Cached;
  }

  /** A Recover is never refused for the host's state, and works from the record it finds. */
  lemma RecoverAnswers(h: Host, w: World, request: Request, a: Answers)
    requires Journaled(w) && Heard(h, request) && request.command.Recover?
    ensures var done := Handle(h, w, request, a);
      var result, calls := done.response.response, Calls(done.passed);
      if !a.first.ok then
        result == Err(Platform) && calls == [LoadJournal]
        && done.host.state.Recovering? && done.host.recoveryRequired == h.recoveryRequired
      else if w.journal.None? then
        result == Ok(Recovered) && calls == [LoadJournal]
        && done.host.state.Stopped? && !done.host.recoveryRequired && WorldAfter(w, done.passed) == World(Clean, None)
      else
        && (!a.second.ok ==> result == Err(Platform) && calls == [LoadJournal, RecoverNetwork])
        && (a.second.ok && !a.third.ok ==>
              result == Err(Platform) && calls == [LoadJournal, RecoverNetwork, ClearJournal])
        && (!(a.second.ok && a.third.ok) ==> done.host.state.Recovering? && done.host.recoveryRequired)
        && (a.second.ok && a.third.ok ==>
              result == Ok(Recovered) && calls == [LoadJournal, RecoverNetwork, ClearJournal]
              && done.host.state.Stopped? && !done.host.recoveryRequired
              && done.host.generation >= w.journal.value.profileGeneration
              && (done.host.generation == h.generation
                  || done.host.generation == w.journal.value.profileGeneration)
              && WorldAfter(w, done.passed) == World(Clean, None))
  {
    hide Cached;
  }

  // ---------------------------------------------------------------- generations

  /** The request moved the host to its generation: it started or stopped something. */
  ghost predicate Applies(m: Machine, request: Request, a: Answers) {
    && m.host.Some? && Heard(m.host.value, request) && (request.command.Start? || request.command.Stop?)
    && Handle(m.host.value, m.world, request, a).response.response.Ok?
    && Handle(m.host.value, m.world, request, a).passed != []
  }

  /**
   * Once a Start or Stop of some generation has been carried out, the same
   * incarnation turns away every later request of an older one.
   */
  lemma OlderGenerationsAreRefused(
      m: Machine, request: Request, a: Answers, later: seq<Event>, outdated: Request, b: Answers)
    requires MachineValid(m) && Applies(m, request, a)
    requires forall e <- later :: e.Deliver?
    requires var n := After(Happens(m, Deliver(request, a)).machine, later);
      && n.host.Some? && outdated.requestId !in n.host.value.responses && outdated.version == 1
      && outdated.capabilities <= n.host.value.capabilities
    requires outdated.profileGeneration < request.profileGeneration
    ensures var n := After(Happens(m, Deliver(request, a)).machine, later);
      var done := Handle(n.host.value, n.world, outdated, b);
      done.response.response == Err(GenerationConflict) && done.passed == []
  {
    hide After, Handle;
    var next := Happens(m, Deliver(request, a)).machine;
    AppliedGeneration(m.host.value, m.world, request, a);
    HappensValid(m, Deliver(request, a));
    GenerationNeverFalls(next, later);
    var n := After(next, later);
    RefusalAnswers(n.host.value, n.world, outdated, b);
  }

  lemma AppliedGeneration(h: Host, w: World, request: Request, a: Answers)
    requires Truthful(h, w) && Heard(h, request) && (request.command.Start? || request.command.Stop?)
    requires Handle(h, w, request, a).response.response.Ok? && Handle(h, w, request, a).passed != []
    ensures Handle(h, w, request, a).host.generation == request.profileGeneration
  {
    hide Handle, Usable, Truthful;
    if request.command.Start? {
      StartAnswers(h, w, request, a);
    } else {
      StopAnswers(h, w, request, a);
    }
  }
}
