/** What the fake-address table answers, including after a mapping's time is up. */
module FakeDnsAnswers {
  import opened Common
  import opened DomainNames
  import opened FakeDns
  import opened FakeDnsRuns

  /** Everything in the table has time left. */
  ghost predicate AllLive(t: Table, now: int) {
    forall k <- t.mappings :: now < t.mappings[k].expiresAt
  }

  /**
   * A lookup answers with a mapping exactly until its time is up, drops every
   * mapping whose time is, and changes nothing else.
   */
  lemma ResolvingAnswers(t: Table, generation: u64, fake: IpAddr, now: int)
    ensures var (next, result) := Resolve(t, generation, fake, now);
      && (generation != t.generation ==> next == t && result == Err(GenerationMismatch))
      && (generation == t.generation ==>
            && result.Ok?
            && (forall m :: result.value == Some(m) <==>
                  fake in t.mappings && t.mappings[fake] == m && now < m.expiresAt)
            && AllLive(next, now)
            && (forall k <- t.mappings :: now < t.mappings[k].expiresAt ==>
                  k in next.mappings && next.mappings[k] == t.mappings[k])
            && next.mappings.Keys <= t.mappings.Keys
            && next.(mappings := t.mappings, order := t.order) == t)
  {
    hide Retained;
  }

  /** A fake address whose time is up, or that never was one, is routed as the address it is. */
  lemma ExpiredIsRoutedAsUnmapped<A>(t: Table, rules: Rules<A>, fake: IpAddr, port: u16, now: int)
    requires fake in t.mappings ==> t.mappings[fake].expiresAt <= now
    ensures Decide(t, rules, t.generation, fake, port, now).1
         == Ok(Decision(rules(None, fake, port), fake, port, None))
  {
    hide Retained;
  }

  /** And while it has time left, by the remembered name and the real address. */
  lemma LiveIsRoutedByItsName<A>(t: Table, rules: Rules<A>, fake: IpAddr, port: u16, now: int)
    requires fake in t.mappings && now < t.mappings[fake].expiresAt
    ensures var m := t.mappings[fake];
      Decide(t, rules, t.generation, fake, port, now).1
        == Ok(Decision(rules(RoutingName(m.domain), m.realAddress, port), m.realAddress, port, Some(m.domain)))
    ensures forall other: u64 | other != t.generation ::
      Decide(t, rules, other, fake, port, now) == (t, Err(GenerationMismatch))
  {
    hide Retained, RoutingName;
  }

  /** Why an allocation is refused; the first two leave the table untouched. */
  lemma AllocatingErrors(t: Table, generation: u64, name: string, origin: IpAddr, ttl: nat, now: int)
    requires TableValid(t)
    ensures var (next, result) := Allocate(t, generation, name, origin, ttl, now);
      && (result == Err(GenerationMismatch) <==> generation != t.generation)
      && (result == Err(EmptyDomain) <==> generation == t.generation && FakeDnsName(name) == None)
      && (result.Err? && result.error != GenerationMismatch && result.error != EmptyDomain ==>
            result.error == AddressSpaceExhausted)
      && (generation != t.generation || FakeDnsName(name) == None ==> next == t)
      && next.generation == t.generation
  {
    hide FakeDnsName, TableValid, MakeRoom, NextAddress, RemoveExpired;
    if generation == t.generation && FakeDnsName(name).Some? {
      var live := RemoveExpired(t, now);
      RemoveExpiredValid(t, now);
      ExpiryKeepsShape(t, now);
      if !Known(live, FakeDnsName(name).value, origin) {
        AllocateNewIsFresh(live, FakeDnsName(name).value, origin, now + ttl);
        OnlyExhaustion(live, FakeDnsName(name).value, origin, now + ttl);
      }
    }
  }

  lemma OnlyExhaustion(t: Table, domain: string, origin: IpAddr, expiresAt: int)
    ensures var result := AllocateNew(t, domain, origin, expiresAt).1;
      result.Err? ==> result.error == AddressSpaceExhausted
  {
    hide MakeRoom;
    SearchOnlyExhausts(MakeRoom(t), origin, t.capacity + 1);
  }

  lemma {:induction false} SearchOnlyExhausts(t: Table, origin: IpAddr, tries: nat)
    ensures var result := NextAddress(t, origin, tries).1;
      result.Err? ==> result.error == AddressSpaceExhausted
    decreases tries
  {
    if tries > 0 {
      if origin.V4? && t.nextIpv4 < U32_MAX {
        SearchOnlyExhausts(t.(nextIpv4 := AfterIpv4(t.nextIpv4)), origin, tries - 1);
      } else if origin.V6? && t.nextIpv6 < U128_MAX {
        SearchOnlyExhausts(t.(nextIpv6 := t.nextIpv6 + 1), origin, tries - 1);
      }
    }
  }

  /** An allocation leaves no mapping behind whose time is up, other than one it makes itself. */
  lemma AllocatingDropsExpired(t: Table, name: string, origin: IpAddr, ttl: nat, now: int)
    requires TableValid(t) && FakeDnsName(name).Some?
    ensures var (next, result) := Allocate(t, t.generation, name, origin, ttl, now);
      forall k <- next.mappings :: now < next.mappings[k].expiresAt || result == Ok(k)
  {
    hide FakeDnsName, TableValid, MakeRoom, NextAddress, RemoveExpired, AllocateNew, Known;
    var domain := FakeDnsName(name).value;
    var live := RemoveExpired(t, now);
    RemoveExpiredValid(t, now);
    ExpiryKeepsShape(t, now);
    if Known(live, domain, origin) {
      KnownIsRefreshed(t, name, origin, ttl, now);
    } else {
      AllocateNewIsFresh(live, domain, origin, now + ttl);
      RoomFacts(live);
      UnknownIsNew(t, name, origin, ttl, now);
    }
  }

  lemma UnknownIsNew(t: Table, name: string, origin: IpAddr, ttl: nat, now: int)
    requires FakeDnsName(name).Some? && !Known(RemoveExpired(t, now), FakeDnsName(name).value, origin)
    ensures Allocate(t, t.generation, name, origin, ttl, now)
         == AllocateNew(RemoveExpired(t, now), FakeDnsName(name).value, origin, now + ttl)
  {
    hide AllocateNew, FakeDnsName, RemoveExpired;
  }

  /** A name that is still mapped keeps its address and its place; only its time starts again. */
  lemma KnownIsRefreshed(t: Table, name: string, origin: IpAddr, ttl: nat, now: int)
    requires TableValid(t) && FakeDnsName(name).Some?
    requires Known(RemoveExpired(t, now), FakeDnsName(name).value, origin)
    ensures var live := RemoveExpired(t, now);
      var (next, result) := Allocate(t, t.generation, name, origin, ttl, now);
      && result.Ok? && result.value in live.mappings
      && live.mappings[result.value].domain == FakeDnsName(name).value
      && live.mappings[result.value].realAddress == origin
      && next == live.(mappings := live.mappings[result.value :=
           live.mappings[result.value].(expiresAt := now + ttl)])
  {
    hide FakeDnsName, TableValid, RemoveExpired, AllocateNew;
  }

  /** A new generation knows no address of an older one, but does not hand its numbers out again at once. */
  lemma ReplacingForgets(t: Table, generation: u64, fake: IpAddr, now: int)
    ensures var next := ReplaceGeneration(t, generation);
      && Resolve(next, generation, fake, now).1 == Ok(None)
      && (generation != t.generation ==> Resolve(next, t.generation, fake, now).1 == Err(GenerationMismatch))
      && next.nextIpv4 == t.nextIpv4 && next.nextIpv6 == t.nextIpv6 && next.capacity == t.capacity
  {
  }
}
