/** The fake-address table as an object, each operation proved to be the one of its model. */
module FakeDnsObject {
  import opened Common
  import opened DomainNames
  import opened FakeDns
  import opened FakeDnsRuns

  method NewFakeDnsTable(generation: u64, capacity: nat) returns (r: Result<FakeDnsTable, FakeDnsError>)
    ensures capacity == 0 ==> r == Err(ZeroCapacity)
    ensures capacity > 0 ==>
      r.Ok? && fresh(r.value) && r.value.Model() == NewTable(generation, capacity) && r.value.Valid()
  {
    if capacity == 0 {
      return Err(ZeroCapacity);
    }
    var table := new FakeDnsTable(generation, capacity);
    return Ok(table);
  }

  class FakeDnsTable {
    var generation: u64
    const capacity: nat
    var mappings: Mappings
    var insertionOrder: seq<IpAddr>
    var nextIpv4: u32
    var nextIpv6: u128

    function Model(): Table
      reads this
    {
      Table(generation, capacity, mappings, insertionOrder, nextIpv4, nextIpv6)
    }

    ghost predicate Valid()
      reads this
    {
      TableValid(Model())
    }

    constructor (generation: u64, capacity: nat)
      requires capacity > 0
      ensures Model() == NewTable(generation, capacity) && Valid()
    {
      this.generation := generation;
      this.capacity := capacity;
      mappings := map[];
      insertionOrder := [];
      nextIpv4 := FIRST_IPV4;
      nextIpv6 := FIRST_IPV6;
    }

    method AllocateAddress(generation: u64, name: string, origin: IpAddr, ttl: nat, now: int)
      returns (r: Result<IpAddr, FakeDnsError>)
      requires Valid()
      modifies this
      ensures Valid()
      ensures (Model(), r) == Allocate(old(Model()), generation, name, origin, ttl, now)
    {
      hide FakeDnsName, RemoveExpired, MakeRoom, NextAddress, TableValid;
      ghost var before := Model();
      AllocateValid(before, generation, name, origin, ttl, now);
      if generation != this.generation {
        return Err(GenerationMismatch);
      }
      var normalized := FakeDnsName(name);
      if normalized.None? {
        return Err(EmptyDomain);
      }
      var domain := normalized.value;
      DropExpired(now);
      ghost var live := Model();
      RemoveExpiredValid(before, now);
      if fake: IpAddr :| fake in mappings && mappings[fake].domain == domain && mappings[fake].realAddress == origin {
        assert Matches(live.mappings, domain, origin, fake);
        OneMappingPerName(live, domain, origin);
        mappings := mappings[fake := mappings[fake].(expiresAt := now + ttl)];
        FoundIsKnown(live, domain, origin, fake);
        return Ok(fake);
      }
      assert !Known(live, domain, origin);
      EvictOldest();
      var found := FindAddress(origin);
      if found.Err? {
        return found;
      }
      var fakeAddress := found.value;
      insertionOrder := insertionOrder + [fakeAddress];
      mappings := mappings[fakeAddress := Mapping(domain, origin, fakeAddress, generation, now + ttl)];
      return Ok(fakeAddress);
    }

    method ResolveAddress(generation: u64, fake: IpAddr, now: int)
      returns (r: Result<Option<Mapping>, FakeDnsError>)
      modifies this
      ensures (Model(), r) == Resolve(old(Model()), generation, fake, now)
    {
      if generation != this.generation {
        return Err(GenerationMismatch);
      }
      DropExpired(now);
      return Ok(if fake in mappings then Some(mappings[fake]) else None);
    }

    method StartGeneration(generation: u64)
      modifies this
      ensures Model() == ReplaceGeneration(old(Model()), generation)
    {
      this.generation := generation;
      mappings := map[];
      insertionOrder := [];
    }

    method DropExpired(now: int)
      modifies this`mappings, this`insertionOrder
      ensures Model() == RemoveExpired(old(Model()), now)
    {
      mappings := map fake | fake in mappings && mappings[fake].expiresAt > now :: mappings[fake];
      assert mappings == Unexpired(old(mappings), now);
      var kept: seq<IpAddr> := [];
      assert insertionOrder[0..] == insertionOrder;
      for i := 0 to |insertionOrder|
        invariant kept + Retained(insertionOrder[i..], mappings) == Retained(insertionOrder, mappings)
      {
        assert insertionOrder[i..][0] == insertionOrder[i] && insertionOrder[i..][1..] == insertionOrder[i + 1..];
        if insertionOrder[i] in mappings {
          kept := kept + [insertionOrder[i]];
        }
      }
      insertionOrder := kept;
    }

    method EvictOldest()
      modifies this`mappings, this`insertionOrder
      ensures Model() == MakeRoom(old(Model()))
    {
      while |mappings| >= capacity
        invariant MakeRoom(Model()) == MakeRoom(old(Model()))
        decreases |insertionOrder|
      {
        if insertionOrder == [] {
          break;
        }
        var oldest := insertionOrder[0];
        insertionOrder := insertionOrder[1..];
        mappings := mappings - {oldest};
      }
    }

    method FindAddress(origin: IpAddr) returns (r: Result<IpAddr, FakeDnsError>)
      modifies this`nextIpv4, this`nextIpv6
      ensures (Model(), r) == NextAddress(old(Model()), origin, capacity + 1)
    {
      for tried := 0 to capacity + 1
        invariant NextAddress(Model(), origin, capacity + 1 - tried)
               == NextAddress(old(Model()), origin, capacity + 1)
      {
        var candidate: IpAddr;
        if origin.V4? {
          if nextIpv4 == U32_MAX {
            return Err(AddressSpaceExhausted);
          }
          candidate := V4(nextIpv4);
          nextIpv4 := AfterIpv4(nextIpv4);
        } else {
          if nextIpv6 == U128_MAX {
            return Err(AddressSpaceExhausted);
          }
          candidate := V6(nextIpv6);
          nextIpv6 := nextIpv6 + 1;
        }
        if candidate !in mappings {
          return Ok(candidate);
        }
      }
      return Err(AddressSpaceExhausted);
    }
  }

  lemma OneMappingPerName(t: Table, domain: string, origin: IpAddr)
    requires TableValid(t)
    ensures forall a: IpAddr, b: IpAddr | Matches(t.mappings, domain, origin, a) && Matches(t.mappings, domain, origin, b)
      :: a == b
  {
  }

  lemma FoundIsKnown(t: Table, domain: string, origin: IpAddr, fake: IpAddr)
    requires Matches(t.mappings, domain, origin, fake)
    ensures Known(t, domain, origin)
  {
  }
}
