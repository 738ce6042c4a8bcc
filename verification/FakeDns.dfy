/** Fake-address ownership: a bounded table indexed by fake address, evicting in insertion order. */
module FakeDns {
  import opened Common
  import opened DomainNames
  import opened FiniteSets
  import opened CyclicSearch

  const FIRST_IPV4: u32 := 198 * 0x100_0000 + 18 * 0x1_0000 + 1
  const LAST_IPV4: u32 := 198 * 0x100_0000 + 19 * 0x1_0000 + 255 * 0x100 + 254
  const IPV4_POOL: nat := 131070
  const FIRST_IPV6: u128 := 0xfd00_0019_0000_0000_0000_0000_0000_0001

  datatype Mapping = Mapping(
    domain: string, realAddress: IpAddr, fakeAddress: IpAddr, generation: u64, expiresAt: int)

  datatype FakeDnsError = ZeroCapacity | EmptyDomain | GenerationMismatch | AddressSpaceExhausted

  type Mappings = map<IpAddr, Mapping>

  datatype Table = Table(
    generation: u64,
    capacity: nat,
    mappings: Mappings,
    order: seq<IpAddr>,
    nextIpv4: u32,
    nextIpv6: u128)

  function NewTable(generation: u64, capacity: nat): Table {
    Table(generation, capacity, map[], [], FIRST_IPV4, FIRST_IPV6)
  }

  // ---------------------------------------------------------------- operations

  function Unexpired(m: Mappings, now: int): Mappings {
    map fake | fake in m && m[fake].expiresAt > now :: m[fake]
  }

  function Retained(order: seq<IpAddr>, m: Mappings): seq<IpAddr> {
    if order == [] then []
    else (if order[0] in m then [order[0]] else []) + Retained(order[1..], m)
  }

  function RemoveExpired(t: Table, now: int): Table {
    var kept := Unexpired(t.mappings, now);
    t.(mappings := kept, order := Retained(t.order, kept))
  }

  /** The mapping of this name and address is stored under `fake`. */
  predicate Matches(m: Mappings, domain: string, origin: IpAddr, fake: IpAddr) {
    fake in m && m[fake].domain == domain && m[fake].realAddress == origin
  }

  function MakeRoom(t: Table): Table
    decreases |t.order|
  {
    if |t.mappings| < t.capacity || t.order == [] then t
    else MakeRoom(t.(mappings := t.mappings - {t.order[0]}, order := t.order[1..]))
  }

  function AfterIpv4(address: u32): u32
    requires address < U32_MAX
  {
    if address + 1 > LAST_IPV4 then FIRST_IPV4 else address + 1
  }

  /** The IPv4 addresses in use, as numbers. */
  function UsedIpv4(m: Mappings): set<nat> {
    set k | k in m && k.V4? :: k.address4
  }

  /** The next unused address among `tries` candidates, moving the cursor past each one tried. */
  function NextAddress(t: Table, origin: IpAddr, tries: nat): (Table, Result<IpAddr, FakeDnsError>)
    decreases tries
  {
    if tries == 0 then (t, Err(AddressSpaceExhausted))
    else if (origin.V4? && t.nextIpv4 == U32_MAX) || (origin.V6? && t.nextIpv6 == U128_MAX) then
      (t, Err(AddressSpaceExhausted))
    else
      var candidate := if origin.V4? then V4(t.nextIpv4) else V6(t.nextIpv6);
      var moved := if origin.V4? then t.(nextIpv4 := AfterIpv4(t.nextIpv4))
                   else t.(nextIpv6 := t.nextIpv6 + 1);
      if candidate !in t.mappings then (moved, Ok(candidate)) else NextAddress(moved, origin, tries - 1)
  }

  function Refresh(t: Table, fake: IpAddr, expiresAt: int): Table
    requires fake in t.mappings
  {
    t.(mappings := t.mappings[fake := t.mappings[fake].(expiresAt := expiresAt)])
  }

  function Insert(t: Table, m: Mapping): Table {
    t.(mappings := t.mappings[m.fakeAddress := m], order := t.order + [m.fakeAddress])
  }

  function AllocateNew(t: Table, domain: string, origin: IpAddr, expiresAt: int)
    : (Table, Result<IpAddr, FakeDnsError>)
  {
    var room := MakeRoom(t);
    var (moved, fake) := NextAddress(room, origin, t.capacity + 1);
    if fake.Err? then (moved, fake)
    else (Insert(moved, Mapping(domain, origin, fake.value, t.generation, expiresAt)), fake)
  }

  /** A name already mapped keeps its fake address and its place in the queue. */
  ghost function Allocate(t: Table, generation: u64, name: string, origin: IpAddr, ttl: nat, now: int)
    : (Table, Result<IpAddr, FakeDnsError>)
  {
    if generation != t.generation then (t, Err(GenerationMismatch))
    else if FakeDnsName(name).None? then (t, Err(EmptyDomain))
    else
      var domain := FakeDnsName(name).value;
      var live := RemoveExpired(t, now);
      if exists fake :: Matches(live.mappings, domain, origin, fake) then
        var fake :| Matches(live.mappings, domain, origin, fake);
        (Refresh(live, fake, now + ttl), Ok(fake))
      else AllocateNew(live, domain, origin, now + ttl)
  }

  function Resolve(t: Table, generation: u64, fake: IpAddr, now: int)
    : (Table, Result<Option<Mapping>, FakeDnsError>)
  {
    if generation != t.generation then (t, Err(GenerationMismatch))
    else
      var live := RemoveExpired(t, now);
      (live, Ok(if fake in live.mappings then Some(live.mappings[fake]) else None))
  }

  function ReplaceGeneration(t: Table, generation: u64): Table {
    t.(generation := generation, mappings := map[], order := [])
  }

  // ---------------------------------------------------------------- invariant

  predicate NoDuplicates(order: seq<IpAddr>) {
    forall i, j | 0 <= i < j < |order| :: order[i] != order[j]
  }

  /** The queue lists the keys of the table, each once. */
  ghost predicate QueueValid(order: seq<IpAddr>, m: Mappings) {
    NoDuplicates(order) && forall k: IpAddr :: k in order <==> k in m
  }

  ghost predicate EntriesValid(m: Mappings, generation: u64) {
    && (forall k <- m :: m[k].fakeAddress == k && (m[k].realAddress.V4? <==> k.V4?)
          && m[k].generation == generation)
    && (forall j, k | j in m && k in m && m[j].domain == m[k].domain
          && m[j].realAddress == m[k].realAddress :: j == k)
  }

  ghost predicate CursorsValid(m: Mappings, nextIpv4: u32, nextIpv6: u128) {
    && FIRST_IPV4 <= nextIpv4 <= LAST_IPV4
    && FIRST_IPV6 <= nextIpv6
    && (forall k <- m :: if k.V4? then FIRST_IPV4 <= k.address4 <= LAST_IPV4
                         else FIRST_IPV6 <= k.address6 < nextIpv6)
  }

  ghost predicate TableValid(t: Table) {
    && 0 < t.capacity && |t.mappings| <= t.capacity
    && QueueValid(t.order, t.mappings)
    && EntriesValid(t.mappings, t.generation)
    && CursorsValid(t.mappings, t.nextIpv4, t.nextIpv6)
  }

  /** How many queue entries are newer than this one. */
  function Behind(order: seq<IpAddr>, fake: IpAddr): nat {
    if order == [] then 0 else if order[0] == fake then |order| - 1 else Behind(order[1..], fake)
  }

  lemma {:induction false} RetainedLists(order: seq<IpAddr>, m: Mappings)
    requires NoDuplicates(order)
    ensures NoDuplicates(Retained(order, m))
    ensures forall k: IpAddr :: k in Retained(order, m) <==> k in order && k in m
    ensures |Retained(order, m)| <= |order|
    ensures forall k <- m :: Behind(Retained(order, m), k) <= Behind(order, k)
  {
    if order != [] {
      assert order[0] !in order[1..];
      RetainedLists(order[1..], m);
      var rest := Retained(order[1..], m);
      assert ([order[0]] + rest)[1..] == rest;
      assert Retained(order, m) == if order[0] in m then [order[0]] + rest else rest;
      forall k <- m ensures Behind(Retained(order, m), k) <= Behind(order, k) {
        assert Behind(rest, k) <= Behind(order[1..], k);
        if order[0] in m && order[0] != k {
          assert Behind([order[0]] + rest, k) == Behind(rest, k);
        }
      }
    }
  }

  lemma {:induction false} QueueSize(order: seq<IpAddr>, m: Mappings)
    requires QueueValid(order, m)
    ensures |order| == |m|
  {
    assert m.Keys == set k | k in order;
    if order != [] {
      var fewer := m - {order[0]};
      assert fewer.Keys == m.Keys - {order[0]};
      assert |fewer| == |fewer.Keys| && |m| == |m.Keys|;
      PopQueue(order, m);
      QueueSize(order[1..], fewer);
    } else {
      assert m == map[];
    }
  }

  lemma PopQueue(order: seq<IpAddr>, m: Mappings)
    requires QueueValid(order, m) && order != []
    ensures QueueValid(order[1..], m - {order[0]})
  {
    assert forall k: IpAddr :: k in order[1..] <==> k in order && k != order[0];
  }

  lemma SmallerIsValid(m: Mappings, n: Mappings, generation: u64, nextIpv4: u32, nextIpv6: u128)
    requires EntriesValid(m, generation) && CursorsValid(m, nextIpv4, nextIpv6)
    requires forall k <- n :: k in m && n[k] == m[k]
    ensures EntriesValid(n, generation) && CursorsValid(n, nextIpv4, nextIpv6)
  {
  }

  lemma SmallerIsSmaller(m: Mappings, n: Mappings)
    requires forall k <- n :: k in m
    ensures |n| <= |m|
  {
    SubsetSize(n.Keys, m.Keys);
    assert |n| == |n.Keys| && |m| == |m.Keys|;
  }

  lemma RemoveExpiredValid(t: Table, now: int)
    requires TableValid(t)
    ensures TableValid(RemoveExpired(t, now))
  {
    hide EntriesValid, CursorsValid;
    var kept := Unexpired(t.mappings, now);
    RetainedLists(t.order, kept);
    SmallerIsValid(t.mappings, kept, t.generation, t.nextIpv4, t.nextIpv6);
    SmallerIsSmaller(t.mappings, kept);
  }

  /** At most the oldest mapping makes room for a new one. */
  lemma MakeRoomEvictsTheOldest(t: Table)
    requires TableValid(t)
    ensures |t.mappings| < t.capacity ==> MakeRoom(t) == t
    ensures |t.mappings| == t.capacity ==>
      && t.order != []
      && MakeRoom(t) == t.(mappings := t.mappings - {t.order[0]}, order := t.order[1..])
    ensures TableValid(MakeRoom(t)) && |MakeRoom(t).mappings| < t.capacity
  {
    hide EntriesValid, CursorsValid, QueueValid;
    if |t.mappings| == t.capacity {
      QueueSize(t.order, t.mappings);
      var fewer := t.mappings - {t.order[0]};
      PopQueue(t.order, t.mappings);
      QueueSize(t.order[1..], fewer);
      SmallerIsValid(t.mappings, fewer, t.generation, t.nextIpv4, t.nextIpv6);
      var popped := t.(mappings := fewer, order := t.order[1..]);
      assert MakeRoom(popped) == popped;
    }
  }

  // ---------------------------------------------------------------- fresh addresses

  ghost predicate PoolMapped(m: Mappings) {
    forall a: u32 | FIRST_IPV4 <= a <= LAST_IPV4 :: V4(a) in m
  }

  /** A failed search has tried every candidate; a successful one returns an unused address. */
  lemma {:induction false} NextIpv4Searches(t: Table, origin: IpAddr, tries: nat)
    requires CursorsValid(t.mappings, t.nextIpv4, t.nextIpv6) && origin.V4?
    ensures var (moved, fake) := NextAddress(t, origin, tries);
      && moved == t.(nextIpv4 := moved.nextIpv4)
      && CursorsValid(t.mappings, moved.nextIpv4, t.nextIpv6)
      && (fake.Ok? ==> (fake.value.V4? && fake.value !in t.mappings
                        && FIRST_IPV4 <= fake.value.address4 <= LAST_IPV4))
      && (fake.Err? ==> (fake.error == AddressSpaceExhausted
                         && forall k | 0 <= k < tries ::
                              Candidate(FIRST_IPV4, IPV4_POOL, t.nextIpv4, k) in UsedIpv4(t.mappings)))
    decreases tries
  {
    if tries > 0 {
      var moved := t.(nextIpv4 := AfterIpv4(t.nextIpv4));
      NextIpv4Searches(moved, origin, tries - 1);
      assert Candidate(FIRST_IPV4, IPV4_POOL, t.nextIpv4, 0) == t.nextIpv4;
      forall k | 0 < k < tries
        ensures Candidate(FIRST_IPV4, IPV4_POOL, t.nextIpv4, k)
             == Candidate(FIRST_IPV4, IPV4_POOL, moved.nextIpv4, k - 1)
      {
        CandidateShift(FIRST_IPV4, IPV4_POOL, t.nextIpv4, k);
      }
    }
  }

  lemma {:induction false} UsedIsSmaller(m: Mappings)
    ensures |UsedIpv4(m)| <= |m|
    decreases m.Keys
  {
    if m != map[] {
      var k :| k in m;
      var fewer := m - {k};
      assert fewer.Keys == m.Keys - {k};
      assert |fewer| == |fewer.Keys| && |m| == |m.Keys|;
      UsedIsSmaller(fewer);
      if k.V4? {
        assert UsedIpv4(m) == UsedIpv4(fewer) + {k.address4};
      } else {
        assert UsedIpv4(m) == UsedIpv4(fewer);
      }
    }
  }

  /** The search gives up exactly when the whole range is mapped. */
  lemma Ipv4FailsExactlyWhenPoolMapped(t: Table, origin: IpAddr)
    requires CursorsValid(t.mappings, t.nextIpv4, t.nextIpv6) && origin.V4?
    requires |t.mappings| < t.capacity
    ensures NextAddress(t, origin, t.capacity + 1).1.Err? <==> PoolMapped(t.mappings)
    ensures PoolMapped(t.mappings) ==> IPV4_POOL <= |t.mappings|
  {
    hide CursorsValid;
    CursorInRange(t);
    NextIpv4Searches(t, origin, t.capacity + 1);
    UsedIsSmaller(t.mappings);
    var used := UsedIpv4(t.mappings);
    if |used| < IPV4_POOL {
      FreeCandidate(used, FIRST_IPV4, IPV4_POOL, t.nextIpv4);
      var k: nat :| k <= |used| && Candidate(FIRST_IPV4, IPV4_POOL, t.nextIpv4, k) !in used;
      assert V4(Candidate(FIRST_IPV4, IPV4_POOL, t.nextIpv4, k)) !in t.mappings;
    } else if NextAddress(t, origin, t.capacity + 1).1.Err? {
      forall a: u32 | FIRST_IPV4 <= a <= LAST_IPV4 ensures V4(a) in t.mappings {
        CandidatesCover(FIRST_IPV4, IPV4_POOL, t.nextIpv4, a);
        assert a in used;
      }
    }
  }

  lemma CursorInRange(t: Table)
    requires CursorsValid(t.mappings, t.nextIpv4, t.nextIpv6)
    ensures FIRST_IPV4 <= t.nextIpv4 <= LAST_IPV4 && LAST_IPV4 + 1 == FIRST_IPV4 + IPV4_POOL
  {
  }

  /** IPv6 addresses are never reused, so the search ends at once. */
  lemma NextIpv6IsNew(t: Table, origin: IpAddr, tries: nat)
    requires CursorsValid(t.mappings, t.nextIpv4, t.nextIpv6) && origin.V6? && tries > 0
    ensures NextAddress(t, origin, tries) ==
      if t.nextIpv6 == U128_MAX then (t, Err(AddressSpaceExhausted))
      else (t.(nextIpv6 := t.nextIpv6 + 1), Ok(V6(t.nextIpv6)))
    ensures V6(t.nextIpv6) !in t.mappings
  {
  }
}
