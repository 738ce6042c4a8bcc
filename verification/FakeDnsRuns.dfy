/** Every run of the fake-address table: its invariant, its freshness, and how long a mapping lives. */
module FakeDnsRuns {
  import opened Common
  import opened DomainNames
  import opened FakeDns

  datatype Op =
    | AllocateOp(generation: u64, name: string, origin: IpAddr, ttl: nat, now: int)
    | ResolveOp(generation: u64, fake: IpAddr, now: int)
    | ReplaceOp(generation: u64)

  ghost function Step(t: Table, op: Op): Table {
    match op
    case AllocateOp(generation, name, origin, ttl, now) => Allocate(t, generation, name, origin, ttl, now).0
    case ResolveOp(generation, fake, now) => Resolve(t, generation, fake, now).0
    case ReplaceOp(generation) => ReplaceGeneration(t, generation)
  }

  ghost function Run(t: Table, ops: seq<Op>): Table
    decreases |ops|
  {
    if ops == [] then t else Run(Step(t, ops[0]), ops[1..])
  }

  ghost predicate Known(t: Table, domain: string, origin: IpAddr) {
    exists fake :: Matches(t.mappings, domain, origin, fake)
  }

  // ---------------------------------------------------------------- the invariant

  lemma RefreshValid(t: Table, fake: IpAddr, expiresAt: int)
    requires TableValid(t) && fake in t.mappings
    ensures TableValid(Refresh(t, fake, expiresAt))
  {
    var m := Refresh(t, fake, expiresAt).mappings;
    assert m.Keys == t.mappings.Keys;
    assert |m| == |m.Keys| && |t.mappings| == |t.mappings.Keys|;
  }

  lemma InsertValid(t: Table, m: Mapping)
    requires TableValid(t) && |t.mappings| < t.capacity
    requires m.fakeAddress !in t.mappings && m.generation == t.generation
    requires m.realAddress.V4? <==> m.fakeAddress.V4?
    requires !Known(t, m.domain, m.realAddress)
    requires CursorsValid(map[m.fakeAddress := m], t.nextIpv4, t.nextIpv6)
    ensures TableValid(Insert(t, m))
  {
    hide Known, EntriesValid, CursorsValid, QueueValid;
    QueueGrows(t.order, t.mappings, m);
    EntriesGrow(t, m);
    CursorsGrow(t.mappings, m, t.nextIpv4, t.nextIpv6);
  }

  lemma QueueGrows(order: seq<IpAddr>, m: Mappings, entry: Mapping)
    requires QueueValid(order, m) && entry.fakeAddress !in m
    ensures QueueValid(order + [entry.fakeAddress], m[entry.fakeAddress := entry])
    ensures |m[entry.fakeAddress := entry]| == |m| + 1
  {
    var added := m[entry.fakeAddress := entry];
    assert added.Keys == m.Keys + {entry.fakeAddress};
    assert |added| == |added.Keys| && |m| == |m.Keys|;
  }

  lemma EntriesGrow(t: Table, m: Mapping)
    requires EntriesValid(t.mappings, t.generation) && m.generation == t.generation
    requires m.realAddress.V4? <==> m.fakeAddress.V4?
    requires !Known(t, m.domain, m.realAddress)
    ensures EntriesValid(t.mappings[m.fakeAddress := m], t.generation)
  {
    forall k <- t.mappings ensures !(t.mappings[k].domain == m.domain && t.mappings[k].realAddress == m.realAddress) {
      assert !Matches(t.mappings, m.domain, m.realAddress, k);
    }
  }

  lemma CursorsGrow(m: Mappings, entry: Mapping, nextIpv4: u32, nextIpv6: u128)
    requires CursorsValid(m, nextIpv4, nextIpv6)
    requires CursorsValid(map[entry.fakeAddress := entry], nextIpv4, nextIpv6)
    ensures CursorsValid(m[entry.fakeAddress := entry], nextIpv4, nextIpv6)
  {
    var k := entry.fakeAddress;
    assert k in map[k := entry];
  }

  /** What a new allocation returns. */
  lemma AllocateNewIsFresh(t: Table, domain: string, origin: IpAddr, expiresAt: int)
    requires TableValid(t) && !Known(t, domain, origin)
    ensures var (next, fake) := AllocateNew(t, domain, origin, expiresAt);
      var room := MakeRoom(t);
      && TableValid(next)
      && (fake.Ok? ==>
            && fake.value !in room.mappings && (fake.value.V4? <==> origin.V4?)
            && next.mappings == room.mappings[fake.value :=
                 Mapping(domain, origin, fake.value, t.generation, expiresAt)]
            && next.order == room.order + [fake.value])
      && (fake.Err? ==> next.mappings == room.mappings && next.order == room.order)
      && next.generation == t.generation && next.capacity == t.capacity
  {
    hide EntriesValid, QueueValid, PoolMapped, CursorsValid, MakeRoom, NextAddress, Known;
    var room := MakeRoom(t);
    RoomFacts(t);
    MovedIsValid(room, origin);
    var (moved, fake) := NextAddress(room, origin, t.capacity + 1);
    if fake.Ok? {
      if Known(room, domain, origin) {
        StillKnown(t, room, domain, origin);
      }
      SameMappingsKnown(room, moved, domain, origin);
      InsertValid(moved, Mapping(domain, origin, fake.value, t.generation, expiresAt));
    }
  }

  /** A new allocation fails exactly when its family has no address left. */
  lemma AllocateNewFailsWhen(t: Table, domain: string, origin: IpAddr, expiresAt: int)
    requires TableValid(t)
    ensures AllocateNew(t, domain, origin, expiresAt).1.Err?
      <==> if origin.V4? then PoolMapped(MakeRoom(t).mappings) else t.nextIpv6 == U128_MAX
  {
    hide EntriesValid, QueueValid, PoolMapped, CursorsValid, MakeRoom, NextAddress;
    var room := MakeRoom(t);
    RoomFacts(t);
    if origin.V4? {
      Ipv4FailsExactlyWhenPoolMapped(room, origin);
    } else {
      NextIpv6IsNew(room, origin, t.capacity + 1);
    }
  }

  lemma RoomFacts(t: Table)
    requires TableValid(t)
    ensures var room := MakeRoom(t);
      && TableValid(room) && |room.mappings| < t.capacity
      && room == t.(mappings := room.mappings, order := room.order)
      && forall k <- room.mappings :: k in t.mappings && room.mappings[k] == t.mappings[k]
  {
    hide EntriesValid, QueueValid, CursorsValid, MakeRoom;
    MakeRoomEvictsTheOldest(t);
  }

  lemma SameMappingsKnown(t: Table, u: Table, domain: string, origin: IpAddr)
    requires t.mappings == u.mappings
    ensures Known(t, domain, origin) == Known(u, domain, origin)
  {
  }

  lemma StillKnown(t: Table, room: Table, domain: string, origin: IpAddr)
    requires Known(room, domain, origin)
    requires forall k <- room.mappings :: k in t.mappings && room.mappings[k] == t.mappings[k]
    ensures Known(t, domain, origin)
  {
    var fake :| Matches(room.mappings, domain, origin, fake);
    assert Matches(t.mappings, domain, origin, fake);
  }

  /** Looking for an address changes only the cursors, and finds one that can be inserted. */
  lemma MovedIsValid(t: Table, origin: IpAddr)
    requires TableValid(t)
    ensures var (moved, fake) := NextAddress(t, origin, t.capacity + 1);
      && moved == t.(nextIpv4 := moved.nextIpv4, nextIpv6 := moved.nextIpv6)
      && TableValid(moved)
      && (fake.Ok? ==>
            && fake.value !in t.mappings && (fake.value.V4? <==> origin.V4?)
            && forall m: Mapping | m.fakeAddress == fake.value ::
                 CursorsValid(map[m.fakeAddress := m], moved.nextIpv4, moved.nextIpv6))
  {
    hide EntriesValid, QueueValid;
    if origin.V4? {
      NextIpv4Searches(t, origin, t.capacity + 1);
    } else {
      NextIpv6IsNew(t, origin, t.capacity + 1);
    }
  }

  lemma AllocateValid(t: Table, generation: u64, name: string, origin: IpAddr, ttl: nat, now: int)
    requires TableValid(t)
    ensures TableValid(Allocate(t, generation, name, origin, ttl, now).0)
  {
    hide TableValid, FakeDnsName, AllocateNew;
    if generation == t.generation && FakeDnsName(name).Some? {
      var domain := FakeDnsName(name).value;
      var live := RemoveExpired(t, now);
      RemoveExpiredValid(t, now);
      if Known(live, domain, origin) {
        forall fake | Matches(live.mappings, domain, origin, fake)
          ensures TableValid(Refresh(live, fake, now + ttl))
        {
          RefreshValid(live, fake, now + ttl);
        }
      } else {
        AllocateNewIsFresh(live, domain, origin, now + ttl);
      }
    }
  }

  lemma StepValid(t: Table, op: Op)
    requires TableValid(t)
    ensures TableValid(Step(t, op))
  {
    hide Allocate, RemoveExpired;
    match op
    case AllocateOp(generation, name, origin, ttl, now) => AllocateValid(t, generation, name, origin, ttl, now);
    case ResolveOp(_, _, now) => RemoveExpiredValid(t, now);
    case ReplaceOp(_) =>
  }

  lemma {:induction false} RunValid(t: Table, ops: seq<Op>)
    requires TableValid(t)
    ensures TableValid(Run(t, ops))
    decreases |ops|
  {
    hide TableValid, Step;
    if ops != [] {
      StepValid(t, ops[0]);
      RunValid(Step(t, ops[0]), ops[1..]);
    }
  }

  /** Every reachable table is consistent: see TableValid. */
  lemma EveryTableIsValid(generation: u64, capacity: nat, ops: seq<Op>)
    requires capacity > 0
    ensures TableValid(Run(NewTable(generation, capacity), ops))
  {
    RunValid(NewTable(generation, capacity), ops);
  }

  // ---------------------------------------------------------------- allocation

  lemma KeepsCapacity(t: Table, op: Op)
    ensures Step(t, op).capacity == t.capacity
  {
    hide FakeDnsName, NextAddress, MakeRoom, Unexpired, Retained;
    if op.AllocateOp? && op.generation == t.generation && FakeDnsName(op.name).Some? {
      var live := RemoveExpired(t, op.now);
      MakeRoomKeepsCapacity(live);
      SearchKeepsCapacity(MakeRoom(live), op.origin, t.capacity + 1);
    }
  }

  lemma {:induction false} MakeRoomKeepsCapacity(t: Table)
    ensures MakeRoom(t).capacity == t.capacity
    decreases |t.order|
  {
    if |t.mappings| >= t.capacity && t.order != [] {
      MakeRoomKeepsCapacity(t.(mappings := t.mappings - {t.order[0]}, order := t.order[1..]));
    }
  }

  lemma {:induction false} SearchKeepsCapacity(t: Table, origin: IpAddr, tries: nat)
    ensures NextAddress(t, origin, tries).0.capacity == t.capacity
    decreases tries
  {
    if tries > 0 {
      if origin.V4? && t.nextIpv4 < U32_MAX {
        SearchKeepsCapacity(t.(nextIpv4 := AfterIpv4(t.nextIpv4)), origin, tries - 1);
      } else if origin.V6? && t.nextIpv6 < U128_MAX {
        SearchKeepsCapacity(t.(nextIpv6 := t.nextIpv6 + 1), origin, tries - 1);
      }
    }
  }

  lemma {:induction false} RunKeepsCapacity(t: Table, ops: seq<Op>)
    ensures Run(t, ops).capacity == t.capacity
    decreases |ops|
  {
    hide Step;
    if ops != [] {
      KeepsCapacity(t, ops[0]);
      RunKeepsCapacity(Step(t, ops[0]), ops[1..]);
    }
  }

  /**
   * A table of at most 131070 entries never runs out of IPv4 fake addresses:
   * a current generation and a usable name always get one.
   */
  lemma Ipv4IsNeverExhausted(
      generation: u64, capacity: nat, ops: seq<Op>,
      current: u64, name: string, origin: IpAddr, ttl: nat, now: int)
    requires 0 < capacity <= IPV4_POOL && origin.V4?
    ensures var t := Run(NewTable(generation, capacity), ops);
      (Allocate(t, current, name, origin, ttl, now).1.Ok?
       <==> current == t.generation && FakeDnsName(name).Some?)
  {
    hide FakeDnsName, AllocateNew, RemoveExpired, Step, PoolMapped, CursorsValid, QueueValid, EntriesValid;
    var t := Run(NewTable(generation, capacity), ops);
    EveryTableIsValid(generation, capacity, ops);
    RunKeepsCapacity(NewTable(generation, capacity), ops);
    var live := RemoveExpired(t, now);
    RemoveExpiredValid(t, now);
    MakeRoomEvictsTheOldest(live);
    Ipv4FailsExactlyWhenPoolMapped(MakeRoom(live), origin);
    ExpiryKeepsShape(t, now);
    MakeRoomKeepsCapacity(live);
    if current == t.generation && FakeDnsName(name).Some? && !Known(live, FakeDnsName(name).value, origin) {
      AllocateNewFailsWhen(live, FakeDnsName(name).value, origin, now + ttl);
    }
  }

  lemma ExpiryKeepsShape(t: Table, now: int)
    ensures var live := RemoveExpired(t, now);
      && live.generation == t.generation && live.capacity == t.capacity && live.nextIpv6 == t.nextIpv6
      && (forall k <- live.mappings :: k in t.mappings && live.mappings[k] == t.mappings[k] && now < t.mappings[k].expiresAt)
      && (forall k <- t.mappings :: now < t.mappings[k].expiresAt ==> k in live.mappings)
  {
  }

  /**
   * A successful allocation leaves its address mapped to the name and address
   * it was made for, until its expiry; a name already mapped keeps its place.
   */
  lemma AllocatedResolves(t: Table, name: string, origin: IpAddr, ttl: nat, now: int)
    requires TableValid(t) && Allocate(t, t.generation, name, origin, ttl, now).1.Ok?
    ensures var (next, fake) := Allocate(t, t.generation, name, origin, ttl, now);
      && fake.value in next.mappings
      && next.mappings[fake.value] ==
           Mapping(FakeDnsName(name).value, origin, fake.value, t.generation, now + ttl)
      && (Known(RemoveExpired(t, now), FakeDnsName(name).value, origin) ==>
            next.order == RemoveExpired(t, now).order)
  {
    hide FakeDnsName, AllocateNew, QueueValid, CursorsValid;
    var domain := FakeDnsName(name).value;
    var live := RemoveExpired(t, now);
    RemoveExpiredValid(t, now);
    if !Known(live, domain, origin) {
      AllocateNewIsFresh(live, domain, origin, now + ttl);
    }
  }

  // ---------------------------------------------------------------- how long a mapping lives

  /** The operation inserts a new mapping, or tries to. */
  ghost predicate Inserts(t: Table, op: Op) {
    && op.AllocateOp? && op.generation == t.generation && FakeDnsName(op.name).Some?
    && !Known(RemoveExpired(t, op.now), FakeDnsName(op.name).value, op.origin)
  }

  ghost function Insertions(t: Table, ops: seq<Op>): nat
    decreases |ops|
  {
    if ops == [] then 0 else (if Inserts(t, ops[0]) then 1 else 0) + Insertions(Step(t, ops[0]), ops[1..])
  }

  /** No operation replaces the generation or comes after the mapping's expiry. */
  ghost predicate InTime(t: Table, ops: seq<Op>, fake: IpAddr)
    decreases |ops|
  {
    ops != [] ==>
      && !ops[0].ReplaceOp? && fake in t.mappings && ops[0].now < t.mappings[fake].expiresAt
      && InTime(Step(t, ops[0]), ops[1..], fake)
  }

  ghost predicate SameIdentity(t: Table, u: Table, fake: IpAddr) {
    && fake in t.mappings && fake in u.mappings
    && u.mappings[fake].(expiresAt := 0) == t.mappings[fake].(expiresAt := 0)
  }

  lemma {:induction false} BehindAppend(order: seq<IpAddr>, fake: IpAddr, newer: IpAddr)
    requires fake in order
    ensures Behind(order + [newer], fake) == Behind(order, fake) + 1
  {
    if order[0] != fake {
      assert (order + [newer])[1..] == order[1..] + [newer];
      BehindAppend(order[1..], fake, newer);
    }
  }

  lemma ExpiryKeepsPlace(t: Table, now: int, fake: IpAddr)
    requires TableValid(t) && fake in t.mappings && now < t.mappings[fake].expiresAt
    ensures var live := RemoveExpired(t, now);
      && SameIdentity(t, live, fake) && Behind(live.order, fake) <= Behind(t.order, fake)
      && fake in live.order
  {
    hide EntriesValid, CursorsValid;
    RetainedLists(t.order, Unexpired(t.mappings, now));
  }

  lemma RoomKeepsPlace(t: Table, fake: IpAddr)
    requires TableValid(t) && fake in t.mappings && Behind(t.order, fake) + 1 < t.capacity
    ensures var room := MakeRoom(t);
      && SameIdentity(t, room, fake) && Behind(room.order, fake) <= Behind(t.order, fake)
      && fake in room.order
  {
    hide EntriesValid, CursorsValid;
    MakeRoomEvictsTheOldest(t);
    QueueSize(t.order, t.mappings);
  }

  lemma InsertKeepsPlace(t: Table, domain: string, origin: IpAddr, expiresAt: int, fake: IpAddr)
    requires TableValid(t) && !Known(t, domain, origin)
    requires fake in t.mappings && Behind(t.order, fake) + 1 < t.capacity
    ensures var next := AllocateNew(t, domain, origin, expiresAt).0;
      SameIdentity(t, next, fake) && Behind(next.order, fake) <= Behind(t.order, fake) + 1
  {
    hide TableValid, AllocateNew, MakeRoom, Known;
    var room := MakeRoom(t);
    var (next, got) := AllocateNew(t, domain, origin, expiresAt);
    RoomKeepsPlace(t, fake);
    AllocateNewIsFresh(t, domain, origin, expiresAt);
    if got.Ok? {
      BehindAppend(room.order, fake, got.value);
    }
  }

  lemma StepKeepsPlace(t: Table, op: Op, fake: IpAddr)
    requires TableValid(t) && !op.ReplaceOp?
    requires fake in t.mappings && op.now < t.mappings[fake].expiresAt
    requires Inserts(t, op) ==> Behind(t.order, fake) + 1 < t.capacity
    ensures SameIdentity(t, Step(t, op), fake)
    ensures Behind(Step(t, op).order, fake) <= Behind(t.order, fake) + (if Inserts(t, op) then 1 else 0)
  {
    hide TableValid, AllocateNew, FakeDnsName, RemoveExpired, Behind;
    var live := RemoveExpired(t, op.now);
    if op.generation == t.generation && (op.ResolveOp? || FakeDnsName(op.name).Some?) {
      ExpiryKeepsPlace(t, op.now, fake);
      RemoveExpiredValid(t, op.now);
      ExpiryKeepsShape(t, op.now);
      if Inserts(t, op) {
        InsertKeepsPlace(live, FakeDnsName(op.name).value, op.origin, op.now + op.ttl, fake);
      }
    }
  }

  /**
   * A mapping keeps its name and address through every run that stays before
   * its expiry, keeps the generation, and inserts fewer new mappings than the
   * places left behind it.
   */
  lemma {:induction false} MappingSurvives(t: Table, ops: seq<Op>, fake: IpAddr)
    requires TableValid(t) && fake in t.mappings && InTime(t, ops, fake)
    requires Behind(t.order, fake) + Insertions(t, ops) < t.capacity
    ensures SameIdentity(t, Run(t, ops), fake)
    decreases |ops|
  {
    hide TableValid, Step, Behind, Inserts;
    if ops != [] {
      StepKeepsPlace(t, ops[0], fake);
      StepValid(t, ops[0]);
      KeepsCapacity(t, ops[0]);
      MappingSurvives(Step(t, ops[0]), ops[1..], fake);
    }
  }

  lemma {:induction false} NewestHasNoneBehind(order: seq<IpAddr>, fake: IpAddr)
    requires fake !in order
    ensures Behind(order + [fake], fake) == 0
  {
    if order != [] {
      assert (order + [fake])[1..] == order[1..] + [fake];
      NewestHasNoneBehind(order[1..], fake);
    }
  }

  lemma InsertionIsNew(t: Table, op: Op)
    requires Inserts(t, op)
    ensures Allocate(t, op.generation, op.name, op.origin, op.ttl, op.now)
         == AllocateNew(RemoveExpired(t, op.now), FakeDnsName(op.name).value, op.origin, op.now + op.ttl)
  {
    hide AllocateNew, FakeDnsName, RemoveExpired;
  }

  /** A freshly inserted address is the newest of the queue. */
  lemma FreshIsNewest(t: Table, op: Op)
    requires TableValid(t) && Inserts(t, op)
    requires Allocate(t, op.generation, op.name, op.origin, op.ttl, op.now).1.Ok?
    ensures var (next, fake) := Allocate(t, op.generation, op.name, op.origin, op.ttl, op.now);
      fake.value in next.mappings && Behind(next.order, fake.value) == 0
  {
    hide Allocate, AllocateNew, FakeDnsName, RemoveExpired, MakeRoom, EntriesValid, CursorsValid, Known;
    InsertionIsNew(t, op);
    var live := RemoveExpired(t, op.now);
    RemoveExpiredValid(t, op.now);
    ExpiryKeepsShape(t, op.now);
    RoomFacts(live);
    var domain := FakeDnsName(op.name).value;
    AllocateNewIsFresh(live, domain, op.origin, op.now + op.ttl);
    NewestHasNoneBehind(MakeRoom(live).order, AllocateNew(live, domain, op.origin, op.now + op.ttl).1.value);
  }

  /** And `capacity` newer insertions do end it: a full queue gives up its oldest entry. */
  lemma OldestGivesWay(t: Table, op: Op)
    requires TableValid(t) && Inserts(t, op)
    requires |RemoveExpired(t, op.now).mappings| == t.capacity
    ensures var live := RemoveExpired(t, op.now);
      && live.order != []
      && (live.order[0] in Step(t, op).mappings ==>
            Step(t, op).mappings[live.order[0]].domain == FakeDnsName(op.name).value)
  {
    hide Allocate, AllocateNew, FakeDnsName, RemoveExpired, MakeRoom, TableValid, Known;
    InsertionIsNew(t, op);
    var live := RemoveExpired(t, op.now);
    RemoveExpiredValid(t, op.now);
    ExpiryKeepsShape(t, op.now);
    MakeRoomEvictsTheOldest(live);
    AllocateNewIsFresh(live, FakeDnsName(op.name).value, op.origin, op.now + op.ttl);
  }

  /**
   * Nothing but insertion can end a mapping: no operation replaces the
   * generation, no mapping has expired when one runs, and insertions succeed.
   */
  ghost predicate Calm(t: Table, ops: seq<Op>)
    decreases |ops|
  {
    ops != [] ==> CalmStep(t, ops[0]) && Calm(Step(t, ops[0]), ops[1..])
  }

  ghost predicate CalmStep(t: Table, op: Op) {
    && !op.ReplaceOp?
    && (forall k <- t.mappings :: op.now < t.mappings[k].expiresAt)
    && (Inserts(t, op) ==> Allocate(t, op.generation, op.name, op.origin, op.ttl, op.now).1.Ok?)
  }

  /** The mapping is there, with its name and address, after every operation. */
  ghost predicate KeptThroughout(t: Table, ops: seq<Op>, fake: IpAddr)
    decreases |ops|
  {
    && fake in t.mappings
    && (ops != [] ==>
          SameIdentity(t, Step(t, ops[0]), fake) && KeptThroughout(Step(t, ops[0]), ops[1..], fake))
  }

  lemma {:induction false} AllRetained(order: seq<IpAddr>, m: Mappings)
    requires forall k <- order :: k in m
    ensures Retained(order, m) == order
  {
    if order != [] {
      AllRetained(order[1..], m);
      assert order == [order[0]] + order[1..];
    }
  }

  lemma NothingExpires(t: Table, now: int)
    requires TableValid(t) && forall k <- t.mappings :: now < t.mappings[k].expiresAt
    ensures RemoveExpired(t, now) == t
  {
    assert Unexpired(t.mappings, now) == t.mappings;
    AllRetained(t.order, t.mappings);
  }

  lemma {:induction false} BehindBound(order: seq<IpAddr>, fake: IpAddr)
    requires fake in order
    ensures Behind(order, fake) < |order|
    ensures Behind(order, fake) == |order| - 1 <==> order[0] == fake
  {
    if order[0] != fake {
      BehindBound(order[1..], fake);
    }
  }

  /** The queue before and after one more entry, when the oldest makes room only if it is full. */
  lemma RoomForOne(t: Table, fake: IpAddr)
    requires TableValid(t) && fake in t.mappings
    ensures var room := MakeRoom(t);
      && Behind(t.order, fake) < t.capacity
      && (Behind(t.order, fake) + 1 < t.capacity ==>
            fake in room.order && Behind(room.order, fake) == Behind(t.order, fake))
      && (Behind(t.order, fake) + 1 == t.capacity ==> fake !in room.mappings)
  {
    hide EntriesValid, CursorsValid;
    MakeRoomEvictsTheOldest(t);
    QueueSize(t.order, t.mappings);
    BehindBound(t.order, fake);
  }

  lemma InsertMovesPlace(t: Table, op: Op, fake: IpAddr)
    requires TableValid(t) && fake in t.mappings && CalmStep(t, op) && Inserts(t, op)
    ensures var u := Step(t, op);
      if Behind(t.order, fake) + 1 < t.capacity
      then SameIdentity(t, u, fake) && Behind(u.order, fake) == Behind(t.order, fake) + 1
      else !SameIdentity(t, u, fake)
  {
    hide TableValid, Allocate, AllocateNew, MakeRoom, Known, FakeDnsName, RemoveExpired, Behind;
    NothingExpires(t, op.now);
    InsertionIsNew(t, op);
    var domain := FakeDnsName(op.name).value;
    var newest := AllocateNew(t, domain, op.origin, op.now + op.ttl).1.value;
    AllocateNewIsFresh(t, domain, op.origin, op.now + op.ttl);
    RoomForOne(t, fake);
    if Behind(t.order, fake) + 1 < t.capacity {
      RoomKeepsPlace(t, fake);
      BehindAppend(MakeRoom(t).order, fake, newest);
    } else {
      UnknownIsDifferent(t, domain, op.origin, fake);
    }
  }

  lemma UnknownIsDifferent(t: Table, domain: string, origin: IpAddr, fake: IpAddr)
    requires !Known(t, domain, origin) && fake in t.mappings
    ensures !(t.mappings[fake].domain == domain && t.mappings[fake].realAddress == origin)
  {
    assert !Matches(t.mappings, domain, origin, fake);
  }

  /** Refreshes, lookups and refusals move nothing in the queue. */
  lemma OtherStepsKeepOrder(t: Table, op: Op, fake: IpAddr)
    requires TableValid(t) && fake in t.mappings && CalmStep(t, op) && !Inserts(t, op)
    ensures SameIdentity(t, Step(t, op), fake) && Step(t, op).order == t.order
  {
    hide TableValid, AllocateNew, FakeDnsName, RemoveExpired;
    NothingExpires(t, op.now);
  }

  /**
   * How long a mapping lives, exactly: while nothing expires, it is kept
   * through a run if and only if fewer mappings are inserted than there are
   * places left behind it.  Refreshing it does not help.
   */
  lemma {:induction false} MappingLivesExactlyUntil(t: Table, ops: seq<Op>, fake: IpAddr)
    requires TableValid(t) && fake in t.mappings && Calm(t, ops)
    ensures KeptThroughout(t, ops, fake) <==> Behind(t.order, fake) + Insertions(t, ops) < t.capacity
    decreases |ops|
  {
    hide TableValid, Step, Behind, Inserts, CalmStep;
    RoomForOne(t, fake);
    if ops != [] {
      StepValid(t, ops[0]);
      KeepsCapacity(t, ops[0]);
      if Inserts(t, ops[0]) {
        InsertMovesPlace(t, ops[0], fake);
      } else {
        OtherStepsKeepOrder(t, ops[0], fake);
      }
      if SameIdentity(t, Step(t, ops[0]), fake) {
        MappingLivesExactlyUntil(Step(t, ops[0]), ops[1..], fake);
      }
    }
  }

  // ---------------------------------------------------------------- routing behind fake addresses

  /** Routing rules, as a function of the normalised name and the real destination. */
  type Rules<!A> = (Option<string>, IpAddr, u16) -> A

  datatype Decision<A> = Decision(action: A, destination: IpAddr, port: u16, domain: Option<string>)

  function PolicyDecide<A>(rules: Rules<A>, domain: Option<string>, destination: IpAddr, port: u16): A {
    rules(if domain.None? then None else RoutingName(domain.value), destination, port)
  }

  function Decide<A>(t: Table, rules: Rules<A>, generation: u64, destination: IpAddr, port: u16, now: int)
    : (Table, Result<Decision<A>, FakeDnsError>)
  {
    var (live, mapping) := Resolve(t, generation, destination, now);
    if mapping.Err? then (live, Err(mapping.error))
    else
      var genuine := if mapping.value.None? then destination else mapping.value.value.realAddress;
      var domain := if mapping.value.None? then None else Some(mapping.value.value.domain);
      (live, Ok(Decision(PolicyDecide(rules, domain, genuine, port), genuine, port, domain)))
  }

  lemma MappingsAreCurrent(t: Table, fake: IpAddr)
    requires TableValid(t) && fake in t.mappings
    ensures t.mappings[fake].generation == t.generation
  {
  }

  /**
   * End to end: a flow to the fake address is routed as a flow to the original
   * name and address would be, for as long as the mapping lives.
   */
  lemma FlowsAreRoutedByTheirName<A>(
      t: Table, asked: Op, ops: seq<Op>, rules: Rules<A>, port: u16, now: int)
    requires TableValid(t) && Inserts(t, asked) && RoutingName(asked.name).Some?
    requires Allocate(t, asked.generation, asked.name, asked.origin, asked.ttl, asked.now).1.Ok?
    requires var (next, fake) := Allocate(t, asked.generation, asked.name, asked.origin, asked.ttl, asked.now);
      && InTime(next, ops, fake.value) && Insertions(next, ops) < t.capacity
      && (fake.value in Run(next, ops).mappings ==> now < Run(next, ops).mappings[fake.value].expiresAt)
    ensures var (next, fake) := Allocate(t, asked.generation, asked.name, asked.origin, asked.ttl, asked.now);
      var decided := Decide(Run(next, ops), rules, t.generation, fake.value, port, now).1;
      && decided.Ok?
      && decided.value.action == PolicyDecide(rules, Some(asked.name), asked.origin, port)
      && decided.value.destination == asked.origin && decided.value.port == port
  {
    hide TableValid, Allocate, RoutingName, FakeDnsName, Behind, RemoveExpired;
    var (next, fake) := Allocate(t, asked.generation, asked.name, asked.origin, asked.ttl, asked.now);
    assert next == Step(t, asked);
    FreshIsNewest(t, asked);
    StepValid(t, asked);
    KeepsCapacity(t, asked);
    AllocatedResolves(t, asked.name, asked.origin, asked.ttl, asked.now);
    MappingSurvives(next, ops, fake.value);
    RunValid(next, ops);
    MappingsAreCurrent(Run(next, ops), fake.value);
    RoutingSeesTheSameName(asked.name);
    ExpiryKeepsShape(Run(next, ops), now);
  }
}
