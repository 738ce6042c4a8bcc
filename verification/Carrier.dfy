/** The carrier that loses, duplicates, delays and reorders segments, and goes dark. */
module FaultyCarrier {
  import opened Common
  import opened SessionModel

  datatype Disposition = Deliver | Drop | DuplicateIt | Delay(ticks: nat)

  datatype Scheduled = Scheduled(readyAt: nat, segment: Segment)

  datatype Carrier = Carrier(tick: nat, available: bool, scheduled: seq<Scheduled>)

  const NewCarrier := Carrier(0, true, [])

  function AfterTransmit(c: Carrier, segment: Segment, disposition: Disposition): Carrier {
    if !c.available then c
    else
      match disposition
      case Drop => c
      case Deliver => c.(scheduled := c.scheduled + [Scheduled(c.tick, segment)])
      case Delay(ticks) => c.(scheduled := c.scheduled + [Scheduled(c.tick + ticks, segment)])
      case DuplicateIt =>
        c.(scheduled := c.scheduled + [Scheduled(c.tick, segment), Scheduled(c.tick, segment)])
  }

  /** The segments whose delay has ended, in the order they were scheduled. */
  function Ready(scheduled: seq<Scheduled>, tick: nat): seq<Segment> {
    if scheduled == [] then []
    else
      (if scheduled[0].readyAt <= tick then [scheduled[0].segment] else [])
      + Ready(scheduled[1..], tick)
  }

  function Waiting(scheduled: seq<Scheduled>, tick: nat): seq<Scheduled> {
    if scheduled == [] then []
    else
      (if scheduled[0].readyAt <= tick then [] else [scheduled[0]]) + Waiting(scheduled[1..], tick)
  }

  function AfterAdvance(c: Carrier, ticks: nat): (Carrier, seq<Segment>) {
    var tick := c.tick + ticks;
    (c.(tick := tick, scheduled := Waiting(c.scheduled, tick)), Ready(c.scheduled, tick))
  }

  function Carried(scheduled: seq<Scheduled>): multiset<Segment> {
    if scheduled == [] then multiset{} else multiset{scheduled[0].segment} + Carried(scheduled[1..])
  }

  lemma CarriedCons(first: Scheduled, rest: seq<Scheduled>)
    ensures Carried([first] + rest) == multiset{first.segment} + Carried(rest)
  {
    assert ([first] + rest)[1..] == rest;
  }

  /** Once scheduled, a segment is handed over exactly once: it is ready or still waiting. */
  lemma {:induction false} AdvanceConserves(scheduled: seq<Scheduled>, tick: nat)
    ensures Carried(scheduled) == multiset(Ready(scheduled, tick)) + Carried(Waiting(scheduled, tick))
  {
    hide Carried, Ready, Waiting;
    if scheduled == [] {
      NothingScheduled(tick);
      NothingCarried();
    } else {
      var first, rest := scheduled[0], scheduled[1..];
      AdvanceConserves(rest, tick);
      ReadySnoc(scheduled, 0, tick);
      assert scheduled[0..] == scheduled && scheduled == [first] + rest;
      CarriedCons(first, rest);
      CarriedCons(first, Waiting(rest, tick));
      assert multiset([first.segment] + Ready(rest, tick)) == multiset{first.segment} + multiset(Ready(rest, tick));
      assert [] + Ready(rest, tick) == Ready(rest, tick) && [] + Waiting(rest, tick) == Waiting(rest, tick);
    }
  }

  lemma NothingCarried()
    ensures Carried([]) == multiset{}
  {
  }

  lemma {:induction false} CarriedMembers(scheduled: seq<Scheduled>, segment: Segment)
    ensures segment in Carried(scheduled) <==> exists s <- scheduled :: s.segment == segment
  {
    if scheduled != [] {
      CarriedMembers(scheduled[1..], segment);
      assert scheduled == [scheduled[0]] + scheduled[1..];
    }
  }

  lemma ReadySnoc(scheduled: seq<Scheduled>, i: nat, tick: nat)
    requires i < |scheduled|
    ensures Ready(scheduled[i..], tick) ==
      (if scheduled[i].readyAt <= tick then [scheduled[i].segment] else []) + Ready(scheduled[i + 1..], tick)
    ensures Waiting(scheduled[i..], tick) ==
      (if scheduled[i].readyAt <= tick then [] else [scheduled[i]]) + Waiting(scheduled[i + 1..], tick)
  {
    assert scheduled[i..][1..] == scheduled[i + 1..];
  }

  lemma NothingScheduled(tick: nat)
    ensures Ready([], tick) == [] && Waiting([], tick) == []
  {
  }

  /** What a transmission adds: nothing while dark or dropped, two copies if duplicated, otherwise one. */
  lemma TransmittedIsCarried(c: Carrier, segment: Segment, disposition: Disposition)
    ensures var next := AfterTransmit(c, segment, disposition);
      var copies := if !c.available || disposition.Drop? then 0 else if disposition.DuplicateIt? then 2 else 1;
      && |next.scheduled| == |c.scheduled| + copies && c.scheduled <= next.scheduled
      && (forall i | |c.scheduled| <= i < |next.scheduled| ::
            next.scheduled[i] ==
              Scheduled(c.tick + (if disposition.Delay? then disposition.ticks else 0), segment))
      && next.tick == c.tick && next.available == c.available
  {
  }

  /** A segment is handed over exactly when its delay has ended. */
  lemma {:induction false} ReadyExactlyWhenDue(scheduled: seq<Scheduled>, tick: nat, segment: Segment)
    ensures segment in Ready(scheduled, tick) <==>
      exists i :: 0 <= i < |scheduled| && scheduled[i].segment == segment && scheduled[i].readyAt <= tick
    decreases |scheduled|
  {
    if scheduled != [] {
      var first, rest := scheduled[0], scheduled[1..];
      ReadyExactlyWhenDue(rest, tick, segment);
      assert forall i | 0 < i < |scheduled| :: scheduled[i] == rest[i - 1];
      if segment in Ready(rest, tick) {
        var i :| 0 <= i < |rest| && rest[i].segment == segment && rest[i].readyAt <= tick;
        assert scheduled[i + 1] == rest[i];
      }
    }
  }

  class InMemoryCarrier {
    var tick: u64
    var available: bool
    var scheduled: seq<Scheduled>

    ghost function Model(): Carrier
      reads this
    {
      Carrier(tick, available, scheduled)
    }

    constructor ()
      ensures Model() == NewCarrier
    {
      tick, available, scheduled := 0, true, [];
    }

    method SetAvailable(available: bool)
      modifies this`available
      ensures Model() == old(Model()).(available := available)
    {
      this.available := available;
    }

    method Transmit(segment: Segment, disposition: Disposition)
      requires available && disposition.Delay? ==> tick + disposition.ticks <= U64_MAX
      modifies this
      ensures Model() == AfterTransmit(old(Model()), segment, disposition)
    {
      if !available || disposition == Drop {
        return;
      }
      var delay := if disposition.Delay? then disposition.ticks else 0;
      Schedule(segment, delay);
      if disposition == DuplicateIt {
        Schedule(segment, delay);
      }
    }

    method Schedule(segment: Segment, delay: nat)
      requires tick + delay <= U64_MAX
      modifies `scheduled
      ensures scheduled == old(scheduled) + [Scheduled(tick + delay, segment)]
    {
      var readyAt: u64 := tick + delay;
      scheduled := scheduled + [Scheduled(readyAt, segment)];
    }

    method Advance(ticks: nat) returns (ready: seq<Segment>)
      requires tick + ticks <= U64_MAX
      modifies this
      ensures (Model(), ready) == AfterAdvance(old(Model()), ticks)
    {
      hide Ready, Waiting;
      tick := tick + ticks;
      ready := [];
      var waiting := [];
      ghost var i := 0;
      ghost var all := scheduled;
      while scheduled != []
        invariant i <= |all| && scheduled == all[i..]
        invariant tick == old(tick) + ticks && available == old(available)
        invariant ready + Ready(scheduled, tick) == Ready(all, tick)
        invariant waiting + Waiting(scheduled, tick) == Waiting(all, tick)
        decreases |scheduled|
      {
        ReadySnoc(all, i, tick);
        var front := scheduled[0];
        scheduled := scheduled[1..];
        if front.readyAt <= tick {
          ready := ready + [front.segment];
        } else {
          waiting := waiting + [front];
        }
        i := i + 1;
      }
      NothingScheduled(tick);
      assert ready + [] == ready && waiting + [] == waiting;
      scheduled := waiting;
    }
  }
}
