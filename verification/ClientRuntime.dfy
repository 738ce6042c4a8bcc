/** The client runtime: one direct client, its lifecycle, and connection tasks that may finish late. */
module ClientRuntimes {
  import opened Common

  datatype Phase = Stopped | Connecting | Online | Stopping | Failed

  datatype Failure =
    | Certificate | ConnectTimeout | Connection | ControlTooLarge
    | DatagramTooLarge | DatagramUnavailable | Protocol | Transport

  datatype Snapshot = Snapshot(revision: nat, generation: nat, phase: Phase, failure: Option<Failure>)

  const FirstSnapshot := Snapshot(0, 0, Stopped, None)

  type ClientId = nat

  /** What the lock guards, and everything published so far, newest last. */
  datatype Inner = Inner(
    snapshot: Snapshot, client: Option<ClientId>, task: Option<nat>,
    published: seq<Snapshot>, closed: set<ClientId>)

  const NewInner := Inner(FirstSnapshot, None, None, [FirstSnapshot], {})

  function Transition(s: Snapshot, phase: Phase, failure: Option<Failure>): Snapshot {
    s.(revision := s.revision + 1, phase := phase, failure := failure)
  }

  function Publish(r: Inner): Inner {
    r.(published := r.published + [r.snapshot])
  }

  function Start(r: Inner): (Inner, Option<nat>) {
    if !(r.snapshot.phase.Stopped? || r.snapshot.phase.Failed?) then (r, None)
    else
      var generation := r.snapshot.generation + 1;
      (Publish(r.(snapshot := Transition(r.snapshot.(generation := generation), Connecting, None)))
         .(task := Some(generation)),
       Some(generation))
  }

  /** A late result is refused; a late client is closed. */
  function CompleteConnect(r: Inner, generation: nat, result: Result<ClientId, Failure>): (Inner, Option<ClientId>) {
    if generation != r.snapshot.generation || !r.snapshot.phase.Connecting? then
      (if result.Ok? then r.(closed := r.closed + {result.value}) else r, None)
    else
      match result
      case Ok(client) =>
        (Publish(r.(snapshot := Transition(r.snapshot, Online, None), client := Some(client))), Some(client))
      case Err(failure) =>
        (Publish(r.(snapshot := Transition(r.snapshot, Failed, Some(failure)), task := Cleared(r.task, generation))),
         None)
  }

  function Cleared(task: Option<nat>, generation: nat): Option<nat> {
    if task == Some(generation) then None else task
  }

  function CompleteClosed(r: Inner, generation: nat, failure: Failure): Inner {
    if generation != r.snapshot.generation || !r.snapshot.phase.Online? then r
    else
      Publish(r.(snapshot := Transition(r.snapshot, Failed, Some(failure)), client := None,
                 task := Cleared(r.task, generation)))
  }

  function Stop(r: Inner): (Inner, nat) {
    if r.snapshot.phase.Stopped? then (r, r.snapshot.generation)
    else
      var generation := r.snapshot.generation + 1;
      var stopping := Publish(r.(snapshot := Transition(r.snapshot.(generation := generation), Stopping, None)));
      var closed := stopping.(task := None, client := None,
        closed := if r.client.Some? then r.closed + {r.client.value} else r.closed);
      (Publish(closed.(snapshot := Transition(closed.snapshot, Stopped, None))), generation)
  }

  // ---------------------------------------------------------------- the objects

  class Lifecycle {
    var snapshot: Snapshot

    constructor ()
      ensures snapshot == FirstSnapshot
    {
      snapshot := FirstSnapshot;
    }

    method BeginConnect() returns (r: Option<nat>)
      requires snapshot.phase.Stopped? || snapshot.phase.Failed? ==>
        snapshot.generation < U64_MAX && snapshot.revision < U64_MAX
      modifies this
      ensures r.None? <==> !(old(snapshot).phase.Stopped? || old(snapshot).phase.Failed?)
      ensures r.None? ==> snapshot == old(snapshot)
      ensures r.Some? ==> r.value == old(snapshot).generation + 1
      ensures r.Some? ==> snapshot == Transition(old(snapshot).(generation := r.value), Connecting, None)
    {
      if !(snapshot.phase.Stopped? || snapshot.phase.Failed?) {
        return None;
      }
      var generation: u64 := snapshot.generation + 1;
      snapshot := snapshot.(generation := generation);
      MoveTo(Connecting, None);
      return Some(snapshot.generation);
    }

    method CompleteConnect(generation: nat, failure: Option<Failure>) returns (applied: bool)
      requires generation == snapshot.generation && snapshot.phase.Connecting? ==> snapshot.revision < U64_MAX
      modifies this
      ensures applied <==> generation == old(snapshot).generation && old(snapshot).phase.Connecting?
      ensures snapshot == if applied
        then Transition(old(snapshot), if failure.None? then Online else Failed, failure) else old(snapshot)
    {
      if generation != snapshot.generation || !snapshot.phase.Connecting? {
        return false;
      }
      MoveTo(if failure.None? then Online else Failed, failure);
      return true;
    }

    method BeginStop() returns (r: Option<nat>)
      requires !snapshot.phase.Stopped? ==> snapshot.generation < U64_MAX && snapshot.revision < U64_MAX
      modifies this
      ensures r.None? <==> old(snapshot).phase.Stopped?
      ensures r.None? ==> snapshot == old(snapshot)
      ensures r.Some? ==> r.value == old(snapshot).generation + 1
      ensures r.Some? ==> snapshot == Transition(old(snapshot).(generation := r.value), Stopping, None)
    {
      if snapshot.phase.Stopped? {
        return None;
      }
      var generation: u64 := snapshot.generation + 1;
      snapshot := snapshot.(generation := generation);
      MoveTo(Stopping, None);
      return Some(snapshot.generation);
    }

    method CompleteStop(generation: nat) returns (applied: bool)
      requires generation == snapshot.generation && snapshot.phase.Stopping? ==> snapshot.revision < U64_MAX
      modifies this
      ensures applied <==> generation == old(snapshot).generation && old(snapshot).phase.Stopping?
      ensures snapshot == if applied then Transition(old(snapshot), Stopped, None) else old(snapshot)
    {
      if generation != snapshot.generation || !snapshot.phase.Stopping? {
        return false;
      }
      MoveTo(Stopped, None);
      return true;
    }

    method FailOnline(generation: nat, failure: Failure) returns (applied: bool)
      requires generation == snapshot.generation && snapshot.phase.Online? ==> snapshot.revision < U64_MAX
      modifies this
      ensures applied <==> generation == old(snapshot).generation && old(snapshot).phase.Online?
      ensures snapshot == if applied then Transition(old(snapshot), Failed, Some(failure)) else old(snapshot)
    {
      if generation != snapshot.generation || !snapshot.phase.Online? {
        return false;
      }
      MoveTo(Failed, Some(failure));
      return true;
    }

    method MoveTo(phase: Phase, failure: Option<Failure>)
      requires snapshot.revision < U64_MAX
      modifies this
      ensures snapshot == Transition(old(snapshot), phase, failure)
    {
      var revision: u64 := snapshot.revision + 1;
      snapshot := snapshot.(revision := revision);
      snapshot := snapshot.(phase := phase, failure := failure);
    }
  }

  class RuntimeInner {
    const lifecycle: Lifecycle
    var client: Option<ClientId>
    var task: Option<nat>
    ghost var published: seq<Snapshot>
    ghost var closed: set<ClientId>

    ghost function Model(): Inner
      reads this, lifecycle
    {
      Inner(lifecycle.snapshot, client, task, published, closed)
    }

    constructor ()
      ensures Model() == NewInner && fresh(lifecycle)
    {
      lifecycle := new Lifecycle();
      client := None;
      task := None;
      published := [FirstSnapshot];
      closed := {};
    }

    method StartWith() returns (r: Option<nat>)
      requires lifecycle.snapshot.phase.Stopped? || lifecycle.snapshot.phase.Failed? ==>
        lifecycle.snapshot.generation < U64_MAX && lifecycle.snapshot.revision < U64_MAX
      modifies this, lifecycle
      ensures (Model(), r) == Start(old(Model()))
    {
      r := lifecycle.BeginConnect();
      if r.None? {
        return;
      }
      published := published + [lifecycle.snapshot];
      task := r;
    }

    method FinishConnect(generation: nat, result: Result<ClientId, Failure>) returns (r: Option<ClientId>)
      requires generation == lifecycle.snapshot.generation && lifecycle.snapshot.phase.Connecting? ==>
        lifecycle.snapshot.revision < U64_MAX
      modifies this, lifecycle
      ensures (Model(), r) == CompleteConnect(old(Model()), generation, result)
    {
      if generation != lifecycle.snapshot.generation || !lifecycle.snapshot.phase.Connecting? {
        if result.Ok? {
          closed := closed + {result.value};
        }
        return None;
      }
      if result.Ok? {
        var applied := lifecycle.CompleteConnect(generation, None);
        assert applied;
        client := Some(result.value);
        r := client;
      } else {
        var applied := lifecycle.CompleteConnect(generation, Some(result.error));
        assert applied;
        r := None;
      }
      if r.None? {
        ClearTask(generation);
      }
      published := published + [lifecycle.snapshot];
    }

    method ClearTask(generation: nat)
      modifies this`task
      ensures task == Cleared(old(task), generation)
    {
      if task == Some(generation) {
        task := None;
      }
    }

    method ConnectionClosed(generation: nat, failure: Failure)
      requires generation == lifecycle.snapshot.generation && lifecycle.snapshot.phase.Online? ==>
        lifecycle.snapshot.revision < U64_MAX
      modifies this, lifecycle
      ensures Model() == CompleteClosed(old(Model()), generation, failure)
    {
      var applied := lifecycle.FailOnline(generation, failure);
      if !applied {
        return;
      }
      client := None;
      ClearTask(generation);
      published := published + [lifecycle.snapshot];
    }

    method StopNow() returns (generation: nat)
      requires !lifecycle.snapshot.phase.Stopped? ==>
        lifecycle.snapshot.generation < U64_MAX && lifecycle.snapshot.revision + 1 < U64_MAX
      modifies this, lifecycle
      ensures (Model(), generation) == Stop(old(Model()))
    {
      var begun := lifecycle.BeginStop();
      if begun.None? {
        return lifecycle.snapshot.generation;
      }
      published := published + [lifecycle.snapshot];
      task := None;
      if client.Some? {
        closed := closed + {client.value};
        client := None;
      }
      var completed := lifecycle.CompleteStop(begun.value);
      assert completed;
      published := published + [lifecycle.snapshot];
      return begun.value;
    }
  }

  // ---------------------------------------------------------------- interleavings

  /** A connection task: dialling, connected but not yet reported, watching its client, or about to report its end. */
  datatype Task = Dialling | Connected(result: Result<ClientId, Failure>) | Watching(client: ClientId) | Ended

  datatype World = World(inner: Inner, tasks: map<nat, Task>, nextClient: ClientId)

  datatype Step =
    | CallStart
    | CallStop
    | Dialled(generation: nat, error: Option<Failure>)
    | Report(generation: nat)
    | PeerCloses(generation: nat)
    | ReportClosed(generation: nat, failure: Failure)

  const NewWorld := World(NewInner, map[], 0)

  function TaskOf(w: World, generation: nat): Option<Task> {
    if generation in w.tasks then Some(w.tasks[generation]) else None
  }

  function Take(w: World, step: Step): World {
    match step
    case CallStart =>
      var (next, generation) := Start(w.inner);
      if generation.None? then w else w.(inner := next, tasks := w.tasks[generation.value := Dialling])
    case CallStop => w.(inner := Stop(w.inner).0)
    case Dialled(g, failure) =>
      if TaskOf(w, g) != Some(Dialling) then w
      else if failure.Some? then w.(tasks := w.tasks[g := Connected(Err(failure.value))])
      else w.(tasks := w.tasks[g := Connected(Ok(w.nextClient))], nextClient := w.nextClient + 1)
    case Report(g) =>
      if TaskOf(w, g).None? || !w.tasks[g].Connected? then w
      else
        var (next, client) := CompleteConnect(w.inner, g, w.tasks[g].result);
        w.(inner := next,
           tasks := if client.Some? then w.tasks[g := Watching(client.value)] else w.tasks - {g})
    case PeerCloses(g) =>
      if TaskOf(w, g).None? || !w.tasks[g].Watching? then w
      else
        w.(inner := w.inner.(closed := w.inner.closed + {w.tasks[g].client}), tasks := w.tasks[g := Ended])
    case ReportClosed(g, failure) =>
      if TaskOf(w, g) != Some(Ended) then w
      else w.(inner := CompleteClosed(w.inner, g, failure), tasks := w.tasks - {g})
  }

  function Run(w: World, steps: seq<Step>): World
    decreases |steps|
  {
    if steps == [] then w else Run(Take(w, steps[0]), steps[1..])
  }

  predicate Ascending(published: seq<Snapshot>) {
    forall i, j | 0 <= i < j < |published| :: published[i].revision < published[j].revision
  }

  /** What every lock release leaves: the client and the task follow the phase, and the newest snapshot is out. */
  predicate InnerValid(r: Inner) {
    && (r.client.Some? <==> r.snapshot.phase.Online?)
    && (r.task == if r.snapshot.phase.Connecting? || r.snapshot.phase.Online?
                  then Some(r.snapshot.generation) else None)
    && !r.snapshot.phase.Stopping?
    && (r.snapshot.failure.Some? <==> r.snapshot.phase.Failed?)
    && |r.published| > 0 && r.published[|r.published| - 1] == r.snapshot
    && Ascending(r.published)
  }

  ghost predicate TasksValid(w: World) {
    && (forall g <- w.tasks :: g <= w.inner.snapshot.generation)
    && (w.inner.snapshot.phase.Connecting? ==>
          w.inner.snapshot.generation in w.tasks
          && (w.tasks[w.inner.snapshot.generation].Dialling? || w.tasks[w.inner.snapshot.generation].Connected?))
    && (w.inner.snapshot.phase.Online? ==>
          w.inner.snapshot.generation in w.tasks
          && ((w.tasks[w.inner.snapshot.generation].Watching?
               && w.inner.client == Some(w.tasks[w.inner.snapshot.generation].client))
              || (w.tasks[w.inner.snapshot.generation].Ended?
                  && w.inner.client.Some? && w.inner.client.value in w.inner.closed)))
    && (forall g <- w.tasks :: w.tasks[g].Watching? ==>
          (w.inner.client == Some(w.tasks[g].client) && g == w.inner.snapshot.generation
           && w.inner.snapshot.phase.Online?)
          || w.tasks[g].client in w.inner.closed)
  }

  /** Task `g` has connected client `c` and not reported it yet. */
  ghost predicate Unreported(tasks: map<nat, Task>, g: nat, c: ClientId) {
    g in tasks && tasks[g] == Connected(Ok(c))
  }

  /** Every client ever connected is closed, held by the runtime, or still unreported; and only one task reports it. */
  ghost predicate ClientsValid(client: Option<ClientId>, closed: set<ClientId>, tasks: map<nat, Task>, next: ClientId) {
    && (forall c: ClientId | c < next :: c in closed || client == Some(c) || exists g :: Unreported(tasks, g, c))
    && (forall c <- closed :: c < next)
    && (client.Some? ==> client.value < next)
    && (forall g: nat, c: ClientId | Unreported(tasks, g, c) :: c < next && c !in closed && client != Some(c))
    && (forall g: nat, h: nat, c: ClientId | Unreported(tasks, g, c) && Unreported(tasks, h, c) :: g == h)
  }

  ghost predicate WorldValid(w: World) {
    InnerValid(w.inner) && TasksValid(w)
    && ClientsValid(w.inner.client, w.inner.closed, w.tasks, w.nextClient)
  }

  lemma TakeKeepsInner(w: World, step: Step)
    requires InnerValid(w.inner)
    ensures var next := Take(w, step).inner;
      && InnerValid(next)
      && w.inner.published <= next.published
      && (next.snapshot != w.inner.snapshot ==> w.inner.snapshot.revision < next.snapshot.revision)
      && w.inner.snapshot.generation <= next.snapshot.generation
      && w.inner.closed <= next.closed
  {
    hide Ascending;
    var next := Take(w, step).inner;
    var grown := |next.published| - |w.inner.published|;
    if grown >= 1 {
      PublishAscends(w.inner.published, next.published[|w.inner.published|]);
    }
    if grown == 2 {
      PublishAscends(next.published[..|w.inner.published| + 1], next.snapshot);
    }
  }

  lemma PublishAscends(published: seq<Snapshot>, s: Snapshot)
    requires Ascending(published) && |published| > 0
    requires published[|published| - 1].revision < s.revision
    ensures Ascending(published + [s])
  {
  }

  lemma TakeKeepsTasks(w: World, step: Step)
    requires InnerValid(w.inner) && TasksValid(w)
    ensures TasksValid(Take(w, step))
  {
    hide Ascending;
  }

  lemma SameUnreported(client: Option<ClientId>, closed: set<ClientId>, tasks: map<nat, Task>, next: ClientId,
      newClient: Option<ClientId>, newClosed: set<ClientId>, newTasks: map<nat, Task>)
    requires ClientsValid(client, closed, tasks, next)
    requires forall g: nat, c: ClientId :: Unreported(newTasks, g, c) <==> Unreported(tasks, g, c)
    requires newClient.None? || newClient == client
    requires newClosed == closed || (client.Some? && newClosed == closed + {client.value})
    requires client.Some? ==> newClient == client || client.value in newClosed
    ensures ClientsValid(newClient, newClosed, newTasks, next)
  {
    forall c: ClientId | c < next ensures c in newClosed || newClient == Some(c) || exists g :: Unreported(newTasks, g, c) {
      if g :| Unreported(tasks, g, c) {
        assert Unreported(newTasks, g, c);
      }
    }
  }

  lemma NewConnection(w: World, g: nat)
    requires ClientsValid(w.inner.client, w.inner.closed, w.tasks, w.nextClient)
    requires TaskOf(w, g) == Some(Dialling)
    ensures ClientsValid(w.inner.client, w.inner.closed, w.tasks[g := Connected(Ok(w.nextClient))], w.nextClient + 1)
  {
    var tasks := w.tasks[g := Connected(Ok(w.nextClient))];
    assert forall h: nat, c: ClientId ::
      Unreported(tasks, h, c) <==> (h == g && c == w.nextClient) || Unreported(w.tasks, h, c);
    forall c: ClientId | c < w.nextClient + 1
      ensures c in w.inner.closed || w.inner.client == Some(c) || exists h :: Unreported(tasks, h, c)
    {
      if c == w.nextClient {
        assert Unreported(tasks, g, c);
      } else if h :| Unreported(w.tasks, h, c) {
        assert Unreported(tasks, h, c);
      }
    }
  }

  /** A report hands its client to the runtime or closes it. */
  lemma ReportMovesClient(w: World, g: nat)
    requires WorldValid(w) && TaskOf(w, g).Some? && w.tasks[g].Connected?
    ensures var v := Take(w, Report(g)); ClientsValid(v.inner.client, v.inner.closed, v.tasks, v.nextClient)
  {
    hide Ascending, TasksValid;
    var v := Take(w, Report(g));
    if w.tasks[g].result.Ok? {
      assert Unreported(w.tasks, g, w.tasks[g].result.value);
    }
    assert forall h: nat, c: ClientId :: Unreported(v.tasks, h, c) <==> h != g && Unreported(w.tasks, h, c);
    forall c: ClientId | c < w.nextClient
      ensures c in v.inner.closed || v.inner.client == Some(c) || exists h :: Unreported(v.tasks, h, c)
    {
      if h :| h != g && Unreported(w.tasks, h, c) {
        assert Unreported(v.tasks, h, c);
      }
    }
  }

  lemma TakeKeepsClients(w: World, step: Step)
    requires WorldValid(w)
    ensures var v := Take(w, step); ClientsValid(v.inner.client, v.inner.closed, v.tasks, v.nextClient)
  {
    hide Ascending, ClientsValid;
    var v := Take(w, step);
    match step
    case Dialled(g, error) =>
      if TaskOf(w, g) == Some(Dialling) && error.None? {
        NewConnection(w, g);
      } else {
        SameUnreported(w.inner.client, w.inner.closed, w.tasks, w.nextClient, v.inner.client, v.inner.closed, v.tasks);
      }
    case Report(g) =>
      if TaskOf(w, g).Some? && w.tasks[g].Connected? {
        ReportMovesClient(w, g);
      }
    case _ =>
      SameUnreported(w.inner.client, w.inner.closed, w.tasks, w.nextClient, v.inner.client, v.inner.closed, v.tasks);
  }

  lemma {:induction false} RunValid(w: World, steps: seq<Step>)
    requires WorldValid(w)
    ensures WorldValid(Run(w, steps))
    decreases |steps|
  {
    hide InnerValid, TasksValid, ClientsValid, Take;
    if steps != [] {
      TakeKeepsInner(w, steps[0]);
      TakeKeepsTasks(w, steps[0]);
      TakeKeepsClients(w, steps[0]);
      RunValid(Take(w, steps[0]), steps[1..]);
    }
  }

  // ---------------------------------------------------------------- main results

  lemma NewWorldValid()
    ensures WorldValid(NewWorld)
  {
  }

  /** Between operations: a client is stored exactly while Online, and never while Stopping is visible. */
  lemma ClientFollowsPhase(steps: seq<Step>)
    ensures var r := Run(NewWorld, steps).inner;
      && (r.client.Some? <==> r.snapshot.phase.Online?)
      && (r.task.Some? <==> r.snapshot.phase.Connecting? || r.snapshot.phase.Online?)
      && !r.snapshot.phase.Stopping?
      && Ascending(r.published) && |r.published| > 0 && r.published[|r.published| - 1] == r.snapshot
  {
    NewWorldValid();
    RunValid(NewWorld, steps);
  }

  /** No connection is lost: once the runtime is not online and every task is gone, all clients are closed. */
  lemma NoClientLeaks(steps: seq<Step>, c: ClientId)
    requires c < Run(NewWorld, steps).nextClient
    requires Run(NewWorld, steps).tasks == map[] && !Run(NewWorld, steps).inner.snapshot.phase.Online?
    ensures c in Run(NewWorld, steps).inner.closed
  {
    NewWorldValid();
    RunValid(NewWorld, steps);
    var w := Run(NewWorld, steps);
    assert forall g: nat :: !Unreported(w.tasks, g, c);
  }

  /** A report from a generation that is not connecting any more changes nothing visible and closes its client. */
  lemma StaleReportsAreHarmless(w: World, g: nat)
    requires WorldValid(w) && TaskOf(w, g).Some? && w.tasks[g].Connected?
    requires g != w.inner.snapshot.generation
    ensures var v := Take(w, Report(g));
      && v.inner == w.inner.(closed := v.inner.closed)
      && (w.tasks[g].result.Ok? ==> w.tasks[g].result.value in v.inner.closed)
  {
  }

  lemma {:induction false} RunExtends(w: World, steps: seq<Step>)
    requires WorldValid(w)
    ensures w.inner.published <= Run(w, steps).inner.published
    ensures w.inner.snapshot.generation <= Run(w, steps).inner.snapshot.generation
    decreases |steps|
  {
    hide InnerValid, TasksValid, ClientsValid, Take;
    if steps != [] {
      var v := Take(w, steps[0]);
      TakeKeepsInner(w, steps[0]);
      RunValid(w, [steps[0]]);
      assert Run(w, [steps[0]]) == v by { assert [steps[0]][1..] == []; }
      RunExtends(v, steps[1..]);
    }
  }

  /** A revision names one snapshot for good: reading it again means nothing happened in between. */
  lemma RevisionIdentifiesSnapshot(w: World, steps: seq<Step>)
    requires WorldValid(w)
    requires Run(w, steps).inner.snapshot.revision == w.inner.snapshot.revision
    ensures Run(w, steps).inner.snapshot == w.inner.snapshot
  {
    RunValid(w, steps);
    RunExtends(w, steps);
    hide TasksValid, ClientsValid, Take;
    var known := w.inner.published;
    assert Run(w, steps).inner.published[|known| - 1] == w.inner.snapshot;
  }
}
