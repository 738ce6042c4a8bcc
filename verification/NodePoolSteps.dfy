/**
 * Every interleaving of pool operations.  A task suspends exactly where the
 * source releases a lock or awaits; the environment decides which task moves
 * next and whether a start or an open succeeds.
 */
module NodePoolSteps {
  import opened Common
  import opened NodePool

  datatype Entry = Entry(runtime: Option<RuntimeId>, lock: Option<TaskId>)

  /** What a lazy start remembers: the generation it read, and when it read it. */
  datatype Lazy = Lazy(reference: string, stream: bool, generation: nat, readAt: nat)

  datatype Outcome =
    | Activated(generation: nat)
    | PoolStopped
    | GotRuntime(runtime: RuntimeId)
    | GotStream(readAt: nat, checkedAt: nat)
    | Failed(error: PoolError)

  datatype Task =
    | Starting(pool: PoolState)                               // activate: awaiting the default's start
    | Started(pool: PoolState, runtime: RuntimeId)            // activate: started, slot not written
    | Stored(pool: PoolState)                                 // activate: slot written, no generation
    | Numbered(pool: PoolState)                               // activate: waiting for the write lock
    | StopWaiting                                             // stop: waiting for the write lock
    | Draining(rest: set<EntryId>, outcome: Outcome)          // stop_state: entries yet to visit
    | DrainStopping(entry: EntryId, runtime: RuntimeId, rest: set<EntryId>, outcome: Outcome)
    | LazyReady(reference: string, stream: bool)              // before the first generation read
    | LazyRead(lazy: Lazy)                                    // before resolving the reference
    | LazyResolved(entry: EntryId, lazy: Lazy)                // waiting for the entry's lock
    | LazyStarting(entry: EntryId, lazy: Lazy)                // lock held, slot empty
    | LazyStarted(entry: EntryId, runtime: RuntimeId, lazy: Lazy)
    | LazyConfirmed(entry: EntryId, runtime: RuntimeId, lazy: Lazy)
    | LazyDiscarding(entry: EntryId, runtime: RuntimeId, lazy: Lazy)
    | StreamOpening(runtime: RuntimeId, lazy: Lazy)
    | StreamOpened(lazy: Lazy)                                // before the second generation read
    | Done(outcome: Outcome)

  /** Where an entry is in its life. */
  datatype Home = Private(task: TaskId) | CurrentHome | Replaced(task: TaskId) | Visited

  /** Where a started runtime is. */
  datatype Owner = InSlot(entry: EntryId) | InTask(task: TaskId) | StoppedRuntime

  /** `home`, `owner`, `retired` and `replacements` record history; no step depends on them. */
  datatype Pool = Pool(
    state: PoolState,
    nextGeneration: nat,
    entries: map<EntryId, Entry>,
    nextEntry: EntryId,
    tasks: map<TaskId, Task>,
    nextRuntime: RuntimeId,
    stopped: set<RuntimeId>,
    home: map<EntryId, Home>,
    owner: map<RuntimeId, Owner>,
    retired: set<nat>,
    replacements: nat)

  const NewPool := Pool(EmptyState, 1, map[], 0, map[], 0, {}, map[], map[], {}, 0)

  datatype Step =
    | Accept(task: TaskId, nodes: seq<ResolvedNode>, defaultNode: string, pool: PoolState)
    | StartReturns(task: TaskId, ok: bool)
    | Store(task: TaskId)
    | Draw(task: TaskId)
    | Replace(task: TaskId)
    | CallStop(task: TaskId)
    | ReplaceByStop(task: TaskId)
    | DrainLock(task: TaskId, entry: EntryId)
    | DrainStopped(task: TaskId)
    | DrainDone(task: TaskId)
    | CallLazy(task: TaskId, reference: string, stream: bool)
    | ReadGeneration(task: TaskId)
    | Resolve(task: TaskId)
    | LockEntry(task: TaskId)
    | CheckGeneration(task: TaskId)
    | Publish(task: TaskId)
    | Discard(task: TaskId)
    | StreamReturns(task: TaskId, ok: bool)
    | RecheckGeneration(task: TaskId)

  function LockOf(t: Task): Option<EntryId> {
    match t
    case DrainStopping(entry, _, _, _) => Some(entry)
    case LazyStarting(entry, _) => Some(entry)
    case LazyStarted(entry, _, _) => Some(entry)
    case LazyConfirmed(entry, _, _) => Some(entry)
    case LazyDiscarding(entry, _, _) => Some(entry)
    case _ => None
  }

  /** The runtime an operation is solely responsible for. */
  function Held(t: Task): Option<RuntimeId> {
    match t
    case Started(_, runtime) => Some(runtime)
    case DrainStopping(_, runtime, _, _) => Some(runtime)
    case LazyStarted(_, runtime, _) => Some(runtime)
    case LazyConfirmed(_, runtime, _) => Some(runtime)
    case LazyDiscarding(_, runtime, _) => Some(runtime)
    case _ => None
  }

  function Prepared(t: Task): Option<PoolState> {
    match t
    case Starting(pool) => Some(pool)
    case Started(pool, _) => Some(pool)
    case Stored(pool) => Some(pool)
    case Numbered(pool) => Some(pool)
    case _ => None
  }

  function Rest(t: Task): set<EntryId> {
    match t
    case Draining(rest, _) => rest
    case DrainStopping(_, _, rest, _) => rest
    case _ => {}
  }

  function LazyOf(t: Task): Option<Lazy> {
    match t
    case LazyRead(lazy) => Some(lazy)
    case LazyResolved(_, lazy) => Some(lazy)
    case LazyStarting(_, lazy) => Some(lazy)
    case LazyStarted(_, _, lazy) => Some(lazy)
    case LazyConfirmed(_, _, lazy) => Some(lazy)
    case LazyDiscarding(_, _, lazy) => Some(lazy)
    case StreamOpening(_, lazy) => Some(lazy)
    case StreamOpened(lazy) => Some(lazy)
    case _ => None
  }

  /** The id or alias a flow asked for; "PROXY" asks for the default node. */
  function ResolveReference(state: PoolState, reference: string): Option<EntryId> {
    var id :=
      if reference == "PROXY" then Some(state.defaultNode)
      else if reference in state.nodes then Some(reference)
      else if reference in state.aliases then Some(state.aliases[reference])
      else None;
    if id.Some? && id.value in state.nodes then Some(state.nodes[id.value]) else None
  }

  // ---------------------------------------------------------------- steps

  function To(p: Pool, task: TaskId, t: Task): Pool {
    p.(tasks := p.tasks[task := t])
  }

  function SetSlot(p: Pool, entry: EntryId, runtime: Option<RuntimeId>, lock: Option<TaskId>): Pool {
    p.(entries := p.entries[entry := Entry(runtime, lock)])
  }

  function StopRuntime(p: Pool, runtime: RuntimeId): Pool {
    p.(stopped := p.stopped + {runtime}, owner := p.owner[runtime := StoppedRuntime])
  }

  function StartRuntime(p: Pool, task: TaskId): Pool {
    p.(nextRuntime := p.nextRuntime + 1, owner := p.owner[p.nextRuntime := InTask(task)])
  }

  /** Installs `next`; the operation that replaced a state becomes the one to drain it. */
  function Swap(p: Pool, task: TaskId, next: PoolState, outcome: Outcome): Pool {
    To(p, task, Draining(p.state.nodes.Values, outcome)).(
      state := next,
      home := HandOver(p.home, task),
      retired := p.retired + {p.state.generation},
      replacements := p.replacements + 1)
  }

  ghost predicate Enabled(p: Pool, step: Step) {
    if step.Accept? then
      && step.task !in p.tasks && step.nodes != [] && WellNamed(step.nodes)
      && Describes(step.pool.nodes, step.pool.aliases, step.nodes, p.nextEntry)
      && NamesNode(step.nodes, step.defaultNode, step.pool.defaultNode)
      && step.pool.generation == 0
    else if step.CallStop? || step.CallLazy? then step.task !in p.tasks
    else step.task in p.tasks && CanMove(p, p.tasks[step.task], step)
  }

  predicate CanMove(p: Pool, t: Task, step: Step) {
    match t
    case Starting(_) => step.StartReturns?
    case Started(_, _) => step.Store?
    case Stored(_) => step.Draw?
    case Numbered(_) => step.Replace?
    case StopWaiting => step.ReplaceByStop?
    case Draining(rest, _) =>
      if rest == {} then step.DrainDone?
      else step.DrainLock? && step.entry in rest && Unlocked(p, step.entry)
    case DrainStopping(_, _, _, _) => step.DrainStopped?
    case LazyReady(_, _) => step.ReadGeneration?
    case LazyRead(_) => step.Resolve?
    case LazyResolved(entry, _) => step.LockEntry? && Unlocked(p, entry)
    case LazyStarting(_, _) => step.StartReturns?
    case LazyStarted(_, _, _) => step.CheckGeneration?
    case LazyConfirmed(_, _, _) => step.Publish?
    case LazyDiscarding(_, _, _) => step.Discard?
    case StreamOpening(_, _) => step.StreamReturns?
    case StreamOpened(_) => step.RecheckGeneration?
    case Done(_) => false
  }

  predicate Unlocked(p: Pool, entry: EntryId) {
    entry in p.entries && p.entries[entry].lock.None?
  }

  function GotIt(p: Pool, task: TaskId, runtime: RuntimeId, lazy: Lazy): Pool {
    To(p, task, if lazy.stream then StreamOpening(runtime, lazy) else Done(GotRuntime(runtime)))
  }

  function Move(p: Pool, t: Task, step: Step): Pool
    requires CanMove(p, t, step)
    requires LockOf(t).Some? ==> LockOf(t).value in p.entries
    requires Prepared(t).Some? ==> Prepared(t).value.defaultNode in Prepared(t).value.nodes
  {
    var me := step.task;
    match t
    case Starting(pool) =>
      if step.ok then To(StartRuntime(p, me), me, Started(pool, p.nextRuntime))
      else To(p, me, Done(Failed(StartFailed))).(
        home := Abandon(p.home, me))
    case Started(pool, runtime) =>
      var entry := pool.nodes[pool.defaultNode];
      To(SetSlot(p, entry, Some(runtime), None), me, Stored(pool)).(
        owner := p.owner[runtime := InSlot(entry)])
    case Stored(pool) =>
      To(p, me, Numbered(pool.(generation := p.nextGeneration))).(nextGeneration := p.nextGeneration + 1)
    case Numbered(pool) => Swap(p, me, pool, Activated(pool.generation))
    case StopWaiting =>
      Swap(p, me, EmptyState.(generation := p.nextGeneration), PoolStopped).(
        nextGeneration := p.nextGeneration + 1)
    case Draining(rest, outcome) =>
      if rest == {} then To(p, me, Done(outcome))
      else
        var left := rest - {step.entry};
        var visited := p.(home := p.home[step.entry := Visited]);
        var slot := p.entries[step.entry].runtime;
        if slot.None? then To(visited, me, Draining(left, outcome))
        else
          To(SetSlot(visited, step.entry, None, Some(me)), me,
             DrainStopping(step.entry, slot.value, left, outcome)).(
            owner := p.owner[slot.value := InTask(me)])
    case DrainStopping(entry, runtime, rest, outcome) =>
      To(SetSlot(StopRuntime(p, runtime), entry, None, None), me, Draining(rest, outcome))
    case LazyReady(reference, stream) =>
      To(p, me, LazyRead(Lazy(reference, stream, p.state.generation, p.replacements)))
    case LazyRead(lazy) =>
      if p.state.generation != lazy.generation then To(p, me, Done(Failed(Superseded)))
      else
        var entry := ResolveReference(p.state, lazy.reference);
        To(p, me, if entry.None? then Done(Failed(UnknownNode)) else LazyResolved(entry.value, lazy))
    case LazyResolved(entry, lazy) =>
      var slot := p.entries[entry].runtime;
      if slot.Some? then GotIt(p, me, slot.value, lazy)
      else To(SetSlot(p, entry, None, Some(me)), me, LazyStarting(entry, lazy))
    case LazyStarting(entry, lazy) =>
      if step.ok then To(StartRuntime(p, me), me, LazyStarted(entry, p.nextRuntime, lazy))
      else To(SetSlot(p, entry, None, None), me, Done(Failed(StartFailed)))
    case LazyStarted(entry, runtime, lazy) =>
      To(p, me, if p.state.generation == lazy.generation then LazyConfirmed(entry, runtime, lazy)
                else LazyDiscarding(entry, runtime, lazy))
    case LazyConfirmed(entry, runtime, lazy) =>
      GotIt(SetSlot(p, entry, Some(runtime), None).(owner := p.owner[runtime := InSlot(entry)]),
            me, runtime, lazy)
    case LazyDiscarding(entry, runtime, lazy) =>
      To(SetSlot(StopRuntime(p, runtime), entry, None, None), me, Done(Failed(Superseded)))
    case StreamOpening(_, lazy) =>
      To(p, me, if step.ok then StreamOpened(lazy) else Done(Failed(StreamFailed)))
    case StreamOpened(lazy) =>
      To(p, me, Done(if p.state.generation != lazy.generation then Failed(Superseded)
                     else GotStream(lazy.readAt, p.replacements)))
  }

  /** A new call; an activation allocates one private entry per node. */
  function Call(p: Pool, step: Step): Pool
    requires step.Accept? || step.CallStop? || step.CallLazy?
  {
    if step.CallStop? then To(p, step.task, StopWaiting)
    else if step.CallLazy? then To(p, step.task, LazyReady(step.reference, step.stream))
    else
      To(p, step.task, Starting(step.pool)).(
        nextEntry := p.nextEntry + |step.nodes|,
        entries := p.entries + (map e <- step.pool.nodes.Values :: Entry(None, None)),
        home := p.home + (map e <- step.pool.nodes.Values :: Private(step.task)))
  }

  ghost function Take(p: Pool, step: Step): Pool {
    if !Enabled(p, step) then p
    else if step.Accept? || step.CallStop? || step.CallLazy? then Call(p, step)
    else
      var t := p.tasks[step.task];
      if (LockOf(t).Some? ==> LockOf(t).value in p.entries)
         && (Prepared(t).Some? ==> Prepared(t).value.defaultNode in Prepared(t).value.nodes)
      then Move(p, t, step)
      else p
  }

  ghost function Run(p: Pool, steps: seq<Step>): Pool
    decreases |steps|
  {
    if steps == [] then p else Run(Take(p, steps[0]), steps[1..])
  }

  // ---------------------------------------------------------------- invariant

  type Tasks = map<TaskId, Task>
  type Entries = map<EntryId, Entry>

  ghost predicate NumberedWith(tasks: Tasks, a: TaskId, g: nat) {
    a in tasks && tasks[a].Numbered? && tasks[a].pool.generation == g
  }

  /** Generations are drawn once: the visible one, the drawn ones and the retired ones differ. */
  ghost predicate GenerationsValid(current: nat, next: nat, retired: set<nat>, tasks: Tasks) {
    && current < next && current !in retired
    && (forall g <- retired :: g < next)
    && (forall a: TaskId, g: nat | NumberedWith(tasks, a, g) :: g < next && g != current && g !in retired)
    && (forall a: TaskId, b: TaskId, g: nat | NumberedWith(tasks, a, g) && NumberedWith(tasks, b, g) :: a == b)
  }

  ghost predicate Injective(nodes: map<string, EntryId>) {
    forall a, b | a in nodes && b in nodes && a != b :: nodes[a] != nodes[b]
  }

  ghost predicate PoolWellFormed(pool: PoolState) {
    && Injective(pool.nodes)
    && (pool.nodes != map[] ==> pool.defaultNode in pool.nodes)
  }

  /** The entries a task still answers for: those it prepared, or those it has yet to drain. */
  function Claims(t: Task): set<EntryId> {
    if Prepared(t).Some? then Prepared(t).value.nodes.Values else Rest(t)
  }

  function ClaimedHome(t: Task, a: TaskId): Home {
    if Prepared(t).Some? then Private(a) else Replaced(a)
  }

  /** Each entry has one home, and the homes are what the state and the tasks say. */
  ghost predicate HomesValid(home: map<EntryId, Home>, state: PoolState, tasks: Tasks) {
    && PoolWellFormed(state)
    && (forall a <- tasks | Prepared(tasks[a]).Some? ::
          PoolWellFormed(Prepared(tasks[a]).value) && Prepared(tasks[a]).value.nodes != map[])
    && (forall e <- state.nodes.Values :: e in home && home[e] == CurrentHome)
    && (forall a <- tasks :: forall e <- Claims(tasks[a]) :: e in home && home[e] == ClaimedHome(tasks[a], a))
    && (forall e <- home | home[e] == CurrentHome :: e in state.nodes.Values)
    && (forall e <- home | home[e].Private? || home[e].Replaced? ::
          && home[e].task in tasks && e in Claims(tasks[home[e].task])
          && home[e] == ClaimedHome(tasks[home[e].task], home[e].task))
  }

  ghost predicate LocksValid(entries: Entries, tasks: Tasks) {
    && (forall a <- tasks | LockOf(tasks[a]).Some? ::
          LockOf(tasks[a]).value in entries && entries[LockOf(tasks[a]).value] == Entry(None, Some(a)))
    && (forall e <- entries | entries[e].lock.Some? ::
          entries[e].lock.value in tasks && LockOf(tasks[entries[e].lock.value]) == Some(e))
  }

  ghost predicate RuntimesValid(
      owner: map<RuntimeId, Owner>, next: RuntimeId, stopped: set<RuntimeId>, entries: Entries, tasks: Tasks)
  {
    && (forall r :: r in owner <==> 0 <= r < next)
    && (forall r <- owner :: owner[r] == StoppedRuntime <==> r in stopped)
    && stopped <= owner.Keys
    && (forall e <- entries | entries[e].runtime.Some? ::
          entries[e].runtime.value in owner && owner[entries[e].runtime.value] == InSlot(e))
    && (forall a <- tasks | Held(tasks[a]).Some? ::
          Held(tasks[a]).value in owner && owner[Held(tasks[a]).value] == InTask(a))
    && (forall r <- owner | owner[r].InSlot? ::
          owner[r].entry in entries && entries[owner[r].entry].runtime == Some(r))
    && (forall r <- owner | owner[r].InTask? ::
          owner[r].task in tasks && Held(tasks[owner[r].task]) == Some(r))
  }

  ghost predicate AwaitsRuntime(t: Task) {
    t.Starting? || t.Started?
  }

  /** A visited entry is empty for good; a private one is filled only by its own activation. */
  ghost predicate SlotValid(home: Home, entry: Entry, tasks: Tasks) {
    && (home == Visited ==> entry.runtime.None?)
    && (home.Private? ==> entry.lock.None?)
    && (home.Private? && home.task in tasks && AwaitsRuntime(tasks[home.task]) ==> entry.runtime.None?)
  }

  ghost predicate SlotsValid(home: map<EntryId, Home>, entries: Entries, tasks: Tasks, nextEntry: EntryId) {
    && home.Keys == entries.Keys
    && (forall e <- home :: e < nextEntry)
    && (forall e <- home :: SlotValid(home[e], entries[e], tasks))
  }

  /** A lazy start that still sees its generation has missed no replacement. */
  ghost predicate LazyValid(lazy: Lazy, current: nat, retired: set<nat>, replacements: nat) {
    if lazy.generation == current then lazy.readAt == replacements else lazy.generation in retired
  }

  /** The entry a lazy start heads for can still hold a runtime that will be looked after. */
  ghost predicate TargetValid(t: Task, home: map<EntryId, Home>, current: nat) {
    match t
    case LazyResolved(entry, lazy) =>
      entry in home && !home[entry].Private? && (lazy.generation == current ==> home[entry] == CurrentHome)
    case LazyStarting(entry, lazy) =>
      entry in home && !home[entry].Private? && (lazy.generation == current ==> home[entry] == CurrentHome)
    case LazyStarted(entry, _, lazy) =>
      entry in home && !home[entry].Private? && (lazy.generation == current ==> home[entry] == CurrentHome)
    case LazyConfirmed(entry, _, _) =>
      entry in home && (home[entry] == CurrentHome || home[entry].Replaced?)
    case _ => true
  }

  ghost predicate TaskValid(
      t: Task, home: map<EntryId, Home>, current: nat, retired: set<nat>, replacements: nat)
  {
    && (LazyOf(t).Some? ==> LazyValid(LazyOf(t).value, current, retired, replacements))
    && TargetValid(t, home, current)
    && (t.Draining? || t.DrainStopping? ==> t.outcome.Activated? || t.outcome.PoolStopped?)
    && (t.Done? && t.outcome.GotStream? ==> t.outcome.readAt == t.outcome.checkedAt)
  }

  ghost predicate TasksValid(
      tasks: Tasks, home: map<EntryId, Home>, current: nat, retired: set<nat>, replacements: nat)
  {
    forall a <- tasks :: TaskValid(tasks[a], home, current, retired, replacements)
  }

  ghost predicate PoolValid(p: Pool) {
    && GenerationsValid(p.state.generation, p.nextGeneration, p.retired, p.tasks)
    && HomesValid(p.home, p.state, p.tasks)
    && LocksValid(p.entries, p.tasks)
    && RuntimesValid(p.owner, p.nextRuntime, p.stopped, p.entries, p.tasks)
    && SlotsValid(p.home, p.entries, p.tasks, p.nextEntry)
    && TasksValid(p.tasks, p.home, p.state.generation, p.retired, p.replacements)
  }

  // ---------------------------------------------------------------- generations

  lemma GenerationsKeep(current: nat, next: nat, retired: set<nat>, tasks: Tasks, me: TaskId, t: Task)
    requires GenerationsValid(current, next, retired, tasks)
    requires t.Numbered? ==> t.pool.generation == next
    ensures GenerationsValid(current, if t.Numbered? then next + 1 else next, retired, tasks[me := t])
  {
    var later := tasks[me := t];
    forall a: TaskId, g: nat | NumberedWith(later, a, g)
      ensures if a == me then g == next && t.Numbered? else NumberedWith(tasks, a, g)
    {
    }
    forall a: TaskId, b: TaskId, g: nat | NumberedWith(later, a, g) && NumberedWith(later, b, g)
      ensures a == b
    {
    }
  }

  lemma GenerationsReplace(
      current: nat, next: nat, retired: set<nat>, tasks: Tasks, me: TaskId, t: Task, drawn: nat)
    requires GenerationsValid(current, next, retired, tasks)
    requires !t.Numbered?
    requires drawn == next || NumberedWith(tasks, me, drawn)
    ensures GenerationsValid(drawn, if drawn == next then next + 1 else next,
                             retired + {current}, tasks[me := t])
  {
    var later := tasks[me := t];
    forall a: TaskId, g: nat | NumberedWith(later, a, g)
      ensures a != me && NumberedWith(tasks, a, g) && g != drawn
    {
      assert NumberedWith(tasks, a, g);
      assert drawn == next || NumberedWith(tasks, me, drawn);
    }
    forall a: TaskId, b: TaskId, g: nat | NumberedWith(later, a, g) && NumberedWith(later, b, g)
      ensures a == b
    {
    }
  }

  // ---------------------------------------------------------------- locks

  lemma LocksKeep(entries: Entries, tasks: Tasks, me: TaskId, t: Task)
    requires LocksValid(entries, tasks)
    requires LockOf(t) == if me in tasks then LockOf(tasks[me]) else None
    ensures LocksValid(entries, tasks[me := t])
  {
  }

  lemma LocksStore(entries: Entries, tasks: Tasks, me: TaskId, t: Task, e: EntryId, slot: Option<RuntimeId>)
    requires LocksValid(entries, tasks) && me in tasks
    requires e in entries && entries[e].lock.None?
    requires LockOf(t) == LockOf(tasks[me]) == None
    ensures LocksValid(entries[e := Entry(slot, None)], tasks[me := t])
  {
  }

  lemma LocksTake(entries: Entries, tasks: Tasks, me: TaskId, t: Task, e: EntryId)
    requires LocksValid(entries, tasks) && me in tasks && LockOf(tasks[me]).None?
    requires e in entries && entries[e].lock.None? && LockOf(t) == Some(e)
    ensures LocksValid(entries[e := Entry(None, Some(me))], tasks[me := t])
  {
  }

  lemma LocksRelease(entries: Entries, tasks: Tasks, me: TaskId, t: Task, e: EntryId, slot: Option<RuntimeId>)
    requires LocksValid(entries, tasks) && me in tasks && LockOf(tasks[me]) == Some(e)
    requires LockOf(t).None?
    ensures LocksValid(entries[e := Entry(slot, None)], tasks[me := t])
  {
  }

  // ---------------------------------------------------------------- runtimes

  /** Nothing moves: no slot content changes and the task holds what it held. */
  lemma RuntimesKeep(
      owner: map<RuntimeId, Owner>, next: RuntimeId, stopped: set<RuntimeId>,
      entries: Entries, more: Entries, tasks: Tasks, me: TaskId, t: Task)
    requires RuntimesValid(owner, next, stopped, entries, tasks)
    requires Held(t) == if me in tasks then Held(tasks[me]) else None
    requires entries.Keys <= more.Keys
    requires forall e <- more :: more[e].runtime == if e in entries then entries[e].runtime else None
    ensures RuntimesValid(owner, next, stopped, more, tasks[me := t])
  {
  }

  lemma RuntimesStart(
      owner: map<RuntimeId, Owner>, next: RuntimeId, stopped: set<RuntimeId>,
      entries: Entries, tasks: Tasks, me: TaskId, t: Task)
    requires RuntimesValid(owner, next, stopped, entries, tasks)
    requires me in tasks && Held(tasks[me]).None? && Held(t) == Some(next)
    ensures RuntimesValid(owner[next := InTask(me)], next + 1, stopped, entries, tasks[me := t])
  {
  }

  lemma RuntimesStore(
      owner: map<RuntimeId, Owner>, next: RuntimeId, stopped: set<RuntimeId>,
      entries: Entries, tasks: Tasks, me: TaskId, t: Task, e: EntryId, r: RuntimeId)
    requires RuntimesValid(owner, next, stopped, entries, tasks)
    requires me in tasks && Held(tasks[me]) == Some(r) && Held(t).None?
    requires e in entries && entries[e].runtime.None?
    ensures RuntimesValid(owner[r := InSlot(e)], next, stopped, entries[e := Entry(Some(r), None)],
                          tasks[me := t])
  {
  }

  lemma RuntimesTake(
      owner: map<RuntimeId, Owner>, next: RuntimeId, stopped: set<RuntimeId>,
      entries: Entries, tasks: Tasks, me: TaskId, t: Task, e: EntryId, r: RuntimeId)
    requires RuntimesValid(owner, next, stopped, entries, tasks)
    requires me in tasks && Held(tasks[me]).None? && Held(t) == Some(r)
    requires e in entries && entries[e].runtime == Some(r)
    ensures RuntimesValid(owner[r := InTask(me)], next, stopped, entries[e := Entry(None, Some(me))],
                          tasks[me := t])
  {
  }

  lemma RuntimesStop(
      owner: map<RuntimeId, Owner>, next: RuntimeId, stopped: set<RuntimeId>,
      entries: Entries, tasks: Tasks, me: TaskId, t: Task, e: EntryId, r: RuntimeId)
    requires RuntimesValid(owner, next, stopped, entries, tasks)
    requires me in tasks && Held(tasks[me]) == Some(r) && Held(t).None?
    requires e in entries && entries[e].runtime.None?
    ensures RuntimesValid(owner[r := StoppedRuntime], next, stopped + {r},
                          entries[e := Entry(None, None)], tasks[me := t])
  {
  }

  // ---------------------------------------------------------------- homes

  lemma HomesKeep(home: map<EntryId, Home>, state: PoolState, tasks: Tasks, me: TaskId, t: Task)
    requires HomesValid(home, state, tasks)
    requires if me in tasks then
        && Claims(t) == Claims(tasks[me]) && Prepared(t).Some? == Prepared(tasks[me]).Some?
        && (Prepared(t).Some? ==>
            && Prepared(t).value.nodes == Prepared(tasks[me]).value.nodes
            && Prepared(t).value.defaultNode == Prepared(tasks[me]).value.defaultNode)
      else Prepared(t).None? && Claims(t) == {}
    ensures HomesValid(home, state, tasks[me := t])
  {
  }

  lemma HomesVisit(home: map<EntryId, Home>, state: PoolState, tasks: Tasks, me: TaskId, t: Task, e: EntryId)
    requires HomesValid(home, state, tasks)
    requires me in tasks && Prepared(tasks[me]).None? && Prepared(t).None?
    requires e in Rest(tasks[me]) && Rest(t) == Rest(tasks[me]) - {e}
    ensures HomesValid(home[e := Visited], state, tasks[me := t])
  {
  }

  /** A failed start abandons the entries prepared for it. */
  function Abandon(home: map<EntryId, Home>, me: TaskId): map<EntryId, Home> {
    map e <- home :: if home[e] == Private(me) then Visited else home[e]
  }

  lemma HomesAbandon(home: map<EntryId, Home>, state: PoolState, tasks: Tasks, me: TaskId, t: Task)
    requires HomesValid(home, state, tasks)
    requires me in tasks && Prepared(tasks[me]).Some? && Claims(t) == {} && Prepared(t).None?
    ensures HomesValid(Abandon(home, me), state, tasks[me := t])
  {
  }

  /** The replaced state's entries go to the replacing task, and its own become current. */
  function HandOver(home: map<EntryId, Home>, me: TaskId): map<EntryId, Home> {
    map e <- home :: if home[e] == Private(me) then CurrentHome
                     else if home[e] == CurrentHome then Replaced(me)
                     else home[e]
  }

  lemma HomesReplace(
      home: map<EntryId, Home>, state: PoolState, next: PoolState, tasks: Tasks, me: TaskId, t: Task)
    requires HomesValid(home, state, tasks) && me in tasks
    requires PoolWellFormed(next)
    requires if Prepared(tasks[me]).Some? then next.nodes == Prepared(tasks[me]).value.nodes
             else next.nodes == map[] && Claims(tasks[me]) == {}
    requires Prepared(t).None? && Rest(t) == state.nodes.Values
    ensures HomesValid(HandOver(home, me), next, tasks[me := t])
  {
  }

  /** New entries, all private to the task that prepared them. */
  lemma HomesAccept(
      home: map<EntryId, Home>, state: PoolState, tasks: Tasks, me: TaskId, pool: PoolState)
    requires HomesValid(home, state, tasks) && me !in tasks
    requires PoolWellFormed(pool) && pool.nodes != map[] && pool.nodes.Values !! home.Keys
    ensures HomesValid(home + (map e <- pool.nodes.Values :: Private(me)), state, tasks[me := Starting(pool)])
  {
  }

  // ---------------------------------------------------------------- slots

  lemma SlotsKeep(
      home: map<EntryId, Home>, entries: Entries, tasks: Tasks, nextEntry: EntryId, me: TaskId, t: Task)
    requires SlotsValid(home, entries, tasks, nextEntry)
    requires AwaitsRuntime(t) ==> me in tasks && AwaitsRuntime(tasks[me])
    ensures SlotsValid(home, entries, tasks[me := t], nextEntry)
  {
  }

  /** Changing one entry that is current, or still waiting to be drained. */
  lemma SlotsChange(
      home: map<EntryId, Home>, entries: Entries, tasks: Tasks, nextEntry: EntryId, me: TaskId, t: Task,
      e: EntryId, entry: Entry)
    requires SlotsValid(home, entries, tasks, nextEntry) && e in home
    requires AwaitsRuntime(t) ==> me in tasks && AwaitsRuntime(tasks[me])
    requires home[e].Private? ==> home[e].task == me && !AwaitsRuntime(t) && entry.lock.None?
    requires home[e] == Visited ==> entry.runtime.None?
    ensures SlotsValid(home, entries[e := entry], tasks[me := t], nextEntry)
  {
  }

  lemma SlotsVisit(
      home: map<EntryId, Home>, entries: Entries, tasks: Tasks, nextEntry: EntryId, me: TaskId, t: Task,
      e: EntryId, lock: Option<TaskId>)
    requires SlotsValid(home, entries, tasks, nextEntry) && e in home
    requires !AwaitsRuntime(t)
    ensures SlotsValid(home[e := Visited], entries[e := Entry(None, lock)], tasks[me := t], nextEntry)
  {
  }

  lemma SlotsAbandon(
      home: map<EntryId, Home>, entries: Entries, tasks: Tasks, nextEntry: EntryId, me: TaskId, t: Task)
    requires SlotsValid(home, entries, tasks, nextEntry)
    requires me in tasks && AwaitsRuntime(tasks[me]) && !AwaitsRuntime(t)
    ensures SlotsValid(Abandon(home, me), entries, tasks[me := t], nextEntry)
  {
  }

  lemma SlotsReplace(
      home: map<EntryId, Home>, entries: Entries, tasks: Tasks, nextEntry: EntryId, me: TaskId, t: Task)
    requires SlotsValid(home, entries, tasks, nextEntry) && !AwaitsRuntime(t)
    ensures SlotsValid(HandOver(home, me), entries, tasks[me := t], nextEntry)
  {
  }

  lemma SlotsAccept(
      home: map<EntryId, Home>, entries: Entries, tasks: Tasks, nextEntry: EntryId, later: EntryId,
      me: TaskId, pool: PoolState)
    requires SlotsValid(home, entries, tasks, nextEntry) && me !in tasks
    requires forall e <- home | home[e].Private? :: home[e].task != me
    requires nextEntry <= later && forall e <- pool.nodes.Values :: nextEntry <= e < later
    ensures SlotsValid(home + (map e <- pool.nodes.Values :: Private(me)),
                       entries + (map e <- pool.nodes.Values :: Entry(None, None)),
                       tasks[me := Starting(pool)], later)
  {
  }

  // ---------------------------------------------------------------- tasks

  lemma TasksKeep(
      tasks: Tasks, home: map<EntryId, Home>, current: nat, retired: set<nat>, replacements: nat,
      me: TaskId, t: Task)
    requires TasksValid(tasks, home, current, retired, replacements)
    requires TaskValid(t, home, current, retired, replacements)
    ensures TasksValid(tasks[me := t], home, current, retired, replacements)
  {
  }

  /** New homes that leave current and undrained entries alone disturb no task. */
  lemma TasksRehome(
      tasks: Tasks, home: map<EntryId, Home>, more: map<EntryId, Home>, current: nat, retired: set<nat>,
      replacements: nat)
    requires TasksValid(tasks, home, current, retired, replacements)
    requires forall e <- home :: e in more && (home[e] == CurrentHome ==> more[e] == CurrentHome)
    requires forall e <- home :: more[e].Private? ==> home[e].Private?
    requires forall a <- tasks | tasks[a].LazyConfirmed? && tasks[a].entry in home ::
      home[tasks[a].entry].Replaced? ==> more[tasks[a].entry] == home[tasks[a].entry]
    ensures TasksValid(tasks, more, current, retired, replacements)
  {
  }

  /** After a replacement every earlier generation is retired. */
  lemma TasksReplace(
      tasks: Tasks, home: map<EntryId, Home>, current: nat, retired: set<nat>, replacements: nat,
      me: TaskId, drawn: nat)
    requires TasksValid(tasks, home, current, retired, replacements)
    requires drawn != current && drawn !in retired
    ensures TasksValid(tasks, HandOver(home, me), drawn, retired + {current}, replacements + 1)
  {
  }

  // ---------------------------------------------------------------- facts read off the invariant

  lemma ClaimFacts(home: map<EntryId, Home>, state: PoolState, tasks: Tasks, me: TaskId, e: EntryId)
    requires HomesValid(home, state, tasks) && me in tasks && e in Claims(tasks[me])
    ensures e in home && home[e] == ClaimedHome(tasks[me], me)
  {
  }

  lemma PreparedFacts(home: map<EntryId, Home>, state: PoolState, tasks: Tasks, me: TaskId)
    requires HomesValid(home, state, tasks) && me in tasks && Prepared(tasks[me]).Some?
    ensures PoolWellFormed(Prepared(tasks[me]).value)
    ensures Prepared(tasks[me]).value.defaultNode in Prepared(tasks[me]).value.nodes
  {
  }

  lemma SlotFacts(home: map<EntryId, Home>, entries: Entries, tasks: Tasks, nextEntry: EntryId, e: EntryId)
    requires SlotsValid(home, entries, tasks, nextEntry)
    ensures home.Keys == entries.Keys
    ensures e in home ==> e < nextEntry && SlotValid(home[e], entries[e], tasks)
  {
  }

  lemma LockFacts(entries: Entries, tasks: Tasks, me: TaskId)
    requires LocksValid(entries, tasks) && me in tasks && LockOf(tasks[me]).Some?
    ensures LockOf(tasks[me]).value in entries
    ensures entries[LockOf(tasks[me]).value] == Entry(None, Some(me))
  {
  }

  lemma TaskFacts(p: Pool, me: TaskId)
    requires TasksValid(p.tasks, p.home, p.state.generation, p.retired, p.replacements) && me in p.tasks
    ensures TaskValid(p.tasks[me], p.home, p.state.generation, p.retired, p.replacements)
  {
  }

  lemma ResolvedFacts(p: Pool, reference: string)
    requires PoolValid(p)
    ensures ResolveReference(p.state, reference).Some? ==>
      var e := ResolveReference(p.state, reference).value;
      e in p.home && p.home[e] == CurrentHome
  {
  }

  lemma GenerationFacts(p: Pool, me: TaskId)
    requires GenerationsValid(p.state.generation, p.nextGeneration, p.retired, p.tasks)
    ensures p.nextGeneration != p.state.generation && p.nextGeneration !in p.retired
    ensures me in p.tasks && p.tasks[me].Numbered? ==>
      var g := p.tasks[me].pool.generation;
      NumberedWith(p.tasks, me, g) && g != p.nextGeneration && g != p.state.generation && g !in p.retired
  {
    if me in p.tasks && p.tasks[me].Numbered? {
      assert NumberedWith(p.tasks, me, p.tasks[me].pool.generation);
    }
  }

  // ---------------------------------------------------------------- one task moves

  /** A step that changes only what its task remembers, not what it holds, locks or claims. */
  lemma QuietStep(p: Pool, me: TaskId, t: Task)
    requires PoolValid(p) && me in p.tasks
    requires LockOf(t) == LockOf(p.tasks[me]) && Held(t) == Held(p.tasks[me])
    requires Claims(t) == Claims(p.tasks[me]) && Prepared(t).None? && Prepared(p.tasks[me]).None?
    requires TaskValid(t, p.home, p.state.generation, p.retired, p.replacements)
    ensures PoolValid(To(p, me, t))
  {
    hide GenerationsValid, HomesValid, LocksValid, RuntimesValid, SlotsValid, TasksValid, TaskValid;
    GenerationsKeep(p.state.generation, p.nextGeneration, p.retired, p.tasks, me, t);
    HomesKeep(p.home, p.state, p.tasks, me, t);
    LocksKeep(p.entries, p.tasks, me, t);
    RuntimesKeep(p.owner, p.nextRuntime, p.stopped, p.entries, p.entries, p.tasks, me, t);
    SlotsKeep(p.home, p.entries, p.tasks, p.nextEntry, me, t);
    TasksKeep(p.tasks, p.home, p.state.generation, p.retired, p.replacements, me, t);
  }

  /** A call that starts with nothing. */
  lemma QuietCall(p: Pool, me: TaskId, t: Task)
    requires PoolValid(p) && me !in p.tasks && (t.StopWaiting? || t.LazyReady?)
    ensures PoolValid(To(p, me, t))
  {
    hide GenerationsValid, HomesValid, LocksValid, RuntimesValid, SlotsValid, TasksValid;
    GenerationsKeep(p.state.generation, p.nextGeneration, p.retired, p.tasks, me, t);
    HomesKeep(p.home, p.state, p.tasks, me, t);
    LocksKeep(p.entries, p.tasks, me, t);
    RuntimesKeep(p.owner, p.nextRuntime, p.stopped, p.entries, p.entries, p.tasks, me, t);
    SlotsKeep(p.home, p.entries, p.tasks, p.nextEntry, me, t);
    TasksKeep(p.tasks, p.home, p.state.generation, p.retired, p.replacements, me, t);
  }

  lemma StartStep(p: Pool, me: TaskId, t: Task)
    requires PoolValid(p) && me in p.tasks
    requires (p.tasks[me].Starting? && t == Started(p.tasks[me].pool, p.nextRuntime))
          || (p.tasks[me].LazyStarting? && t == LazyStarted(p.tasks[me].entry, p.nextRuntime, p.tasks[me].lazy))
    ensures PoolValid(To(StartRuntime(p, me), me, t))
  {
    hide GenerationsValid, HomesValid, LocksValid, RuntimesValid, SlotsValid, TasksValid;
    TaskFacts(p, me);
    GenerationsKeep(p.state.generation, p.nextGeneration, p.retired, p.tasks, me, t);
    HomesKeep(p.home, p.state, p.tasks, me, t);
    LocksKeep(p.entries, p.tasks, me, t);
    RuntimesStart(p.owner, p.nextRuntime, p.stopped, p.entries, p.tasks, me, t);
    SlotsKeep(p.home, p.entries, p.tasks, p.nextEntry, me, t);
    TasksKeep(p.tasks, p.home, p.state.generation, p.retired, p.replacements, me, t);
  }

  lemma FailedStartStep(p: Pool, me: TaskId)
    requires PoolValid(p) && me in p.tasks && p.tasks[me].Starting?
    ensures PoolValid(Move(p, p.tasks[me], StartReturns(me, false)))
  {
    hide GenerationsValid, HomesValid, LocksValid, RuntimesValid, SlotsValid, TasksValid;
    var t := Done(Failed(StartFailed));
    PreparedFacts(p.home, p.state, p.tasks, me);
    GenerationsKeep(p.state.generation, p.nextGeneration, p.retired, p.tasks, me, t);
    HomesAbandon(p.home, p.state, p.tasks, me, t);
    LocksKeep(p.entries, p.tasks, me, t);
    RuntimesKeep(p.owner, p.nextRuntime, p.stopped, p.entries, p.entries, p.tasks, me, t);
    SlotsAbandon(p.home, p.entries, p.tasks, p.nextEntry, me, t);
    TasksRehome(p.tasks, p.home, Abandon(p.home, me), p.state.generation, p.retired, p.replacements);
    TasksKeep(p.tasks, Abandon(p.home, me), p.state.generation, p.retired, p.replacements, me, t);
  }

  lemma StoreStep(p: Pool, me: TaskId)
    requires PoolValid(p) && me in p.tasks && p.tasks[me].Started?
    requires p.tasks[me].pool.defaultNode in p.tasks[me].pool.nodes
    ensures PoolValid(Move(p, p.tasks[me], Store(me)))
  {
    hide GenerationsValid, HomesValid, LocksValid, RuntimesValid, SlotsValid, TasksValid;
    var pool, r := p.tasks[me].pool, p.tasks[me].runtime;
    var t, e := Stored(pool), pool.nodes[pool.defaultNode];
    ClaimFacts(p.home, p.state, p.tasks, me, e);
    SlotFacts(p.home, p.entries, p.tasks, p.nextEntry, e);
    GenerationsKeep(p.state.generation, p.nextGeneration, p.retired, p.tasks, me, t);
    HomesKeep(p.home, p.state, p.tasks, me, t);
    LocksStore(p.entries, p.tasks, me, t, e, Some(r));
    RuntimesStore(p.owner, p.nextRuntime, p.stopped, p.entries, p.tasks, me, t, e, r);
    SlotsChange(p.home, p.entries, p.tasks, p.nextEntry, me, t, e, Entry(Some(r), None));
    TasksKeep(p.tasks, p.home, p.state.generation, p.retired, p.replacements, me, t);
  }

  lemma DrawStep(p: Pool, me: TaskId)
    requires PoolValid(p) && me in p.tasks && p.tasks[me].Stored?
    requires p.tasks[me].pool.defaultNode in p.tasks[me].pool.nodes
    ensures PoolValid(Move(p, p.tasks[me], Draw(me)))
  {
    hide GenerationsValid, HomesValid, LocksValid, RuntimesValid, SlotsValid, TasksValid;
    var t := Numbered(p.tasks[me].pool.(generation := p.nextGeneration));
    GenerationsKeep(p.state.generation, p.nextGeneration, p.retired, p.tasks, me, t);
    HomesKeep(p.home, p.state, p.tasks, me, t);
    LocksKeep(p.entries, p.tasks, me, t);
    RuntimesKeep(p.owner, p.nextRuntime, p.stopped, p.entries, p.entries, p.tasks, me, t);
    SlotsKeep(p.home, p.entries, p.tasks, p.nextEntry, me, t);
    TasksKeep(p.tasks, p.home, p.state.generation, p.retired, p.replacements, me, t);
  }

  /** The write lock: an activation installs what it prepared, a stop installs nothing. */
  lemma ReplaceStep(p: Pool, me: TaskId, step: Step)
    requires PoolValid(p) && me in p.tasks && step.task == me
    requires (p.tasks[me].Numbered? && step.Replace?) || (p.tasks[me].StopWaiting? && step.ReplaceByStop?)
    requires Prepared(p.tasks[me]).Some? ==>
      Prepared(p.tasks[me]).value.defaultNode in Prepared(p.tasks[me]).value.nodes
    ensures PoolValid(Move(p, p.tasks[me], step))
  {
    hide GenerationsValid, HomesValid, LocksValid, RuntimesValid, SlotsValid, TasksValid;
    var next := if p.tasks[me].Numbered? then p.tasks[me].pool
                else EmptyState.(generation := p.nextGeneration);
    var t := Draining(p.state.nodes.Values,
                      if p.tasks[me].Numbered? then Activated(next.generation) else PoolStopped);
    GenerationFacts(p, me);
    if p.tasks[me].Numbered? {
      PreparedFacts(p.home, p.state, p.tasks, me);
    }
    GenerationsReplace(p.state.generation, p.nextGeneration, p.retired, p.tasks, me, t, next.generation);
    HomesReplace(p.home, p.state, next, p.tasks, me, t);
    LocksKeep(p.entries, p.tasks, me, t);
    RuntimesKeep(p.owner, p.nextRuntime, p.stopped, p.entries, p.entries, p.tasks, me, t);
    SlotsReplace(p.home, p.entries, p.tasks, p.nextEntry, me, t);
    TasksReplace(p.tasks, p.home, p.state.generation, p.retired, p.replacements, me, next.generation);
    TasksKeep(p.tasks, HandOver(p.home, me), next.generation, p.retired + {p.state.generation},
              p.replacements + 1, me, t);
  }

  lemma DrainLockStep(p: Pool, me: TaskId, e: EntryId)
    requires PoolValid(p) && me in p.tasks && p.tasks[me].Draining?
    requires e in p.tasks[me].rest && Unlocked(p, e)
    ensures PoolValid(Move(p, p.tasks[me], DrainLock(me, e)))
  {
    hide GenerationsValid, HomesValid, LocksValid, RuntimesValid, SlotsValid, TasksValid;
    var rest, outcome, slot := p.tasks[me].rest, p.tasks[me].outcome, p.entries[e].runtime;
    var t := if slot.None? then Draining(rest - {e}, outcome)
             else DrainStopping(e, slot.value, rest - {e}, outcome);
    var home := p.home[e := Visited];
    TaskFacts(p, me);
    ClaimFacts(p.home, p.state, p.tasks, me, e);
    GenerationsKeep(p.state.generation, p.nextGeneration, p.retired, p.tasks, me, t);
    HomesVisit(p.home, p.state, p.tasks, me, t, e);
    if slot.None? {
      LocksKeep(p.entries, p.tasks, me, t);
      RuntimesKeep(p.owner, p.nextRuntime, p.stopped, p.entries, p.entries, p.tasks, me, t);
      SlotsVisit(p.home, p.entries, p.tasks, p.nextEntry, me, t, e, None);
      assert p.entries[e := Entry(None, None)] == p.entries;
    } else {
      LocksTake(p.entries, p.tasks, me, t, e);
      RuntimesTake(p.owner, p.nextRuntime, p.stopped, p.entries, p.tasks, me, t, e, slot.value);
      SlotsVisit(p.home, p.entries, p.tasks, p.nextEntry, me, t, e, Some(me));
    }
    ConfirmedIsLocked(p, e);
    TasksRehome(p.tasks, p.home, home, p.state.generation, p.retired, p.replacements);
    TasksKeep(p.tasks, home, p.state.generation, p.retired, p.replacements, me, t);
  }

  /** No lazy start is about to publish into an entry nobody has locked. */
  lemma ConfirmedIsLocked(p: Pool, e: EntryId)
    requires LocksValid(p.entries, p.tasks) && Unlocked(p, e)
    ensures forall a <- p.tasks | p.tasks[a].LazyConfirmed? :: p.tasks[a].entry != e
  {
  }

  /** The holder of an entry's lock stops the runtime it took or discards, and lets go. */
  lemma StopStep(p: Pool, me: TaskId, t: Task, e: EntryId, r: RuntimeId)
    requires PoolValid(p) && me in p.tasks
    requires (p.tasks[me].DrainStopping? && t == Draining(p.tasks[me].rest, p.tasks[me].outcome))
          || (p.tasks[me].LazyDiscarding? && t == Done(Failed(Superseded)))
    requires LockOf(p.tasks[me]) == Some(e) && Held(p.tasks[me]) == Some(r) && e in p.entries
    ensures PoolValid(To(SetSlot(StopRuntime(p, r), e, None, None), me, t))
  {
    hide GenerationsValid, HomesValid, LocksValid, RuntimesValid, SlotsValid, TasksValid;
    TaskFacts(p, me);
    LockFacts(p.entries, p.tasks, me);
    SlotFacts(p.home, p.entries, p.tasks, p.nextEntry, e);
    GenerationsKeep(p.state.generation, p.nextGeneration, p.retired, p.tasks, me, t);
    HomesKeep(p.home, p.state, p.tasks, me, t);
    LocksRelease(p.entries, p.tasks, me, t, e, None);
    RuntimesStop(p.owner, p.nextRuntime, p.stopped, p.entries, p.tasks, me, t, e, r);
    SlotsChange(p.home, p.entries, p.tasks, p.nextEntry, me, t, e, Entry(None, None));
    TasksKeep(p.tasks, p.home, p.state.generation, p.retired, p.replacements, me, t);
  }

  /** Locking an empty slot, or giving the lock back after a failed start. */
  lemma LazyLockStep(p: Pool, me: TaskId, t: Task, e: EntryId)
    requires PoolValid(p) && me in p.tasks && e in p.entries && p.entries[e].runtime.None?
    requires (p.tasks[me].LazyResolved? && p.entries[e].lock.None? && p.tasks[me].entry == e
              && t == LazyStarting(e, p.tasks[me].lazy))
          || (p.tasks[me].LazyStarting? && p.tasks[me].entry == e && t == Done(Failed(StartFailed)))
    ensures PoolValid(To(SetSlot(p, e, None, if t.LazyStarting? then Some(me) else None), me, t))
  {
    hide GenerationsValid, HomesValid, LocksValid, RuntimesValid, SlotsValid, TasksValid;
    var entry := Entry(None, if t.LazyStarting? then Some(me) else None);
    TaskFacts(p, me);
    SlotFacts(p.home, p.entries, p.tasks, p.nextEntry, e);
    GenerationsKeep(p.state.generation, p.nextGeneration, p.retired, p.tasks, me, t);
    HomesKeep(p.home, p.state, p.tasks, me, t);
    if t.LazyStarting? {
      LocksTake(p.entries, p.tasks, me, t, e);
    } else {
      LocksRelease(p.entries, p.tasks, me, t, e, None);
    }
    RuntimesKeep(p.owner, p.nextRuntime, p.stopped, p.entries, p.entries[e := entry], p.tasks, me, t);
    SlotsChange(p.home, p.entries, p.tasks, p.nextEntry, me, t, e, entry);
    TasksKeep(p.tasks, p.home, p.state.generation, p.retired, p.replacements, me, t);
  }

  lemma PublishStep(p: Pool, me: TaskId)
    requires PoolValid(p) && me in p.tasks && p.tasks[me].LazyConfirmed? && p.tasks[me].entry in p.entries
    ensures PoolValid(Move(p, p.tasks[me], Publish(me)))
  {
    hide GenerationsValid, HomesValid, LocksValid, RuntimesValid, SlotsValid, TasksValid;
    var e, r, lazy := p.tasks[me].entry, p.tasks[me].runtime, p.tasks[me].lazy;
    var t := if lazy.stream then StreamOpening(r, lazy) else Done(GotRuntime(r));
    TaskFacts(p, me);
    LockFacts(p.entries, p.tasks, me);
    SlotFacts(p.home, p.entries, p.tasks, p.nextEntry, e);
    GenerationsKeep(p.state.generation, p.nextGeneration, p.retired, p.tasks, me, t);
    HomesKeep(p.home, p.state, p.tasks, me, t);
    LocksRelease(p.entries, p.tasks, me, t, e, Some(r));
    RuntimesStore(p.owner, p.nextRuntime, p.stopped, p.entries, p.tasks, me, t, e, r);
    SlotsChange(p.home, p.entries, p.tasks, p.nextEntry, me, t, e, Entry(Some(r), None));
    TasksKeep(p.tasks, p.home, p.state.generation, p.retired, p.replacements, me, t);
  }

  lemma AcceptStep(p: Pool, step: Step)
    requires PoolValid(p) && step.Accept? && Enabled(p, step)
    ensures PoolValid(Call(p, step))
  {
    hide GenerationsValid, HomesValid, LocksValid, RuntimesValid, SlotsValid, TasksValid, Describes, NamesNode;
    var me, pool := step.task, step.pool;
    var t, later := Starting(pool), p.nextEntry + |step.nodes|;
    var home := p.home + (map e <- pool.nodes.Values :: Private(me));
    var entries := p.entries + (map e <- pool.nodes.Values :: Entry(None, None));
    DescribedPool(pool, step.nodes, p.nextEntry, step.defaultNode);
    KnownEntries(p, me);
    GenerationsKeep(p.state.generation, p.nextGeneration, p.retired, p.tasks, me, t);
    HomesAccept(p.home, p.state, p.tasks, me, pool);
    LocksAccept(p.entries, p.tasks, me, pool);
    RuntimesKeep(p.owner, p.nextRuntime, p.stopped, p.entries, entries, p.tasks, me, t);
    SlotsAccept(p.home, p.entries, p.tasks, p.nextEntry, later, me, pool);
    TasksRehome(p.tasks, p.home, home, p.state.generation, p.retired, p.replacements);
    TasksKeep(p.tasks, home, p.state.generation, p.retired, p.replacements, me, t);
  }

  lemma LocksAccept(entries: Entries, tasks: Tasks, me: TaskId, pool: PoolState)
    requires LocksValid(entries, tasks) && me !in tasks && pool.nodes.Values !! entries.Keys
    ensures LocksValid(entries + (map e <- pool.nodes.Values :: Entry(None, None)), tasks[me := Starting(pool)])
  {
  }

  lemma KnownEntries(p: Pool, me: TaskId)
    requires HomesValid(p.home, p.state, p.tasks) && me !in p.tasks
    requires SlotsValid(p.home, p.entries, p.tasks, p.nextEntry)
    ensures p.home.Keys == p.entries.Keys && forall e <- p.home :: e < p.nextEntry
    ensures forall e <- p.home | p.home[e].Private? :: p.home[e].task != me
  {
  }

  /** A prepared profile gives each node its own entry, all of them new. */
  lemma DescribedPool(pool: PoolState, nodes: seq<ResolvedNode>, first: EntryId, reference: string)
    requires nodes != [] && Describes(pool.nodes, pool.aliases, nodes, first)
    requires NamesNode(nodes, reference, pool.defaultNode)
    ensures PoolWellFormed(pool) && pool.nodes != map[]
    ensures forall e <- pool.nodes.Values :: first <= e < first + |nodes|
  {
    var ids := Ids(nodes);
    forall a, b | a in pool.nodes && b in pool.nodes && a != b ensures pool.nodes[a] != pool.nodes[b] {
      var i, j :| 0 <= i < |ids| && 0 <= j < |ids| && ids[i] == a && ids[j] == b;
    }
    forall e <- pool.nodes.Values ensures first <= e < first + |nodes| {
      var a :| a in pool.nodes && pool.nodes[a] == e;
      var i :| 0 <= i < |ids| && ids[i] == a;
    }
    assert ids[0] in pool.nodes;
    if reference !in ids {
      var i :| 0 <= i < |nodes| && nodes[i].alias == reference && nodes[i].id == pool.defaultNode;
      assert ids[i] == pool.defaultNode;
    }
  }

  // ---------------------------------------------------------------- every interleaving

  /** What a step needs to be defined always holds when it is enabled. */
  lemma StepDefined(p: Pool, me: TaskId)
    requires PoolValid(p) && me in p.tasks
    ensures LockOf(p.tasks[me]).Some? ==> LockOf(p.tasks[me]).value in p.entries
    ensures Prepared(p.tasks[me]).Some? ==>
      Prepared(p.tasks[me]).value.defaultNode in Prepared(p.tasks[me]).value.nodes
  {
    hide GenerationsValid, HomesValid, LocksValid, RuntimesValid, SlotsValid, TasksValid;
    if LockOf(p.tasks[me]).Some? {
      LockFacts(p.entries, p.tasks, me);
    }
    if Prepared(p.tasks[me]).Some? {
      PreparedFacts(p.home, p.state, p.tasks, me);
    }
  }

  lemma LazyMoves(p: Pool, step: Step)
    requires PoolValid(p) && step.task in p.tasks && CanMove(p, p.tasks[step.task], step)
    requires LazyOf(p.tasks[step.task]).Some? || p.tasks[step.task].LazyReady?
    requires LockOf(p.tasks[step.task]).Some? ==> LockOf(p.tasks[step.task]).value in p.entries
    ensures PoolValid(Move(p, p.tasks[step.task], step))
  {
    hide PoolValid;
    var me := step.task;
    StepIsLegal(p, me);
    match p.tasks[me]
    case LazyResolved(entry, lazy) =>
      if p.entries[entry].runtime.Some? {
        QuietMove(p, step);
      } else {
        LazyLockStep(p, me, LazyStarting(entry, lazy), entry);
      }
    case LazyStarting(entry, lazy) =>
      if step.ok {
        StartStep(p, me, LazyStarted(entry, p.nextRuntime, lazy));
      } else {
        LazyLockStep(p, me, Done(Failed(StartFailed)), entry);
      }
    case LazyConfirmed(_, _, _) => PublishStep(p, me);
    case LazyDiscarding(entry, runtime, _) => StopStep(p, me, Done(Failed(Superseded)), entry, runtime);
    case _ => QuietMove(p, step);
  }

  /** Reading a generation, resolving a reference, or being handed a runtime that already runs. */
  lemma QuietMove(p: Pool, step: Step)
    requires PoolValid(p) && step.task in p.tasks && CanMove(p, p.tasks[step.task], step)
    requires var t := p.tasks[step.task];
      || t.LazyReady? || t.LazyRead? || t.LazyStarted? || t.StreamOpening? || t.StreamOpened?
      || (t.LazyResolved? && p.entries[t.entry].runtime.Some?)
    requires LockOf(p.tasks[step.task]).Some? ==> LockOf(p.tasks[step.task]).value in p.entries
    ensures PoolValid(Move(p, p.tasks[step.task], step))
  {
    hide PoolValid;
    var me := step.task;
    StepIsLegal(p, me);
    if p.tasks[me].LazyRead? {
      ResolvedFacts(p, p.tasks[me].lazy.reference);
    }
    QuietStep(p, me, Move(p, p.tasks[me], step).tasks[me]);
  }

  lemma StepIsLegal(p: Pool, me: TaskId)
    requires PoolValid(p) && me in p.tasks
    ensures TaskValid(p.tasks[me], p.home, p.state.generation, p.retired, p.replacements)
    ensures LockOf(p.tasks[me]).Some? && LockOf(p.tasks[me]).value in p.entries ==>
      p.entries[LockOf(p.tasks[me]).value] == Entry(None, Some(me))
  {
    hide GenerationsValid, HomesValid, LocksValid, RuntimesValid, SlotsValid, TasksValid;
    TaskFacts(p, me);
    if LockOf(p.tasks[me]).Some? {
      LockFacts(p.entries, p.tasks, me);
    }
  }

  lemma OwnerMoves(p: Pool, step: Step)
    requires PoolValid(p) && step.task in p.tasks && CanMove(p, p.tasks[step.task], step)
    requires LazyOf(p.tasks[step.task]).None? && !p.tasks[step.task].LazyReady?
    requires LockOf(p.tasks[step.task]).Some? ==> LockOf(p.tasks[step.task]).value in p.entries
    requires Prepared(p.tasks[step.task]).Some? ==>
      Prepared(p.tasks[step.task]).value.defaultNode in Prepared(p.tasks[step.task]).value.nodes
    ensures PoolValid(Move(p, p.tasks[step.task], step))
  {
    hide PoolValid;
    var me := step.task;
    match p.tasks[me]
    case Starting(pool) =>
      if step.ok {
        StartStep(p, me, Started(pool, p.nextRuntime));
      } else {
        FailedStartStep(p, me);
      }
    case Started(_, _) => StoreStep(p, me);
    case Stored(_) => DrawStep(p, me);
    case Numbered(_) => ReplaceStep(p, me, step);
    case StopWaiting => ReplaceStep(p, me, step);
    case Draining(rest, outcome) =>
      if rest == {} {
        FinishedDrain(p, me, outcome);
      } else {
        DrainLockStep(p, me, step.entry);
      }
    case DrainStopping(entry, runtime, rest, outcome) =>
      StopStep(p, me, Draining(rest, outcome), entry, runtime);
    case Done(_) =>
  }

  lemma FinishedDrain(p: Pool, me: TaskId, outcome: Outcome)
    requires PoolValid(p) && me in p.tasks && p.tasks[me] == Draining({}, outcome)
    ensures PoolValid(To(p, me, Done(outcome)))
  {
    StepIsLegal(p, me);
    QuietStep(p, me, Done(outcome));
  }

  lemma TakeValid(p: Pool, step: Step)
    requires PoolValid(p)
    ensures PoolValid(Take(p, step))
  {
    hide PoolValid, Move, CanMove;
    if Enabled(p, step) {
      if step.Accept? {
        AcceptStep(p, step);
      } else if step.CallStop? {
        QuietCall(p, step.task, StopWaiting);
      } else if step.CallLazy? {
        QuietCall(p, step.task, LazyReady(step.reference, step.stream));
      } else {
        StepDefined(p, step.task);
        if LazyOf(p.tasks[step.task]).Some? || p.tasks[step.task].LazyReady? {
          LazyMoves(p, step);
        } else {
          OwnerMoves(p, step);
        }
      }
    }
  }

  lemma {:induction false} RunValid(p: Pool, steps: seq<Step>)
    requires PoolValid(p)
    ensures PoolValid(Run(p, steps))
    decreases |steps|
  {
    hide PoolValid;
    if steps != [] {
      TakeValid(p, steps[0]);
      RunValid(Take(p, steps[0]), steps[1..]);
    }
  }

  // ---------------------------------------------------------------- main results

  lemma NewPoolValid()
    ensures PoolValid(NewPool)
  {
  }

  ghost predicate StoredIn(p: Pool, e: EntryId, r: RuntimeId) {
    e in p.entries && p.entries[e].runtime == Some(r)
  }

  /** Stored under a node of the visible profile. */
  ghost predicate InCurrentNode(p: Pool, r: RuntimeId) {
    exists id <- p.state.nodes :: StoredIn(p, p.state.nodes[id], r)
  }

  /** Stored in an entry some unfinished operation prepared, or has yet to drain. */
  ghost predicate InClaimedEntry(p: Pool, r: RuntimeId) {
    exists a <- p.tasks :: exists e <- Claims(p.tasks[a]) :: StoredIn(p, e, r)
  }

  ghost predicate HeldByTask(p: Pool, r: RuntimeId) {
    exists a <- p.tasks :: Held(p.tasks[a]) == Some(r)
  }

  lemma StoredIsClaimed(p: Pool, e: EntryId, r: RuntimeId)
    requires HomesValid(p.home, p.state, p.tasks)
    requires SlotsValid(p.home, p.entries, p.tasks, p.nextEntry) && StoredIn(p, e, r)
    ensures InCurrentNode(p, r) || InClaimedEntry(p, r)
  {
    match p.home[e]
    case CurrentHome =>
      assert e in p.state.nodes.Values;
      var id :| id in p.state.nodes && p.state.nodes[id] == e;
    case Private(a) => assert e in Claims(p.tasks[a]);
    case Replaced(a) => assert e in Claims(p.tasks[a]);
    case Visited =>
  }

  /**
   * Ownership under every interleaving: each runtime that was ever started is
   * stopped, stored in the visible profile, stored in an entry an unfinished
   * operation still answers for, or held by an operation; these exclude each
   * other, and it is never stored twice or held twice.
   */
  lemma EveryRuntimeHasOneOwner(steps: seq<Step>, r: RuntimeId)
    requires r < Run(NewPool, steps).nextRuntime
    ensures var p := Run(NewPool, steps);
      && (r in p.stopped || InCurrentNode(p, r) || InClaimedEntry(p, r) || HeldByTask(p, r))
      && (r in p.stopped ==> !InCurrentNode(p, r) && !InClaimedEntry(p, r) && !HeldByTask(p, r))
      && (HeldByTask(p, r) ==> !InCurrentNode(p, r) && !InClaimedEntry(p, r))
      && (forall e, f | StoredIn(p, e, r) && StoredIn(p, f, r) :: e == f)
      && (forall a, b | a in p.tasks && b in p.tasks
            && Held(p.tasks[a]) == Some(r) && Held(p.tasks[b]) == Some(r) :: a == b)
  {
    var p := Run(NewPool, steps);
    NewPoolValid();
    RunValid(NewPool, steps);
    hide GenerationsValid, HomesValid, LocksValid, SlotsValid, TasksValid;
    if p.owner[r].InSlot? {
      StoredIsClaimed(p, p.owner[r].entry, r);
    }
  }

  /** Once every operation has returned, whatever still runs belongs to the visible profile. */
  lemma QuietPoolOwnsOnlyItsNodes(steps: seq<Step>, r: RuntimeId)
    requires r < Run(NewPool, steps).nextRuntime
    requires forall a <- Run(NewPool, steps).tasks :: Run(NewPool, steps).tasks[a].Done?
    ensures var p := Run(NewPool, steps);
      && (r !in p.stopped <==> InCurrentNode(p, r))
      && (forall a, b | a in p.state.nodes && b in p.state.nodes
            && StoredIn(p, p.state.nodes[a], r) && StoredIn(p, p.state.nodes[b], r) :: a == b)
  {
    hide GenerationsValid, HomesValid, LocksValid, RuntimesValid, SlotsValid, TasksValid, InCurrentNode;
    var p := Run(NewPool, steps);
    EveryRuntimeHasOneOwner(steps, r);
    NewPoolValid();
    RunValid(NewPool, steps);
    CurrentNodesDiffer(p);
    assert forall a <- p.tasks :: Claims(p.tasks[a]) == {} && Held(p.tasks[a]).None?;
  }

  lemma CurrentNodesDiffer(p: Pool)
    requires PoolValid(p)
    ensures Injective(p.state.nodes)
  {
  }

  /** A stream is handed out only if the profile was not replaced between its two reads. */
  lemma StreamsSawNoReplacement(steps: seq<Step>, a: TaskId)
    requires a in Run(NewPool, steps).tasks
    requires Run(NewPool, steps).tasks[a].Done? && Run(NewPool, steps).tasks[a].outcome.GotStream?
    ensures var outcome := Run(NewPool, steps).tasks[a].outcome;
      outcome.readAt == outcome.checkedAt
  {
    NewPoolValid();
    RunValid(NewPool, steps);
    TaskFacts(Run(NewPool, steps), a);
  }

  lemma TakeMoves(p: Pool, step: Step)
    ensures var q := Take(p, step);
      && p.retired <= q.retired
      && ((q.state == p.state && q.replacements == p.replacements)
          || p.state.generation in q.retired)
  {
    hide Move, CanMove, WellNamed, Describes, NamesNode;
    if Enabled(p, step) && !step.Accept? && !step.CallStop? && !step.CallLazy? {
      var t := p.tasks[step.task];
      if (LockOf(t).Some? ==> LockOf(t).value in p.entries)
         && (Prepared(t).Some? ==> Prepared(t).value.defaultNode in Prepared(t).value.nodes) {
        MoveRetires(p, t, step);
      }
    }
  }

  lemma MoveRetires(p: Pool, t: Task, step: Step)
    requires CanMove(p, t, step)
    requires LockOf(t).Some? ==> LockOf(t).value in p.entries
    requires Prepared(t).Some? ==> Prepared(t).value.defaultNode in Prepared(t).value.nodes
    ensures var q := Move(p, t, step);
      && p.retired <= q.retired
      && ((q.state == p.state && q.replacements == p.replacements)
          || p.state.generation in q.retired)
  {
  }

  lemma {:induction false} RetiredForGood(p: Pool, steps: seq<Step>)
    ensures p.retired <= Run(p, steps).retired
    decreases |steps|
  {
    if steps != [] {
      TakeMoves(p, steps[0]);
      RetiredForGood(Take(p, steps[0]), steps[1..]);
    }
  }

  /** A generation, once replaced, is never visible again: equal reads mean an unchanged profile. */
  lemma {:induction false} GenerationIdentifiesProfile(p: Pool, steps: seq<Step>)
    requires PoolValid(p)
    requires Run(p, steps).state.generation == p.state.generation
    ensures Run(p, steps).state == p.state && Run(p, steps).replacements == p.replacements
    decreases |steps|
  {
    if steps != [] {
      var q := Take(p, steps[0]);
      TakeValid(p, steps[0]);
      TakeMoves(p, steps[0]);
      RunValid(q, steps[1..]);
      if p.state.generation in q.retired {
        RetiredForGood(q, steps[1..]);
        GenerationFactsOf(Run(p, steps));
      } else {
        GenerationIdentifiesProfile(q, steps[1..]);
      }
    }
  }

  lemma GenerationFactsOf(p: Pool)
    requires PoolValid(p)
    ensures p.state.generation !in p.retired
  {
  }

  /** The step that resumes a task which is not waiting for an entry's lock. */
  function Resumption(a: TaskId, t: Task): Step {
    match t
    case Starting(_) => StartReturns(a, true)
    case Started(_, _) => Store(a)
    case Stored(_) => Draw(a)
    case Numbered(_) => Replace(a)
    case StopWaiting => ReplaceByStop(a)
    case Draining(_, _) => DrainDone(a)
    case DrainStopping(_, _, _, _) => DrainStopped(a)
    case LazyReady(_, _) => ReadGeneration(a)
    case LazyRead(_) => Resolve(a)
    case LazyResolved(_, _) => LockEntry(a)
    case LazyStarting(_, _) => StartReturns(a, true)
    case LazyStarted(_, _, _) => CheckGeneration(a)
    case LazyConfirmed(_, _, _) => Publish(a)
    case LazyDiscarding(_, _, _) => Discard(a)
    case StreamOpening(_, _) => StreamReturns(a, true)
    case StreamOpened(_) => RecheckGeneration(a)
    case Done(_) => DrainDone(a)
  }

  /** The pool cannot deadlock: an unfinished task can move, or the lock it waits for can. */
  lemma NoDeadlock(p: Pool, a: TaskId)
    requires PoolValid(p) && a in p.tasks && !p.tasks[a].Done?
    ensures exists step: Step :: step.task in p.tasks && Enabled(p, step)
  {
    hide PoolValid;
    var t := p.tasks[a];
    var wanted: Option<EntryId> :=
      if t.LazyResolved? then Some(t.entry)
      else if t.Draining? && t.rest != {} then var e :| e in t.rest; Some(e)
      else None;
    if wanted.None? {
      assert Enabled(p, Resumption(a, t));
    } else {
      WantedIsKnown(p, a, wanted.value);
      var entry := p.entries[wanted.value];
      if entry.lock.None? {
        assert Enabled(p, if t.Draining? then DrainLock(a, wanted.value) else LockEntry(a));
      } else {
        var holder := entry.lock.value;
        HolderMoves(p, wanted.value);
        assert Enabled(p, Resumption(holder, p.tasks[holder]));
      }
    }
  }

  lemma WantedIsKnown(p: Pool, a: TaskId, e: EntryId)
    requires PoolValid(p) && a in p.tasks
    requires (p.tasks[a].LazyResolved? && p.tasks[a].entry == e)
          || (p.tasks[a].Draining? && e in p.tasks[a].rest)
    ensures e in p.entries
  {
    hide GenerationsValid, HomesValid, LocksValid, RuntimesValid, SlotsValid, TasksValid;
    TaskFacts(p, a);
    if p.tasks[a].Draining? {
      ClaimFacts(p.home, p.state, p.tasks, a, e);
    }
    SlotFacts(p.home, p.entries, p.tasks, p.nextEntry, e);
  }

  lemma HolderMoves(p: Pool, e: EntryId)
    requires PoolValid(p) && e in p.entries && p.entries[e].lock.Some?
    ensures var holder := p.entries[e].lock.value;
      holder in p.tasks && CanMove(p, p.tasks[holder], Resumption(holder, p.tasks[holder]))
  {
    hide GenerationsValid, HomesValid, RuntimesValid, SlotsValid, TasksValid;
  }
}
