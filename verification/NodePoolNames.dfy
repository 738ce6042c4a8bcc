/**
 * What callers of the pool get.  An observer watches a run from outside: who
 * asked for what, which profile was visible when, and for which node each
 * runtime was started.  Its notes are then compared with the answers.
 */
module NodePoolNames {
  import opened Common
  import opened NodePool
  import opened NodePoolSteps

  /** What an activation was called with, and the first of the entries it allocated. */
  datatype Profile = Profile(nodes: seq<ResolvedNode>, defaultNode: string, first: EntryId)

  datatype Asked = Asked(reference: string, stream: bool)

  datatype Notes = Notes(
    profiles: map<TaskId, Profile>,          // what each activation was given
    asked: map<TaskId, Asked>,               // what each lazy start or stream open asked for
    shown: Option<TaskId>,                   // whose profile is visible; none when stopped
    seen: map<TaskId, Option<TaskId>>,       // whose profile was visible at a task's first read
    readAt: map<TaskId, nat>,                // how many replacements there had been by then
    origin: map<RuntimeId, EntryId>,         // the entry each runtime was started for
    openedOn: map<TaskId, RuntimeId>,          // the runtime each stream was opened on
    installed: map<nat, TaskId>)             // the activation that made a generation visible

  datatype Watched = Watched(pool: Pool, notes: Notes)

  const NoNotes := Notes(map[], map[], None, map[], map[], map[], map[], map[])

  /** The entry a start is for: the profile's default, or the one a lazy start has locked. */
  function StartsFor(t: Task): Option<EntryId> {
    match t
    case Starting(pool) => if pool.defaultNode in pool.nodes then Some(pool.nodes[pool.defaultNode]) else None
    case LazyStarting(entry, _) => Some(entry)
    case _ => None
  }

  ghost function Observe(p: Pool, step: Step, n: Notes): Notes {
    if !Enabled(p, step) then n
    else
      match step
      case Accept(a, nodes, defaultNode, _) =>
        n.(profiles := n.profiles[a := Profile(nodes, defaultNode, p.nextEntry)])
      case CallLazy(a, reference, stream) => n.(asked := n.asked[a := Asked(reference, stream)])
      case ReadGeneration(a) => n.(seen := n.seen[a := n.shown], readAt := n.readAt[a := p.replacements])
      case Replace(a) => n.(shown := Some(a), installed := n.installed[Take(p, step).state.generation := a])
      case ReplaceByStop(_) => n.(shown := None)
      case StartReturns(a, ok) =>
        var entry := StartsFor(p.tasks[a]);
        if ok && entry.Some? then n.(origin := n.origin[p.nextRuntime := entry.value]) else n
      case StreamReturns(a, ok) =>
        if p.tasks[a].StreamOpening? then n.(openedOn := n.openedOn[a := p.tasks[a].runtime]) else n
      case _ => n
  }

  ghost function Watch(w: Watched, steps: seq<Step>): Watched
    decreases |steps|
  {
    if steps == [] then w
    else Watch(Watched(Take(w.pool, steps[0]), Observe(w.pool, steps[0], w.notes)), steps[1..])
  }

  lemma {:induction false} WatchingIsRunning(w: Watched, steps: seq<Step>)
    ensures Watch(w, steps).pool == Run(w.pool, steps)
    decreases |steps|
  {
    hide Take, Observe;
    if steps != [] {
      WatchingIsRunning(Watched(Take(w.pool, steps[0]), Observe(w.pool, steps[0], w.notes)), steps[1..]);
    }
  }

  // ---------------------------------------------------------------- names

  /** Node `i` is the one called `name`: by its id, or by its alias if no id is that name. */
  ghost predicate Called(nodes: seq<ResolvedNode>, name: string, i: nat) {
    && i < |nodes|
    && (nodes[i].id == name
        || (nodes[i].alias == name && forall j | 0 <= j < |nodes| :: nodes[j].id != name))
  }

  /** The node a reference means in a profile; "PROXY" means the default. */
  ghost predicate Selects(profile: Profile, reference: string, i: nat) {
    Called(profile.nodes, if reference == "PROXY" then profile.defaultNode else reference, i)
  }

  /** The visible state is what the activation was called with. */
  ghost predicate Fits(pool: PoolState, profile: Profile) {
    && WellNamed(profile.nodes)
    && Describes(pool.nodes, pool.aliases, profile.nodes, profile.first)
    && NamesNode(profile.nodes, profile.defaultNode, pool.defaultNode)
  }

  lemma PositionOf(nodes: seq<ResolvedNode>, id: string)
    requires id in Ids(nodes)
    ensures exists i: nat :: i < |nodes| && nodes[i].id == id
  {
    var i :| 0 <= i < |nodes| && Ids(nodes)[i] == id;
    assert nodes[i].id == id;
  }

  lemma PositionOfAlias(nodes: seq<ResolvedNode>, alias: string)
    requires alias in Aliases(nodes)
    ensures exists i: nat :: i < |nodes| && nodes[i].alias == alias
  {
    var i :| 0 <= i < |nodes| && Aliases(nodes)[i] == alias;
    assert nodes[i].alias == alias;
  }

  /** At most one node is called by a name. */
  lemma CalledIsUnique(nodes: seq<ResolvedNode>, name: string, i: nat, j: nat)
    requires WellNamed(nodes) && Called(nodes, name, i) && Called(nodes, name, j)
    ensures i == j
  {
    NamesDiffer(nodes, i, j);
  }

  lemma NamesDiffer(nodes: seq<ResolvedNode>, i: nat, j: nat)
    requires WellNamed(nodes) && i < |nodes| && j < |nodes|
    ensures i != j ==> nodes[i].id != nodes[j].id && nodes[i].alias != nodes[j].alias
  {
    var ids, aliases := Ids(nodes), Aliases(nodes);
    assert ids[i] == nodes[i].id && ids[j] == nodes[j].id;
    assert aliases[i] == nodes[i].alias && aliases[j] == nodes[j].alias;
  }

  /** Node `i`'s own entry, found through the id index. */
  lemma EntryOfId(pool: PoolState, profile: Profile, i: nat)
    requires Fits(pool, profile) && i < |profile.nodes|
    ensures profile.nodes[i].id in pool.nodes && pool.nodes[profile.nodes[i].id] == profile.first + i
  {
    assert Ids(profile.nodes)[i] == profile.nodes[i].id;
    assert Consecutive(profile.first, |profile.nodes|)[i] == profile.first + i;
  }

  lemma IdOfAlias(pool: PoolState, profile: Profile, i: nat)
    requires Fits(pool, profile) && i < |profile.nodes|
    ensures profile.nodes[i].alias in pool.aliases && pool.aliases[profile.nodes[i].alias] == profile.nodes[i].id
  {
    assert Aliases(profile.nodes)[i] == profile.nodes[i].alias;
    assert Ids(profile.nodes)[i] == profile.nodes[i].id;
  }

  /** The default node that preparing settled on is the one the activation named. */
  lemma DefaultIsCalled(pool: PoolState, profile: Profile)
    requires Fits(pool, profile)
    ensures exists i: nat ::
      Called(profile.nodes, profile.defaultNode, i) && profile.nodes[i].id == pool.defaultNode
  {
    var nodes, name := profile.nodes, profile.defaultNode;
    if name in Ids(nodes) {
      PositionOf(nodes, name);
      var i: nat :| i < |nodes| && nodes[i].id == name;
      assert Called(nodes, name, i);
    } else {
      var i: nat :| i < |nodes| && nodes[i].alias == name && nodes[i].id == pool.defaultNode;
      NoSuchId(nodes, name);
      assert Called(nodes, name, i);
    }
  }

  lemma NoSuchId(nodes: seq<ResolvedNode>, name: string)
    requires name !in Ids(nodes)
    ensures forall j | 0 <= j < |nodes| :: nodes[j].id != name
  {
    forall j | 0 <= j < |nodes| ensures nodes[j].id != name {
      assert Ids(nodes)[j] == nodes[j].id;
    }
  }

  /** Looking a reference up in the visible state finds the node it means, or nothing if there is none. */
  lemma ResolvingSelects(pool: PoolState, profile: Profile, reference: string)
    requires Fits(pool, profile)
    ensures var found := ResolveReference(pool, reference);
      && (found.Some? <==> exists i: nat :: Selects(profile, reference, i))
      && (forall i: nat | Selects(profile, reference, i) :: found == Some(profile.first + i))
  {
    forall i: nat | Selects(profile, reference, i)
      ensures ResolveReference(pool, reference) == Some(profile.first + i)
    {
      SelectedIsFound(pool, profile, reference, i);
    }
    if ResolveReference(pool, reference).Some? {
      FoundIsSelected(pool, profile, reference);
    }
  }

  lemma SelectedIsFound(pool: PoolState, profile: Profile, reference: string, i: nat)
    requires Fits(pool, profile) && Selects(profile, reference, i)
    ensures ResolveReference(pool, reference) == Some(profile.first + i)
  {
    var nodes := profile.nodes;
    EntryOfId(pool, profile, i);
    IdOfAlias(pool, profile, i);
    if reference == "PROXY" {
      DefaultIsCalled(pool, profile);
      var k: nat :| Called(nodes, profile.defaultNode, k) && nodes[k].id == pool.defaultNode;
      CalledIsUnique(nodes, profile.defaultNode, i, k);
    } else if nodes[i].id != reference {
      OnlyIds(pool, profile, reference);
    }
  }

  lemma OnlyIds(pool: PoolState, profile: Profile, name: string)
    requires Fits(pool, profile) && forall j | 0 <= j < |profile.nodes| :: profile.nodes[j].id != name
    ensures name !in pool.nodes
  {
    if name in pool.nodes {
      PositionOf(profile.nodes, name);
    }
  }

  lemma FoundIsSelected(pool: PoolState, profile: Profile, reference: string)
    requires Fits(pool, profile) && ResolveReference(pool, reference).Some?
    ensures exists i: nat :: Selects(profile, reference, i)
  {
    var nodes := profile.nodes;
    if reference == "PROXY" {
      DefaultIsCalled(pool, profile);
      var i: nat :| Called(nodes, profile.defaultNode, i) && nodes[i].id == pool.defaultNode;
      assert Selects(profile, reference, i);
    } else if reference in pool.nodes {
      PositionOf(nodes, reference);
      var i: nat :| i < |nodes| && nodes[i].id == reference;
      assert Selects(profile, reference, i);
    } else {
      PositionOfAlias(nodes, reference);
      var i: nat :| i < |nodes| && nodes[i].alias == reference;
      forall j | 0 <= j < |nodes| ensures nodes[j].id != reference {
        assert Ids(nodes)[j] == nodes[j].id;
      }
      assert Selects(profile, reference, i);
    }
  }

  // ---------------------------------------------------------------- the notes agree with the answers

  /** The entry belongs to the node this task asked for, in the profile it saw. */
  ghost predicate Wanted(n: Notes, a: TaskId, e: EntryId) {
    && a in n.asked && a in n.seen && n.seen[a].Some? && n.seen[a].value in n.profiles
    && var profile := n.profiles[n.seen[a].value];
       exists i: nat :: Selects(profile, n.asked[a].reference, i) && e == profile.first + i
  }

  /** No node of the profile this task saw has the name it asked for. */
  ghost predicate Unnamed(n: Notes, a: TaskId) {
    && a in n.asked && a in n.seen
    && (n.seen[a].Some? ==>
          n.seen[a].value in n.profiles
          && forall i: nat :: !Selects(n.profiles[n.seen[a].value], n.asked[a].reference, i))
  }

  /** The runtime was started for the node this task asked for. */
  ghost predicate Served(n: Notes, a: TaskId, r: RuntimeId) {
    r in n.origin && Wanted(n, a, n.origin[r])
  }

  ghost predicate LazyNoted(n: Notes, a: TaskId, lazy: Lazy, generation: nat, replacements: nat) {
    && a in n.asked && n.asked[a] == Asked(lazy.reference, lazy.stream)
    && a in n.seen && (n.seen[a].Some? ==> n.seen[a].value in n.profiles)
    && a in n.readAt && n.readAt[a] <= replacements
    && (if lazy.generation == generation then n.seen[a] == n.shown else n.readAt[a] < replacements)
  }

  function TargetOf(t: Task): Option<EntryId> {
    match t
    case LazyResolved(entry, _) => Some(entry)
    case LazyStarting(entry, _) => Some(entry)
    case LazyStarted(entry, _, _) => Some(entry)
    case LazyConfirmed(entry, _, _) => Some(entry)
    case LazyDiscarding(entry, _, _) => Some(entry)
    case _ => None
  }

  function FreshRuntime(t: Task): Option<RuntimeId> {
    match t
    case LazyStarted(_, runtime, _) => Some(runtime)
    case LazyConfirmed(_, runtime, _) => Some(runtime)
    case LazyDiscarding(_, runtime, _) => Some(runtime)
    case _ => None
  }

  ghost predicate InstalledBy(n: Notes, a: TaskId, outcome: Outcome) {
    outcome.Activated? ==> outcome.generation in n.installed && n.installed[outcome.generation] == a
  }

  /** What an answer means, in terms of the notes. */
  ghost predicate AnswerHolds(n: Notes, a: TaskId, outcome: Outcome, replacements: nat) {
    match outcome
    case GotRuntime(runtime) => a in n.asked && !n.asked[a].stream && Served(n, a, runtime)
    case GotStream(_, _) => a in n.asked && n.asked[a].stream && a in n.openedOn && Served(n, a, n.openedOn[a])
    case Failed(UnknownNode) => Unnamed(n, a)
    case Failed(Superseded) => a in n.readAt && n.readAt[a] < replacements
    case _ => InstalledBy(n, a, outcome)
  }

  ghost predicate TaskNoted(t: Task, a: TaskId, n: Notes, generation: nat, replacements: nat) {
    && (Prepared(t).Some? ==> a in n.profiles && Fits(Prepared(t).value, n.profiles[a]))
    && (t.Started? ==> t.pool.defaultNode in t.pool.nodes && t.runtime in n.origin
                       && n.origin[t.runtime] == t.pool.nodes[t.pool.defaultNode])
    && (t.LazyReady? ==> a in n.asked && n.asked[a] == Asked(t.reference, t.stream))
    && (LazyOf(t).Some? ==> LazyNoted(n, a, LazyOf(t).value, generation, replacements))
    && (TargetOf(t).Some? ==> Wanted(n, a, TargetOf(t).value))
    && (FreshRuntime(t).Some? && TargetOf(t).Some? ==>
          FreshRuntime(t).value in n.origin && n.origin[FreshRuntime(t).value] == TargetOf(t).value)
    && (t.LazyDiscarding? ==> a in n.readAt && n.readAt[a] < replacements)
    && (t.StreamOpening? ==> t.lazy.stream && Served(n, a, t.runtime))
    && (t.StreamOpened? ==> t.lazy.stream && a in n.openedOn && Served(n, a, n.openedOn[a]))
    && (t.Draining? || t.DrainStopping? ==> InstalledBy(n, a, t.outcome))
    && (t.Done? ==> AnswerHolds(n, a, t.outcome, replacements))
  }

  ghost predicate TasksNoted(tasks: Tasks, n: Notes, generation: nat, replacements: nat) {
    forall a <- tasks :: TaskNoted(tasks[a], a, n, generation, replacements)
  }

  ghost predicate StateNoted(state: PoolState, n: Notes) {
    match n.shown
    case None => state.nodes == map[] && state.aliases == map[]
    case Some(b) => b in n.profiles && Fits(state, n.profiles[b])
  }

  ghost predicate SlotsNoted(entries: Entries, n: Notes) {
    forall e <- entries | entries[e].runtime.Some? ::
      entries[e].runtime.value in n.origin && n.origin[entries[e].runtime.value] == e
  }

  ghost predicate NotesBounded(p: Pool, n: Notes) {
    && (forall r <- n.origin :: r < p.nextRuntime)
    && n.profiles.Keys <= p.tasks.Keys && n.asked.Keys <= p.tasks.Keys
    && (forall g <- n.installed :: g == p.state.generation || g in p.retired)
  }

  ghost predicate NotesValid(w: Watched) {
    && StateNoted(w.pool.state, w.notes)
    && TasksNoted(w.pool.tasks, w.notes, w.pool.state.generation, w.pool.replacements)
    && SlotsNoted(w.pool.entries, w.notes)
    && NotesBounded(w.pool, w.notes)
  }

  /** Notes only accumulate: nothing is unlearnt, and nothing changes about other tasks. */
  ghost predicate NotesGrow(n: Notes, m: Notes, me: TaskId) {
    && (forall b <- n.profiles :: b in m.profiles && m.profiles[b] == n.profiles[b])
    && (forall a <- n.asked | a != me :: a in m.asked && m.asked[a] == n.asked[a])
    && (forall a <- n.seen | a != me :: a in m.seen && m.seen[a] == n.seen[a])
    && (forall a <- n.readAt | a != me :: a in m.readAt && m.readAt[a] == n.readAt[a])
    && (forall a <- n.openedOn | a != me :: a in m.openedOn && m.openedOn[a] == n.openedOn[a])
    && (forall r <- n.origin :: r in m.origin && m.origin[r] == n.origin[r])
    && (forall g <- n.installed :: g in m.installed && m.installed[g] == n.installed[g])
  }

  lemma WantedStays(n: Notes, m: Notes, me: TaskId, a: TaskId)
    requires NotesGrow(n, m, me) && a != me
    ensures forall e: EntryId :: Wanted(n, a, e) ==> Wanted(m, a, e)
    ensures forall r: RuntimeId :: Served(n, a, r) ==> Served(m, a, r)
    ensures Unnamed(n, a) ==> Unnamed(m, a)
  {
    hide Selects;
  }

  /** What is known of a task stays known while the visible profile does. */
  lemma OtherStays(t: Task, a: TaskId, n: Notes, m: Notes, me: TaskId, generation: nat, replacements: nat)
    requires TaskNoted(t, a, n, generation, replacements) && NotesGrow(n, m, me) && a != me
    requires m.shown == n.shown
    ensures TaskNoted(t, a, m, generation, replacements)
  {
    hide Fits, Wanted, Served, Unnamed;
    WantedStays(n, m, me, a);
  }

  /** And after a replacement, which no earlier read can have seen. */
  lemma OtherSeesReplacement(
      t: Task, a: TaskId, n: Notes, m: Notes, me: TaskId, generation: nat, later: nat, replacements: nat)
    requires TaskNoted(t, a, n, generation, replacements) && NotesGrow(n, m, me) && a != me
    requires LazyOf(t).Some? ==> LazyOf(t).value.generation != later
    ensures TaskNoted(t, a, m, later, replacements + 1)
  {
    hide Fits, Wanted, Served, Unnamed;
    WantedStays(n, m, me, a);
  }

  // ---------------------------------------------------------------- steps

  /** A step that leaves the visible profile alone. */
  lemma OrdinaryStep(w: Watched, q: Pool, m: Notes, me: TaskId, t: Task)
    requires NotesValid(w) && NotesGrow(w.notes, m, me) && m.shown == w.notes.shown
    requires q.tasks == w.pool.tasks[me := t] && q.state == w.pool.state
    requires q.replacements == w.pool.replacements && q.retired == w.pool.retired
    requires TaskNoted(t, me, m, q.state.generation, q.replacements)
    requires SlotsNoted(q.entries, m) && NotesBounded(q, m)
    ensures NotesValid(Watched(q, m))
  {
    hide TaskNoted, SlotsNoted, NotesBounded, Fits;
    var p, n := w.pool, w.notes;
    forall a <- q.tasks ensures TaskNoted(q.tasks[a], a, m, q.state.generation, q.replacements) {
      if a != me {
        OtherStays(p.tasks[a], a, n, m, me, q.state.generation, q.replacements);
      }
    }
  }

  /** Tasks of a valid pool see only the visible generation or retired ones. */
  lemma LazySees(p: Pool, a: TaskId)
    requires PoolValid(p) && a in p.tasks && LazyOf(p.tasks[a]).Some?
    ensures LazyOf(p.tasks[a]).value.generation == p.state.generation
         || LazyOf(p.tasks[a]).value.generation in p.retired
  {
    hide GenerationsValid, HomesValid, LocksValid, RuntimesValid, SlotsValid, TasksValid;
    TaskFacts(p, a);
  }

  /** A step that makes another profile visible, or none. */
  lemma ReplacingStep(w: Watched, q: Pool, m: Notes, me: TaskId, t: Task)
    requires PoolValid(w.pool) && NotesValid(w) && me in w.pool.tasks && NotesGrow(w.notes, m, me)
    requires q.tasks == w.pool.tasks[me := t] && q.replacements == w.pool.replacements + 1
    requires q.entries == w.pool.entries && q.nextRuntime == w.pool.nextRuntime
    requires q.state.generation != w.pool.state.generation && q.state.generation !in w.pool.retired
    requires TaskNoted(t, me, m, q.state.generation, q.replacements)
    requires StateNoted(q.state, m) && NotesBounded(q, m)
    ensures NotesValid(Watched(q, m))
  {
    hide PoolValid, TaskNoted, NotesBounded, Fits;
    var p, n := w.pool, w.notes;
    forall a <- q.tasks ensures TaskNoted(q.tasks[a], a, m, q.state.generation, q.replacements) {
      if a != me {
        if LazyOf(p.tasks[a]).Some? {
          LazySees(p, a);
        }
        OtherSeesReplacement(p.tasks[a], a, n, m, me, p.state.generation, q.state.generation, p.replacements);
      }
    }
  }

  /** What a step that leaves the visible profile alone does to the parts of the invariant. */
  ghost predicate Moved(p: Pool, q: Pool, n: Notes, m: Notes, me: TaskId) {
    && me in q.tasks && q.tasks == p.tasks[me := q.tasks[me]]
    && q.state == p.state && q.replacements == p.replacements && q.retired == p.retired
    && TaskNoted(q.tasks[me], me, m, q.state.generation, q.replacements)
    && SlotsNoted(q.entries, m) && NotesBounded(q, m)
    && NotesGrow(n, m, me) && m.shown == n.shown
  }

  lemma MovedKeeps(w: Watched, q: Pool, m: Notes, me: TaskId)
    requires NotesValid(w) && Moved(w.pool, q, w.notes, m, me)
    ensures NotesValid(Watched(q, m))
  {
    hide TaskNoted, SlotsNoted, NotesBounded, Fits, NotesGrow;
    OrdinaryStep(w, q, m, me, q.tasks[me]);
  }

  lemma CallMoves(p: Pool, n: Notes, step: Step)
    requires SlotsNoted(p.entries, n) && NotesBounded(p, n) && Enabled(p, step)
    requires step.Accept? || step.CallStop? || step.CallLazy?
    ensures Moved(p, Take(p, step), n, Observe(p, step, n), step.task)
  {
    hide Describes, NamesNode, WellNamed, Selects, Fits, Wanted, Served, Unnamed, Move, CanMove;
    NotesAreKnown(p, n, step.task);
    if step.Accept? {
      AcceptedFits(p, step);
      AcceptMoves(p, n, step);
    }
  }

  lemma AcceptMoves(p: Pool, n: Notes, step: Step)
    requires SlotsNoted(p.entries, n) && NotesBounded(p, n) && Enabled(p, step) && step.Accept?
    requires step.task !in n.profiles
    requires Fits(step.pool, Profile(step.nodes, step.defaultNode, p.nextEntry))
    ensures Moved(p, Take(p, step), n, Observe(p, step, n), step.task)
  {
    hide Describes, NamesNode, WellNamed, Selects, Fits, Wanted, Served, Unnamed, Move, CanMove, SlotsNoted, NotesGrow;
    var m := Observe(p, step, n);
    ProfileIsNews(n, step.task, Profile(step.nodes, step.defaultNode, p.nextEntry));
    SlotsStay(p.entries, n, m);
    EmptyEntriesAreNoted(p.entries, step.pool.nodes.Values, m);
  }

  lemma ProfileIsNews(n: Notes, me: TaskId, profile: Profile)
    requires me !in n.profiles
    ensures NotesGrow(n, n.(profiles := n.profiles[me := profile]), me)
  {
  }

  lemma EmptyEntriesAreNoted(entries: Entries, more: set<EntryId>, n: Notes)
    requires SlotsNoted(entries, n)
    ensures SlotsNoted(entries + (map e <- more :: Entry(None, None)), n)
  {
  }

  lemma NotesAreKnown(p: Pool, n: Notes, me: TaskId)
    requires NotesBounded(p, n) && me !in p.tasks
    ensures me !in n.profiles && me !in n.asked
  {
  }

  lemma AcceptedFits(p: Pool, step: Step)
    requires step.Accept? && Enabled(p, step)
    ensures Fits(step.pool, Profile(step.nodes, step.defaultNode, p.nextEntry))
  {
  }

  /** The pool after a step of a task it already has. */
  lemma TakeIsMove(p: Pool, step: Step)
    requires PoolValid(p) && Enabled(p, step) && !step.Accept? && !step.CallStop? && !step.CallLazy?
    ensures Moves(p, step) && Take(p, step) == Move(p, p.tasks[step.task], step)
  {
    hide PoolValid, Move;
    StepDefined(p, step.task);
  }

  ghost predicate Moves(p: Pool, step: Step) {
    && Enabled(p, step) && !step.Accept? && !step.CallStop? && !step.CallLazy?
    && step.task in p.tasks && CanMove(p, p.tasks[step.task], step)
    && var t := p.tasks[step.task];
       && (LockOf(t).Some? ==> LockOf(t).value in p.entries)
       && (Prepared(t).Some? ==> Prepared(t).value.defaultNode in Prepared(t).value.nodes)
  }

  /** The parts of the invariant one task's step relies on. */
  ghost predicate MyPart(p: Pool, n: Notes, step: Step) {
    && Moves(p, step)
    && TaskNoted(p.tasks[step.task], step.task, n, p.state.generation, p.replacements)
    && SlotsNoted(p.entries, n) && NotesBounded(p, n)
  }

  /** What the observer learns from a step of each kind of task. */
  lemma Observed(p: Pool, n: Notes, step: Step)
    requires Moves(p, step) && !p.tasks[step.task].Numbered? && !p.tasks[step.task].StopWaiting?
    ensures var t, a := p.tasks[step.task], step.task;
      Observe(p, step, n) ==
        if t.LazyReady? then n.(seen := n.seen[a := n.shown], readAt := n.readAt[a := p.replacements])
        else if (t.Starting? || t.LazyStarting?) && step.ok && StartsFor(t).Some? then
          n.(origin := n.origin[p.nextRuntime := StartsFor(t).value])
        else if t.StreamOpening? then n.(openedOn := n.openedOn[a := t.runtime])
        else n
  {
    hide Describes, NamesNode, WellNamed, StartsFor;
  }

  lemma ObservedGrows(p: Pool, n: Notes, step: Step)
    requires Moves(p, step) && NotesBounded(p, n)
    requires !p.tasks[step.task].Numbered? && !p.tasks[step.task].StopWaiting?
    ensures NotesGrow(n, Observe(p, step, n), step.task)
  {
    hide Observe, Enabled, StartsFor;
    Observed(p, n, step);
  }

  lemma StartSucceeds(p: Pool, n: Notes, step: Step)
    requires MyPart(p, n, step) && p.tasks[step.task].Starting? && step.ok
    ensures Moved(p, Move(p, p.tasks[step.task], step), n, Observe(p, step, n), step.task)
  {
    hide Fits, Selects, Wanted, Served, Unnamed, HandOver, Abandon, Observe, Enabled, NotesGrow, SlotsNoted;
    Observed(p, n, step);
    ObservedGrows(p, n, step);
    SlotsStay(p.entries, n, Observe(p, step, n));
  }

  lemma StartFails(p: Pool, n: Notes, step: Step)
    requires MyPart(p, n, step) && p.tasks[step.task].Starting? && !step.ok
    ensures Moved(p, Move(p, p.tasks[step.task], step), n, Observe(p, step, n), step.task)
  {
    hide Fits, Selects, Wanted, Served, Unnamed, HandOver, Abandon, Observe, Enabled, NotesGrow;
    Observed(p, n, step);
    ObservedGrows(p, n, step);
  }

  lemma SlotsStay(entries: Entries, n: Notes, m: Notes)
    requires SlotsNoted(entries, n) && forall r <- n.origin :: r in m.origin && m.origin[r] == n.origin[r]
    ensures SlotsNoted(entries, m)
  {
  }

  lemma StoreMoves(p: Pool, n: Notes, step: Step)
    requires MyPart(p, n, step) && p.tasks[step.task].Started?
    ensures Moved(p, Move(p, p.tasks[step.task], step), n, Observe(p, step, n), step.task)
  {
    hide Selects, Wanted, Served, Unnamed, HandOver, Abandon, Observe, Enabled, NotesGrow, Fits;
    Observed(p, n, step);
    ObservedGrows(p, n, step);
  }

  lemma DrawMoves(p: Pool, n: Notes, step: Step)
    requires MyPart(p, n, step) && p.tasks[step.task].Stored?
    ensures Moved(p, Move(p, p.tasks[step.task], step), n, Observe(p, step, n), step.task)
  {
    hide Selects, Wanted, Served, Unnamed, HandOver, Abandon, Observe, Enabled, NotesGrow, Fits;
    Observed(p, n, step);
    ObservedGrows(p, n, step);
    FitsAnyGeneration(p.tasks[step.task].pool, n.profiles[step.task]);
  }

  lemma DrainLockMoves(p: Pool, n: Notes, step: Step)
    requires MyPart(p, n, step) && p.tasks[step.task].Draining?
    requires p.tasks[step.task].outcome.Activated? || p.tasks[step.task].outcome.PoolStopped?
    ensures Moved(p, Move(p, p.tasks[step.task], step), n, Observe(p, step, n), step.task)
  {
    hide Fits, Selects, Wanted, Served, Unnamed, HandOver, Abandon, Observe, Enabled, NotesGrow;
    Observed(p, n, step);
    ObservedGrows(p, n, step);
  }

  lemma DrainStopMoves(p: Pool, n: Notes, step: Step)
    requires MyPart(p, n, step) && p.tasks[step.task].DrainStopping?
    requires p.tasks[step.task].outcome.Activated? || p.tasks[step.task].outcome.PoolStopped?
    ensures Moved(p, Move(p, p.tasks[step.task], step), n, Observe(p, step, n), step.task)
  {
    hide Fits, Selects, Wanted, Served, Unnamed, HandOver, Abandon, Observe, Enabled, NotesGrow;
    Observed(p, n, step);
    ObservedGrows(p, n, step);
  }

  lemma OutcomeIsDrained(p: Pool, me: TaskId)
    requires PoolValid(p) && me in p.tasks && (p.tasks[me].Draining? || p.tasks[me].DrainStopping?)
    ensures p.tasks[me].outcome.Activated? || p.tasks[me].outcome.PoolStopped?
  {
    hide GenerationsValid, HomesValid, LocksValid, RuntimesValid, SlotsValid, TasksValid;
    TaskFacts(p, me);
  }

  lemma FirstReadMoves(p: Pool, n: Notes, step: Step)
    requires MyPart(p, n, step) && p.tasks[step.task].LazyReady?
    requires n.shown.Some? ==> n.shown.value in n.profiles
    ensures Moved(p, Move(p, p.tasks[step.task], step), n, Observe(p, step, n), step.task)
  {
    hide Fits, Selects, Wanted, Served, Unnamed, HandOver, Abandon, Observe, Enabled, NotesGrow;
    Observed(p, n, step);
    ObservedGrows(p, n, step);
  }

  lemma ResolveMoves(p: Pool, n: Notes, step: Step)
    requires MyPart(p, n, step) && p.tasks[step.task].LazyRead? && StateNoted(p.state, n)
    ensures Moved(p, Move(p, p.tasks[step.task], step), n, Observe(p, step, n), step.task)
  {
    hide Fits, Selects, Wanted, Served, Unnamed, HandOver, Abandon, ResolveReference, Observe, Enabled, NotesGrow;
    Observed(p, n, step);
    ObservedGrows(p, n, step);
    var lazy := p.tasks[step.task].lazy;
    if lazy.generation == p.state.generation {
      ResolvingNoted(p, n, step.task, lazy);
    }
  }

  /** What resolving finds is what was wanted, and finding nothing means nothing has that name. */
  lemma ResolvingNoted(p: Pool, n: Notes, me: TaskId, lazy: Lazy)
    requires StateNoted(p.state, n) && LazyNoted(n, me, lazy, p.state.generation, p.replacements)
    requires lazy.generation == p.state.generation
    ensures var found := ResolveReference(p.state, lazy.reference);
      if found.Some? then Wanted(n, me, found.value) else Unnamed(n, me)
  {
    hide Fits, Selects;
    match n.shown
    case None =>
    case Some(b) => ResolvingSelects(p.state, n.profiles[b], lazy.reference);
  }

  lemma LockMoves(p: Pool, n: Notes, step: Step)
    requires MyPart(p, n, step) && p.tasks[step.task].LazyResolved?
    ensures Moved(p, Move(p, p.tasks[step.task], step), n, Observe(p, step, n), step.task)
  {
    hide Fits, Selects, Wanted, Unnamed, HandOver, Abandon, Observe, Enabled, NotesGrow;
    Observed(p, n, step);
    ObservedGrows(p, n, step);
  }

  /** Starting a runtime does not change what is wanted. */
  lemma WantedByMe(n: Notes, m: Notes, me: TaskId)
    requires m == n.(origin := m.origin, openedOn := m.openedOn)
    ensures forall e: EntryId :: Wanted(n, me, e) <==> Wanted(m, me, e)
  {
    hide Selects;
  }

  lemma LazyStartSucceeds(p: Pool, n: Notes, step: Step)
    requires MyPart(p, n, step) && p.tasks[step.task].LazyStarting? && step.StartReturns? && step.ok
    ensures Moved(p, Move(p, p.tasks[step.task], step), n, Observe(p, step, n), step.task)
  {
    hide Fits, Selects, Wanted, Unnamed, HandOver, Abandon, Observe, Enabled, NotesGrow, SlotsNoted;
    Observed(p, n, step);
    ObservedGrows(p, n, step);
    WantedByMe(n, Observe(p, step, n), step.task);
    SlotsStay(p.entries, n, Observe(p, step, n));
  }

  lemma LazyStartFails(p: Pool, n: Notes, step: Step)
    requires MyPart(p, n, step) && p.tasks[step.task].LazyStarting? && step.StartReturns? && !step.ok
    ensures Moved(p, Move(p, p.tasks[step.task], step), n, Observe(p, step, n), step.task)
  {
    hide Fits, Selects, Wanted, Unnamed, HandOver, Abandon, Observe, Enabled, NotesGrow;
    Observed(p, n, step);
    ObservedGrows(p, n, step);
  }

  lemma CheckMoves(p: Pool, n: Notes, step: Step)
    requires MyPart(p, n, step) && p.tasks[step.task].LazyStarted?
    ensures Moved(p, Move(p, p.tasks[step.task], step), n, Observe(p, step, n), step.task)
  {
    hide Fits, Selects, Wanted, Unnamed, HandOver, Abandon, Observe, Enabled, NotesGrow;
    Observed(p, n, step);
    ObservedGrows(p, n, step);
  }

  lemma PublishMoves(p: Pool, n: Notes, step: Step)
    requires MyPart(p, n, step) && (p.tasks[step.task].LazyConfirmed? || p.tasks[step.task].LazyDiscarding?)
    ensures Moved(p, Move(p, p.tasks[step.task], step), n, Observe(p, step, n), step.task)
  {
    hide Fits, Selects, Wanted, Unnamed, HandOver, Abandon, Observe, Enabled, NotesGrow;
    Observed(p, n, step);
    ObservedGrows(p, n, step);
  }

  lemma StreamOpens(p: Pool, n: Notes, step: Step)
    requires MyPart(p, n, step) && p.tasks[step.task].StreamOpening?
    ensures Moved(p, Move(p, p.tasks[step.task], step), n, Observe(p, step, n), step.task)
  {
    hide Fits, Selects, Wanted, Unnamed, HandOver, Abandon, Observe, Enabled, NotesGrow, SlotsNoted;
    Observed(p, n, step);
    ObservedGrows(p, n, step);
    WantedByMe(n, Observe(p, step, n), step.task);
    SlotsStay(p.entries, n, Observe(p, step, n));
  }

  lemma StreamRechecks(p: Pool, n: Notes, step: Step)
    requires MyPart(p, n, step) && p.tasks[step.task].StreamOpened?
    ensures Moved(p, Move(p, p.tasks[step.task], step), n, Observe(p, step, n), step.task)
  {
    hide Fits, Selects, Wanted, Served, Unnamed, HandOver, Abandon, Observe, Enabled, NotesGrow, SlotsNoted;
    Observed(p, n, step);
    ObservedGrows(p, n, step);
  }

  lemma ActivationShows(p: Pool, n: Notes, step: Step)
    requires MyPart(p, n, step) && p.tasks[step.task].Numbered?
    ensures var q, m := Move(p, p.tasks[step.task], step), Observe(p, step, n);
      var t := q.tasks[step.task];
      && q.tasks == p.tasks[step.task := t] && q.replacements == p.replacements + 1
      && q.entries == p.entries && q.nextRuntime == p.nextRuntime
      && q.state == p.tasks[step.task].pool && q.retired == p.retired + {p.state.generation}
      && m == n.(shown := Some(step.task), installed := n.installed[q.state.generation := step.task])
      && TaskNoted(t, step.task, m, q.state.generation, q.replacements)
  {
    hide Fits, Selects, Wanted, Served, Unnamed, HandOver, Abandon, Describes, NamesNode, WellNamed;
  }

  lemma StopShows(p: Pool, n: Notes, step: Step)
    requires MyPart(p, n, step) && p.tasks[step.task].StopWaiting?
    ensures var q, m := Move(p, p.tasks[step.task], step), Observe(p, step, n);
      var t := q.tasks[step.task];
      && q.tasks == p.tasks[step.task := t] && q.replacements == p.replacements + 1
      && q.entries == p.entries && q.nextRuntime == p.nextRuntime
      && q.state == EmptyState.(generation := p.nextGeneration) && q.retired == p.retired + {p.state.generation}
      && m == n.(shown := None)
      && TaskNoted(t, step.task, m, q.state.generation, q.replacements)
  {
    hide Fits, Selects, Wanted, Served, Unnamed, HandOver, Abandon, Describes, NamesNode, WellNamed;
  }

  lemma ReplacementNoted(w: Watched, step: Step)
    requires PoolValid(w.pool) && NotesValid(w) && Moves(w.pool, step)
    requires w.pool.tasks[step.task].Numbered? || w.pool.tasks[step.task].StopWaiting?
    ensures NotesValid(Watched(Move(w.pool, w.pool.tasks[step.task], step), Observe(w.pool, step, w.notes)))
  {
    hide PoolValid, TaskNoted, Move, Observe, Fits, Enabled, CanMove, SlotsNoted;
    var p, n, me := w.pool, w.notes, step.task;
    var q, m := Move(p, p.tasks[me], step), Observe(p, step, n);
    DrawnIsNew(p, me);
    if p.tasks[me].Numbered? {
      ActivationShows(p, n, step);
      NumberedFits(p, n, me);
    } else {
      StopShows(p, n, step);
    }
    ReplacingStep(w, q, m, me, q.tasks[me]);
  }

  lemma NumberedFits(p: Pool, n: Notes, me: TaskId)
    requires me in p.tasks && p.tasks[me].Numbered?
    requires TaskNoted(p.tasks[me], me, n, p.state.generation, p.replacements)
    ensures me in n.profiles && Fits(p.tasks[me].pool, n.profiles[me])
  {
    hide Fits;
  }

  lemma DrawnIsNew(p: Pool, me: TaskId)
    requires PoolValid(p)
    ensures p.nextGeneration != p.state.generation && p.nextGeneration !in p.retired
    ensures me in p.tasks && p.tasks[me].Numbered? ==>
      p.tasks[me].pool.generation != p.state.generation && p.tasks[me].pool.generation !in p.retired
  {
    hide HomesValid, LocksValid, RuntimesValid, SlotsValid, TasksValid, GenerationsValid;
    GenerationFacts(p, me);
  }

  lemma FitsAnyGeneration(pool: PoolState, profile: Profile)
    requires Fits(pool, profile)
    ensures forall g: nat :: Fits(pool.(generation := g), profile)
  {
  }

  lemma MoveNoted(w: Watched, step: Step)
    requires PoolValid(w.pool) && NotesValid(w) && Moves(w.pool, step)
    requires !w.pool.tasks[step.task].Numbered? && !w.pool.tasks[step.task].StopWaiting?
    ensures NotesValid(Watched(Move(w.pool, w.pool.tasks[step.task], step), Observe(w.pool, step, w.notes)))
  {
    hide PoolValid, TaskNoted, SlotsNoted, NotesBounded, CanMove, Enabled, Move, Observe, Moved, Fits;
    var p, n, me := w.pool, w.notes, step.task;
    CanMoves(p, step);
    match p.tasks[me] {
      case Starting(_) =>
        StartAnswered(p, step);
        if step.ok { StartSucceeds(p, n, step); } else { StartFails(p, n, step); }
      case Started(_, _) => StoreMoves(p, n, step);
      case Stored(_) => DrawMoves(p, n, step);
      case Draining(_, _) =>
        OutcomeIsDrained(p, me);
        DrainLockMoves(p, n, step);
      case DrainStopping(_, _, _, _) =>
        OutcomeIsDrained(p, me);
        DrainStopMoves(p, n, step);
      case LazyReady(_, _) => FirstReadMoves(p, n, step);
      case LazyRead(_) => ResolveMoves(p, n, step);
      case LazyResolved(_, _) => LockMoves(p, n, step);
      case LazyStarting(_, _) =>
        StartAnswered(p, step);
        if step.ok { LazyStartSucceeds(p, n, step); } else { LazyStartFails(p, n, step); }
      case LazyStarted(_, _, _) => CheckMoves(p, n, step);
      case LazyConfirmed(_, _, _) => PublishMoves(p, n, step);
      case LazyDiscarding(_, _, _) => PublishMoves(p, n, step);
      case StreamOpening(_, _) => StreamOpens(p, n, step);
      case StreamOpened(_) => StreamRechecks(p, n, step);
      case Done(_) =>
    }
    MovedKeeps(w, Move(p, p.tasks[me], step), Observe(p, step, n), me);
  }

  lemma StartAnswered(p: Pool, step: Step)
    requires Moves(p, step) && (p.tasks[step.task].Starting? || p.tasks[step.task].LazyStarting?)
    ensures step.StartReturns?
  {
  }

  lemma CanMoves(p: Pool, step: Step)
    requires Moves(p, step)
    ensures !p.tasks[step.task].Done?
  {
  }

  lemma TakeNoted(w: Watched, step: Step)
    requires PoolValid(w.pool) && NotesValid(w)
    ensures NotesValid(Watched(Take(w.pool, step), Observe(w.pool, step, w.notes)))
  {
    hide PoolValid, TaskNoted, SlotsNoted, NotesBounded, StateNoted, Moves, Move, Take, Moved;
    var p, n := w.pool, w.notes;
    if !Enabled(p, step) {
      NothingTaken(p, step);
    } else if step.Accept? || step.CallStop? || step.CallLazy? {
      CallMoves(p, n, step);
      MovedKeeps(w, Take(p, step), Observe(p, step, n), step.task);
    } else {
      TakeIsMove(p, step);
      if p.tasks[step.task].Numbered? || p.tasks[step.task].StopWaiting? {
        ReplacementNoted(w, step);
      } else {
        MoveNoted(w, step);
      }
    }
  }

  lemma NothingTaken(p: Pool, step: Step)
    requires !Enabled(p, step)
    ensures Take(p, step) == p
  {
  }

  lemma {:induction false} WatchNoted(w: Watched, steps: seq<Step>)
    requires PoolValid(w.pool) && NotesValid(w)
    ensures NotesValid(Watch(w, steps))
    decreases |steps|
  {
    hide PoolValid, NotesValid, Take, Observe;
    if steps != [] {
      TakeValid(w.pool, steps[0]);
      TakeNoted(w, steps[0]);
      WatchNoted(Watched(Take(w.pool, steps[0]), Observe(w.pool, steps[0], w.notes)), steps[1..]);
    }
  }

  // ---------------------------------------------------------------- main results

  ghost function Seen(steps: seq<Step>): Watched { Watch(Watched(NewPool, NoNotes), steps) }

  /**
   * Every answer, in every interleaving.  A runtime or stream that was handed
   * out runs the node its caller named, in the profile visible at the caller's
   * first read.  A name is refused only if that profile has no such node, and
   * a call is superseded only if the profile was replaced in the meantime.  An
   * activation's generation is one that it made visible itself.
   */
  lemma AnswersAreTrue(steps: seq<Step>, a: TaskId)
    requires a in Run(NewPool, steps).tasks && Run(NewPool, steps).tasks[a].Done?
    ensures var w := Seen(steps);
      w.pool == Run(NewPool, steps)
      && AnswerHolds(w.notes, a, Run(NewPool, steps).tasks[a].outcome, w.pool.replacements)
  {
    hide PoolValid, Take, Observe;
    var start := Watched(NewPool, NoNotes);
    WatchingIsRunning(start, steps);
    NewPoolValid();
    WatchNoted(start, steps);
    hide Fits, AnswerHolds;
  }

  /** The visible state indexes exactly the profile of the activation that made it visible. */
  lemma VisibleStateIsAsActivated(steps: seq<Step>)
    ensures var n, state := Seen(steps).notes, Run(NewPool, steps).state;
      match n.shown
      case None => state.nodes == map[] && state.aliases == map[]
      case Some(b) => b in n.profiles && Fits(state, n.profiles[b])
  {
    hide PoolValid, Take, Observe, Fits;
    var start := Watched(NewPool, NoNotes);
    WatchingIsRunning(start, steps);
    NewPoolValid();
    WatchNoted(start, steps);
  }

  /** What the backend answers is what the task is told. */
  lemma BackendAnswersAreHonoured(p: Pool, step: Step)
    requires Moves(p, step) && (step.StartReturns? || step.StreamReturns?)
    ensures var q := Move(p, p.tasks[step.task], step);
      && step.task in q.tasks
      && (step.StartReturns? && step.ok ==> q.tasks[step.task].Started? || q.tasks[step.task].LazyStarted?)
      && (step.StartReturns? && !step.ok ==> q.tasks[step.task] == Done(Failed(StartFailed)))
      && (step.StreamReturns? && step.ok ==> q.tasks[step.task].StreamOpened?)
      && (step.StreamReturns? && !step.ok ==> q.tasks[step.task] == Done(Failed(StreamFailed)))
  {
    hide Enabled, ResolveReference, HandOver, Abandon;
  }
}
