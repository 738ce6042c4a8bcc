/** Why a pool that takes no new calls comes to rest: every other step uses something up. */
module NodePoolProgress {
  import opened Common
  import opened FiniteSets
  import opened NodePool
  import opened NodePoolSteps

  predicate NewCall(step: Step) { step.Accept? || step.CallStop? || step.CallLazy? }

  /** How many more steps a task can take, when there are `entries` entries to drain at most. */
  function Rank(t: Task, entries: nat): nat {
    match t
    case Starting(_) => 2 * entries + 5
    case Started(_, _) => 2 * entries + 4
    case Stored(_) => 2 * entries + 3
    case Numbered(_) => 2 * entries + 2
    case StopWaiting => 2 * entries + 2
    case Draining(rest, _) => 2 * |rest| + 1
    case DrainStopping(_, _, rest, _) => 2 * |rest| + 2
    case LazyReady(_, _) => 8
    case LazyRead(_) => 7
    case LazyResolved(_, _) => 6
    case LazyStarting(_, _) => 5
    case LazyStarted(_, _, _) => 4
    case LazyConfirmed(_, _, _) => 3
    case LazyDiscarding(_, _, _) => 3
    case StreamOpening(_, _) => 2
    case StreamOpened(_) => 1
    case Done(_) => 0
  }

  ghost function Left(tasks: Tasks, entries: nat): nat
    decreases |tasks|
  {
    if tasks == map[] then 0
    else
      var a :| a in tasks;
      Rank(tasks[a], entries) + Left(tasks - {a}, entries)
  }

  lemma {:induction false} LeftRemove(tasks: Tasks, entries: nat, a: TaskId)
    requires a in tasks
    ensures Left(tasks, entries) == Rank(tasks[a], entries) + Left(tasks - {a}, entries)
    decreases |tasks|
  {
    hide Rank;
    var first :| first in tasks && Left(tasks, entries) == Rank(tasks[first], entries) + Left(tasks - {first}, entries);
    if first != a {
      LeftRemove(tasks - {first}, entries, a);
      LeftRemove(tasks - {a}, entries, first);
      assert tasks - {first} - {a} == tasks - {a} - {first};
    }
  }

  lemma LeftFalls(tasks: Tasks, entries: nat, a: TaskId, t: Task)
    requires a in tasks && Rank(t, entries) < Rank(tasks[a], entries)
    ensures Left(tasks[a := t], entries) < Left(tasks, entries)
  {
    hide Rank;
    LeftRemove(tasks, entries, a);
    LeftRemove(tasks[a := t], entries, a);
    assert tasks[a := t] - {a} == tasks - {a};
  }

  /** The steps a pool has left if no new call arrives. */
  ghost function StepsLeft(p: Pool): nat { Left(p.tasks, |p.entries|) }

  /** The step moves its own task down and creates no entry. */
  ghost predicate Falls(p: Pool, q: Pool, me: TaskId)
    requires me in p.tasks
  {
    && me in q.tasks && q.tasks == p.tasks[me := q.tasks[me]]
    && Rank(q.tasks[me], |p.entries|) < Rank(p.tasks[me], |p.entries|)
    && q.entries.Keys == p.entries.Keys
  }

  predicate Activating(t: Task) { Prepared(t).Some? || t.StopWaiting? }

  lemma ActivationFalls(p: Pool, t: Task, step: Step)
    requires step.task in p.tasks && p.tasks[step.task] == t && CanMove(p, t, step) && Activating(t)
    requires Prepared(t).Some? ==>
      var pool := Prepared(t).value;
      pool.defaultNode in pool.nodes && pool.nodes[pool.defaultNode] in p.entries
    requires |p.state.nodes.Values| <= |p.entries|
    ensures Falls(p, Move(p, t, step), step.task)
  {
    hide HandOver, Abandon, ResolveReference;
  }

  lemma DrainFalls(p: Pool, t: Task, step: Step)
    requires step.task in p.tasks && p.tasks[step.task] == t && CanMove(p, t, step) && (t.Draining? || t.DrainStopping?)
    requires LockOf(t).Some? ==> LockOf(t).value in p.entries
    ensures Falls(p, Move(p, t, step), step.task)
  {
    hide HandOver, Abandon, ResolveReference;
  }

  predicate Heading(t: Task) { t.LazyReady? || t.LazyRead? || t.LazyResolved? }

  lemma HeadingFalls(p: Pool, t: Task, step: Step)
    requires step.task in p.tasks && p.tasks[step.task] == t && CanMove(p, t, step) && Heading(t)
    ensures Falls(p, Move(p, t, step), step.task)
  {
    hide HandOver, Abandon, ResolveReference;
  }

  lemma LazyFalls(p: Pool, t: Task, step: Step)
    requires step.task in p.tasks && p.tasks[step.task] == t && CanMove(p, t, step)
    requires !Activating(t) && !t.Draining? && !t.DrainStopping? && !Heading(t)
    requires LockOf(t).Some? ==> LockOf(t).value in p.entries
    ensures Falls(p, Move(p, t, step), step.task)
  {
    hide HandOver, Abandon, ResolveReference;
  }

  lemma StateFits(p: Pool)
    requires PoolValid(p)
    ensures |p.state.nodes.Values| <= |p.entries|
  {
    hide GenerationsValid, LocksValid, RuntimesValid, TasksValid;
    assert p.state.nodes.Values <= p.entries.Keys;
    SubsetSize(p.state.nodes.Values, p.entries.Keys);
  }

  lemma PreparedEntryIsKnown(p: Pool, a: TaskId)
    requires PoolValid(p) && a in p.tasks && Prepared(p.tasks[a]).Some?
    ensures var pool := Prepared(p.tasks[a]).value;
      pool.defaultNode in pool.nodes && pool.nodes[pool.defaultNode] in p.entries
  {
    hide GenerationsValid, HomesValid, LocksValid, RuntimesValid, SlotsValid, TasksValid;
    PreparedFacts(p.home, p.state, p.tasks, a);
    var pool := Prepared(p.tasks[a]).value;
    var e := pool.nodes[pool.defaultNode];
    ClaimFacts(p.home, p.state, p.tasks, a, e);
    SlotFacts(p.home, p.entries, p.tasks, p.nextEntry, e);
  }

  /** Every enabled step that is not a new call uses up the measure. */
  lemma StepFalls(p: Pool, step: Step)
    requires PoolValid(p) && Enabled(p, step) && !NewCall(step)
    ensures StepsLeft(Take(p, step)) < StepsLeft(p)
  {
    hide PoolValid, Move, CanMove, Rank, Left, Activating, Heading;
    var t := p.tasks[step.task];
    StepDefined(p, step.task);
    StateFits(p);
    if Prepared(t).Some? {
      PreparedEntryIsKnown(p, step.task);
    }
    if Activating(t) {
      ActivationFalls(p, t, step);
    } else if t.Draining? || t.DrainStopping? {
      DrainFalls(p, t, step);
    } else if Heading(t) {
      HeadingFalls(p, t, step);
    } else {
      LazyFalls(p, t, step);
    }
    var q := Move(p, t, step);
    assert |q.entries| == |q.entries.Keys| && |p.entries| == |p.entries.Keys|;
    LeftFalls(p.tasks, |p.entries|, step.task, q.tasks[step.task]);
  }

  /** Each step is enabled when it is taken, and none is a new call. */
  ghost predicate Works(p: Pool, steps: seq<Step>)
    decreases |steps|
  {
    steps != [] ==> Enabled(p, steps[0]) && !NewCall(steps[0]) && Works(Take(p, steps[0]), steps[1..])
  }

  ghost predicate Quiet(p: Pool) { forall a <- p.tasks :: p.tasks[a].Done? }

  /** Without new calls no run is longer than what is left to do. */
  lemma {:induction false} RunsAreFinite(p: Pool, steps: seq<Step>)
    requires PoolValid(p) && Works(p, steps)
    ensures |steps| + StepsLeft(Run(p, steps)) <= StepsLeft(p)
    decreases |steps|
  {
    hide PoolValid, Enabled, Take, Left;
    if steps != [] {
      StepFalls(p, steps[0]);
      TakeValid(p, steps[0]);
      RunsAreFinite(Take(p, steps[0]), steps[1..]);
    }
  }

  /** A pool is at rest exactly when only new calls could move it. */
  lemma RestIsQuiet(p: Pool)
    requires PoolValid(p)
    ensures Quiet(p) <==> !exists step: Step :: Enabled(p, step) && !NewCall(step)
  {
    hide PoolValid;
    if Quiet(p) {
      forall step: Step ensures !(Enabled(p, step) && !NewCall(step)) {
        if step.task in p.tasks {
          assert p.tasks[step.task].Done?;
        }
      }
    } else {
      var a :| a in p.tasks && !p.tasks[a].Done?;
      NoDeadlock(p, a);
      var step: Step :| step.task in p.tasks && Enabled(p, step);
      assert !NewCall(step);
    }
  }

  /**
   * Progress: however the tasks are scheduled, without new calls every run is
   * bounded, one that can go no further has finished every operation, and
   * every run can be carried on to that point.
   */
  lemma {:induction false} EveryPoolComesToRest(p: Pool)
    requires PoolValid(p)
    ensures exists steps: seq<Step> :: Works(p, steps) && Quiet(Run(p, steps))
    decreases StepsLeft(p)
  {
    hide PoolValid, Enabled, Take, Left;
    RestIsQuiet(p);
    if Quiet(p) {
      assert Works(p, []) && Run(p, []) == p;
    } else {
      var step: Step :| Enabled(p, step) && !NewCall(step);
      StepFalls(p, step);
      TakeValid(p, step);
      EveryPoolComesToRest(Take(p, step));
      var rest: seq<Step> :| Works(Take(p, step), rest) && Quiet(Run(Take(p, step), rest));
      var steps := [step] + rest;
      assert steps[1..] == rest;
      assert Works(p, steps) && Run(p, steps) == Run(Take(p, step), rest);
    }
  }

  /** The same for every pool that any calls have led to. */
  lemma EveryRunComesToRest(before: seq<Step>, steps: seq<Step>)
    requires Works(Run(NewPool, before), steps)
    ensures var p := Run(NewPool, before);
      && |steps| <= StepsLeft(p)
      && (Quiet(Run(p, steps)) <==>
            !exists step: Step :: Enabled(Run(p, steps), step) && !NewCall(step))
      && exists more: seq<Step> :: Works(Run(p, steps), more) && Quiet(Run(Run(p, steps), more))
  {
    hide PoolValid, Enabled, Take, Left;
    NewPoolValid();
    RunValid(NewPool, before);
    var p := Run(NewPool, before);
    RunsAreFinite(p, steps);
    RunValid(p, steps);
    RestIsQuiet(Run(p, steps));
    EveryPoolComesToRest(Run(p, steps));
  }
}
