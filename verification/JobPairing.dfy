/** Which commands a run performs, and how the queues pair each success with its own history id and summary. */
module JobPairing {
  import opened Wrappers
  import opened Text
  import opened JobModel
  import opened JobTraces

  /** The successful restic substeps of a trace, each with its own id and summary. */
  function Successes(events: seq<Event>): seq<Callback> {
    if events == [] then []
    else
      var e := events[|events| - 1];
      Successes(events[..|events| - 1])
      + if e.CommandRun? && e.command.Restic? && e.ok then [Callback(e.command.task, e.id, e.summary)] else []
  }

  lemma {:induction false} SuccessesConcat(a: seq<Event>, b: seq<Event>)
    ensures Successes(a + b) == Successes(a) + Successes(b)
  {
    if b == [] {
      assert a + b == a;
    } else {
      assert (a + b)[..|a + b| - 1] == a + b[..|b| - 1];
      SuccessesConcat(a, b[..|b| - 1]);
    }
  }

  lemma SuccessesOne(e: Event)
    ensures Successes([e]) == if e.CommandRun? && e.command.Restic? && e.ok then [Callback(e.command.task, e.id, e.summary)] else []
  {
    assert [e][..|[e]| - 1] == [];
  }

  predicate StartsPlan(done: seq<Callback>, plan: seq<Task>) {
    |done| <= |plan| && forall i :: 0 <= i < |done| ==> done[i].task == plan[i]
  }

  /** The history ids of one task, and the summaries of one backup, among the successes. */
  function IdsOf(done: seq<Callback>, task: Task): seq<string> {
    if done == [] then []
    else (if done[0].task == task && done[0].id.Some? then [done[0].id.value] else []) + IdsOf(done[1..], task)
  }

  function SummariesOf(done: seq<Callback>, name: string): seq<Option<string>> {
    if done == [] then []
    else (if done[0].task == Task(name, BackupStep) then [done[0].summary] else []) + SummariesOf(done[1..], name)
  }

  lemma {:induction false} IdsConcat(a: seq<Callback>, b: seq<Callback>, task: Task)
    ensures IdsOf(a + b, task) == IdsOf(a, task) + IdsOf(b, task)
  {
    if a == [] {
      assert a + b == b;
    } else {
      var head := if a[0].task == task && a[0].id.Some? then [a[0].id.value] else [];
      assert IdsOf(a + b, task) == head + IdsOf(a[1..] + b, task) by {
        assert (a + b)[1..] == a[1..] + b;
      }
      IdsConcat(a[1..], b, task);
      assert head + (IdsOf(a[1..], task) + IdsOf(b, task)) == head + IdsOf(a[1..], task) + IdsOf(b, task);
    }
  }

  lemma {:induction false} SummariesConcat(a: seq<Callback>, b: seq<Callback>, name: string)
    ensures SummariesOf(a + b, name) == SummariesOf(a, name) + SummariesOf(b, name)
  {
    if a == [] {
      assert a + b == b;
    } else {
      var head := if a[0].task == Task(name, BackupStep) then [a[0].summary] else [];
      assert SummariesOf(a + b, name) == head + SummariesOf(a[1..] + b, name) by {
        assert (a + b)[1..] == a[1..] + b;
      }
      SummariesConcat(a[1..], b, name);
      assert head + (SummariesOf(a[1..], name) + SummariesOf(b, name)) == head + SummariesOf(a[1..], name) + SummariesOf(b, name);
    }
  }

  /** A dry run leaves no summaries. */
  function Summaries(c: Setting, done: seq<Callback>, name: string): seq<Option<string>> {
    if c.dryRun then [] else SummariesOf(done, name)
  }

  // ----- what a piece of the run does to the queues -----

  ghost predicate QueuesHold(c: Setting, w: World, done: seq<Callback>) {
    && (forall task :: Queued(w.ids, task) == IdsOf(done, task))
    && (forall name :: Queued(w.artifacts, name) == Summaries(c, done, name))
  }

  /** Ids are there exactly with the history on; only backups have summaries, and not in a dry run. */
  predicate Labelled(c: Setting, done: seq<Callback>) {
    && (forall i :: 0 <= i < |done| ==> done[i].id.Some? == c.history)
    && (forall i :: 0 <= i < |done| ==> done[i].summary.Some? ==> done[i].task.substep == BackupStep && !c.dryRun)
  }

  // ----- each piece carries on the plan -----

  /** The piece carries on the plan: `done` was done before, and the queues hold exactly what has been done. */
  ghost predicate CarriesOn(c: Setting, w: World, r: Result, plan: seq<Task>) {
    && w.trace <= r.world.trace && r.world.callbacks == w.callbacks
    && var more := Successes(Added(w, r.world));
       && StartsPlan(more, plan) && (r.ok ==> |more| == |plan|) && Labelled(c, more)
       && QueuesGrow(c, w, r.world, more)
  }

  /** What is in the queues after the piece, whatever was in them before. */
  ghost predicate QueuesGrow(c: Setting, w: World, after: World, more: seq<Callback>) {
    forall done :: QueuesHold(c, w, done) ==> QueuesHold(c, after, done + more)
  }

  lemma QueuesGrowThen(c: Setting, w: World, middle: World, after: World, x: seq<Callback>, y: seq<Callback>)
    requires QueuesGrow(c, w, middle, x) && QueuesGrow(c, middle, after, y)
    ensures QueuesGrow(c, w, after, x + y)
  {
    forall done | QueuesHold(c, w, done)
      ensures QueuesHold(c, after, done + (x + y))
    {
      GrowsFrom(c, w, middle, x, done);
      GrowsFrom(c, middle, after, y, done + x);
      Associative(done, x, y);
    }
  }

  lemma GrowsFrom(c: Setting, w: World, after: World, more: seq<Callback>, done: seq<Callback>)
    requires QueuesGrow(c, w, after, more) && QueuesHold(c, w, done)
    ensures QueuesHold(c, after, done + more)
  { }

  lemma PlansThen(c: Setting, x: seq<Callback>, y: seq<Callback>, a: seq<Task>, b: seq<Task>)
    requires StartsPlan(x, a) && |x| == |a| && StartsPlan(y, b) && Labelled(c, x) && Labelled(c, y)
    ensures StartsPlan(x + y, a + b) && Labelled(c, x + y)
  { }

  lemma CarriesOnThen(c: Setting, w: World, first: Result, second: Result, a: seq<Task>, b: seq<Task>)
    requires CarriesOn(c, w, first, a) && first.ok && CarriesOn(c, first.world, second, b)
    ensures CarriesOn(c, w, second, a + b)
  {
    var x, y := Successes(Added(w, first.world)), Successes(Added(first.world, second.world));
    assert w.trace <= second.world.trace && Successes(Added(w, second.world)) == x + y by {
      AddedConcat(w, first.world, second.world);
      SuccessesConcat(Added(w, first.world), Added(first.world, second.world));
    }
    PlansThen(c, x, y, a, b);
    QueuesGrowThen(c, w, first.world, second.world, x, y);
  }

  lemma CarriesOnFailed(c: Setting, w: World, first: Result, a: seq<Task>, b: seq<Task>)
    requires CarriesOn(c, w, first, a) && !first.ok
    ensures CarriesOn(c, w, first, a + b)
  { }

  lemma NothingCarriesOn(c: Setting, w: World)
    ensures CarriesOn(c, w, Result(w, true), [])
  {
    assert Added(w, w) == [];
    forall done: seq<Callback>
      ensures done + [] == done
    { }
  }

  lemma HooksCarryOn(c: Setting, w: World, level: Level, phase: Phase, hooks: seq<string>)
    ensures var r := RunHooks(c, w, level, phase, hooks); CarriesOn(c, w, Result(r.world, true), [])
  {
    var r := RunHooks(c, w, level, phase, hooks);
    var e := r.world.trace[|w.trace|];
    assert Added(w, r.world) == [e];
    SuccessesOne(e);
    forall done: seq<Callback>
      ensures done + [] == done
    { }
  }

  lemma CommandCarriesOn(c: Setting, w: World, command: Command)
    ensures CarriesOn(c, w, RunCommand(c, w, command), if command.Restic? then [command.task] else [])
  {
    var r := RunCommand(c, w, command);
    var e := r.world.trace[|w.trace|];
    assert Added(w, r.world) == [e];
    var more := Successes([e]);
    assert more == if command.Restic? && r.ok then [Callback(command.task, e.id, e.summary)] else [] by {
      SuccessesOne(e);
    }
    forall done | QueuesHold(c, w, done)
      ensures QueuesHold(c, r.world, done + more)
    {
      assert if more == [] then done + more == done else more[1..] == [];
      forall task
        ensures Queued(r.world.ids, task) == IdsOf(done + more, task)
      {
        assert Queued(w.ids, task) == IdsOf(done, task);
        IdsConcat(done, more, task);
      }
      forall name
        ensures Queued(r.world.artifacts, name) == Summaries(c, done + more, name)
      {
        assert Queued(w.artifacts, name) == Summaries(c, done, name);
        SummariesConcat(done, more, name);
      }
    }
  }

  /** A level adds only hooks around what is inside. */
  lemma LevelCarriesOn(c: Setting, w: World, level: Level, hooks: Hooks, inner: Result, plan: seq<Task>)
    requires var entered := Enter(c, w, level, hooks); if entered.ok then CarriesOn(c, entered.world, inner, plan) else inner == entered
    ensures CarriesOn(c, w, Leave(c, inner, level, hooks), plan)
  {
    var entered := Enter(c, w, level, hooks);
    HooksCarryOn(c, w, level, Pre, hooks.pre);
    var begun := Result(entered.world, true);
    if entered.ok {
      CarriesOnThen(c, w, begun, inner, [], plan);
      assert [] + plan == plan;
    }
    assert CarriesOn(c, w, inner, plan);
    HooksFollow(c, w, inner, level, if inner.ok then Post else OnError, if inner.ok then hooks.post else hooks.onError, plan);
  }

  lemma HooksFollow(c: Setting, w: World, inner: Result, level: Level, phase: Phase, hooks: seq<string>, plan: seq<Task>)
    requires CarriesOn(c, w, inner, plan)
    ensures CarriesOn(c, w, Result(RunHooks(c, inner.world, level, phase, hooks).world, inner.ok), plan)
  {
    var r := RunHooks(c, inner.world, level, phase, hooks);
    HooksCarryOn(c, inner.world, level, phase, hooks);
    AddedConcat(w, inner.world, r.world);
    SuccessesConcat(Added(w, inner.world), Added(inner.world, r.world));
    var x := Successes(Added(w, inner.world));
    assert x + [] == x;
    QueuesGrowThen(c, w, inner.world, r.world, x, []);
  }

  lemma {:induction false} TasksCarryOn(c: Setting, w: World, tasks: seq<Task>)
    ensures CarriesOn(c, w, RunTasks(c, w, tasks), tasks)
    decreases |tasks|
  {
    if tasks == [] {
      NothingCarriesOn(c, w);
    } else {
      var r := RunCommand(c, w, Restic(tasks[0]));
      CommandCarriesOn(c, w, Restic(tasks[0]));
      assert [tasks[0]] + tasks[1..] == tasks;
      if r.ok {
        TasksCarryOn(c, r.world, tasks[1..]);
        CarriesOnThen(c, w, r, RunTasks(c, r.world, tasks[1..]), [tasks[0]], tasks[1..]);
      } else {
        CarriesOnFailed(c, w, r, [tasks[0]], tasks[1..]);
      }
    }
  }

  lemma BackupCarriesOn(c: Setting, w: World, name: string)
    requires name in c.job.backups
    ensures CarriesOn(c, w, RunBackup(c, w, name), BackupTasks(name, c.job.backups[name]))
  {
    var backup := c.job.backups[name];
    var tasks := BackupTasks(name, backup);
    var entered := Enter(c, w, BackupLevel(name), backup.hooks);
    TasksCarryOn(c, entered.world, tasks);
    LevelCarriesOn(c, w, BackupLevel(name), backup.hooks, if entered.ok then RunTasks(c, entered.world, tasks) else entered, tasks);
  }

  lemma RcloneCarriesOn(c: Setting, w: World, name: string)
    requires name in c.job.rclones
    ensures CarriesOn(c, w, RunRclone(c, w, name), [])
  {
    var rclone := c.job.rclones[name];
    var entered := Enter(c, w, RcloneLevel(name), rclone.hooks);
    CommandCarriesOn(c, entered.world, Sync(name));
    LevelCarriesOn(c, w, RcloneLevel(name), rclone.hooks, if entered.ok then RunCommand(c, entered.world, Sync(name)) else entered, []);
  }

  lemma StepCarriesOn(c: Setting, w: World, step: string)
    requires ValidStep(c.job, step)
    ensures CarriesOn(c, w, RunStep(c, w, step), StepTasks(c.job, step))
  {
    var parts := Split(step, '.');
    if parts[0] == "rclone" {
      RcloneCarriesOn(c, w, parts[1]);
    } else if |parts| == 2 {
      BackupCarriesOn(c, w, parts[1]);
    } else {
      CommandCarriesOn(c, w, Restic(Task(parts[1], SubstepOf(parts[2]).value)));
    }
  }

  lemma {:induction false} StepsCarryOn(c: Setting, w: World, steps: seq<string>)
    requires ValidSteps(c.job, steps)
    ensures CarriesOn(c, w, RunSteps(c, w, steps), StepsTasks(c.job, steps))
    decreases |steps|
  {
    if steps == [] {
      NothingCarriesOn(c, w);
    } else {
      var r := RunStep(c, w, steps[0]);
      StepCarriesOn(c, w, steps[0]);
      if r.ok {
        StepsCarryOn(c, r.world, steps[1..]);
        CarriesOnThen(c, w, r, RunSteps(c, r.world, steps[1..]), StepTasks(c.job, steps[0]), StepsTasks(c.job, steps[1..]));
      } else {
        CarriesOnFailed(c, w, r, StepTasks(c.job, steps[0]), StepsTasks(c.job, steps[1..]));
      }
    }
  }

  lemma OperateCarriesOn(c: Setting, w: World, target: Target)
    requires ValidTarget(c.job, target)
    ensures CarriesOn(c, w, Operate(c, w, target), TargetTasks(c.job, target))
  {
    match target
    case BackupTarget(name) => BackupCarriesOn(c, w, name);
    case StepTarget(step) => StepCarriesOn(c, w, step);
    case WorkflowTarget(name) =>
      var workflow := c.job.workflows[name];
      var entered := Enter(c, w, WorkflowLevel(name), workflow.hooks);
      StepsCarryOn(c, entered.world, workflow.steps);
      LevelCarriesOn(c, w, WorkflowLevel(name), workflow.hooks,
                     if entered.ok then RunSteps(c, entered.world, workflow.steps) else entered, StepsTasks(c.job, workflow.steps));
  }

  /** A run performs a prefix of its target's plan, all of it if it succeeds, and queues exactly those successes. */
  lemma RunCarriesOn(c: Setting, w: World, target: Target)
    requires ValidTarget(c.job, target)
    ensures CarriesOn(c, w, RunOperational(c, w, target), TargetTasks(c.job, target))
  {
    var entered := Enter(c, w, JobLevel, c.job.hooks);
    OperateCarriesOn(c, entered.world, target);
    LevelCarriesOn(c, w, JobLevel, c.job.hooks, if entered.ok then Operate(c, entered.world, target) else entered, TargetTasks(c.job, target));
  }

  // ----- collecting -----

  /** A success is reported if it has a history id, or the run succeeded, or it is a backup that has a summary. */
  predicate IsReported(done: Callback, fallback: bool) {
    done.id.Some? || fallback || done.summary.Some?
  }

  function Reported(done: seq<Callback>, fallback: bool): seq<Callback> {
    if done == [] then []
    else (if IsReported(done[0], fallback) then [done[0]] else []) + Reported(done[1..], fallback)
  }

  /** A dry run reports nothing. */
  function Heard(c: Setting, done: seq<Callback>, fallback: bool): seq<Callback> {
    if c.dryRun then [] else Reported(done, fallback)
  }

  lemma PopsOwnId(w: World, done: seq<Callback>, c: Setting)
    requires done != [] && QueuesHold(c, w, done) && Labelled(c, done)
    ensures First(Queued(w.ids, done[0].task)) == done[0].id
    ensures forall task :: Queued(PopId(w.ids, done[0].task), task) == IdsOf(done[1..], task)
  {
    assert Queued(w.ids, done[0].task) == IdsOf(done, done[0].task);
    forall task
      ensures Queued(PopId(w.ids, done[0].task), task) == IdsOf(done[1..], task)
    {
      assert Queued(w.ids, task) == IdsOf(done, task);
      if done[0].id.None? {
        NoIds(done, task);
        NoIds(done, done[0].task);
      }
    }
    if done[0].id.None? {
      NoIds(done, done[0].task);
    }
  }

  lemma PopsOwnSummary(w: World, done: seq<Callback>, c: Setting)
    requires done != [] && QueuesHold(c, w, done) && Labelled(c, done)
    ensures NextSummary(w, done[0].task) == done[0].summary
    ensures var after := if done[0].task.substep == BackupStep then Consume(w.artifacts, done[0].task.name) else w.artifacts;
            forall name :: Queued(after, name) == Summaries(c, done[1..], name)
  {
    var task := done[0].task;
    assert Queued(w.artifacts, task.name) == Summaries(c, done, task.name);
    var after := if task.substep == BackupStep then Consume(w.artifacts, task.name) else w.artifacts;
    forall name
      ensures Queued(after, name) == Summaries(c, done[1..], name)
    {
      assert Queued(w.artifacts, name) == Summaries(c, done, name);
    }
  }

  lemma PopsOwn(c: Setting, w: World, done: seq<Callback>, fallback: bool)
    requires done != [] && QueuesHold(c, w, done) && Labelled(c, done)
    ensures var after := CollectTask(c, w, done[0].task, fallback);
            && QueuesHold(c, after, done[1..])
            && after.callbacks == w.callbacks + if !c.dryRun && IsReported(done[0], fallback) then [done[0]] else []
  {
    PopsOwnId(w, done, c);
    PopsOwnSummary(w, done, c);
  }

  lemma {:induction false} NoIds(done: seq<Callback>, task: Task)
    requires forall i :: 0 <= i < |done| ==> done[i].id.Some? == (done[0].id.Some?)
    requires done != [] && done[0].id.None?
    ensures IdsOf(done, task) == [] && IdsOf(done[1..], task) == []
  {
    if |done| > 1 {
      NoIds(done[1..], task);
    }
  }

  lemma NothingQueued(c: Setting, w: World, task: Task)
    requires QueuesHold(c, w, [])
    ensures var after := CollectTask(c, w, task, false); QueuesHold(c, after, []) && after.callbacks == w.callbacks
  {
    assert Queued(w.ids, task) == IdsOf([], task) == [];
    assert Queued(w.artifacts, task.name) == Summaries(c, [], task.name) == [];
    forall name
      ensures Queued(Consume(w.artifacts, task.name), name) == Summaries(c, [], name)
    {
      assert Queued(w.artifacts, name) == Summaries(c, [], name);
    }
  }

  lemma {:induction false} NothingToCollect(c: Setting, w: World, tasks: seq<Task>)
    requires QueuesHold(c, w, [])
    ensures var after := CollectTasks(c, w, tasks, false); after.callbacks == w.callbacks && QueuesHold(c, after, [])
    decreases |tasks|
  {
    if tasks != [] {
      NothingQueued(c, w, tasks[0]);
      NothingToCollect(c, CollectTask(c, w, tasks[0], false), tasks[1..]);
    }
  }

  lemma CollectFirst(c: Setting, w: World, tasks: seq<Task>, fallback: bool, done: seq<Callback>) returns (after: World)
    requires done != [] && QueuesHold(c, w, done) && Labelled(c, done) && StartsPlan(done, tasks)
    ensures QueuesHold(c, after, done[1..]) && CollectTasks(c, w, tasks, fallback) == CollectTasks(c, after, tasks[1..], fallback)
    ensures after.callbacks == w.callbacks + if !c.dryRun && IsReported(done[0], fallback) then [done[0]] else []
  {
    after := CollectTask(c, w, tasks[0], fallback);
    PopsOwn(c, w, done, fallback);
  }

  lemma ReportedUnfolds(c: Setting, before: seq<Callback>, done: seq<Callback>, fallback: bool)
    requires done != []
    ensures before + (if !c.dryRun && IsReported(done[0], fallback) then [done[0]] else []) + Heard(c, done[1..], fallback)
            == before + Heard(c, done, fallback)
  { }

  lemma RestFits(c: Setting, tasks: seq<Task>, done: seq<Callback>)
    requires done != [] && Labelled(c, done) && StartsPlan(done, tasks)
    ensures Labelled(c, done[1..]) && StartsPlan(done[1..], tasks[1..])
  { }

  lemma {:induction false} CollectPairs(c: Setting, w: World, tasks: seq<Task>, fallback: bool, done: seq<Callback>) returns (end: World)
    requires QueuesHold(c, w, done) && Labelled(c, done) && StartsPlan(done, tasks) && (fallback ==> |done| == |tasks|)
    ensures end == CollectTasks(c, w, tasks, fallback)
    ensures end.callbacks == w.callbacks + Heard(c, done, fallback) && QueuesHold(c, end, [])
    decreases |tasks|
  {
    if done == [] {
      end := CollectTasks(c, w, tasks, fallback);
      if tasks != [] {
        NothingToCollect(c, w, tasks);
      }
    } else {
      var after := CollectFirst(c, w, tasks, fallback, done);
      RestFits(c, tasks, done);
      end := CollectPairs(c, after, tasks[1..], fallback, done[1..]);
      ReportedUnfolds(c, w.callbacks, done, fallback);
    }
  }

  /** The successes of a run, as its trace tells them. */
  function RunSuccesses(c: Setting, w: World, target: Target): seq<Callback>
    requires ValidTarget(c.job, target) && w.trace <= RunOperational(c, w, target).world.trace
  {
    Successes(Added(w, RunOperational(c, w, target).world))
  }

  /** For any target, outcome and history, dry runs included: what is reported, and that both queues are empty again. */
  lemma RunReports(c: Setting, w: World, target: Target)
    requires ValidTarget(c.job, target) && QueuesHold(c, w, [])
    ensures w.trace <= RunOperational(c, w, target).world.trace
    ensures var r := RunTarget(c, w, target);
            r.world.callbacks == w.callbacks + Heard(c, RunSuccesses(c, w, target), r.ok) && QueuesHold(c, r.world, [])
  {
    var r := RunOperational(c, w, target);
    RunCarriesOn(c, w, target);
    var done := RunSuccesses(c, w, target);
    assert [] + done == done;
    var end := CollectPairs(c, r.world, TargetTasks(c.job, target), r.ok, done);
  }

  lemma {:induction false} AllReported(done: seq<Callback>, fallback: bool)
    ensures Reported(done, fallback) == done <==> forall i :: 0 <= i < |done| ==> IsReported(done[i], fallback)
    ensures |Reported(done, fallback)| <= |done|
  {
    if done != [] {
      AllReported(done[1..], fallback);
      assert done == [done[0]] + done[1..];
      if !IsReported(done[0], fallback) {
        assert |Reported(done, fallback)| < |done|;
      }
    }
  }

  /**
   With the history on, the callbacks are exactly the successful restic substeps in execution order, each with its own
   step id and, for a backup, its own summary.
   */
  lemma CallbacksAreTheSuccesses(c: Setting, w: World, target: Target)
    requires !c.dryRun && c.history && ValidTarget(c.job, target) && QueuesHold(c, w, [])
    ensures w.trace <= RunOperational(c, w, target).world.trace
    ensures RunTarget(c, w, target).world.callbacks == w.callbacks + RunSuccesses(c, w, target)
  {
    RunReports(c, w, target);
    RunCarriesOn(c, w, target);
    AllReported(RunSuccesses(c, w, target), RunTarget(c, w, target).ok);
  }

  /** Without it, that holds exactly when the run succeeded or every success is a backup with a summary. */
  lemma CallbacksWithoutHistoryIff(c: Setting, w: World, target: Target)
    requires !c.dryRun && !c.history && ValidTarget(c.job, target) && QueuesHold(c, w, [])
    ensures w.trace <= RunOperational(c, w, target).world.trace
    ensures RunTarget(c, w, target).world.callbacks == w.callbacks + RunSuccesses(c, w, target) <==>
              RunTarget(c, w, target).ok || forall done :: done in RunSuccesses(c, w, target) ==> done.summary.Some?
  {
    RunReports(c, w, target);
    RunCarriesOn(c, w, target);
    var done := RunSuccesses(c, w, target);
    var r := RunTarget(c, w, target);
    AllReported(done, r.ok);
    assert r.world.callbacks[|w.callbacks|..] == Reported(done, r.ok);
  }
}
