/** Reporting without run history: for which targets no success can be lost, whatever the outcomes. */
module JobHistory {
  import opened Wrappers
  import opened Text
  import opened JobModel
  import opened JobTraces
  import opened JobPairing

  /** A run without history in which every success is reported. */
  ghost predicate ReportsAll(c: Setting, w: World, target: Target)
    requires ValidTarget(c.job, target)
  {
    && w.trace <= RunOperational(c, w, target).world.trace
    && RunTarget(c, w, target).world.callbacks == w.callbacks + RunSuccesses(c, w, target)
  }

  ghost predicate WithoutHistory(c: Setting, w: World, job: Job) {
    c.job == job && !c.dryRun && !c.history && QueuesHold(c, w, [])
  }

  /** At most one restic substep, and in a workflow only in the last step: nothing that can fail comes after it. */
  predicate NothingFailsLater(job: Job, target: Target)
    requires ValidTarget(job, target)
  {
    match target
    case BackupTarget(name) => |BackupTasks(name, job.backups[name])| == 1
    case StepTarget(step) => |StepTasks(job, step)| <= 1
    case WorkflowTarget(name) => LastStepOnly(job, job.workflows[name].steps)
  }

  predicate LastStepOnly(job: Job, steps: seq<string>) {
    && (forall i :: 0 <= i < |steps| - 1 ==> StepTasks(job, steps[i]) == [])
    && (steps != [] ==> |StepTasks(job, steps[|steps| - 1])| <= 1)
  }

  // ----- enough: a success decides the run -----

  /** Once the piece has had a success, it succeeds. */
  ghost predicate Decided(w: World, r: Result) {
    w.trace <= r.world.trace && (Successes(Added(w, r.world)) != [] ==> r.ok)
  }

  lemma HooksAddNothing(c: Setting, w: World, level: Level, phase: Phase, hooks: seq<string>)
    ensures var r := RunHooks(c, w, level, phase, hooks); w.trace <= r.world.trace && Successes(Added(w, r.world)) == []
  {
    HooksCarryOn(c, w, level, phase, hooks);
  }

  lemma SuccessesThen(a: World, b: World, d: World)
    requires a.trace <= b.trace <= d.trace
    ensures a.trace <= d.trace && Successes(Added(a, d)) == Successes(Added(a, b)) + Successes(Added(b, d))
  {
    AddedConcat(a, b, d);
    SuccessesConcat(Added(a, b), Added(b, d));
  }

  /** A level adds no successes to those of its contents. */
  lemma LevelSuccesses(c: Setting, w: World, level: Level, hooks: Hooks, inner: Result)
    requires var entered := Enter(c, w, level, hooks); if entered.ok then entered.world.trace <= inner.world.trace else inner == entered
    ensures var entered, left := Enter(c, w, level, hooks), Leave(c, inner, level, hooks);
            && left.ok == inner.ok && w.trace <= entered.world.trace <= inner.world.trace <= left.world.trace
            && Successes(Added(w, left.world)) == if entered.ok then Successes(Added(entered.world, inner.world)) else []
  {
    var entered, left := Enter(c, w, level, hooks), Leave(c, inner, level, hooks);
    HooksAddNothing(c, w, level, Pre, hooks.pre);
    HooksAddNothing(c, inner.world, level, if inner.ok then Post else OnError, if inner.ok then hooks.post else hooks.onError);
    SuccessesThen(w, entered.world, inner.world);
    SuccessesThen(w, inner.world, left.world);
    if !entered.ok {
      assert Added(entered.world, inner.world) == [];
    }
  }

  lemma LevelDecided(c: Setting, w: World, level: Level, hooks: Hooks, inner: Result)
    requires var entered := Enter(c, w, level, hooks); if entered.ok then Decided(entered.world, inner) else inner == entered
    ensures Decided(w, Leave(c, inner, level, hooks))
  {
    LevelSuccesses(c, w, level, hooks, inner);
  }

  lemma CommandDecided(c: Setting, w: World, command: Command)
    ensures Decided(w, RunCommand(c, w, command))
  {
    CommandCarriesOn(c, w, command);
    assert Added(w, RunCommand(c, w, command).world) == [RunCommand(c, w, command).world.trace[|w.trace|]];
    SuccessesOne(RunCommand(c, w, command).world.trace[|w.trace|]);
  }

  lemma OneTaskDecided(c: Setting, w: World, tasks: seq<Task>)
    requires |tasks| == 1
    ensures Decided(w, RunTasks(c, w, tasks))
  {
    CommandDecided(c, w, Restic(tasks[0]));
    var r := RunCommand(c, w, Restic(tasks[0]));
    assert tasks[1..] == [];
  }

  lemma BackupDecided(c: Setting, w: World, name: string)
    requires name in c.job.backups && |BackupTasks(name, c.job.backups[name])| == 1
    ensures Decided(w, RunBackup(c, w, name))
  {
    var backup := c.job.backups[name];
    var entered := Enter(c, w, BackupLevel(name), backup.hooks);
    OneTaskDecided(c, entered.world, BackupTasks(name, backup));
    LevelDecided(c, w, BackupLevel(name), backup.hooks, if entered.ok then RunTasks(c, entered.world, BackupTasks(name, backup)) else entered);
  }

  lemma StepDecided(c: Setting, w: World, step: string)
    requires ValidStep(c.job, step) && |StepTasks(c.job, step)| <= 1
    ensures Decided(w, RunStep(c, w, step))
  {
    var parts := Split(step, '.');
    if parts[0] == "rclone" {
      RcloneCarriesOn(c, w, parts[1]);
    } else if |parts| == 2 {
      BackupDecided(c, w, parts[1]);
    } else {
      CommandDecided(c, w, Restic(Task(parts[1], SubstepOf(parts[2]).value)));
    }
  }

  lemma TailLastOnly(job: Job, steps: seq<string>)
    requires |steps| > 1 && LastStepOnly(job, steps)
    ensures StepTasks(job, steps[0]) == [] && LastStepOnly(job, steps[1..])
  {
    assert forall i :: 0 <= i < |steps[1..]| ==> steps[1..][i] == steps[i + 1];
  }

  lemma NoTaskNoSuccess(c: Setting, w: World, r: Result)
    requires CarriesOn(c, w, r, [])
    ensures w.trace <= r.world.trace && Successes(Added(w, r.world)) == []
  { }

  lemma DecidedThen(w: World, first: Result, second: Result)
    requires w.trace <= first.world.trace && Successes(Added(w, first.world)) == [] && Decided(first.world, second)
    ensures Decided(w, second)
  {
    SuccessesThen(w, first.world, second.world);
  }

  lemma {:induction false} StepsDecided(c: Setting, w: World, steps: seq<string>)
    requires ValidSteps(c.job, steps) && LastStepOnly(c.job, steps)
    ensures Decided(w, RunSteps(c, w, steps))
    decreases |steps|
  {
    if steps == [] {
      assert Added(w, w) == [];
    } else {
      var r := RunStep(c, w, steps[0]);
      if |steps| == 1 {
        StepDecided(c, w, steps[0]);
        assert steps[1..] == [];
      } else {
        TailLastOnly(c.job, steps);
        StepCarriesOn(c, w, steps[0]);
        NoTaskNoSuccess(c, w, r);
        if r.ok {
          StepsDecided(c, r.world, steps[1..]);
          DecidedThen(w, r, RunSteps(c, r.world, steps[1..]));
        }
      }
    }
  }

  lemma OperateDecided(c: Setting, w: World, target: Target)
    requires ValidTarget(c.job, target) && NothingFailsLater(c.job, target)
    ensures Decided(w, Operate(c, w, target))
  {
    match target
    case BackupTarget(name) => BackupDecided(c, w, name);
    case StepTarget(step) => StepDecided(c, w, step);
    case WorkflowTarget(name) =>
      var workflow := c.job.workflows[name];
      var entered := Enter(c, w, WorkflowLevel(name), workflow.hooks);
      StepsDecided(c, entered.world, workflow.steps);
      LevelDecided(c, w, WorkflowLevel(name), workflow.hooks, if entered.ok then RunSteps(c, entered.world, workflow.steps) else entered);
  }

  lemma NothingIsLost(c: Setting, w: World, target: Target)
    requires ValidTarget(c.job, target) && NothingFailsLater(c.job, target) && WithoutHistory(c, w, c.job)
    ensures ReportsAll(c, w, target)
  {
    var entered := Enter(c, w, JobLevel, c.job.hooks);
    OperateDecided(c, entered.world, target);
    LevelDecided(c, w, JobLevel, c.job.hooks, if entered.ok then Operate(c, entered.world, target) else entered);
    CallbacksWithoutHistoryIff(c, w, target);
  }

  // ----- needed: everything up to some event succeeds, and everything after it fails -----

  /** All hooks and commands of the first `k` events succeed, no later ones, and no backup has a summary. */
  function UpTo(job: Job, k: nat): Setting {
    Setting(job, false, false, (event: nat, i: nat) => event < k, (event: nat) => "", (event: nat) => None)
  }

  const NEW_WORLD := World([], map[], map[], [])

  lemma HooksHold(job: Job, k: nat, w: World, level: Level, phase: Phase, hooks: seq<string>)
    requires |w.trace| < k
    ensures var r := RunHooks(UpTo(job, k), w, level, phase, hooks); r.ok && |r.world.trace| == |w.trace| + 1
  {
    HooksRunInOrder(UpTo(job, k), |w.trace|, |hooks|);
  }

  lemma TaskHolds(job: Job, k: nat, w: World, task: Task)
    requires |w.trace| < k
    ensures var r := RunCommand(UpTo(job, k), w, Restic(task));
            && r.ok && w.trace <= r.world.trace && |r.world.trace| == |w.trace| + 1
            && Successes(Added(w, r.world)) == [Callback(task, None, None)]
  {
    var r := RunCommand(UpTo(job, k), w, Restic(task));
    assert Added(w, r.world) == [r.world.trace[|w.trace|]];
    SuccessesOne(r.world.trace[|w.trace|]);
  }

  /** A transfer in time: three events, no restic success. */
  lemma RcloneHolds(job: Job, k: nat, w: World, step: string)
    requires ValidStep(job, step) && StepTasks(job, step) == [] && |w.trace| + 3 <= k
    ensures var r := RunStep(UpTo(job, k), w, step); r.ok && |r.world.trace| == |w.trace| + 3
    ensures w.trace <= RunStep(UpTo(job, k), w, step).world.trace
    ensures Successes(Added(w, RunStep(UpTo(job, k), w, step).world)) == []
  {
    var c := UpTo(job, k);
    var name := Split(step, '.')[1];
    var hooks := job.rclones[name].hooks;
    HooksHold(job, k, w, RcloneLevel(name), Pre, hooks.pre);
    var entered := Enter(c, w, RcloneLevel(name), hooks);
    var inner := RunCommand(c, entered.world, Sync(name));
    HooksHold(job, k, inner.world, RcloneLevel(name), Post, hooks.post);
    StepCarriesOn(c, w, step);
  }

  /** A piece that begins too late: it fails and has no success. */
  ghost predicate Fails(w: World, r: Result) {
    w.trace <= r.world.trace && !r.ok && Successes(Added(w, r.world)) == []
  }

  lemma CommandFails(job: Job, k: nat, w: World, command: Command)
    requires k <= |w.trace|
    ensures Fails(w, RunCommand(UpTo(job, k), w, command))
  {
    var r := RunCommand(UpTo(job, k), w, command);
    assert Added(w, r.world) == [r.world.trace[|w.trace|]];
    SuccessesOne(r.world.trace[|w.trace|]);
  }

  lemma LevelFails(job: Job, k: nat, w: World, level: Level, hooks: Hooks, inner: Result)
    requires var entered := Enter(UpTo(job, k), w, level, hooks); if entered.ok then Fails(entered.world, inner) else inner == entered
    ensures Fails(w, Leave(UpTo(job, k), inner, level, hooks))
  {
    LevelSuccesses(UpTo(job, k), w, level, hooks, inner);
  }

  lemma TasksFail(job: Job, k: nat, w: World, tasks: seq<Task>)
    requires k <= |w.trace| && tasks != []
    ensures Fails(w, RunTasks(UpTo(job, k), w, tasks))
  {
    CommandFails(job, k, w, Restic(tasks[0]));
  }

  lemma StepFails(job: Job, k: nat, w: World, step: string)
    requires ValidStep(job, step) && k <= |w.trace|
    ensures Fails(w, RunStep(UpTo(job, k), w, step))
  {
    var c, parts := UpTo(job, k), Split(step, '.');
    if parts[0] == "rclone" {
      var hooks := job.rclones[parts[1]].hooks;
      var entered := Enter(c, w, RcloneLevel(parts[1]), hooks);
      CommandFails(job, k, entered.world, Sync(parts[1]));
      LevelFails(job, k, w, RcloneLevel(parts[1]), hooks, if entered.ok then RunCommand(c, entered.world, Sync(parts[1])) else entered);
    } else if |parts| == 2 {
      var backup := job.backups[parts[1]];
      var tasks := BackupTasks(parts[1], backup);
      var entered := Enter(c, w, BackupLevel(parts[1]), backup.hooks);
      TasksFail(job, k, entered.world, tasks);
      LevelFails(job, k, w, BackupLevel(parts[1]), backup.hooks, if entered.ok then RunTasks(c, entered.world, tasks) else entered);
    } else {
      CommandFails(job, k, w, Restic(Task(parts[1], SubstepOf(parts[2]).value)));
    }
  }

  lemma StepsFail(job: Job, k: nat, w: World, steps: seq<string>)
    requires ValidSteps(job, steps) && steps != [] && k <= |w.trace|
    ensures Fails(w, RunSteps(UpTo(job, k), w, steps))
  {
    StepFails(job, k, w, steps[0]);
  }

  /** Exactly one success, and whether that was all there was to do. */
  ghost predicate OneSuccess(w: World, r: Result, task: Task, ok: bool) {
    w.trace <= r.world.trace && r.ok == ok && Successes(Added(w, r.world)) == [Callback(task, None, None)]
  }

  lemma FirstTaskOnly(job: Job, k: nat, w: World, tasks: seq<Task>)
    requires tasks != [] && |w.trace| + 1 == k
    ensures var r := RunTasks(UpTo(job, k), w, tasks); OneSuccess(w, r, tasks[0], |tasks| == 1) && k <= |r.world.trace|
  {
    TaskHolds(job, k, w, tasks[0]);
    var first := RunCommand(UpTo(job, k), w, Restic(tasks[0]));
    if |tasks| > 1 {
      TasksFail(job, k, first.world, tasks[1..]);
      SuccessesThen(w, first.world, RunTasks(UpTo(job, k), first.world, tasks[1..]).world);
    } else {
      assert tasks[1..] == [];
    }
  }

  lemma BackupFirstOnly(job: Job, k: nat, w: World, name: string)
    requires name in job.backups && |w.trace| + 2 == k
    ensures var tasks, r := BackupTasks(name, job.backups[name]), RunBackup(UpTo(job, k), w, name);
            OneSuccess(w, r, tasks[0], |tasks| == 1) && k <= |r.world.trace|
  {
    var c, backup := UpTo(job, k), job.backups[name];
    HooksHold(job, k, w, BackupLevel(name), Pre, backup.hooks.pre);
    var entered := Enter(c, w, BackupLevel(name), backup.hooks);
    FirstTaskOnly(job, k, entered.world, BackupTasks(name, backup));
    LevelSuccesses(c, w, BackupLevel(name), backup.hooks, RunTasks(c, entered.world, BackupTasks(name, backup)));
  }

  /** How many events a step takes to its first restic success. */
  function FirstSuccess(step: string): nat {
    if |Split(step, '.')| == 2 then 2 else 1
  }

  lemma StepFirstOnly(job: Job, k: nat, w: World, step: string)
    requires ValidStep(job, step) && StepTasks(job, step) != [] && |w.trace| + FirstSuccess(step) == k
    ensures var r := RunStep(UpTo(job, k), w, step);
            OneSuccess(w, r, StepTasks(job, step)[0], |StepTasks(job, step)| == 1) && k <= |r.world.trace|
  {
    var parts := Split(step, '.');
    if |parts| == 2 {
      BackupFirstOnly(job, k, w, parts[1]);
    } else {
      TaskHolds(job, k, w, StepTasks(job, step)[0]);
    }
  }

  /** Steps before the first one with a restic substep, three events each; then that one; then nothing succeeds any more. */
  lemma {:induction false} StepsFirstOnly(job: Job, k: nat, w: World, steps: seq<string>, i: nat)
    requires ValidSteps(job, steps) && i < |steps| && StepTasks(job, steps[i]) != []
    requires forall j :: 0 <= j < i ==> StepTasks(job, steps[j]) == []
    requires k == |w.trace| + 3 * i + FirstSuccess(steps[i])
    ensures OneSuccess(w, RunSteps(UpTo(job, k), w, steps), StepTasks(job, steps[i])[0], i == |steps| - 1 && |StepTasks(job, steps[i])| == 1)
    decreases i
  {
    var c := UpTo(job, k);
    var r := RunStep(c, w, steps[0]);
    if i > 0 {
      RcloneHolds(job, k, w, steps[0]);
      StepsFirstOnly(job, k, r.world, steps[1..], i - 1);
      SuccessesThen(w, r.world, RunSteps(c, r.world, steps[1..]).world);
    } else {
      StepFirstOnly(job, k, w, steps[0]);
      if r.ok && |steps| > 1 {
        StepsFail(job, k, r.world, steps[1..]);
        SuccessesThen(w, r.world, RunSteps(c, r.world, steps[1..]).world);
      } else if r.ok {
        assert steps[1..] == [];
      }
    }
  }

  lemma {:induction false} FirstResticStep(job: Job, steps: seq<string>) returns (i: nat)
    requires !LastStepOnly(job, steps)
    ensures i < |steps| && StepTasks(job, steps[i]) != [] && forall j :: 0 <= j < i ==> StepTasks(job, steps[j]) == []
    ensures i == |steps| - 1 ==> |StepTasks(job, steps[i])| != 1
  {
    i := 0;
    while StepTasks(job, steps[i]) == []
      invariant i < |steps| && forall j :: 0 <= j < i ==> StepTasks(job, steps[j]) == []
      decreases |steps| - i
    {
      assert i + 1 < |steps|;
      i := i + 1;
    }
  }

  /** The contents of a run that stops right after its first restic success, begun at `start` events. */
  lemma OperateStops(job: Job, target: Target, w: World) returns (k: nat, task: Task)
    requires ValidTarget(job, target) && !NothingFailsLater(job, target)
    ensures |w.trace| < k && OneSuccess(w, Operate(UpTo(job, k), w, target), task, false)
  {
    match target
    case BackupTarget(name) =>
      k, task := |w.trace| + 2, BackupTasks(name, job.backups[name])[0];
      BackupFirstOnly(job, k, w, name);
    case StepTarget(step) =>
      k, task := |w.trace| + FirstSuccess(step), StepTasks(job, step)[0];
      StepFirstOnly(job, k, w, step);
    case WorkflowTarget(name) =>
      k, task := WorkflowStops(job, name, w);
  }

  lemma WorkflowStops(job: Job, name: string, w: World) returns (k: nat, task: Task)
    requires ValidTarget(job, WorkflowTarget(name)) && !LastStepOnly(job, job.workflows[name].steps)
    ensures |w.trace| < k && OneSuccess(w, Operate(UpTo(job, k), w, WorkflowTarget(name)), task, false)
  {
    var workflow := job.workflows[name];
    var i := FirstResticStep(job, workflow.steps);
    k, task := |w.trace| + 1 + 3 * i + FirstSuccess(workflow.steps[i]), StepTasks(job, workflow.steps[i])[0];
    HooksHold(job, k, w, WorkflowLevel(name), Pre, workflow.hooks.pre);
    var entered := Enter(UpTo(job, k), w, WorkflowLevel(name), workflow.hooks);
    StepsFirstOnly(job, k, entered.world, workflow.steps, i);
    LevelSuccesses(UpTo(job, k), w, WorkflowLevel(name), workflow.hooks, RunSteps(UpTo(job, k), entered.world, workflow.steps));
  }

  lemma NewWorldHoldsNothing(c: Setting)
    ensures QueuesHold(c, NEW_WORLD, [])
  { }

  /** Right after the pre hooks of the job. */
  function Begun(job: Job): World {
    World([HookList(JobLevel, Pre, job.hooks.pre, true)], map[], map[], [])
  }

  lemma JobBegins(job: Job, k: nat)
    requires 0 < k
    ensures Enter(UpTo(job, k), NEW_WORLD, JobLevel, job.hooks) == Result(Begun(job), true)
  {
    HooksRunInOrder(UpTo(job, k), 0, |job.hooks.pre|);
    assert job.hooks.pre[..|job.hooks.pre|] == job.hooks.pre;
  }

  lemma NotReported(task: Task)
    ensures Reported([Callback(task, None, None)], false) == []
  {
    assert [Callback(task, None, None)][1..] == [];
  }

  /** A run that fails after its only success never reports it. */
  lemma StoppedRunLoses(job: Job, k: nat, target: Target, task: Task)
    requires ValidTarget(job, target) && 0 < k && OneSuccess(Begun(job), Operate(UpTo(job, k), Begun(job), target), task, false)
    ensures Loses(UpTo(job, k), target, task)
  {
    var c := UpTo(job, k);
    JobBegins(job, k);
    LevelSuccesses(c, NEW_WORLD, JobLevel, job.hooks, Operate(c, Begun(job), target));
    NewWorldHoldsNothing(c);
    RunReports(c, NEW_WORLD, target);
    NotReported(task);
  }

  /** From scratch and without history, the run's only success is not reported. */
  ghost predicate Loses(c: Setting, target: Target, task: Task)
    requires ValidTarget(c.job, target)
  {
    && WithoutHistory(c, NEW_WORLD, c.job)
    && NEW_WORLD.trace <= RunOperational(c, NEW_WORLD, target).world.trace
    && RunSuccesses(c, NEW_WORLD, target) == [Callback(task, None, None)]
    && RunTarget(c, NEW_WORLD, target).world.callbacks == []
  }

  lemma SomethingIsLost(job: Job, target: Target) returns (k: nat, task: Task)
    requires ValidTarget(job, target) && !NothingFailsLater(job, target)
    ensures Loses(UpTo(job, k), target, task)
  {
    k, task := OperateStops(job, target, Begun(job));
    StoppedRunLoses(job, k, target, task);
  }

  /** A backup with retention whose retention fails: the snapshot was taken, and nothing is reported. */
  lemma FailedRetentionLosesTheBackup()
    ensures var job := Job(map["b" := Backup("r", true, false, Hooks([], [], []))], map[], map[], Hooks([], [], []));
            Loses(UpTo(job, 3), BackupTarget("b"), Task("b", BackupStep))
  {
    var job := Job(map["b" := Backup("r", true, false, Hooks([], [], []))], map[], map[], Hooks([], [], []));
    BackupFirstOnly(job, 3, Begun(job), "b");
    StoppedRunLoses(job, 3, BackupTarget("b"), Task("b", BackupStep));
  }

  /**
   Without history every success is reported in every run of a target, whatever succeeds and fails, exactly if nothing that
   can fail comes after a restic substep of it.
   */
  lemma AllReportedWithoutHistoryIff(job: Job, target: Target)
    requires ValidTarget(job, target)
    ensures (forall c, w :: WithoutHistory(c, w, job) ==> ReportsAll(c, w, target)) <==> NothingFailsLater(job, target)
  {
    if NothingFailsLater(job, target) {
      forall c, w | WithoutHistory(c, w, job)
        ensures ReportsAll(c, w, target)
      {
        NothingIsLost(c, w, target);
      }
    } else {
      var k, task := SomethingIsLost(job, target);
      assert WithoutHistory(UpTo(job, k), NEW_WORLD, job) && !ReportsAll(UpTo(job, k), NEW_WORLD, target);
    }
  }
}
