/** The runner and its engine as they update their state, proved against the meaning of a run. */
module JobService {
  import opened Wrappers
  import opened Text
  import opened JobModel

  lemma {:induction false} HooksStop(c: Setting, k: nat, n: nat, count: nat)
    requires 0 < n <= count && HooksRun(c, k, n) == n && !c.outcome(k, n - 1)
    ensures HooksRun(c, k, count) == n && !HooksOk(c, k, count)
  {
    if count > n {
      HooksStop(c, k, n, count - 1);
    }
  }

  class JobRunner {
    const c: Setting
    var trace: seq<Event>
    var lastSuccessfulStepIds: map<Task, seq<string>>
    var completedBackupArtifacts: map<string, seq<Option<string>>>
    var callbacks: seq<Callback>

    function W(): World
      reads this
    {
      World(trace, lastSuccessfulStepIds, completedBackupArtifacts, callbacks)
    }

    constructor (c: Setting)
      ensures this.c == c && W() == World([], map[], map[], [])
    {
      this.c := c;
      trace, lastSuccessfulStepIds, completedBackupArtifacts, callbacks := [], map[], map[], [];
    }

    // ----- the engine -----

    method RunHookList(level: Level, phase: Phase, hooks: seq<string>) returns (ok: bool)
      modifies this
      ensures Result(W(), ok) == RunHooks(c, old(W()), level, phase, hooks)
    {
      var ran := 0;
      ok := true;
      if !c.dryRun {
        while ok && ran < |hooks|
          invariant 0 <= ran <= |hooks| && trace == old(trace)
          invariant HooksRun(c, |trace|, ran) == ran && ok == HooksOk(c, |trace|, ran)
          decreases |hooks| - ran
        {
          ok := c.outcome(|trace|, ran);
          ran := ran + 1;
        }
        if !ok {
          HooksStop(c, |trace|, ran, |hooks|);
        }
      }
      trace := trace + [HookList(level, phase, hooks[..ran], ok)];
    }

    /** Pre hooks; if they fail the level is over. */
    method EnterLevel(level: Level, hooks: Hooks) returns (ok: bool)
      modifies this
      ensures Result(W(), ok) == Enter(c, old(W()), level, hooks)
    {
      ok := RunHookList(level, Pre, hooks.pre);
    }

    method LeaveLevel(level: Level, hooks: Hooks, ok: bool)
      modifies this
      ensures Result(W(), ok) == Leave(c, Result(old(W()), ok), level, hooks)
    {
      if ok {
        var warned := RunHookList(level, Post, hooks.post);
      } else {
        var ignored := RunHookList(level, OnError, hooks.onError);
      }
    }

    /** A command between the two history callbacks; a successful backup leaves its summary. */
    method RunTrackedStep(command: Command) returns (ok: bool)
      modifies this
      ensures Result(W(), ok) == RunCommand(c, old(W()), command)
    {
      var k := |trace|;
      var id := if c.history then Some(c.newId(k)) else None;
      ok := c.outcome(k, 0);
      var summary := None;
      if ok && command.Restic? && id.Some? {
        lastSuccessfulStepIds := lastSuccessfulStepIds[command.task := Queued(lastSuccessfulStepIds, command.task) + [id.value]];
      }
      if ok && command.Restic? && command.task.substep == BackupStep && !c.dryRun {
        summary := c.summaryOf(k);
        var name := command.task.name;
        completedBackupArtifacts := completedBackupArtifacts[name := Queued(completedBackupArtifacts, name) + [summary]];
      }
      trace := trace + [CommandRun(command, ok, id, summary)];
    }

    method RunBackupCore(name: string, backup: Backup) returns (ok: bool)
      modifies this
      ensures Result(W(), ok) == RunTasks(c, old(W()), BackupTasks(name, backup))
    {
      CoreUnfolds(c, W(), name, backup);
      ok := RunTrackedStep(Restic(Task(name, BackupStep)));
      if ok && backup.retention {
        ok := RunTrackedStep(Restic(Task(name, RetentionStep)));
      }
      if ok && backup.cleanup {
        ok := RunTrackedStep(Restic(Task(name, CleanupStep)));
      }
    }

    method ExecuteBackup(name: string) returns (ok: bool)
      requires name in c.job.backups
      modifies this
      ensures Result(W(), ok) == RunBackup(c, old(W()), name)
    {
      var backup := c.job.backups[name];
      ok := EnterLevel(BackupLevel(name), backup.hooks);
      if ok {
        ok := RunBackupCore(name, backup);
      }
      LeaveLevel(BackupLevel(name), backup.hooks, ok);
    }

    method ExecuteRclone(name: string) returns (ok: bool)
      requires name in c.job.rclones
      modifies this
      ensures Result(W(), ok) == RunRclone(c, old(W()), name)
    {
      var rclone := c.job.rclones[name];
      ok := EnterLevel(RcloneLevel(name), rclone.hooks);
      if ok {
        ok := RunTrackedStep(Sync(name));
      }
      LeaveLevel(RcloneLevel(name), rclone.hooks, ok);
    }

    method ExecuteStep(step: string) returns (ok: bool)
      modifies this
      ensures Result(W(), ok) == RunStep(c, old(W()), step)
    {
      var parts := Split(step, '.');
      if parts[0] == "rclone" && |parts| == 2 && parts[1] in c.job.rclones {
        ok := ExecuteRclone(parts[1]);
      } else if parts[0] == "backup" && |parts| == 2 && parts[1] in c.job.backups {
        ok := ExecuteBackup(parts[1]);
      } else if parts[0] == "backup" && |parts| == 3 && SubstepOf(parts[2]).Some? && parts[1] in c.job.backups {
        ok := RunTrackedStep(Restic(Task(parts[1], SubstepOf(parts[2]).value)));
      } else {
        trace := trace + [UnknownStep(step)];
        ok := false;
      }
    }

    /** The steps in order, up to the first failure. */
    method ExecuteSteps(steps: seq<string>) returns (ok: bool)
      modifies this
      ensures Result(W(), ok) == RunSteps(c, old(W()), steps)
    {
      ok := true;
      var i := 0;
      while i < |steps|
        invariant 0 <= i <= |steps| && RunSteps(c, W(), steps[i..]) == RunSteps(c, old(W()), steps)
      {
        assert steps[i..][1..] == steps[i + 1..];
        ok := ExecuteStep(steps[i]);
        if !ok {
          return;
        }
        i := i + 1;
      }
      ok := true;
    }

    method ExecuteWorkflow(name: string, workflow: Workflow) returns (ok: bool)
      modifies this
      ensures Result(W(), ok) == RunWorkflow(c, old(W()), name, workflow)
    {
      ok := EnterLevel(WorkflowLevel(name), workflow.hooks);
      if ok {
        ok := ExecuteSteps(workflow.steps);
      }
      LeaveLevel(WorkflowLevel(name), workflow.hooks, ok);
    }

    // ----- the collection -----

    method CollectSuccessfulBackupSubstep(task: Task, fallback: bool)
      modifies this
      ensures W() == CollectTask(c, old(W()), task, fallback)
    {
      var id, summary := None, None;
      var pending := Queued(lastSuccessfulStepIds, task);
      if pending != [] {
        id := Some(pending[0]);
        lastSuccessfulStepIds := lastSuccessfulStepIds[task := pending[1..]];
      }
      if task.substep == BackupStep {
        var candidates := Queued(completedBackupArtifacts, task.name);
        if candidates != [] {
          summary := candidates[0];
        }
        completedBackupArtifacts :=
          if |candidates| <= 1 then completedBackupArtifacts - {task.name} else completedBackupArtifacts[task.name := candidates[1..]];
      }
      if id.None? && !fallback && (task.substep != BackupStep || summary.None?) {
        return;
      }
      if !c.dryRun {
        callbacks := callbacks + [Callback(task, id, summary)];
      }
    }

    method Collect(tasks: seq<Task>, fallback: bool)
      modifies this
      ensures W() == CollectTasks(c, old(W()), tasks, fallback)
    {
      var i := 0;
      while i < |tasks|
        invariant 0 <= i <= |tasks| && CollectTasks(c, W(), tasks[i..], fallback) == CollectTasks(c, old(W()), tasks, fallback)
      {
        assert tasks[i..][1..] == tasks[i + 1..];
        CollectSuccessfulBackupSubstep(tasks[i], fallback);
        i := i + 1;
      }
    }

    /** The plan of a workflow is collected step by step. */
    method CollectSteps(steps: seq<string>, fallback: bool)
      modifies this
      ensures W() == CollectTasks(c, old(W()), StepsTasks(c.job, steps), fallback)
    {
      var i := 0;
      while i < |steps|
        invariant 0 <= i <= |steps|
        invariant CollectTasks(c, W(), StepsTasks(c.job, steps[i..]), fallback) == CollectTasks(c, old(W()), StepsTasks(c.job, steps), fallback)
      {
        ghost var rest := StepsUnfold(c.job, steps, i);
        CollectConcat(c, W(), StepTasks(c.job, steps[i]), rest, fallback);
        Collect(StepTasks(c.job, steps[i]), fallback);
        i := i + 1;
      }
    }

    // ----- one run -----

    method RunWithJobHooks(target: Target) returns (ok: bool)
      requires ValidTarget(c.job, target)
      modifies this
      ensures Result(W(), ok) == RunOperational(c, old(W()), target)
    {
      ok := EnterLevel(JobLevel, c.job.hooks);
      if ok {
        match target
        case BackupTarget(name) => ok := ExecuteBackup(name);
        case StepTarget(step) => ok := ExecuteStep(step);
        case WorkflowTarget(name) => ok := ExecuteWorkflow(name, c.job.workflows[name]);
      }
      LeaveLevel(JobLevel, c.job.hooks, ok);
    }

    method Run(target: Target) returns (ok: bool)
      modifies this
      ensures Result(W(), ok) == RunTarget(c, old(W()), target)
    {
      if !ValidTarget(c.job, target) {
        return false;
      }
      ok := RunWithJobHooks(target);
      match target
      case BackupTarget(name) => Collect(BackupTasks(name, c.job.backups[name]), ok);
      case StepTarget(step) => Collect(StepTasks(c.job, step), ok);
      case WorkflowTarget(name) => CollectSteps(c.job.workflows[name].steps, ok);
    }
  }

  lemma StepsUnfold(job: Job, steps: seq<string>, i: nat) returns (rest: seq<Task>)
    requires i < |steps|
    ensures rest == StepsTasks(job, steps[i + 1..]) && StepsTasks(job, steps[i..]) == StepTasks(job, steps[i]) + rest
  {
    rest := StepsTasks(job, steps[i + 1..]);
    assert steps[i..][1..] == steps[i + 1..];
  }

  lemma {:induction false} CollectConcat(c: Setting, w: World, a: seq<Task>, b: seq<Task>, fallback: bool)
    ensures CollectTasks(c, w, a + b, fallback) == CollectTasks(c, CollectTasks(c, w, a, fallback), b, fallback)
    decreases |a|
  {
    if a == [] {
      assert a + b == b;
    } else {
      assert (a + b)[1..] == a[1..] + b;
      CollectConcat(c, CollectTask(c, w, a[0], fallback), a[1..], b, fallback);
    }
  }

  lemma TasksConcat(c: Setting, w: World, a: seq<Task>, b: seq<Task>)
    ensures RunTasks(c, w, a + b) == var r := RunTasks(c, w, a); if r.ok then RunTasks(c, r.world, b) else r
    decreases |a|
  {
    if a == [] {
      assert a + b == b;
    } else {
      assert (a + b)[1..] == a[1..] + b;
      var r := RunCommand(c, w, Restic(a[0]));
      if r.ok {
        TasksConcat(c, r.world, a[1..], b);
      }
    }
  }

  lemma OneTask(c: Setting, w: World, task: Task)
    ensures RunTasks(c, w, [task]) == RunCommand(c, w, Restic(task))
  {
    assert [task][1..] == [];
    var r := RunCommand(c, w, Restic(task));
    assert r.ok ==> RunTasks(c, r.world, []) == Result(r.world, true);
  }

  /** The core of a backup: each substep only if the one before it succeeded and it is configured. */
  lemma CoreUnfolds(c: Setting, w: World, name: string, backup: Backup)
    ensures var first := RunCommand(c, w, Restic(Task(name, BackupStep)));
            var second := if first.ok && backup.retention then RunCommand(c, first.world, Restic(Task(name, RetentionStep))) else first;
            var third := if second.ok && backup.cleanup then RunCommand(c, second.world, Restic(Task(name, CleanupStep))) else second;
            RunTasks(c, w, BackupTasks(name, backup)) == third
  {
    var a, b, d := Task(name, BackupStep), Task(name, RetentionStep), Task(name, CleanupStep);
    var retention, cleanup := if backup.retention then [b] else [], if backup.cleanup then [d] else [];
    TasksConcat(c, w, [a] + retention, cleanup);
    TasksConcat(c, w, [a], retention);
    OneTask(c, w, a);
    var first := RunCommand(c, w, Restic(a));
    OneTask(c, first.world, b);
    var second := if first.ok && backup.retention then RunCommand(c, first.world, Restic(b)) else first;
    OneTask(c, second.world, d);
  }
}
