/** What a run actually performs: the commands its step strings name, in order, and the hooks of its own levels. */
module JobSteps {
  import opened Wrappers
  import opened Text
  import opened JobModel
  import opened JobTraces

  // ----- the commands a target names -----

  /** The commands of a whole backup: retention and cleanup only if configured. */
  function WholeBackup(name: string, backup: Backup): seq<Command> {
    [Restic(Task(name, BackupStep))]
    + (if backup.retention then [Restic(Task(name, RetentionStep))] else [])
    + (if backup.cleanup then [Restic(Task(name, CleanupStep))] else [])
  }

  /** What the parts of a valid step string name. */
  function StepCommands(job: Job, parts: seq<string>): seq<Command>
    requires parts != [] && ValidParts(job, parts)
  {
    if parts[0] == "rclone" then [Sync(parts[1])]
    else if |parts| == 2 then WholeBackup(parts[1], job.backups[parts[1]])
    else if parts[2] == "backup" then [Restic(Task(parts[1], BackupStep))]
    else if parts[2] == "retention" then [Restic(Task(parts[1], RetentionStep))]
    else [Restic(Task(parts[1], CleanupStep))]
  }

  function StepsCommands(job: Job, steps: seq<string>): seq<Command>
    requires ValidSteps(job, steps)
  {
    if steps == [] then [] else StepCommands(job, Split(steps[0], '.')) + StepsCommands(job, steps[1..])
  }

  function TargetCommands(job: Job, target: Target): seq<Command>
    requires ValidTarget(job, target)
  {
    match target
    case BackupTarget(name) => WholeBackup(name, job.backups[name])
    case StepTarget(step) => StepCommands(job, Split(step, '.'))
    case WorkflowTarget(name) => StepsCommands(job, job.workflows[name].steps)
  }

  /** The commands of a trace. */
  function Commands(events: seq<Event>): seq<Command> {
    if events == [] then []
    else
      var e := events[|events| - 1];
      Commands(events[..|events| - 1]) + if e.CommandRun? then [e.command] else []
  }

  lemma {:induction false} CommandsConcat(a: seq<Event>, b: seq<Event>)
    ensures Commands(a + b) == Commands(a) + Commands(b)
  {
    if b == [] {
      assert a + b == a;
    } else {
      assert (a + b)[..|a + b| - 1] == a + b[..|b| - 1];
      CommandsConcat(a, b[..|b| - 1]);
    }
  }

  lemma CommandsOne(e: Event)
    ensures Commands([e]) == if e.CommandRun? then [e.command] else []
  {
    assert [e][..|[e]| - 1] == [];
  }

  /** The piece performs the plan from its beginning, and all of it if it succeeds. */
  ghost predicate Performed(w: World, r: Result, plan: seq<Command>) {
    w.trace <= r.world.trace && Commands(Added(w, r.world)) <= plan && (r.ok ==> Commands(Added(w, r.world)) == plan)
  }

  lemma CommandsThen(a: World, b: World, d: World)
    requires a.trace <= b.trace <= d.trace
    ensures a.trace <= d.trace && Commands(Added(a, d)) == Commands(Added(a, b)) + Commands(Added(b, d))
  {
    AddedConcat(a, b, d);
    CommandsConcat(Added(a, b), Added(b, d));
  }

  lemma PerformedThen(w: World, first: Result, second: Result, a: seq<Command>, b: seq<Command>)
    requires Performed(w, first, a) && first.ok && Performed(first.world, second, b)
    ensures Performed(w, second, a + b)
  {
    CommandsThen(w, first.world, second.world);
  }

  lemma PerformedInPart(w: World, first: Result, a: seq<Command>, b: seq<Command>)
    requires Performed(w, first, a) && !first.ok
    ensures Performed(w, first, a + b)
  { }

  lemma OnePerformed(c: Setting, w: World, command: Command)
    ensures Performed(w, RunCommand(c, w, command), [command])
  {
    var r := RunCommand(c, w, command);
    assert Added(w, r.world) == [r.world.trace[|w.trace|]];
    CommandsOne(r.world.trace[|w.trace|]);
  }

  lemma HooksPerformNothing(c: Setting, w: World, level: Level, phase: Phase, hooks: seq<string>)
    ensures var r := RunHooks(c, w, level, phase, hooks); w.trace <= r.world.trace && Commands(Added(w, r.world)) == []
  {
    var r := RunHooks(c, w, level, phase, hooks);
    assert Added(w, r.world) == [r.world.trace[|w.trace|]];
    CommandsOne(r.world.trace[|w.trace|]);
  }

  lemma LevelPerforms(c: Setting, w: World, level: Level, hooks: Hooks, inner: Result, plan: seq<Command>)
    requires var entered := Enter(c, w, level, hooks); if entered.ok then Performed(entered.world, inner, plan) else inner == entered
    ensures Performed(w, Leave(c, inner, level, hooks), plan)
  {
    var entered, left := Enter(c, w, level, hooks), Leave(c, inner, level, hooks);
    HooksPerformNothing(c, w, level, Pre, hooks.pre);
    HooksPerformNothing(c, inner.world, level, if inner.ok then Post else OnError, if inner.ok then hooks.post else hooks.onError);
    CommandsThen(w, entered.world, inner.world);
    CommandsThen(w, inner.world, left.world);
    if !entered.ok {
      assert Added(entered.world, inner.world) == [];
    }
  }

  function ResticOf(tasks: seq<Task>): seq<Command> {
    if tasks == [] then [] else [Restic(tasks[0])] + ResticOf(tasks[1..])
  }

  lemma {:induction false} TasksPerformed(c: Setting, w: World, tasks: seq<Task>)
    ensures Performed(w, RunTasks(c, w, tasks), ResticOf(tasks))
    decreases |tasks|
  {
    if tasks == [] {
      assert Added(w, w) == [];
    } else {
      var r := RunCommand(c, w, Restic(tasks[0]));
      OnePerformed(c, w, Restic(tasks[0]));
      if r.ok {
        TasksPerformed(c, r.world, tasks[1..]);
        PerformedThen(w, r, RunTasks(c, r.world, tasks[1..]), [Restic(tasks[0])], ResticOf(tasks[1..]));
      } else {
        PerformedInPart(w, r, [Restic(tasks[0])], ResticOf(tasks[1..]));
      }
    }
  }

  lemma WholeBackupTasks(name: string, backup: Backup)
    ensures ResticOf(BackupTasks(name, backup)) == WholeBackup(name, backup)
  {
    var tasks := BackupTasks(name, backup);
    assert ResticOf(tasks) == [Restic(tasks[0])] + ResticOf(tasks[1..]);
    if |tasks| > 1 {
      assert ResticOf(tasks[1..]) == [Restic(tasks[1])] + ResticOf(tasks[1..][1..]);
    }
    if |tasks| > 2 {
      assert ResticOf(tasks[1..][1..]) == [Restic(tasks[2])] + ResticOf(tasks[1..][1..][1..]);
    }
  }

  /** A backup performs its backup, and then retention and cleanup as far as they are configured and all before succeeded. */
  lemma BackupPerforms(c: Setting, w: World, name: string)
    requires name in c.job.backups
    ensures Performed(w, RunBackup(c, w, name), WholeBackup(name, c.job.backups[name]))
  {
    var backup := c.job.backups[name];
    var entered := Enter(c, w, BackupLevel(name), backup.hooks);
    TasksPerformed(c, entered.world, BackupTasks(name, backup));
    WholeBackupTasks(name, backup);
    LevelPerforms(c, w, BackupLevel(name), backup.hooks,
                  if entered.ok then RunTasks(c, entered.world, BackupTasks(name, backup)) else entered, WholeBackup(name, backup));
  }

  lemma RclonePerforms(c: Setting, w: World, name: string)
    requires name in c.job.rclones
    ensures Performed(w, RunRclone(c, w, name), [Sync(name)])
  {
    var rclone := c.job.rclones[name];
    var entered := Enter(c, w, RcloneLevel(name), rclone.hooks);
    OnePerformed(c, entered.world, Sync(name));
    LevelPerforms(c, w, RcloneLevel(name), rclone.hooks, if entered.ok then RunCommand(c, entered.world, Sync(name)) else entered, [Sync(name)]);
  }

  lemma StepPerforms(c: Setting, w: World, step: string)
    requires ValidStep(c.job, step)
    ensures Performed(w, RunStep(c, w, step), StepCommands(c.job, Split(step, '.')))
  {
    var parts := Split(step, '.');
    if parts[0] == "rclone" {
      RclonePerforms(c, w, parts[1]);
    } else if |parts| == 2 {
      BackupPerforms(c, w, parts[1]);
    } else {
      OnePerformed(c, w, Restic(Task(parts[1], SubstepOf(parts[2]).value)));
    }
  }

  lemma {:induction false} StepsPerform(c: Setting, w: World, steps: seq<string>)
    requires ValidSteps(c.job, steps)
    ensures Performed(w, RunSteps(c, w, steps), StepsCommands(c.job, steps))
    decreases |steps|
  {
    if steps == [] {
      assert Added(w, w) == [];
    } else {
      var r := RunStep(c, w, steps[0]);
      var plan := StepCommands(c.job, Split(steps[0], '.'));
      StepPerforms(c, w, steps[0]);
      if r.ok {
        StepsPerform(c, r.world, steps[1..]);
        PerformedThen(w, r, RunSteps(c, r.world, steps[1..]), plan, StepsCommands(c.job, steps[1..]));
      } else {
        PerformedInPart(w, r, plan, StepsCommands(c.job, steps[1..]));
      }
    }
  }

  lemma OperatePerforms(c: Setting, w: World, target: Target)
    requires ValidTarget(c.job, target)
    ensures Performed(w, Operate(c, w, target), TargetCommands(c.job, target))
  {
    match target
    case BackupTarget(name) => BackupPerforms(c, w, name);
    case StepTarget(step) => StepPerforms(c, w, step);
    case WorkflowTarget(name) =>
      var workflow := c.job.workflows[name];
      var entered := Enter(c, w, WorkflowLevel(name), workflow.hooks);
      StepsPerform(c, entered.world, workflow.steps);
      LevelPerforms(c, w, WorkflowLevel(name), workflow.hooks,
                    if entered.ok then RunSteps(c, entered.world, workflow.steps) else entered, StepsCommands(c.job, workflow.steps));
  }

  /** A run performs the commands its target names, in that order, from the first one on, and all of them if it succeeds. */
  lemma RunPerforms(c: Setting, w: World, target: Target)
    requires ValidTarget(c.job, target)
    ensures Performed(w, RunOperational(c, w, target), TargetCommands(c.job, target))
  {
    var entered := Enter(c, w, JobLevel, c.job.hooks);
    OperatePerforms(c, entered.world, target);
    LevelPerforms(c, w, JobLevel, c.job.hooks, if entered.ok then Operate(c, entered.world, target) else entered, TargetCommands(c.job, target));
  }

  lemma {:induction false} ResticConcat(a: seq<Task>, b: seq<Task>)
    ensures ResticOf(a + b) == ResticOf(a) + ResticOf(b)
  {
    if a == [] {
      assert a + b == b;
    } else {
      assert (a + b)[1..] == a[1..] + b;
      ResticConcat(a[1..], b);
    }
  }

  /** The restic commands of a plan, transfers left out. */
  function OnlyRestic(commands: seq<Command>): seq<Command> {
    if commands == [] then []
    else (if commands[0].Restic? then [commands[0]] else []) + OnlyRestic(commands[1..])
  }

  lemma {:induction false} OnlyResticConcat(a: seq<Command>, b: seq<Command>)
    ensures OnlyRestic(a + b) == OnlyRestic(a) + OnlyRestic(b)
  {
    if a == [] {
      assert a + b == b;
    } else {
      var head := if a[0].Restic? then [a[0]] else [];
      assert OnlyRestic(a + b) == head + OnlyRestic(a[1..] + b) by {
        assert (a + b)[1..] == a[1..] + b;
      }
      OnlyResticConcat(a[1..], b);
      assert head + (OnlyRestic(a[1..]) + OnlyRestic(b)) == head + OnlyRestic(a[1..]) + OnlyRestic(b);
    }
  }

  lemma {:induction false} ResticIsRestic(tasks: seq<Task>)
    ensures OnlyRestic(ResticOf(tasks)) == ResticOf(tasks)
  {
    if tasks != [] {
      ResticIsRestic(tasks[1..]);
      assert ResticOf(tasks)[1..] == ResticOf(tasks[1..]);
    }
  }

  lemma OneCommand(command: Command)
    ensures OnlyRestic([command]) == if command.Restic? then [command] else []
    ensures command.Restic? ==> ResticOf([command.task]) == [command]
  {
    assert [command][1..] == [];
    if command.Restic? {
      assert [command.task][1..] == [];
    }
  }

  lemma StepIsCollected(job: Job, step: string)
    requires ValidStep(job, step)
    ensures ResticOf(StepTasks(job, step)) == OnlyRestic(StepCommands(job, Split(step, '.')))
  {
    var parts := Split(step, '.');
    if parts[0] == "rclone" {
      OneCommand(Sync(parts[1]));
    } else if |parts| == 2 {
      WholeBackupTasks(parts[1], job.backups[parts[1]]);
      ResticIsRestic(BackupTasks(parts[1], job.backups[parts[1]]));
    } else {
      OneCommand(Restic(Task(parts[1], SubstepOf(parts[2]).value)));
    }
  }

  lemma {:induction false} StepsAreCollected(job: Job, steps: seq<string>)
    requires ValidSteps(job, steps)
    ensures ResticOf(StepsTasks(job, steps)) == OnlyRestic(StepsCommands(job, steps))
  {
    if steps != [] {
      StepIsCollected(job, steps[0]);
      StepsAreCollected(job, steps[1..]);
      ResticConcat(StepTasks(job, steps[0]), StepsTasks(job, steps[1..]));
      OnlyResticConcat(StepCommands(job, Split(steps[0], '.')), StepsCommands(job, steps[1..]));
    }
  }

  /** What is collected after a run are the restic commands its target names, in the same order. */
  lemma PlanIsCollected(job: Job, target: Target)
    requires ValidTarget(job, target)
    ensures ResticOf(TargetTasks(job, target)) == OnlyRestic(TargetCommands(job, target))
  {
    match target
    case BackupTarget(name) =>
      WholeBackupTasks(name, job.backups[name]);
      ResticIsRestic(BackupTasks(name, job.backups[name]));
    case StepTarget(step) => StepIsCollected(job, step);
    case WorkflowTarget(name) => StepsAreCollected(job, job.workflows[name].steps);
  }

  // ----- step strings -----

  lemma ThreeParts(a: string, b: string, d: string)
    requires '.' !in a && '.' !in b && '.' !in d
    ensures Split(a + "." + b + "." + d, '.') == [a, b, d]
  {
    var parts := [a, b, d];
    assert parts[1..] == [b, d] && [b, d][1..] == [d] && Join([d], '.') == d;
    assert Join([b, d], '.') == b + ['.'] + d;
    assert Join(parts, '.') == a + ['.'] + (b + ['.'] + d);
    assert a + "." + b + "." + d == a + ['.'] + (b + ['.'] + d);
    SplitJoin(parts, '.');
  }

  lemma TwoParts(a: string, b: string)
    requires '.' !in a && '.' !in b
    ensures Split(a + "." + b, '.') == [a, b]
  {
    var parts := [a, b];
    assert parts[1..] == [b] && Join([b], '.') == b;
    assert Join(parts, '.') == a + ['.'] + b;
    SplitJoin(parts, '.');
  }

  /** One command, and nothing else in the trace. */
  ghost predicate RunsOnly(w: World, r: Result, command: Command) {
    && |r.world.trace| == |w.trace| + 1 && w.trace <= r.world.trace
    && r.world.trace[|w.trace|].CommandRun? && r.world.trace[|w.trace|].command == command
    && r.ok == r.world.trace[|w.trace|].ok
  }

  /** Each substep string runs the one command it names, and nothing else. */
  lemma SubstepStrings(c: Setting, w: World, name: string)
    requires name in c.job.backups && '.' !in name
    ensures RunsOnly(w, RunStep(c, w, "backup." + name + ".backup"), Restic(Task(name, BackupStep)))
    ensures RunsOnly(w, RunStep(c, w, "backup." + name + ".retention"), Restic(Task(name, RetentionStep)))
    ensures RunsOnly(w, RunStep(c, w, "backup." + name + ".cleanup"), Restic(Task(name, CleanupStep)))
  {
    ThreePartsOfBackup(name, "backup", ".backup");
    ThreePartsOfBackup(name, "retention", ".retention");
    ThreePartsOfBackup(name, "cleanup", ".cleanup");
  }

  lemma ThreePartsOfBackup(name: string, part: string, dotted: string)
    requires '.' !in name && '.' !in part && dotted == "." + part
    ensures Split("backup." + name + dotted, '.') == ["backup", name, part]
  {
    ThreeParts("backup", name, part);
    assert "backup" + "." + name + "." + part == "backup." + name + dotted;
  }

  /** Any other third part runs no command and fails. */
  lemma OtherSubstepFails(c: Setting, w: World, name: string, part: string)
    requires '.' !in name && '.' !in part && part != "backup" && part != "retention" && part != "cleanup"
    ensures var step := "backup." + name + ("." + part);
            RunStep(c, w, step) == Result(w.(trace := w.trace + [UnknownStep(step)]), false) && !ValidStep(c.job, step)
  {
    ThreePartsOfBackup(name, part, "." + part);
  }

  /** The strings for a whole backup and for a transfer. */
  lemma TaskStrings(c: Setting, w: World, name: string)
    requires '.' !in name
    ensures name in c.job.backups ==> Performed(w, RunStep(c, w, "backup." + name), WholeBackup(name, c.job.backups[name]))
    ensures name in c.job.rclones ==> Performed(w, RunStep(c, w, "rclone." + name), [Sync(name)])
    ensures name !in c.job.backups ==> !RunStep(c, w, "backup." + name).ok && !ValidStep(c.job, "backup." + name)
    ensures name !in c.job.rclones ==> !RunStep(c, w, "rclone." + name).ok && !ValidStep(c.job, "rclone." + name)
  {
    TwoParts("backup", name);
    TwoParts("rclone", name);
    assert "backup" + "." + name == "backup." + name && "rclone" + "." + name == "rclone." + name;
    if name in c.job.backups {
      BackupPerforms(c, w, name);
    }
    if name in c.job.rclones {
      RclonePerforms(c, w, name);
    }
  }

  // ----- every level runs its own hooks -----

  predicate KnownLevel(job: Job, level: Level) {
    match level
    case JobLevel => true
    case WorkflowLevel(name) => name in job.workflows
    case BackupLevel(name) => name in job.backups
    case RcloneLevel(name) => name in job.rclones
  }

  function HooksOf(job: Job, level: Level): Hooks
    requires KnownLevel(job, level)
  {
    match level
    case JobLevel => job.hooks
    case WorkflowLevel(name) => job.workflows[name].hooks
    case BackupLevel(name) => job.backups[name].hooks
    case RcloneLevel(name) => job.rclones[name].hooks
  }

  function ListOf(hooks: Hooks, phase: Phase): seq<string> {
    match phase
    case Pre => hooks.pre
    case Post => hooks.post
    case OnError => hooks.onError
  }

  /** A list of hooks that ran is the beginning of the list configured for its level and phase, all of it if it succeeded. */
  predicate RunsOwnHooks(c: Setting, e: Event) {
    e.HookList? ==>
      && KnownLevel(c.job, e.level)
      && (var list := ListOf(HooksOf(c.job, e.level), e.phase);
          if c.dryRun then e.ran == [] && e.ok else e.ran <= list && (e.ok ==> e.ran == list) && (!e.ok ==> e.ran != []))
  }

  ghost predicate OwnHooksOnly(c: Setting, w: World, after: World) {
    w.trace <= after.trace && forall i :: |w.trace| <= i < |after.trace| ==> RunsOwnHooks(c, after.trace[i])
  }

  lemma OwnThen(c: Setting, a: World, b: World, d: World)
    requires OwnHooksOnly(c, a, b) && OwnHooksOnly(c, b, d)
    ensures OwnHooksOnly(c, a, d)
  {
    forall i | |a.trace| <= i < |d.trace|
      ensures RunsOwnHooks(c, d.trace[i])
    {
      assert i < |b.trace| ==> d.trace[i] == b.trace[i];
    }
  }

  lemma OwnList(c: Setting, w: World, level: Level, phase: Phase)
    requires KnownLevel(c.job, level)
    ensures OwnHooksOnly(c, w, RunHooks(c, w, level, phase, ListOf(HooksOf(c.job, level), phase)).world)
  {
    var list := ListOf(HooksOf(c.job, level), phase);
    HooksRunInOrder(c, |w.trace|, |list|);
    assert list[..|list|] == list;
  }

  lemma OwnLevel(c: Setting, w: World, level: Level, inner: Result)
    requires KnownLevel(c.job, level)
    requires var entered := Enter(c, w, level, HooksOf(c.job, level)); if entered.ok then OwnHooksOnly(c, entered.world, inner.world) else inner == entered
    ensures OwnHooksOnly(c, w, Leave(c, inner, level, HooksOf(c.job, level)).world)
  {
    var entered := Enter(c, w, level, HooksOf(c.job, level));
    OwnList(c, w, level, Pre);
    if entered.ok {
      OwnThen(c, w, entered.world, inner.world);
    }
    OwnList(c, inner.world, level, if inner.ok then Post else OnError);
    OwnThen(c, w, inner.world, Leave(c, inner, level, HooksOf(c.job, level)).world);
  }

  lemma {:induction false} TasksOwn(c: Setting, w: World, tasks: seq<Task>)
    ensures OwnHooksOnly(c, w, RunTasks(c, w, tasks).world)
    decreases |tasks|
  {
    if tasks != [] {
      var r := RunCommand(c, w, Restic(tasks[0]));
      if r.ok {
        TasksOwn(c, r.world, tasks[1..]);
        OwnThen(c, w, r.world, RunTasks(c, r.world, tasks[1..]).world);
      }
    }
  }

  lemma BackupOwn(c: Setting, w: World, name: string)
    requires name in c.job.backups
    ensures OwnHooksOnly(c, w, RunBackup(c, w, name).world)
  {
    var backup := c.job.backups[name];
    var entered := Enter(c, w, BackupLevel(name), backup.hooks);
    TasksOwn(c, entered.world, BackupTasks(name, backup));
    OwnLevel(c, w, BackupLevel(name), if entered.ok then RunTasks(c, entered.world, BackupTasks(name, backup)) else entered);
  }

  lemma StepOwn(c: Setting, w: World, step: string)
    ensures OwnHooksOnly(c, w, RunStep(c, w, step).world)
  {
    var parts := Split(step, '.');
    if |parts| == 2 && parts[0] == "rclone" && parts[1] in c.job.rclones {
      var entered := Enter(c, w, RcloneLevel(parts[1]), c.job.rclones[parts[1]].hooks);
      OwnLevel(c, w, RcloneLevel(parts[1]), if entered.ok then RunCommand(c, entered.world, Sync(parts[1])) else entered);
    } else if |parts| == 2 && parts[0] == "backup" && parts[1] in c.job.backups {
      BackupOwn(c, w, parts[1]);
    }
  }

  lemma {:induction false} StepsOwn(c: Setting, w: World, steps: seq<string>)
    ensures OwnHooksOnly(c, w, RunSteps(c, w, steps).world)
    decreases |steps|
  {
    if steps != [] {
      var r := RunStep(c, w, steps[0]);
      StepOwn(c, w, steps[0]);
      if r.ok {
        StepsOwn(c, r.world, steps[1..]);
        OwnThen(c, w, r.world, RunSteps(c, r.world, steps[1..]).world);
      }
    }
  }

  lemma OperateOwn(c: Setting, w: World, target: Target)
    requires ValidTarget(c.job, target)
    ensures OwnHooksOnly(c, w, Operate(c, w, target).world)
  {
    match target
    case BackupTarget(name) => BackupOwn(c, w, name);
    case StepTarget(step) => StepOwn(c, w, step);
    case WorkflowTarget(name) =>
      var entered := Enter(c, w, WorkflowLevel(name), c.job.workflows[name].hooks);
      StepsOwn(c, entered.world, c.job.workflows[name].steps);
      OwnLevel(c, w, WorkflowLevel(name), if entered.ok then RunSteps(c, entered.world, c.job.workflows[name].steps) else entered);
  }

  /** Every list of hooks of a run is the one configured for its level and its phase, run from its beginning. */
  lemma RunRunsOwnHooks(c: Setting, w: World, target: Target)
    requires ValidTarget(c.job, target)
    ensures OwnHooksOnly(c, w, RunOperational(c, w, target).world)
  {
    var entered := Enter(c, w, JobLevel, c.job.hooks);
    OperateOwn(c, entered.world, target);
    OwnLevel(c, w, JobLevel, if entered.ok then Operate(c, entered.world, target) else entered);
  }

  /** A step needs the name of its task. */
  lemma NamelessStepsAreInvalid(job: Job)
    ensures !ValidStep(job, "backup." + "") && !ValidStep(job, "rclone." + "") && !ValidStep(job, "backup." + "" + ".backup")
  {
    assert "backup" + "." + "" == "backup." + "" && "rclone" + "." + "" == "rclone." + "";
    NamelessParts(job, "backup");
    NamelessParts(job, "rclone");
    ThreePartsOfBackup("", "backup", ".backup");
  }

  lemma NamelessParts(job: Job, kind: string)
    requires '.' !in kind
    ensures !ValidStep(job, kind + "." + "")
  {
    TwoParts(kind, "");
  }
}
