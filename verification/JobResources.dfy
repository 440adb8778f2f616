/** The lock set of a run covers every command it performs, so commands of different runs never share a resource. */
module JobResources {
  import opened Text
  import opened ResourceIds
  import opened JobModel
  import L = LockProtocol

  /** How repositories and endpoints are named as resources. */
  datatype Ids = Ids(repository: string -> string, endpoint: string -> string)

  /** The canonical ids, for one way of resolving local paths. */
  function CanonicalIds(resolve: string -> string): Ids {
    Ids(repository => RepositoryId(resolve, repository), endpoint => RcloneEndpointId(resolve, endpoint))
  }

  function BackupResources(ids: Ids, job: Job, name: string): set<string>
    requires name in job.backups
  {
    {ids.repository(job.backups[name].repository)}
  }

  function RcloneResources(ids: Ids, job: Job, name: string): set<string>
    requires name in job.rclones
  {
    {ids.endpoint(job.rclones[name].source), ids.endpoint(job.rclones[name].target)}
  }

  function StepResources(ids: Ids, job: Job, step: string): set<string>
    requires ValidStep(job, step)
  {
    var parts := Split(step, '.');
    if parts[0] == "rclone" then RcloneResources(ids, job, parts[1]) else BackupResources(ids, job, parts[1])
  }

  function StepsResources(ids: Ids, job: Job, steps: seq<string>): set<string>
    requires ValidSteps(job, steps)
  {
    if steps == [] then {} else StepResources(ids, job, steps[0]) + StepsResources(ids, job, steps[1..])
  }

  /** What a run locks before it starts. */
  function TargetResources(ids: Ids, job: Job, target: Target): set<string>
    requires ValidTarget(job, target)
  {
    match target
    case BackupTarget(name) => BackupResources(ids, job, name)
    case StepTarget(step) => StepResources(ids, job, step)
    case WorkflowTarget(name) => StepsResources(ids, job, job.workflows[name].steps)
  }

  predicate KnownCommand(job: Job, command: Command) {
    match command
    case Restic(task) => task.name in job.backups
    case Sync(name) => name in job.rclones
  }

  /** What a command touches: its repository, or both ends of a transfer. */
  function CommandResources(ids: Ids, job: Job, command: Command): set<string>
    requires KnownCommand(job, command)
  {
    match command
    case Restic(task) => BackupResources(ids, job, task.name)
    case Sync(name) => RcloneResources(ids, job, name)
  }

  predicate CommandWithin(ids: Ids, job: Job, command: Command, locked: set<string>) {
    KnownCommand(job, command) && CommandResources(ids, job, command) <= locked
  }

  /** Everything the piece adds to the trace stays within the locked resources. */
  ghost predicate StaysWithin(ids: Ids, job: Job, w: World, after: World, locked: set<string>) {
    && w.trace <= after.trace
    && forall i :: |w.trace| <= i < |after.trace| && after.trace[i].CommandRun? ==> CommandWithin(ids, job, after.trace[i].command, locked)
  }

  lemma StaysThen(ids: Ids, job: Job, a: World, b: World, d: World, locked: set<string>)
    requires StaysWithin(ids, job, a, b, locked) && StaysWithin(ids, job, b, d, locked)
    ensures StaysWithin(ids, job, a, d, locked)
  {
    forall i | |a.trace| <= i < |d.trace| && d.trace[i].CommandRun?
      ensures CommandWithin(ids, job, d.trace[i].command, locked)
    {
      assert i < |b.trace| ==> d.trace[i] == b.trace[i];
    }
  }

  lemma {:induction false} TasksStay(ids: Ids, c: Setting, w: World, tasks: seq<Task>, locked: set<string>)
    requires forall i :: 0 <= i < |tasks| ==> CommandWithin(ids, c.job, Restic(tasks[i]), locked)
    ensures StaysWithin(ids, c.job, w, RunTasks(c, w, tasks).world, locked)
    decreases |tasks|
  {
    if tasks != [] {
      var r := RunCommand(c, w, Restic(tasks[0]));
      if r.ok {
        TasksStay(ids, c, r.world, tasks[1..], locked);
        StaysThen(ids, c.job, w, r.world, RunTasks(c, r.world, tasks[1..]).world, locked);
      }
    }
  }

  lemma LevelStays(ids: Ids, c: Setting, w: World, level: Level, hooks: Hooks, inner: Result, locked: set<string>)
    requires var entered := Enter(c, w, level, hooks); if entered.ok then StaysWithin(ids, c.job, entered.world, inner.world, locked) else inner == entered
    ensures StaysWithin(ids, c.job, w, Leave(c, inner, level, hooks).world, locked)
  {
    var entered := Enter(c, w, level, hooks);
    assert StaysWithin(ids, c.job, w, entered.world, locked);
    if entered.ok {
      StaysThen(ids, c.job, w, entered.world, inner.world, locked);
    }
    StaysThen(ids, c.job, w, inner.world, Leave(c, inner, level, hooks).world, locked);
  }

  lemma BackupTasksWithin(ids: Ids, job: Job, name: string, locked: set<string>)
    requires name in job.backups && BackupResources(ids, job, name) <= locked
    ensures var tasks := BackupTasks(name, job.backups[name]);
            forall i :: 0 <= i < |tasks| ==> CommandWithin(ids, job, Restic(tasks[i]), locked)
  {
    var tasks := BackupTasks(name, job.backups[name]);
    assert forall i :: 0 <= i < |tasks| ==> tasks[i].name == name;
  }

  lemma BackupStays(ids: Ids, c: Setting, w: World, name: string, locked: set<string>)
    requires name in c.job.backups && BackupResources(ids, c.job, name) <= locked
    ensures StaysWithin(ids, c.job, w, RunBackup(c, w, name).world, locked)
  {
    var backup := c.job.backups[name];
    var tasks := BackupTasks(name, backup);
    var entered := Enter(c, w, BackupLevel(name), backup.hooks);
    BackupTasksWithin(ids, c.job, name, locked);
    TasksStay(ids, c, entered.world, tasks, locked);
    LevelStays(ids, c, w, BackupLevel(name), backup.hooks, if entered.ok then RunTasks(c, entered.world, tasks) else entered, locked);
  }

  lemma RcloneStays(ids: Ids, c: Setting, w: World, name: string, locked: set<string>)
    requires name in c.job.rclones && RcloneResources(ids, c.job, name) <= locked
    ensures StaysWithin(ids, c.job, w, RunRclone(c, w, name).world, locked)
  {
    var rclone := c.job.rclones[name];
    var entered := Enter(c, w, RcloneLevel(name), rclone.hooks);
    assert CommandWithin(ids, c.job, Sync(name), locked);
    LevelStays(ids, c, w, RcloneLevel(name), rclone.hooks, if entered.ok then RunCommand(c, entered.world, Sync(name)) else entered, locked);
  }

  lemma StepStays(ids: Ids, c: Setting, w: World, step: string, locked: set<string>)
    requires ValidStep(c.job, step) && StepResources(ids, c.job, step) <= locked
    ensures StaysWithin(ids, c.job, w, RunStep(c, w, step).world, locked)
  {
    var parts := Split(step, '.');
    if parts[0] == "rclone" {
      RcloneStays(ids, c, w, parts[1], locked);
    } else if |parts| == 2 {
      BackupStays(ids, c, w, parts[1], locked);
    } else {
      assert CommandWithin(ids, c.job, Restic(Task(parts[1], SubstepOf(parts[2]).value)), locked);
    }
  }

  lemma {:induction false} StepsStay(ids: Ids, c: Setting, w: World, steps: seq<string>, locked: set<string>)
    requires ValidSteps(c.job, steps) && StepsResources(ids, c.job, steps) <= locked
    ensures StaysWithin(ids, c.job, w, RunSteps(c, w, steps).world, locked)
    decreases |steps|
  {
    if steps != [] {
      var r := RunStep(c, w, steps[0]);
      StepStays(ids, c, w, steps[0], locked);
      if r.ok {
        StepsStay(ids, c, r.world, steps[1..], locked);
        StaysThen(ids, c.job, w, r.world, RunSteps(c, r.world, steps[1..]).world, locked);
      }
    }
  }

  lemma OperateStays(ids: Ids, c: Setting, w: World, target: Target)
    requires ValidTarget(c.job, target)
    ensures StaysWithin(ids, c.job, w, Operate(c, w, target).world, TargetResources(ids, c.job, target))
  {
    var locked := TargetResources(ids, c.job, target);
    match target
    case BackupTarget(name) => BackupStays(ids, c, w, name, locked);
    case StepTarget(step) => StepStays(ids, c, w, step, locked);
    case WorkflowTarget(name) =>
      var workflow := c.job.workflows[name];
      var entered := Enter(c, w, WorkflowLevel(name), workflow.hooks);
      StepsStay(ids, c, entered.world, workflow.steps, locked);
      LevelStays(ids, c, w, WorkflowLevel(name), workflow.hooks, if entered.ok then RunSteps(c, entered.world, workflow.steps) else entered, locked);
  }

  /** Every command of a run, whatever its outcomes, stays within what its target locks. */
  lemma RunStaysWithinLocks(ids: Ids, c: Setting, w: World, target: Target)
    requires ValidTarget(c.job, target)
    ensures StaysWithin(ids, c.job, w, RunOperational(c, w, target).world, TargetResources(ids, c.job, target))
  {
    var entered := Enter(c, w, JobLevel, c.job.hooks);
    OperateStays(ids, c, entered.world, target);
    LevelStays(ids, c, w, JobLevel, c.job.hooks, if entered.ok then Operate(c, entered.world, target) else entered,
               TargetResources(ids, c.job, target));
  }

  lemma StepTasksWithin(ids: Ids, job: Job, step: string, locked: set<string>)
    requires ValidStep(job, step) && StepResources(ids, job, step) <= locked
    ensures TasksWithin(ids, job, StepTasks(job, step), locked)
  {
    var parts := Split(step, '.');
    if parts[0] == "backup" && |parts| == 2 {
      BackupTasksWithin(ids, job, parts[1], locked);
    }
  }

  ghost predicate TasksWithin(ids: Ids, job: Job, tasks: seq<Task>, locked: set<string>) {
    forall i :: 0 <= i < |tasks| ==> CommandWithin(ids, job, Restic(tasks[i]), locked)
  }

  lemma {:induction false} StepsTasksWithin(ids: Ids, job: Job, steps: seq<string>, locked: set<string>)
    requires ValidSteps(job, steps) && StepsResources(ids, job, steps) <= locked
    ensures TasksWithin(ids, job, StepsTasks(job, steps), locked)
  {
    if steps != [] {
      StepTasksWithin(ids, job, steps[0], locked);
      StepsTasksWithin(ids, job, steps[1..], locked);
      BothWithin(ids, job, StepTasks(job, steps[0]), StepsTasks(job, steps[1..]), locked);
    }
  }

  lemma BothWithin(ids: Ids, job: Job, a: seq<Task>, b: seq<Task>, locked: set<string>)
    requires TasksWithin(ids, job, a, locked) && TasksWithin(ids, job, b, locked)
    ensures TasksWithin(ids, job, a + b, locked)
  { }

  /** What is collected after the run, still under its locks, concerns only repositories it has locked. */
  lemma CollectionStaysWithinLocks(ids: Ids, job: Job, target: Target)
    requires ValidTarget(job, target)
    ensures TasksWithin(ids, job, TargetTasks(job, target), TargetResources(ids, job, target))
  {
    match target
    case BackupTarget(name) => BackupTasksWithin(ids, job, name, TargetResources(ids, job, target));
    case StepTarget(step) => StepTasksWithin(ids, job, step, TargetResources(ids, job, target));
    case WorkflowTarget(name) => StepsTasksWithin(ids, job, job.workflows[name].steps, TargetResources(ids, job, target));
  }

  ghost predicate Locks(run: L.Run, resources: set<string>) {
    forall resource :: resource in resources <==> resource in run.locks
  }

  /** A command run by a target, at position `i` of its trace. */
  predicate Performs(c: Setting, w: World, target: Target, i: nat)
    requires ValidTarget(c.job, target)
  {
    var after := RunOperational(c, w, target).world;
    |w.trace| <= i < |after.trace| && after.trace[i].CommandRun?
  }

  /** What a run does under its locks: the commands of its trace, and the post-processing of its restic substeps. */
  ghost predicate Works(c: Setting, w: World, target: Target, x: Command)
    requires ValidTarget(c.job, target)
  {
    || (x.Restic? && x.task in TargetTasks(c.job, target))
    || exists i: nat :: Performs(c, w, target, i) && RunOperational(c, w, target).world.trace[i].command == x
  }

  lemma {:induction false} ReportsArePlanned(c: Setting, w: World, tasks: seq<Task>, fallback: bool)
    ensures var after := CollectTasks(c, w, tasks, fallback);
            && w.callbacks <= after.callbacks
            && forall k :: |w.callbacks| <= k < |after.callbacks| ==> after.callbacks[k].task in tasks
    decreases |tasks|
  {
    if tasks != [] {
      var next := CollectTask(c, w, tasks[0], fallback);
      ReportsArePlanned(c, next, tasks[1..], fallback);
    }
  }

  /** The success callbacks of a run, which start the post-processing, concern its restic substeps only. */
  lemma ReportsAreWork(c: Setting, w: World, target: Target, k: nat)
    requires ValidTarget(c.job, target)
    requires |RunOperational(c, w, target).world.callbacks| <= k < |RunTarget(c, w, target).world.callbacks|
    ensures Works(c, w, target, Restic(RunTarget(c, w, target).world.callbacks[k].task))
  {
    var r := RunOperational(c, w, target);
    ReportsArePlanned(c, r.world, TargetTasks(c.job, target), r.ok);
  }

  lemma WorkStaysWithinLocks(ids: Ids, c: Setting, w: World, target: Target, x: Command)
    requires ValidTarget(c.job, target) && Works(c, w, target, x)
    ensures CommandWithin(ids, c.job, x, TargetResources(ids, c.job, target))
  {
    if x.Restic? && x.task in TargetTasks(c.job, target) {
      CollectionStaysWithinLocks(ids, c.job, target);
    } else {
      RunStaysWithinLocks(ids, c, w, target);
    }
  }

  /** Run `id` of the execution is operating on the target, with the target's resources locked. */
  ghost predicate Operates(s: L.State, id: L.RunId, ids: Ids, c: Setting, target: Target)
    requires ValidTarget(c.job, target)
  {
    id in s.runs && s.runs[id].phase.Operating? && Locks(s.runs[id], TargetResources(ids, c.job, target))
  }

  /**
   In every interleaving of lock operations, what two runs do at the same time under their locks touches no common resource:
   commands or post-processing of either, whichever targets of whichever jobs they run and wherever they are in them.
   */
  lemma WorkNeverCollides(
      states: seq<L.State>, events: seq<L.Event>, n: nat, a: L.RunId, b: L.RunId, ids: Ids,
      ca: Setting, wa: World, ta: Target, x: Command, cb: Setting, wb: World, tb: Target, y: Command)
    requires L.Execution(states, events) && n < |states| && a != b && ValidTarget(ca.job, ta) && ValidTarget(cb.job, tb)
    requires Operates(states[n], a, ids, ca, ta) && Works(ca, wa, ta, x)
    requires Operates(states[n], b, ids, cb, tb) && Works(cb, wb, tb, y)
    ensures KnownCommand(ca.job, x) && KnownCommand(cb.job, y)
    ensures CommandResources(ids, ca.job, x) !! CommandResources(ids, cb.job, y)
  {
    WorkStaysWithinLocks(ids, ca, wa, ta, x);
    WorkStaysWithinLocks(ids, cb, wb, tb, y);
    L.OperatingRunsAreDisjoint(states, events, n, a, b);
  }

  /** A backup's repository behind rclone is one of the ends of a transfer. */
  predicate Meets(job: Job, backup: Command, other: Job, sync: Command, remote: string, path: string)
    requires KnownCommand(job, backup) && KnownCommand(other, sync)
  {
    && backup.Restic? && sync.Sync?
    && job.backups[backup.task.name].repository == BehindRclone(remote, path)
    && Direct(remote, path) in [other.rclones[sync.name].source, other.rclones[sync.name].target]
  }

  predicate ShareIds(ids: Ids, remote: string, path: string) {
    ids.repository(BehindRclone(remote, path)) == ids.endpoint(Direct(remote, path))
  }

  lemma CanonicalIdsAreShared(resolve: string -> string, remote: string, path: string)
    requires IsRemote(remote)
    ensures ShareIds(CanonicalIds(resolve), remote, path) <==> !Shadowed(remote, path)
  {
    RepositoryAndEndpointShareIdIff(resolve, remote, path);
  }

  lemma MeetingIsSharing(ids: Ids, job: Job, backup: Command, other: Job, sync: Command, remote: string, path: string)
    requires KnownCommand(job, backup) && KnownCommand(other, sync) && ShareIds(ids, remote, path)
    ensures Meets(job, backup, other, sync, remote, path) ==>
              ids.endpoint(Direct(remote, path)) in CommandResources(ids, job, backup) * CommandResources(ids, other, sync)
  { }

  /**
   No restic command on a repository behind rclone runs, and none of its successes is post-processed, while another run
   transfers from or to that very endpoint, unless the two have different ids.
   */
  lemma BackupNeverMeetsTransfer(
      states: seq<L.State>, events: seq<L.Event>, n: nat, a: L.RunId, b: L.RunId, resolve: string -> string, ids: Ids,
      ca: Setting, wa: World, ta: Target, x: Command, cb: Setting, wb: World, tb: Target, y: Command, remote: string, path: string)
    requires ids == CanonicalIds(resolve) && IsRemote(remote) && !Shadowed(remote, path)
    requires L.Execution(states, events) && n < |states| && a != b && ValidTarget(ca.job, ta) && ValidTarget(cb.job, tb)
    requires Operates(states[n], a, ids, ca, ta) && Works(ca, wa, ta, x)
    requires Operates(states[n], b, ids, cb, tb) && Works(cb, wb, tb, y)
    ensures KnownCommand(ca.job, x) && KnownCommand(cb.job, y) && !Meets(ca.job, x, cb.job, y, remote, path)
  {
    WorkNeverCollides(states, events, n, a, b, ids, ca, wa, ta, x, cb, wb, tb, y);
    CanonicalIdsAreShared(resolve, remote, path);
    MeetingIsSharing(ids, ca.job, x, cb.job, y, remote, path);
  }

  /** The command works on a local path: its repository, or an end of its transfer, resolves to it. */
  predicate TouchesLocal(resolve: string -> string, job: Job, x: Command, path: string)
    requires KnownCommand(job, x)
  {
    match x
    case Restic(task) => ResolvesTo(resolve, job.backups[task.name].repository, false, path)
    case Sync(name) =>
      ResolvesTo(resolve, job.rclones[name].source, true, path) || ResolvesTo(resolve, job.rclones[name].target, true, path)
  }

  predicate ResolvesTo(resolve: string -> string, value: string, allowDirectRclone: bool, path: string) {
    IsLocal(value, allowDirectRclone) && resolve(value) == path
  }

  lemma TouchedIsNamed(resolve: string -> string, ids: Ids, job: Job, x: Command, path: string)
    requires ids == CanonicalIds(resolve) && KnownCommand(job, x) && TouchesLocal(resolve, job, x, path)
    ensures "local:" + path in CommandResources(ids, job, x)
  {
    match x
    case Restic(task) =>
      LocalId(resolve, job.backups[task.name].repository, false);
    case Sync(name) =>
      if ResolvesTo(resolve, job.rclones[name].source, true, path) {
        LocalId(resolve, job.rclones[name].source, true);
      } else {
        LocalId(resolve, job.rclones[name].target, true);
      }
  }

  /** However it is written, no two runs work on one local path at once: neither as a repository nor as an end of a transfer. */
  lemma LocalPathsNeverMeet(
      states: seq<L.State>, events: seq<L.Event>, n: nat, a: L.RunId, b: L.RunId, resolve: string -> string, ids: Ids,
      ca: Setting, wa: World, ta: Target, x: Command, cb: Setting, wb: World, tb: Target, y: Command, path: string)
    requires ids == CanonicalIds(resolve)
    requires L.Execution(states, events) && n < |states| && a != b && ValidTarget(ca.job, ta) && ValidTarget(cb.job, tb)
    requires Operates(states[n], a, ids, ca, ta) && Works(ca, wa, ta, x)
    requires Operates(states[n], b, ids, cb, tb) && Works(cb, wb, tb, y)
    ensures KnownCommand(ca.job, x) && KnownCommand(cb.job, y)
    ensures !(TouchesLocal(resolve, ca.job, x, path) && TouchesLocal(resolve, cb.job, y, path))
  {
    WorkNeverCollides(states, events, n, a, b, ids, ca, wa, ta, x, cb, wb, tb, y);
    if TouchesLocal(resolve, ca.job, x, path) {
      TouchedIsNamed(resolve, ids, ca.job, x, path);
    }
    if TouchesLocal(resolve, cb.job, y, path) {
      TouchedIsNamed(resolve, ids, cb.job, y, path);
    }
  }
}
