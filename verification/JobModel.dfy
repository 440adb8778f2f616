/** What running a job means: hook levels around commands, history ids and summaries queued, successes collected. */
module JobModel {
  import opened Wrappers
  import opened Text

  datatype Hooks = Hooks(pre: seq<string>, post: seq<string>, onError: seq<string>)

  datatype Backup = Backup(repository: string, retention: bool, cleanup: bool, hooks: Hooks)

  datatype Rclone = Rclone(source: string, target: string, hooks: Hooks)

  datatype Workflow = Workflow(steps: seq<string>, hooks: Hooks)

  datatype Job = Job(backups: map<string, Backup>, rclones: map<string, Rclone>, workflows: map<string, Workflow>, hooks: Hooks)

  datatype Substep = BackupStep | RetentionStep | CleanupStep

  datatype Task = Task(name: string, substep: Substep)

  datatype Command = Restic(task: Task) | Sync(name: string)

  datatype Level = JobLevel | WorkflowLevel(workflow: string) | BackupLevel(backup: string) | RcloneLevel(rclone: string)

  datatype Phase = Pre | Post | OnError

  /** The hooks of a list that ran, a command with its history id and summary, or a step nobody knows. */
  datatype Event =
    | HookList(level: Level, phase: Phase, ran: seq<string>, ok: bool)
    | CommandRun(command: Command, ok: bool, id: Option<string>, summary: Option<string>)
    | UnknownStep(step: string)

  datatype Callback = Callback(task: Task, id: Option<string>, summary: Option<string>)

  /** `outcome(k, i)` decides hook `i`, or the command, of the k-th event; `newId` and `summaryOf` come from outside. */
  datatype Setting = Setting(
    job: Job, dryRun: bool, history: bool, outcome: (nat, nat) -> bool, newId: nat -> string, summaryOf: nat -> Option<string>)

  datatype World = World(
    trace: seq<Event>, ids: map<Task, seq<string>>, artifacts: map<string, seq<Option<string>>>, callbacks: seq<Callback>)

  datatype Result = Result(world: World, ok: bool)

  // ----- hooks -----

  /** Hooks run in order up to the first that fails. */
  function HooksRun(c: Setting, k: nat, count: nat): (ran: nat)
    ensures ran <= count
  {
    if count == 0 then 0
    else
      var before := HooksRun(c, k, count - 1);
      if before == count - 1 && (before == 0 || c.outcome(k, before - 1)) then count else before
  }

  function HooksOk(c: Setting, k: nat, count: nat): bool {
    count == 0 || (HooksRun(c, k, count) == count && c.outcome(k, count - 1))
  }

  function RunHooks(c: Setting, w: World, level: Level, phase: Phase, hooks: seq<string>): Result {
    var k := |w.trace|;
    var ran := if c.dryRun then 0 else HooksRun(c, k, |hooks|);
    var ok := c.dryRun || HooksOk(c, k, |hooks|);
    Result(w.(trace := w.trace + [HookList(level, phase, hooks[..ran], ok)]), ok)
  }

  function Enter(c: Setting, w: World, level: Level, hooks: Hooks): Result {
    RunHooks(c, w, level, Pre, hooks.pre)
  }

  /** A failed level runs its on_error hooks; a failing post hook only warns. */
  function Leave(c: Setting, r: Result, level: Level, hooks: Hooks): Result {
    if r.ok then Result(RunHooks(c, r.world, level, Post, hooks.post).world, true)
    else Result(RunHooks(c, r.world, level, OnError, hooks.onError).world, false)
  }

  // ----- commands -----

  function Queued<K(==), T>(queues: map<K, seq<T>>, key: K): seq<T> {
    if key in queues then queues[key] else []
  }

  function RunCommand(c: Setting, w: World, command: Command): Result {
    var k := |w.trace|;
    var ok := c.outcome(k, 0);
    var id := if c.history then Some(c.newId(k)) else None;
    var backup := command.Restic? && command.task.substep == BackupStep;
    var summary := if ok && backup && !c.dryRun then c.summaryOf(k) else None;
    var ids := if ok && command.Restic? && c.history then w.ids[command.task := Queued(w.ids, command.task) + [c.newId(k)]] else w.ids;
    var artifacts :=
      if ok && backup && !c.dryRun then w.artifacts[command.task.name := Queued(w.artifacts, command.task.name) + [summary]] else w.artifacts;
    Result(World(w.trace + [CommandRun(command, ok, id, summary)], ids, artifacts, w.callbacks), ok)
  }

  function RunTasks(c: Setting, w: World, tasks: seq<Task>): Result
    decreases |tasks|
  {
    if tasks == [] then Result(w, true)
    else
      var r := RunCommand(c, w, Restic(tasks[0]));
      if r.ok then RunTasks(c, r.world, tasks[1..]) else r
  }

  /** The substeps of a whole backup: retention and cleanup only if configured. */
  function BackupTasks(name: string, backup: Backup): seq<Task> {
    [Task(name, BackupStep)]
    + (if backup.retention then [Task(name, RetentionStep)] else [])
    + (if backup.cleanup then [Task(name, CleanupStep)] else [])
  }

  function RunBackup(c: Setting, w: World, name: string): Result
    requires name in c.job.backups
  {
    var backup := c.job.backups[name];
    var entered := Enter(c, w, BackupLevel(name), backup.hooks);
    var inner := if entered.ok then RunTasks(c, entered.world, BackupTasks(name, backup)) else entered;
    Leave(c, inner, BackupLevel(name), backup.hooks)
  }

  function RunRclone(c: Setting, w: World, name: string): Result
    requires name in c.job.rclones
  {
    var rclone := c.job.rclones[name];
    var entered := Enter(c, w, RcloneLevel(name), rclone.hooks);
    var inner := if entered.ok then RunCommand(c, entered.world, Sync(name)) else entered;
    Leave(c, inner, RcloneLevel(name), rclone.hooks)
  }

  // ----- steps -----

  function SubstepOf(part: string): Option<Substep> {
    if part == "backup" then Some(BackupStep)
    else if part == "retention" then Some(RetentionStep)
    else if part == "cleanup" then Some(CleanupStep)
    else None
  }

  /** The step strings a runner accepts before it takes any lock. */
  predicate ValidParts(job: Job, parts: seq<string>)
    requires parts != []
  {
    || (parts[0] == "rclone" && |parts| == 2 && parts[1] != "" && parts[1] in job.rclones)
    || (parts[0] == "backup" && |parts| == 2 && parts[1] != "" && parts[1] in job.backups)
    || (parts[0] == "backup" && |parts| == 3 && parts[1] != "" && SubstepOf(parts[2]).Some? && parts[1] in job.backups)
  }

  predicate ValidStep(job: Job, step: string) {
    ValidParts(job, Split(step, '.'))
  }

  predicate ValidSteps(job: Job, steps: seq<string>) {
    forall i :: 0 <= i < |steps| ==> ValidStep(job, steps[i])
  }

  function Rejected(w: World, step: string): Result {
    Result(w.(trace := w.trace + [UnknownStep(step)]), false)
  }

  function RunStep(c: Setting, w: World, step: string): Result {
    var parts := Split(step, '.');
    if parts[0] == "rclone" && |parts| == 2 then
      if parts[1] in c.job.rclones then RunRclone(c, w, parts[1]) else Rejected(w, step)
    else if parts[0] == "backup" && |parts| == 2 then
      if parts[1] in c.job.backups then RunBackup(c, w, parts[1]) else Rejected(w, step)
    else if parts[0] == "backup" && |parts| == 3 && SubstepOf(parts[2]).Some? then
      if parts[1] in c.job.backups then RunCommand(c, w, Restic(Task(parts[1], SubstepOf(parts[2]).value))) else Rejected(w, step)
    else Rejected(w, step)
  }

  function RunSteps(c: Setting, w: World, steps: seq<string>): Result
    decreases |steps|
  {
    if steps == [] then Result(w, true)
    else
      var r := RunStep(c, w, steps[0]);
      if r.ok then RunSteps(c, r.world, steps[1..]) else r
  }

  function RunWorkflow(c: Setting, w: World, name: string, workflow: Workflow): Result {
    var entered := Enter(c, w, WorkflowLevel(name), workflow.hooks);
    var inner := if entered.ok then RunSteps(c, entered.world, workflow.steps) else entered;
    Leave(c, inner, WorkflowLevel(name), workflow.hooks)
  }

  // ----- collecting successes -----

  /** The restic substeps of a step, in the order they run and are collected. */
  function StepTasks(job: Job, step: string): seq<Task> {
    var parts := Split(step, '.');
    if parts[0] != "backup" || |parts| !in {2, 3} || parts[1] == "" || parts[1] !in job.backups then []
    else if |parts| == 2 then BackupTasks(parts[1], job.backups[parts[1]])
    else
      var substep := SubstepOf(parts[2]);
      if substep.Some? then [Task(parts[1], substep.value)] else []
  }

  function StepsTasks(job: Job, steps: seq<string>): seq<Task> {
    if steps == [] then [] else StepTasks(job, steps[0]) + StepsTasks(job, steps[1..])
  }

  function First<T>(queue: seq<T>): Option<T> {
    if queue == [] then None else Some(queue[0])
  }

  function PopId(ids: map<Task, seq<string>>, task: Task): map<Task, seq<string>> {
    var queue := Queued(ids, task);
    if queue == [] then ids else ids[task := queue[1..]]
  }

  /** Popping a summary; an emptied queue is removed. */
  function Consume(artifacts: map<string, seq<Option<string>>>, name: string): map<string, seq<Option<string>>> {
    var queue := Queued(artifacts, name);
    if |queue| <= 1 then artifacts - {name} else artifacts[name := queue[1..]]
  }

  /** The next summary of a backup; a candidate without one counts as none. */
  function NextSummary(w: World, task: Task): Option<string> {
    var queue := Queued(w.artifacts, task.name);
    if task.substep != BackupStep || queue == [] then None else queue[0]
  }

  function CollectTask(c: Setting, w: World, task: Task, fallback: bool): World {
    var report := Callback(task, First(Queued(w.ids, task)), NextSummary(w, task));
    var silent := c.dryRun || (report.id.None? && !fallback && report.summary.None?);
    World(w.trace, PopId(w.ids, task), if task.substep == BackupStep then Consume(w.artifacts, task.name) else w.artifacts,
          if silent then w.callbacks else w.callbacks + [report])
  }

  function CollectTasks(c: Setting, w: World, tasks: seq<Task>, fallback: bool): World
    decreases |tasks|
  {
    if tasks == [] then w else CollectTasks(c, CollectTask(c, w, tasks[0], fallback), tasks[1..], fallback)
  }

  // ----- one run -----

  datatype Target = BackupTarget(backup: string) | StepTarget(step: string) | WorkflowTarget(workflow: string)

  /** Checked before any lock is taken; an unknown target runs nothing. */
  predicate ValidTarget(job: Job, target: Target) {
    match target
    case BackupTarget(name) => name in job.backups
    case StepTarget(step) => ValidStep(job, step)
    case WorkflowTarget(name) => name in job.workflows && ValidSteps(job, job.workflows[name].steps)
  }

  function TargetTasks(job: Job, target: Target): seq<Task>
    requires ValidTarget(job, target)
  {
    match target
    case BackupTarget(name) => BackupTasks(name, job.backups[name])
    case StepTarget(step) => StepTasks(job, step)
    case WorkflowTarget(name) => StepsTasks(job, job.workflows[name].steps)
  }

  function Operate(c: Setting, w: World, target: Target): Result
    requires ValidTarget(c.job, target)
  {
    match target
    case BackupTarget(name) => RunBackup(c, w, name)
    case StepTarget(step) => RunStep(c, w, step)
    case WorkflowTarget(name) => RunWorkflow(c, w, name, c.job.workflows[name])
  }

  function RunOperational(c: Setting, w: World, target: Target): Result
    requires ValidTarget(c.job, target)
  {
    var entered := Enter(c, w, JobLevel, c.job.hooks);
    var inner := if entered.ok then Operate(c, entered.world, target) else entered;
    Leave(c, inner, JobLevel, c.job.hooks)
  }

  /** The operation inside the job's hooks, and then, still under the locks, the collection of its successes. */
  function RunTarget(c: Setting, w: World, target: Target): Result {
    if !ValidTarget(c.job, target) then Result(w, false)
    else
      var r := RunOperational(c, w, target);
      Result(CollectTasks(c, r.world, TargetTasks(c.job, target), r.ok), r.ok)
  }
}
