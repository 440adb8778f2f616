/** Hook traces are well nested, for every outcome of every hook and command. */
module JobTraces {
  import opened Wrappers
  import opened Text
  import opened JobModel

  /** Hooks run in order until one fails: all before the last one that ran succeeded, and it failed if any are left out. */
  lemma {:induction false} HooksRunInOrder(c: Setting, k: nat, count: nat)
    ensures var ran := HooksRun(c, k, count);
            && (forall i :: 0 <= i < ran - 1 ==> c.outcome(k, i))
            && (ran < count ==> ran > 0 && !c.outcome(k, ran - 1))
            && (HooksOk(c, k, count) <==> forall i :: 0 <= i < count ==> c.outcome(k, i))
  {
    if count > 0 {
      HooksRunInOrder(c, k, count - 1);
    }
  }

  /** A reader of traces: the levels that are open, innermost last, and whether something has failed. */
  datatype Reader = Reader(open: seq<Level>, failed: bool)

  /** What makes a run fail: a pre hook, a command or an unknown step; never a post or on_error hook. */
  predicate Failing(e: Event) {
    match e
    case HookList(_, phase, _, ok) => phase == Pre && !ok
    case CommandRun(_, ok, _, _) => !ok
    case UnknownStep(_) => true
  }

  /** The events a reader accepts next: everything but on_error before the first failure, only on_error after it. */
  predicate Accepts(s: Reader, e: Event) {
    match e
    case HookList(level, phase, _, _) =>
      (match phase
       case Pre => !s.failed
       case Post => !s.failed && s.open != [] && s.open[|s.open| - 1] == level
       case OnError => s.failed && s.open != [] && s.open[|s.open| - 1] == level)
    case CommandRun(_, _, _, _) => !s.failed
    case UnknownStep(_) => !s.failed
  }

  function Read(s: Reader, e: Event): Reader
    requires Accepts(s, e)
  {
    if e.HookList? && e.phase == Pre then Reader(s.open + [e.level], Failing(e))
    else if e.HookList? then Reader(s.open[..|s.open| - 1], s.failed)
    else Reader(s.open, Failing(e))
  }

  function Replay(s: Option<Reader>, events: seq<Event>): Option<Reader>
    decreases |events|
  {
    if events == [] || s.None? then s
    else if !Accepts(s.value, events[0]) then None
    else Replay(Some(Read(s.value, events[0])), events[1..])
  }

  lemma {:induction false} ReplayConcat(s: Option<Reader>, a: seq<Event>, b: seq<Event>)
    ensures Replay(s, a + b) == Replay(Replay(s, a), b)
    decreases |a|
  {
    if a == [] {
      assert a + b == b;
    } else if s.Some? && Accepts(s.value, a[0]) {
      assert (a + b)[1..] == a[1..] + b;
      ReplayConcat(Some(Read(s.value, a[0])), a[1..], b);
    }
  }

  /** The events a piece of the run has added. */
  function Added(w: World, r: World): seq<Event>
    requires w.trace <= r.trace
  {
    r.trace[|w.trace|..]
  }

  /** The piece is well nested on its own and tells its outcome: read with any levels open, it leaves them open. */
  ghost predicate Nested(w: World, r: Result) {
    && w.trace <= r.world.trace
    && forall open :: Reads(w, r, open)
  }

  ghost predicate Reads(w: World, r: Result, open: seq<Level>)
    requires w.trace <= r.world.trace
  {
    Replay(Some(Reader(open, false)), Added(w, r.world)) == Some(Reader(open, !r.ok))
  }

  lemma ReplayOne(s: Reader, e: Event)
    ensures Replay(Some(s), [e]) == if Accepts(s, e) then Some(Read(s, e)) else None
  {
    assert [e][1..] == [];
  }

  lemma AddedConcat(a: World, b: World, d: World)
    requires a.trace <= b.trace <= d.trace
    ensures a.trace <= d.trace && Added(a, d) == Added(a, b) + Added(b, d)
  { }

  /** A piece that succeeded, followed by another. */
  lemma NestedThen(w: World, first: Result, second: Result)
    requires Nested(w, first) && first.ok && Nested(first.world, second)
    ensures Nested(w, second)
  {
    AddedConcat(w, first.world, second.world);
    forall open
      ensures Reads(w, second, open)
    {
      assert Reads(w, first, open) && Reads(first.world, second, open);
      ReplayConcat(Some(Reader(open, false)), Added(w, first.world), Added(first.world, second.world));
    }
  }

  lemma CommandIsNested(c: Setting, w: World, command: Command)
    ensures Nested(w, RunCommand(c, w, command))
  {
    var r := RunCommand(c, w, command);
    forall open
      ensures Reads(w, r, open)
    {
      ReplayOne(Reader(open, false), r.world.trace[|w.trace|]);
      assert Added(w, r.world) == [r.world.trace[|w.trace|]];
    }
  }

  /** A level: its pre list, what `inner` adds if that succeeds, and then exactly one of post and on_error. */
  lemma LevelIsNested(c: Setting, w: World, level: Level, hooks: Hooks, inner: Result)
    requires var entered := Enter(c, w, level, hooks); if entered.ok then Nested(entered.world, inner) else inner == entered
    ensures Nested(w, Leave(c, inner, level, hooks))
  {
    var entered := Enter(c, w, level, hooks);
    var left := Leave(c, inner, level, hooks);
    forall open
      ensures Reads(w, left, open)
    {
      LevelReads(c, w, level, hooks, inner, open);
    }
  }

  lemma LevelReads(c: Setting, w: World, level: Level, hooks: Hooks, inner: Result, open: seq<Level>)
    requires var entered := Enter(c, w, level, hooks); if entered.ok then Nested(entered.world, inner) else inner == entered
    ensures Reads(w, Leave(c, inner, level, hooks), open)
  {
    var entered := Enter(c, w, level, hooks);
    var left := Leave(c, inner, level, hooks);
    var pre := entered.world.trace[|w.trace|];
    var last := left.world.trace[|inner.world.trace|];
    var start := Some(Reader(open, false));
    var inside := open + [level];
    assert Added(w, entered.world) == [pre] && Added(inner.world, left.world) == [last];
    ReplayOne(Reader(open, false), pre);
    if entered.ok {
      assert Reads(entered.world, inner, inside);
      AddedConcat(w, entered.world, inner.world);
      ReplayConcat(start, [pre], Added(entered.world, inner.world));
    }
    assert Replay(start, Added(w, inner.world)) == Some(Reader(inside, !inner.ok));
    AddedConcat(w, inner.world, left.world);
    ReplayConcat(start, Added(w, inner.world), [last]);
    ReplayOne(Reader(inside, !inner.ok), last);
    assert inside[..|inside| - 1] == open;
  }

  lemma {:induction false} TasksAreNested(c: Setting, w: World, tasks: seq<Task>)
    ensures Nested(w, RunTasks(c, w, tasks))
    decreases |tasks|
  {
    if tasks == [] {
      NothingIsNested(w);
    } else {
      var r := RunCommand(c, w, Restic(tasks[0]));
      CommandIsNested(c, w, Restic(tasks[0]));
      if r.ok {
        TasksAreNested(c, r.world, tasks[1..]);
        NestedThen(w, r, RunTasks(c, r.world, tasks[1..]));
      }
    }
  }

  lemma NothingIsNested(w: World)
    ensures Nested(w, Result(w, true))
  {
    assert Added(w, w) == [];
  }

  lemma RejectedIsNested(w: World, step: string)
    ensures Nested(w, Rejected(w, step))
  {
    var r := Rejected(w, step);
    forall open
      ensures Reads(w, r, open)
    {
      ReplayOne(Reader(open, false), UnknownStep(step));
      assert Added(w, r.world) == [UnknownStep(step)];
    }
  }

  lemma BackupIsNested(c: Setting, w: World, name: string)
    requires name in c.job.backups
    ensures Nested(w, RunBackup(c, w, name))
  {
    var backup := c.job.backups[name];
    var entered := Enter(c, w, BackupLevel(name), backup.hooks);
    TasksAreNested(c, entered.world, BackupTasks(name, backup));
    LevelIsNested(c, w, BackupLevel(name), backup.hooks, if entered.ok then RunTasks(c, entered.world, BackupTasks(name, backup)) else entered);
  }

  lemma RcloneIsNested(c: Setting, w: World, name: string)
    requires name in c.job.rclones
    ensures Nested(w, RunRclone(c, w, name))
  {
    var rclone := c.job.rclones[name];
    var entered := Enter(c, w, RcloneLevel(name), rclone.hooks);
    CommandIsNested(c, entered.world, Sync(name));
    LevelIsNested(c, w, RcloneLevel(name), rclone.hooks, if entered.ok then RunCommand(c, entered.world, Sync(name)) else entered);
  }

  lemma StepIsNested(c: Setting, w: World, step: string)
    ensures Nested(w, RunStep(c, w, step))
  {
    var parts := Split(step, '.');
    RejectedIsNested(w, step);
    if |parts| >= 2 {
      if parts[1] in c.job.rclones {
        RcloneIsNested(c, w, parts[1]);
      }
      if parts[1] in c.job.backups {
        BackupIsNested(c, w, parts[1]);
      }
      if |parts| == 3 && SubstepOf(parts[2]).Some? {
        CommandIsNested(c, w, Restic(Task(parts[1], SubstepOf(parts[2]).value)));
      }
    }
  }

  lemma {:induction false} StepsAreNested(c: Setting, w: World, steps: seq<string>)
    ensures Nested(w, RunSteps(c, w, steps))
    decreases |steps|
  {
    if steps == [] {
      NothingIsNested(w);
    } else {
      var r := RunStep(c, w, steps[0]);
      StepIsNested(c, w, steps[0]);
      if r.ok {
        StepsAreNested(c, r.world, steps[1..]);
        NestedThen(w, r, RunSteps(c, r.world, steps[1..]));
      }
    }
  }

  lemma WorkflowIsNested(c: Setting, w: World, name: string, workflow: Workflow)
    ensures Nested(w, RunWorkflow(c, w, name, workflow))
  {
    var entered := Enter(c, w, WorkflowLevel(name), workflow.hooks);
    StepsAreNested(c, entered.world, workflow.steps);
    LevelIsNested(c, w, WorkflowLevel(name), workflow.hooks, if entered.ok then RunSteps(c, entered.world, workflow.steps) else entered);
  }

  lemma OperateIsNested(c: Setting, w: World, target: Target)
    requires ValidTarget(c.job, target)
    ensures Nested(w, Operate(c, w, target))
  {
    match target
    case BackupTarget(name) => BackupIsNested(c, w, name);
    case StepTarget(step) => StepIsNested(c, w, step);
    case WorkflowTarget(name) => WorkflowIsNested(c, w, name, c.job.workflows[name]);
  }

  /** A whole run is well nested: every level opened is closed by exactly one of post and on_error, innermost first. */
  lemma RunIsNested(c: Setting, w: World, target: Target)
    requires ValidTarget(c.job, target)
    ensures Nested(w, RunOperational(c, w, target))
  {
    var entered := Enter(c, w, JobLevel, c.job.hooks);
    OperateIsNested(c, entered.world, target);
    LevelIsNested(c, w, JobLevel, c.job.hooks, if entered.ok then Operate(c, entered.world, target) else entered);
  }

  /** What an accepted trace says about failures: once something fails, only on_error lists follow. */
  lemma {:induction false} FailureEndsTheRun(s: Reader, events: seq<Event>, i: nat)
    requires Replay(Some(s), events).Some? && i < |events|
    ensures s.failed ==> events[i].HookList? && events[i].phase == OnError
    ensures Failing(events[i]) ==> Replay(Some(s), events).value.failed
    ensures forall j :: i < j < |events| && Failing(events[i]) ==> events[j].HookList? && events[j].phase == OnError
    decreases |events|
  {
    var next := Read(s, events[0]);
    if i > 0 {
      FailureEndsTheRun(next, events[1..], i - 1);
      FailedStays(next, events[1..]);
    } else {
      FailedStays(next, events[1..]);
      forall j | 0 < j < |events| && Failing(events[0])
        ensures events[j].HookList? && events[j].phase == OnError
      {
        FailureEndsTheRun(next, events[1..], j - 1);
      }
    }
  }

  lemma {:induction false} FailedStays(s: Reader, events: seq<Event>)
    requires Replay(Some(s), events).Some?
    ensures s.failed ==> Replay(Some(s), events).value.failed
    ensures !s.failed && Replay(Some(s), events).value.failed ==> exists i :: 0 <= i < |events| && Failing(events[i])
    decreases |events|
  {
    if events != [] {
      var next := Read(s, events[0]);
      FailedStays(next, events[1..]);
      if !s.failed && !Failing(events[0]) && Replay(Some(s), events).value.failed {
        var i :| 0 <= i < |events[1..]| && Failing(events[1..][i]);
        assert Failing(events[i + 1]);
      }
    }
  }

  /** A run succeeds exactly when every pre list and every command of it did; after the first failure only on_error lists follow. */
  lemma RunSucceedsIff(c: Setting, w: World, target: Target)
    requires ValidTarget(c.job, target)
    ensures var r := RunOperational(c, w, target);
            && w.trace <= r.world.trace
            && (r.ok <==> forall e :: e in Added(w, r.world) ==> !Failing(e))
            && (forall i, j :: 0 <= i < j < |Added(w, r.world)| && Failing(Added(w, r.world)[i]) ==>
                  Added(w, r.world)[j].HookList? && Added(w, r.world)[j].phase == OnError)
  {
    var r := RunOperational(c, w, target);
    RunIsNested(c, w, target);
    var events := Added(w, r.world);
    assert Reads(w, r, []);
    FailedStays(Reader([], false), events);
    forall i | 0 <= i < |events|
      ensures Failing(events[i]) ==> !r.ok
      ensures forall j :: i < j < |events| && Failing(events[i]) ==> events[j].HookList? && events[j].phase == OnError
    {
      FailureEndsTheRun(Reader([], false), events, i);
    }
  }

  /** A single substep runs its command and nothing else: no hooks of the backup. */
  lemma SingleSubstepHasNoHooks(c: Setting, w: World, step: string)
    requires ValidStep(c.job, step) && |Split(step, '.')| == 3
    ensures var r := RunStep(c, w, step);
            |r.world.trace| == |w.trace| + 1 && r.world.trace[|w.trace|].CommandRun?
            && StepTasks(c.job, step) == [r.world.trace[|w.trace|].command.task]
  { }
}
