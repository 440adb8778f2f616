/** Which ticks trigger a schedule: due windows over any run of ticks, some of which fail. */
module TickSchedule {
  import opened Wrappers

  /** Times are in microseconds; a schedule is a set of fire instants of which the latest before a time can be asked. */
  datatype Schedule = Schedule(previous: int -> Option<int>)

  ghost predicate FiresAt(s: Schedule, fires: iset<int>) {
    forall t {:trigger s.previous(t)} :: IsPrevious(fires, t, s.previous(t))
  }

  ghost predicate IsPrevious(fires: iset<int>, t: int, p: Option<int>) {
    match p
    case None => forall f :: f in fires ==> f >= t
    case Some(last) => last in fires && last < t && forall f :: f in fires && f < t ==> f <= last
  }

  const WINDOW_SECONDS := 60

  /** Due if the latest fire instant up to now lies in the window; the window opens at `notBefore` or one tick ago. */
  function IsDue(s: Schedule, now: int, notBefore: Option<int>, includeNotBefore: bool): bool {
    var windowStart := if notBefore.Some? then notBefore.value else now - WINDOW_SECONDS * 1000000;
    match s.previous(now + 1)
    case None => false
    case Some(lastDue) => if includeNotBefore then lastDue >= windowStart else lastDue > windowStart
  }

  /** The instants a check at `now` looks at: after the last successful check, or from the start of the scheduler. */
  predicate InWindow(start: int, last: Option<int>, now: int, f: int) {
    f <= now && if last.Some? then f > last.value else f >= start
  }

  function CheckDue(s: Schedule, start: int, last: Option<int>, now: int): bool {
    IsDue(s, now, if last.Some? then last else Some(start), last.None?)
  }

  lemma DueIffFireInWindow(s: Schedule, fires: iset<int>, start: int, last: Option<int>, now: int)
    requires FiresAt(s, fires)
    ensures CheckDue(s, start, last, now) <==> exists f :: f in fires && InWindow(start, last, now, f)
  {
    assert IsPrevious(fires, now + 1, s.previous(now + 1));
  }

  // ----- runs of ticks -----

  /** A tick checks its first `reached` tasks; it is successful only if nothing failed on the way. */
  datatype Tick = Tick(now: int, reached: nat, ok: bool)

  datatype Trigger = Trigger(task: nat, now: int)

  ghost predicate IsRun(start: int, count: nat, ticks: seq<Tick>) {
    && (forall k :: 0 <= k < |ticks| ==> start <= ticks[k].now && ticks[k].reached <= count && (ticks[k].ok ==> ticks[k].reached == count))
    && (forall j, k :: 0 <= j < k < |ticks| ==> ticks[j].now <= ticks[k].now)
  }

  /** The time of the last successful tick. */
  function LastCheck(ticks: seq<Tick>): Option<int> {
    if ticks == [] then None
    else
      var tick := ticks[|ticks| - 1];
      if tick.ok then Some(tick.now) else LastCheck(ticks[..|ticks| - 1])
  }

  /** The tasks among the first `reached` that are due. */
  function DueTasks(tasks: seq<Schedule>, start: int, last: Option<int>, now: int, reached: nat): seq<Trigger>
    requires reached <= |tasks|
  {
    if reached == 0 then []
    else
      DueTasks(tasks, start, last, now, reached - 1)
      + if CheckDue(tasks[reached - 1], start, last, now) then [Trigger(reached - 1, now)] else []
  }

  function Triggers(tasks: seq<Schedule>, start: int, ticks: seq<Tick>): seq<Trigger>
    requires forall k :: 0 <= k < |ticks| ==> ticks[k].reached <= |tasks|
  {
    if ticks == [] then []
    else
      var before, tick := ticks[..|ticks| - 1], ticks[|ticks| - 1];
      Triggers(tasks, start, before) + DueTasks(tasks, start, LastCheck(before), tick.now, tick.reached)
  }

  lemma {:induction false} DueTasksMeaning(tasks: seq<Schedule>, start: int, last: Option<int>, now: int, reached: nat, i: nat)
    requires reached <= |tasks|
    ensures Trigger(i, now) in DueTasks(tasks, start, last, now, reached) <==> i < reached && CheckDue(tasks[i], start, last, now)
  {
    if reached > 0 {
      DueTasksMeaning(tasks, start, last, now, reached - 1, i);
    }
  }

  /** Tick `k` triggers task `i` exactly if it gets that far and a fire instant lies in its window. */
  lemma TriggersIff(tasks: seq<Schedule>, fires: iset<int>, start: int, ticks: seq<Tick>, k: nat, i: nat)
    requires IsRun(start, |tasks|, ticks) && k < |ticks| && i < |tasks| && FiresAt(tasks[i], fires)
    ensures var last := LastCheck(ticks[..k]);
            Trigger(i, ticks[k].now) in DueTasks(tasks, start, last, ticks[k].now, ticks[k].reached) <==>
              i < ticks[k].reached && exists f :: f in fires && InWindow(start, last, ticks[k].now, f)
  {
    var last := LastCheck(ticks[..k]);
    DueTasksMeaning(tasks, start, last, ticks[k].now, ticks[k].reached, i);
    DueIffFireInWindow(tasks[i], fires, start, last, ticks[k].now);
  }

  /** The last successful tick, by position. */
  lemma {:induction false} LastCheckIs(ticks: seq<Tick>) returns (j: int)
    ensures -1 <= j < |ticks|
    ensures if j == -1 then LastCheck(ticks).None? else ticks[j].ok && LastCheck(ticks) == Some(ticks[j].now)
    ensures forall l :: j < l < |ticks| ==> !ticks[l].ok
  {
    if ticks == [] {
      j := -1;
    } else if ticks[|ticks| - 1].ok {
      j := |ticks| - 1;
    } else {
      j := LastCheckIs(ticks[..|ticks| - 1]);
    }
  }

  /** The first successful tick at or after an instant. */
  ghost predicate FirstOkAtOrAfter(ticks: seq<Tick>, k: nat, f: int) {
    k < |ticks| && ticks[k].ok && f <= ticks[k].now && forall j :: 0 <= j < k && ticks[j].ok ==> ticks[j].now < f
  }

  /**
   For every instant since the start, the successful tick in whose window it lies is the first one at or after it: so it
   triggers exactly one successful tick, and a failed tick only leaves the window open.
   */
  lemma EachInstantHasOneTick(start: int, count: nat, ticks: seq<Tick>, k: nat, f: int)
    requires IsRun(start, count, ticks) && k < |ticks| && ticks[k].ok && start <= f
    ensures InWindow(start, LastCheck(ticks[..k]), ticks[k].now, f) <==> FirstOkAtOrAfter(ticks, k, f)
  {
    var before := ticks[..k];
    var j := LastCheckIs(before);
    if j >= 0 {
      forall l | 0 <= l < k && ticks[l].ok
        ensures ticks[l].now <= before[j].now
      {
        assert before[l] == ticks[l];
      }
    } else {
      assert forall l :: 0 <= l < k ==> !before[l].ok;
    }
  }

  /** No instant is lost: once a successful tick comes after it, it has its tick, which triggers every schedule that fires then. */
  lemma {:induction false} NoInstantIsLost(tasks: seq<Schedule>, fires: iset<int>, start: int, ticks: seq<Tick>, n: nat, i: nat, f: int)
      returns (k: nat)
    requires IsRun(start, |tasks|, ticks) && n < |ticks| && ticks[n].ok && start <= f <= ticks[n].now
    requires i < |tasks| && FiresAt(tasks[i], fires) && f in fires
    ensures k <= n && FirstOkAtOrAfter(ticks, k, f)
    ensures Trigger(i, ticks[k].now) in DueTasks(tasks, start, LastCheck(ticks[..k]), ticks[k].now, ticks[k].reached)
  {
    k := n;
    if j: nat :| j < n && ticks[j].ok && f <= ticks[j].now {
      k := NoInstantIsLost(tasks, fires, start, ticks, j, i, f);
    } else {
      EachInstantHasOneTick(start, |tasks|, ticks, n, f);
      TriggersIff(tasks, fires, start, ticks, n, i);
    }
  }

  /** Two successful ticks never look at the same instant. */
  lemma NoInstantTriggersTwice(start: int, count: nat, ticks: seq<Tick>, j: nat, k: nat, f: int)
    requires IsRun(start, count, ticks) && j < k < |ticks| && ticks[j].ok && ticks[k].ok && start <= f
    ensures !(InWindow(start, LastCheck(ticks[..j]), ticks[j].now, f) && InWindow(start, LastCheck(ticks[..k]), ticks[k].now, f))
  {
    EachInstantHasOneTick(start, count, ticks, j, f);
    EachInstantHasOneTick(start, count, ticks, k, f);
  }

  /** The state after a run of ticks. */
  ghost predicate StateAfter(tasks: seq<Schedule>, start: int, ticks: seq<Tick>, lastCheckTime: Option<int>, triggered: seq<Trigger>) {
    && IsRun(start, |tasks|, ticks)
    && lastCheckTime == LastCheck(ticks)
    && triggered == Triggers(tasks, start, ticks)
  }

  /** The clock does not go back, and only a tick that checked everything is successful. */
  predicate NextTick(start: int, count: nat, ticks: seq<Tick>, tick: Tick) {
    && start <= tick.now && (ticks != [] ==> ticks[|ticks| - 1].now <= tick.now)
    && tick.reached <= count && (tick.ok ==> tick.reached == count)
  }

  lemma OneMoreTick(tasks: seq<Schedule>, start: int, ticks: seq<Tick>, last: Option<int>, triggered: seq<Trigger>, tick: Tick)
    requires StateAfter(tasks, start, ticks, last, triggered) && NextTick(start, |tasks|, ticks, tick)
    ensures StateAfter(tasks, start, ticks + [tick], if tick.ok then Some(tick.now) else last,
                       triggered + DueTasks(tasks, start, last, tick.now, tick.reached))
  {
    var all := ticks + [tick];
    assert all[..|all| - 1] == ticks && all[|all| - 1] == tick;
  }

  // ----- the scheduler's own state -----

  class CronScheduler {
    const tasks: seq<Schedule>
    const startTime: int
    var lastCheckTime: Option<int>
    var triggered: seq<Trigger>
    ghost var ticks: seq<Tick>

    ghost predicate Valid()
      reads this
    {
      StateAfter(tasks, startTime, ticks, lastCheckTime, triggered)
    }

    constructor (tasks: seq<Schedule>, startTime: int)
      ensures Valid() && ticks == [] && this.tasks == tasks && this.startTime == startTime
    {
      this.tasks, this.startTime := tasks, startTime;
      lastCheckTime, triggered, ticks := None, [], [];
    }

    /** Goes through the tasks in order; an exception cuts it short after `reached` of them. */
    method CheckAndRun(now: int, reached: nat)
      requires reached <= |tasks|
      modifies this`triggered
      ensures triggered == old(triggered) + DueTasks(tasks, startTime, lastCheckTime, now, reached)
    {
      var notBefore := if lastCheckTime.Some? then lastCheckTime else Some(startTime);
      var includeNotBefore := lastCheckTime.None?;
      for i := 0 to reached
        invariant triggered == old(triggered) + DueTasks(tasks, startTime, lastCheckTime, now, i)
      {
        if IsDue(tasks[i], now, notBefore, includeNotBefore) {
          triggered := triggered + [Trigger(i, now)];
        }
      }
    }

    /** Only a tick that went through moves the last check time. */
    method RunTick(now: int, reached: nat, ok: bool)
      requires Valid() && NextTick(startTime, |tasks|, ticks, Tick(now, reached, ok))
      modifies this
      ensures Valid() && ticks == old(ticks) + [Tick(now, reached, ok)]
    {
      OneMoreTick(tasks, startTime, ticks, lastCheckTime, triggered, Tick(now, reached, ok));
      CheckAndRun(now, reached);
      if ok {
        lastCheckTime := Some(now);
      }
      ticks := ticks + [Tick(now, reached, ok)];
    }
  }

  // ----- report windows -----

  /** The window a report covers: between the last two fire instants up to now, open at its lower end. */
  function ReportWindow(s: Schedule, now: int): Option<(int, int)> {
    match s.previous(now + 1)
    case None => None
    case Some(due) =>
      match s.previous(due)
      case None => None
      case Some(previous) => Some((previous, due))
  }

  /** Reports of two ticks in whose windows different fire instants lie never overlap. */
  lemma ReportWindowsDisjoint(s: Schedule, fires: iset<int>, a: int, b: int)
    requires FiresAt(s, fires) && a <= b && ReportWindow(s, a).Some? && ReportWindow(s, b).Some?
    requires exists f :: f in fires && a < f <= b
    ensures ReportWindow(s, a).value.1 <= ReportWindow(s, b).value.0
  {
    var dueA, dueB := s.previous(a + 1).value, s.previous(b + 1).value;
    assert IsPrevious(fires, a + 1, s.previous(a + 1)) && IsPrevious(fires, b + 1, s.previous(b + 1)) && IsPrevious(fires, dueB, s.previous(dueB));
  }

  /** They leave no gap exactly if only one fire instant lies between the ticks: an earlier one is never reported. */
  lemma ReportWindowsContiguousIff(s: Schedule, fires: iset<int>, a: int, b: int)
    requires FiresAt(s, fires) && a <= b && ReportWindow(s, a).Some? && ReportWindow(s, b).Some?
    requires exists f :: f in fires && a < f <= b
    ensures ReportWindow(s, a).value.1 == ReportWindow(s, b).value.0 <==>
              forall f, g :: f in fires && g in fires && a < f <= b && a < g <= b ==> f == g
  {
    var dueA, dueB := s.previous(a + 1).value, s.previous(b + 1).value;
    assert IsPrevious(fires, a + 1, s.previous(a + 1)) && IsPrevious(fires, b + 1, s.previous(b + 1)) && IsPrevious(fires, dueB, s.previous(dueB));
    var previous := s.previous(dueB).value;
    if previous != dueA {
      assert a < previous < dueB <= b;
    }
  }

  /** A schedule that fires every ten units of time. */
  const EVERY_TEN := Schedule((t: int) => Some((t - 1) / 10 * 10))

  /**
   It fires at 10, 20 and 30, and the scheduler looks at 10 and again only at 30: the first report covers the time up to 10,
   the next one begins at 20, and what finished in between is in neither.
   */
  lemma SkippedInstantIsNotReported()
    ensures FiresAt(EVERY_TEN, iset f | f % 10 == 0)
    ensures ReportWindow(EVERY_TEN, 10) == Some((0, 10)) && ReportWindow(EVERY_TEN, 30) == Some((20, 30))
  {
    var fires := iset f | f % 10 == 0;
    forall t
      ensures IsPrevious(fires, t, EVERY_TEN.previous(t))
    {
      var last := (t - 1) / 10 * 10;
      forall f | f in fires && f < t
        ensures f <= last
      {
        assert f == f / 10 * 10;
      }
    }
  }

  /** Without a time to start from, due means that a fire instant lies in the last minute. */
  lemma DueWithinTheMinute(s: Schedule, fires: iset<int>, now: int)
    requires FiresAt(s, fires)
    ensures IsDue(s, now, None, true) <==> exists f :: f in fires && now - 60 * 1000000 <= f <= now
    ensures IsDue(s, now, None, false) <==> exists f :: f in fires && now - 60 * 1000000 < f <= now
  {
    assert IsPrevious(fires, now + 1, s.previous(now + 1));
  }
}
