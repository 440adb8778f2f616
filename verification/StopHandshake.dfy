/** Stopping a scheduler while it starts: any number of stop calls against the start-up of its event loop. */
module StopHandshake {

  /** Where the scheduler thread is; `saw` is what it read of the stop flag. */
  datatype Runner = Fresh | LoopKnown | EventCreated | Looked(saw: bool) | Running | Ended

  /** Where a stop call is, with what it has read so far. */
  datatype Stopper = Flagged | HasLoop(loop: bool) | HasBoth(loop: bool, event: bool) | Returned

  type CallId = nat

  datatype State = State(
    stopFlag: bool, loop: bool, asyncStop: bool, asyncSet: bool, queued: bool, closed: bool, runner: Runner, calls: map<CallId, Stopper>)

  datatype Event = Run | Deliver | Close | Stop(id: CallId) | Continue(id: CallId)

  const INITIAL := State(false, false, false, false, false, false, Fresh, map[])

  predicate Enabled(s: State, e: Event) {
    match e
    case Run => !s.runner.Running? && !s.runner.Ended?
    case Deliver => s.queued && s.runner.Running?
    case Close => s.runner.Running?
    case Stop(id) => id !in s.calls
    case Continue(id) => id in s.calls && !s.calls[id].Returned?
  }

  function Step(s: State, e: Event): State
    requires Enabled(s, e)
  {
    match e
    case Run => StartUp(s)
    case Deliver => s.(asyncSet := true, queued := false)
    case Close => s.(closed := true, runner := Ended, queued := false)
    case Stop(id) => s.(stopFlag := true, calls := s.calls[id := Flagged])
    case Continue(id) => Proceed(s, id)
  }

  /** The start-up publishes its loop and its event before it looks at the stop flag. */
  function StartUp(s: State): State
    requires Enabled(s, Run)
  {
    match s.runner
    case Fresh => s.(loop := true, runner := LoopKnown)
    case LoopKnown => s.(asyncStop := true, runner := EventCreated)
    case EventCreated => s.(runner := Looked(s.stopFlag))
    case Looked(saw) => s.(asyncSet := s.asyncSet || saw, runner := Running)
    case _ => s
  }

  /** A stop call has raised the flag; it reads the loop and the event, and schedules the event if both were there. */
  function Proceed(s: State, id: CallId): State
    requires Enabled(s, Continue(id))
  {
    match s.calls[id]
    case Flagged => s.(calls := s.calls[id := HasLoop(s.loop)])
    case HasLoop(loop) => s.(calls := s.calls[id := HasBoth(loop, s.asyncStop)])
    case HasBoth(loop, event) =>
      var schedules := loop && event && !s.closed;
      s.(queued := s.queued || schedules, calls := s.calls[id := Returned])
    case Returned => s
  }

  // ----- what every step keeps -----

  predicate Started(runner: Runner) {
    runner.Looked? || runner.Running? || runner.Ended?
  }

  /** The stop is on its way: the event is set or queued, or the start-up has seen the flag, or cannot help seeing it. */
  predicate WillStop(s: State) {
    s.asyncSet || s.queued || s.closed || (s.runner.Looked? && s.runner.saw) || !Started(s.runner)
  }

  /** A call that found no event was early enough for the start-up to see its flag. */
  predicate CallSound(s: State, call: Stopper) {
    match call
    case Flagged => true
    case HasLoop(loop) => loop || WillStop(s)
    case HasBoth(loop, event) => (loop && event) || WillStop(s)
    case Returned => WillStop(s)
  }

  ghost predicate Sound(s: State) {
    && (s.loop <==> !s.runner.Fresh?)
    && (s.asyncStop <==> !s.runner.Fresh? && !s.runner.LoopKnown?)
    && (s.closed <==> s.runner.Ended?)
    && (s.calls != map[] ==> s.stopFlag)
    && forall id :: id in s.calls ==> CallSound(s, s.calls[id])
  }

  /** What is on its way stays so. */
  lemma WillStopStays(s: State, e: Event)
    requires Sound(s) && Enabled(s, e) && WillStop(s) && s.stopFlag
    ensures WillStop(Step(s, e))
  { }

  lemma StepKeepsSound(s: State, e: Event)
    requires Sound(s) && Enabled(s, e)
    ensures Sound(Step(s, e))
  {
    var t := Step(s, e);
    forall id | id in t.calls
      ensures CallSound(t, t.calls[id])
    {
      if id in s.calls {
        assert CallSound(s, s.calls[id]);
        if WillStop(s) {
          WillStopStays(s, e);
        }
      }
    }
  }

  ghost predicate Execution(states: seq<State>, events: seq<Event>) {
    && |states| == |events| + 1 && states[0] == INITIAL
    && forall i :: 0 <= i < |events| ==> Enabled(states[i], events[i]) && states[i + 1] == Step(states[i], events[i])
  }

  lemma {:induction false} ExecutionsStaySound(states: seq<State>, events: seq<Event>, n: nat)
    requires Execution(states, events) && n < |states|
    ensures Sound(states[n])
  {
    if n > 0 {
      ExecutionsStaySound(states, events, n - 1);
      StepKeepsSound(states[n - 1], events[n - 1]);
    }
  }

  /** Once a stop call has returned, a running loop with nothing left to deliver has its stop event set. */
  lemma StopIsNeverLost(states: seq<State>, events: seq<Event>, n: nat, id: CallId)
    requires Execution(states, events) && n < |states| && id in states[n].calls && states[n].calls[id].Returned?
    requires states[n].runner.Running? && !states[n].queued
    ensures states[n].asyncSet
  {
    ExecutionsStaySound(states, events, n);
  }

  /** How many steps the start-up still has to take. */
  function Remaining(runner: Runner): nat {
    match runner
    case Fresh => 4
    case LoopKnown => 3
    case EventCreated => 2
    case Looked(_) => 1
    case _ => 0
  }

  /** The start-up taken to its end, with nobody else acting. */
  function StartedUp(s: State): State
    decreases Remaining(s.runner)
  {
    if Remaining(s.runner) == 0 then s else StartedUp(StartUp(s))
  }

  lemma {:induction false} StartingUpKeepsSound(s: State)
    requires Sound(s)
    ensures Sound(StartedUp(s)) && StartedUp(s).calls == s.calls && Remaining(StartedUp(s).runner) == 0
    decreases Remaining(s.runner)
  {
    if Remaining(s.runner) > 0 {
      StepKeepsSound(s, Run);
      StartingUpKeepsSound(StartUp(s));
    }
  }

  /**
   Wherever the start-up is when a stop call returns, before it has a loop or an event as well as after: taken to its end it
   leaves the event set, or queued for the loop to set, or the loop closed.
   */
  lemma StartUpSeesTheStop(states: seq<State>, events: seq<Event>, n: nat, id: CallId)
    requires Execution(states, events) && n < |states| && id in states[n].calls && states[n].calls[id].Returned?
    ensures var s := StartedUp(states[n]); s.asyncSet || s.queued || s.closed
  {
    ExecutionsStaySound(states, events, n);
    StartingUpKeepsSound(states[n]);
    assert CallSound(StartedUp(states[n]), StartedUp(states[n]).calls[id]);
  }

  /** A stop before the thread has run at all: the start-up sets the event. */
  lemma StopBeforeTheLoop()
    ensures var asked := Step(INITIAL, Stop(0));
            var read := Step(asked, Continue(0));
            var both := Step(read, Continue(0));
            var stopped := Step(both, Continue(0));
            stopped.calls[0].Returned? && !stopped.queued && StartedUp(stopped).asyncSet
  {
    var stopped := State(true, false, false, false, false, false, Fresh, map[0 := Returned]);
    assert Step(Step(Step(Step(INITIAL, Stop(0)), Continue(0)), Continue(0)), Continue(0)) == stopped;
    assert StartUp(StartUp(StartUp(StartUp(stopped)))).asyncSet;
  }

  // ----- nobody stops unasked -----

  /** Whatever would stop the loop goes back to a raised flag, and only a stop call raises it. */
  ghost predicate OnlyAsked(s: State) {
    && (s.stopFlag <==> s.calls != map[])
    && (s.asyncSet || s.queued || (s.runner.Looked? && s.runner.saw) ==> s.stopFlag)
  }

  lemma StepKeepsOnlyAsked(s: State, e: Event)
    requires Enabled(s, e) && OnlyAsked(s)
    ensures OnlyAsked(Step(s, e)) && (Step(s, e).calls != map[] ==> s.calls != map[] || e.Stop?)
  {
    if e.Stop? {
      assert e.id in Step(s, e).calls;
    } else if e.Continue? {
      assert e.id in s.calls && e.id in Step(s, e).calls;
    }
  }

  ghost predicate AskedBefore(events: seq<Event>, n: nat) {
    exists i :: 0 <= i < n && i < |events| && events[i].Stop?
  }

  lemma {:induction false} CallsWereMade(states: seq<State>, events: seq<Event>, n: nat)
    requires Execution(states, events) && n < |states|
    ensures OnlyAsked(states[n]) && (states[n].calls != map[] ==> AskedBefore(events, n))
  {
    if n > 0 {
      CallsWereMade(states, events, n - 1);
      StepKeepsOnlyAsked(states[n - 1], events[n - 1]);
      if events[n - 1].Stop? {
        assert AskedBefore(events, n);
      }
    }
  }

  /** The stop event is set, or on its way to be, only if some stop call came before. */
  lemma OnlyAStopSetsTheEvent(states: seq<State>, events: seq<Event>, n: nat)
    requires Execution(states, events) && n < |states|
    ensures states[n].asyncSet || states[n].queued ==> AskedBefore(events, n)
  {
    CallsWereMade(states, events, n);
  }

  lemma {:induction false} UnaskedStartUp(s: State)
    requires OnlyAsked(s) && !s.stopFlag
    ensures var t := StartedUp(s);
            !t.asyncSet && !t.queued && !t.stopFlag && (s.runner.Ended? || t.runner.Running?)
    decreases Remaining(s.runner)
  {
    if Remaining(s.runner) > 0 {
      StepKeepsOnlyAsked(s, Run);
      assert StartUp(s) == Step(s, Run) && !StartUp(s).stopFlag && !StartUp(s).runner.Ended?;
      UnaskedStartUp(StartUp(s));
    } else {
      assert StartedUp(s) == s;
    }
  }

  /** Without a stop call the start-up, taken to its end, leaves a running loop whose event is neither set nor queued. */
  lemma UnaskedLoopRuns(states: seq<State>, events: seq<Event>, n: nat)
    requires Execution(states, events) && n < |states| && !AskedBefore(events, n) && !states[n].runner.Ended?
    ensures var s := StartedUp(states[n]); s.runner.Running? && !s.asyncSet && !s.queued
  {
    CallsWereMade(states, events, n);
    UnaskedStartUp(states[n]);
  }

  /**
   The handshake is exact: in a running loop with nothing left to deliver and no call under way, the stop event is set exactly
   if somebody asked for it.
   */
  lemma StopIsExact(states: seq<State>, events: seq<Event>, n: nat)
    requires Execution(states, events) && n < |states| && states[n].runner.Running? && !states[n].queued
    requires forall id :: id in states[n].calls ==> states[n].calls[id].Returned?
    ensures states[n].asyncSet <==> AskedBefore(events, n)
  {
    OnlyAStopSetsTheEvent(states, events, n);
    if AskedBefore(events, n) {
      var i :| 0 <= i < n && i < |events| && events[i].Stop?;
      CallsStay(states, events, i + 1, n, events[i].id);
      StopIsNeverLost(states, events, n, events[i].id);
    }
  }

  lemma {:induction false} CallsStay(states: seq<State>, events: seq<Event>, m: nat, n: nat, id: CallId)
    requires Execution(states, events) && m <= n < |states| && id in states[m].calls
    ensures id in states[n].calls
  {
    if m < n {
      CallsStay(states, events, m, n - 1, id);
      StepKeepsCalls(states[n - 1], events[n - 1], id);
    }
  }

  lemma StepKeepsCalls(s: State, e: Event, id: CallId)
    requires Enabled(s, e) && id in s.calls
    ensures id in Step(s, e).calls
  { }

  /** Nothing is set or queued before the event exists. */
  ghost predicate EventFirst(s: State) {
    && (s.asyncSet || s.queued || s.runner.Looked? || s.runner.Running? ==> s.asyncStop)
    && (s.runner.EventCreated? ==> s.asyncStop)
    && forall id :: id in s.calls && s.calls[id].HasBoth? && s.calls[id].event ==> s.asyncStop
  }

  lemma StepKeepsEventFirst(s: State, e: Event)
    requires Enabled(s, e) && EventFirst(s)
    ensures EventFirst(Step(s, e))
  {
    var t := Step(s, e);
    forall id | id in t.calls && t.calls[id].HasBoth? && t.calls[id].event
      ensures t.asyncStop
    {
      if id in s.calls && s.calls[id].HasBoth? {
        assert s.calls[id].event ==> s.asyncStop;
      }
    }
  }

  /** A stop call schedules the event only once there is one. */
  lemma {:induction false} EventExistsFirst(states: seq<State>, events: seq<Event>, n: nat)
    requires Execution(states, events) && n < |states|
    ensures EventFirst(states[n])
  {
    if n > 0 {
      EventExistsFirst(states, events, n - 1);
      StepKeepsEventFirst(states[n - 1], events[n - 1]);
    }
  }
}
