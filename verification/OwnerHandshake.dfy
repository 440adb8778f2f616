/** The owner starts and restarts schedulers while it is being stopped: no live scheduler is left without a stop request. */
module OwnerHandshake {
  import opened Wrappers

  type SchedulerId = nat
  type CallId = nat

  datatype Scheduler = Scheduler(alive: bool, stopRequested: bool)

  /** Where the owner thread is; `id` is the scheduler it has just started. */
  datatype Owner = Top | Clearing | Loading | Waiting(id: SchedulerId) | Deciding(id: SchedulerId, running: bool) | Stopping(id: SchedulerId) | Ended

  /** Where a stop call is: what it read under the lock, whom it stopped first, whether it has seen the thread end. */
  datatype Stopper =
    | Flagged
    | Read(first: Option<SchedulerId>)
    | Joining(first: Option<SchedulerId>)
    | ReadAgain(first: Option<SchedulerId>, second: Option<SchedulerId>)
    | Returned

  datatype State = State(
    stopFlag: bool, published: Option<SchedulerId>, schedulers: map<SchedulerId, Scheduler>, owner: Owner, calls: map<CallId, Stopper>)

  /** `Start` begins with a fresh id, whatever the flag says by then; `Result` is what it reports, or a timeout. */
  datatype Event =
    | Look | Start(id: SchedulerId) | NoConfig | Result(running: bool) | Proceed | Restart | Die(id: SchedulerId) | Stop(call: CallId) | Continue(call: CallId)

  const INITIAL := State(false, None, map[], Top, map[])

  predicate Alive(s: State, id: SchedulerId) {
    id in s.schedulers && s.schedulers[id].alive
  }

  predicate Enabled(s: State, e: Event) {
    match e
    case Look => s.owner.Top?
    case Start(id) => s.owner.Loading? && id !in s.schedulers
    case NoConfig => s.owner.Loading?
    case Result(_) => s.owner.Waiting?
    case Proceed => s.owner.Clearing? || s.owner.Deciding? || s.owner.Stopping?
    case Restart => s.owner.Ended?
    case Die(id) => id in s.schedulers
    case Stop(call) => call !in s.calls
    case Continue(call) => call in s.calls && !s.calls[call].Returned?
  }

  function RequestStop(schedulers: map<SchedulerId, Scheduler>, id: SchedulerId): map<SchedulerId, Scheduler> {
    if id in schedulers then schedulers[id := schedulers[id].(stopRequested := true)] else schedulers
  }

  function Step(s: State, e: Event): State
    requires Enabled(s, e)
  {
    match e
    case Look =>
      if s.stopFlag then s.(owner := Ended)
      else if s.published.None? then s.(owner := Loading)
      else if !Alive(s, s.published.value) then s.(owner := Clearing)
      else s
    case Start(id) => s.(schedulers := s.schedulers[id := Scheduler(true, false)], owner := Waiting(id))
    case NoConfig => s.(owner := Top)
    case Result(running) => s.(owner := Deciding(s.owner.id, running))
    case Proceed => Decide(s)
    case Restart => s.(owner := Top)
    case Die(id) => s.(schedulers := s.schedulers[id := s.schedulers[id].(alive := false)])
    case Stop(call) => s.(stopFlag := true, calls := s.calls[call := Flagged])
    case Continue(call) => ContinueStop(s, call)
  }

  /** Under the state lock: a running scheduler is published unless a stop has been requested, and then it is stopped. */
  function Decide(s: State): State
    requires Enabled(s, Proceed)
  {
    match s.owner
    case Clearing => s.(published := None, owner := Loading)
    case Deciding(id, running) =>
      if running && !s.stopFlag then s.(published := Some(id), owner := Top)
      else if running then s.(schedulers := RequestStop(s.schedulers, id), owner := Top)
      else s.(owner := Stopping(id))
    case Stopping(id) => s.(schedulers := RequestStop(s.schedulers, id), owner := Top)
    case _ => s
  }

  /** Stops what it finds published, joins the thread, and looks once more. */
  function ContinueStop(s: State, call: CallId): State
    requires Enabled(s, Continue(call))
  {
    match s.calls[call]
    case Flagged => s.(calls := s.calls[call := Read(s.published)])
    case Read(first) =>
      s.(schedulers := if first.Some? then RequestStop(s.schedulers, first.value) else s.schedulers, calls := s.calls[call := Joining(first)])
    case Joining(first) => s.(calls := s.calls[call := ReadAgain(first, s.published)])
    case ReadAgain(first, second) =>
      s.(schedulers := if second.Some? && second != first then RequestStop(s.schedulers, second.value) else s.schedulers,
         calls := s.calls[call := Returned])
    case Returned => s
  }

  // ----- what every step keeps -----

  predicate Requested(s: State, id: SchedulerId) {
    id in s.schedulers && s.schedulers[id].stopRequested
  }

  /** The scheduler the owner thread still has in its hands. */
  predicate InHand(owner: Owner, id: SchedulerId) {
    (owner.Waiting? || owner.Deciding? || owner.Stopping?) && owner.id == id
  }

  /** A live scheduler nobody has asked to stop is published or still in the owner's hands. */
  predicate Covered(s: State, id: SchedulerId) {
    Alive(s, id) ==> Requested(s, id) || s.published == Some(id) || InHand(s.owner, id)
  }

  /** Since a stop call has read the published scheduler, it is the only one that can be. */
  predicate CallSound(s: State, call: Stopper) {
    match call
    case Flagged => true
    case Read(first) => s.published == first || s.published.None?
    case Joining(first) => s.published.None? || (s.published == first && Requested(s, first.value))
    case ReadAgain(first, _) => s.published.None? || (s.published == first && Requested(s, first.value))
    case Returned => s.published.None? || Requested(s, s.published.value)
  }

  ghost predicate Sound(s: State) {
    && (s.calls != map[] ==> s.stopFlag)
    && (s.published.Some? ==> s.published.value in s.schedulers)
    && (s.owner.Clearing? ==> s.published.Some? && !Alive(s, s.published.value))
    && (s.owner.Loading? ==> s.published.None?)
    && (s.owner.Waiting? || s.owner.Deciding? || s.owner.Stopping? ==> s.published.None? && s.owner.id in s.schedulers)
    && (forall id :: id in s.schedulers ==> Covered(s, id))
    && (forall call :: call in s.calls ==> CallSound(s, s.calls[call]))
  }

  lemma StepKeepsCovered(s: State, e: Event, id: SchedulerId)
    requires Sound(s) && Enabled(s, e) && id in Step(s, e).schedulers
    ensures Covered(Step(s, e), id)
  {
    if id in s.schedulers {
      assert Covered(s, id);
    }
  }

  /** With the stop flag up nothing new is published, and a request is never taken back. */
  lemma StepKeepsCall(s: State, e: Event, call: CallId)
    requires Sound(s) && Enabled(s, e) && call in s.calls
    ensures CallSound(Step(s, e), Step(s, e).calls[call])
  {
    assert CallSound(s, s.calls[call]);
    var t := Step(s, e);
    assert t.published == s.published || t.published.None?;
    assert forall id :: Requested(s, id) ==> Requested(t, id);
  }

  lemma StepKeepsSound(s: State, e: Event)
    requires Sound(s) && Enabled(s, e)
    ensures Sound(Step(s, e))
  {
    var t := Step(s, e);
    forall id | id in t.schedulers
      ensures Covered(t, id)
    {
      StepKeepsCovered(s, e, id);
    }
    forall call | call in t.calls
      ensures CallSound(t, t.calls[call])
    {
      if call in s.calls {
        StepKeepsCall(s, e, call);
      }
    }
  }

  ghost predicate Execution(states: seq<State>, events: seq<Event>) {
    && |states| == |events| + 1 && states[0] == INITIAL
    && forall i :: 0 <= i < |events| ==> Enabled(states[i], events[i]) && states[i + 1] == Step(states[i], events[i])
  }

  lemma {:induction false} ExecutionsStaySound(states: seq<State>, events: seq<Event>, n: nat)
    requires Execution(states, events) && n < |states|
    ensures Sound(states[n])
  {
    if n > 0 {
      ExecutionsStaySound(states, events, n - 1);
      StepKeepsSound(states[n - 1], events[n - 1]);
    }
  }

  /** Once a stop call has returned and the owner thread has ended, every scheduler still alive has been asked to stop. */
  lemma NoSchedulerIsForgotten(states: seq<State>, events: seq<Event>, n: nat, call: CallId, id: SchedulerId)
    requires Execution(states, events) && n < |states| && call in states[n].calls && states[n].calls[call].Returned?
    requires states[n].owner.Ended? && Alive(states[n], id)
    ensures Requested(states[n], id)
  {
    ExecutionsStaySound(states, events, n);
    assert Covered(states[n], id) && CallSound(states[n], states[n].calls[call]);
  }

  /** Even before that, whatever is alive and not asked to stop is only in the hands of the owner thread, which will. */
  lemma OnlyTheOwnerHoldsOne(states: seq<State>, events: seq<Event>, n: nat, call: CallId, id: SchedulerId)
    requires Execution(states, events) && n < |states| && call in states[n].calls && states[n].calls[call].Returned?
    requires Alive(states[n], id) && !Requested(states[n], id)
    ensures InHand(states[n].owner, id)
  {
    ExecutionsStaySound(states, events, n);
    assert Covered(states[n], id) && CallSound(states[n], states[n].calls[call]);
  }

  // ----- nobody is stopped unasked -----

  ghost predicate StopBefore(events: seq<Event>, n: nat) {
    exists i :: 0 <= i < n && i < |events| && events[i].Stop?
  }

  /** The start of the scheduler was reported as failed, or not reported in time. */
  ghost predicate FailedToStart(states: seq<State>, events: seq<Event>, n: nat, id: SchedulerId) {
    exists i :: 0 <= i < n && i < |events| && i < |states| && events[i] == Result(false) && states[i].owner == Waiting(id)
  }

  /** What one step adds to the reasons. */
  lemma StepNeedsReason(s: State, e: Event, id: SchedulerId)
    requires Enabled(s, e)
    ensures var t := Step(s, e);
            && (t.stopFlag || t.calls != map[] ==> s.stopFlag || s.calls != map[] || e.Stop?)
            && (t.owner == Deciding(id, false) || t.owner == Stopping(id) ==>
                  s.owner == Deciding(id, false) || s.owner == Stopping(id) || (e == Result(false) && s.owner == Waiting(id)))
            && (t.owner.Ended? ==> s.owner.Ended? || s.stopFlag)
            && (Requested(t, id) ==> Requested(s, id) || s.stopFlag || s.calls != map[] || s.owner == Stopping(id))
  {
    if e.Continue? {
      assert e.call in s.calls;
    }
  }

  lemma {:induction false} RequestsHaveReasons(states: seq<State>, events: seq<Event>, n: nat, id: SchedulerId)
    requires Execution(states, events) && n < |states|
    ensures states[n].stopFlag || states[n].calls != map[] ==> StopBefore(events, n)
    ensures states[n].owner == Deciding(id, false) || states[n].owner == Stopping(id) ==> FailedToStart(states, events, n, id)
    ensures Requested(states[n], id) ==> StopBefore(events, n) || FailedToStart(states, events, n, id)
    ensures states[n].owner.Ended? ==> StopBefore(events, n)
  {
    if n > 0 {
      RequestsHaveReasons(states, events, n - 1, id);
      StepNeedsReason(states[n - 1], events[n - 1], id);
      ReasonsStay(states, events, n, id);
      if events[n - 1].Stop? {
        assert StopBefore(events, n);
      }
      if events[n - 1] == Result(false) && states[n - 1].owner == Waiting(id) {
        assert FailedToStart(states, events, n, id);
      }
    }
  }

  lemma ReasonsStay(states: seq<State>, events: seq<Event>, n: nat, id: SchedulerId)
    requires n > 0
    ensures StopBefore(events, n - 1) ==> StopBefore(events, n)
    ensures FailedToStart(states, events, n - 1, id) ==> FailedToStart(states, events, n, id)
  { }

  /** A scheduler is asked to stop only after a stop call, or because it failed to start. */
  lemma OnlyForAReason(states: seq<State>, events: seq<Event>, n: nat, id: SchedulerId)
    requires Execution(states, events) && n < |states| && Requested(states[n], id)
    ensures StopBefore(events, n) || FailedToStart(states, events, n, id)
  {
    RequestsHaveReasons(states, events, n, id);
  }

  /** Without a stop call a scheduler that reports to run is published and goes on. */
  lemma RunningSchedulerIsPublished(states: seq<State>, events: seq<Event>, n: nat, id: SchedulerId)
    requires Execution(states, events) && n < |states| && states[n].owner == Deciding(id, true) && !StopBefore(events, n)
    ensures Enabled(states[n], Proceed)
    ensures var t := Step(states[n], Proceed);
            t.published == Some(id) && t.schedulers == states[n].schedulers && t.owner == Top
  {
    RequestsHaveReasons(states, events, n, id);
  }

  /** The owner thread ends only after a stop call. */
  lemma OwnerEndsOnlyWhenAsked(states: seq<State>, events: seq<Event>, n: nat)
    requires Execution(states, events) && n < |states| && states[n].owner.Ended?
    ensures StopBefore(events, n)
  {
    RequestsHaveReasons(states, events, n, 0);
  }

  /** The published scheduler stays published as long as it lives. */
  lemma LiveSchedulerStaysPublished(states: seq<State>, events: seq<Event>, n: nat, id: SchedulerId)
    requires Execution(states, events) && n < |events| && states[n].published == Some(id) && Alive(states[n + 1], id)
    ensures states[n + 1].published == Some(id)
  {
    ExecutionsStaySound(states, events, n);
  }

  /** Without a stop call a dead scheduler is taken down, and the configuration loaded to start another. */
  lemma DeadSchedulerIsReplaced(states: seq<State>, events: seq<Event>, n: nat)
    requires Execution(states, events) && n < |states| && !StopBefore(events, n)
    requires states[n].owner == Top && (states[n].published.Some? ==> !Alive(states[n], states[n].published.value))
    ensures var looked := Step(states[n], Look);
            var ready := if looked.owner == Clearing then Step(looked, Proceed) else looked;
            ready.owner == Loading && ready.published.None? && ready.schedulers == states[n].schedulers
  {
    RequestsHaveReasons(states, events, n, 0);
  }
}
