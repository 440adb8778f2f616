/** The try-lock protocol between any number of runs in any number of processes, one lock operation at a time. */
module LockProtocol {
  import opened Text

  type Resource = string
  type RunId = nat

  /** Locks are kept by position in the run's own sorted list; a phase says how many of them it holds. */
  datatype Phase =
    | Acquiring(taken: nat)
    | GivingUp(taken: nat, blockedAt: nat)
    | Sleeping
    | Operating
    | Leaving(taken: nat)
    | Finished(ok: bool)

  /** `retryDelay` is false when no delay is configured. */
  datatype Run = Run(locks: seq<Resource>, retryCount: nat, retryDelay: bool, attempt: nat, phase: Phase)

  /** Attempt `attempt` of `run` met `resource` held by attempt `blockerAttempt` of `blocker`. */
  datatype Failure = Failure(run: RunId, attempt: nat, resource: Resource, blocker: RunId, blockerAttempt: nat)

  datatype State = State(runs: map<RunId, Run>, owner: map<Resource, RunId>, failures: set<Failure>)

  datatype Event = Start(id: RunId, locks: seq<Resource>, retryCount: nat, retryDelay: bool) | Move(id: RunId) | Die(id: RunId)

  predicate Ascending(locks: seq<Resource>) {
    forall i, j :: 0 <= i < j < |locks| ==> Less(locks[i], locks[j])
  }

  function HeldCount(run: Run): nat {
    match run.phase
    case Acquiring(taken) => taken
    case GivingUp(taken, _) => taken
    case Sleeping => 0
    case Operating => |run.locks|
    case Leaving(taken) => taken
    case Finished(_) => 0
  }

  predicate Holds(run: Run, resource: Resource)
    requires HeldCount(run) <= |run.locks|
  {
    exists i :: 0 <= i < HeldCount(run) && run.locks[i] == resource
  }

  predicate WellFormed(run: Run) {
    && Ascending(run.locks) && 1 <= run.attempt <= run.retryCount + 1 && HeldCount(run) <= |run.locks|
    && (run.phase.GivingUp? ==> run.phase.taken <= run.phase.blockedAt < |run.locks|)
    && (run.phase.Sleeping? ==> run.attempt <= run.retryCount && run.retryDelay)
  }

  // ----- the steps -----

  predicate Enabled(s: State, e: Event) {
    match e
    case Start(id, locks, _, _) => id !in s.runs && Ascending(locks)
    case Move(id) => id in s.runs && !s.runs[id].phase.Finished? && HeldCount(s.runs[id]) <= |s.runs[id].locks|
    case Die(id) => id in s.runs
  }

  function Step(s: State, e: Event): State
    requires Enabled(s, e)
  {
    match e
    case Start(id, locks, retryCount, retryDelay) => s.(runs := s.runs[id := Run(locks, retryCount, retryDelay, 1, Acquiring(0))])
    case Move(id) => MoveRun(s, id)
    case Die(id) => s.(
      runs := s.runs[id := s.runs[id].(phase := Finished(false))],
      owner := map resource | resource in s.owner && s.owner[resource] != id :: s.owner[resource])
  }

  function MoveRun(s: State, id: RunId): State
    requires Enabled(s, Move(id))
  {
    var run := s.runs[id];
    match run.phase
    case Acquiring(taken) =>
      if taken == |run.locks| then SetPhase(s, id, Operating)
      else TryLock(s, id)
    case GivingUp(taken, blockedAt) =>
      if taken == 0 then SetPhase(s, id, if run.attempt >= run.retryCount + 1 || !run.retryDelay then Finished(false) else Sleeping)
      else Release(SetPhase(s, id, GivingUp(taken - 1, blockedAt)), run.locks[taken - 1])
    case Sleeping =>
      s.(runs := s.runs[id := run.(attempt := run.attempt + 1, phase := Acquiring(0))])
    case Operating =>
      SetPhase(s, id, Leaving(|run.locks|))
    case Leaving(taken) =>
      if taken == 0 then SetPhase(s, id, Finished(true))
      else Release(SetPhase(s, id, Leaving(taken - 1)), run.locks[taken - 1])
    case Finished(_) => s
  }

  function SetPhase(s: State, id: RunId, phase: Phase): State
    requires id in s.runs
  {
    s.(runs := s.runs[id := s.runs[id].(phase := phase)])
  }

  function Release(s: State, resource: Resource): State {
    s.(owner := s.owner - {resource})
  }

  /** The next lock in order: taken if it is free; otherwise the attempt fails there, whoever holds it. */
  function TryLock(s: State, id: RunId): State
    requires id in s.runs && s.runs[id].phase.Acquiring? && s.runs[id].phase.taken < |s.runs[id].locks|
  {
    var run := s.runs[id];
    var taken := run.phase.taken;
    var resource := run.locks[taken];
    if resource !in s.owner then
      SetPhase(s, id, Acquiring(taken + 1)).(owner := s.owner[resource := id])
    else
      var blocker := s.owner[resource];
      var attempt := if blocker in s.runs then s.runs[blocker].attempt else 0;
      SetPhase(s, id, GivingUp(taken, taken)).(failures := s.failures + {Failure(id, run.attempt, resource, blocker, attempt)})
  }

  // ----- who owns what -----

  /** A lock has exactly the owner whose phase says it holds it. */
  ghost predicate OwnersHold(s: State) {
    && (forall id :: id in s.runs ==> WellFormed(s.runs[id]))
    && (forall resource :: resource in s.owner ==> s.owner[resource] in s.runs && Holds(s.runs[s.owner[resource]], resource))
    && (forall id, i :: id in s.runs && 0 <= i < HeldCount(s.runs[id]) ==> Owns(s, id, i))
  }

  predicate Owns(s: State, id: RunId, i: nat)
    requires id in s.runs
  {
    i < |s.runs[id].locks| && s.runs[id].locks[i] in s.owner && s.owner[s.runs[id].locks[i]] == id
  }

  // ----- who failed because of whom -----

  /** In its current attempt a blocker still acquiring holds what it blocked; a failed attempt failed later in the order. */
  ghost predicate Blames(s: State, f: Failure) {
    && f.run in s.runs && f.blocker in s.runs
    && f.attempt <= s.runs[f.run].attempt && f.blockerAttempt <= s.runs[f.blocker].attempt
    && (f.attempt == s.runs[f.run].attempt ==> GaveUp(s.runs[f.run].phase))
    && (f.attempt == s.runs[f.run].attempt && s.runs[f.run].phase.GivingUp? ==> FailedAt(s.runs[f.run], f.resource))
    && (f.blockerAttempt == s.runs[f.blocker].attempt && s.runs[f.blocker].phase.Acquiring? ==> Took(s.runs[f.blocker], f.resource))
  }

  /** Where an attempt that has failed can be. */
  predicate GaveUp(phase: Phase) {
    phase.GivingUp? || phase.Sleeping? || phase.Finished?
  }

  predicate FailedAt(run: Run, resource: Resource)
    requires run.phase.GivingUp?
  {
    run.phase.blockedAt < |run.locks| && run.locks[run.phase.blockedAt] == resource
  }

  predicate Took(run: Run, resource: Resource)
    requires run.phase.Acquiring?
  {
    run.phase.taken <= |run.locks| && resource in run.locks[..run.phase.taken]
  }

  ghost predicate Chained(f: Failure, g: Failure) {
    g.run == f.blocker && g.attempt == f.blockerAttempt
  }

  ghost predicate FailuresAscend(s: State) {
    && (forall f :: f in s.failures ==> Blames(s, f))
    && (forall f, g :: f in s.failures && g in s.failures && Chained(f, g) ==> Less(f.resource, g.resource))
  }

  ghost predicate Sound(s: State) {
    OwnersHold(s) && FailuresAscend(s)
  }

  const INITIAL := State(map[], map[], {})

  // ----- every step keeps the ownership -----

  function WithRun(s: State, id: RunId, run: Run): State {
    s.(runs := s.runs[id := run])
  }

  lemma SortedDistinct(locks: seq<Resource>, i: nat, j: nat)
    requires Ascending(locks) && i < |locks| && j < |locks| && i != j
    ensures locks[i] != locks[j]
  {
    LessTotal(locks[i], locks[i]);
    var lo, hi := if i < j then i else j, if i < j then j else i;
    assert Less(locks[lo], locks[hi]);
  }

  /** A change of phase that gives up or takes nothing. */
  lemma SameHoldings(s: State, id: RunId, run: Run)
    requires OwnersHold(s) && WellFormed(run)
    requires if id in s.runs then run.locks == s.runs[id].locks && HeldCount(run) == HeldCount(s.runs[id]) else HeldCount(run) == 0
    ensures OwnersHold(WithRun(s, id, run))
  {
    var t := WithRun(s, id, run);
    forall resource | resource in t.owner
      ensures t.owner[resource] in t.runs && Holds(t.runs[t.owner[resource]], resource)
    {
      var i :| 0 <= i < HeldCount(s.runs[s.owner[resource]]) && s.runs[s.owner[resource]].locks[i] == resource;
      assert t.runs[t.owner[resource]].locks[i] == resource;
    }
    forall other, i | other in t.runs && 0 <= i < HeldCount(t.runs[other])
      ensures Owns(t, other, i)
    {
      assert Owns(s, other, i);
    }
  }

  lemma GivesBackLast(s: State, id: RunId, run: Run)
    requires OwnersHold(s) && WellFormed(run) && id in s.runs
    requires run.locks == s.runs[id].locks && HeldCount(run) + 1 == HeldCount(s.runs[id])
    ensures OwnersHold(Release(WithRun(s, id, run), run.locks[HeldCount(run)]))
  {
    var last := HeldCount(run);
    var t := Release(WithRun(s, id, run), run.locks[last]);
    assert Owns(s, id, last);
    forall resource | resource in t.owner
      ensures t.owner[resource] in t.runs && Holds(t.runs[t.owner[resource]], resource)
    {
      var i :| 0 <= i < HeldCount(s.runs[s.owner[resource]]) && s.runs[s.owner[resource]].locks[i] == resource;
      assert t.runs[t.owner[resource]].locks[i] == resource;
    }
    forall other, i | other in t.runs && 0 <= i < HeldCount(t.runs[other])
      ensures Owns(t, other, i)
    {
      assert Owns(s, other, i);
      if other == id {
        SortedDistinct(run.locks, i, last);
      }
    }
  }

  lemma TakesNext(s: State, id: RunId, run: Run)
    requires OwnersHold(s) && WellFormed(run) && id in s.runs
    requires run.locks == s.runs[id].locks && HeldCount(run) == HeldCount(s.runs[id]) + 1
    requires run.locks[HeldCount(s.runs[id])] !in s.owner
    ensures OwnersHold(WithRun(s, id, run).(owner := s.owner[run.locks[HeldCount(s.runs[id])] := id]))
  {
    var next := HeldCount(s.runs[id]);
    var t := WithRun(s, id, run).(owner := s.owner[run.locks[next] := id]);
    forall resource | resource in t.owner
      ensures t.owner[resource] in t.runs && Holds(t.runs[t.owner[resource]], resource)
    {
      if resource == run.locks[next] {
        assert t.runs[id].locks[next] == resource;
      } else {
        var i :| 0 <= i < HeldCount(s.runs[s.owner[resource]]) && s.runs[s.owner[resource]].locks[i] == resource;
        assert t.runs[t.owner[resource]].locks[i] == resource;
      }
    }
    forall other, i | other in t.runs && 0 <= i < HeldCount(t.runs[other])
      ensures Owns(t, other, i)
    {
      if other != id || i < next {
        assert Owns(s, other, i);
      }
    }
  }

  lemma DeathFreesAll(s: State, id: RunId)
    requires OwnersHold(s) && id in s.runs
    ensures OwnersHold(Step(s, Die(id)))
  {
    var t := Step(s, Die(id));
    forall resource | resource in t.owner
      ensures t.owner[resource] in t.runs && Holds(t.runs[t.owner[resource]], resource)
    {
      var i :| 0 <= i < HeldCount(s.runs[s.owner[resource]]) && s.runs[s.owner[resource]].locks[i] == resource;
      assert t.runs[t.owner[resource]].locks[i] == resource;
    }
    forall other, i | other in t.runs && 0 <= i < HeldCount(t.runs[other])
      ensures Owns(t, other, i)
    {
      assert Owns(s, other, i);
    }
  }

  lemma OwnersIgnoreFailures(s: State, t: State)
    requires OwnersHold(s) && t.runs == s.runs && t.owner == s.owner
    ensures OwnersHold(t)
  {
    forall id, i | id in t.runs && 0 <= i < HeldCount(t.runs[id])
      ensures Owns(t, id, i)
    {
      assert Owns(s, id, i);
    }
  }

  lemma StepKeepsOwners(s: State, e: Event)
    requires OwnersHold(s) && Enabled(s, e)
    ensures OwnersHold(Step(s, e))
  {
    match e
    case Start(id, locks, retryCount, retryDelay) =>
      SameHoldings(s, id, Run(locks, retryCount, retryDelay, 1, Acquiring(0)));
    case Die(id) =>
      DeathFreesAll(s, id);
    case Move(id) =>
      MoveKeepsOwners(s, id);
  }

  lemma TryKeepsOwners(s: State, id: RunId)
    requires OwnersHold(s) && Enabled(s, Move(id)) && s.runs[id].phase.Acquiring?
    ensures OwnersHold(MoveRun(s, id))
  {
    var run := s.runs[id];
    var taken := run.phase.taken;
    if taken == |run.locks| {
      SameHoldings(s, id, run.(phase := Operating));
    } else if run.locks[taken] !in s.owner {
      TakesNext(s, id, run.(phase := Acquiring(taken + 1)));
    } else {
      SameHoldings(s, id, run.(phase := GivingUp(taken, taken)));
      OwnersIgnoreFailures(WithRun(s, id, run.(phase := GivingUp(taken, taken))), MoveRun(s, id));
    }
  }

  lemma GivingUpKeepsOwners(s: State, id: RunId)
    requires OwnersHold(s) && Enabled(s, Move(id)) && s.runs[id].phase.GivingUp?
    ensures OwnersHold(MoveRun(s, id))
  {
    var run := s.runs[id];
    var taken := run.phase.taken;
    if taken == 0 {
      SameHoldings(s, id, run.(phase := if run.attempt >= run.retryCount + 1 || !run.retryDelay then Finished(false) else Sleeping));
    } else {
      GivesBackLast(s, id, run.(phase := GivingUp(taken - 1, run.phase.blockedAt)));
    }
  }

  lemma LeavingKeepsOwners(s: State, id: RunId)
    requires OwnersHold(s) && Enabled(s, Move(id)) && s.runs[id].phase.Leaving?
    ensures OwnersHold(MoveRun(s, id))
  {
    var run := s.runs[id];
    var taken := run.phase.taken;
    if taken == 0 {
      SameHoldings(s, id, run.(phase := Finished(true)));
    } else {
      GivesBackLast(s, id, run.(phase := Leaving(taken - 1)));
    }
  }

  lemma RestingKeepsOwners(s: State, id: RunId)
    requires OwnersHold(s) && Enabled(s, Move(id)) && (s.runs[id].phase.Sleeping? || s.runs[id].phase.Operating?)
    ensures OwnersHold(MoveRun(s, id))
  {
    SameHoldings(s, id, MoveRun(s, id).runs[id]);
  }

  lemma MoveKeepsOwners(s: State, id: RunId)
    requires OwnersHold(s) && Enabled(s, Move(id))
    ensures OwnersHold(MoveRun(s, id))
  {
    match s.runs[id].phase
    case Acquiring(_) => TryKeepsOwners(s, id);
    case GivingUp(_, _) => GivingUpKeepsOwners(s, id);
    case Leaving(_) => LeavingKeepsOwners(s, id);
    case Sleeping => RestingKeepsOwners(s, id);
    case Operating => RestingKeepsOwners(s, id);
  }

  // ----- every step keeps the order of failures -----

  /** What may change about a run, as far as the recorded failures are concerned. */
  predicate Harmless(run: Run, after: Run) {
    && after.attempt >= run.attempt
    && (after.attempt == run.attempt ==>
          && (GaveUp(run.phase) ==> GaveUp(after.phase))
          && (after.phase.GivingUp? ==> run.phase.GivingUp? && after.phase.blockedAt == run.phase.blockedAt && after.locks == run.locks)
          && (after.phase.Acquiring? ==> after.locks == run.locks && run.phase.Acquiring? && run.phase.taken <= after.phase.taken <= |run.locks|))
  }

  lemma HarmlessKeepsBlame(s: State, t: State, id: RunId)
    requires FailuresAscend(s) && t.failures == s.failures
    requires id in t.runs && t.runs == s.runs[id := t.runs[id]]
    requires id in s.runs ==> Harmless(s.runs[id], t.runs[id])
    ensures FailuresAscend(t)
  {
    forall f | f in t.failures
      ensures Blames(t, f)
    {
      assert Blames(s, f);
    }
  }

  lemma NewFailure(s: State, id: RunId) returns (g: Failure)
    requires Sound(s) && Enabled(s, Move(id)) && s.runs[id].phase.Acquiring?
    requires s.runs[id].phase.taken < |s.runs[id].locks| && s.runs[id].locks[s.runs[id].phase.taken] in s.owner
    ensures var run := s.runs[id];
            var resource := run.locks[run.phase.taken];
            && g == Failure(id, run.attempt, resource, s.owner[resource], s.runs[s.owner[resource]].attempt)
            && MoveRun(s, id) == SetPhase(s, id, GivingUp(run.phase.taken, run.phase.taken)).(failures := s.failures + {g})
  {
    var run := s.runs[id];
    var resource := run.locks[run.phase.taken];
    var blocker := s.owner[resource];
    assert Holds(s.runs[blocker], resource);
    g := Failure(id, run.attempt, resource, blocker, s.runs[blocker].attempt);
  }

  /** The blocker of a new failure is another run. */
  lemma BlockedByAnother(s: State, id: RunId)
    requires OwnersHold(s) && id in s.runs && s.runs[id].phase.Acquiring? && s.runs[id].phase.taken < |s.runs[id].locks|
    requires s.runs[id].locks[s.runs[id].phase.taken] in s.owner
    ensures s.owner[s.runs[id].locks[s.runs[id].phase.taken]] != id
  {
    var run := s.runs[id];
    var resource := run.locks[run.phase.taken];
    if s.owner[resource] == id {
      var i :| 0 <= i < HeldCount(run) && run.locks[i] == resource;
      SortedDistinct(run.locks, i, run.phase.taken);
    }
  }

  lemma NewFailureBlames(s: State, id: RunId, g: Failure)
    requires Sound(s) && Enabled(s, Move(id)) && s.runs[id].phase.Acquiring?
    requires s.runs[id].phase.taken < |s.runs[id].locks| && s.runs[id].locks[s.runs[id].phase.taken] in s.owner
    requires var run := s.runs[id];
             var resource := run.locks[run.phase.taken];
             g == Failure(id, run.attempt, resource, s.owner[resource], s.runs[s.owner[resource]].attempt)
    ensures Blames(MoveRun(s, id), g)
  {
    BlockedByAnother(s, id);
    var blocker := s.runs[g.blocker];
    assert Holds(blocker, g.resource);
    if blocker.phase.Acquiring? {
      var i :| 0 <= i < HeldCount(blocker) && blocker.locks[i] == g.resource;
      assert blocker.locks[..blocker.phase.taken][i] == g.resource;
    }
  }

  /** Whoever was blocked by this attempt was blocked at a lock it held, so below the one it now fails at. */
  lemma BlockedBelow(s: State, f: Failure, g: Failure)
    requires Sound(s) && f in s.failures && g.run in s.runs && s.runs[g.run].phase.Acquiring? && Chained(f, g)
    requires g.attempt == s.runs[g.run].attempt && s.runs[g.run].phase.taken < |s.runs[g.run].locks|
    requires g.resource == s.runs[g.run].locks[s.runs[g.run].phase.taken]
    ensures Less(f.resource, g.resource)
  {
    assert Blames(s, f);
    var run := s.runs[g.run];
    var i :| 0 <= i < run.phase.taken && run.locks[..run.phase.taken][i] == f.resource;
    assert Less(run.locks[i], run.locks[run.phase.taken]);
  }

  /** If the blocker has already failed in this attempt, it failed above every lock it still holds. */
  lemma BlockerFailedAbove(s: State, g: Failure, h: Failure)
    requires Sound(s) && h in s.failures && Chained(g, h)
    requires g.resource in s.owner && s.owner[g.resource] == g.blocker && s.runs[g.blocker].attempt == g.blockerAttempt
    ensures Less(g.resource, h.resource)
  {
    assert Blames(s, h);
    var blocker := s.runs[g.blocker];
    assert Holds(blocker, g.resource);
    assert blocker.phase.GivingUp? by {
      FailedRunsGiveUp(s, h);
    }
    var i :| 0 <= i < HeldCount(blocker) && blocker.locks[i] == g.resource;
    assert Less(blocker.locks[i], blocker.locks[blocker.phase.blockedAt]);
  }

  lemma FailedRunsGiveUp(s: State, h: Failure)
    requires Sound(s) && h in s.failures && h.attempt == s.runs[h.run].attempt
    ensures s.runs[h.run].phase.GivingUp? || HeldCount(s.runs[h.run]) == 0
  {
    assert Blames(s, h);
  }

  lemma FailureKeepsOrder(s: State, id: RunId)
    requires Sound(s) && Enabled(s, Move(id)) && s.runs[id].phase.Acquiring?
    requires s.runs[id].phase.taken < |s.runs[id].locks| && s.runs[id].locks[s.runs[id].phase.taken] in s.owner
    ensures FailuresAscend(MoveRun(s, id))
  {
    var g := NewFailure(s, id);
    var t := MoveRun(s, id);
    NewFailureBlames(s, id, g);
    forall f | f in t.failures
      ensures Blames(t, f)
    {
      if f in s.failures {
        assert Blames(s, f);
      }
    }
    BlockedByAnother(s, id);
    forall f, h | f in t.failures && h in t.failures && Chained(f, h)
      ensures Less(f.resource, h.resource)
    {
      if f == g {
        if h in s.failures {
          BlockerFailedAbove(s, g, h);
        }
      } else if h == g {
        BlockedBelow(s, f, g);
      }
    }
  }

  lemma MoveKeepsOrder(s: State, id: RunId)
    requires Sound(s) && Enabled(s, Move(id))
    ensures FailuresAscend(MoveRun(s, id))
  {
    var run := s.runs[id];
    if run.phase.Acquiring? && run.phase.taken < |run.locks| && run.locks[run.phase.taken] in s.owner {
      FailureKeepsOrder(s, id);
    } else {
      HarmlessKeepsBlame(s, MoveRun(s, id), id);
    }
  }

  lemma StepKeepsSound(s: State, e: Event)
    requires Sound(s) && Enabled(s, e)
    ensures Sound(Step(s, e))
  {
    StepKeepsOwners(s, e);
    match e
    case Start(id, _, _, _) => HarmlessKeepsBlame(s, Step(s, e), id);
    case Die(id) => HarmlessKeepsBlame(s, Step(s, e), id);
    case Move(id) => MoveKeepsOrder(s, id);
  }

  // ----- whole executions -----

  /** Any interleaving of starts, moves and deaths, from a state without runs. */
  ghost predicate Execution(states: seq<State>, events: seq<Event>) {
    && |states| == |events| + 1 && states[0] == INITIAL
    && forall i :: 0 <= i < |events| ==> Enabled(states[i], events[i]) && states[i + 1] == Step(states[i], events[i])
  }

  lemma {:induction false} ExecutionsStaySound(states: seq<State>, events: seq<Event>, n: nat)
    requires Execution(states, events) && n < |states|
    ensures Sound(states[n])
  {
    if n > 0 {
      ExecutionsStaySound(states, events, n - 1);
      StepKeepsSound(states[n - 1], events[n - 1]);
    }
  }

  ghost predicate RecordedFailure(s: State, id: RunId) {
    exists f :: f in s.failures && f.run == id && id in s.runs && f.attempt == s.runs[id].attempt
  }

  /** Every attempt that gave up was blocked by a recorded holder. */
  lemma {:induction false} FailuresAreRecorded(states: seq<State>, events: seq<Event>, n: nat, id: RunId)
    requires Execution(states, events) && n < |states| && id in states[n].runs
    ensures states[n].runs[id].phase.GivingUp? || states[n].runs[id].phase.Sleeping? ==> RecordedFailure(states[n], id)
  {
    if n > 0 {
      var before, e := states[n - 1], events[n - 1];
      if id in before.runs {
        FailuresAreRecorded(states, events, n - 1, id);
        StepKeepsRecords(before, e, id);
      }
    }
  }

  lemma StepKeepsRecords(s: State, e: Event, id: RunId)
    requires Enabled(s, e) && id in s.runs
    requires s.runs[id].phase.GivingUp? || s.runs[id].phase.Sleeping? ==> RecordedFailure(s, id)
    ensures var t := Step(s, e); t.runs[id].phase.GivingUp? || t.runs[id].phase.Sleeping? ==> RecordedFailure(t, id)
  {
    var t := Step(s, e);
    if RecordedFailure(s, id) {
      var f :| f in s.failures && f.run == id && f.attempt == s.runs[id].attempt;
      assert f in t.failures;
    }
    if t.failures != s.failures {
      var g :| g in t.failures && g !in s.failures;
      assert g.run == e.id;
    }
  }

  /** In every interleaving, two runs operating at once share no resource. */
  lemma OperatingRunsAreDisjoint(states: seq<State>, events: seq<Event>, n: nat, a: RunId, b: RunId)
    requires Execution(states, events) && n < |states| && a in states[n].runs && b in states[n].runs && a != b
    requires states[n].runs[a].phase.Operating? && states[n].runs[b].phase.Operating?
    ensures forall resource :: resource in states[n].runs[a].locks ==> resource !in states[n].runs[b].locks
  {
    ExecutionsStaySound(states, events, n);
    forall i, j | 0 <= i < |states[n].runs[a].locks| && 0 <= j < |states[n].runs[b].locks|
      ensures states[n].runs[a].locks[i] != states[n].runs[b].locks[j]
    {
      assert Owns(states[n], a, i) && Owns(states[n], b, j);
    }
  }

  /** A run that sleeps between attempts, or has finished, holds nothing; there are at most retryCount + 1 attempts. */
  lemma RestingRunsHoldNothing(states: seq<State>, events: seq<Event>, n: nat, id: RunId)
    requires Execution(states, events) && n < |states| && id in states[n].runs
    ensures states[n].runs[id].attempt <= states[n].runs[id].retryCount + 1
    ensures states[n].runs[id].phase.Sleeping? ==> states[n].runs[id].attempt <= states[n].runs[id].retryCount && states[n].runs[id].retryDelay
    ensures states[n].runs[id].phase.Sleeping? || states[n].runs[id].phase.Finished? ==> forall resource :: resource in states[n].owner ==> states[n].owner[resource] != id
  {
    ExecutionsStaySound(states, events, n);
    if states[n].runs[id].phase.Sleeping? || states[n].runs[id].phase.Finished? {
      forall resource | resource in states[n].owner
        ensures states[n].owner[resource] != id
      {
        assert Holds(states[n].runs[states[n].owner[resource]], resource);
      }
    }
  }

  /** Chains of failures go strictly up in the order of resources. */
  lemma BlameGoesUp(states: seq<State>, events: seq<Event>, n: nat, f: Failure, g: Failure)
    requires Execution(states, events) && n < |states| && f in states[n].failures && g in states[n].failures && Chained(f, g)
    ensures Less(f.resource, g.resource)
  {
    ExecutionsStaySound(states, events, n);
  }

  lemma {:induction false} Highest(failures: set<Failure>) returns (top: Failure)
    requires failures != {}
    ensures top in failures && forall f :: f in failures ==> !Less(top.resource, f.resource)
    decreases |failures|
  {
    top :| top in failures;
    LessTotal(top.resource, top.resource);
    if failures != {top} {
      var below := Highest(failures - {top});
      LessTotal(top.resource, below.resource);
      var other := top;
      if Less(top.resource, below.resource) {
        top := below;
      }
      forall f | f in failures
        ensures !Less(top.resource, f.resource)
      {
        LessTotal(top.resource, f.resource);
        if f != other && top == other && Less(top.resource, f.resource) {
          NotBetween(below.resource, top.resource, f.resource);
        }
      }
    }
  }

  lemma NotBetween(a: Resource, b: Resource, c: Resource)
    requires !Less(a, c) && !Less(b, a)
    ensures !Less(b, c)
  {
    LessTotal(a, b);
    if Less(b, c) && a != b {
      LessTransitive(a, b, c);
    }
  }

  /** No set of attempts can all have failed because of each other: one of them was blocked from outside. */
  lemma NotAllBlockEachOther(states: seq<State>, events: seq<Event>, n: nat, group: set<Failure>)
    requires Execution(states, events) && n < |states| && group <= states[n].failures && group != {}
    ensures exists f :: f in group && forall g :: g in group ==> !Chained(f, g)
  {
    var f := Highest(group);
    forall g | g in group
      ensures !Chained(f, g)
    {
      if Chained(f, g) {
        BlameGoesUp(states, events, n, f, g);
      }
    }
  }

  // ----- an attempt fails only for a reason, and a run gives up only after its last attempt -----

  /** Only a lock that another run owns at that moment makes an attempt fail, and every failure is of that kind. */
  lemma OnlyHeldLocksBlock(states: seq<State>, events: seq<Event>, n: nat, id: RunId)
    requires Execution(states, events) && n < |events| && id in states[n].runs
    requires !states[n].runs[id].phase.GivingUp? && states[n + 1].runs[id].phase.GivingUp?
    ensures var run := states[n].runs[id];
            && events[n] == Move(id) && run.phase.Acquiring? && run.phase.taken < |run.locks|
            && var resource := run.locks[run.phase.taken]; resource in states[n].owner && states[n].owner[resource] != id && states[n].owner[resource] in states[n].runs
  {
    ExecutionsStaySound(states, events, n);
    BlockedByAnother(states[n], id);
  }

  /** A run gives up for good only when its attempts are used up, or no delay is configured, or it dies. */
  lemma GivesUpOnlyAfterTheLast(s: State, e: Event, id: RunId)
    requires Enabled(s, e) && id in s.runs && s.runs[id].phase != Finished(false) && Step(s, e).runs[id].phase == Finished(false)
    ensures e == Die(id) || s.runs[id].attempt >= s.runs[id].retryCount + 1 || !s.runs[id].retryDelay
  { }

  /** A run finishes well only from its operation, after giving everything back. */
  lemma FinishesWellAfterOperating(s: State, e: Event, id: RunId)
    requires OwnersHold(s) && Enabled(s, e) && id in s.runs && s.runs[id].phase != Finished(true) && Step(s, e).runs[id].phase == Finished(true)
    ensures e == Move(id) && s.runs[id].phase == Leaving(0) && forall resource :: resource in s.owner ==> s.owner[resource] != id
  {
    forall resource | resource in s.owner
      ensures s.owner[resource] != id
    {
      assert Holds(s.runs[s.owner[resource]], resource);
    }
  }

  /** The first locks of a run. */
  function FirstLocks(run: Run, count: nat): set<Resource>
    requires count <= |run.locks|
  {
    if count == 0 then {} else FirstLocks(run, count - 1) + {run.locks[count - 1]}
  }

  lemma {:induction false} LaterIsNotFirst(run: Run, count: nat, i: nat)
    requires Ascending(run.locks) && count <= i < |run.locks|
    ensures run.locks[i] !in FirstLocks(run, count)
  {
    if count > 0 {
      LaterIsNotFirst(run, count - 1, i);
      SortedDistinct(run.locks, count - 1, i);
    }
  }

  lemma FreeLockIsTaken(s: State, id: RunId)
    requires OwnersHold(s) && id in s.runs && s.runs[id].phase.Acquiring? && s.runs[id].phase.taken < |s.runs[id].locks|
    requires s.runs[id].locks[s.runs[id].phase.taken] !in s.owner
    ensures var run := s.runs[id];
            var t := MoveRun(s, id);
            id in t.runs && t.runs[id] == run.(phase := Acquiring(run.phase.taken + 1)) && t.owner.Keys == s.owner.Keys + {run.locks[run.phase.taken]}
  { }

  /** The run has taken its first `count` locks, and nothing else has changed hands. */
  ghost predicate HasTaken(s: State, t: State, id: RunId, count: nat)
    requires id in s.runs && count <= |s.runs[id].locks|
  {
    id in t.runs && t.runs[id] == s.runs[id].(phase := Acquiring(count)) && t.owner.Keys == s.owner.Keys + FirstLocks(s.runs[id], count)
  }

  lemma TakesOneMore(s: State, t: State, id: RunId, count: nat)
    requires id in s.runs && count < |s.runs[id].locks| && Ascending(s.runs[id].locks) && OwnersHold(t) && HasTaken(s, t, id, count)
    requires s.runs[id].locks[count] !in s.owner
    ensures HasTaken(s, MoveRun(t, id), id, count + 1)
  {
    LaterIsNotFirst(s.runs[id], count, count);
    FreeLockIsTaken(t, id);
  }

  /** Only this run moves. */
  ghost predicate Undisturbed(states: seq<State>, id: RunId) {
    forall i :: 0 <= i < |states| - 1 ==> Enabled(states[i], Move(id)) && states[i + 1] == Step(states[i], Move(id))
  }

  predicate IsFree(s: State, id: RunId, i: nat)
    requires id in s.runs
  {
    i < |s.runs[id].locks| ==> s.runs[id].locks[i] !in s.owner
  }

  /** A run nobody else is in the way of takes its locks one by one. */
  lemma {:induction false} UnhinderedRunTakes(states: seq<State>, id: RunId, count: nat)
    requires Undisturbed(states, id) && count < |states|
    requires OwnersHold(states[0]) && id in states[0].runs && states[0].runs[id].phase == Acquiring(0) && count <= |states[0].runs[id].locks|
    requires forall i: nat :: IsFree(states[0], id, i)
    ensures OwnersHold(states[count]) && HasTaken(states[0], states[count], id, count)
  {
    if count > 0 {
      UnhinderedRunTakes(states, id, count - 1);
      assert IsFree(states[0], id, count - 1);
      StepKeepsOwners(states[count - 1], Move(id));
      TakesOneMore(states[0], states[count - 1], id, count - 1);
    }
  }

  /** With all its locks free and nobody in the way, an attempt always succeeds. */
  lemma UnhinderedRunOperates(states: seq<State>, id: RunId)
    requires Undisturbed(states, id) && |states| > 0 && OwnersHold(states[0]) && id in states[0].runs && states[0].runs[id].phase == Acquiring(0)
    requires |states| > |states[0].runs[id].locks| + 1 && forall i: nat :: IsFree(states[0], id, i)
    ensures var n := |states[0].runs[id].locks| + 1; id in states[n].runs && states[n].runs[id].phase.Operating?
  {
    UnhinderedRunTakes(states, id, |states[0].runs[id].locks|);
  }

  /** Attempts are counted one by one, each after a sleep. */
  lemma AttemptsAreConsecutive(s: State, e: Event, id: RunId)
    requires Enabled(s, e) && id in s.runs
    ensures var before, after := s.runs[id], Step(s, e).runs[id];
            after.attempt == (if e == Move(id) && before.phase.Sleeping? then before.attempt + 1 else before.attempt)
  { }
}
