/** The collector: which queries it asks, and how it resolves and persists among the transactions of others. */
module StatsCollector {
  import opened Wrappers
  import opened Text
  import opened ArtifactTables
  import opened ArtifactMerge
  import opened ArtifactStore
  import opened ArtifactRetention
  import opened ArtifactService

  datatype Trigger = BackupRun | RetentionRun | CleanupRun | Refresh

  /** What a snapshots query brings back. */
  datatype Answer = Answer(ok: bool, snapshots: seq<Snapshot>)

  /** A snapshots query as it was asked: for the newest few, or for all of them. */
  datatype Query = Query(latest: Option<nat>, answer: Answer)

  datatype Collected = Skipped | Stored(loc: Id, ids: set<string>, full: bool)

  function TriggerOf(context: Option<Trigger>): Trigger {
    if context.Some? then context.value else Refresh
  }

  // ----- which queries are asked, and what is made of their answers -----

  /** A backup asks for its own snapshot only, a cleanup for none. */
  function FirstQueries(trigger: Trigger, first: Answer): seq<Query> {
    match trigger
    case CleanupRun => []
    case BackupRun => [Query(Some(1), first)]
    case _ => [Query(None, first)]
  }

  /** A backup that meets a changed identity asks again, for all snapshots. */
  function MoreQueries(trigger: Trigger, changed: bool, complete: Answer): seq<Query> {
    if changed && trigger.BackupRun? then [Query(None, complete)] else []
  }

  /** Retention collects no statistics. */
  function StatsKept(trigger: Trigger, stats: Option<int>): Option<int> {
    if trigger.RetentionRun? then None else stats
  }

  /** There is something to store: statistics, a snapshot, or a backup's successful listing; retention needs its listing. */
  predicate Worthwhile(trigger: Trigger, stats: Option<int>, first: Answer) {
    match trigger
    case BackupRun => stats.Some? || first.snapshots != [] || first.ok
    case RetentionRun => first.ok && first.snapshots != []
    case CleanupRun => stats.Some?
    case Refresh => stats.Some? || first.snapshots != []
  }

  /** Which observations are taken for the complete state of the location. */
  predicate Reconciles(context: Option<Trigger>, changed: bool, first: Answer, complete: Answer) {
    match context
    case None => first.ok
    case Some(BackupRun) => changed && complete.ok
    case Some(RetentionRun) => first.ok
    case Some(CleanupRun) => changed
    case Some(Refresh) => changed && first.ok
  }

  function ObservedSnapshots(trigger: Trigger, changed: bool, first: Answer, complete: Answer): seq<Snapshot> {
    var answer := if trigger.BackupRun? && changed then complete else first;
    if trigger.CleanupRun? || !answer.ok then [] else answer.snapshots
  }

  function ObservedIds(trigger: Trigger, changed: bool, first: Answer, complete: Answer): set<string> {
    SnapshotIds(ObservedSnapshots(trigger, changed, first, complete))
  }

  /** Some query for all snapshots succeeded, and these are the ids it brought back. */
  predicate IsCompleteListing(asked: seq<Query>, ids: set<string>) {
    exists q :: q in asked && q.latest.None? && q.answer.ok && SnapshotIds(q.answer.snapshots) == ids
  }

  /**
   Of the queries a collection asks, one for all snapshots has brought back exactly what is reconciled, unless the trigger
   is a cleanup: that asks nothing, and reconciles all the same when it met a changed identity.
   */
  lemma ReconcileNeedsCompleteListingIff(context: Option<Trigger>, changed: bool, first: Answer, complete: Answer)
    requires Reconciles(context, changed, first, complete)
    ensures var trigger := TriggerOf(context);
            var asked := FirstQueries(trigger, first) + MoreQueries(trigger, changed, complete);
            IsCompleteListing(asked, ObservedIds(trigger, changed, first, complete)) <==> !trigger.CleanupRun?
  {
    var trigger := TriggerOf(context);
    var asked := FirstQueries(trigger, first) + MoreQueries(trigger, changed, complete);
    if trigger.BackupRun? {
      assert Query(None, complete) in asked;
    } else if !trigger.CleanupRun? {
      assert Query(None, first) in asked;
    }
  }

  /** All snapshots are asked for by a retention run and a refresh, and by a backup only when it met a changed identity. */
  lemma AsksForAllIff(context: Option<Trigger>, changed: bool, first: Answer, complete: Answer)
    ensures (exists q :: q in FirstQueries(TriggerOf(context), first) + MoreQueries(TriggerOf(context), changed, complete) && q.latest.None?) <==>
              context.None? || context == Some(RetentionRun) || context == Some(Refresh) || (context == Some(BackupRun) && changed)
    ensures context == Some(BackupRun) ==> Query(Some(1), first) in FirstQueries(TriggerOf(context), first)
  {
    var asked := FirstQueries(TriggerOf(context), first) + MoreQueries(TriggerOf(context), changed, complete);
    if context == Some(BackupRun) && changed {
      assert asked[1] == Query(None, complete);
    } else if context != Some(BackupRun) && context != Some(CleanupRun) {
      assert asked[0] == Query(None, first);
    }
  }

  /** A cleanup after which the repository has another identity: no query, and yet a full reconcile with nothing. */
  lemma CleanupReconcilesUnasked(first: Answer, complete: Answer)
    ensures Reconciles(Some(CleanupRun), true, first, complete)
    ensures FirstQueries(CleanupRun, first) + MoreQueries(CleanupRun, true, complete) == []
    ensures ObservedIds(CleanupRun, true, first, complete) == {}
  { }

  // ----- the transactions of others -----

  ghost predicate OneBackend(t: Tables) {
    forall r :: r in t.repos ==> t.repos[r].backend == "restic"
  }

  /** Locations and repositories only went. */
  ghost predicate OnlyDropped(t: Tables, t': Tables) {
    && (forall l :: l in t'.locs ==> l in t.locs && t'.locs[l] == t.locs[l])
    && (forall r :: r in t'.repos ==> r in t.repos && t'.repos[r] == t.repos[r])
  }

  lemma DropOnlyDrops(t: Tables, repo: Id, loc: Id)
    requires Consistent(t) && LocationOf(t, loc, repo)
    ensures OnlyDropped(t, DropLocation(t, repo, loc))
  {
    DropLocationLeavesOthers(t, repo, loc);
  }

  lemma MergeOnlyDrops(t: Tables, t': Tables, repo: Id, s: Id, d: Id)
    requires Consistent(t) && Mergeable(t, repo, s, d) && Merge(t, t', repo, s, d)
    ensures OnlyDropped(t, t')
  {
    MergeIsLossless(t, t', repo, s, d, 0);
  }

  lemma RetentionOnlyDrops(t: Tables, repo: Id, keys: set<string>, cutoff: Option<int>, count: Option<nat>)
    requires Consistent(t)
    ensures OnlyDropped(t, Retained(t, repo, keys, cutoff, count))
  {
    RetentionKeepsLive(t, repo, keys, cutoff, count);
  }

  /** A key and the identity that a collector has read behind it. */
  datatype Claim = Claim(key: string, backendId: string)

  /** What every transaction keeps: the invariant, and the key settled if one is claimed. */
  ghost predicate Holds(t: Tables, claim: Option<Claim>) {
    Consistent(t) && OneBackend(t) && (claim.Some? ==> KeyBelongsTo(t, claim.value.key, "restic", claim.value.backendId))
  }

  lemma DropsKeepClaim(t: Tables, t': Tables, claim: Option<Claim>)
    requires Holds(t, claim) && Consistent(t') && OnlyDropped(t, t')
    ensures Holds(t', claim)
  {
    if claim.Some? {
      DeletesKeepKeySettled(t, t', claim.value.key, "restic", claim.value.backendId);
    }
  }

  /** Recording a location: of another key than the claimed one, or of that key for the same identity. */
  lemma RecordingKeepsClaim(t: Tables, t': Tables, claim: Option<Claim>, repo: Id, loc: Id, other: Claim)
    requires Holds(t, claim) && Consistent(t') && (claim.Some? && claim.value.key == other.key ==> claim.value == other)
    requires t'.repos == t.repos[repo := Repository("restic", other.backendId)] && (repo in t.repos ==> t'.repos == t.repos)
    requires loc in t'.locs && t'.locs == t.locs[loc := t'.locs[loc]] && t'.locs[loc].repo == repo && t'.locs[loc].key == other.key
    ensures Holds(t', claim)
  {
    if claim.Some? {
      forall l | l in t'.locs && t'.locs[l].key == claim.value.key
        ensures t'.repos[t'.locs[l].repo] == Repository("restic", claim.value.backendId)
      {
        if l != loc {
          assert t.locs[l] == t'.locs[l];
        }
      }
    }
  }

  lemma RecordedKeepsClaim(t: Tables, t': Tables, claim: Option<Claim>, repo: Id, loc: Id, other: Claim)
    requires Holds(t, claim) && Consistent(t') && (claim.Some? && claim.value.key == other.key ==> claim.value == other)
    requires LocationRecorded(t, t', repo, loc, other.key, other.key, Repository("restic", other.backendId))
    ensures Holds(t', claim)
  {
    RecordingKeepsClaim(t, t', claim, repo, loc, other);
  }

  /** Rebinding another key than the claimed one, or that key to the same identity, whenever its holder was found. */
  lemma RebindKeepsClaim(t: Tables, t': Tables, claim: Option<Claim>, previous: Id, repo: Id, loc: Id, other: Claim)
    requires Holds(t, claim) && Consistent(t') && (claim.Some? && claim.value.key == other.key ==> claim.value == other)
    requires Rebound(t, t', previous, repo, loc, other.key, other.key, Repository("restic", other.backendId))
    ensures Holds(t', claim)
  {
    var dropped := DroppedKeyIsFree(t, previous, other.key);
    DropsKeepClaim(t, dropped, claim);
    RecordedKeepsClaim(dropped, t', claim, repo, loc, other);
  }

  /** A transaction another collector or the user interface may commit at any time; `previous` was found some time before. */
  datatype Transaction =
    | Delete(repo: Id, loc: Id)
    | MergeLocations(repo: Id, source: Id, target: Id)
    | PruneLocations(repo: Id, limit: nat, keys: set<string>)
    | Prune(cutoff: Option<int>, count: Option<nat>)
    | Record(other: Claim)
    | Rebind(other: Claim, previous: Id)
    | Persist(other: Claim, snapshots: seq<Snapshot>, stats: Option<int>, at: int, full: bool, protection: Option<set<string>>)

  /** Of another key than the claimed one, or with the same identity: nobody else reads another identity behind it meanwhile. */
  predicate Compatible(e: Transaction, claim: Option<Claim>) {
    (e.Record? || e.Rebind? || e.Persist?) && claim.Some? && claim.value.key == e.other.key ==> claim.value == e.other
  }

  class BackupStatsCollector {
    const store: RepositoryArtifactStore
    /** The snapshots queries asked so far. */
    var asked: seq<Query>

    constructor (store: RepositoryArtifactStore)
      ensures this.store == store && asked == []
    {
      this.store, asked := store, [];
    }

    method AskSnapshots(latest: Option<nat>, answer: Answer)
      modifies this`asked
      ensures asked == old(asked) + [Query(latest, answer)]
    {
      asked := asked + [Query(latest, answer)];
    }

    method Drops(e: Transaction, ghost claim: Option<Claim>)
      requires Holds(store.Db(), claim) && !e.Record? && !e.Rebind? && !e.Persist?
      modifies store
      ensures Holds(store.Db(), claim)
    {
      ghost var before := store.Db();
      match e
      case Delete(repo, loc) =>
        var deleted := store.DeleteLocation(repo, loc);
        if deleted {
          DropOnlyDrops(before, repo, loc);
        }
      case MergeLocations(repo, source, target) =>
        var merged := store.MergeLocation(repo, source, target);
        if merged {
          MergeOnlyDrops(before, store.Db(), repo, source, target);
        }
      case PruneLocations(repo, limit, keys) => store.PruneLocationsByCount(repo, limit, keys);
      case Prune(cutoff, count) => store.PruneArtifacts(cutoff, count);
      assert OnlyDropped(before, store.Db());
      DropsKeepClaim(before, store.Db(), claim);
    }

    /** The writing half of another collector's resolving, where it found the key held by another identity. */
    method Rebinds(e: Transaction, ghost claim: Option<Claim>)
      requires Holds(store.Db(), claim) && e.Rebind? && Compatible(e, claim)
      modifies store
      ensures Holds(store.Db(), claim)
    {
      ghost var before := store.Db();
      var repo, loc := store.RebindLocationIdentity("restic", e.other.backendId, e.other.key, e.other.key, e.previous);
      RebindKeepsClaim(before, store.Db(), claim, e.previous, repo, loc, e.other);
    }

    /** And where it found the key free: what it has claimed for itself still holds. */
    method Records(e: Transaction, ghost claim: Option<Claim>)
      requires Holds(store.Db(), claim) && e.Record? && Compatible(e, claim) && Holds(store.Db(), Some(e.other))
      modifies store
      ensures Holds(store.Db(), claim)
    {
      ghost var before := store.Db();
      var repo, loc := store.FindRepositoryAndLocation("restic", e.other.backendId, e.other.key, e.other.key);
      RecordingKeepsClaim(before, store.Db(), claim, repo, loc, e.other);
    }

    /** An observation by another collector, whose own claim holds as this one does. */
    method Persists(e: Transaction, ghost claim: Option<Claim>)
      requires Holds(store.Db(), claim) && e.Persist? && Compatible(e, claim) && Holds(store.Db(), Some(e.other))
      modifies store
      ensures Holds(store.Db(), claim)
    {
      ghost var before := store.Db();
      var repo, loc, ran;
      ghost var observed;
      repo, loc, ran, observed :=
        store.PersistRun("restic", e.other.backendId, e.other.key, e.other.key, e.snapshots, e.stats, e.at, None, e.full, e.protection);
      RecordingKeepsClaim(before, observed, claim, repo, loc, e.other);
      if ran {
        RetentionOnlyDrops(observed, repo, e.protection.value, Cutoff(store.retentionDays, e.at), store.retentionCount);
        DropsKeepClaim(observed, store.Db(), claim);
      }
    }

    /**
     Any number of other transactions: deletes, merges, prunings, and what other collectors write when they resolve and
     persist. All of them keep a claim, as long as nobody reads another identity behind the claimed key.
     */
    method OtherTransactions(claim: Option<Claim>)
      requires Holds(store.Db(), claim)
      modifies store
      ensures Holds(store.Db(), claim)
    {
      var n: nat := *;
      while n > 0
        invariant Holds(store.Db(), claim)
      {
        var e: Transaction := *;
        if Compatible(e, claim) {
          OtherTransaction(e, claim);
        }
        n := n - 1;
      }
    }

    method OtherTransaction(e: Transaction, claim: Option<Claim>)
      requires Holds(store.Db(), claim) && Compatible(e, claim)
      modifies store
      ensures Holds(store.Db(), claim)
    {
      if e.Rebind? {
        Rebinds(e, claim);
      } else if e.Record? || e.Persist? {
        var settled := IsSettled(e.other);
        if settled && e.Record? {
          Records(e, claim);
        } else if settled {
          Persists(e, claim);
        }
      } else {
        Drops(e, claim);
      }
    }

    method IsSettled(other: Claim) returns (settled: bool)
      requires ForeignKeys(store.Db())
      ensures settled == KeyBelongsTo(store.Db(), other.key, "restic", other.backendId)
    {
      var t := Tables(store.repositories, store.locations, store.artifacts, store.observations, store.points);
      settled := KeyBelongsTo(t, other.key, "restic", other.backendId);
    }

    // ----- resolving -----

    /** The read before the transaction: who holds the key. */
    method FindLocation(key: string) returns (found: Option<Id>)
      ensures found.Some? ==> found.value in store.locations && store.locations[found.value].key == key
      ensures found.None? ==> forall l :: l in store.locations ==> store.locations[l].key != key
    {
      if x :| x in store.locations && store.locations[x].key == key {
        found := Some(x);
      } else {
        found := None;
      }
    }

    /**
     Resolving as it runs among others: they may commit between the read and the transaction, whose state is `before`, and
     after it. In the end the key belongs to the identity that was read.
     */
    method ResolveLocation(backendId: string, key: string) returns (identityChanged: bool, repo: Id, ghost before: Tables, ghost settled: Tables)
      requires Consistent(store.Db()) && OneBackend(store.Db())
      modifies store
      ensures Holds(store.Db(), Some(Claim(key, backendId)))
      ensures identityChanged == HeldByOther(old(store.Db()), key, backendId)
      ensures Resolved(old(store.Db()), before, settled, key, backendId)
    {
      var claim := Claim(key, backendId);
      var found := FindLocation(key);
      identityChanged := false;
      var loc;
      if found.None? {
        OtherTransactions(Some(claim));
        before := store.Db();
        repo, loc := store.FindRepositoryAndLocation("restic", backendId, key, key);
        assert LocationRecorded(before, store.Db(), repo, loc, key, key, Repository("restic", backendId));
      } else {
        repo := store.locations[found.value].repo;
        identityChanged := store.repositories[repo].backendId != backendId;
        before := store.Db();
        if identityChanged {
          before, repo := RebindLater(repo, claim);
        }
      }
      settled := store.Db();
      OtherTransactions(Some(claim));
    }

    /** While the key was found held by another identity nothing is claimed: any transaction may come before the rebind. */
    method RebindLater(previous: Id, claim: Claim) returns (ghost before: Tables, repo: Id)
      requires Consistent(store.Db()) && OneBackend(store.Db())
      modifies store
      ensures Holds(store.Db(), Some(claim))
      ensures exists loc :: Rebound(before, store.Db(), previous, repo, loc, claim.key, claim.key, Repository("restic", claim.backendId))
    {
      OtherTransactions(None);
      before := store.Db();
      var loc;
      repo, loc := store.RebindLocationIdentity("restic", claim.backendId, claim.key, claim.key, previous);
      ReboundIsSettled(before, store.Db(), previous, repo, loc, claim.key, claim.key, Repository("restic", claim.backendId));
    }

    /** Which locations a retention must not touch: this one, and if one is due, all that the active configuration names. */
    method ProtectedKeys(repo: Id, key: string, configured: Option<set<string>>, at: int) returns (keys: Option<set<string>>)
      ensures keys == if Due(store.retentionDates, repo, at) then configured else Some({key})
    {
      keys := Some({key});
      var due := store.IsRetentionDue(repo, at);
      if due {
        keys := configured;
      }
    }

    /** Which snapshots are persisted, and whether they are the whole truth about the location. */
    method Observe(context: Option<Trigger>, identityChanged: bool, first: Answer, complete: Answer) returns (observed: seq<Snapshot>, full: bool)
      modifies this`asked
      ensures full == Reconciles(context, identityChanged, first, complete)
      ensures observed == ObservedSnapshots(TriggerOf(context), identityChanged, first, complete)
      ensures asked == old(asked) + MoreQueries(TriggerOf(context), identityChanged, complete)
    {
      var trigger := if context.Some? then context.value else Refresh;
      var snapshots, queryOk := [], trigger.CleanupRun?;
      if !trigger.CleanupRun? {
        snapshots, queryOk := first.snapshots, first.ok;
      }
      if identityChanged && trigger.BackupRun? {
        AskSnapshots(None, complete);
        snapshots, queryOk := complete.snapshots, complete.ok;
      }
      full := if context.None? then queryOk else (trigger.RetentionRun? || identityChanged) && queryOk;
      observed := if queryOk then snapshots else [];
    }

    /** The second half, once it is clear that there is something to store. */
    method ResolveAndPersist(context: Option<Trigger>, backendId: string, key: string, stats: Option<int>, first: Answer, complete: Answer,
                             configured: Option<set<string>>, at: int, step: Option<Id>)
      returns (r: Collected, ghost c: Course)
      requires Consistent(store.Db()) && OneBackend(store.Db())
      modifies store, this`asked
      ensures Consistent(store.Db()) && OneBackend(store.Db())
      ensures Runs(c, old(store.Db()), store.Db(), r, context, backendId, key, stats, first, complete, configured, store.retentionDays, store.retentionCount, at, step)
      ensures asked == old(asked) + MoreQueries(TriggerOf(context), HeldByOther(old(store.Db()), key, backendId), complete)
    {
      var identityChanged, found;
      ghost var before, settled;
      identityChanged, found, before, settled := ResolveLocation(backendId, key);
      var observed, full := Observe(context, identityChanged, first, complete);
      ghost var check := Check(store.retentionDates, found);
      var protection := ProtectedKeys(found, key, configured, at);
      OtherTransactions(Some(Claim(key, backendId)));
      r, c := PersistObserved(backendId, key, observed, stats, at, step, full, protection, before, settled, check);
    }

    method PersistObserved(backendId: string, key: string, snapshots: seq<Snapshot>, stats: Option<int>, at: int, step: Option<Id>, full: bool,
                           protection: Option<set<string>>, ghost before: Tables, ghost settled: Tables, ghost check: Check)
      returns (r: Collected, ghost c: Course)
      requires Holds(store.Db(), Some(Claim(key, backendId)))
      modifies store
      ensures Consistent(store.Db()) && OneBackend(store.Db())
      ensures r.Stored? && r == Stored(r.loc, SnapshotIds(snapshots), full)
      ensures c == Course(before, settled, check, old(store.Db()), c.observed, old(store.retentionDates), c.repo, protection, c.ran)
      ensures Consistent(c.observed) && LocationOf(c.observed, r.loc, c.repo) && c.observed.locs[r.loc].key == key
      ensures ObservationPersisted(c.resolved, c.observed, c.repo, r.loc, r.ids, stats, at, step, full)
      ensures Dated(c.resolved.arts, c.observed.arts, snapshots)
      ensures c.ran <==> protection.Some? && store.Enabled() && Due(c.dates, c.repo, at)
      ensures store.Db() ==
              if c.ran then Retained(c.observed, c.repo, protection.value, Cutoff(store.retentionDays, at), store.retentionCount) else c.observed
    {
      ghost var resolved, dates := store.Db(), store.retentionDates;
      var repo, loc, ran;
      ghost var observed;
      repo, loc, ran, observed := store.PersistRun("restic", backendId, key, key, snapshots, stats, at, step, full, protection);
      RecordingKeepsClaim(resolved, observed, Some(Claim(key, backendId)), repo, loc, Claim(key, backendId));
      if ran {
        RetentionOnlyDrops(observed, repo, protection.value, Cutoff(store.retentionDays, at), store.retentionCount);
      }
      r := Stored(loc, SnapshotIds(snapshots), full);
      c := Course(before, settled, check, resolved, observed, dates, repo, protection, ran);
    }

    /** The first queries, and whether there is anything to store. */
    method AskFirst(context: Option<Trigger>, statsResult: Option<int>, first: Answer) returns (stats: Option<int>, worthwhile: bool)
      modifies this`asked
      ensures asked == old(asked) + FirstQueries(TriggerOf(context), first)
      ensures stats == StatsKept(TriggerOf(context), statsResult) && worthwhile == Worthwhile(TriggerOf(context), statsResult, first)
    {
      var trigger := if context.Some? then context.value else Refresh;
      stats := if trigger.RetentionRun? then None else statsResult;
      var snapshots, queryOk := [], trigger.CleanupRun?;
      if !trigger.CleanupRun? {
        AskSnapshots(if trigger.BackupRun? then Some(1) else None, first);
        snapshots, queryOk := first.snapshots, first.ok;
      }
      if trigger.RetentionRun? && !queryOk {
        return stats, false;
      }
      if stats.None? && snapshots == [] && !(trigger.BackupRun? && queryOk) {
        return stats, false;
      }
      worthwhile := true;
    }

    /**
     `_collect`: decide what to query, resolve the location, and persist. `first` answers the first snapshots query and
     `complete` the repeated one; `configured` are the location keys of the active configuration, none if it cannot be read.
     */
    method Collect(context: Option<Trigger>, backendId: Option<string>, key: Option<string>, statsResult: Option<int>, first: Answer, complete: Answer,
                   configured: Option<set<string>>, at: int, step: Option<Id>)
      returns (r: Collected, ghost c: Course)
      requires Consistent(store.Db()) && OneBackend(store.Db())
      modifies store, this`asked
      ensures Consistent(store.Db()) && OneBackend(store.Db())
      ensures r.Stored? <==> backendId.Some? && key.Some? && Worthwhile(TriggerOf(context), statsResult, first)
      ensures r.Skipped? ==> store.Db() == old(store.Db()) && store.retentionDates == old(store.retentionDates)
      ensures r.Skipped? ==> asked == old(asked) + if backendId.Some? then FirstQueries(TriggerOf(context), first) else []
      ensures r.Stored? ==>
                var changed := HeldByOther(old(store.Db()), key.value, backendId.value);
                && asked == old(asked) + (FirstQueries(TriggerOf(context), first) + MoreQueries(TriggerOf(context), changed, complete))
                && Runs(c, old(store.Db()), store.Db(), r, context, backendId.value, key.value, StatsKept(TriggerOf(context), statsResult),
                        first, complete, configured, store.retentionDays, store.retentionCount, at, step)
    {
      c := Course(store.Db(), store.Db(), Check(store.retentionDates, 0), store.Db(), store.Db(), store.retentionDates, 0, None, false);
      if backendId.None? {
        return Skipped, c;
      }
      var stats, worthwhile := AskFirst(context, statsResult, first);
      if !worthwhile || key.None? {
        return Skipped, c;
      }
      ghost var trigger, changed := TriggerOf(context), HeldByOther(store.Db(), key.value, backendId.value);
      Associative(old(asked), FirstQueries(trigger, first), MoreQueries(trigger, changed, complete));
      r, c := ResolveAndPersist(context, backendId.value, key.value, stats, first, complete, configured, at, step);
    }
  }

  // ----- what a collection does -----

  /** What the collector goes by when it looks whether a retention is due. */
  datatype Check = Check(dates: map<Id, int>, repo: Id)

  /**
   The course of a collection: the states before and after resolving, the look at the retention dates, the states before and
   after the observation was persisted, the dates at that time, the repository, the protected keys, and whether retention ran.
   */
  datatype Course = Course(
    before: Tables, settled: Tables, check: Check, resolved: Tables, observed: Tables, dates: map<Id, int>, repo: Id,
    protection: Option<set<string>>, ran: bool)

  /**
   What resolving does, as the read in `t` tells: a held key is rebound, whoever holds it in the transaction's state `before`;
   a known location stays as it is without a transaction; and a free key gets its location.
   */
  ghost predicate Resolved(t: Tables, before: Tables, settled: Tables, key: string, backendId: string)
    requires ForeignKeys(t)
  {
    var identity := Repository("restic", backendId);
    if HeldByOther(t, key, backendId) then
      exists x, repo, loc :: x in t.locs && t.locs[x].key == key && Rebound(before, settled, t.locs[x].repo, repo, loc, key, key, identity)
    else if exists l :: l in t.locs && t.locs[l].key == key then
      settled == t
    else
      exists repo, loc :: LocationRecorded(before, settled, repo, loc, key, key, identity)
  }

  /** A collection that stores something, from the state `t` to the state `t'`. */
  ghost predicate Runs(
      c: Course, t: Tables, t': Tables, r: Collected, context: Option<Trigger>, backendId: string, key: string, stats: Option<int>,
      first: Answer, complete: Answer, configured: Option<set<string>>, days: Option<nat>, count: Option<nat>, at: int, step: Option<Id>)
    requires ForeignKeys(t)
  {
    && Resolved(t, c.before, c.settled, key, backendId)
    && Collects(c, r, context, HeldByOther(t, key, backendId), backendId, key, stats, first, complete, at, step)
    && Retains(c, t', key, configured, days, count, at)
  }

  /** The observation persisted, as the trigger and the answers tell. */
  ghost predicate Collects(c: Course, r: Collected, context: Option<Trigger>, changed: bool, backendId: string, key: string,
                           stats: Option<int>, first: Answer, complete: Answer, at: int, step: Option<Id>) {
    && Holds(c.resolved, Some(Claim(key, backendId))) && Consistent(c.observed)
    && r.Stored? && LocationOf(c.observed, r.loc, c.repo) && c.observed.locs[r.loc].key == key
    && r.full == Reconciles(context, changed, first, complete)
    && r.ids == ObservedIds(TriggerOf(context), changed, first, complete)
    && ObservationPersisted(c.resolved, c.observed, c.repo, r.loc, r.ids, stats, at, step, r.full)
    && Dated(c.resolved.arts, c.observed.arts, ObservedSnapshots(TriggerOf(context), changed, first, complete))
  }

  /** The retention of the same transaction: whether it ran, with which protected keys, and what it left. */
  ghost predicate Retains(c: Course, t': Tables, key: string, configured: Option<set<string>>, days: Option<nat>, count: Option<nat>, at: int) {
    && c.protection == (if Due(c.check.dates, c.check.repo, at) then configured else Some({key}))
    && (c.ran <==> c.protection.Some? && (days.Some? || count.Some?) && Due(c.dates, c.repo, at))
    && t' == if c.ran then Retained(c.observed, c.repo, c.protection.value, Cutoff(days, at), count) else c.observed
  }

  /** Unless retention ran, or it protects the location or counts it among the newest, the observed location is kept. */
  lemma ObservedLocationStaysIff(c: Course, t': Tables, loc: Id, key: string, configured: Option<set<string>>, days: Option<nat>, count: Option<nat>, at: int)
    requires Consistent(c.observed) && loc in c.observed.locs && Retains(c, t', key, configured, days, count, at)
    ensures loc in t'.locs <==> !c.ran || StaysLocation(c.observed, loc, c.repo, c.protection.value)
  {
    if c.ran {
      RetentionKeepsLive(c.observed, c.repo, c.protection.value, Cutoff(days, at), count);
    }
  }

  /** So it is kept whenever the active configuration names its key, or cannot be read. */
  lemma ConfiguredLocationStays(c: Course, t': Tables, loc: Id, key: string, configured: Option<set<string>>, days: Option<nat>, count: Option<nat>, at: int)
    requires Consistent(c.observed) && LocationOf(c.observed, loc, c.repo) && c.observed.locs[loc].key == key
    requires Retains(c, t', key, configured, days, count, at) && (configured.Some? ==> key in configured.value)
    ensures loc in t'.locs && t'.locs[loc] == c.observed.locs[loc]
  {
    ObservedLocationStaysIff(c, t', loc, key, configured, days, count, at);
    if c.ran {
      RetentionKeepsLive(c.observed, c.repo, c.protection.value, Cutoff(days, at), count);
    }
  }

  /** The retention of the transaction takes nothing from a location that is kept: neither presence, nor artifacts, nor points. */
  lemma KeptLocationsKeepAll(c: Course, t': Tables, key: string, configured: Option<set<string>>, days: Option<nat>, count: Option<nat>, at: int)
    requires Consistent(c.observed) && Retains(c, t', key, configured, days, count, at)
    ensures forall a, l :: l in t'.locs ==> (PresentAt(t', a, l) <==> PresentAt(c.observed, a, l))
    ensures forall a, l :: l in t'.locs && PresentAt(c.observed, a, l) ==> a in t'.arts && t'.arts[a] == c.observed.arts[a]
    ensures forall p :: p in c.observed.points && c.observed.points[p].location in t'.locs ==> p in t'.points && t'.points[p] == c.observed.points[p]
  {
    if c.ran {
      RetentionKeepsLive(c.observed, c.repo, c.protection.value, Cutoff(days, at), count);
    }
    forall a, l | l in t'.locs && PresentAt(c.observed, a, l)
      ensures a in t'.arts && t'.arts[a] == c.observed.arts[a]
    {
      var o :| o in c.observed.obs && c.observed.obs[o].artifact == a && c.observed.obs[o].location == l && c.observed.obs[o].present;
      assert a in c.observed.arts;
      assert c.ran ==> StaysLocation(c.observed, l, c.repo, c.protection.value);
    }
  }

  /**
   A collection as a whole, retention included: if the observed location is kept, the listed snapshots are present there, with
   a full reconcile no others, and presence at every other kept location is what it was when the transaction began.
   */
  lemma CollectionIsExact(
      c: Course, t': Tables, r: Collected, context: Option<Trigger>, changed: bool, backendId: string, key: string, stats: Option<int>,
      first: Answer, complete: Answer, configured: Option<set<string>>, days: Option<nat>, count: Option<nat>, at: int, step: Option<Id>, a: Id, l: Id)
    requires Collects(c, r, context, changed, backendId, key, stats, first, complete, at, step)
    requires Retains(c, t', key, configured, days, count, at) && l in t'.locs
    ensures l == r.loc ==> (PresentAt(t', a, l) <==> Listed(c.observed.arts, a, c.repo, r.ids) || (!r.full && PresentAt(c.resolved, a, l)))
    ensures l != r.loc ==> (PresentAt(t', a, l) <==> PresentAt(c.resolved, a, l))
  {
    KeptLocationsKeepAll(c, t', key, configured, days, count, at);
    ObservationIsExact(c.resolved, c.observed, c.repo, r.loc, r.ids, stats, at, step, r.full);
  }

  /**
   An artifact that was present at the observed location and is not any more is missing from the answer to a query for all
   snapshots that this collection asked, unless a cleanup met a changed identity.
   */
  lemma OnlyWhatIsGoneIsRemoved(
      c: Course, t': Tables, r: Collected, context: Option<Trigger>, changed: bool, backendId: string, key: string, stats: Option<int>,
      first: Answer, complete: Answer, configured: Option<set<string>>, days: Option<nat>, count: Option<nat>, at: int, step: Option<Id>, a: Id)
    requires Collects(c, r, context, changed, backendId, key, stats, first, complete, at, step)
    requires Retains(c, t', key, configured, days, count, at)
    requires r.loc in t'.locs && PresentAt(c.resolved, a, r.loc) && !PresentAt(t', a, r.loc)
    ensures a in c.observed.arts
    ensures (TriggerOf(context).CleanupRun? && changed) ||
            AnsweredWithout(FirstQueries(TriggerOf(context), first) + MoreQueries(TriggerOf(context), changed, complete), c.observed.arts[a].backendId)
  {
    CollectionIsExact(c, t', r, context, changed, backendId, key, stats, first, complete, configured, days, count, at, step, a, r.loc);
    ReconcileNeedsCompleteListingIff(context, changed, first, complete);
    ArtifactOfPresence(c.resolved, c.observed, r.loc, c.repo, r.ids, stats, at, step, r.full, a);
  }

  /** Everything a collection that stores something asks. */
  function Asked(context: Option<Trigger>, changed: bool, first: Answer, complete: Answer): seq<Query> {
    FirstQueries(TriggerOf(context), first) + MoreQueries(TriggerOf(context), changed, complete)
  }

  lemma CleanupRemovesAll(
      c: Course, t': Tables, r: Collected, context: Option<Trigger>, backendId: string, key: string, stats: Option<int>,
      first: Answer, complete: Answer, configured: Option<set<string>>, days: Option<nat>, count: Option<nat>, at: int, step: Option<Id>, a: Id)
    requires Collects(c, r, context, true, backendId, key, stats, first, complete, at, step) && TriggerOf(context).CleanupRun?
    requires Retains(c, t', key, configured, days, count, at) && r.loc in t'.locs
    ensures !PresentAt(t', a, r.loc) && Asked(context, true, first, complete) == []
  {
    CollectionIsExact(c, t', r, context, true, backendId, key, stats, first, complete, configured, days, count, at, step, a, r.loc);
    assert r.full && r.ids == {};
  }

  /**
   Of the artifacts present at the observed location when the transaction began, one is taken for removed although no query of
   this collection answered without it exactly if a cleanup met a changed identity. (Right after the rebind nothing is present
   there; only another transaction, such as a merge into the location, can have brought it.)
   */
  lemma UnjustifiedRemovalIff(
      c: Course, t': Tables, r: Collected, context: Option<Trigger>, changed: bool, backendId: string, key: string, stats: Option<int>,
      first: Answer, complete: Answer, configured: Option<set<string>>, days: Option<nat>, count: Option<nat>, at: int, step: Option<Id>, a: Id)
    requires Collects(c, r, context, changed, backendId, key, stats, first, complete, at, step)
    requires Retains(c, t', key, configured, days, count, at)
    requires r.loc in t'.locs && PresentAt(c.resolved, a, r.loc)
    ensures a in c.observed.arts
    ensures !PresentAt(t', a, r.loc) && !AnsweredWithout(Asked(context, changed, first, complete), c.observed.arts[a].backendId) <==>
              TriggerOf(context).CleanupRun? && changed
  {
    ArtifactOfPresence(c.resolved, c.observed, r.loc, c.repo, r.ids, stats, at, step, r.full, a);
    if !PresentAt(t', a, r.loc) {
      OnlyWhatIsGoneIsRemoved(c, t', r, context, changed, backendId, key, stats, first, complete, configured, days, count, at, step, a);
    }
    if TriggerOf(context).CleanupRun? && changed {
      CleanupRemovesAll(c, t', r, context, backendId, key, stats, first, complete, configured, days, count, at, step, a);
    }
  }

  /** Some query for all snapshots succeeded, and did not list the snapshot. */
  predicate AnsweredWithout(asked: seq<Query>, backendId: string) {
    exists q :: q in asked && q.latest.None? && q.answer.ok && backendId !in SnapshotIds(q.answer.snapshots)
  }

  lemma ArtifactOfPresence(t: Tables, t': Tables, loc: Id, repo: Id, ids: set<string>, stats: Option<int>, at: int, step: Option<Id>, full: bool, a: Id)
    requires Consistent(t) && Consistent(t') && LocationOf(t', loc, repo) && PresentAt(t, a, loc)
    requires ObservationPersisted(t, t', repo, loc, ids, stats, at, step, full)
    ensures a in t'.arts && t'.arts[a].repo == repo
  {
    ObservationIsExact(t, t', repo, loc, ids, stats, at, step, full);
    var o :| o in t.obs && t.obs[o].artifact == a && t.obs[o].location == loc && t.obs[o].present;
    assert a in t.arts && a in t'.arts;
    RowStays(t, t', repo, loc, ids, stats, at, step, full, o);
  }

  // ----- what a caller can rely on, by trigger -----

  /** The snapshot of the artifact is one of the answer's. */
  predicate AnswerLists(answer: Answer, arts: map<Id, Artifact>, a: Id, repo: Id) {
    a in arts && arts[a].repo == repo && exists s :: s in answer.snapshots && s.backendId == Some(arts[a].backendId)
  }

  /** At the location an artifact is present exactly if the answer lists its snapshot. */
  ghost predicate Mirrors(c: Course, t': Tables, loc: Id, answer: Answer) {
    forall a :: PresentAt(t', a, loc) <==> AnswerLists(answer, c.observed.arts, a, c.repo)
  }

  /** At the location everything present stays, and what the answer lists is added. */
  ghost predicate AddsTo(c: Course, t': Tables, loc: Id, answer: Answer) {
    forall a :: PresentAt(t', a, loc) <==> PresentAt(c.resolved, a, loc) || AnswerLists(answer, c.observed.arts, a, c.repo)
  }

  ghost predicate LeavesAlone(c: Course, t': Tables, loc: Id) {
    forall a :: PresentAt(t', a, loc) <==> PresentAt(c.resolved, a, loc)
  }

  lemma ListedIsAnswered(answer: Answer, arts: map<Id, Artifact>, a: Id, repo: Id)
    ensures Listed(arts, a, repo, SnapshotIds(answer.snapshots)) <==> AnswerLists(answer, arts, a, repo)
  {
    if Listed(arts, a, repo, SnapshotIds(answer.snapshots)) {
      var s :| s in answer.snapshots && s.backendId.Some? && s.backendId.value == arts[a].backendId;
      assert s.backendId == Some(arts[a].backendId);
    }
    if AnswerLists(answer, arts, a, repo) {
      var s :| s in answer.snapshots && s.backendId == Some(arts[a].backendId);
      assert s.backendId.value in SnapshotIds(answer.snapshots);
    }
  }

  /** Presence at the observed location from what was recorded, one artifact at a time. */
  lemma PresenceIsRecorded(
      c: Course, t': Tables, r: Collected, context: Option<Trigger>, changed: bool, backendId: string, key: string, stats: Option<int>,
      first: Answer, complete: Answer, configured: Option<set<string>>, days: Option<nat>, count: Option<nat>, at: int, step: Option<Id>)
    requires Collects(c, r, context, changed, backendId, key, stats, first, complete, at, step)
    requires Retains(c, t', key, configured, days, count, at) && r.loc in t'.locs
    ensures forall a :: PresentAt(t', a, r.loc) <==> Listed(c.observed.arts, a, c.repo, r.ids) || (!r.full && PresentAt(c.resolved, a, r.loc))
  {
    forall a
      ensures PresentAt(t', a, r.loc) <==> Listed(c.observed.arts, a, c.repo, r.ids) || (!r.full && PresentAt(c.resolved, a, r.loc))
    {
      CollectionIsExact(c, t', r, context, changed, backendId, key, stats, first, complete, configured, days, count, at, step, a, r.loc);
    }
  }

  lemma RecordedMirrors(c: Course, t': Tables, r: Collected, answer: Answer)
    requires r.Stored? && r.ids == SnapshotIds(answer.snapshots)
    requires forall a :: PresentAt(t', a, r.loc) <==> Listed(c.observed.arts, a, c.repo, r.ids)
    ensures Mirrors(c, t', r.loc, answer)
  {
    forall a
      ensures PresentAt(t', a, r.loc) <==> AnswerLists(answer, c.observed.arts, a, c.repo)
    {
      ListedIsAnswered(answer, c.observed.arts, a, c.repo);
    }
  }

  lemma RecordedAdds(c: Course, t': Tables, r: Collected, answer: Answer)
    requires r.Stored? && r.ids == SnapshotIds(answer.snapshots)
    requires forall a :: PresentAt(t', a, r.loc) <==> Listed(c.observed.arts, a, c.repo, r.ids) || PresentAt(c.resolved, a, r.loc)
    ensures AddsTo(c, t', r.loc, answer)
  {
    forall a
      ensures PresentAt(t', a, r.loc) <==> PresentAt(c.resolved, a, r.loc) || AnswerLists(answer, c.observed.arts, a, c.repo)
    {
      ListedIsAnswered(answer, c.observed.arts, a, c.repo);
    }
  }

  /**
   What is present at the observed location after a collection that stores something, if the location is kept:
   after a retention run, or a refresh on its own, whose query succeeded, exactly what that answer lists;
   after a backup that met a changed identity and whose second query succeeded, exactly what the second answer lists;
   after a backup with its identity unchanged, whatever was present, and the newest snapshot besides;
   after a query that failed, whatever was present before; after a cleanup the same, or nothing under a changed identity.
   */
  lemma PresenceByTrigger(
      c: Course, t: Tables, t': Tables, r: Collected, context: Option<Trigger>, backendId: string, key: string, stats: Option<int>,
      first: Answer, complete: Answer, configured: Option<set<string>>, days: Option<nat>, count: Option<nat>, at: int, step: Option<Id>)
    requires ForeignKeys(t)
    requires Runs(c, t, t', r, context, backendId, key, stats, first, complete, configured, days, count, at, step) && r.loc in t'.locs
    ensures PresenceFits(c, t', r.loc, context, HeldByOther(t, key, backendId), first, complete)
  {
    var changed := HeldByOther(t, key, backendId);
    PresenceOfAnswer(c, t', r, context, changed, backendId, key, stats, first, complete, configured, days, count, at, step);
    FitsAnswer(c, t', r.loc, context, changed, first, complete);
  }

  /** Whose answer the location shows afterwards, spelt out for each trigger. */
  ghost predicate PresenceFits(c: Course, t': Tables, loc: Id, context: Option<Trigger>, changed: bool, first: Answer, complete: Answer) {
    match context
    case Some(RetentionRun) => if first.ok then Mirrors(c, t', loc, first) else LeavesAlone(c, t', loc)
    case None => if first.ok then Mirrors(c, t', loc, first) else LeavesAlone(c, t', loc)
    case Some(BackupRun) =>
      if changed then (if complete.ok then Mirrors(c, t', loc, complete) else LeavesAlone(c, t', loc))
      else if first.ok then AddsTo(c, t', loc, first) else LeavesAlone(c, t', loc)
    case Some(Refresh) =>
      if !first.ok then LeavesAlone(c, t', loc)
      else if changed then Mirrors(c, t', loc, first) else AddsTo(c, t', loc, first)
    case Some(CleanupRun) => if changed then Mirrors(c, t', loc, Answer(true, [])) else LeavesAlone(c, t', loc)
  }

  lemma FitsAnswer(c: Course, t': Tables, loc: Id, context: Option<Trigger>, changed: bool, first: Answer, complete: Answer)
    requires var answer := Answer(true, ObservedSnapshots(TriggerOf(context), changed, first, complete));
             if Reconciles(context, changed, first, complete) then Mirrors(c, t', loc, answer) else AddsTo(c, t', loc, answer)
    ensures PresenceFits(c, t', loc, context, changed, first, complete)
  { }

  lemma PresenceOfAnswer(
      c: Course, t': Tables, r: Collected, context: Option<Trigger>, changed: bool, backendId: string, key: string, stats: Option<int>,
      first: Answer, complete: Answer, configured: Option<set<string>>, days: Option<nat>, count: Option<nat>, at: int, step: Option<Id>)
    requires Collects(c, r, context, changed, backendId, key, stats, first, complete, at, step)
    requires Retains(c, t', key, configured, days, count, at) && r.loc in t'.locs
    ensures var answer := Answer(true, ObservedSnapshots(TriggerOf(context), changed, first, complete));
            if Reconciles(context, changed, first, complete) then Mirrors(c, t', r.loc, answer) else AddsTo(c, t', r.loc, answer)
  {
    var answer := Answer(true, ObservedSnapshots(TriggerOf(context), changed, first, complete));
    PresenceIsRecorded(c, t', r, context, changed, backendId, key, stats, first, complete, configured, days, count, at, step);
    if r.full {
      RecordedMirrors(c, t', r, answer);
    } else {
      RecordedAdds(c, t', r, answer);
    }
  }

  /** A statistics point of the location, or none. */
  ghost predicate AddsPoint(c: Course, loc: Id, at: int, size: Option<int>) {
    if size.None? then c.observed.points == c.resolved.points
    else exists p: Id :: p !in c.resolved.points && c.observed.points == c.resolved.points[p := StatsPoint(c.repo, loc, at, size)]
  }

  /** Every collection that has statistics adds one point for them, except that a retention run adds none. */
  lemma PointByTrigger(
      c: Course, t: Tables, t': Tables, r: Collected, context: Option<Trigger>, backendId: string, key: string, stats: Option<int>,
      first: Answer, complete: Answer, configured: Option<set<string>>, days: Option<nat>, count: Option<nat>, at: int, step: Option<Id>)
    requires ForeignKeys(t)
    requires Runs(c, t, t', r, context, backendId, key, StatsKept(TriggerOf(context), stats), first, complete, configured, days, count, at, step)
    ensures AddsPoint(c, r.loc, at, if context == Some(RetentionRun) then None else stats)
  {
    var kept := StatsKept(TriggerOf(context), stats);
    var t0, t1, t2, seen :| PersistedVia(c.resolved, t0, t1, t2, c.observed, c.repo, r.loc, r.ids, seen, kept, at, step, r.full);
  }

  /**
   When there is something to store: statistics, but for a retention run; the successful listing of a backup, even an empty
   one; and any listed snapshot, but that a retention run needs its query to have succeeded.
   */
  lemma WorthwhileIff(context: Option<Trigger>, stats: Option<int>, first: Answer)
    ensures Worthwhile(TriggerOf(context), stats, first) <==>
              || (stats.Some? && context != Some(RetentionRun))
              || (first.ok && context == Some(BackupRun))
              || (first.snapshots != [] && context != Some(CleanupRun) && (first.ok || context != Some(RetentionRun)))
  { }

  /**
   As long as no other transaction comes between the look at the dates and the persisting one, a retention prunes no location
   that the active configuration names.
   */
  lemma ConfiguredLocationsStay(
      c: Course, t': Tables, key: string, configured: Option<set<string>>, days: Option<nat>, count: Option<nat>, at: int, l: Id)
    requires Consistent(c.observed) && Retains(c, t', key, configured, days, count, at)
    requires c.check == Check(c.dates, c.repo) && configured.Some?
    requires l in c.observed.locs && c.observed.locs[l].key in configured.value
    ensures l in t'.locs
  {
    ObservedLocationStaysIff(c, t', l, key, configured, days, count, at);
  }
}
