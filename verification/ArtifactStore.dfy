/** The store operations over the five tables, each one transaction, and the collector that drives them. */
module ArtifactStore {
  import opened Wrappers
  import opened ArtifactTables
  import opened ArtifactMerge
  import Ranking

  /** One snapshot of a backend listing; snapshots without a backend id are skipped. */
  datatype Snapshot = Snapshot(backendId: Option<string>, createdAt: int)

  datatype Resolution = KnownLocation(repo: Id, loc: Id) | IdentityChanged(repo: Id, loc: Id, previous: Id) | NewLocation(repo: Id, loc: Id)

  function SnapshotIds(snapshots: seq<Snapshot>): set<string> {
    set s | s in snapshots && s.backendId.Some? :: s.backendId.value
  }

  // ----- upsert_location -----

  predicate HasRows(t: Tables, l: Id) {
    || (exists o :: o in t.obs && t.obs[o].location == l)
    || (exists p :: p in t.points && t.points[p].location == l)
  }

  /** `l` is the row that an upsert of `key` writes: the row that holds the key, or a fresh row. */
  ghost predicate UpsertTarget(t: Tables, key: string, l: Id) {
    if l in t.locs then t.locs[l].key == key
    else !HasRows(t, l) && forall l' :: l' in t.locs ==> t.locs[l'].key != key
  }

  function UpsertedLocation(t: Tables, l: Id, row: Location): Tables {
    t.(locs := t.locs[l := row])
  }

  /** A plain upsert keeps the invariant exactly when it does not re-point a location that still has rows. */
  lemma UpsertLocationConsistentIff(t: Tables, l: Id, row: Location)
    requires Consistent(t) && row.repo in t.repos && UpsertTarget(t, row.key, l)
    ensures Consistent(UpsertedLocation(t, l, row)) <==> (HasRows(t, l) ==> t.locs[l].repo == row.repo)
  {
    if HasRows(t, l) && t.locs[l].repo != row.repo {
      RepointingBreaksJoins(t, l, row);
    } else {
      UpsertLocationConsistent(t, l, row);
    }
  }

  lemma UpsertLocationConsistent(t: Tables, l: Id, row: Location)
    requires Consistent(t) && row.repo in t.repos && UpsertTarget(t, row.key, l)
    requires HasRows(t, l) ==> t.locs[l].repo == row.repo
    ensures Consistent(UpsertedLocation(t, l, row))
  {
    var t' := UpsertedLocation(t, l, row);
    assert UniqueLocations(t'.locs);
    assert ForeignKeys(t');
    JoinsAfterUpsert(t, l, row);
  }

  lemma JoinsAfterUpsert(t: Tables, l: Id, row: Location)
    requires ForeignKeys(t) && SameRepository(t) && row.repo in t.repos
    requires HasRows(t, l) ==> t.locs[l].repo == row.repo
    ensures ForeignKeys(UpsertedLocation(t, l, row)) && SameRepository(UpsertedLocation(t, l, row))
  { }

  lemma RepointingBreaksJoins(t: Tables, l: Id, row: Location)
    requires ForeignKeys(t) && SameRepository(t) && l in t.locs && HasRows(t, l) && t.locs[l].repo != row.repo
    ensures !Consistent(UpsertedLocation(t, l, row))
  {
    var t' := UpsertedLocation(t, l, row);
    if o :| o in t.obs && t.obs[o].location == l {
      assert t'.arts[t'.obs[o].artifact].repo != t'.locs[t'.obs[o].location].repo;
    } else {
      var p :| p in t.points && t.points[p].location == l;
      assert t'.points[p].repo != t'.locs[t'.points[p].location].repo;
    }
  }

  /** A location whose snapshot belongs to repository 0 is pointed at repository 1. */
  lemma RepointedLocationBreaks()
    ensures var t := Tables(map[0 := Repository("restic", "a"), 1 := Repository("restic", "b")], map[0 := Location(0, "k", "k")],
                            map[0 := Artifact(0, "s", 0)], map[0 := Observation(0, 0, true, None, None)], map[]);
            Consistent(t) && UpsertTarget(t, "k", 0) && !Consistent(UpsertedLocation(t, 0, Location(1, "k", "k")))
  {
    var t := Tables(map[0 := Repository("restic", "a"), 1 := Repository("restic", "b")], map[0 := Location(0, "k", "k")],
                    map[0 := Artifact(0, "s", 0)], map[0 := Observation(0, 0, true, None, None)], map[]);
    assert t.repos[0].backendId[0] != t.repos[1].backendId[0];
    assert t.obs[0].location == 0;
    UpsertLocationConsistentIff(t, 0, Location(1, "k", "k"));
  }

  /** The key is free, or already belongs to the repository (backend, backendId). */
  predicate KeyBelongsTo(t: Tables, key: string, backend: string, backendId: string)
    requires ForeignKeys(t)
  {
    forall l :: l in t.locs && t.locs[l].key == key ==> t.repos[t.locs[l].repo] == Repository(backend, backendId)
  }

  /** A location holds the key for a repository with another backend id. */
  ghost predicate HeldByOther(t: Tables, key: string, backendId: string)
    requires ForeignKeys(t)
  {
    exists l :: l in t.locs && t.locs[l].key == key && t.repos[t.locs[l].repo].backendId != backendId
  }

  /** The repository (backend, backendId) is found or made, and the row of the key is found or made and points to it. */
  ghost predicate LocationRecorded(t: Tables, t': Tables, repo: Id, loc: Id, key: string, display: string, identity: Repository) {
    && t' == t.(repos := t.repos[repo := identity], locs := t.locs[loc := Location(repo, key, display)])
    && (repo in t.repos ==> t.repos[repo] == identity)
    && (if loc in t.locs then t.locs[loc].key == key && t.locs[loc].repo == repo
        else forall l :: l in t.locs ==> t.locs[l].key != key)
  }

  function Holders(t: Tables, key: string): set<Id> {
    set l | l in t.locs && t.locs[l].key == key
  }

  /**
   Whatever location holds the key is dropped like a deleted one, the repository found before is tidied up, and a new row takes
   the key. By now another location may hold the key, or none.
   */
  ghost predicate Rebound(t: Tables, t': Tables, previous: Id, repo: Id, loc: Id, key: string, display: string, identity: Repository) {
    LocationRecorded(DropLocations(t, previous, Holders(t, key)), t', repo, loc, key, display, identity)
  }

  lemma OneHolder(t: Tables, x: Id)
    requires UniqueLocations(t.locs) && x in t.locs
    ensures Holders(t, t.locs[x].key) == {x}
  { }

  /**
   A rebind of the location found before keeps live data: an artifact of the previous repository survives iff it is present at
   another location, and the previous repository survives iff it has another location.
   */
  lemma RebindKeepsLive(t: Tables, t': Tables, x: Id, repo: Id, loc: Id, key: string, display: string, identity: Repository, a: Id)
    requires Consistent(t) && x in t.locs && t.locs[x].key == key
    requires Rebound(t, t', t.locs[x].repo, repo, loc, key, display, identity)
    requires t.repos[t.locs[x].repo].backendId != identity.backendId
    ensures var previous := t.locs[x].repo;
            && (a in t'.arts <==> a in t.arts && (t.arts[a].repo == previous ==> PresentElsewhere(t, a, x)))
            && (a in t'.arts ==> t'.arts[a] == t.arts[a])
            && ((exists r :: r in t'.repos && t'.repos[r] == t.repos[previous]) <==> HasOtherLocation(t, previous, x))
  {
    var previous := t.locs[x].repo;
    OneHolder(t, x);
    DropLocationKeepsLive(t, previous, x, a);
    DropLocationLeavesOthers(t, previous, x);
    if HasOtherLocation(t, previous, x) {
      assert t'.repos[previous] == t.repos[previous];
    }
  }

  /** Even when another location holds the key by now: an artifact present at any other location survives. */
  lemma LateRebindKeepsPresent(t: Tables, t': Tables, previous: Id, repo: Id, loc: Id, key: string, display: string, identity: Repository, a: Id, l: Id)
    requires Consistent(t) && Rebound(t, t', previous, repo, loc, key, display, identity)
    requires PresentAt(t, a, l) && t.locs[l].key != key
    ensures a in t'.arts && t'.arts[a] == t.arts[a]
  {
    DropLocationsKeepsPresent(t, previous, Holders(t, key));
  }

  /** A free key, once recorded, belongs to the identity, at a location without rows. */
  lemma RecordedIsSettled(t: Tables, t': Tables, repo: Id, loc: Id, key: string, display: string, identity: Repository)
    requires ForeignKeys(t) && ForeignKeys(t') && LocationRecorded(t, t', repo, loc, key, display, identity)
    requires forall l :: l in t.locs ==> t.locs[l].key != key
    ensures KeyBelongsTo(t', key, identity.backend, identity.backendId) && LocationOf(t', loc, repo) && t'.locs[loc].key == key
    ensures forall r :: r in t'.repos ==> t'.repos[r] == identity || (r in t.repos && t'.repos[r] == t.repos[r])
    ensures !HasRows(t', loc)
  { }

  lemma DroppedKeyIsFree(t: Tables, previous: Id, key: string) returns (dropped: Tables)
    requires Consistent(t)
    ensures dropped == DropLocations(t, previous, Holders(t, key)) && Consistent(dropped)
    ensures forall l :: l in dropped.locs ==> l in t.locs && dropped.locs[l] == t.locs[l] && t.locs[l].key != key
    ensures forall r :: r in dropped.repos ==> r in t.repos && dropped.repos[r] == t.repos[r]
  {
    DropLocationsConsistent(t, previous, Holders(t, key));
    DropLocationsKeepsPresent(t, previous, Holders(t, key));
    dropped := DropLocations(t, previous, Holders(t, key));
  }

  /** After a rebind the key belongs to the new identity, at a location without rows. */
  lemma ReboundIsSettled(t: Tables, t': Tables, previous: Id, repo: Id, loc: Id, key: string, display: string, identity: Repository)
    requires Consistent(t) && ForeignKeys(t') && Rebound(t, t', previous, repo, loc, key, display, identity)
    ensures KeyBelongsTo(t', key, identity.backend, identity.backendId) && LocationOf(t', loc, repo) && t'.locs[loc].key == key
    ensures forall r :: r in t'.repos ==> t'.repos[r] == identity || (r in t.repos && t'.repos[r] == t.repos[r])
    ensures !HasRows(t', loc)
  {
    var dropped := DroppedKeyIsFree(t, previous, key);
    RecordedIsSettled(dropped, t', repo, loc, key, display, identity);
  }

  /** A location known under another backend name with the same id: nobody else's, and yet not this repository's. */
  lemma OtherBackendIsTrusted()
    ensures var t := Tables(map[0 := Repository("rest", "a")], map[0 := Location(0, "k", "k")], map[], map[], map[]);
            Consistent(t) && !HeldByOther(t, "k", "a") && !KeyBelongsTo(t, "k", "restic", "a")
  {
    var t := Tables(map[0 := Repository("rest", "a")], map[0 := Location(0, "k", "k")], map[], map[], map[]);
    assert t.locs[0].key == "k" && |t.repos[0].backend| == 4 && |"restic"| == 6;
  }

  /** Any transaction that only drops locations and repositories leaves the resolved key settled. */
  lemma DeletesKeepKeySettled(t: Tables, t': Tables, key: string, backend: string, backendId: string)
    requires ForeignKeys(t) && ForeignKeys(t') && KeyBelongsTo(t, key, backend, backendId)
    requires forall l :: l in t'.locs ==> l in t.locs && t'.locs[l] == t.locs[l]
    requires forall r :: r in t'.repos ==> r in t.repos && t'.repos[r] == t.repos[r]
    ensures KeyBelongsTo(t', key, backend, backendId)
  { }

  // ----- one observation of a location -----

  /** An artifact of `repo` with one of the backend ids. */
  predicate Listed(arts: map<Id, Artifact>, a: Id, repo: Id, ids: set<string>) {
    a in arts && arts[a].repo == repo && arts[a].backendId in ids
  }

  function Seen(a: Id, l: Id): Observation {
    Observation(a, l, true, None, None)
  }

  function Refreshed(arts: map<Id, Artifact>, row: Observation, repo: Id, loc: Id, ids: set<string>): Observation {
    if row.location == loc && Listed(arts, row.artifact, repo, ids) then Seen(row.artifact, loc) else row
  }

  /** Old artifacts are untouched, new ones are listed, and every id has its artifact. */
  ghost predicate ArtifactsRecorded(arts: map<Id, Artifact>, arts': map<Id, Artifact>, repo: Id, ids: set<string>) {
    && (forall a :: a in arts ==> a in arts' && arts'[a] == arts[a])
    && (forall a :: a in arts' && a !in arts ==> Listed(arts', a, repo, ids))
    && (forall b :: b in ids ==> exists a :: Listed(arts', a, repo, {b}))
  }

  /** Old rows stay, refreshed where a snapshot was seen; new rows are sightings; every listed artifact has its row. */
  ghost predicate RowsRecorded(obs: map<Id, Observation>, obs': map<Id, Observation>, arts: map<Id, Artifact>, repo: Id, loc: Id, ids: set<string>) {
    && (forall o :: o in obs ==> o in obs' && obs'[o] == Refreshed(arts, obs[o], repo, loc, ids))
    && (forall o :: o in obs' && o !in obs ==> Listed(arts, obs'[o].artifact, repo, ids) && obs'[o] == Seen(obs'[o].artifact, loc))
    && (forall a :: Listed(arts, a, repo, ids) ==> HasRow(obs', a, loc))
  }

  /** `t'` records that exactly the snapshots `ids` were seen at `loc`; nothing else about `t` changed. */
  ghost predicate SnapshotsRecorded(t: Tables, t': Tables, repo: Id, loc: Id, ids: set<string>) {
    && t' == t.(arts := t'.arts, obs := t'.obs)
    && ArtifactsRecorded(t.arts, t'.arts, repo, ids)
    && RowsRecorded(t.obs, t'.obs, t'.arts, repo, loc, ids)
  }

  /** The rows `_mark_missing_artifacts_removed` rewrites. */
  function MarkedMissing(obs: map<Id, Observation>, loc: Id, seen: set<Id>, at: int, step: Option<Id>): map<Id, Observation> {
    map o | o in obs ::
      if obs[o].location == loc && obs[o].present && obs[o].artifact !in seen then
        obs[o].(present := false, removedAt := Some(at), removedBy := step)
      else obs[o]
  }

  lemma RecordedPresence(t: Tables, t': Tables, repo: Id, loc: Id, ids: set<string>, a: Id, l: Id)
    requires SnapshotsRecorded(t, t', repo, loc, ids)
    ensures PresentAt(t', a, l) <==> PresentAt(t, a, l) || (l == loc && Listed(t'.arts, a, repo, ids))
  {
    if PresentAt(t', a, l) {
      var o :| o in t'.obs && t'.obs[o].artifact == a && t'.obs[o].location == l && t'.obs[o].present;
      assert o in t.obs ==> t.obs[o].artifact == a && t.obs[o].location == l;
    }
    if PresentAt(t, a, l) {
      var o :| o in t.obs && t.obs[o].artifact == a && t.obs[o].location == l && t.obs[o].present;
      assert o in t'.obs && t'.obs[o].artifact == a && t'.obs[o].location == l && t'.obs[o].present;
    }
    if l == loc && Listed(t'.arts, a, repo, ids) {
      assert HasRow(t'.obs, a, loc);
      var o :| o in t'.obs && t'.obs[o].artifact == a && t'.obs[o].location == loc;
      assert t'.obs[o] == Seen(a, loc);
    }
  }

  /** A full reconcile leaves exactly the observed snapshots present at the location, and presence elsewhere as it was. */
  lemma FullReconcileIsExact(t: Tables, t1: Tables, t2: Tables, repo: Id, loc: Id, ids: set<string>,
                             seen: set<Id>, at: int, step: Option<Id>, a: Id, l: Id)
    requires SnapshotsRecorded(t, t1, repo, loc, ids)
    requires forall x :: x in seen <==> Listed(t1.arts, x, repo, ids)
    requires t2 == t1.(obs := MarkedMissing(t1.obs, loc, seen, at, step))
    ensures PresentAt(t2, a, loc) <==> Listed(t2.arts, a, repo, ids)
    ensures l != loc ==> (PresentAt(t2, a, l) <==> PresentAt(t, a, l))
  {
    RecordedPresence(t, t1, repo, loc, ids, a, l);
    RecordedPresence(t, t1, repo, loc, ids, a, loc);
    MarkedPresence(t1, t2, loc, seen, at, step, a, l);
    MarkedPresence(t1, t2, loc, seen, at, step, a, loc);
  }

  lemma MarkedPresence(t1: Tables, t2: Tables, loc: Id, seen: set<Id>, at: int, step: Option<Id>, a: Id, l: Id)
    requires t2 == t1.(obs := MarkedMissing(t1.obs, loc, seen, at, step))
    ensures PresentAt(t2, a, l) <==> PresentAt(t1, a, l) && (l == loc ==> a in seen)
  {
    if PresentAt(t2, a, l) {
      var o :| o in t2.obs && t2.obs[o].artifact == a && t2.obs[o].location == l && t2.obs[o].present;
      assert t1.obs[o] == t2.obs[o];
    }
    if PresentAt(t1, a, l) && (l == loc ==> a in seen) {
      var o :| o in t1.obs && t1.obs[o].artifact == a && t1.obs[o].location == l && t1.obs[o].present;
      assert t2.obs[o] == t1.obs[o];
    }
  }

  lemma MarkedMissingConsistent(t: Tables, loc: Id, seen: set<Id>, at: int, step: Option<Id>)
    requires Consistent(t)
    ensures Consistent(t.(obs := MarkedMissing(t.obs, loc, seen, at, step)))
  {
    MarkedMissingKeepsMarks(t.obs, loc, seen, at, step);
    MarkedMissingJoined(t, loc, seen, at, step);
  }

  lemma MarkedMissingKeepsMarks(obs: map<Id, Observation>, loc: Id, seen: set<Id>, at: int, step: Option<Id>)
    requires UniqueObservations(obs) && PresenceMarks(obs)
    ensures UniqueObservations(MarkedMissing(obs, loc, seen, at, step)) && PresenceMarks(MarkedMissing(obs, loc, seen, at, step))
  { }

  lemma MarkedMissingJoined(t: Tables, loc: Id, seen: set<Id>, at: int, step: Option<Id>)
    requires Joined(t)
    ensures Joined(t.(obs := MarkedMissing(t.obs, loc, seen, at, step)))
  { }

  // ----- retention -----

  function PruneCandidates(t: Tables, repo: Id, protectedKeys: set<string>): set<Id> {
    set l | l in t.locs && t.locs[l].repo == repo && t.locs[l].key !in protectedKeys
  }

  const BY_AGE: (Id, Id) -> bool := (x: Id, y: Id) => x > y

  function ExcessLocations(t: Tables, repo: Id, limit: nat, protectedKeys: set<string>): set<Id> {
    var candidates := PruneCandidates(t, repo, protectedKeys);
    candidates - Ranking.Newest(candidates, BY_AGE, limit)
  }

  /**
   What location pruning leaves: locations of other repositories and protected ones stay, and of the rest exactly the newest
   `limit`; what goes takes its rows with it, and nothing else changes.
   */
  ghost predicate NewestLocationsKept(t: Tables, t': Tables, repo: Id, limit: nat, protectedKeys: set<string>) {
    var candidates, kept := PruneCandidates(t, repo, protectedKeys), PruneCandidates(t', repo, protectedKeys);
    && t' == DeleteLocations(t, t.locs.Keys - t'.locs.Keys)
    && (forall l :: l in t.locs && (t.locs[l].repo != repo || t.locs[l].key in protectedKeys) ==> l in t'.locs)
    && kept <= candidates
    && |kept| == (if limit < |candidates| then limit else |candidates|)
    && (forall l, l' :: l in kept && l' in candidates - kept ==> l > l')
  }

  /** Location pruning never deletes a protected location and keeps exactly the newest `limit` of the rest. */
  lemma PruneKeepsNewestLocations(t: Tables, repo: Id, limit: nat, protectedKeys: set<string>)
    requires Consistent(t)
    ensures var t' := DeleteLocations(t, ExcessLocations(t, repo, limit, protectedKeys));
            Consistent(t') && NewestLocationsKept(t, t', repo, limit, protectedKeys)
  {
    var candidates := PruneCandidates(t, repo, protectedKeys);
    var newest := Ranking.Newest(candidates, BY_AGE, limit);
    DeleteLocationsConsistent(t, candidates - newest);
    Ranking.NewestKeepsExactly(candidates, BY_AGE, limit);
    var kept := PruneCandidates(DeleteLocations(t, candidates - newest), repo, protectedKeys);
    assert kept == newest;
    assert t.locs.Keys - (t.locs - (candidates - newest)).Keys == candidates - newest;
    forall l, l' | l in newest && l' in candidates - newest
      ensures l > l'
    {
      Ranking.NewestAreNewer(candidates, BY_AGE, limit, l, l');
    }
  }

  function Removable(t: Tables): set<Id> {
    set a | a in t.arts && !PresentAnywhere(t, a)
  }

  /** ORDER BY created_at DESC, artifact_id DESC. */
  function ByCreation(arts: map<Id, Artifact>): (Id, Id) -> bool {
    (x: Id, y: Id) => x in arts && y in arts && (arts[x].createdAt > arts[y].createdAt || (arts[x].createdAt == arts[y].createdAt && x > y))
  }

  lemma CreationOrdersArtifacts(arts: map<Id, Artifact>, ids: set<Id>)
    requires ids <= arts.Keys
    ensures Ranking.StrictOrder(ids, ByCreation(arts))
  { }

  /** The rows `_prune_artifacts` selects by age (`cutoff`) and by count. */
  function Prunable(t: Tables, cutoff: Option<int>, count: Option<nat>): set<Id> {
    var removable := Removable(t);
    (if cutoff.Some? then set a | a in removable && t.arts[a].createdAt < cutoff.value else {}) +
    (if count.Some? then removable - Ranking.Newest(removable, ByCreation(t.arts), count.value) else {})
  }

  /**
   What artifact pruning leaves: every artifact present anywhere, and of the others exactly those within both age and count;
   what goes takes its observations with it, and nothing else changes.
   */
  ghost predicate PresentArtifactsKept(t: Tables, t': Tables, cutoff: Option<int>, count: Option<nat>) {
    && t' == DeleteArtifacts(t, t.arts.Keys - t'.arts.Keys)
    && forall a :: a in t.arts ==> (a in t'.arts <==> PresentAnywhere(t, a) || WithinRetention(t, a, cutoff, count))
  }

  ghost predicate WithinRetention(t: Tables, a: Id, cutoff: Option<int>, count: Option<nat>)
    requires a in t.arts
  {
    && (cutoff.Some? ==> t.arts[a].createdAt >= cutoff.value)
    && (count.Some? ==> |Ranking.NewerThan(Removable(t), ByCreation(t.arts), a)| < count.value)
  }

  lemma NotPrunableIff(t: Tables, cutoff: Option<int>, count: Option<nat>, a: Id)
    requires a in t.arts
    ensures a !in Prunable(t, cutoff, count) <==> PresentAnywhere(t, a) || WithinRetention(t, a, cutoff, count)
  { }

  /** Artifact pruning never deletes an artifact present anywhere, and keeps the others exactly within both age and count. */
  lemma PruneKeepsPresentArtifacts(t: Tables, cutoff: Option<int>, count: Option<nat>)
    requires Consistent(t)
    ensures var t' := DeleteArtifacts(t, Prunable(t, cutoff, count)); Consistent(t') && PresentArtifactsKept(t, t', cutoff, count)
  {
    var gone := Prunable(t, cutoff, count);
    DeleteArtifactsConsistent(t, gone);
    forall a | a in t.arts
      ensures a !in gone <==> PresentAnywhere(t, a) || WithinRetention(t, a, cutoff, count)
    {
      NotPrunableIff(t, cutoff, count, a);
    }
    assert t.arts.Keys - (t.arts - gone).Keys == gone;
  }

  /** With only a count, exactly that many removable artifacts stay, the newest ones. */
  lemma PruneKeepsNewestArtifacts(t: Tables, count: nat)
    requires Consistent(t)
    ensures var kept := Removable(t) - Prunable(t, None, Some(count));
            && |kept| == (if count < |Removable(t)| then count else |Removable(t)|)
            && (forall a, a' :: a in kept && a' in Removable(t) - kept ==> ByCreation(t.arts)(a, a'))
  {
    KeptByCount(t, count);
    NewestRowsStay(Removable(t), ByCreation(t.arts), count, t.arts);
  }

  lemma KeptByCount(t: Tables, count: nat)
    ensures Removable(t) - Prunable(t, None, Some(count)) == Ranking.Newest(Removable(t), ByCreation(t.arts), count)
  {
    var removable := Removable(t);
    var newest := Ranking.Newest(removable, ByCreation(t.arts), count);
    KeptAre(removable, newest);
  }

  lemma NewestRowsStay(ids: set<Id>, order: (Id, Id) -> bool, count: nat, arts: map<Id, Artifact>)
    requires ids <= arts.Keys && order == ByCreation(arts)
    ensures |Ranking.Newest(ids, order, count)| == (if count < |ids| then count else |ids|)
    ensures forall a, a' :: a in Ranking.Newest(ids, order, count) && a' in ids - Ranking.Newest(ids, order, count) ==> order(a, a')
  {
    CreationOrdersArtifacts(arts, ids);
    Ranking.NewestKeepsExactly(ids, order, count);
    forall a, a' | a in Ranking.Newest(ids, order, count) && a' in ids - Ranking.Newest(ids, order, count)
      ensures order(a, a')
    {
      Ranking.NewestAreNewer(ids, order, count, a, a');
    }
  }

  lemma KeptAre(all: set<Id>, kept: set<Id>)
    requires kept <= all
    ensures all - (all - kept) == kept
  { }
}
