/**
 The five related tables of the artifact database, their constraints, and the
 set-valued statements (deletes with their cascades) that the store issues.
 Row ids stand for the UUID primary keys; texts that only travel through
 (display names, JSON columns) are left out or kept as plain values.
 */
module ArtifactTables {
  import opened Wrappers

  type Id = nat

  datatype Repository = Repository(backend: string, backendId: string)
  datatype Location = Location(repo: Id, key: string, display: string)
  datatype Artifact = Artifact(repo: Id, backendId: string, createdAt: int)
  datatype Observation = Observation(artifact: Id, location: Id, present: bool,
                                     removedAt: Option<int>, removedBy: Option<Id>)
  datatype StatsPoint = StatsPoint(repo: Id, location: Id, collectedAt: int, size: Option<int>)

  datatype Tables = Tables(
    repos: map<Id, Repository>,
    locs: map<Id, Location>,
    arts: map<Id, Artifact>,
    obs: map<Id, Observation>,
    points: map<Id, StatsPoint>)

  // ----- the relational invariant -----

  ghost predicate UniqueRepositories(repos: map<Id, Repository>) {
    forall r, r' :: r in repos && r' in repos && repos[r] == repos[r'] ==> r == r'
  }

  ghost predicate UniqueLocations(locs: map<Id, Location>) {
    forall l, l' :: l in locs && l' in locs && locs[l].key == locs[l'].key ==> l == l'
  }

  ghost predicate UniqueArtifacts(arts: map<Id, Artifact>) {
    forall a, a' :: a in arts && a' in arts && arts[a].repo == arts[a'].repo && arts[a].backendId == arts[a'].backendId ==> a == a'
  }

  ghost predicate UniqueObservations(obs: map<Id, Observation>) {
    forall o, o' :: o in obs && o' in obs && obs[o].artifact == obs[o'].artifact && obs[o].location == obs[o'].location ==> o == o'
  }

  ghost predicate ForeignKeys(t: Tables) {
    && (forall l :: l in t.locs ==> t.locs[l].repo in t.repos)
    && (forall a :: a in t.arts ==> t.arts[a].repo in t.repos)
    && (forall o :: o in t.obs ==> t.obs[o].artifact in t.arts && t.obs[o].location in t.locs)
    && (forall p :: p in t.points ==> t.points[p].repo in t.repos && t.points[p].location in t.locs)
  }

  /** `present = 1` exactly when `removed_at` is null. */
  ghost predicate PresenceMarks(obs: map<Id, Observation>) {
    forall o :: o in obs ==> (obs[o].present <==> obs[o].removedAt.None?)
  }

  /** Every observation joins an artifact and a location of one repository, and every point sits at a location of its own. */
  ghost predicate SameRepository(t: Tables)
    requires ForeignKeys(t)
  {
    && (forall o :: o in t.obs ==> t.arts[t.obs[o].artifact].repo == t.locs[t.obs[o].location].repo)
    && (forall p :: p in t.points ==> t.points[p].repo == t.locs[t.points[p].location].repo)
  }

  ghost predicate Consistent(t: Tables) {
    && UniqueRepositories(t.repos)
    && UniqueLocations(t.locs)
    && UniqueArtifacts(t.arts)
    && UniqueObservations(t.obs)
    && PresenceMarks(t.obs)
    && Joined(t)
  }

  ghost predicate Joined(t: Tables) {
    ForeignKeys(t) && SameRepository(t)
  }

  // ----- what the tables say -----

  predicate PresentAt(t: Tables, a: Id, l: Id) {
    exists o :: o in t.obs && t.obs[o].artifact == a && t.obs[o].location == l && t.obs[o].present
  }

  predicate PresentAnywhere(t: Tables, a: Id) {
    exists o :: o in t.obs && t.obs[o].artifact == a && t.obs[o].present
  }

  ghost predicate PresentElsewhere(t: Tables, a: Id, loc: Id) {
    exists l :: l in t.locs && l != loc && PresentAt(t, a, l)
  }

  predicate HasOtherLocation(t: Tables, repo: Id, loc: Id) {
    exists l :: l in t.locs && l != loc && t.locs[l].repo == repo
  }

  predicate HasLocation(t: Tables, repo: Id) {
    exists l :: l in t.locs && t.locs[l].repo == repo
  }

  lemma PresentAnywhereIsPresentAtSomeLocation(t: Tables, a: Id)
    requires ForeignKeys(t)
    ensures PresentAnywhere(t, a) <==> exists l :: l in t.locs && PresentAt(t, a, l)
  {
    if PresentAnywhere(t, a) {
      var o :| o in t.obs && t.obs[o].artifact == a && t.obs[o].present;
      assert PresentAt(t, a, t.obs[o].location);
    }
  }

  // ----- deletes with ON DELETE CASCADE -----

  function DeleteLocations(t: Tables, ids: set<Id>): Tables {
    t.(locs := t.locs - ids,
       obs := map o | o in t.obs && t.obs[o].location !in ids :: t.obs[o],
       points := map p | p in t.points && t.points[p].location !in ids :: t.points[p])
  }

  function DeleteArtifacts(t: Tables, ids: set<Id>): Tables {
    t.(arts := t.arts - ids,
       obs := map o | o in t.obs && t.obs[o].artifact !in ids :: t.obs[o])
  }

  predicate LocationOf(t: Tables, l: Id, repo: Id) {
    l in t.locs && t.locs[l].repo == repo
  }

  predicate ArtifactOf(t: Tables, a: Id, repo: Id) {
    a in t.arts && t.arts[a].repo == repo
  }

  function DeleteRepository(t: Tables, repo: Id): Tables {
    Tables(
      t.repos - {repo},
      map l | l in t.locs && t.locs[l].repo != repo :: t.locs[l],
      map a | a in t.arts && t.arts[a].repo != repo :: t.arts[a],
      map o | o in t.obs && !LocationOf(t, t.obs[o].location, repo) && !ArtifactOf(t, t.obs[o].artifact, repo) :: t.obs[o],
      map p | p in t.points && t.points[p].repo != repo && !LocationOf(t, t.points[p].location, repo) :: t.points[p])
  }

  /** The rows `_delete_orphaned_artifacts` selects. */
  function Orphans(t: Tables, repo: Id): set<Id> {
    set a | a in t.arts && t.arts[a].repo == repo && !PresentAnywhere(t, a)
  }

  function DeleteOrphans(t: Tables, repo: Id): Tables {
    DeleteArtifacts(t, Orphans(t, repo))
  }

  predicate RepositoryIsEmpty(t: Tables, repo: Id) {
    && (forall l :: l in t.locs ==> t.locs[l].repo != repo)
    && (forall a :: a in t.arts ==> t.arts[a].repo != repo)
    && (forall p :: p in t.points ==> t.points[p].repo != repo)
  }

  function DeleteEmptyRepository(t: Tables, repo: Id): Tables {
    if RepositoryIsEmpty(t, repo) then DeleteRepository(t, repo) else t
  }

  lemma DeleteLocationsConsistent(t: Tables, ids: set<Id>)
    requires Consistent(t)
    ensures Consistent(DeleteLocations(t, ids))
  { }

  lemma DeleteLocationsJoined(t: Tables, ids: set<Id>)
    requires Joined(t)
    ensures Joined(DeleteLocations(t, ids))
  { }

  lemma DeleteArtifactsJoined(t: Tables, ids: set<Id>)
    requires Joined(t)
    ensures Joined(DeleteArtifacts(t, ids))
  { }

  lemma DeleteArtifactsConsistent(t: Tables, ids: set<Id>)
    requires Consistent(t)
    ensures Consistent(DeleteArtifacts(t, ids))
  { }

  lemma DeleteRepositoryConsistent(t: Tables, repo: Id)
    requires Consistent(t)
    ensures Consistent(DeleteRepository(t, repo))
  { }

  lemma DeleteEmptyRepositoryConsistent(t: Tables, repo: Id)
    requires Consistent(t)
    ensures Consistent(DeleteEmptyRepository(t, repo))
  {
    DeleteRepositoryConsistent(t, repo);
  }

  /** The delete of an empty repository cascades to nothing. */
  lemma EmptyRepositoryCascadesToNothing(t: Tables, repo: Id)
    requires ForeignKeys(t)
    ensures DeleteEmptyRepository(t, repo) == if RepositoryIsEmpty(t, repo) then t.(repos := t.repos - {repo}) else t
  {
    if RepositoryIsEmpty(t, repo) {
      NothingToCascade(t, repo);
    }
  }

  lemma NothingToCascade(t: Tables, repo: Id)
    requires ForeignKeys(t) && RepositoryIsEmpty(t, repo)
    ensures DeleteRepository(t, repo) == t.(repos := t.repos - {repo})
  {
    var t' := DeleteRepository(t, repo);
    assert t'.locs == t.locs;
    assert t'.arts == t.arts;
    assert t'.obs == t.obs;
    assert t'.points == t.points;
  }

  // ----- DELETE one location, its orphans, its empty repository -----

  /** The statements of `delete_location` after the row was found, also the first half of a rebind. */
  function DropLocations(t: Tables, repo: Id, ids: set<Id>): Tables {
    DeleteEmptyRepository(DeleteOrphans(DeleteLocations(t, ids), repo), repo)
  }

  function DropLocation(t: Tables, repo: Id, loc: Id): Tables {
    DropLocations(t, repo, {loc})
  }

  lemma DropLocationsConsistent(t: Tables, repo: Id, ids: set<Id>)
    requires Consistent(t)
    ensures Consistent(DropLocations(t, repo, ids))
  {
    var t1 := DeleteLocations(t, ids);
    DeleteLocationsConsistent(t, ids);
    DeleteArtifactsConsistent(t1, Orphans(t1, repo));
    DeleteEmptyRepositoryConsistent(DeleteOrphans(t1, repo), repo);
  }

  lemma DropLocationConsistent(t: Tables, repo: Id, loc: Id)
    requires Consistent(t)
    ensures Consistent(DropLocation(t, repo, loc))
  {
    DropLocationsConsistent(t, repo, {loc});
  }

  /** Whatever repository is tidied up: only those locations go, rows only go, and an artifact present elsewhere stays. */
  lemma DropLocationsKeepsPresent(t: Tables, repo: Id, ids: set<Id>)
    requires Joined(t)
    ensures var t' := DropLocations(t, repo, ids);
            && t'.locs == t.locs - ids
            && (t'.repos == t.repos || t'.repos == t.repos - {repo})
            && (forall a :: a in t'.arts ==> a in t.arts && t'.arts[a] == t.arts[a])
            && (forall a, l :: l !in ids && a in t.arts && PresentAt(t, a, l) ==> a in t'.arts)
  {
    var t1 := DeleteLocations(t, ids);
    DeleteLocationsJoined(t, ids);
    OrphansKeepLiveRows(t1, repo);
    EmptyRepositoryCascadesToNothing(DeleteOrphans(t1, repo), repo);
    forall a, l | l !in ids && a in t.arts && PresentAt(t, a, l)
      ensures PresentAnywhere(t1, a)
    {
      var o :| o in t.obs && t.obs[o].artifact == a && t.obs[o].location == l && t.obs[o].present;
      assert o in t1.obs;
    }
  }

  /** An artifact of the repository survives iff another location still holds it, and the repository survives iff it has another location. */
  lemma DropLocationKeepsLive(t: Tables, repo: Id, loc: Id, a: Id)
    requires Joined(t) && repo in t.repos && loc in t.locs && t.locs[loc].repo == repo
    ensures var t' := DropLocation(t, repo, loc);
            && (a in t'.arts <==> a in t.arts && (t.arts[a].repo == repo ==> PresentElsewhere(t, a, loc)))
            && (a in t'.arts ==> t'.arts[a] == t.arts[a])
            && (repo in t'.repos <==> HasOtherLocation(t, repo, loc))
  {
    var t1 := DeleteLocations(t, {loc});
    var t2 := DeleteOrphans(t1, repo);
    DeleteLocationsJoined(t, {loc});
    DeleteArtifactsJoined(t1, Orphans(t1, repo));
    EmptyRepositoryCascadesToNothing(t2, repo);
    DeletedLocationPresence(t, loc);
    PresentAnywhereIsPresentAtSomeLocation(t1, a);
    OrphanFreeRepositoryIsEmpty(t1, repo);
    assert HasLocation(t1, repo) <==> HasOtherLocation(t, repo, loc) by {
      forall l ensures l in t1.locs <==> l in t.locs && l != loc { }
    }
  }

  lemma DeletedLocationPresence(t: Tables, loc: Id)
    ensures var t1 := DeleteLocations(t, {loc});
            forall a, l :: PresentAt(t1, a, l) <==> l != loc && PresentAt(t, a, l)
  {
    var t1 := DeleteLocations(t, {loc});
    forall a, l
      ensures PresentAt(t1, a, l) <==> l != loc && PresentAt(t, a, l)
    {
      if PresentAt(t1, a, l) {
        var o :| o in t1.obs && t1.obs[o].artifact == a && t1.obs[o].location == l && t1.obs[o].present;
        assert o in t.obs;
      }
      if l != loc && PresentAt(t, a, l) {
        var o :| o in t.obs && t.obs[o].artifact == a && t.obs[o].location == l && t.obs[o].present;
        assert o in t1.obs;
      }
    }
  }

  /** Without orphans, a repository is empty exactly when it has no location. */
  lemma OrphanFreeRepositoryIsEmpty(t: Tables, repo: Id)
    requires Joined(t)
    ensures RepositoryIsEmpty(DeleteOrphans(t, repo), repo) <==> !HasLocation(t, repo)
  {
    var t2 := DeleteOrphans(t, repo);
    if !HasLocation(t, repo) {
      forall a | a in t2.arts
        ensures t2.arts[a].repo != repo
      {
        assert a !in Orphans(t, repo);
      }
    }
  }

  /** Only the location row goes, points only go with their location, and no other repository goes. */
  lemma DropLocationLeavesOthers(t: Tables, repo: Id, loc: Id)
    requires Joined(t) && repo in t.repos && loc in t.locs && t.locs[loc].repo == repo
    ensures var t' := DropLocation(t, repo, loc);
            && t'.locs == t.locs - {loc}
            && t'.points == (map p | p in t.points && t.points[p].location != loc :: t.points[p])
            && (t'.repos == t.repos || t'.repos == t.repos - {repo})
  {
    var t1 := DeleteLocations(t, {loc});
    DeleteLocationsJoined(t, {loc});
    OrphansKeepLiveRows(t1, repo);
    EmptyRepositoryCascadesToNothing(DeleteOrphans(t1, repo), repo);
  }

  /** Observations elsewhere stay as they were, unless they mark an absence of an artifact that goes. */
  lemma DropLocationLeavesObservations(t: Tables, repo: Id, loc: Id, o: Id)
    requires Joined(t) && repo in t.repos && loc in t.locs && t.locs[loc].repo == repo
    ensures var t' := DropLocation(t, repo, loc);
            && (o in t'.obs ==> o in t.obs && t'.obs[o] == t.obs[o] && t.obs[o].location != loc)
            && (o in t.obs && t.obs[o].location != loc && o !in t'.obs ==>
                  !t.obs[o].present && t.locs[t.obs[o].location].repo == repo)
  {
    var t1 := DeleteLocations(t, {loc});
    DeleteLocationsJoined(t, {loc});
    OrphansKeepLiveRows(t1, repo);
    EmptyRepositoryCascadesToNothing(DeleteOrphans(t1, repo), repo);
    assert DropLocation(t, repo, loc).obs == DeleteOrphans(t1, repo).obs;
  }

  lemma OrphansKeepLiveRows(t: Tables, repo: Id)
    requires Joined(t)
    ensures var t' := DeleteOrphans(t, repo);
            && Joined(t') && t'.points == t.points && t'.locs == t.locs && t'.repos == t.repos
            && (forall o :: o in t'.obs ==> o in t.obs && t'.obs[o] == t.obs[o])
            && (forall o :: o in t.obs && (t.obs[o].present || t.locs[t.obs[o].location].repo != repo) ==> o in t'.obs)
  {
    DeleteArtifactsJoined(t, Orphans(t, repo));
    forall o | o in t.obs && t.obs[o].present
      ensures PresentAnywhere(t, t.obs[o].artifact)
    { }
  }
}
