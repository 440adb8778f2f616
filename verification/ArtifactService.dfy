/** The stateful store: five table fields, the dates of the last retention, and one method per transaction. */
module ArtifactService {
  import opened Wrappers
  import opened ArtifactTables
  import opened ArtifactMerge
  import opened ArtifactStore
  import opened ArtifactRetention

  lemma {:induction false} BoundExists(used: set<Id>) returns (bound: Id)
    ensures forall u :: u in used ==> u < bound
    decreases |used|
  {
    if used == {} {
      bound := 0;
    } else {
      var u :| u in used;
      assert |used - {u}| < |used|;
      var rest := BoundExists(used - {u});
      bound := if u < rest then rest else u + 1;
      assert forall v :: v in used ==> v == u || v in used - {u};
    }
  }

  predicate Above(id: Id, used: set<Id>) {
    forall u :: u in used ==> u < id
  }

  lemma ListedOneMore(arts: map<Id, Artifact>, arts': map<Id, Artifact>, repo: Id, ids: set<string>, a: Id, row: Artifact)
    requires row.repo == repo && arts' == arts[a := row] && (a in arts ==> arts[a] == row) && UniqueArtifacts(arts')
    ensures forall x :: Listed(arts', x, repo, ids + {row.backendId}) <==> Listed(arts, x, repo, ids) || x == a
  {
    assert arts'[a] == row;
    forall x
      ensures Listed(arts', x, repo, ids + {row.backendId}) <==> Listed(arts, x, repo, ids) || x == a
    {
      if x != a && x in arts' && arts'[x].repo == repo {
        assert arts'[x].backendId != arts'[a].backendId;
      }
    }
  }

  lemma ArtifactsOneMore(arts0: map<Id, Artifact>, arts: map<Id, Artifact>, arts': map<Id, Artifact>, repo: Id, ids: set<string>, a: Id, row: Artifact)
    requires ArtifactsRecorded(arts0, arts, repo, ids)
    requires row.repo == repo && arts' == arts[a := row] && (a in arts ==> arts[a] == row) && UniqueArtifacts(arts')
    ensures ArtifactsRecorded(arts0, arts', repo, ids + {row.backendId})
  {
    var all := ids + {row.backendId};
    ListedOneMore(arts, arts', repo, ids, a, row);
    forall c | c in all
      ensures exists x :: Listed(arts', x, repo, {c})
    {
      if c == row.backendId {
        assert Listed(arts', a, repo, {c});
      } else {
        var x :| Listed(arts, x, repo, {c});
        assert Listed(arts', x, repo, {c});
      }
    }
  }

  lemma RowsOneMore(obs0: map<Id, Observation>, obs: map<Id, Observation>, obs': map<Id, Observation>,
                    arts: map<Id, Artifact>, arts': map<Id, Artifact>, repo: Id, loc: Id, ids: set<string>, all: set<string>, a: Id, o: Id)
    requires RowsRecorded(obs0, obs, arts, repo, loc, ids)
    requires forall x :: Listed(arts', x, repo, all) <==> Listed(arts, x, repo, ids) || x == a
    requires o in obs ==> obs[o].artifact == a && obs[o].location == loc
    requires obs' == obs[o := Seen(a, loc)] && UniqueObservations(obs')
    ensures RowsRecorded(obs0, obs', arts', repo, loc, all)
  {
    forall x | x in obs0
      ensures x in obs' && obs'[x] == Refreshed(arts', obs0[x], repo, loc, all)
    {
      assert obs[x] == Refreshed(arts, obs0[x], repo, loc, ids);
      assert x != o ==> !(obs'[x].location == obs'[o].location && obs'[x].artifact == obs'[o].artifact);
    }
    forall x | Listed(arts', x, repo, all)
      ensures HasRow(obs', x, loc)
    {
      if x == a {
        assert obs'[o].artifact == a;
      } else {
        var y :| y in obs && obs[y].artifact == x && obs[y].location == loc;
        assert obs'[y] == obs[y];
      }
    }
  }

  /** Recording one more snapshot: its artifact is found or inserted, and its row at the location marked present. */
  lemma RecordStep(t0: Tables, t1: Tables, t2: Tables, repo: Id, loc: Id, ids: set<string>, a: Id, row: Artifact, o: Id)
    requires SnapshotsRecorded(t0, t1, repo, loc, ids)
    requires row.repo == repo && (a in t1.arts ==> t1.arts[a] == row)
    requires o in t1.obs ==> t1.obs[o].artifact == a && t1.obs[o].location == loc
    requires t2 == t1.(arts := t1.arts[a := row], obs := t1.obs[o := Seen(a, loc)])
    requires UniqueArtifacts(t2.arts) && UniqueObservations(t2.obs)
    ensures SnapshotsRecorded(t0, t2, repo, loc, ids + {row.backendId})
    ensures forall x :: Listed(t2.arts, x, repo, ids + {row.backendId}) <==> Listed(t1.arts, x, repo, ids) || x == a
  {
    ListedOneMore(t1.arts, t2.arts, repo, ids, a, row);
    ArtifactsOneMore(t0.arts, t1.arts, t2.arts, repo, ids, a, row);
    RowsOneMore(t0.obs, t1.obs, t2.obs, t1.arts, t2.arts, repo, loc, ids, ids + {row.backendId}, a, o);
  }

  /** Every new artifact bears the id and the time of one of the snapshots. */
  ghost predicate Dated(arts: map<Id, Artifact>, arts': map<Id, Artifact>, snapshots: seq<Snapshot>) {
    forall a :: a in arts' && a !in arts ==> exists s :: s in snapshots && s == Snapshot(Some(arts'[a].backendId), arts'[a].createdAt)
  }

  lemma DatedOneMore(arts0: map<Id, Artifact>, arts: map<Id, Artifact>, arts': map<Id, Artifact>, a: Id, snapshots: seq<Snapshot>)
    requires Dated(arts0, arts, snapshots) && a in arts' && arts' == arts[a := arts'[a]]
    requires if a in arts then arts' == arts else Snapshot(Some(arts'[a].backendId), arts'[a].createdAt) in snapshots
    ensures Dated(arts0, arts', snapshots)
  { }

  class RepositoryArtifactStore {
    var repositories: map<Id, Repository>
    var locations: map<Id, Location>
    var artifacts: map<Id, Artifact>
    var observations: map<Id, Observation>
    var points: map<Id, StatsPoint>
    /** The day of the last retention of each repository. */
    var retentionDates: map<Id, int>
    const retentionDays: Option<nat>
    const retentionCount: Option<nat>

    ghost function Db(): Tables
      reads this
    {
      Tables(repositories, locations, artifacts, observations, points)
    }

    constructor (days: Option<nat>, count: Option<nat>)
      ensures Db() == Tables(map[], map[], map[], map[], map[]) && retentionDates == map[]
      ensures Consistent(Db()) && retentionDays == days && retentionCount == count
    {
      repositories, locations, artifacts, observations, points, retentionDates := map[], map[], map[], map[], map[], map[];
      retentionDays, retentionCount := days, count;
    }

    /** uuid4: any id that is not in use. */
    method NewId(used: set<Id>) returns (id: Id)
      ensures id !in used
    {
      ghost var bound := BoundExists(used);
      assert bound !in used;
      id :| id !in used;
    }

    /** A creation-ordered id: larger than every earlier one. */
    method NewSortableId(used: set<Id>) returns (id: Id)
      ensures Above(id, used)
    {
      ghost var bound := BoundExists(used);
      assert Above(bound, used);
      id :| Above(id, used);
    }

    method FindOrCreateRepository(backend: string, backendId: string) returns (r: Id)
      requires Consistent(Db())
      modifies this`repositories
      ensures Consistent(Db())
      ensures repositories == old(repositories)[r := Repository(backend, backendId)]
      ensures r in old(repositories) ==> repositories == old(repositories)
    {
      if x :| x in repositories && repositories[x] == Repository(backend, backendId) {
        r := x;
        assert repositories == repositories[r := Repository(backend, backendId)];
      } else {
        r := NewId(repositories.Keys);
        repositories := repositories[r := Repository(backend, backendId)];
      }
    }

    method UpsertLocation(repo: Id, key: string, display: string) returns (l: Id)
      requires Consistent(Db()) && repo in repositories
      requires forall x :: x in locations && locations[x].key == key && HasRows(Db(), x) ==> locations[x].repo == repo
      modifies this`locations
      ensures Consistent(Db())
      ensures locations == old(locations)[l := Location(repo, key, display)]
      ensures if l in old(locations) then old(locations)[l].key == key
              else forall x :: x in old(locations) ==> old(locations)[x].key != key && x < l
    {
      if x :| x in locations && locations[x].key == key {
        l := x;
      } else {
        l := NewSortableId(locations.Keys);
      }
      UpsertLocationConsistent(Db(), l, Location(repo, key, display));
      locations := locations[l := Location(repo, key, display)];
    }

    method InsertArtifact(repo: Id, backendId: string, createdAt: int) returns (a: Id)
      requires Consistent(Db()) && repo in repositories
      modifies this`artifacts
      ensures Consistent(Db())
      ensures a in artifacts && artifacts[a].repo == repo && artifacts[a].backendId == backendId
      ensures artifacts == old(artifacts)[a := artifacts[a]]
      ensures if a in old(artifacts) then artifacts == old(artifacts) else artifacts[a].createdAt == createdAt
    {
      if x :| x in artifacts && artifacts[x].repo == repo && artifacts[x].backendId == backendId {
        a := x;
        assert artifacts == artifacts[a := artifacts[a]];
      } else {
        a := NewId(artifacts.Keys);
        artifacts := artifacts[a := Artifact(repo, backendId, createdAt)];
      }
    }

    method UpsertLocationObservation(a: Id, l: Id) returns (o: Id)
      requires Consistent(Db()) && a in artifacts && l in locations && artifacts[a].repo == locations[l].repo
      modifies this`observations
      ensures Consistent(Db())
      ensures observations == old(observations)[o := Seen(a, l)]
      ensures o in old(observations) ==> old(observations)[o].artifact == a && old(observations)[o].location == l
    {
      if x :| x in observations && observations[x].artifact == a && observations[x].location == l {
        o := x;
      } else {
        o := NewId(observations.Keys);
      }
      observations := observations[o := Seen(a, l)];
    }

    method InsertStatsPoint(repo: Id, l: Id, at: int, size: Option<int>) returns (p: Id)
      requires Consistent(Db()) && l in locations && locations[l].repo == repo
      modifies this`points
      ensures Consistent(Db())
      ensures p !in old(points) && points == old(points)[p := StatsPoint(repo, l, at, size)]
    {
      p := NewId(points.Keys);
      points := points[p := StatsPoint(repo, l, at, size)];
    }

    /** Rewrites the rows of the location that were present and not seen, one by one. */
    method MarkMissingArtifactsRemoved(loc: Id, seen: set<Id>, at: int, step: Option<Id>)
      requires Consistent(Db())
      modifies this`observations
      ensures Consistent(Db())
      ensures observations == MarkedMissing(old(observations), loc, seen, at, step)
    {
      MarkedMissingConsistent(Db(), loc, seen, at, step);
      AllMissingMarked(observations, loc, seen, at, step);
      MarkRowsRemoved(Missing(observations, loc, seen), at, step);
    }

    method MarkRowsRemoved(missing: set<Id>, at: int, step: Option<Id>)
      requires missing <= observations.Keys
      modifies this`observations
      ensures observations == MarkedRows(old(observations), missing, at, step)
    {
      var rest := missing;
      while rest != {}
        invariant rest <= missing
        invariant observations == MarkedRows(old(observations), missing - rest, at, step)
        decreases |rest|
      {
        var o :| o in rest;
        MarkOneMore(old(observations), missing - rest, o, at, step);
        assert missing - rest + {o} == missing - (rest - {o});
        observations := observations[o := observations[o].(present := false, removedAt := Some(at), removedBy := step)];
        rest := rest - {o};
      }
      assert missing - rest == missing;
    }

    method RecordSnapshot(repo: Id, loc: Id, backendId: string, createdAt: int, ghost t0: Tables, ghost ids: set<string>,
                          ghost snapshots: seq<Snapshot>) returns (a: Id)
      requires Consistent(Db()) && loc in locations && locations[loc].repo == repo
      requires SnapshotsRecorded(t0, Db(), repo, loc, ids)
      requires Dated(t0.arts, artifacts, snapshots) && Snapshot(Some(backendId), createdAt) in snapshots
      modifies this`artifacts, this`observations
      ensures Consistent(Db())
      ensures SnapshotsRecorded(t0, Db(), repo, loc, ids + {backendId})
      ensures forall x :: Listed(artifacts, x, repo, ids + {backendId}) <==> old(Listed(artifacts, x, repo, ids)) || x == a
      ensures Dated(t0.arts, artifacts, snapshots)
    {
      a := InsertArtifact(repo, backendId, createdAt);
      var o := UpsertLocationObservation(a, loc);
      RecordStep(t0, old(Db()), Db(), repo, loc, ids, a, artifacts[a], o);
      DatedOneMore(t0.arts, old(artifacts), artifacts, a, snapshots);
    }

    /** Finds or inserts the artifact of every snapshot and marks it present at the location. */
    method RecordSnapshots(repo: Id, loc: Id, snapshots: seq<Snapshot>) returns (seen: set<Id>)
      requires Consistent(Db()) && loc in locations && locations[loc].repo == repo
      modifies this`artifacts, this`observations
      ensures Consistent(Db())
      ensures SnapshotsRecorded(old(Db()), Db(), repo, loc, SnapshotIds(snapshots))
      ensures forall a :: a in seen <==> Listed(artifacts, a, repo, SnapshotIds(snapshots))
      ensures Dated(old(artifacts), artifacts, snapshots)
    {
      ghost var ids: set<string> := {};
      var i := 0;
      seen := {};
      while i < |snapshots|
        invariant 0 <= i <= |snapshots| && ids == SnapshotIds(snapshots[..i])
        invariant Consistent(Db()) && SnapshotsRecorded(old(Db()), Db(), repo, loc, ids)
        invariant forall a :: a in seen <==> Listed(artifacts, a, repo, ids)
        invariant Dated(old(artifacts), artifacts, snapshots)
      {
        IdsOfOneMore(snapshots, i);
        if snapshots[i].backendId.Some? {
          var b := snapshots[i].backendId.value;
          assert snapshots[i] == Snapshot(Some(b), snapshots[i].createdAt);
          var a := RecordSnapshot(repo, loc, b, snapshots[i].createdAt, old(Db()), ids, snapshots);
          ids, seen := ids + {b}, seen + {a};
        }
        i := i + 1;
      }
      assert snapshots[..i] == snapshots;
    }

    /** One observation of a location; the precondition is what the collector's resolve step establishes. */
    method PersistObservation(backend: string, backendId: string, key: string, display: string,
                              snapshots: seq<Snapshot>, stats: Option<int>, at: int, step: Option<Id>, fullReconcile: bool)
      returns (repo: Id, loc: Id)
      requires Consistent(Db()) && KeyBelongsTo(Db(), key, backend, backendId)
      modifies this`repositories, this`locations, this`artifacts, this`observations, this`points
      ensures Consistent(Db())
      ensures repo in repositories && repositories == old(repositories)[repo := Repository(backend, backendId)]
      ensures loc in locations && locations == old(locations)[loc := Location(repo, key, display)]
      ensures repo in old(repositories) ==> repositories == old(repositories)
      ensures loc in old(locations) ==> old(locations)[loc].key == key && old(locations)[loc].repo == repo
      ensures forall x :: x in old(locations) && x != loc ==> old(locations)[x].key != key
      ensures ObservationPersisted(old(Db()), Db(), repo, loc, SnapshotIds(snapshots), stats, at, step, fullReconcile)
      ensures Dated(old(artifacts), artifacts, snapshots)
    {
      repo, loc := FindRepositoryAndLocation(backend, backendId, key, display);
      ghost var t0 := Db();
      var seen := RecordSnapshots(repo, loc, snapshots);
      ghost var t1 := Db();
      if fullReconcile {
        MarkMissingArtifactsRemoved(loc, seen, at, step);
      }
      ghost var t2 := Db();
      if stats.Some? {
        var _ := InsertStatsPoint(repo, loc, at, stats);
      }
      assert PersistedVia(old(Db()), t0, t1, t2, Db(), repo, loc, SnapshotIds(snapshots), seen, stats, at, step, fullReconcile);
    }

    method FindRepositoryAndLocation(backend: string, backendId: string, key: string, display: string) returns (repo: Id, loc: Id)
      requires Consistent(Db()) && KeyBelongsTo(Db(), key, backend, backendId)
      modifies this`repositories, this`locations
      ensures Consistent(Db())
      ensures repositories == old(repositories)[repo := Repository(backend, backendId)]
      ensures repo in old(repositories) ==> repositories == old(repositories)
      ensures locations == old(locations)[loc := Location(repo, key, display)]
      ensures loc in old(locations) ==> old(locations)[loc].key == key && old(locations)[loc].repo == repo
      ensures forall x :: x in old(locations) && x != loc ==> old(locations)[x].key != key
    {
      repo := FindOrCreateRepository(backend, backendId);
      forall x | x in locations && locations[x].key == key
        ensures locations[x].repo == repo
      {
        assert old(repositories)[locations[x].repo] == Repository(backend, backendId);
        assert repositories[locations[x].repo] == repositories[repo];
      }
      loc := UpsertLocation(repo, key, display);
    }

    /** Rebinding a key whose backend identity changed: what holds it goes with the orphans, a new row takes the key. */
    method RebindLocationIdentity(backend: string, backendId: string, key: string, display: string, oldRepo: Id)
      returns (repo: Id, loc: Id)
      requires Consistent(Db())
      modifies this`repositories, this`locations, this`artifacts, this`observations, this`points
      ensures Consistent(Db())
      ensures Rebound(old(Db()), Db(), oldRepo, repo, loc, key, display, Repository(backend, backendId))
    {
      ghost var dropped := DroppedKeyIsFree(Db(), oldRepo, key);
      DropLocationRows(oldRepo, set l | l in locations && locations[l].key == key);
      repo := FindOrCreateRepository(backend, backendId);
      loc := UpsertLocation(repo, key, display);
    }

    /** The three statements behind a drop: delete with cascade, delete orphans, delete the repository if empty. */
    method DropLocationRows(repo: Id, ids: set<Id>)
      modifies this`repositories, this`locations, this`artifacts, this`observations, this`points
      ensures Db() == DropLocations(old(Db()), repo, ids)
    {
      var t := DeleteLocations(Tables(repositories, locations, artifacts, observations, points), ids);
      t := DeleteOrphans(t, repo);
      t := DeleteEmptyRepository(t, repo);
      repositories, locations, artifacts, observations, points := t.repos, t.locs, t.arts, t.obs, t.points;
    }

    /**
     Resolving an observation. Afterwards the key belongs to (backend, backendId), except in one case: a known location
     whose backend id matches under another backend name is trusted as it is.
     */
    method ResolveObservedLocation(backend: string, backendId: string, key: string, display: string) returns (r: Resolution)
      requires Consistent(Db())
      modifies this`repositories, this`locations, this`artifacts, this`observations, this`points
      ensures Consistent(Db())
      ensures KeyBelongsTo(Db(), key, backend, backendId) <==> !old(TrustedUnderOtherBackend(key, backend, backendId))
      ensures r.loc in locations && locations[r.loc].key == key && locations[r.loc].repo == r.repo
      ensures r.NewLocation? <==> forall x :: x in old(locations) ==> old(locations)[x].key != key
      ensures r.IdentityChanged? <==> old(HeldByOther(Db(), key, backendId))
      ensures r.KnownLocation? ==> Db() == old(Db())
      ensures r.NewLocation? ==> LocationRecorded(old(Db()), Db(), r.repo, r.loc, key, display, Repository(backend, backendId))
      ensures r.IdentityChanged? ==>
                && Rebound(old(Db()), Db(), r.previous, r.repo, r.loc, key, display, Repository(backend, backendId))
                && exists x :: x in old(locations) && old(locations)[x].key == key && old(locations)[x].repo == r.previous
      ensures forall x :: x in repositories ==> repositories[x] == Repository(backend, backendId) || (x in old(repositories) && repositories[x] == old(repositories)[x])
      ensures !r.KnownLocation? ==> !HasRows(Db(), r.loc)
    {
      if x :| x in locations && locations[x].key == key {
        if repositories[locations[x].repo].backendId == backendId {
          return KnownLocation(locations[x].repo, x);
        }
        var previous := locations[x].repo;
        var repo, loc := RebindLocationIdentity(backend, backendId, key, display, previous);
        ReboundIsSettled(old(Db()), Db(), previous, repo, loc, key, display, Repository(backend, backendId));
        return IdentityChanged(repo, loc, previous);
      }
      var repo := FindOrCreateRepository(backend, backendId);
      var loc := UpsertLocation(repo, key, display);
      return NewLocation(repo, loc);
    }

    ghost predicate TrustedUnderOtherBackend(key: string, backend: string, backendId: string)
      requires ForeignKeys(Db())
      reads this
    {
      exists l :: l in locations && locations[l].key == key &&
                  repositories[locations[l].repo].backendId == backendId && repositories[locations[l].repo].backend != backend
    }

    method DeleteLocation(repo: Id, loc: Id) returns (deleted: bool)
      requires Consistent(Db())
      modifies this`repositories, this`locations, this`artifacts, this`observations, this`points
      ensures Consistent(Db())
      ensures deleted == old(LocationOf(Db(), loc, repo))
      ensures Db() == if deleted then DropLocation(old(Db()), repo, loc) else old(Db())
    {
      deleted := loc in locations && locations[loc].repo == repo;
      if deleted {
        DropLocationConsistent(Db(), repo, loc);
        DropLocationRows(repo, {loc});
      }
    }

    /** The row loop of a merge. */
    method MergeArtifactLocations(s: Id, d: Id)
      requires s != d && UniqueObservations(observations)
      modifies this`observations
      ensures MergedRows(old(observations), observations, d, RowsAt(old(observations), s))
    {
      ghost var before := observations;
      var rows := map o | o in observations && observations[o].location == s :: observations[o];
      var rest := rows.Keys;
      while rest != {}
        invariant rest <= rows.Keys
        invariant MergedRows(before, observations, d, rows.Keys - rest)
        decreases |rest|
      {
        var src :| src in rest;
        assert rows.Keys - rest + {src} == rows.Keys - (rest - {src});
        MergeRow(src, rows[src], d, before, s, rows.Keys - rest);
        rest := rest - {src};
      }
      assert rows.Keys == RowsAt(before, s);
      assert rows.Keys - rest == rows.Keys;
    }

    /** One source row: it moves to the target location, or the target's row of the artifact absorbs it. */
    method MergeRow(src: Id, source: Observation, d: Id, ghost before: map<Id, Observation>, ghost s: Id, ghost done: set<Id>)
      requires s != d && UniqueObservations(before) && SomeRowsAt(before, s, done)
      requires MergedRows(before, observations, d, done)
      requires src in before && before[src] == source && source.location == s && src !in done
      modifies this`observations
      ensures MergedRows(before, observations, d, done + {src})
    {
      CurrentTarget(before, observations, s, d, done, src);
      if dst :| dst in observations && observations[dst].artifact == source.artifact && observations[dst].location == d {
        AbsorbStep(before, observations, s, d, done, src, dst);
        observations := observations[dst := Absorb(source, observations[dst])] - {src};
      } else {
        MoveStep(before, observations, s, d, done, src);
        observations := observations[src := source.(location := d)];
      }
    }

    method MergeLocation(repo: Id, s: Id, d: Id) returns (merged: bool)
      requires Consistent(Db())
      modifies this`repositories, this`locations, this`artifacts, this`observations, this`points
      ensures Consistent(Db())
      ensures merged == old(Mergeable(Db(), repo, s, d))
      ensures if merged then Merge(old(Db()), Db(), repo, s, d) else Db() == old(Db())
    {
      if s == d || !(s in locations && locations[s].repo == repo) || !(d in locations && locations[d].repo == repo) {
        return false;
      }
      MergeArtifactLocations(s, d);
      ghost var obs := observations;
      points := MovedPoints(points, repo, s, d);
      assert Db() == Emptied(old(Db()), repo, s, d, obs);
      EmptiedIsConsistent(old(Db()), repo, s, d, obs);
      DropLocationConsistent(Db(), repo, s);
      DropLocationRows(repo, {s});
      assert MergedVia(old(Db()), Db(), repo, s, d, obs);
      merged := true;
    }

    method PruneLocationsByCount(repo: Id, limit: nat, protectedKeys: set<string>)
      requires Consistent(Db())
      modifies this`locations, this`observations, this`points
      ensures Consistent(Db())
      ensures NewestLocationsKept(old(Db()), Db(), repo, limit, protectedKeys)
      ensures Db() == DeleteLocations(old(Db()), ExcessLocations(old(Db()), repo, limit, protectedKeys))
    {
      PruneKeepsNewestLocations(Db(), repo, limit, protectedKeys);
      var t := Tables(repositories, locations, artifacts, observations, points);
      t := DeleteLocations(t, ExcessLocations(t, repo, limit, protectedKeys));
      locations, observations, points := t.locs, t.obs, t.points;
    }

    method PruneArtifacts(cutoff: Option<int>, count: Option<nat>)
      requires Consistent(Db())
      modifies this`artifacts, this`observations
      ensures Consistent(Db())
      ensures PresentArtifactsKept(old(Db()), Db(), cutoff, count)
      ensures Db() == DeleteArtifacts(old(Db()), Prunable(old(Db()), cutoff, count))
    {
      PruneKeepsPresentArtifacts(Db(), cutoff, count);
      if cutoff.None? && count.None? {
        assert Prunable(Db(), cutoff, count) == {};
        assert DeleteArtifacts(Db(), {}) == Db();
        return;
      }
      var t := Tables(repositories, locations, artifacts, observations, points);
      t := DeleteArtifacts(t, Prunable(t, cutoff, count));
      artifacts, observations := t.arts, t.obs;
    }

    // ----- the daily retention -----

    predicate Enabled() {
      retentionDays.Some? || retentionCount.Some?
    }

    method IsRetentionDue(repo: Id, at: int) returns (due: bool)
      ensures due == Due(retentionDates, repo, at)
    {
      due := Due(retentionDates, repo, at);
    }

    /** Runs if it is enabled and due, unless there are no protected keys to go by. */
    method ApplyRetentionIfDue(repo: Id, at: int, protectedKeys: Option<set<string>>) returns (ran: bool)
      requires Consistent(Db())
      modifies this`locations, this`artifacts, this`observations, this`points, this`retentionDates
      ensures Consistent(Db())
      ensures ran <==> protectedKeys.Some? && (retentionDays.Some? || retentionCount.Some?) && Due(old(retentionDates), repo, at)
      ensures Db() == if ran then Retained(old(Db()), repo, protectedKeys.value, Cutoff(retentionDays, at), retentionCount) else old(Db())
      ensures ran ==> KeptByAgeAndCount(old(Db()), Db(), repo, protectedKeys.value, retentionDays, retentionCount, at)
      ensures retentionDates == if ran then old(retentionDates)[repo := at / DAY] else old(retentionDates)
    {
      if protectedKeys.None? || !Enabled() || !Due(retentionDates, repo, at) {
        return false;
      }
      RetentionByAgeAndCount(Db(), repo, protectedKeys.value, retentionDays, retentionCount, at);
      PruneLocationsByCount(repo, DEFAULT_LOCATION_LIMIT, protectedKeys.value);
      PruneArtifacts(Cutoff(retentionDays, at), retentionCount);
      retentionDates := retentionDates[repo := at / DAY];
      ran := true;
    }

    /** The persisting transaction: the observation, then the retention if it is due. `observed` is the state in between. */
    method PersistRun(backend: string, backendId: string, key: string, display: string, snapshots: seq<Snapshot>, stats: Option<int>,
                      at: int, step: Option<Id>, fullReconcile: bool, protectedKeys: Option<set<string>>)
      returns (repo: Id, loc: Id, ran: bool, ghost observed: Tables)
      requires Consistent(Db()) && KeyBelongsTo(Db(), key, backend, backendId)
      modifies this
      ensures Consistent(Db()) && Consistent(observed)
      ensures LocationOf(observed, loc, repo) && observed.locs[loc].key == key
      ensures observed.repos == old(repositories)[repo := Repository(backend, backendId)]
      ensures repo in old(repositories) ==> observed.repos == old(repositories)
      ensures observed.locs == old(locations)[loc := Location(repo, key, display)]
      ensures forall x :: x in old(locations) && x != loc ==> old(locations)[x].key != key
      ensures ObservationPersisted(old(Db()), observed, repo, loc, SnapshotIds(snapshots), stats, at, step, fullReconcile)
      ensures Dated(old(artifacts), observed.arts, snapshots)
      ensures ran <==> protectedKeys.Some? && Enabled() && Due(old(retentionDates), repo, at)
      ensures Db() == if ran then Retained(observed, repo, protectedKeys.value, Cutoff(retentionDays, at), retentionCount) else observed
      ensures ran ==> KeptByAgeAndCount(observed, Db(), repo, protectedKeys.value, retentionDays, retentionCount, at)
      ensures retentionDates == if ran then old(retentionDates)[repo := at / DAY] else old(retentionDates)
    {
      repo, loc := PersistObservation(backend, backendId, key, display, snapshots, stats, at, step, fullReconcile);
      observed := Db();
      ran := ApplyRetentionIfDue(repo, at, protectedKeys);
    }
  }

  /** Rows of other artifacts processed so far do not hide or fake a target row of this artifact. */
  lemma CurrentTarget(before: map<Id, Observation>, current: map<Id, Observation>, s: Id, d: Id, done: set<Id>, src: Id)
    requires s != d && UniqueObservations(before) && SomeRowsAt(before, s, done) && MergedRows(before, current, d, done)
    requires src in before && before[src].location == s && src !in done
    ensures forall o :: o in current && current[o].artifact == before[src].artifact && current[o].location == d ==>
              o in before && before[o].artifact == before[src].artifact && before[o].location == d && current[o] == before[o]
    ensures forall o :: o in before && before[o].artifact == before[src].artifact && before[o].location == d ==>
              o in current && current[o] == before[o]
  {
    forall o | o in before
      ensures o in current && current[o].artifact == before[src].artifact && current[o].location == d ==>
                before[o].artifact == before[src].artifact && before[o].location == d
      ensures before[o].artifact == before[src].artifact && before[o].location == d ==> o in current && current[o] == before[o]
    {
      assert RowIs(current, o, Becomes(before, d, done, o));
      BecomesAfterOneMore(before, s, d, done, src, o);
    }
  }

  function Missing(obs: map<Id, Observation>, loc: Id, seen: set<Id>): set<Id> {
    set o | o in obs && obs[o].location == loc && obs[o].present && obs[o].artifact !in seen
  }

  function MarkedRows(obs: map<Id, Observation>, ids: set<Id>, at: int, step: Option<Id>): map<Id, Observation> {
    map o | o in obs :: if o in ids then obs[o].(present := false, removedAt := Some(at), removedBy := step) else obs[o]
  }

  lemma MarkOneMore(obs: map<Id, Observation>, ids: set<Id>, o: Id, at: int, step: Option<Id>)
    requires o in obs && o !in ids
    ensures MarkedRows(obs, ids + {o}, at, step) ==
            MarkedRows(obs, ids, at, step)[o := obs[o].(present := false, removedAt := Some(at), removedBy := step)]
  { }

  lemma AllMissingMarked(obs: map<Id, Observation>, loc: Id, seen: set<Id>, at: int, step: Option<Id>)
    ensures MarkedRows(obs, Missing(obs, loc, seen), at, step) == MarkedMissing(obs, loc, seen, at, step)
  { }

  lemma IdsOfOneMore(snapshots: seq<Snapshot>, i: nat)
    requires i < |snapshots|
    ensures SnapshotIds(snapshots[..i + 1]) ==
            SnapshotIds(snapshots[..i]) + (if snapshots[i].backendId.Some? then {snapshots[i].backendId.value} else {})
  {
    assert snapshots[..i + 1] == snapshots[..i] + [snapshots[i]];
  }

  /** `t0` adds the location row to `t`, `t1` the sightings, `t2` the reconciliation, `t3` the stats point. */
  ghost predicate PersistedVia(t: Tables, t0: Tables, t1: Tables, t2: Tables, t3: Tables, repo: Id, loc: Id, ids: set<string>,
                               seen: set<Id>, stats: Option<int>, at: int, step: Option<Id>, full: bool) {
    && t0 == t.(repos := t0.repos, locs := t0.locs)
    && SnapshotsRecorded(t0, t1, repo, loc, ids)
    && (forall a :: a in seen <==> Listed(t1.arts, a, repo, ids))
    && t2 == (if full then t1.(obs := MarkedMissing(t1.obs, loc, seen, at, step)) else t1)
    && t3 == t2.(points := t3.points)
    && (stats.None? ==> t3.points == t.points)
    && (stats.Some? ==> exists p: Id :: p !in t.points && t3.points == t.points[p := StatsPoint(repo, loc, at, stats)])
  }

  ghost predicate ObservationPersisted(t: Tables, t3: Tables, repo: Id, loc: Id, ids: set<string>,
                                       stats: Option<int>, at: int, step: Option<Id>, full: bool) {
    exists t0, t1, t2, seen :: PersistedVia(t, t0, t1, t2, t3, repo, loc, ids, seen, stats, at, step, full)
  }

  /**
   After an observation the listed snapshots are present at the location, and with a full reconcile no others; presence
   at every other location, every earlier artifact and every earlier stats point are as before.
   */
  lemma ObservationIsExact(t: Tables, t3: Tables, repo: Id, loc: Id, ids: set<string>, stats: Option<int>, at: int, step: Option<Id>, full: bool)
    requires ObservationPersisted(t, t3, repo, loc, ids, stats, at, step, full)
    ensures forall a :: PresentAt(t3, a, loc) <==> Listed(t3.arts, a, repo, ids) || (!full && PresentAt(t, a, loc))
    ensures forall a, l :: l != loc ==> (PresentAt(t3, a, l) <==> PresentAt(t, a, l))
    ensures ArtifactsRecorded(t.arts, t3.arts, repo, ids)
    ensures forall p :: p in t.points ==> p in t3.points && t3.points[p] == t.points[p]
  {
    var t0, t1, t2, seen :| PersistedVia(t, t0, t1, t2, t3, repo, loc, ids, seen, stats, at, step, full);
    forall a, l
      ensures PresentAt(t3, a, loc) <==> Listed(t3.arts, a, repo, ids) || (!full && PresentAt(t, a, loc))
      ensures l != loc ==> (PresentAt(t3, a, l) <==> PresentAt(t, a, l))
    {
      SamePresence(t, t0, a, l);
      SamePresence(t, t0, a, loc);
      SamePresence(t3, t2, a, l);
      SamePresence(t3, t2, a, loc);
      RecordedPresence(t0, t1, repo, loc, ids, a, loc);
      RecordedPresence(t0, t1, repo, loc, ids, a, l);
      if full {
        FullReconcileIsExact(t0, t1, t2, repo, loc, ids, seen, at, step, a, l);
      }
    }
  }

  /** Rows of other locations do not change at all. */
  lemma ObservationLeavesOtherRows(t: Tables, t3: Tables, repo: Id, loc: Id, ids: set<string>, stats: Option<int>, at: int, step: Option<Id>, full: bool, o: Id)
    requires ObservationPersisted(t, t3, repo, loc, ids, stats, at, step, full)
    requires o in t.obs && t.obs[o].location != loc
    ensures o in t3.obs && t3.obs[o] == t.obs[o]
  {
    var t0, t1, t2, seen :| PersistedVia(t, t0, t1, t2, t3, repo, loc, ids, seen, stats, at, step, full);
    assert t1.obs[o] == Refreshed(t1.arts, t0.obs[o], repo, loc, ids);
  }

  lemma SamePresence(t: Tables, t': Tables, a: Id, l: Id)
    requires t.obs == t'.obs
    ensures PresentAt(t, a, l) <==> PresentAt(t', a, l)
  { }

  /** No row goes, and none changes its artifact or its location. */
  lemma RowStays(t: Tables, t3: Tables, repo: Id, loc: Id, ids: set<string>, stats: Option<int>, at: int, step: Option<Id>, full: bool, o: Id)
    requires ObservationPersisted(t, t3, repo, loc, ids, stats, at, step, full) && o in t.obs
    ensures o in t3.obs && t3.obs[o].artifact == t.obs[o].artifact && t3.obs[o].location == t.obs[o].location
  {
    var t0, t1, t2, seen :| PersistedVia(t, t0, t1, t2, t3, repo, loc, ids, seen, stats, at, step, full);
    assert t1.obs[o] == Refreshed(t1.arts, t0.obs[o], repo, loc, ids);
  }

  /**
   What becomes of each row of the location: seen, it is present without removal marks; missing in a full reconcile, it bears
   the time and the step of its removal; otherwise it stays as it was. Rows of new sightings are present.
   */
  lemma ObservedRowsAreExact(t: Tables, t3: Tables, repo: Id, loc: Id, ids: set<string>, stats: Option<int>, at: int, step: Option<Id>, full: bool, o: Id)
    requires ObservationPersisted(t, t3, repo, loc, ids, stats, at, step, full)
    requires o in t3.obs && t3.obs[o].location == loc
    ensures var row := t3.obs[o];
            if Listed(t3.arts, row.artifact, repo, ids) then row == Observation(row.artifact, loc, true, None, None)
            else o in t.obs &&
                 row == if full && t.obs[o].present then Observation(t.obs[o].artifact, loc, false, Some(at), step) else t.obs[o]
  {
    var t0, t1, t2, seen :| PersistedVia(t, t0, t1, t2, t3, repo, loc, ids, seen, stats, at, step, full);
    if o in t.obs {
      assert t1.obs[o] == Refreshed(t1.arts, t0.obs[o], repo, loc, ids);
    }
  }
}
