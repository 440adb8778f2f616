/** Merging one location into another, row by row, and what the merge preserves. */
module ArtifactMerge {
  import opened Wrappers
  import opened ArtifactTables

  predicate HasRow(obs: map<Id, Observation>, a: Id, l: Id) {
    exists o :: o in obs && obs[o].artifact == a && obs[o].location == l
  }

  function LaterRemoval(x: Option<int>, y: Option<int>): Option<int> {
    if x.None? then y else if y.None? then x else if x.value < y.value then y else x
  }

  /** The target row after it absorbed the source row of the same artifact. */
  function Absorb(source: Observation, target: Observation): Observation {
    if source.present || target.present then
      target.(present := true, removedAt := None, removedBy := None)
    else
      target.(present := false,
              removedAt := LaterRemoval(source.removedAt, target.removedAt),
              removedBy := if target.removedBy.Some? then target.removedBy else source.removedBy)
  }

  ghost predicate SourceRow(obs: map<Id, Observation>, done: set<Id>, a: Id, x: Id) {
    x in done && x in obs && obs[x].artifact == a
  }

  /** What row `o` has become once the source rows in `done` have been processed; None when it was deleted. */
  ghost function Becomes(before: map<Id, Observation>, d: Id, done: set<Id>, o: Id): Option<Observation>
    requires o in before
  {
    if o in done then
      if HasRow(before, before[o].artifact, d) then None else Some(before[o].(location := d))
    else if before[o].location == d && exists x :: SourceRow(before, done, before[o].artifact, x) then
      var x :| SourceRow(before, done, before[o].artifact, x);
      Some(Absorb(before[x], before[o]))
    else
      Some(before[o])
  }

  ghost predicate RowIs(after: map<Id, Observation>, o: Id, row: Option<Observation>) {
    if row.Some? then o in after && after[o] == row.value else o !in after
  }

  ghost predicate MergedRows(before: map<Id, Observation>, after: map<Id, Observation>, d: Id, done: set<Id>) {
    && after.Keys <= before.Keys
    && forall o :: o in before ==> RowIs(after, o, Becomes(before, d, done, o))
  }

  ghost predicate SomeRowsAt(obs: map<Id, Observation>, l: Id, ids: set<Id>) {
    forall o :: o in ids ==> o in obs && obs[o].location == l
  }

  function RowsAt(obs: map<Id, Observation>, l: Id): set<Id> {
    set o | o in obs && obs[o].location == l
  }

  /** The target row absorbs the one source row of its artifact. */
  lemma BecomesAbsorbed(before: map<Id, Observation>, s: Id, d: Id, done: set<Id>, o: Id, x: Id)
    requires UniqueObservations(before) && SomeRowsAt(before, s, done) && s != d
    requires o in before && before[o].location == d && SourceRow(before, done, before[o].artifact, x)
    ensures Becomes(before, d, done, o) == Some(Absorb(before[x], before[o]))
  {
    forall y | SourceRow(before, done, before[o].artifact, y) ensures y == x { }
  }

  lemma BecomesKeepsIdentity(before: map<Id, Observation>, d: Id, done: set<Id>, o: Id)
    requires o in before && PresenceMarks(before)
    ensures Becomes(before, d, done, o).Some? ==>
              var row := Becomes(before, d, done, o).value;
              && row.artifact == before[o].artifact
              && row.location == (if o in done then d else before[o].location)
              && (row.present <==> row.removedAt.None?)
  { }

  lemma MergedRowsKeepMarks(before: map<Id, Observation>, after: map<Id, Observation>, s: Id, d: Id, done: set<Id>)
    requires s != d && UniqueObservations(before) && PresenceMarks(before) && SomeRowsAt(before, s, done)
    requires MergedRows(before, after, d, done)
    ensures UniqueObservations(after) && PresenceMarks(after)
    ensures forall o :: o in after ==> o in before && after[o].artifact == before[o].artifact &&
                                       after[o].location == (if o in done then d else before[o].location)
  {
    forall o | o in after
      ensures after[o].artifact == before[o].artifact &&
              after[o].location == (if o in done then d else before[o].location) &&
              (after[o].present <==> after[o].removedAt.None?)
    {
      assert RowIs(after, o, Becomes(before, d, done, o));
      BecomesKeepsIdentity(before, d, done, o);
    }
    forall o, o' | o in after && o' in after && after[o].artifact == after[o'].artifact && after[o].location == after[o'].location
      ensures o == o'
    {
      assert RowIs(after, o, Becomes(before, d, done, o)) && RowIs(after, o', Becomes(before, d, done, o'));
      if o in done && o' !in done {
        assert HasRow(before, before[o].artifact, d);
      } else if o' in done && o !in done {
        assert HasRow(before, before[o'].artifact, d);
      }
    }
  }

  /** One pass of the row loop changes what the source row and the target row of its artifact become, and no other row. */
  lemma BecomesAfterOneMore(before: map<Id, Observation>, s: Id, d: Id, done: set<Id>, src: Id, o: Id)
    requires s != d && UniqueObservations(before) && SomeRowsAt(before, s, done)
    requires src in before && before[src].location == s && src !in done && o in before
    ensures Becomes(before, d, done + {src}, o) ==
              if o == src then
                if HasRow(before, before[src].artifact, d) then None else Some(before[src].(location := d))
              else if before[o].artifact == before[src].artifact && before[o].location == d then
                Some(Absorb(before[src], before[o]))
              else
                Becomes(before, d, done, o)
    ensures before[o].artifact == before[src].artifact && before[o].location == d ==> Becomes(before, d, done, o) == Some(before[o])
  {
    var all := done + {src};
    if before[o].artifact == before[src].artifact && before[o].location == d {
      assert SourceRow(before, all, before[o].artifact, src);
      BecomesAbsorbed(before, s, d, all, o, src);
      forall x ensures !SourceRow(before, done, before[o].artifact, x) { }
    } else if o != src && before[o].location == d {
      if x :| SourceRow(before, done, before[o].artifact, x) {
        assert SourceRow(before, all, before[o].artifact, x);
        BecomesAbsorbed(before, s, d, done, o, x);
        BecomesAbsorbed(before, s, d, all, o, x);
      } else {
        forall x ensures !SourceRow(before, all, before[o].artifact, x) {
          assert !SourceRow(before, done, before[o].artifact, x);
        }
      }
    }
  }

  lemma MoveStep(before: map<Id, Observation>, current: map<Id, Observation>, s: Id, d: Id, done: set<Id>, src: Id)
    requires s != d && UniqueObservations(before) && SomeRowsAt(before, s, done) && MergedRows(before, current, d, done)
    requires src in before && before[src].location == s && src !in done
    requires !HasRow(before, before[src].artifact, d)
    ensures MergedRows(before, current[src := before[src].(location := d)], d, done + {src})
  {
    forall o | o in before
      ensures RowIs(current[src := before[src].(location := d)], o, Becomes(before, d, done + {src}, o))
    {
      assert RowIs(current, o, Becomes(before, d, done, o));
      BecomesAfterOneMore(before, s, d, done, src, o);
    }
  }

  lemma AbsorbStep(before: map<Id, Observation>, current: map<Id, Observation>, s: Id, d: Id, done: set<Id>, src: Id, dst: Id)
    requires s != d && UniqueObservations(before) && SomeRowsAt(before, s, done) && MergedRows(before, current, d, done)
    requires src in before && before[src].location == s && src !in done
    requires dst in before && before[dst].artifact == before[src].artifact && before[dst].location == d
    ensures dst in current && current[dst] == before[dst]
    ensures MergedRows(before, current[dst := Absorb(before[src], before[dst])] - {src}, d, done + {src})
  {
    BecomesAfterOneMore(before, s, d, done, src, dst);
    assert RowIs(current, dst, Becomes(before, d, done, dst));
    var next := current[dst := Absorb(before[src], before[dst])] - {src};
    forall o | o in before
      ensures RowIs(next, o, Becomes(before, d, done + {src}, o))
    {
      assert RowIs(current, o, Becomes(before, d, done, o));
      BecomesAfterOneMore(before, s, d, done, src, o);
    }
  }

  /** The points of the source location, moved to the target. */
  function MovedPoints(points: map<Id, StatsPoint>, repo: Id, s: Id, d: Id): map<Id, StatsPoint> {
    map p | p in points ::
      if points[p].repo == repo && points[p].location == s then points[p].(location := d) else points[p]
  }

  /** `t'` is what `merge_location` makes of `t`: the row loop, the moved points, and the delete of the emptied location. */
  ghost predicate Merge(t: Tables, t': Tables, repo: Id, s: Id, d: Id) {
    exists obs :: MergedVia(t, t', repo, s, d, obs)
  }

  ghost predicate MergedVia(t: Tables, t': Tables, repo: Id, s: Id, d: Id, obs: map<Id, Observation>) {
    && MergedRows(t.obs, obs, d, RowsAt(t.obs, s))
    && t' == DropLocation(Emptied(t, repo, s, d, obs), repo, s)
  }

  /** The tables after the row loop and the update of the points, before the source location is deleted. */
  function Emptied(t: Tables, repo: Id, s: Id, d: Id, obs: map<Id, Observation>): Tables {
    t.(obs := obs, points := MovedPoints(t.points, repo, s, d))
  }

  ghost predicate Mergeable(t: Tables, repo: Id, s: Id, d: Id) {
    s != d && LocationOf(t, s, repo) && LocationOf(t, d, repo)
  }

  lemma EmptiedIsConsistent(t: Tables, repo: Id, s: Id, d: Id, obs: map<Id, Observation>)
    requires Consistent(t) && Mergeable(t, repo, s, d) && MergedRows(t.obs, obs, d, RowsAt(t.obs, s))
    ensures Consistent(Emptied(t, repo, s, d, obs))
  {
    MergedRowsKeepMarks(t.obs, obs, s, d, RowsAt(t.obs, s));
    RetargetedIsConsistent(t, Emptied(t, repo, s, d, obs), repo, s, d);
  }

  /** Rows that only changed the source location for the target, a location of the same repository, keep their joins. */
  lemma RetargetedIsConsistent(t: Tables, t1: Tables, repo: Id, s: Id, d: Id)
    requires Consistent(t) && LocationOf(t, s, repo) && LocationOf(t, d, repo)
    requires t1 == t.(obs := t1.obs, points := MovedPoints(t.points, repo, s, d))
    requires UniqueObservations(t1.obs) && PresenceMarks(t1.obs)
    requires forall o :: o in t1.obs ==> o in t.obs && t1.obs[o].artifact == t.obs[o].artifact &&
                                         t1.obs[o].location == (if o in RowsAt(t.obs, s) then d else t.obs[o].location)
    ensures Consistent(t1)
  {
    forall o | o in t1.obs
      ensures t1.obs[o].artifact in t1.arts && t1.obs[o].location in t1.locs &&
              t1.arts[t1.obs[o].artifact].repo == t1.locs[t1.obs[o].location].repo
    {
      assert o in t.obs && t.arts[t.obs[o].artifact].repo == t.locs[t.obs[o].location].repo;
    }
    forall p | p in t1.points
      ensures t1.points[p].location in t1.locs && t1.points[p].repo == t1.locs[t1.points[p].location].repo
    {
      assert p in t.points && t.points[p].repo == t.locs[t.points[p].location].repo;
    }
  }

  /** After the row loop and the update of the points nothing refers to the source location any more. */
  lemma NothingLeftAtSource(t: Tables, repo: Id, s: Id, d: Id, obs: map<Id, Observation>)
    requires Consistent(t) && Mergeable(t, repo, s, d) && MergedRows(t.obs, obs, d, RowsAt(t.obs, s))
    ensures forall o :: o in obs ==> obs[o].location != s
    ensures forall p :: p in t.points ==> MovedPoints(t.points, repo, s, d)[p].location != s
  {
    MergedRowsKeepMarks(t.obs, obs, s, d, RowsAt(t.obs, s));
  }

  lemma MergedPresence(t: Tables, t1: Tables, s: Id, d: Id, a: Id, l: Id)
    requires Consistent(t) && s != d && MergedRows(t.obs, t1.obs, d, RowsAt(t.obs, s))
    ensures l != s && l != d ==> (PresentAt(t1, a, l) <==> PresentAt(t, a, l))
    ensures PresentAt(t1, a, d) <==> PresentAt(t, a, s) || PresentAt(t, a, d)
  {
    if l != s && l != d {
      OtherPresenceStays(t, t1, s, d, a, l);
    }
    if PresentAt(t1, a, d) {
      PresenceComesFromEither(t, t1, s, d, a);
    }
    if PresentAt(t, a, d) {
      TargetPresenceStays(t, t1, s, d, a);
    }
    if PresentAt(t, a, s) {
      SourcePresenceMoves(t, t1, s, d, a);
    }
  }

  lemma OtherPresenceStays(t: Tables, t1: Tables, s: Id, d: Id, a: Id, l: Id)
    requires Consistent(t) && s != d && MergedRows(t.obs, t1.obs, d, RowsAt(t.obs, s)) && l != s && l != d
    ensures PresentAt(t1, a, l) <==> PresentAt(t, a, l)
  {
    var done := RowsAt(t.obs, s);
    if PresentAt(t, a, l) {
      var o :| o in t.obs && t.obs[o].artifact == a && t.obs[o].location == l && t.obs[o].present;
      assert RowIs(t1.obs, o, Becomes(t.obs, d, done, o));
    }
    if PresentAt(t1, a, l) {
      var o :| o in t1.obs && t1.obs[o].artifact == a && t1.obs[o].location == l && t1.obs[o].present;
      assert RowIs(t1.obs, o, Becomes(t.obs, d, done, o));
      BecomesKeepsIdentity(t.obs, d, done, o);
    }
  }

  lemma PresenceComesFromEither(t: Tables, t1: Tables, s: Id, d: Id, a: Id)
    requires Consistent(t) && s != d && MergedRows(t.obs, t1.obs, d, RowsAt(t.obs, s)) && PresentAt(t1, a, d)
    ensures PresentAt(t, a, s) || PresentAt(t, a, d)
  {
    var done := RowsAt(t.obs, s);
    var o :| o in t1.obs && t1.obs[o].artifact == a && t1.obs[o].location == d && t1.obs[o].present;
    assert RowIs(t1.obs, o, Becomes(t.obs, d, done, o));
    BecomesKeepsIdentity(t.obs, d, done, o);
    if o !in done {
      if x :| SourceRow(t.obs, done, a, x) {
        BecomesAbsorbed(t.obs, s, d, done, o, x);
      }
    }
  }

  lemma TargetPresenceStays(t: Tables, t1: Tables, s: Id, d: Id, a: Id)
    requires Consistent(t) && s != d && MergedRows(t.obs, t1.obs, d, RowsAt(t.obs, s)) && PresentAt(t, a, d)
    ensures PresentAt(t1, a, d)
  {
    var done := RowsAt(t.obs, s);
    var o :| o in t.obs && t.obs[o].artifact == a && t.obs[o].location == d && t.obs[o].present;
    assert RowIs(t1.obs, o, Becomes(t.obs, d, done, o));
    if x :| SourceRow(t.obs, done, a, x) {
      BecomesAbsorbed(t.obs, s, d, done, o, x);
    }
  }

  lemma SourcePresenceMoves(t: Tables, t1: Tables, s: Id, d: Id, a: Id)
    requires Consistent(t) && s != d && MergedRows(t.obs, t1.obs, d, RowsAt(t.obs, s)) && PresentAt(t, a, s)
    ensures PresentAt(t1, a, d)
  {
    var done := RowsAt(t.obs, s);
    var x :| x in t.obs && t.obs[x].artifact == a && t.obs[x].location == s && t.obs[x].present;
    if HasRow(t.obs, a, d) {
      var o :| o in t.obs && t.obs[o].artifact == a && t.obs[o].location == d;
      assert RowIs(t1.obs, o, Becomes(t.obs, d, done, o));
      assert SourceRow(t.obs, done, a, x);
      BecomesAbsorbed(t.obs, s, d, done, o, x);
    } else {
      assert RowIs(t1.obs, x, Becomes(t.obs, d, done, x));
    }
  }

  /**
   Merging is lossless: presence at the target is the union, presence elsewhere is unchanged, exactly the artifacts
   of the repository that are present nowhere go, and the repository stays.
   */
  lemma MergeIsLossless(t: Tables, t': Tables, repo: Id, s: Id, d: Id, a: Id)
    requires Consistent(t) && Mergeable(t, repo, s, d) && Merge(t, t', repo, s, d)
    ensures Consistent(t') && t'.repos == t.repos && t'.locs == t.locs - {s}
    ensures PresentAt(t', a, d) <==> PresentAt(t, a, s) || PresentAt(t, a, d)
    ensures forall l :: l != s && l != d ==> (PresentAt(t', a, l) <==> PresentAt(t, a, l))
    ensures a in t'.arts <==> a in t.arts && (t.arts[a].repo == repo ==> PresentAnywhere(t, a))
    ensures a in t'.arts ==> t'.arts[a] == t.arts[a]
  {
    var obs :| MergedVia(t, t', repo, s, d, obs);
    var t1 := Emptied(t, repo, s, d, obs);
    EmptiedIsConsistent(t, repo, s, d, obs);
    DropLocationConsistent(t1, repo, s);
    DropLocationLeavesOthers(t1, repo, s);
    DropLocationKeepsLive(t1, repo, s, a);
    assert HasOtherLocation(t1, repo, s);
    forall l
      ensures l != s && l != d ==> (PresentAt(t', a, l) <==> PresentAt(t, a, l))
      ensures l != s && l != d ==> (PresentAt(t1, a, l) <==> PresentAt(t, a, l))
    {
      MergedPresence(t, t1, s, d, a, l);
      DroppedPresence(t1, repo, s, a, l);
    }
    MergedPresence(t, t1, s, d, a, d);
    DroppedPresence(t1, repo, s, a, d);
    PresentAnywhereIsPresentAtSomeLocation(t, a);
    MergedPresenceElsewhere(t, t1, s, d, a);
  }

  /** Present somewhere but the source after the row loop, iff present anywhere before it. */
  lemma MergedPresenceElsewhere(t: Tables, t1: Tables, s: Id, d: Id, a: Id)
    requires s != d && s in t.locs && d in t.locs && t1.locs == t.locs
    requires forall l :: l != s && l != d ==> (PresentAt(t1, a, l) <==> PresentAt(t, a, l))
    requires PresentAt(t1, a, d) <==> PresentAt(t, a, s) || PresentAt(t, a, d)
    ensures PresentElsewhere(t1, a, s) <==> exists l :: l in t.locs && PresentAt(t, a, l)
  {
    if PresentElsewhere(t1, a, s) {
      var l :| l in t1.locs && l != s && PresentAt(t1, a, l);
      assert PresentAt(t, a, l) || PresentAt(t, a, s);
    }
    if l :| l in t.locs && PresentAt(t, a, l) {
      if l == s || l == d {
        assert PresentAt(t1, a, d);
      } else {
        assert PresentAt(t1, a, l);
      }
    }
  }

  lemma DroppedPresence(t: Tables, repo: Id, s: Id, a: Id, l: Id)
    requires Consistent(t) && repo in t.repos && LocationOf(t, s, repo)
    ensures l != s ==> (PresentAt(DropLocation(t, repo, s), a, l) <==> PresentAt(t, a, l))
  {
    var t' := DropLocation(t, repo, s);
    if PresentAt(t', a, l) {
      var o :| o in t'.obs && t'.obs[o].artifact == a && t'.obs[o].location == l && t'.obs[o].present;
      DropLocationLeavesObservations(t, repo, s, o);
    }
    if l != s && PresentAt(t, a, l) {
      var o :| o in t.obs && t.obs[o].artifact == a && t.obs[o].location == l && t.obs[o].present;
      DropLocationLeavesObservations(t, repo, s, o);
    }
  }

  /** Every stats point survives, the source's at the target, and the final delete finds nothing to cascade to. */
  lemma MergeKeepsEveryPoint(t: Tables, t': Tables, repo: Id, s: Id, d: Id)
    requires Consistent(t) && Mergeable(t, repo, s, d) && Merge(t, t', repo, s, d)
    ensures t'.points.Keys == t.points.Keys
    ensures forall p :: p in t.points ==>
              t'.points[p] == if t.points[p].location == s then t.points[p].(location := d) else t.points[p]
  {
    var obs :| MergedVia(t, t', repo, s, d, obs);
    EmptiedPointsStay(t, repo, s, d, obs);
    AllSourcePointsMove(t, repo, s, d);
  }

  lemma EmptiedPointsStay(t: Tables, repo: Id, s: Id, d: Id, obs: map<Id, Observation>)
    requires Consistent(t) && Mergeable(t, repo, s, d) && MergedRows(t.obs, obs, d, RowsAt(t.obs, s))
    ensures DropLocation(Emptied(t, repo, s, d, obs), repo, s).points == MovedPoints(t.points, repo, s, d)
  {
    EmptiedIsConsistent(t, repo, s, d, obs);
    NothingLeftAtSource(t, repo, s, d, obs);
    DropKeepsPoints(Emptied(t, repo, s, d, obs), repo, s);
  }

  lemma AllSourcePointsMove(t: Tables, repo: Id, s: Id, d: Id)
    requires Joined(t) && LocationOf(t, s, repo)
    ensures forall p :: p in t.points ==>
              MovedPoints(t.points, repo, s, d)[p] == if t.points[p].location == s then t.points[p].(location := d) else t.points[p]
  { }

  lemma DropKeepsPoints(t: Tables, repo: Id, s: Id)
    requires Joined(t) && LocationOf(t, s, repo)
    requires forall p :: p in t.points ==> t.points[p].location != s
    ensures DropLocation(t, repo, s).points == t.points
  {
    DropLocationLeavesOthers(t, repo, s);
  }

  /** A row of the artifact at one of the two locations. */
  ghost predicate EitherRow(obs: map<Id, Observation>, s: Id, d: Id, a: Id, x: Id) {
    x in obs && obs[x].artifact == a && (obs[x].location == s || obs[x].location == d)
  }

  /** The row says that the artifact is present, without removal marks, or when it was last removed from either location. */
  ghost predicate TellsRemoval(before: map<Id, Observation>, s: Id, d: Id, row: Observation) {
    if exists x :: EitherRow(before, s, d, row.artifact, x) && before[x].present then
      row.present && row.location == d && row.removedAt.None?
    else
      && !row.present && row.location == d && row.removedAt.Some?
      && (forall x :: EitherRow(before, s, d, row.artifact, x) ==> before[x].removedAt.Some? && before[x].removedAt.value <= row.removedAt.value)
      && (exists x :: EitherRow(before, s, d, row.artifact, x) && before[x].removedAt == row.removedAt)
      && (exists x :: EitherRow(before, s, d, row.artifact, x) && before[x].removedBy == row.removedBy)
      && (forall x :: EitherRow(before, s, d, row.artifact, x) && before[x].location == d && before[x].removedBy.Some? ==> before[x].removedBy == row.removedBy)
      && (row.removedBy.None? ==> forall x :: EitherRow(before, s, d, row.artifact, x) ==> before[x].removedBy.None?)
  }

  lemma MovedTells(before: map<Id, Observation>, s: Id, d: Id, x: Id)
    requires s != d && UniqueObservations(before) && PresenceMarks(before) && x in before && before[x].location == s
    requires !HasRow(before, before[x].artifact, d)
    ensures TellsRemoval(before, s, d, before[x].(location := d))
  {
    var a := before[x].artifact;
    assert EitherRow(before, s, d, a, x);
    forall y | EitherRow(before, s, d, a, y)
      ensures y == x
    { }
  }

  lemma AbsorbedTells(before: map<Id, Observation>, s: Id, d: Id, x: Id, o: Id)
    requires s != d && UniqueObservations(before) && PresenceMarks(before)
    requires x in before && before[x].location == s && o in before && before[o].location == d && before[o].artifact == before[x].artifact
    ensures TellsRemoval(before, s, d, Absorb(before[x], before[o]))
  {
    var a := before[x].artifact;
    assert EitherRow(before, s, d, a, x) && EitherRow(before, s, d, a, o);
    forall y | EitherRow(before, s, d, a, y)
      ensures y == x || y == o
    { }
  }

  lemma UntouchedTells(before: map<Id, Observation>, s: Id, d: Id, o: Id)
    requires s != d && UniqueObservations(before) && PresenceMarks(before) && o in before && before[o].location == d
    requires forall x :: !SourceRow(before, RowsAt(before, s), before[o].artifact, x)
    ensures TellsRemoval(before, s, d, before[o])
  {
    assert EitherRow(before, s, d, before[o].artifact, o);
    forall y | EitherRow(before, s, d, before[o].artifact, y)
      ensures y == o
    {
      if before[y].location == s {
        assert SourceRow(before, RowsAt(before, s), before[o].artifact, y);
      }
    }
  }

  lemma MergedRowTells(before: map<Id, Observation>, after: map<Id, Observation>, s: Id, d: Id, o: Id)
    requires s != d && UniqueObservations(before) && PresenceMarks(before) && MergedRows(before, after, d, RowsAt(before, s))
    requires o in after && after[o].location == d
    ensures TellsRemoval(before, s, d, after[o])
  {
    var done := RowsAt(before, s);
    assert RowIs(after, o, Becomes(before, d, done, o));
    BecomesKeepsIdentity(before, d, done, o);
    if o in done {
      MovedTells(before, s, d, o);
    } else if x :| SourceRow(before, done, before[o].artifact, x) {
      BecomesAbsorbed(before, s, d, done, o, x);
      AbsorbedTells(before, s, d, x, o);
    } else {
      UntouchedTells(before, s, d, o);
    }
  }

  /**
   Every row at the target tells the truth about both locations: present if the artifact was at either, and otherwise removed
   when it was last removed, by a step recorded for it if there is one, the target's own before the source's.
   */
  lemma MergeKeepsRemovals(t: Tables, t': Tables, repo: Id, s: Id, d: Id, o: Id)
    requires Consistent(t) && Mergeable(t, repo, s, d) && Merge(t, t', repo, s, d) && o in t'.obs && t'.obs[o].location == d
    ensures TellsRemoval(t.obs, s, d, t'.obs[o])
  {
    var obs :| MergedVia(t, t', repo, s, d, obs);
    EmptiedIsConsistent(t, repo, s, d, obs);
    DropLocationLeavesObservations(Emptied(t, repo, s, d, obs), repo, s, o);
    MergedRowTells(t.obs, obs, s, d, o);
  }
}
