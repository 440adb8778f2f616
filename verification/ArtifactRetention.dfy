/** The daily retention that ends a persisting transaction, and what of the observation it can take away. */
module ArtifactRetention {
  import opened Wrappers
  import opened ArtifactTables
  import opened ArtifactStore
  import Ranking

  const DEFAULT_LOCATION_LIMIT := 10

  /** Times are in seconds. */
  const DAY := 86400

  function Cutoff(days: Option<nat>, at: int): Option<int> {
    if days.Some? then Some(at - days.value * DAY) else None
  }

  /** Once a day for each repository; `dates` has the day of the last time. */
  predicate Due(dates: map<Id, int>, repo: Id, at: int) {
    !(repo in dates && dates[repo] == at / DAY)
  }

  /** A day is a day of 24 hours since the epoch: after a retention the next one is due on another such day. */
  lemma DueOnAnotherDay(dates: map<Id, int>, repo: Id, before: int, at: int)
    ensures repo !in dates ==> Due(dates, repo, at)
    ensures Due(dates[repo := before / DAY], repo, at) <==> at / (24 * 60 * 60) != before / (24 * 60 * 60)
  { }

  /** Both prunings, one after the other. */
  function Retained(t: Tables, repo: Id, keys: set<string>, cutoff: Option<int>, count: Option<nat>): Tables {
    var pruned := DeleteLocations(t, ExcessLocations(t, repo, DEFAULT_LOCATION_LIMIT, keys));
    DeleteArtifacts(pruned, Prunable(pruned, cutoff, count))
  }

  /** A location that stays: of another repository, protected, or among the newest of the others. */
  ghost predicate StaysLocation(t: Tables, l: Id, repo: Id, keys: set<string>) {
    && l in t.locs
    && (t.locs[l].repo != repo || t.locs[l].key in keys ||
        |Ranking.NewerThan(PruneCandidates(t, repo, keys), BY_AGE, l)| < DEFAULT_LOCATION_LIMIT)
  }

  lemma StaysIff(t: Tables, l: Id, repo: Id, keys: set<string>)
    ensures l in DeleteLocations(t, ExcessLocations(t, repo, DEFAULT_LOCATION_LIMIT, keys)).locs <==> StaysLocation(t, l, repo, keys)
  { }

  /** Up to ten unprotected locations of a repository stay, whatever their age. */
  lemma TenLocationsStay(t: Tables, repo: Id, keys: set<string>, l: Id)
    requires l in t.locs && |PruneCandidates(t, repo, keys)| <= 10
    ensures StaysLocation(t, l, repo, keys)
  {
    var candidates := PruneCandidates(t, repo, keys);
    if l in candidates {
      var newer := Ranking.NewerThan(candidates, BY_AGE, l);
      Ranking.SubsetSize(newer, candidates - {l});
    }
  }

  /** Deleting locations leaves presence at the others as it was. */
  lemma PresenceWithoutLocations(t: Tables, ids: set<Id>, a: Id, l: Id)
    ensures PresentAt(DeleteLocations(t, ids), a, l) <==> l !in ids && PresentAt(t, a, l)
  {
    var t' := DeleteLocations(t, ids);
    if l !in ids && PresentAt(t, a, l) {
      var o :| o in t.obs && t.obs[o].artifact == a && t.obs[o].location == l && t.obs[o].present;
      assert o in t'.obs;
    }
  }

  /** Deleting artifacts that are present nowhere leaves all presence as it was. */
  lemma PresenceWithoutArtifacts(t: Tables, ids: set<Id>, a: Id, l: Id)
    requires forall x :: x in ids ==> !PresentAnywhere(t, x)
    ensures PresentAt(DeleteArtifacts(t, ids), a, l) <==> PresentAt(t, a, l)
  {
    var t' := DeleteArtifacts(t, ids);
    if PresentAt(t, a, l) {
      var o :| o in t.obs && t.obs[o].artifact == a && t.obs[o].location == l && t.obs[o].present;
      assert PresentAnywhere(t, a);
      assert o in t'.obs;
    }
  }

  lemma RetainedPresence(t: Tables, repo: Id, keys: set<string>, cutoff: Option<int>, count: Option<nat>, a: Id, l: Id)
    requires ForeignKeys(t)
    ensures PresentAt(Retained(t, repo, keys, cutoff, count), a, l) <==> StaysLocation(t, l, repo, keys) && PresentAt(t, a, l)
  {
    var pruned := PrunedLocations(t, repo, keys, a, l);
    PrunedPresence(pruned, cutoff, count, a, l);
  }

  lemma PrunedPresence(t: Tables, cutoff: Option<int>, count: Option<nat>, a: Id, l: Id)
    ensures PresentAt(DeleteArtifacts(t, Prunable(t, cutoff, count)), a, l) <==> PresentAt(t, a, l)
  {
    PresenceWithoutArtifacts(t, Prunable(t, cutoff, count), a, l);
  }

  lemma PrunedLocations(t: Tables, repo: Id, keys: set<string>, a: Id, l: Id) returns (pruned: Tables)
    requires ForeignKeys(t)
    ensures pruned == DeleteLocations(t, ExcessLocations(t, repo, DEFAULT_LOCATION_LIMIT, keys))
    ensures PresentAt(pruned, a, l) <==> StaysLocation(t, l, repo, keys) && PresentAt(t, a, l)
  {
    var gone := ExcessLocations(t, repo, DEFAULT_LOCATION_LIMIT, keys);
    pruned := DeleteLocations(t, gone);
    PresenceWithoutLocations(t, gone, a, l);
    StaysIff(t, l, repo, keys);
    if PresentAt(t, a, l) {
      var o :| o in t.obs && t.obs[o].artifact == a && t.obs[o].location == l && t.obs[o].present;
      assert l in t.locs;
    }
  }

  /**
   Retention keeps live data: exactly the locations that stay, with their presence and points untouched, and every artifact
   present at one of them; repositories stay, and so does the invariant.
   */
  lemma RetentionKeepsLive(t: Tables, repo: Id, keys: set<string>, cutoff: Option<int>, count: Option<nat>)
    requires Consistent(t)
    ensures var t' := Retained(t, repo, keys, cutoff, count);
            && Consistent(t') && t'.repos == t.repos
            && (forall l :: l in t'.locs <==> StaysLocation(t, l, repo, keys))
            && (forall l :: l in t'.locs ==> t'.locs[l] == t.locs[l])
            && (forall a, l :: PresentAt(t', a, l) <==> StaysLocation(t, l, repo, keys) && PresentAt(t, a, l))
            && t'.points == (map p | p in t.points && StaysLocation(t, t.points[p].location, repo, keys) :: t.points[p])
            && (forall a :: a in t.arts && (exists l :: StaysLocation(t, l, repo, keys) && PresentAt(t, a, l)) ==> a in t'.arts)
            && (forall a :: a in t'.arts ==> a in t.arts && t'.arts[a] == t.arts[a])
  {
    var gone := ExcessLocations(t, repo, DEFAULT_LOCATION_LIMIT, keys);
    var pruned := DeleteLocations(t, gone);
    DeleteLocationsConsistent(t, gone);
    DeleteArtifactsConsistent(pruned, Prunable(pruned, cutoff, count));
    var t' := Retained(t, repo, keys, cutoff, count);
    forall a, l
      ensures PresentAt(t', a, l) <==> StaysLocation(t, l, repo, keys) && PresentAt(t, a, l)
    {
      RetainedPresence(t, repo, keys, cutoff, count, a, l);
    }
    forall l
      ensures l in t'.locs <==> StaysLocation(t, l, repo, keys)
    {
      StaysIff(t, l, repo, keys);
    }
    forall a | a in t.arts && exists l :: StaysLocation(t, l, repo, keys) && PresentAt(t, a, l)
      ensures a in t'.arts
    {
      var l :| StaysLocation(t, l, repo, keys) && PresentAt(t, a, l);
      assert PresentAt(t', a, l);
    }
    RetainedPoints(t, repo, keys, cutoff, count);
  }

  lemma RetainedPoints(t: Tables, repo: Id, keys: set<string>, cutoff: Option<int>, count: Option<nat>)
    requires ForeignKeys(t)
    ensures Retained(t, repo, keys, cutoff, count).points ==
            map p | p in t.points && StaysLocation(t, t.points[p].location, repo, keys) :: t.points[p]
  {
    forall p | p in t.points
      ensures t.points[p].location !in ExcessLocations(t, repo, DEFAULT_LOCATION_LIMIT, keys) <==> StaysLocation(t, t.points[p].location, repo, keys)
    {
      StaysIff(t, t.points[p].location, repo, keys);
    }
  }

  // ----- what a day limit and a count mean -----

  ghost predicate PresentAtKept(t: Tables, a: Id, repo: Id, keys: set<string>) {
    exists l :: StaysLocation(t, l, repo, keys) && PresentAt(t, a, l)
  }

  /** The artifacts that no kept location has any more. */
  ghost function Gone(t: Tables, repo: Id, keys: set<string>): set<Id> {
    set x | x in t.arts && !PresentAtKept(t, x, repo, keys)
  }

  /** Those of them that were created later than `a`, or at the same time under a larger id. */
  ghost function GoneLater(t: Tables, a: Id, repo: Id, keys: set<string>): set<Id>
    requires a in t.arts
  {
    set x | x in Gone(t, repo, keys) &&
            (t.arts[x].createdAt > t.arts[a].createdAt || (t.arts[x].createdAt == t.arts[a].createdAt && x > a))
  }

  /** An artifact that no kept location has any more stays while it is within the age in days and the count, as far as they are set. */
  ghost predicate KeptByAgeAndCount(t: Tables, t': Tables, repo: Id, keys: set<string>, days: Option<nat>, count: Option<nat>, at: int) {
    forall a :: a in t.arts ==>
      (a in t'.arts <==>
         || PresentAtKept(t, a, repo, keys)
         || ((days.Some? ==> at - t.arts[a].createdAt <= days.value * 24 * 60 * 60) &&
             (count.Some? ==> |GoneLater(t, a, repo, keys)| < count.value)))
  }

  lemma PrunedPresenceAnywhere(t: Tables, repo: Id, keys: set<string>, a: Id) returns (pruned: Tables)
    requires ForeignKeys(t)
    ensures pruned == DeleteLocations(t, ExcessLocations(t, repo, DEFAULT_LOCATION_LIMIT, keys)) && pruned.arts == t.arts
    ensures PresentAnywhere(pruned, a) <==> PresentAtKept(t, a, repo, keys)
  {
    pruned := DeleteLocations(t, ExcessLocations(t, repo, DEFAULT_LOCATION_LIMIT, keys));
    forall l
      ensures PresentAt(pruned, a, l) <==> StaysLocation(t, l, repo, keys) && PresentAt(t, a, l)
    {
      var same := PrunedLocations(t, repo, keys, a, l);
    }
    if PresentAnywhere(pruned, a) {
      var o :| o in pruned.obs && pruned.obs[o].artifact == a && pruned.obs[o].present;
      assert PresentAt(pruned, a, pruned.obs[o].location);
    }
  }

  lemma GoneIsRemovable(t: Tables, pruned: Tables, repo: Id, keys: set<string>)
    requires ForeignKeys(t) && pruned == DeleteLocations(t, ExcessLocations(t, repo, DEFAULT_LOCATION_LIMIT, keys))
    ensures Removable(pruned) == Gone(t, repo, keys)
  {
    forall x
      ensures x in Removable(pruned) <==> x in Gone(t, repo, keys)
    {
      var same := PrunedPresenceAnywhere(t, repo, keys, x);
    }
  }

  lemma LaterIsNewer(t: Tables, removable: set<Id>, repo: Id, keys: set<string>, a: Id)
    requires a in t.arts && removable == Gone(t, repo, keys)
    ensures Ranking.NewerThan(removable, ByCreation(t.arts), a) == GoneLater(t, a, repo, keys)
  { }

  lemma WithinMeans(t: Tables, pruned: Tables, repo: Id, keys: set<string>, days: Option<nat>, count: Option<nat>, at: int, a: Id)
    requires a in t.arts && pruned.arts == t.arts && Removable(pruned) == Gone(t, repo, keys)
    ensures WithinRetention(pruned, a, Cutoff(days, at), count) <==>
              && (days.Some? ==> at - t.arts[a].createdAt <= days.value * 24 * 60 * 60)
              && (count.Some? ==> |GoneLater(t, a, repo, keys)| < count.value)
  {
    LaterIsNewer(t, Removable(pruned), repo, keys, a);
  }

  lemma RetentionByAgeAndCount(t: Tables, repo: Id, keys: set<string>, days: Option<nat>, count: Option<nat>, at: int)
    requires Consistent(t)
    ensures KeptByAgeAndCount(t, Retained(t, repo, keys, Cutoff(days, at), count), repo, keys, days, count, at)
  {
    forall a | a in t.arts
      ensures a in Retained(t, repo, keys, Cutoff(days, at), count).arts <==>
                || PresentAtKept(t, a, repo, keys)
                || ((days.Some? ==> at - t.arts[a].createdAt <= days.value * 24 * 60 * 60) &&
                    (count.Some? ==> |GoneLater(t, a, repo, keys)| < count.value))
    {
      var pruned := PrunedPresenceAnywhere(t, repo, keys, a);
      GoneIsRemovable(t, pruned, repo, keys);
      WithinMeans(t, pruned, repo, keys, days, count, at, a);
      NotPrunableIff(pruned, Cutoff(days, at), count, a);
    }
  }

  // ----- a location that is observed and deleted in one transaction -----

  function Xs(n: nat): string {
    if n == 0 then "" else Xs(n - 1) + "x"
  }

  lemma {:induction false} XsLength(n: nat)
    ensures |Xs(n)| == n
  {
    if n > 0 {
      XsLength(n - 1);
    }
  }

  /** One repository at eleven locations, the oldest of which is location 0. */
  function ElevenLocations(): Tables {
    Tables(map[0 := Repository("restic", "r")], map l: nat | l < 11 :: Location(0, Xs(l), Xs(l)), map[], map[], map[])
  }

  lemma ElevenAreConsistent()
    ensures Consistent(ElevenLocations())
  {
    forall l: nat
      ensures |Xs(l)| == l
    {
      XsLength(l);
    }
  }

  lemma {:induction false} RangeSize(s: set<Id>, n: nat)
    requires forall l :: l in s <==> 1 <= l <= n
    ensures |s| == n
  {
    if n == 0 {
      assert s == {};
    } else {
      RangeSize(s - {n}, n - 1);
    }
  }

  lemma TenAreNewer()
    ensures |Ranking.NewerThan(PruneCandidates(ElevenLocations(), 0, {}), BY_AGE, 0)| == 10
  {
    var newer := Ranking.NewerThan(PruneCandidates(ElevenLocations(), 0, {}), BY_AGE, 0);
    forall l
      ensures l in newer <==> 1 <= l <= 10
    { }
    RangeSize(newer, 10);
  }

  /** Unless the active configuration names it, the oldest of eleven locations goes, even if it has just been observed. */
  lemma UnprotectedObservationIsPruned()
    ensures Consistent(ElevenLocations()) && 0 in ElevenLocations().locs
    ensures 0 !in Retained(ElevenLocations(), 0, {}, None, Some(0)).locs
  {
    ElevenAreConsistent();
    TenAreNewer();
    OldestGoes(ElevenLocations());
  }

  lemma OldestGoes(t: Tables)
    requires 0 in t.locs && t.locs[0].repo == 0 && |Ranking.NewerThan(PruneCandidates(t, 0, {}), BY_AGE, 0)| >= DEFAULT_LOCATION_LIMIT
    ensures 0 !in Retained(t, 0, {}, None, Some(0)).locs
  {
    StaysIff(t, 0, 0, {});
  }
}
