/** The browse cache's state: cached listings, recursive index groups, and the invariant that ties them. */
module BrowseGroups {
  import opened SnapshotPaths
  import opened SnapshotListing
  import opened SnapshotIndex
  import opened SnapshotSorting

  /** Clock readings are in microseconds. */
  const TTL := 900 * 1000000
  const MAX_BYTES_TOTAL := 200 * 1024 * 1024

  datatype Key = Key(repository: string, snapshot: string, path: string)

  datatype CachedListing = CachedListing(at: int, entries: seq<Entry>)

  datatype Group = Group(id: nat, repository: string, snapshot: string, root: string, createdAt: int, bytes: nat, keys: set<Key>)

  type Cache = map<Key, CachedListing>

  /** The immutable node stream of every snapshot. */
  type Archive = (string, string) -> seq<Node>

  predicate Expired(g: Group, now: int) {
    now - g.createdAt > TTL
  }

  predicate Stale(entry: CachedListing, now: int) {
    now - entry.at > TTL
  }

  /** What a lookup may answer from the cache. */
  predicate Fresh(cache: Cache, key: Key, now: int) {
    key in cache && !Stale(cache[key], now)
  }

  function KeysOf(groups: seq<Group>): set<Key> {
    if groups == [] then {} else groups[0].keys + KeysOf(groups[1..])
  }

  function Total(groups: seq<Group>): nat {
    if groups == [] then 0 else groups[0].bytes + Total(groups[1..])
  }

  function Without(groups: seq<Group>, i: nat): seq<Group>
    requires i < |groups|
  {
    groups[..i] + groups[i + 1..]
  }

  /** Group `i` went, with all its keys. */
  ghost predicate Removed(cache0: Cache, groups0: seq<Group>, cache: Cache, groups: seq<Group>, i: nat)
    requires i < |groups0|
  {
    groups == Without(groups0, i) && cache == cache0 - groups0[i].keys
  }

  /** An expired entry goes, with its group if it has one: that group has expired too. */
  ghost predicate Discarded(cache0: Cache, groups0: seq<Group>, cache: Cache, groups: seq<Group>, key: Key, now: int) {
    if key in KeysOf(groups0) then
      exists i: nat :: i < |groups0| && key in groups0[i].keys && Expired(groups0[i], now) && Removed(cache0, groups0, cache, groups, i)
    else
      groups == groups0 && cache == cache0 - {key}
  }

  ghost predicate Missed(cache0: Cache, groups0: seq<Group>, cache: Cache, groups: seq<Group>, key: Key, now: int) {
    if key in cache0 then Discarded(cache0, groups0, cache, groups, key, now) else cache == cache0 && groups == groups0
  }

  lemma {:induction false} InKeysOf(groups: seq<Group>, key: Key)
    ensures key in KeysOf(groups) <==> exists i :: 0 <= i < |groups| && key in groups[i].keys
  {
    if groups != [] {
      InKeysOf(groups[1..], key);
      forall i | 0 < i < |groups|
        ensures groups[i] == groups[1..][i - 1]
      { }
    }
  }

  lemma {:induction false} KeysOfSnoc(groups: seq<Group>, i: nat)
    requires i < |groups|
    ensures KeysOf(groups[..i + 1]) == KeysOf(groups[..i]) + groups[i].keys
  {
    if i > 0 {
      assert groups[..i + 1][1..] == groups[1..][..i] && groups[..i][1..] == groups[1..][..i - 1];
      KeysOfSnoc(groups[1..], i - 1);
    } else {
      assert groups[..1][1..] == [];
    }
  }

  // ----- the invariant -----

  /** Groups stand in creation order. */
  ghost predicate Ordered(groups: seq<Group>, sequence: nat, clock: int) {
    && (forall i, j :: 0 <= i < j < |groups| ==> groups[i].id < groups[j].id && groups[i].createdAt <= groups[j].createdAt)
    && (forall i :: 0 <= i < |groups| ==> groups[i].id <= sequence && groups[i].createdAt <= clock)
  }

  predicate SameSnapshot(g: Group, repository: string, snapshot: string) {
    g.repository == repository && g.snapshot == snapshot
  }

  /** At most one group per snapshot, and a group's keys are paths of its snapshot. */
  ghost predicate OnePerSnapshot(groups: seq<Group>) {
    && (forall i, j :: 0 <= i < j < |groups| ==> !SameSnapshot(groups[i], groups[j].repository, groups[j].snapshot))
    && (forall i, key :: 0 <= i < |groups| && key in groups[i].keys ==> SameSnapshot(groups[i], key.repository, key.snapshot))
  }

  /** Grouped keys are cached, no earlier than the group was created; nothing is cached in the future. */
  ghost predicate AllCached(cache: Cache, groups: seq<Group>, clock: int) {
    && (forall i, key :: 0 <= i < |groups| && key in groups[i].keys ==> key in cache && cache[key].at >= groups[i].createdAt)
    && (forall key :: key in cache ==> cache[key].at <= clock)
  }

  /** What a listing of that path alone returns. */
  ghost predicate PlainListing(archive: Archive, key: Key, entries: seq<Entry>) {
    exists dir :: ProperPath(dir) && IsPlainListing(archive, key, dir, entries)
  }

  ghost predicate IsPlainListing(archive: Archive, key: Key, dir: seq<string>, entries: seq<Entry>) {
    key.path == PathOf(dir) && IsListing(DirectChildren(key.path, Shallow(archive(key.repository, key.snapshot), dir)), entries)
  }

  /** Every cached listing is one that `plain` allows for its key. */
  ghost predicate Faithful(plain: (Key, seq<Entry>) -> bool, cache: Cache) {
    forall key :: key in cache ==> plain(key, cache[key].entries)
  }

  ghost predicate Sound(cache: Cache, groups: seq<Group>, sequence: nat, clock: int) {
    Ordered(groups, sequence, clock) && OnePerSnapshot(groups) && AllCached(cache, groups, clock)
  }

  /** Requests that may be served while another one waits for its command. */
  datatype Request =
    | Lookup(key: Key)
    | Listed(key: Key, entries: seq<Entry>)
    | Indexed(repository: string, snapshot: string, root: string, listings: map<string, seq<Entry>>)
    | Measured

  /** What a request brings to the cache is what `plain` allows. */
  ghost predicate Honest(plain: (Key, seq<Entry>) -> bool, request: Request) {
    match request
    case Listed(key, entries) => plain(key, entries)
    case Indexed(repository, snapshot, _, listings) => forall d :: d in listings ==> plain(Key(repository, snapshot, d), listings[d])
    case _ => true
  }

  /** There is only one listing a path can have. */
  lemma PlainListingUnique(archive: Archive, key: Key, a: seq<Entry>, b: seq<Entry>)
    requires PlainListing(archive, key, a) && PlainListing(archive, key, b)
    ensures a == b
  {
    var dirA :| ProperPath(dirA) && IsPlainListing(archive, key, dirA, a);
    var dirB :| ProperPath(dirB) && IsPlainListing(archive, key, dirB, b);
    PathOfInjective(dirA, dirB);
    ListingUnique(a, b);
  }

  lemma KeysDisjoint(groups: seq<Group>, i: nat, j: nat)
    requires OnePerSnapshot(groups) && i < |groups| && j < |groups| && i != j
    ensures groups[i].keys !! groups[j].keys
  {
    var lo, hi := if i < j then i else j, if i < j then j else i;
    assert !SameSnapshot(groups[lo], groups[hi].repository, groups[hi].snapshot);
    forall key | key in groups[i].keys
      ensures key !in groups[j].keys
    {
      assert SameSnapshot(groups[i], key.repository, key.snapshot);
    }
  }

  /** An expired entry of a group means that the whole group has expired. */
  lemma StaleMeansExpired(cache: Cache, groups: seq<Group>, clock: int, key: Key, i: nat, now: int)
    requires AllCached(cache, groups, clock) && i < |groups| && key in groups[i].keys && key in cache && Stale(cache[key], now)
    ensures Expired(groups[i], now)
  { }

  lemma IdsDiffer(groups: seq<Group>, sequence: nat, clock: int, i: nat, j: nat)
    requires Ordered(groups, sequence, clock) && i < |groups| && j < |groups| && groups[i].id == groups[j].id
    ensures i == j
  { }

  lemma WithoutAt(groups: seq<Group>, i: nat)
    requires i < |groups|
    ensures |Without(groups, i)| == |groups| - 1
    ensures forall j :: 0 <= j < |groups| - 1 ==> Without(groups, i)[j] == groups[if j < i then j else j + 1]
  { }

  lemma WithoutKeepsOrder(groups: seq<Group>, i: nat, sequence: nat, clock: int)
    requires Ordered(groups, sequence, clock) && OnePerSnapshot(groups) && i < |groups|
    ensures Ordered(Without(groups, i), sequence, clock) && OnePerSnapshot(Without(groups, i))
  {
    WithoutAt(groups, i);
  }

  /** Removing a group with its keys keeps the invariant: no other group loses a key. */
  lemma RemovalKeepsSound(cache: Cache, groups: seq<Group>, sequence: nat, clock: int, i: nat)
    requires Sound(cache, groups, sequence, clock) && i < |groups|
    ensures Sound(cache - groups[i].keys, Without(groups, i), sequence, clock)
    ensures groups[i].keys !! KeysOf(Without(groups, i))
  {
    WithoutKeepsOrder(groups, i, sequence, clock);
    WithoutAt(groups, i);
    var rest := Without(groups, i);
    forall j, key | 0 <= j < |rest| && key in rest[j].keys
      ensures key in cache && cache[key].at >= rest[j].createdAt && key !in groups[i].keys
    {
      var k := if j < i then j else j + 1;
      KeysDisjoint(groups, k, i);
    }
    forall key | key in KeysOf(rest)
      ensures key !in groups[i].keys
    {
      InKeysOf(rest, key);
    }
  }

  lemma DroppingKeepsCached(cache: Cache, groups: seq<Group>, clock: int, gone: set<Key>)
    requires AllCached(cache, groups, clock) && gone !! KeysOf(groups)
    ensures AllCached(cache - gone, groups, clock)
  {
    forall i, key | 0 <= i < |groups| && key in groups[i].keys
      ensures key in cache - gone
    {
      InKeysOf(groups, key);
    }
  }

  /** Dropping entries outside all groups keeps the invariant. */
  lemma DroppingKeepsSound(cache: Cache, groups: seq<Group>, sequence: nat, clock: int, gone: set<Key>)
    requires Sound(cache, groups, sequence, clock) && gone !! KeysOf(groups)
    ensures Sound(cache - gone, groups, sequence, clock)
  {
    DroppingKeepsCached(cache, groups, clock, gone);
  }

  lemma LaterKeepsSound(cache: Cache, groups: seq<Group>, sequence: nat, clock: int, later: int)
    requires Sound(cache, groups, sequence, clock) && clock <= later
    ensures Sound(cache, groups, sequence, later)
  { }

  // ----- expiry and pruning, on the list of groups -----

  /** How many leading groups have expired. */
  function ExpiredCount(groups: seq<Group>, now: int): (k: nat)
    ensures k <= |groups|
  {
    if groups != [] && Expired(groups[0], now) then 1 + ExpiredCount(groups[1..], now) else 0
  }

  function Unexpired(groups: seq<Group>, now: int): seq<Group> {
    groups[ExpiredCount(groups, now)..]
  }

  function StaleOutside(cache: Cache, grouped: set<Key>, now: int): set<Key> {
    set key | key in cache && key !in grouped && Stale(cache[key], now)
  }

  /** The cache after dropping the expired groups with their keys, and then the expired entries outside the others. */
  function Swept(cache: Cache, groups: seq<Group>, now: int): Cache {
    var live := cache - KeysOf(groups[..ExpiredCount(groups, now)]);
    live - StaleOutside(live, KeysOf(Unexpired(groups, now)), now)
  }

  ghost predicate HeldBy(groups: seq<Group>, key: Key, i: nat) {
    i < |groups| && key in groups[i].keys
  }

  /** A listing stays exactly if the group that holds it has not expired, or no group holds it and it has not expired itself. */
  lemma SweptMeaning(cache: Cache, groups: seq<Group>, sequence: nat, clock: int, now: int, key: Key)
    requires Sound(cache, groups, sequence, clock)
    ensures key in Swept(cache, groups, now) <==>
              && key in cache
              && (forall i: nat :: HeldBy(groups, key, i) ==> now - groups[i].createdAt <= 15 * 60 * 1000000)
              && ((forall i: nat :: !HeldBy(groups, key, i)) ==> now - cache[key].at <= 15 * 60 * 1000000)
    ensures key in Swept(cache, groups, now) ==> Swept(cache, groups, now)[key] == cache[key]
  {
    var n := ExpiredCount(groups, now);
    InKeysOf(groups[..n], key);
    InKeysOf(Unexpired(groups, now), key);
    forall i: nat | HeldBy(groups, key, i)
      ensures if i < n then key in KeysOf(groups[..n]) else key in KeysOf(Unexpired(groups, now))
      ensures Expired(groups[i], now) <==> i < n
    {
      ExpiredAreLeading(groups, sequence, clock, now, i);
      assert i < n ==> groups[..n][i] == groups[i];
      assert i >= n ==> Unexpired(groups, now)[i - n] == groups[i];
    }
    HeldInParts(groups, n, key);
    OneHolder(cache, groups, sequence, clock, key, n);
  }

  lemma HeldInParts(groups: seq<Group>, n: nat, key: Key)
    requires n <= |groups|
    ensures key in KeysOf(groups[..n]) ==> exists i: nat :: HeldBy(groups, key, i) && i < n
    ensures key in KeysOf(groups[n..]) ==> exists i: nat :: HeldBy(groups, key, i) && i >= n
  {
    InKeysOf(groups[..n], key);
    InKeysOf(groups[n..], key);
    if key in KeysOf(groups[..n]) {
      var i :| 0 <= i < |groups[..n]| && key in groups[..n][i].keys;
      assert HeldBy(groups, key, i);
    }
    if key in KeysOf(groups[n..]) {
      var i :| 0 <= i < |groups[n..]| && key in groups[n..][i].keys;
      assert HeldBy(groups, key, n + i);
    }
  }

  lemma OneHolder(cache: Cache, groups: seq<Group>, sequence: nat, clock: int, key: Key, n: nat)
    requires Sound(cache, groups, sequence, clock)
    ensures forall i: nat, j: nat :: HeldBy(groups, key, i) && HeldBy(groups, key, j) ==> i == j
  {
    forall i: nat, j: nat | HeldBy(groups, key, i) && HeldBy(groups, key, j)
      ensures i == j
    {
      if i != j {
        KeysDisjoint(groups, i, j);
      }
    }
  }

  lemma FirstRemoved(cache: Cache, all: seq<Group>, i: nat)
    requires i < |all|
    ensures all[i..][0] == all[i] && Without(all[i..], 0) == all[i + 1..]
    ensures cache - KeysOf(all[..i]) - all[i].keys == cache - KeysOf(all[..i + 1])
  {
    KeysOfSnoc(all, i);
  }

  /** In creation order the expired groups are exactly the leading ones. */
  lemma {:induction false} ExpiredAreLeading(groups: seq<Group>, sequence: nat, clock: int, now: int, i: nat)
    requires Ordered(groups, sequence, clock) && i < |groups|
    ensures Expired(groups[i], now) <==> i < ExpiredCount(groups, now)
  {
    if i > 0 {
      ExpiredAreLeading(groups[1..], sequence, clock, now, i - 1);
    }
  }

  function ExpiredIds(groups: seq<Group>, now: int): seq<nat> {
    if groups == [] then []
    else (if Expired(groups[0], now) then [groups[0].id] else []) + ExpiredIds(groups[1..], now)
  }

  lemma {:induction false} ExpiredIdsAreLeading(groups: seq<Group>, sequence: nat, clock: int, now: int)
    requires Ordered(groups, sequence, clock)
    ensures |ExpiredIds(groups, now)| == ExpiredCount(groups, now)
    ensures forall i :: 0 <= i < ExpiredCount(groups, now) ==> ExpiredIds(groups, now)[i] == groups[i].id
  {
    if groups != [] {
      ExpiredIdsAreLeading(groups[1..], sequence, clock, now);
      if !Expired(groups[0], now) {
        NoneExpired(groups, sequence, clock, now);
      }
    }
  }

  lemma NoneExpired(groups: seq<Group>, sequence: nat, clock: int, now: int)
    requires Ordered(groups, sequence, clock) && groups != [] && !Expired(groups[0], now)
    ensures ExpiredCount(groups[1..], now) == 0
  {
    if |groups| > 1 {
      assert groups[1..][0] == groups[1];
    }
  }

  /**
   What pruning leaves of the groups: a suffix, within the budget unless only the kept group is left; each group that is
   gone had expired, or was the oldest one left while the total was above the budget, and was not the kept one.
   */
  ghost predicate Pruned(all: seq<Group>, left: seq<Group>, keep: nat, now: int) {
    exists k: nat :: PrunedTo(all, left, k, keep, now) && (Total(left) <= MAX_BYTES_TOTAL || OnlyKept(left, keep))
  }

  predicate OnlyKept(left: seq<Group>, keep: nat) {
    forall i :: 0 <= i < |left| ==> left[i].id == keep
  }

  ghost predicate PrunedTo(all: seq<Group>, left: seq<Group>, k: nat, keep: nat, now: int) {
    && k <= |all| && left == all[k..]
    && forall i :: 0 <= i < k ==> Expired(all[i], now) || Evicted(all, i, keep)
  }

  predicate Evicted(all: seq<Group>, i: nat, keep: nat)
    requires i < |all|
  {
    Total(all[i..]) > MAX_BYTES_TOTAL && all[i].id != keep
  }

  lemma DropKeepsPruned(all: seq<Group>, k: nat, keep: nat, before: int, now: int, sequence: nat)
    requires k <= |all| && Ordered(all[k..], sequence, now) && before <= now && PrunedTo(all, all[k..], k, keep, before)
    ensures PrunedTo(all, Unexpired(all[k..], now), k + ExpiredCount(all[k..], now), keep, now)
  {
    var more := ExpiredCount(all[k..], now);
    assert Unexpired(all[k..], now) == all[k + more..];
    forall i | k <= i < k + more
      ensures Expired(all[i], now)
    {
      ExpiredAreLeading(all[k..], sequence, now, now, i - k);
      assert all[k..][i - k] == all[i];
    }
  }

  lemma PruningStarts(cache: Cache, groups: seq<Group>, keep: nat, now: int)
    ensures PrunedTo(groups, groups, 0, keep, now) && Survives(cache, groups, cache, now)
  { }

  lemma EvictKeepsPruned(all: seq<Group>, k: nat, keep: nat, now: int)
    requires k < |all| && PrunedTo(all, all[k..], k, keep, now) && Evicted(all, k, keep)
    ensures PrunedTo(all, all[k + 1..], k + 1, keep, now)
  { }

  /** In creation order the oldest group that is not the last one is the first. */
  lemma OldestIsFirst(groups: seq<Group>, sequence: nat, clock: int, keep: nat, i: nat)
    requires Ordered(groups, sequence, clock) && i < |groups| && groups[i].id != keep && KeepIsLast(groups, keep)
    requires forall j :: 0 <= j < i && groups[j].id != keep ==> groups[i].createdAt < groups[j].createdAt
    ensures i == 0
  {
    assert |groups| > 1 ==> groups[0].id != keep;
  }

  predicate KeepIsLast(groups: seq<Group>, keep: nat) {
    forall i :: 0 <= i < |groups| && groups[i].id == keep ==> i == |groups| - 1
  }

  /** Nothing is invented, and a fresh entry outside the groups stays. */
  ghost predicate Survives(before: Cache, all: seq<Group>, after: Cache, now: int) {
    && (forall key :: key in after ==> key in before && after[key] == before[key])
    && (forall key :: key in before && key !in KeysOf(all) && !Stale(before[key], now) ==> key in after)
  }

  lemma SweepSurvives(before: Cache, all: seq<Group>, cache: Cache, k: nat, earlier: int, now: int)
    requires k <= |all| && earlier <= now && Survives(before, all, cache, earlier)
    ensures Survives(before, all, Swept(cache, all[k..], now), now)
  {
    var groups := all[k..];
    forall key | key in before && key !in KeysOf(all) && !Stale(before[key], now)
      ensures key in Swept(cache, groups, now)
    {
      OutsidePart(all, k, |all|, key);
      var c := ExpiredCount(groups, now);
      OutsidePart(groups, 0, c, key);
      OutsidePart(groups, c, |groups|, key);
    }
  }

  lemma OutsidePart(groups: seq<Group>, lo: nat, hi: nat, key: Key)
    requires lo <= hi <= |groups| && key !in KeysOf(groups)
    ensures key !in KeysOf(groups[lo..hi]) && groups[lo..|groups|] == groups[lo..] && groups[0..hi] == groups[..hi]
  {
    InKeysOf(groups, key);
    InKeysOf(groups[lo..hi], key);
  }

  lemma RemovalSurvives(before: Cache, all: seq<Group>, cache: Cache, k: nat, now: int)
    requires k < |all| && Survives(before, all, cache, now)
    ensures Survives(before, all, cache - all[k].keys, now)
  {
    forall key | key in all[k].keys
      ensures key in KeysOf(all)
    {
      InKeysOf(all, key);
    }
  }

  /** Pruning keeps to 200 mebibytes: nothing else makes it remove a group that is not expired, and it ends within them. */
  lemma PrunedToBudget(all: seq<Group>, left: seq<Group>, keep: nat, now: int) returns (k: nat)
    requires Pruned(all, left, keep, now)
    ensures k <= |all| && left == all[k..]
    ensures forall i :: 0 <= i < k && now - all[i].createdAt <= 15 * 60 * 1000000 ==> Total(all[i..]) > 200 * 1024 * 1024 && all[i].id != keep
    ensures Total(left) <= 200 * 1024 * 1024 || forall i :: 0 <= i < |left| ==> left[i].id == keep
  {
    k :| PrunedTo(all, left, k, keep, now) && (Total(left) <= MAX_BYTES_TOTAL || OnlyKept(left, keep));
  }

  /** Pruning keeps the new group unless it has expired in the meantime. */
  lemma NewGroupStays(all: seq<Group>, left: seq<Group>, keep: nat, now: int)
    requires Pruned(all, left, keep, now) && all != [] && all[|all| - 1].id == keep && !Expired(all[|all| - 1], now)
    ensures left != [] && left[|left| - 1] == all[|all| - 1]
  {
    var k: nat :| PrunedTo(all, left, k, keep, now);
    assert !Evicted(all, |all| - 1, keep);
  }

  // ----- storing -----

  ghost predicate NoneOf(groups: seq<Group>, repository: string, snapshot: string) {
    forall i :: 0 <= i < |groups| ==> !SameSnapshot(groups[i], repository, snapshot)
  }

  /** The group at `at`, if any, is the one of the snapshot; there is no other. */
  ghost predicate Replaces(groups: seq<Group>, at: nat, repository: string, snapshot: string) {
    && (at < |groups| ==> SameSnapshot(groups[at], repository, snapshot))
    && (forall i :: 0 <= i < |groups| && i != at ==> !SameSnapshot(groups[i], repository, snapshot))
  }

  function GroupsWithout(groups: seq<Group>, at: nat): seq<Group> {
    if at < |groups| then Without(groups, at) else groups
  }

  ghost function CacheWithout(cache: Cache, groups: seq<Group>, at: nat): Cache {
    if at < |groups| then cache - groups[at].keys else cache
  }

  lemma NoneLeft(groups: seq<Group>, at: nat, repository: string, snapshot: string)
    requires Replaces(groups, at, repository, snapshot)
    ensures NoneOf(GroupsWithout(groups, at), repository, snapshot)
  {
    if at < |groups| {
      WithoutAt(groups, at);
    }
  }

  /** The keys of an index of the snapshot, all cached at `now`. */
  ghost predicate FreshKeys(cache: Cache, keys: set<Key>, repository: string, snapshot: string, now: int) {
    forall key :: key in keys ==> key.repository == repository && key.snapshot == snapshot && key in cache && cache[key].at >= now
  }

  lemma StoringKeepsSound(cache: Cache, groups: seq<Group>, sequence: nat, clock: int, key: Key, entries: seq<Entry>)
    requires Sound(cache, groups, sequence, clock)
    ensures Sound(cache[key := CachedListing(clock, entries)], groups, sequence, clock)
  { }

  /** A new group is the last one, and the only one of its snapshot. */
  lemma AppendKeepsSound(cache: Cache, groups: seq<Group>, sequence: nat, clock: int, g: Group)
    requires Sound(cache, groups, sequence, clock) && g.id == sequence + 1 && g.createdAt == clock
    requires NoneOf(groups, g.repository, g.snapshot) && FreshKeys(cache, g.keys, g.repository, g.snapshot, clock)
    ensures Sound(cache, groups + [g], sequence + 1, clock)
    ensures KeepIsLast(groups + [g], g.id)
  { }

  function IndexKeys(repository: string, snapshot: string, dirs: set<string>): set<Key> {
    set d | d in dirs :: Key(repository, snapshot, d)
  }

  /** The cache after storing the listing of each key's path. */
  function Stored(cache: Cache, keys: set<Key>, listings: map<string, seq<Entry>>, now: int): Cache {
    cache + map key | key in keys && key.path in listings :: CachedListing(now, listings[key.path])
  }

  lemma StoreStep(cache: Cache, keys: set<Key>, listings: map<string, seq<Entry>>, key: Key, now: int)
    requires key.path in listings
    ensures Stored(cache, keys + {key}, listings, now) == Stored(cache, keys, listings, now)[key := CachedListing(now, listings[key.path])]
  { }

  lemma IndexKeysStep(repository: string, snapshot: string, all: set<string>, rest: set<string>, d: string)
    requires d in rest && rest <= all
    ensures IndexKeys(repository, snapshot, all - (rest - {d})) == IndexKeys(repository, snapshot, all - rest) + {Key(repository, snapshot, d)}
  {
    assert all - (rest - {d}) == all - rest + {d};
  }

  lemma StoringAllKeepsSound(
      cache: Cache, groups: seq<Group>, sequence: nat, clock: int, keys: set<Key>, listings: map<string, seq<Entry>>,
      plain: (Key, seq<Entry>) -> bool)
    requires Sound(cache, groups, sequence, clock) && Faithful(plain, cache)
    requires forall key :: key in keys ==> key.path in listings && plain(key, listings[key.path])
    ensures Sound(Stored(cache, keys, listings, clock), groups, sequence, clock)
    ensures Faithful(plain, Stored(cache, keys, listings, clock))
    ensures keys <= Stored(cache, keys, listings, clock).Keys
    ensures forall key :: key in keys ==> Stored(cache, keys, listings, clock)[key].at == clock
  { }

  /** The estimated size of each listing. */
  ghost function Sizes(estimate: seq<Entry> -> nat, listings: map<string, seq<Entry>>): string -> nat {
    d => if d in listings then estimate(listings[d]) else 0
  }

  // ----- sums over a set -----

  ghost function Sum(f: string -> nat, s: set<string>): nat {
    if s == {} then 0
    else
      var x :| x in s;
      f(x) + Sum(f, s - {x})
  }

  lemma {:induction false} SumWithout(f: string -> nat, s: set<string>, x: string)
    requires x in s
    ensures Sum(f, s) == f(x) + Sum(f, s - {x})
    decreases |s|
  {
    var y :| y in s && Sum(f, s) == f(y) + Sum(f, s - {y});
    if x != y {
      SumWithout(f, s - {y}, x);
      SumWithout(f, s - {x}, y);
      assert s - {y} - {x} == s - {x} - {y};
    }
  }
}
