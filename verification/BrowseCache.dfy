/** The process-local browse cache: lookups, single stores and recursive prefetches over one clock. */
module BrowseCache {
  import opened Wrappers
  import opened SnapshotListing
  import opened BrowseGroups

  class RepositoryBrowser {
    var cache: Cache
    var groups: seq<Group>
    var sequence: nat
    var clock: int
    const estimate: seq<Entry> -> nat
    /** What a listing of a path alone may return. */
    ghost const plain: (Key, seq<Entry>) -> bool

    ghost predicate Valid()
      reads this
    {
      Sound(cache, groups, sequence, clock) && Faithful(plain, cache)
    }

    /** A clock reading: any time not before the last one. */
    method Now() returns (now: int)
      requires Valid()
      modifies this`clock
      ensures Valid() && old(clock) <= clock == now
    {
      assert clock <= clock;
      now :| clock <= now;
      LaterKeepsSound(cache, groups, sequence, clock, now);
      clock := now;
    }

    method DropKeys(keys: set<Key>, remaining: set<Key>)
      modifies this`cache
      ensures cache == old(cache) - (keys - remaining)
    {
      var rest := keys;
      while rest != {}
        invariant rest <= keys && cache == old(cache) - (keys - rest - remaining)
        decreases |rest|
      {
        var key :| key in rest;
        rest := rest - {key};
        if key !in remaining {
          cache := cache - {key};
        }
      }
      assert keys - rest - remaining == keys - remaining;
    }

    predicate GroupAt(id: nat, at: nat)
      reads this`groups
    {
      if at < |groups| then groups[at].id == id else forall i :: 0 <= i < |groups| ==> groups[i].id != id
    }

    /** The group goes, and all its keys leave the cache: no other group holds them. */
    method RemoveIndexGroup(id: nat, ghost at: nat)
      requires Valid() && GroupAt(id, at)
      modifies this`cache, this`groups
      ensures Valid()
      ensures if at < |old(groups)| then Removed(old(cache), old(groups), cache, groups, at) else cache == old(cache) && groups == old(groups)
    {
      var i := 0;
      while i < |groups| && groups[i].id != id
        invariant i <= |groups| && forall j :: 0 <= j < i ==> groups[j].id != id
      {
        i := i + 1;
      }
      if i < |groups| {
        IdsDiffer(groups, sequence, clock, i, at);
        RemovalKeepsSound(cache, groups, sequence, clock, i);
        var group := groups[i];
        groups := Without(groups, i);
        var remaining := KeysOf(groups);
        DropKeys(group.keys, remaining);
        assert group.keys - remaining == group.keys;
      }
    }

    /** All expired groups and all expired entries outside the groups are dropped, and nothing else. */
    method DropExpiredEntries()
      requires Valid()
      modifies this`cache, this`groups, this`clock
      ensures Valid() && old(clock) <= clock
      ensures groups == Unexpired(old(groups), clock)
      ensures cache == Swept(old(cache), old(groups), clock)
    {
      var now := Now();
      DropExpiredGroups(now);
      DropStaleOutside(now);
    }

    method DropStaleOutside(now: int)
      requires Valid()
      modifies this`cache
      ensures Valid() && cache == old(cache) - StaleOutside(old(cache), KeysOf(groups), now)
    {
      var expired := StaleOutside(cache, KeysOf(groups), now);
      DroppingKeepsSound(cache, groups, sequence, clock, expired);
      DropKeys(expired, {});
      assert expired - {} == expired;
    }

    method DropExpiredGroups(now: int)
      requires Valid() && now == clock
      modifies this`cache, this`groups
      ensures Valid()
      ensures groups == Unexpired(old(groups), now)
      ensures cache == old(cache) - KeysOf(old(groups)[..ExpiredCount(old(groups), now)])
    {
      var ids := ExpiredIds(groups, now);
      ExpiredIdsAreLeading(groups, sequence, clock, now);
      ghost var all := groups;
      RemoveLeading(ids);
      assert all[..|ids|] == all[..ExpiredCount(all, now)];
    }

    method RemoveLeading(ids: seq<nat>)
      requires Valid() && |ids| <= |groups| && forall i :: 0 <= i < |ids| ==> ids[i] == groups[i].id
      modifies this`cache, this`groups
      ensures Valid() && groups == old(groups)[|ids|..] && cache == old(cache) - KeysOf(old(groups)[..|ids|])
    {
      ghost var cache0, all := cache, groups;
      for i := 0 to |ids|
        invariant Valid() && groups == all[i..] && cache == cache0 - KeysOf(all[..i])
      {
        FirstRemoved(cache0, all, i);
        RemoveIndexGroup(ids[i], 0);
      }
    }

    // ----- lookups and single stores -----

    /** The groups that hold a key: at most one. */
    method IndexGroupIdsFor(key: Key) returns (ids: seq<nat>, ghost at: nat)
      requires Valid()
      ensures |ids| <= 1 && (ids == [] <==> key !in KeysOf(groups))
      ensures ids != [] ==> at < |groups| && key in groups[at].keys && ids[0] == groups[at].id
    {
      ids, at := [], 0;
      InKeysOf(groups, key);
      for i := 0 to |groups|
        invariant |ids| <= 1 && (ids == [] <==> forall j :: 0 <= j < i ==> key !in groups[j].keys)
        invariant ids != [] ==> at < i && key in groups[at].keys && ids[0] == groups[at].id
      {
        if key in groups[i].keys {
          if ids != [] {
            KeysDisjoint(groups, at, i);
          }
          ids, at := ids + [groups[i].id], i;
        }
      }
    }

    /** A hit is at most TTL old and is what a listing of that path alone returns. */
    method GetBrowseCache(key: Key) returns (hit: Option<seq<Entry>>)
      requires Valid()
      modifies this`cache, this`groups, this`clock
      ensures Valid() && old(clock) <= clock
      ensures hit.Some? <==> key in old(cache) && !Stale(old(cache)[key], clock)
      ensures hit.Some? ==> hit.value == old(cache)[key].entries && plain(key, hit.value)
      ensures hit.Some? || key !in old(cache) ==> cache == old(cache) && groups == old(groups)
      ensures hit.None? && key in old(cache) ==> Discarded(old(cache), old(groups), cache, groups, key, clock)
    {
      if key !in cache {
        return None;
      }
      var cached := cache[key];
      var now := Now();
      if Stale(cached, now) {
        DiscardStale(key);
        return None;
      }
      return Some(cached.entries);
    }

    method DiscardStale(key: Key)
      requires Valid() && key in cache && Stale(cache[key], clock)
      modifies this`cache, this`groups
      ensures Valid() && Discarded(old(cache), old(groups), cache, groups, key, clock)
    {
      var ids, at := IndexGroupIdsFor(key);
      if ids == [] {
        DroppingKeepsSound(cache, groups, sequence, clock, {key});
        cache := cache - {key};
      } else {
        StaleMeansExpired(cache, groups, clock, key, at, clock);
        RemoveIndexGroup(ids[0], at);
      }
    }

    method RememberBrowseResult(key: Key, entries: seq<Entry>)
      requires Valid() && plain(key, entries)
      modifies this`cache, this`clock
      ensures Valid() && old(clock) <= clock && cache == old(cache)[key := CachedListing(clock, entries)]
    {
      var now := Now();
      Store(key, entries, now);
    }

    method Store(key: Key, entries: seq<Entry>, now: int)
      requires Valid() && plain(key, entries) && now == clock
      modifies this`cache
      ensures Valid() && cache == old(cache)[key := CachedListing(now, entries)]
    {
      StoringKeepsSound(cache, groups, sequence, clock, key, entries);
      cache := cache[key := CachedListing(now, entries)];
    }

    // ----- the recursive index -----

    method IndexCacheSize() returns (bytes: nat)
      requires Valid()
      modifies this`cache, this`groups, this`clock
      ensures Valid() && old(clock) <= clock
      ensures groups == Unexpired(old(groups), clock) && cache == Swept(old(cache), old(groups), clock)
      ensures bytes == Total(groups)
    {
      DropExpiredEntries();
      bytes := 0;
      assert groups[0..] == groups;
      for i := 0 to |groups|
        invariant bytes + Total(groups[i..]) == Total(groups)
      {
        assert groups[i..][1..] == groups[i + 1..];
        bytes := bytes + groups[i].bytes;
      }
    }

    method OldestOther(keep: nat) returns (found: bool, i: nat)
      ensures !found ==> OnlyKept(groups, keep)
      ensures found ==> i < |groups| && groups[i].id != keep
      ensures found ==> forall j :: 0 <= j < i && groups[j].id != keep ==> groups[i].createdAt < groups[j].createdAt
      ensures found ==> forall j :: 0 <= j < |groups| && groups[j].id != keep ==> groups[i].createdAt <= groups[j].createdAt
    {
      found, i := false, 0;
      for j := 0 to |groups|
        invariant !found ==> forall l :: 0 <= l < j ==> groups[l].id == keep
        invariant found ==> i < j && groups[i].id != keep
        invariant found ==> forall l :: 0 <= l < i && groups[l].id != keep ==> groups[i].createdAt < groups[l].createdAt
        invariant found ==> forall l :: 0 <= l < j && groups[l].id != keep ==> groups[i].createdAt <= groups[l].createdAt
      {
        if groups[j].id != keep && (!found || groups[j].createdAt < groups[i].createdAt) {
          found, i := true, j;
        }
      }
    }

    /** Where a pruning run stands: `k` of the groups it started with are gone. */
    ghost predicate Pruning(before: Cache, all: seq<Group>, k: nat, keep: nat)
      reads this`cache, this`groups, this`clock
    {
      && k <= |all| && groups == all[k..] && PrunedTo(all, groups, k, keep, clock) && KeepIsLast(all, keep)
      && Survives(before, all, cache, clock)
    }

    method MeasuredSize(ghost before: Cache, ghost all: seq<Group>, ghost k: nat, keep: nat) returns (bytes: nat, ghost l: nat)
      requires Valid() && Pruning(before, all, k, keep)
      modifies this`cache, this`groups, this`clock
      ensures Valid() && Pruning(before, all, l, keep)
      ensures old(clock) <= clock && k <= l && bytes == Total(groups)
    {
      ghost var earlier, cached := clock, cache;
      bytes := IndexCacheSize();
      DropKeepsPruned(all, k, keep, earlier, clock, sequence);
      SweepSurvives(before, all, cached, k, earlier, clock);
      l := k + ExpiredCount(all[k..], clock);
    }

    method EvictOldest(ghost before: Cache, ghost all: seq<Group>, ghost k: nat, keep: nat) returns (found: bool)
      requires Valid() && Pruning(before, all, k, keep) && Total(groups) > MAX_BYTES_TOTAL
      modifies this`cache, this`groups
      ensures Valid()
      ensures found ==> k < |all| && Pruning(before, all, k + 1, keep)
      ensures !found ==> Pruning(before, all, k, keep) && OnlyKept(groups, keep)
    {
      var i;
      found, i := OldestOther(keep);
      if found {
        OldestIsFirst(groups, sequence, clock, keep, i);
        EvictKeepsPruned(all, k, keep, clock);
        RemovalSurvives(before, all, cache, k, clock);
        assert Without(groups, 0) == all[k + 1..];
        RemoveIndexGroup(groups[i].id, i);
      }
    }

    /** Oldest first, until the total is within the budget or only the new group is left. */
    method PruneIndexGroups(keep: nat)
      requires Valid() && KeepIsLast(groups, keep)
      modifies this`cache, this`groups, this`clock
      ensures Valid() && old(clock) <= clock
      ensures Pruned(old(groups), groups, keep, clock)
      ensures Survives(old(cache), old(groups), cache, clock)
    {
      ghost var before, all := cache, groups;
      PruningStarts(cache, groups, keep, clock);
      var size, k := MeasuredSize(before, all, 0, keep);
      k := PruneLoop(before, all, k, keep);
      assert PrunedTo(all, groups, k, keep, clock);
    }

    method PruneLoop(ghost before: Cache, ghost all: seq<Group>, ghost start: nat, keep: nat) returns (ghost k: nat)
      requires Valid() && Pruning(before, all, start, keep)
      modifies this`cache, this`groups, this`clock
      ensures Valid() && old(clock) <= clock && Pruning(before, all, k, keep)
      ensures Total(groups) <= MAX_BYTES_TOTAL || OnlyKept(groups, keep)
    {
      var size;
      size, k := MeasuredSize(before, all, start, keep);
      while size > MAX_BYTES_TOTAL
        invariant Valid() && Pruning(before, all, k, keep)
        invariant old(clock) <= clock && size == Total(groups)
        decreases |all| - k
      {
        var found := EvictOldest(before, all, k, keep);
        if !found {
          return;
        }
        size, k := MeasuredSize(before, all, k + 1, keep);
      }
    }

    /** The groups of a snapshot: at most one. */
    method ReplacedIds(repository: string, snapshot: string) returns (ids: seq<nat>, ghost at: nat)
      requires Valid()
      ensures |ids| <= 1
      ensures if ids == [] then at == |groups| else at < |groups| && SameSnapshot(groups[at], repository, snapshot) && ids[0] == groups[at].id
      ensures forall i :: 0 <= i < |groups| && i != at ==> !SameSnapshot(groups[i], repository, snapshot)
    {
      ids, at := [], |groups|;
      for i := 0 to |groups|
        invariant |ids| <= 1
        invariant if ids == [] then at == |groups| else at < i && SameSnapshot(groups[at], repository, snapshot) && ids[0] == groups[at].id
        invariant forall j :: 0 <= j < i && j != at ==> !SameSnapshot(groups[j], repository, snapshot)
      {
        if SameSnapshot(groups[i], repository, snapshot) {
          ids, at := ids + [groups[i].id], i;
        }
      }
    }

    /** No group of the snapshot is left; every other group stays. */
    method RemoveReplacedIndexGroups(repository: string, snapshot: string) returns (ghost at: nat)
      requires Valid()
      modifies this`cache, this`groups
      ensures Valid()
      ensures Replaces(old(groups), at, repository, snapshot) && NoneOf(groups, repository, snapshot)
      ensures groups == GroupsWithout(old(groups), at) && cache == CacheWithout(old(cache), old(groups), at)
    {
      var ids;
      ids, at := ReplacedIds(repository, snapshot);
      NoneLeft(groups, at, repository, snapshot);
      if ids != [] {
        RemoveIndexGroup(ids[0], at);
      }
    }

    /** Every directory of the index is cached; the keys and the estimated size are those of the new group. */
    method StoreListings(repository: string, snapshot: string, listings: map<string, seq<Entry>>, now: int)
        returns (keys: set<Key>, bytes: nat)
      modifies this`cache
      ensures keys == IndexKeys(repository, snapshot, listings.Keys)
      ensures cache == Stored(old(cache), keys, listings, now)
      ensures bytes == Sum(Sizes(estimate, listings), listings.Keys)
    {
      keys, bytes := {}, 0;
      ghost var before, sizes := cache, Sizes(estimate, listings);
      var rest := listings.Keys;
      while rest != {}
        invariant rest <= listings.Keys
        invariant keys == IndexKeys(repository, snapshot, listings.Keys - rest)
        invariant cache == Stored(before, keys, listings, now)
        invariant bytes + Sum(sizes, rest) == Sum(sizes, listings.Keys)
        decreases |rest|
      {
        var d :| d in rest;
        SumWithout(sizes, rest, d);
        IndexKeysStep(repository, snapshot, listings.Keys, rest, d);
        var key := Key(repository, snapshot, d);
        StoreStep(before, keys, listings, key, now);
        cache := cache[key := CachedListing(now, listings[d])];
        keys := keys + {key};
        bytes := bytes + estimate(listings[d]);
        rest := rest - {d};
      }
    }

    /** The listings of a new index are stored, and nothing in the cache is a lie. */
    method StoreIndex(repository: string, snapshot: string, listings: map<string, seq<Entry>>) returns (now: int, keys: set<Key>, bytes: nat)
      requires Valid() && forall d :: d in listings ==> plain(Key(repository, snapshot, d), listings[d])
      modifies this`cache, this`clock
      ensures Valid() && old(clock) <= clock == now
      ensures keys == IndexKeys(repository, snapshot, listings.Keys)
      ensures FreshKeys(cache, keys, repository, snapshot, now)
      ensures cache == Stored(old(cache), keys, listings, now)
      ensures bytes == Sum(Sizes(estimate, listings), listings.Keys)
    {
      now := Now();
      StoringAllKeepsSound(cache, groups, sequence, clock, IndexKeys(repository, snapshot, listings.Keys), listings, plain);
      keys, bytes := StoreListings(repository, snapshot, listings, now);
    }

    method AppendIndex(repository: string, snapshot: string, root: string, listings: map<string, seq<Entry>>) returns (group: Group)
      requires Valid() && NoneOf(groups, repository, snapshot)
      requires forall d :: d in listings ==> plain(Key(repository, snapshot, d), listings[d])
      modifies this`cache, this`groups, this`clock, this`sequence
      ensures Valid() && old(clock) <= clock && sequence == old(sequence) + 1
      ensures group == IndexGroup(sequence, repository, snapshot, root, listings, clock)
      ensures groups == old(groups) + [group] && KeepIsLast(groups, group.id)
      ensures cache == Stored(old(cache), group.keys, listings, clock)
    {
      var now, keys, bytes := StoreIndex(repository, snapshot, listings);
      assert bytes == Sum(Sizes(estimate, listings), listings.Keys);
      group := NewGroup(repository, snapshot, root, now, keys, bytes);
    }

    /** The index of a snapshot replaces the old one. */
    method AddIndex(repository: string, snapshot: string, root: string, listings: map<string, seq<Entry>>) returns (id: nat, ghost at: nat, ghost created: Group)
      requires Valid() && forall d :: d in listings ==> plain(Key(repository, snapshot, d), listings[d])
      modifies this
      ensures Valid() && old(clock) <= created.createdAt == clock && sequence == old(sequence) + 1
      ensures created == IndexGroup(sequence, repository, snapshot, root, listings, clock) && id == created.id
      ensures Replaces(old(groups), at, repository, snapshot)
      ensures groups == GroupsWithout(old(groups), at) + [created] && KeepIsLast(groups, id)
      ensures cache == Stored(CacheWithout(old(cache), old(groups), at), created.keys, listings, clock)
    {
      at := RemoveReplacedIndexGroups(repository, snapshot);
      var group := AppendIndex(repository, snapshot, root, listings);
      id, created := group.id, group;
    }

    ghost function IndexGroup(id: nat, repository: string, snapshot: string, root: string, listings: map<string, seq<Entry>>, now: int): Group {
      Group(id, repository, snapshot, root, now, Sum(Sizes(estimate, listings), listings.Keys), IndexKeys(repository, snapshot, listings.Keys))
    }

    /**
     One group for the whole index replaces the snapshot's old one; then the groups are pruned. `all` and `before` are
     the groups and the cache in between.
     */
    method RememberRecursiveBrowseResult(repository: string, snapshot: string, root: string, listings: map<string, seq<Entry>>)
        returns (ghost at: nat, ghost created: Group, ghost all: seq<Group>, ghost before: Cache)
      requires Valid() && forall d :: d in listings ==> plain(Key(repository, snapshot, d), listings[d])
      modifies this
      ensures Valid() && old(clock) <= created.createdAt <= clock
      ensures created == IndexGroup(old(sequence) + 1, repository, snapshot, root, listings, created.createdAt)
      ensures Replaces(old(groups), at, repository, snapshot) && all == GroupsWithout(old(groups), at) + [created]
      ensures before == Stored(CacheWithout(old(cache), old(groups), at), created.keys, listings, created.createdAt)
      ensures Pruned(all, groups, created.id, clock) && Survives(before, all, cache, clock)
    {
      var id;
      id, at, created := AddIndex(repository, snapshot, root, listings);
      all, before := groups, cache;
      PruneIndexGroups(id);
    }

    method NewGroup(repository: string, snapshot: string, root: string, now: int, keys: set<Key>, bytes: nat) returns (group: Group)
      requires Valid() && now == clock
      requires NoneOf(groups, repository, snapshot) && FreshKeys(cache, keys, repository, snapshot, now)
      modifies this`groups, this`sequence
      ensures Valid() && groups == old(groups) + [group] && KeepIsLast(groups, group.id) && sequence == old(sequence) + 1
      ensures group == Group(sequence, repository, snapshot, root, now, bytes, keys)
    {
      group := Group(sequence + 1, repository, snapshot, root, now, bytes, keys);
      AppendKeepsSound(cache, groups, sequence, clock, group);
      sequence := sequence + 1;
      groups := groups + [group];
    }

    /** Another request, or its second half once its command has returned. */
    method Serve(request: Request)
      requires Valid() && Honest(plain, request)
      modifies this
      ensures Valid() && old(clock) <= clock
    {
      match request
      case Lookup(key) => var hit := GetBrowseCache(key);
      case Listed(key, entries) => RememberBrowseResult(key, entries);
      case Indexed(repository, snapshot, root, listings) =>
        ghost var at, created, all, before := RememberRecursiveBrowseResult(repository, snapshot, root, listings);
      case Measured => var bytes := IndexCacheSize();
    }

    method ServeAll(requests: seq<Request>)
      requires Valid() && forall i :: 0 <= i < |requests| ==> Honest(plain, requests[i])
      modifies this
      ensures Valid() && old(clock) <= clock
      ensures requests == [] ==> cache == old(cache) && groups == old(groups)
    {
      for i := 0 to |requests|
        invariant Valid() && old(clock) <= clock
        invariant i == 0 ==> cache == old(cache) && groups == old(groups)
      {
        Serve(requests[i]);
      }
    }

    /**
     A lookup falls back on the plain command, whose result is then remembered; `fetched` is what it returns, and `meanwhile`
     the other requests served while it ran. `looked` is the time of the lookup, `missed` and `left` are the cache and the groups
     after it, and `later` is the cache when the command had returned.
     */
    method CachedResticLs(key: Key, fetched: Option<seq<Entry>>, meanwhile: seq<Request>)
        returns (result: Option<seq<Entry>>, ghost looked: int, ghost missed: Cache, ghost left: seq<Group>, ghost later: Cache)
      requires Valid() && (fetched.Some? ==> plain(key, fetched.value))
      requires forall i :: 0 <= i < |meanwhile| ==> Honest(plain, meanwhile[i])
      modifies this
      ensures Valid() && old(clock) <= looked <= clock
      ensures result == if Fresh(old(cache), key, looked) then Some(old(cache)[key].entries) else fetched
      ensures result.Some? ==> plain(key, result.value)
      ensures Fresh(old(cache), key, looked) ==> cache == old(cache) && groups == old(groups)
      ensures !Fresh(old(cache), key, looked) ==> Missed(old(cache), old(groups), missed, left, key, looked)
      ensures !Fresh(old(cache), key, looked) && meanwhile == [] ==> later == missed && groups == left
      ensures !Fresh(old(cache), key, looked) ==> cache == if fetched.Some? then later[key := CachedListing(clock, fetched.value)] else later
    {
      result := GetBrowseCache(key);
      looked, missed, left, later := clock, cache, groups, cache;
      if result.None? {
        ServeAll(meanwhile);
        later, result := cache, fetched;
        if fetched.Some? {
          RememberBrowseResult(key, fetched.value);
        }
      }
    }

    constructor (estimate: seq<Entry> -> nat, now: int, ghost plain: (Key, seq<Entry>) -> bool)
      ensures Valid() && cache == map[] && groups == [] && clock == now && this.plain == plain && this.estimate == estimate
    {
      cache, groups, sequence, clock := map[], [], 0, now;
      this.estimate, this.plain := estimate, plain;
    }
  }
}
