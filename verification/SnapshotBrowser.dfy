/** Browsing immutable snapshots: the parsers feed the cache, and a hit is what the plain command would return. */
module SnapshotBrowser {
  import opened Wrappers
  import opened Text
  import opened SnapshotPaths
  import opened SnapshotListing
  import opened SnapshotIndex
  import opened SnapshotStream
  import opened SnapshotSorting
  import opened SnapshotParsers
  import opened BrowseGroups
  import opened BrowseCache

  ghost function PlainListings(archive: Archive): (Key, seq<Entry>) -> bool {
    (key, entries) => PlainListing(archive, key, entries)
  }

  /** The lines a recursive listing prints: those of the node itself and of everything below it. */
  ghost predicate InSubtree(node: Node, base: seq<string>) {
    exists path :: Names(node, path) && base <= path
  }

  ghost function Subtree(nodes: seq<Node>, base: seq<string>): seq<Node> {
    if nodes == [] then []
    else
      var before, node := nodes[..|nodes| - 1], nodes[|nodes| - 1];
      if InSubtree(node, base) then Subtree(before, base) + [node] else Subtree(before, base)
  }

  /** What lies outside the subtree does not matter to the recursive index. */
  lemma {:induction false} SubtreeSuffices(nodes: seq<Node>, base: seq<string>)
    requires ProperPath(base)
    ensures RecursiveIndex(PathOf(base), Subtree(nodes, base)) == RecursiveIndex(PathOf(base), nodes)
  {
    if nodes != [] {
      var before, node := nodes[..|nodes| - 1], nodes[|nodes| - 1];
      SubtreeSuffices(before, base);
      if InSubtree(node, base) {
        IndexSnoc(base, Subtree(before, base), node);
      } else {
        OutsideIgnored(RecursiveIndex(PathOf(base), before), base, node);
      }
    }
  }

  lemma IndexSnoc(base: seq<string>, nodes: seq<Node>, node: Node)
    ensures RecursiveIndex(PathOf(base), nodes + [node]) == AddDescendant(PathOf(base), RecursiveIndex(PathOf(base), nodes), node)
  {
    assert (nodes + [node])[..|nodes|] == nodes;
  }

  lemma OutsideIgnored(dirs: Directories, base: seq<string>, node: Node)
    requires ProperPath(base) && !InSubtree(node, base)
    ensures AddDescendant(PathOf(base), dirs, node) == dirs
  {
    var path := IgnoredOrNamed(node);
    if !Ignored(node) {
      DescendantMeaning(base, dirs, node, path);
    }
  }

  /** In every snapshot a directory's own node comes before its descendants. */
  ghost predicate InOrder(archive: Archive) {
    forall r, s, dir :: OwnNodesFirst(archive(r, s), dir)
  }

  /** Every listing a recursive run yields is the plain listing of its directory. */
  lemma RecursiveListingsArePlain(
      archive: Archive, repository: string, snapshot: string, base: seq<string>, listings: map<string, seq<Entry>>, d: string)
    requires InOrder(archive) && ProperPath(base) && d in listings
    requires AreListings(RecursiveIndex(PathOf(base), Subtree(archive(repository, snapshot), base)), listings)
    ensures PlainListing(archive, Key(repository, snapshot, d), listings[d])
  {
    var nodes := archive(repository, snapshot);
    SubtreeSuffices(nodes, base);
    var dir := RecordedArePaths(base, nodes, d);
    IndexEqualsShallowListing(base, nodes, dir);
    assert IsPlainListing(archive, Key(repository, snapshot, d), dir, listings[d]);
  }

  /**
   Browsing one directory; `chunks` is the output of the plain command, used when the cache has no fresh listing, and
   `meanwhile` what other requests do while it runs. Whether it was used cannot be told from the result.
   */
  method Browse(
      browser: RepositoryBrowser, ghost archive: Archive, decode: Decoder, key: Key, ghost dir: seq<string>, chunks: seq<seq<Byte>>,
      meanwhile: seq<Request>)
      returns (result: Option<seq<Entry>>, ghost looked: int)
    requires browser.Valid() && browser.plain == PlainListings(archive)
    requires ProperPath(dir) && key.path == PathOf(dir)
    requires NodesOf(ItemsOf(decode, Flatten(chunks))) == Shallow(archive(key.repository, key.snapshot), dir)
    requires forall i :: 0 <= i < |meanwhile| ==> Honest(browser.plain, meanwhile[i])
    modifies browser
    ensures browser.Valid() && old(browser.clock) <= looked <= browser.clock
    ensures result.Some? <==> Fresh(old(browser.cache), key, looked) || Accepted(ItemsOf(decode, Flatten(chunks)))
    ensures result.Some? ==> IsListing(DirectChildren(key.path, Shallow(archive(key.repository, key.snapshot), dir)), result.value)
    ensures result.Some? ==> Fresh(browser.cache, key, looked) && browser.cache[key].entries == result.value
  {
    var ok, entries := ParseListing(key.path, decode, chunks);
    if ok {
      assert IsPlainListing(archive, key, dir, entries);
    }
    ghost var missed, left, later;
    result, looked, missed, left, later := browser.CachedResticLs(key, if ok then Some(entries) else None, meanwhile);
    if result.Some? {
      OnlyPlainListing(archive, key, dir, result.value);
    }
  }

  lemma OnlyPlainListing(archive: Archive, key: Key, dir: seq<string>, entries: seq<Entry>)
    requires ProperPath(dir) && key.path == PathOf(dir) && PlainListing(archive, key, entries)
    ensures IsPlainListing(archive, key, dir, entries)
  {
    var other :| ProperPath(other) && IsPlainListing(archive, key, other, entries);
    PathOfInjective(other, dir);
  }

  lemma AllListingsArePlain(
      archive: Archive, repository: string, snapshot: string, base: seq<string>, listings: map<string, seq<Entry>>, plain: (Key, seq<Entry>) -> bool)
    requires InOrder(archive) && ProperPath(base) && plain == PlainListings(archive)
    requires AreListings(RecursiveIndex(PathOf(base), Subtree(archive(repository, snapshot), base)), listings)
    ensures forall d :: d in listings ==> plain(Key(repository, snapshot, d), listings[d])
  {
    forall d | d in listings
      ensures plain(Key(repository, snapshot, d), listings[d])
    {
      RecursiveListingsArePlain(archive, repository, snapshot, base, listings, d);
    }
  }

  lemma GroupIsPlain(cache: Cache, groups: seq<Group>, sequence: nat, clock: int, plain: (Key, seq<Entry>) -> bool, g: Group)
    requires Sound(cache, groups, sequence, clock) && Faithful(plain, cache) && g in groups
    ensures forall key :: key in g.keys ==> key in cache && plain(key, cache[key].entries)
  { }

  method Remember(browser: RepositoryBrowser, repository: string, snapshot: string, root: string, listings: map<string, seq<Entry>>)
      returns (ghost created: Group)
    requires browser.Valid() && forall d :: d in listings ==> browser.plain(Key(repository, snapshot, d), listings[d])
    modifies browser
    ensures browser.Valid() && old(browser.clock) <= created.createdAt
    ensures created.keys == IndexKeys(repository, snapshot, listings.Keys)
    ensures Expired(created, browser.clock) || created in browser.groups
  {
    ghost var at, all, before;
    at, created, all, before := browser.RememberRecursiveBrowseResult(repository, snapshot, root, listings);
    if !Expired(created, browser.clock) {
      NewGroupStays(all, browser.groups, created.id, browser.clock);
    }
  }

  /**
   Prefetching a subtree; `chunks` is the output of the recursive command. On success every directory of the subtree is
   cached with its plain listing, in one group, unless the clock has already passed that group's time.
   */
  method Prefetch(
      browser: RepositoryBrowser, ghost archive: Archive, decode: Decoder, repository: string, snapshot: string, root: string,
      ghost base: seq<string>, chunks: seq<seq<Byte>>)
      returns (ok: bool, ghost created: Group)
    requires browser.Valid() && browser.plain == PlainListings(archive) && InOrder(archive)
    requires ProperPath(base) && root == PathOf(base)
    requires NodesOf(ItemsOf(decode, Flatten(chunks))) == Subtree(archive(repository, snapshot), base)
    modifies browser
    ensures browser.Valid() && (ok <==> Accepted(ItemsOf(decode, Flatten(chunks))))
    ensures !ok ==> browser.cache == old(browser.cache) && browser.groups == old(browser.groups)
    ensures ok ==> created.keys == IndexKeys(repository, snapshot, RecursiveIndex(root, archive(repository, snapshot)).Keys)
    ensures ok ==> old(browser.clock) <= created.createdAt && (Expired(created, browser.clock) || created in browser.groups)
    ensures ok && created in browser.groups ==>
              forall key :: key in created.keys ==> key in browser.cache && PlainListing(archive, key, browser.cache[key].entries)
  {
    var listings;
    ok, listings := ParseRecursively(root, decode, chunks);
    if ok {
      SubtreeSuffices(archive(repository, snapshot), base);
      AllListingsArePlain(archive, repository, snapshot, base, listings, browser.plain);
      created := Remember(browser, repository, snapshot, root, listings);
      if created in browser.groups {
        GroupIsPlain(browser.cache, browser.groups, browser.sequence, browser.clock, browser.plain, created);
      }
    } else {
      created := Group(0, repository, snapshot, root, 0, 0, {});
    }
  }
}
