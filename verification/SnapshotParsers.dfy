/** The two incremental parsers: byte chunks in, a listing or a recursive index out. */
module SnapshotParsers {
  import opened Wrappers
  import opened Text
  import opened SnapshotPaths
  import opened Listing = SnapshotListing
  import opened SnapshotIndex
  import opened SnapshotStream
  import opened SnapshotSorting

  /** How much of the bytes fed so far has been parsed: whole lines, and all but an unfinished one while nothing failed. */
  ghost predicate Buffered(fed: seq<Byte>, parsed: seq<Byte>, lineBuffer: seq<Byte>, failed: bool) {
    && Whole(parsed) && parsed <= fed
    && (!failed ==> fed == parsed + lineBuffer && NEWLINE !in lineBuffer)
  }

  lemma LineAfter(decode: Decoder, parsed: seq<Byte>, line: seq<Byte>)
    requires Whole(parsed) && NEWLINE !in line
    ensures ItemsOf(decode, parsed + (line + [NEWLINE])) == ItemsOf(decode, parsed) + LineItems(decode, line)
  {
    CutAfterNewline(decode, parsed, line + [NEWLINE]);
    ItemsOfLine(decode, line);
  }

  lemma MoveLine(parsed: seq<Byte>, line: seq<Byte>, rest: seq<Byte>) returns (next: seq<Byte>)
    ensures next == parsed + (line + [NEWLINE]) && Whole(next) && next + rest == parsed + (line + [NEWLINE] + rest)
  {
    next := parsed + (line + [NEWLINE]);
    assert next[|next| - 1] == NEWLINE;
  }

  /** Moving one line of the buffer to the parsed part. */
  lemma NextLine(decode: Decoder, parsed: seq<Byte>, line: seq<Byte>, rest: seq<Byte>) returns (next: seq<Byte>)
    requires Whole(parsed) && NEWLINE !in line
    ensures Whole(next) && next + rest == parsed + (line + [NEWLINE] + rest)
    ensures ItemsOf(decode, next) == ItemsOf(decode, parsed) + LineItems(decode, line)
  {
    next := MoveLine(parsed, line, rest);
    assert ItemsOf(decode, next) == ItemsOf(decode, parsed) + LineItems(decode, line) by {
      LineAfter(decode, parsed, line);
    }
  }

  lemma LastLine(decode: Decoder, fed: seq<Byte>, parsed: seq<Byte>, lineBuffer: seq<Byte>)
    requires Buffered(fed, parsed, lineBuffer, false)
    ensures ItemsOf(decode, fed) == ItemsOf(decode, parsed) + LineItems(decode, lineBuffer)
  {
    CutAfterNewline(decode, parsed, lineBuffer);
    ItemsOfLine(decode, lineBuffer);
  }

  /** An unusable item stays in the stream, whatever follows. */
  lemma FailureStays(decode: Decoder, fed: seq<Byte>, parsed: seq<Byte>)
    requires Whole(parsed) && parsed <= fed && Unusable in ItemsOf(decode, parsed)
    ensures Unusable in ItemsOf(decode, fed)
  {
    var rest := fed[|parsed|..];
    assert fed == parsed + rest;
    assert ItemsOf(decode, fed) == ItemsOf(decode, parsed) + ItemsOf(decode, rest) by {
      CutAfterNewline(decode, parsed, rest);
    }
  }

  /** The state after handling `items`; after a failure only that there was one. */
  ghost predicate ListingHolds(base: string, children: Children, saw: bool, failed: bool, items: seq<Item>) {
    && (failed <==> Unusable in items)
    && (!failed ==> children == DirectChildren(base, NodesOf(items)) && (saw <==> items != []))
  }

  ghost predicate IndexHolds(base: string, directories: Directories, saw: bool, failed: bool, items: seq<Item>) {
    && (failed <==> Unusable in items)
    && (!failed ==> directories == RecursiveIndex(base, NodesOf(items)) && (saw <==> items != []))
  }

  /** Parses `restic ls --json` of one directory, keeping only direct children. */
  class ListingParser {
    const base: string
    const decode: Decoder
    var children: Children
    var lineBuffer: seq<Byte>
    var sawListingObject: bool
    var failed: bool
    ghost var fed: seq<Byte>
    ghost var parsed: seq<Byte>

    ghost predicate Valid()
      reads this
    {
      Buffered(fed, parsed, lineBuffer, failed) && ListingHolds(base, children, sawListingObject, failed, ItemsOf(decode, parsed))
    }

    /** While a chunk is being parsed the buffer may still hold whole lines. */
    ghost predicate Pending()
      reads this
    {
      fed == parsed + lineBuffer && Whole(parsed) && ListingHolds(base, children, sawListingObject, failed, ItemsOf(decode, parsed))
    }

    constructor (base: string, decode: Decoder)
      ensures Valid() && fed == [] && this.base == base && this.decode == decode
    {
      this.base, this.decode := base, decode;
      children, lineBuffer, sawListingObject, failed, fed, parsed := map[], [], false, false, [], [];
      new;
      BlankLine(decode);
    }

    method HandleItem(item: Item, ghost items: seq<Item>)
      requires ListingHolds(base, children, sawListingObject, failed, items)
      modifies this`children, this`sawListingObject, this`failed
      ensures ListingHolds(base, children, sawListingObject, failed, items + [item])
    {
      NodesSnoc(items, item);
      match item
      case Header =>
        sawListingObject := true;
      case Listed(node) =>
        sawListingObject := true;
        children := AddDirectChild(base, children, node);
        assert (NodesOf(items) + [node])[..|NodesOf(items)|] == NodesOf(items);
      case Unusable =>
        failed := true;
    }

    method ParseJsonLine(line: seq<Byte>, ghost items: seq<Item>)
      requires ListingHolds(base, children, sawListingObject, failed, items)
      modifies this`children, this`sawListingObject, this`failed
      ensures ListingHolds(base, children, sawListingObject, failed, items + LineItems(decode, line))
    {
      var text := Trim(line, IsBlankByte);
      LineItemsOfTrimmed(decode, line);
      if text == [] {
        assert items + [] == items;
      } else {
        HandleItem(decode(text), items);
      }
    }

    method TakeLine()
      requires Pending() && NEWLINE in lineBuffer
      modifies this`children, this`sawListingObject, this`failed, this`parsed, this`lineBuffer
      ensures Pending() && |lineBuffer| < old(|lineBuffer|)
    {
      var line, rest := SplitLine(lineBuffer);
      ghost var next := NextLine(decode, parsed, line, rest);
      ParseJsonLine(line, ItemsOf(decode, parsed));
      parsed, lineBuffer := next, rest;
    }

    method FeedStdout(chunk: seq<Byte>)
      requires Valid()
      modifies this
      ensures Valid() && fed == old(fed) + chunk
    {
      fed := fed + chunk;
      if failed {
        return;
      }
      lineBuffer := lineBuffer + chunk;
      TakeLines();
    }

    method TakeLines()
      requires Pending()
      modifies this`children, this`sawListingObject, this`failed, this`parsed, this`lineBuffer
      ensures Valid()
    {
      while NEWLINE in lineBuffer
        invariant Pending()
        decreases |lineBuffer|
      {
        TakeLine();
      }
    }

    /** The outcome depends on the bytes fed, not on how they were cut into chunks. */
    method Finish() returns (ok: bool, entries: seq<Entry>)
      requires Valid()
      modifies this`children, this`sawListingObject, this`failed
      ensures ok <==> Accepted(ItemsOf(decode, fed))
      ensures ok ==> IsListing(DirectChildren(base, NodesOf(ItemsOf(decode, fed))), entries)
    {
      if failed {
        FailureStays(decode, fed, parsed);
        return false, [];
      }
      LastLine(decode, fed, parsed, lineBuffer);
      ParseJsonLine(lineBuffer, ItemsOf(decode, parsed));
      if failed || !sawListingObject {
        return false, [];
      }
      DirectChildrenKeyed(base, NodesOf(ItemsOf(decode, fed)));
      entries := SortEntries(base, children);
      ok := true;
    }
  }

  /** Parses a recursive `restic ls --json` into one listing per directory. */
  class RecursiveParser {
    const base: string
    const decode: Decoder
    var directories: Directories
    var lineBuffer: seq<Byte>
    var sawListingObject: bool
    var failed: bool
    ghost var fed: seq<Byte>
    ghost var parsed: seq<Byte>

    ghost predicate Valid()
      reads this
    {
      Buffered(fed, parsed, lineBuffer, failed) && IndexHolds(base, directories, sawListingObject, failed, ItemsOf(decode, parsed))
    }

    ghost predicate Pending()
      reads this
    {
      fed == parsed + lineBuffer && Whole(parsed) && IndexHolds(base, directories, sawListingObject, failed, ItemsOf(decode, parsed))
    }

    constructor (base: string, decode: Decoder)
      ensures Valid() && fed == [] && this.base == base && this.decode == decode
    {
      this.base, this.decode := base, decode;
      directories, lineBuffer, sawListingObject, failed, fed, parsed := map[base := map[]], [], false, false, [], [];
      new;
      BlankLine(decode);
    }

    method AddChild(parent: string, name: string, child: string, kind: Kind, raw: Attributes)
      modifies this`directories
      ensures directories == old(directories)[parent := Listing.AddChild(ChildrenOf(old(directories), parent), child, name, kind, raw)]
    {
      var children := if parent in directories then directories[parent] else map[];
      if child in children && children[child].kind == Dir {
        directories := directories[parent := children];
      } else {
        var size := if kind == Dir then None else raw.size;
        directories := directories[parent := children[child := Entry(name, child, kind, size, raw.mode, raw.mtime)]];
      }
    }

    method OpenDirectory(dir: string)
      modifies this`directories
      ensures directories == old(directories)[dir := ChildrenOf(old(directories), dir)]
    {
      if dir !in directories {
        directories := directories[dir := map[]];
      }
    }

    /** Every directory on the way to the node gets its child, down to the first file. */
    method AddDescendant(node: Node)
      modifies this`directories
      ensures directories == Listing.AddDescendant(base, old(directories), node)
    {
      if node.path == base {
        return;
      }
      var validated := ValidateSnapshotPath(node.path);
      if validated.None? {
        return;
      }
      var relative := RelativePath(base, validated.value);
      if !LeavesBase(relative) {
        AddAlong(Split(relative, '/'), node);
      }
    }

    method AddAlong(parts: seq<string>, node: Node)
      modifies this`directories
      ensures directories == AddParts(old(directories), base, parts, node)
    {
      var parent, index := base, 0;
      assert parts[0..] == parts;
      while index < |parts|
        invariant 0 <= index <= |parts|
        invariant AddParts(directories, parent, parts[index..], node) == AddParts(old(directories), base, parts, node)
      {
        var child, leaf := JoinSnapshotPath(parent, parts[index]), index == |parts| - 1;
        var kind := if leaf then KindOf(node.typ) else Dir;
        assert parts[index..][1..] == parts[index + 1..];
        AddChild(parent, parts[index], child, kind, if leaf then AttributesOf(node) else NO_ATTRIBUTES);
        if kind != Dir {
          return;
        }
        OpenDirectory(child);
        parent, index := child, index + 1;
      }
    }

    method HandleItem(item: Item, ghost items: seq<Item>)
      requires IndexHolds(base, directories, sawListingObject, failed, items)
      modifies this`directories, this`sawListingObject, this`failed
      ensures IndexHolds(base, directories, sawListingObject, failed, items + [item])
    {
      NodesSnoc(items, item);
      match item
      case Header =>
        sawListingObject := true;
      case Listed(node) =>
        sawListingObject := true;
        AddDescendant(node);
        assert (NodesOf(items) + [node])[..|NodesOf(items)|] == NodesOf(items);
      case Unusable =>
        failed := true;
    }

    method ParseJsonLine(line: seq<Byte>, ghost items: seq<Item>)
      requires IndexHolds(base, directories, sawListingObject, failed, items)
      modifies this`directories, this`sawListingObject, this`failed
      ensures IndexHolds(base, directories, sawListingObject, failed, items + LineItems(decode, line))
    {
      var text := Trim(line, IsBlankByte);
      LineItemsOfTrimmed(decode, line);
      if text == [] {
        assert items + [] == items;
      } else {
        HandleItem(decode(text), items);
      }
    }

    method TakeLine()
      requires Pending() && NEWLINE in lineBuffer
      modifies this`directories, this`sawListingObject, this`failed, this`parsed, this`lineBuffer
      ensures Pending() && |lineBuffer| < old(|lineBuffer|)
    {
      var line, rest := SplitLine(lineBuffer);
      ghost var next := NextLine(decode, parsed, line, rest);
      ParseJsonLine(line, ItemsOf(decode, parsed));
      parsed, lineBuffer := next, rest;
    }

    method FeedStdout(chunk: seq<Byte>)
      requires Valid()
      modifies this
      ensures Valid() && fed == old(fed) + chunk
    {
      fed := fed + chunk;
      if failed {
        return;
      }
      lineBuffer := lineBuffer + chunk;
      TakeLines();
    }

    method TakeLines()
      requires Pending()
      modifies this`directories, this`sawListingObject, this`failed, this`parsed, this`lineBuffer
      ensures Valid()
    {
      while NEWLINE in lineBuffer
        invariant Pending()
        decreases |lineBuffer|
      {
        TakeLine();
      }
    }

    /** One sorted listing per recorded directory. */
    method Finish() returns (ok: bool, listings: map<string, seq<Entry>>)
      requires Valid()
      modifies this`directories, this`sawListingObject, this`failed
      ensures ok <==> Accepted(ItemsOf(decode, fed))
      ensures ok ==> AreListings(RecursiveIndex(base, NodesOf(ItemsOf(decode, fed))), listings)
    {
      if failed {
        FailureStays(decode, fed, parsed);
        return false, map[];
      }
      LastLine(decode, fed, parsed, lineBuffer);
      ParseJsonLine(lineBuffer, ItemsOf(decode, parsed));
      if failed || !sawListingObject {
        return false, map[];
      }
      forall d | d in directories
        ensures Keyed(d, directories[d])
      {
        RecursiveIndexKeyed(base, NodesOf(ItemsOf(decode, fed)), d);
      }
      listings := SortAll(directories);
      ok := true;
    }
  }

  ghost predicate AreListings(dirs: Directories, listings: map<string, seq<Entry>>) {
    listings.Keys == dirs.Keys && forall d :: d in dirs ==> IsListing(dirs[d], listings[d])
  }

  method SortAll(dirs: Directories) returns (listings: map<string, seq<Entry>>)
    requires forall d :: d in dirs ==> Keyed(d, dirs[d])
    ensures AreListings(dirs, listings)
  {
    listings := map[];
    var rest := dirs.Keys;
    while rest != {}
      invariant rest <= dirs.Keys && listings.Keys == dirs.Keys - rest
      invariant forall d :: d in listings ==> IsListing(dirs[d], listings[d])
      decreases |rest|
    {
      var d :| d in rest;
      var entries := SortEntries(d, dirs[d]);
      listings, rest := listings[d := entries], rest - {d};
    }
  }

  lemma {:induction false} AddPartsKeyed(dirs: Directories, parent: string, parts: seq<string>, node: Node, d: string)
    requires Keyed(d, ChildrenOf(dirs, d))
    ensures Keyed(d, ChildrenOf(AddParts(dirs, parent, parts, node), d))
    decreases |parts|
  {
    if parts != [] {
      var child := JoinSnapshotPath(parent, parts[0]);
      var leaf := |parts| == 1;
      var kind := if leaf then KindOf(node.typ) else Dir;
      var added := dirs[parent := AddChild(ChildrenOf(dirs, parent), child, parts[0], kind, if leaf then AttributesOf(node) else NO_ATTRIBUTES)];
      if kind == Dir {
        AddPartsKeyed(added[child := ChildrenOf(added, child)], child, parts[1..], node, d);
      }
    }
  }

  lemma {:induction false} RecursiveIndexKeyed(base: string, nodes: seq<Node>, d: string)
    ensures Keyed(d, ChildrenOf(RecursiveIndex(base, nodes), d))
  {
    if nodes != [] {
      var before, node := nodes[..|nodes| - 1], nodes[|nodes| - 1];
      RecursiveIndexKeyed(base, before, d);
      var validated := ValidateSnapshotPath(node.path);
      if validated.Some? {
        AddPartsKeyed(RecursiveIndex(base, before), base, Split(RelativePath(base, validated.value), '/'), node, d);
      }
    }
  }

  // ----- the two parsers side by side -----

  /** A whole run of the plain parser, however its output arrives. */
  method ParseListing(base: string, decode: Decoder, chunks: seq<seq<Byte>>) returns (ok: bool, entries: seq<Entry>)
    ensures ok <==> Accepted(ItemsOf(decode, Flatten(chunks)))
    ensures ok ==> IsListing(DirectChildren(base, NodesOf(ItemsOf(decode, Flatten(chunks)))), entries)
  {
    var parser := new ListingParser(base, decode);
    for i := 0 to |chunks|
      invariant parser.Valid() && parser.fed == Flatten(chunks[..i]) && parser.base == base && parser.decode == decode
    {
      assert chunks[..i + 1] == chunks[..i] + [chunks[i]];
      FlattenSnoc(chunks[..i], chunks[i]);
      parser.FeedStdout(chunks[i]);
    }
    assert chunks[..|chunks|] == chunks;
    ok, entries := parser.Finish();
  }

  /** A whole run of the recursive parser. */
  method ParseRecursively(base: string, decode: Decoder, chunks: seq<seq<Byte>>) returns (ok: bool, listings: map<string, seq<Entry>>)
    ensures ok <==> Accepted(ItemsOf(decode, Flatten(chunks)))
    ensures ok ==> AreListings(RecursiveIndex(base, NodesOf(ItemsOf(decode, Flatten(chunks)))), listings)
  {
    var parser := new RecursiveParser(base, decode);
    for i := 0 to |chunks|
      invariant parser.Valid() && parser.fed == Flatten(chunks[..i]) && parser.base == base && parser.decode == decode
    {
      assert chunks[..i + 1] == chunks[..i] + [chunks[i]];
      FlattenSnoc(chunks[..i], chunks[i]);
      parser.FeedStdout(chunks[i]);
    }
    assert chunks[..|chunks|] == chunks;
    ok, listings := parser.Finish();
  }

  /**
   A recorded directory's listing and the plain listing of that directory, both from one stream: same names, paths, types
   and sizes, in the same order.
   */
  lemma RecordedListingIsPlainListing(
      base: seq<string>, nodes: seq<Node>, d: string, listings: map<string, seq<Entry>>, plain: seq<Entry>)
    requires ProperPath(base) && AreListings(RecursiveIndex(PathOf(base), nodes), listings) && d in listings
    requires IsListing(DirectChildren(d, nodes), plain)
    ensures SameListing(listings[d], plain)
  {
    var dir := RecordedArePaths(base, nodes, d);
    IndexMatchesPlainListing(base, nodes, dir);
    ListingsAgree(RecursiveIndex(PathOf(base), nodes)[d], DirectChildren(d, nodes), listings[d], plain);
  }

  /** With own nodes first, the recorded listing is the one a listing of that directory alone returns. */
  lemma RecordedListingIsShallowListing(
      base: seq<string>, nodes: seq<Node>, d: string, listings: map<string, seq<Entry>>, dir: seq<string>, plain: seq<Entry>)
    requires ProperPath(base) && AreListings(RecursiveIndex(PathOf(base), nodes), listings) && d in listings
    requires ProperPath(dir) && d == PathOf(dir) && OwnNodesFirst(nodes, dir)
    requires IsListing(DirectChildren(d, Shallow(nodes, dir)), plain)
    ensures listings[d] == plain
  {
    var found := RecordedArePaths(base, nodes, d);
    PathOfInjective(found, dir);
    IndexEqualsShallowListing(base, nodes, dir);
    ListingUnique(listings[d], plain);
  }
}
