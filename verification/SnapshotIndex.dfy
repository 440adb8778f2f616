/** The recursive index against the plain listing: which directories it records and when their entries coincide. */
module SnapshotIndex {
  import opened Wrappers
  import opened Text
  import opened SnapshotPaths
  import opened SnapshotListing

  /** Equal but for mode and mtime, which only a directory entry may differ in. */
  predicate SameEntry(a: Entry, b: Entry) {
    a == b || (a.kind == Dir && a == b.(mode := a.mode, mtime := a.mtime))
  }

  predicate SameChildren(a: Children, b: Children) {
    a.Keys == b.Keys && forall p :: p in a ==> SameEntry(a[p], b[p])
  }

  ghost predicate IndexAgrees(dirs: Directories, nodes: seq<Node>, dir: seq<string>) {
    && SameChildren(ChildrenOf(dirs, PathOf(dir)), DirectChildren(PathOf(dir), nodes))
    && (PathOf(dir) !in dirs ==> DirectChildren(PathOf(dir), nodes) == map[])
  }

  lemma ContributionKeepsAgreement(a: Children, b: Children, dir: seq<string>, path: seq<string>, node: Node)
    requires Within(dir, path) && SameChildren(a, b)
    ensures SameChildren(Contribution(a, dir, path, node, NO_ATTRIBUTES), Contribution(b, dir, path, node, AttributesOf(node)))
  { }

  /**
   For every node stream and every directory at or below the base: the recorded entries have the same names, paths,
   types and sizes as the plain listing of that directory over the same stream, and a directory that is not recorded
   has an empty plain listing.
   */
  lemma {:induction false} IndexMatchesPlainListing(base: seq<string>, nodes: seq<Node>, dir: seq<string>)
    requires ProperPath(base) && ProperPath(dir) && base <= dir
    ensures IndexAgrees(RecursiveIndex(PathOf(base), nodes), nodes, dir)
  {
    if nodes != [] {
      var before, node := nodes[..|nodes| - 1], nodes[|nodes| - 1];
      IndexMatchesPlainListing(base, before, dir);
      var path := IgnoredOrNamed(node);
      if !Ignored(node) {
        StepOnComponents(base, nodes, dir, path);
        if Within(dir, path) {
          ContributionKeepsAgreement(ChildrenOf(RecursiveIndex(PathOf(base), before), PathOf(dir)),
                                     DirectChildren(PathOf(dir), before), dir, path, node);
        }
      }
    }
  }

  /** The last node of a stream, as both folds see it at `dir`. */
  lemma StepOnComponents(base: seq<string>, nodes: seq<Node>, dir: seq<string>, path: seq<string>)
    requires ProperPath(base) && ProperPath(dir) && base <= dir && nodes != [] && Names(nodes[|nodes| - 1], path)
    ensures var before, node := nodes[..|nodes| - 1], nodes[|nodes| - 1];
            var index := RecursiveIndex(PathOf(base), before);
            && DirectChildren(PathOf(dir), nodes) ==
               (if Within(dir, path) then Contribution(DirectChildren(PathOf(dir), before), dir, path, node, AttributesOf(node))
                else DirectChildren(PathOf(dir), before))
            && ChildrenOf(RecursiveIndex(PathOf(base), nodes), PathOf(dir)) ==
               (if Within(dir, path) then Contribution(ChildrenOf(index, PathOf(dir)), dir, path, node, NO_ATTRIBUTES)
                else ChildrenOf(index, PathOf(dir)))
            && (PathOf(dir) in RecursiveIndex(PathOf(base), nodes) <==>
                  PathOf(dir) in index || Within(dir, path) || (dir == path && Within(base, path) && node.typ == "dir"))
  {
    var before, node := nodes[..|nodes| - 1], nodes[|nodes| - 1];
    var index := RecursiveIndex(PathOf(base), before);
    DirectChildMeaning(dir, DirectChildren(PathOf(dir), before), node, path);
    DescendantMeaning(base, index, node, path);
    if Within(base, path) {
      AddPartsMeaning(index, base, path, node, dir);
    }
  }

  /** Only directories at or below the base are recorded. */
  lemma {:induction false} RecordedArePaths(base: seq<string>, nodes: seq<Node>, d: string) returns (dir: seq<string>)
    requires ProperPath(base) && d in RecursiveIndex(PathOf(base), nodes)
    ensures ProperPath(dir) && base <= dir && d == PathOf(dir)
  {
    dir := base;
    if nodes != [] {
      var before, node := nodes[..|nodes| - 1], nodes[|nodes| - 1];
      var index := RecursiveIndex(PathOf(base), before);
      if d in index {
        dir := RecordedArePaths(base, before, d);
      } else {
        var path := IgnoredOrNamed(node);
        DescendantMeaning(base, index, node, path);
        var k := AddPartsKeys(index, base, path, node, d);
        dir := path[..k];
      }
    }
  }

  lemma {:induction false} AddPartsKeys(dirs: Directories, from: seq<string>, path: seq<string>, node: Node, d: string) returns (k: nat)
    requires ProperPath(path) && Within(from, path)
    requires d in AddParts(dirs, PathOf(from), path[|from|..], node) && d !in dirs
    ensures |from| <= k <= |path| && d == PathOf(path[..k])
    decreases |path| - |from|
  {
    var child := path[..|from| + 1];
    var added := AddLevel(dirs, from, path, node);
    AddPartsUnfolds(dirs, from, path, node);
    assert from == path[..|from|];
    if d == PathOf(from) {
      k := |from|;
    } else if d == PathOf(child) {
      k := |child|;
    } else {
      k := |from|;
      EmptyTail(path, child);
      k := AddPartsKeys(OpenChild(added, child), child, path, node, d);
    }
  }

  lemma EmptyTail(path: seq<string>, child: seq<string>)
    ensures child == path ==> path[|child|..] == []
  { }

  // ----- when the attributes coincide too -----

  /** Node `k` makes a child of `dir` a directory only by lying below it: no earlier node had made it one. */
  ghost predicate ImpliesDirectory(nodes: seq<Node>, k: nat, dir: seq<string>, path: seq<string>) {
    && k < |nodes| && Names(nodes[k], path) && Within(dir, path) && |path| > |dir| + 1
    && !IsDirectoryChild(DirectChildren(PathOf(dir), nodes[..k]), path[..|dir| + 1])
  }

  ghost predicate IsDirectoryChild(children: Children, child: seq<string>) {
    PathOf(child) in children && children[PathOf(child)].kind == Dir
  }

  predicate HasAttributes(node: Node) {
    node.mode.Some? || node.mtime.Some?
  }

  /** No directory is first met through a descendant that carries a mode or an mtime. */
  ghost predicate NothingImpliedWithAttributes(nodes: seq<Node>, dir: seq<string>) {
    forall k: nat, path :: ImpliesDirectory(nodes, k, dir, path) ==> !HasAttributes(nodes[k])
  }

  ghost predicate LastImplies(nodes: seq<Node>, dir: seq<string>, path: seq<string>)
    requires nodes != []
  {
    ImpliesDirectory(nodes, |nodes| - 1, dir, path)
  }

  ghost predicate LastLosesAttributes(nodes: seq<Node>, dir: seq<string>)
    requires nodes != []
  {
    exists path :: LastImplies(nodes, dir, path) && HasAttributes(nodes[|nodes| - 1])
  }

  lemma ImpliedInPrefix(nodes: seq<Node>, dir: seq<string>)
    requires nodes != []
    ensures NothingImpliedWithAttributes(nodes, dir) <==>
              NothingImpliedWithAttributes(nodes[..|nodes| - 1], dir) && !LastLosesAttributes(nodes, dir)
  {
    var before := nodes[..|nodes| - 1];
    forall k: nat, path
      ensures k < |before| ==> (ImpliesDirectory(before, k, dir, path) <==> ImpliesDirectory(nodes, k, dir, path))
      ensures k == |before| ==> (LastImplies(nodes, dir, path) <==> ImpliesDirectory(nodes, k, dir, path))
    {
      if k < |before| {
        assert before[..k] == nodes[..k];
      }
    }
  }

  lemma LastLosesMeaning(nodes: seq<Node>, dir: seq<string>, path: seq<string>)
    requires nodes != [] && ProperPath(dir)
    requires Ignored(nodes[|nodes| - 1]) || Names(nodes[|nodes| - 1], path)
    ensures LastLosesAttributes(nodes, dir) <==>
              && !Ignored(nodes[|nodes| - 1]) && Within(dir, path) && |path| > |dir| + 1
              && !IsDirectoryChild(DirectChildren(PathOf(dir), nodes[..|nodes| - 1]), path[..|dir| + 1])
              && HasAttributes(nodes[|nodes| - 1])
  {
    if !Ignored(nodes[|nodes| - 1]) {
      OnlyName(nodes[|nodes| - 1], path);
      assert LastImplies(nodes, dir, path) ==> Within(dir, path);
    }
  }

  lemma ContributionsCoincide(a: Children, b: Children, dir: seq<string>, path: seq<string>, node: Node)
    requires ProperPath(dir) && ProperPath(path) && Within(dir, path) && SameChildren(a, b)
    ensures Contribution(a, dir, path, node, NO_ATTRIBUTES) == Contribution(b, dir, path, node, AttributesOf(node)) <==>
              a == b && !(|path| > |dir| + 1 && !IsDirectoryChild(b, path[..|dir| + 1]) && HasAttributes(node))
  {
    var child := path[..|dir| + 1];
    assert child == dir + [path[|dir|]];
    var a', b' := Contribution(a, dir, path, node, NO_ATTRIBUTES), Contribution(b, dir, path, node, AttributesOf(node));
    if a != b {
      var p :| p in a && a[p] != b[p];
      assert a'[p] == a[p] && b'[p] == b[p];
    } else if |path| > |dir| + 1 && !IsDirectoryChild(b, child) {
      assert a'[PathOf(child)].mode == None && a'[PathOf(child)].mtime == None;
      assert b'[PathOf(child)].mode == node.mode && b'[PathOf(child)].mtime == node.mtime;
    }
  }

  /**
   The recorded entries equal the plain listing in every field, mode and mtime included, exactly when no directory is
   first met through a descendant that carries a mode or an mtime.
   */
  lemma {:induction false} IndexEqualsPlainListingIff(base: seq<string>, nodes: seq<Node>, dir: seq<string>)
    requires ProperPath(base) && ProperPath(dir) && base <= dir
    ensures ChildrenOf(RecursiveIndex(PathOf(base), nodes), PathOf(dir)) == DirectChildren(PathOf(dir), nodes) <==>
              NothingImpliedWithAttributes(nodes, dir)
  {
    if nodes != [] {
      IndexEqualsPlainListingIff(base, nodes[..|nodes| - 1], dir);
      ImpliedInPrefix(nodes, dir);
      LastNodeKeepsEqualityIff(base, nodes, dir);
    } else {
      assert forall k: nat, path :: !ImpliesDirectory(nodes, k, dir, path);
    }
  }

  lemma LastNodeKeepsEqualityIff(base: seq<string>, nodes: seq<Node>, dir: seq<string>)
    requires ProperPath(base) && ProperPath(dir) && base <= dir && nodes != []
    ensures ChildrenOf(RecursiveIndex(PathOf(base), nodes), PathOf(dir)) == DirectChildren(PathOf(dir), nodes) <==>
              && ChildrenOf(RecursiveIndex(PathOf(base), nodes[..|nodes| - 1]), PathOf(dir)) == DirectChildren(PathOf(dir), nodes[..|nodes| - 1])
              && !LastLosesAttributes(nodes, dir)
  {
    var before, node := nodes[..|nodes| - 1], nodes[|nodes| - 1];
    var path := IgnoredOrNamed(node);
    LastLosesMeaning(nodes, dir, path);
    if !Ignored(node) {
      IndexMatchesPlainListing(base, before, dir);
      StepOnComponents(base, nodes, dir, path);
      if Within(dir, path) {
        ContributionsCoincide(ChildrenOf(RecursiveIndex(PathOf(base), before), PathOf(dir)), DirectChildren(PathOf(dir), before), dir, path, node);
      }
    }
  }

  lemma OnlyName(node: Node, path: seq<string>)
    requires Names(node, path)
    ensures forall other :: Names(node, other) ==> other == path
  {
    forall other | Names(node, other) ensures other == path {
      PathOfInjective(other, path);
    }
  }

  // ----- the shallow listing -----

  /** The lines restic prints for `dir` alone: its own node and its children's. */
  ghost predicate ShallowNode(node: Node, dir: seq<string>) {
    exists path :: Names(node, path) && (path == dir || (Within(dir, path) && |path| == |dir| + 1))
  }

  ghost function Shallow(nodes: seq<Node>, dir: seq<string>): seq<Node> {
    if nodes == [] then []
    else
      var before, node := nodes[..|nodes| - 1], nodes[|nodes| - 1];
      if ShallowNode(node, dir) then Shallow(before, dir) + [node] else Shallow(before, dir)
  }

  /** Below `dir`, each directory's own node comes before its descendants. */
  ghost predicate OwnNodesFirst(nodes: seq<Node>, dir: seq<string>) {
    forall k: nat, path :: k < |nodes| && Names(nodes[k], path) && Within(dir, path) && |path| > |dir| + 1 ==>
      exists j: nat :: j < k && nodes[j].typ == "dir" && Names(nodes[j], path[..|dir| + 1])
  }

  lemma {:induction false} OwnNodeMakesDirectory(nodes: seq<Node>, dir: seq<string>, j: nat, child: seq<string>)
    requires ProperPath(dir) && j < |nodes| && nodes[j].typ == "dir" && Names(nodes[j], child)
    requires Within(dir, child) && |child| == |dir| + 1
    ensures IsDirectoryChild(DirectChildren(PathOf(dir), nodes), child)
  {
    var before, node := nodes[..|nodes| - 1], nodes[|nodes| - 1];
    var path := IgnoredOrNamed(node);
    if j < |before| {
      OwnNodeMakesDirectory(before, dir, j, child);
    } else {
      PathOfInjective(path, child);
      assert child == dir + [child[|dir|]];
    }
    if !Ignored(node) {
      DirectChildMeaning(dir, DirectChildren(PathOf(dir), before), node, path);
    }
  }

  lemma OwnNodesFirstImpliesNothing(nodes: seq<Node>, dir: seq<string>)
    requires ProperPath(dir) && OwnNodesFirst(nodes, dir)
    ensures forall k: nat, path :: !ImpliesDirectory(nodes, k, dir, path)
  {
    forall k: nat, path | k < |nodes| && Names(nodes[k], path) && Within(dir, path) && |path| > |dir| + 1
      ensures !ImpliesDirectory(nodes, k, dir, path)
    {
      var j: nat :| j < k && nodes[j].typ == "dir" && Names(nodes[j], path[..|dir| + 1]);
      assert nodes[..k][j] == nodes[j];
      OwnNodeMakesDirectory(nodes[..k], dir, j, path[..|dir| + 1]);
    }
  }

  lemma KnownDirectoryStays(children: Children, dir: seq<string>, path: seq<string>, node: Node)
    requires Within(dir, path) && IsDirectoryChild(children, path[..|dir| + 1])
    ensures Contribution(children, dir, path, node, AttributesOf(node)) == children
  {
    assert path[..|dir| + 1] == dir + [path[|dir|]];
  }

  /** A node that neither names a child of `dir` nor implies a new directory leaves the plain listing alone. */
  lemma DeepNodeChangesNothing(nodes: seq<Node>, dir: seq<string>)
    requires ProperPath(dir) && nodes != [] && !ShallowNode(nodes[|nodes| - 1], dir)
    requires forall path :: !LastImplies(nodes, dir, path)
    ensures DirectChildren(PathOf(dir), nodes) == DirectChildren(PathOf(dir), nodes[..|nodes| - 1])
  {
    var before, node := nodes[..|nodes| - 1], nodes[|nodes| - 1];
    var path := IgnoredOrNamed(node);
    if !Ignored(node) {
      DirectChildMeaning(dir, DirectChildren(PathOf(dir), before), node, path);
      if Within(dir, path) {
        assert |path| > |dir| + 1;
        assert !LastImplies(nodes, dir, path);
        KnownDirectoryStays(DirectChildren(PathOf(dir), before), dir, path, node);
      }
    }
  }

  lemma OneMoreNode(base: string, nodes: seq<Node>, node: Node)
    ensures DirectChildren(base, nodes + [node]) == AddDirectChild(base, DirectChildren(base, nodes), node)
  {
    assert (nodes + [node])[..|nodes|] == nodes;
  }

  lemma OwnNodesFirstInPrefix(nodes: seq<Node>, dir: seq<string>)
    requires nodes != [] && OwnNodesFirst(nodes, dir)
    ensures OwnNodesFirst(nodes[..|nodes| - 1], dir)
  {
    var before := nodes[..|nodes| - 1];
    forall k: nat, path | k < |before| && Names(before[k], path) && Within(dir, path) && |path| > |dir| + 1
      ensures exists j: nat :: j < k && before[j].typ == "dir" && Names(before[j], path[..|dir| + 1])
    {
      var j: nat :| j < k && nodes[j].typ == "dir" && Names(nodes[j], path[..|dir| + 1]);
      assert before[j] == nodes[j];
    }
  }

  lemma {:induction false} ShallowSuffices(nodes: seq<Node>, dir: seq<string>)
    requires ProperPath(dir) && OwnNodesFirst(nodes, dir)
    ensures DirectChildren(PathOf(dir), Shallow(nodes, dir)) == DirectChildren(PathOf(dir), nodes)
  {
    if nodes != [] {
      var before, node := nodes[..|nodes| - 1], nodes[|nodes| - 1];
      OwnNodesFirstInPrefix(nodes, dir);
      ShallowSuffices(before, dir);
      if ShallowNode(node, dir) {
        OneMoreNode(PathOf(dir), Shallow(before, dir), node);
      } else {
        assert DirectChildren(PathOf(dir), nodes) == DirectChildren(PathOf(dir), before) by {
          OwnNodesFirstImpliesNothing(nodes, dir);
          DeepNodeChangesNothing(nodes, dir);
        }
      }
    }
  }

  /** With own nodes first, what the index holds for a recorded directory is what a listing of that directory alone gives. */
  lemma IndexEqualsShallowListing(base: seq<string>, nodes: seq<Node>, dir: seq<string>)
    requires ProperPath(base) && ProperPath(dir) && base <= dir && OwnNodesFirst(nodes, dir)
    requires PathOf(dir) in RecursiveIndex(PathOf(base), nodes)
    ensures RecursiveIndex(PathOf(base), nodes)[PathOf(dir)] == DirectChildren(PathOf(dir), Shallow(nodes, dir))
  {
    OwnNodesFirstImpliesNothing(nodes, dir);
    IndexEqualsPlainListingIff(base, nodes, dir);
    ShallowSuffices(nodes, dir);
  }

  /** Out of order they differ: a file with an mtime that comes before the own node of its directory. */
  lemma ImpliedDirectoryLosesAttributes()
    ensures var nodes := [Node("/a/b", "file", None, None, Some("t"))];
            ChildrenOf(RecursiveIndex("/", nodes), "/") != DirectChildren("/", nodes)
  {
    var node := Node("/a/b", "file", None, None, Some("t"));
    SampleIsNamed();
    assert PathOf([]) == "/";
    assert [node][..0] == [];
    assert ImpliesDirectory([node], 0, [], ["a", "b"]) by {
      assert DirectChildren("/", []) == map[];
    }
    assert !NothingImpliedWithAttributes([node], []);
    IndexEqualsPlainListingIff([], [node], []);
  }

  lemma SampleIsNamed()
    ensures ProperPath(["a", "b"]) && PathOf(["a", "b"]) == "/a/b" && ValidateSnapshotPath("/a/b") == Some("/a/b")
  {
    var path := ["a", "b"];
    assert path[1..] == ["b"];
    assert Join(path, '/') == "a" + "/" + Join(["b"], '/');
    var all := ["", "a", "b"];
    assert all[1..] == path;
    SplitJoin(all, '/');
  }
}
