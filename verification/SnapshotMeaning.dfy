/** What a listing of one directory says about the nodes it was built from, without mentioning how it is built. */
module SnapshotMeaning {
  import opened Wrappers
  import opened SnapshotPaths
  import opened SnapshotListing
  import opened SnapshotIndex

  /** Node `k` is the child `name` of `dir`, or lies below it. */
  ghost predicate Mentions(nodes: seq<Node>, k: nat, dir: seq<string>, name: string, path: seq<string>) {
    k < |nodes| && Names(nodes[k], path) && Within(dir, path) && path[|dir|] == name
  }

  /** The mention makes the child a directory: the node is one, or lies below the child. */
  predicate MakesDirectory(node: Node, dir: seq<string>, path: seq<string>) {
    |path| > |dir| + 1 || node.typ == "dir"
  }

  /** The entry a mention alone would give. */
  function EntryOf(node: Node, dir: seq<string>, name: string, path: seq<string>): Entry {
    var kind := if MakesDirectory(node, dir, path) then Dir else File;
    Entry(name, PathOf(dir + [name]), kind, if kind == Dir then None else node.size, node.mode, node.mtime)
  }

  /** A directory comes from the first mention that makes it one; a file from the last mention, and none makes it a directory. */
  ghost predicate Decisive(nodes: seq<Node>, k: nat, dir: seq<string>, name: string, path: seq<string>) {
    && Mentions(nodes, k, dir, name, path)
    && (if MakesDirectory(nodes[k], dir, path)
        then forall j: nat, other :: j < k && Mentions(nodes, j, dir, name, other) ==> !MakesDirectory(nodes[j], dir, other)
        else forall j: nat, other :: Mentions(nodes, j, dir, name, other) ==> j <= k && !MakesDirectory(nodes[j], dir, other))
  }

  ghost predicate Unmentioned(nodes: seq<Node>, dir: seq<string>, name: string) {
    forall k: nat, path :: !Mentions(nodes, k, dir, name, path)
  }

  /** Node `k` says nothing of the child. */
  ghost predicate Elsewhere(nodes: seq<Node>, k: nat, dir: seq<string>, name: string) {
    forall path :: !Mentions(nodes, k, dir, name, path)
  }

  /** Either no node mentions the child and it is not listed, or its entry is that of the decisive mention. */
  ghost predicate ListedAs(children: Children, nodes: seq<Node>, dir: seq<string>, name: string) {
    if PathOf(dir + [name]) in children then
      exists k: nat, path :: Decisive(nodes, k, dir, name, path) && children[PathOf(dir + [name])] == EntryOf(nodes[k], dir, name, path)
    else Unmentioned(nodes, dir, name)
  }

  lemma MentionsInPrefix(nodes: seq<Node>, dir: seq<string>, name: string)
    requires nodes != []
    ensures forall k: nat, path :: k < |nodes| - 1 ==> (Mentions(nodes[..|nodes| - 1], k, dir, name, path) <==> Mentions(nodes, k, dir, name, path))
  { }

  lemma UniqueMention(nodes: seq<Node>, k: nat, dir: seq<string>, name: string, a: seq<string>, b: seq<string>)
    requires Mentions(nodes, k, dir, name, a) && k < |nodes| && Names(nodes[k], b)
    ensures a == b
  {
    PathOfInjective(a, b);
  }

  /** A decisive mention stays decisive when the new node says nothing of the child. */
  lemma DecisiveElsewhere(nodes: seq<Node>, k: nat, dir: seq<string>, name: string, path: seq<string>)
    requires nodes != [] && Decisive(nodes[..|nodes| - 1], k, dir, name, path)
    requires Elsewhere(nodes, |nodes| - 1, dir, name)
    ensures Decisive(nodes, k, dir, name, path) && nodes[..|nodes| - 1][k] == nodes[k]
  {
    var before, last := nodes[..|nodes| - 1], |nodes| - 1;
    forall j: nat, other | Mentions(nodes, j, dir, name, other)
      ensures j < last && Mentions(before, j, dir, name, other)
    {
      assert j != last;
    }
  }

  /** The last node mentions another child, or none: nothing changes. */
  lemma LastElsewhere(nodes: seq<Node>, dir: seq<string>, name: string, children: Children)
    requires nodes != [] && ListedAs(children, nodes[..|nodes| - 1], dir, name)
    requires Elsewhere(nodes, |nodes| - 1, dir, name)
    ensures ListedAs(children, nodes, dir, name)
  {
    var before := nodes[..|nodes| - 1];
    if PathOf(dir + [name]) in children {
      var k: nat, path :| Decisive(before, k, dir, name, path) && children[PathOf(dir + [name])] == EntryOf(before[k], dir, name, path);
      DecisiveElsewhere(nodes, k, dir, name, path);
    } else {
      MentionsInPrefix(nodes, dir, name);
      forall k: nat, path
        ensures !Mentions(nodes, k, dir, name, path)
      {
        if k == |nodes| - 1 {
          assert !Mentions(nodes, |nodes| - 1, dir, name, path);
        } else {
          assert !Mentions(before, k, dir, name, path);
        }
      }
    }
  }

  /** The last node mentions the child: it is decisive unless the child was a directory already. */
  lemma LastMentions(nodes: seq<Node>, dir: seq<string>, name: string, path: seq<string>, children: Children)
    requires ProperPath(dir) && nodes != [] && ListedAs(children, nodes[..|nodes| - 1], dir, name)
    requires Mentions(nodes, |nodes| - 1, dir, name, path)
    ensures ListedAs(Contribution(children, dir, path, nodes[|nodes| - 1], AttributesOf(nodes[|nodes| - 1])), nodes, dir, name)
  {
    var before, last := nodes[..|nodes| - 1], |nodes| - 1;
    var node := nodes[last];
    var after := Contribution(children, dir, path, node, AttributesOf(node));
    var child := PathOf(dir + [name]);
    MentionsInPrefix(nodes, dir, name);
    if child in children && children[child].kind == Dir {
      var k: nat, first :| Decisive(before, k, dir, name, first) && children[child] == EntryOf(before[k], dir, name, first);
      assert Mentions(nodes, k, dir, name, first);
      assert Decisive(nodes, k, dir, name, first);
    } else {
      assert after[child] == EntryOf(node, dir, name, path);
      NoDirectoryBefore(before, dir, name, children);
      forall j: nat, other | Mentions(nodes, j, dir, name, other) && j < last
        ensures !MakesDirectory(nodes[j], dir, other)
      {
        assert Mentions(before, j, dir, name, other);
      }
      forall other | Mentions(nodes, last, dir, name, other)
        ensures other == path
      {
        UniqueMention(nodes, last, dir, name, other, path);
      }
      assert Decisive(nodes, last, dir, name, path);
    }
  }

  lemma NoDirectoryBefore(nodes: seq<Node>, dir: seq<string>, name: string, children: Children)
    requires ListedAs(children, nodes, dir, name)
    requires PathOf(dir + [name]) in children ==> children[PathOf(dir + [name])].kind == File
    ensures forall j: nat, other :: Mentions(nodes, j, dir, name, other) ==> !MakesDirectory(nodes[j], dir, other)
  { }

  /** The listing of a directory, child by child. */
  lemma {:induction false} PlainListingMeaning(nodes: seq<Node>, dir: seq<string>, name: string)
    requires ProperPath(dir) && Proper(name)
    ensures ListedAs(DirectChildren(PathOf(dir), nodes), nodes, dir, name)
  {
    if nodes != [] {
      var before, last := nodes[..|nodes| - 1], |nodes| - 1;
      var children := DirectChildren(PathOf(dir), before);
      PlainListingMeaning(before, dir, name);
      var path := IgnoredOrNamed(nodes[last]);
      if Ignored(nodes[last]) {
        assert Elsewhere(nodes, last, dir, name);
        LastElsewhere(nodes, dir, name, children);
      } else {
        DirectChildMeaning(dir, children, nodes[last], path);
        if Mentions(nodes, last, dir, name, path) {
          LastMentions(nodes, dir, name, path, children);
        } else {
          OtherChild(nodes, dir, name, path, children);
        }
      }
    }
  }

  lemma OtherChild(nodes: seq<Node>, dir: seq<string>, name: string, path: seq<string>, children: Children)
    requires ProperPath(dir) && Proper(name) && nodes != [] && ListedAs(children, nodes[..|nodes| - 1], dir, name)
    requires Names(nodes[|nodes| - 1], path) && !Mentions(nodes, |nodes| - 1, dir, name, path)
    ensures var node := nodes[|nodes| - 1];
            ListedAs(if Within(dir, path) then Contribution(children, dir, path, node, AttributesOf(node)) else children, nodes, dir, name)
  {
    var node := nodes[|nodes| - 1];
    var last: nat := |nodes| - 1;
    forall other
      ensures !Mentions(nodes, last, dir, name, other)
    {
      if Mentions(nodes, last, dir, name, other) {
        UniqueMention(nodes, last, dir, name, other, path);
      }
    }
    LastElsewhere(nodes, dir, name, children);
    if Within(dir, path) {
      SamePath(dir + [name], dir + [path[|dir|]]);
      assert dir + [name] != dir + [path[|dir|]] by {
        assert (dir + [name])[|dir|] == name && (dir + [path[|dir|]])[|dir|] == path[|dir|];
      }
    }
  }

  /** Nothing else is listed: every listed path is that of a child some node mentions. */
  lemma {:induction false} OnlyMentionedAreListed(nodes: seq<Node>, dir: seq<string>, listed: string) returns (name: string)
    requires ProperPath(dir) && listed in DirectChildren(PathOf(dir), nodes)
    ensures Proper(name) && listed == PathOf(dir + [name]) && !Unmentioned(nodes, dir, name)
  {
    var before, last := nodes[..|nodes| - 1], |nodes| - 1;
    var children := DirectChildren(PathOf(dir), before);
    if listed in children {
      name := OnlyMentionedAreListed(before, dir, listed);
      var k: nat, path :| Mentions(before, k, dir, name, path);
      assert Mentions(nodes, k, dir, name, path);
    } else {
      var path := IgnoredOrNamed(nodes[last]);
      DirectChildMeaning(dir, children, nodes[last], path);
      name := path[|dir|];
      assert Mentions(nodes, last, dir, name, path);
    }
  }

  // ----- when the recursive index equals the plain listing, said of the nodes alone -----

  /** Some node before `n` is the child as a directory, or lies below the child. */
  ghost predicate MadeDirectory(nodes: seq<Node>, n: nat, dir: seq<string>, name: string) {
    exists j: nat, path :: j < n && Mentions(nodes, j, dir, name, path) && MakesDirectory(nodes[j], dir, path)
  }

  lemma DirectoryChildIff(nodes: seq<Node>, dir: seq<string>, name: string)
    requires ProperPath(dir) && Proper(name)
    ensures IsDirectoryChild(DirectChildren(PathOf(dir), nodes), dir + [name]) <==> MadeDirectory(nodes, |nodes|, dir, name)
  {
    PlainListingMeaning(nodes, dir, name);
  }

  /** Node `k` lies below a child of `dir` that no earlier node has made a directory. */
  ghost predicate FirstMetBelow(nodes: seq<Node>, k: nat, dir: seq<string>, path: seq<string>) {
    k < |nodes| && Names(nodes[k], path) && Within(dir, path) && |path| > |dir| + 1 && !MadeDirectory(nodes, k, dir, path[|dir|])
  }

  lemma MadeInPrefix(nodes: seq<Node>, k: nat, dir: seq<string>, name: string)
    requires k <= |nodes|
    ensures MadeDirectory(nodes[..k], k, dir, name) <==> MadeDirectory(nodes, k, dir, name)
  {
    forall j: nat, path | j < k
      ensures Mentions(nodes[..k], j, dir, name, path) <==> Mentions(nodes, j, dir, name, path)
    { }
  }

  lemma FirstMetBelowIff(nodes: seq<Node>, k: nat, dir: seq<string>, path: seq<string>)
    requires ProperPath(dir)
    ensures FirstMetBelow(nodes, k, dir, path) <==> ImpliesDirectory(nodes, k, dir, path)
  {
    if k < |nodes| && Names(nodes[k], path) && Within(dir, path) {
      assert path[..|dir| + 1] == dir + [path[|dir|]];
      DirectoryChildIff(nodes[..k], dir, path[|dir|]);
      MadeInPrefix(nodes, k, dir, path[|dir|]);
    }
  }

  /**
   The recorded entries of a directory equal its plain listing in every field, mode and mtime included, exactly if every node
   that is the first to reveal a child of it as a directory, and does so by lying below, carries neither mode nor mtime.
   */
  lemma IndexEqualsPlainListingForNodesIff(base: seq<string>, nodes: seq<Node>, dir: seq<string>)
    requires ProperPath(base) && ProperPath(dir) && base <= dir
    ensures ChildrenOf(RecursiveIndex(PathOf(base), nodes), PathOf(dir)) == DirectChildren(PathOf(dir), nodes) <==>
              forall k: nat, path :: FirstMetBelow(nodes, k, dir, path) ==> !HasAttributes(nodes[k])
  {
    IndexEqualsPlainListingIff(base, nodes, dir);
    forall k: nat, path
      ensures FirstMetBelow(nodes, k, dir, path) <==> ImpliesDirectory(nodes, k, dir, path)
    {
      FirstMetBelowIff(nodes, k, dir, path);
    }
  }
}
