/** The direct-child listing of one directory and the recursive index of a subtree, as folds over restic's nodes. */
module SnapshotListing {
  import opened Wrappers
  import opened Text
  import opened SnapshotPaths

  /** A node line of `restic ls --json`; falsy mode and mtime values count as absent. */
  datatype Node = Node(path: string, typ: string, size: Option<string>, mode: Option<string>, mtime: Option<string>)

  datatype Kind = Dir | File

  datatype Entry = Entry(name: string, path: string, kind: Kind, size: Option<string>, mode: Option<string>, mtime: Option<string>)

  /** The attributes an entry is filled from; an implied directory of the recursive index has none. */
  datatype Attributes = Attributes(size: Option<string>, mode: Option<string>, mtime: Option<string>)

  type Children = map<string, Entry>
  type Directories = map<string, Children>

  const NO_ATTRIBUTES := Attributes(None, None, None)

  function AttributesOf(node: Node): Attributes {
    Attributes(node.size, node.mode, node.mtime)
  }

  function KindOf(typ: string): Kind {
    if typ == "dir" then Dir else File
  }

  /** A directory entry stays; anything else is written. */
  function AddChild(children: Children, path: string, name: string, kind: Kind, raw: Attributes): Children {
    if path in children && children[path].kind == Dir then children
    else children[path := Entry(name, path, kind, if kind == Dir then None else raw.size, raw.mode, raw.mtime)]
  }

  // ----- the plain listing -----

  function AddDirectChild(base: string, children: Children, node: Node): Children {
    if node.path == base then children
    else
      var validated := ValidateSnapshotPath(node.path);
      if validated.None? then children else AddPath(base, children, validated.value, node)
  }

  function AddPath(base: string, children: Children, path: string, node: Node): Children {
    var name := ChildName(base, path);
    if name.None? then children
    else
      var kind := if '/' in RelativePath(base, path) then Dir else KindOf(node.typ);
      AddChild(children, JoinSnapshotPath(base, name.value), name.value, kind, AttributesOf(node))
  }

  function DirectChildren(base: string, nodes: seq<Node>): Children {
    if nodes == [] then map[]
    else AddDirectChild(base, DirectChildren(base, nodes[..|nodes| - 1]), nodes[|nodes| - 1])
  }

  // ----- the recursive index -----

  function ChildrenOf(dirs: Directories, dir: string): Children {
    if dir in dirs then dirs[dir] else map[]
  }

  function AddParts(dirs: Directories, parent: string, parts: seq<string>, node: Node): Directories
    decreases |parts|
  {
    if parts == [] then dirs
    else
      var child := JoinSnapshotPath(parent, parts[0]);
      var leaf := |parts| == 1;
      var kind := if leaf then KindOf(node.typ) else Dir;
      var added := dirs[parent := AddChild(ChildrenOf(dirs, parent), child, parts[0], kind, if leaf then AttributesOf(node) else NO_ATTRIBUTES)];
      if kind == File then added
      else AddParts(added[child := ChildrenOf(added, child)], child, parts[1..], node)
  }

  function AddDescendant(base: string, dirs: Directories, node: Node): Directories {
    if node.path == base then dirs
    else
      var validated := ValidateSnapshotPath(node.path);
      if validated.None? then dirs
      else
        var relative := RelativePath(base, validated.value);
        if LeavesBase(relative) then dirs
        else AddParts(dirs, base, Split(relative, '/'), node)
  }

  function RecursiveIndex(base: string, nodes: seq<Node>): Directories {
    if nodes == [] then map[base := map[]]
    else AddDescendant(base, RecursiveIndex(base, nodes[..|nodes| - 1]), nodes[|nodes| - 1])
  }

  // ----- one node, read on path components -----

  /** The components of a node that names a valid path. */
  ghost predicate Names(node: Node, path: seq<string>) {
    ProperPath(path) && ValidateSnapshotPath(node.path) == Some(PathOf(path))
  }

  ghost predicate Ignored(node: Node) {
    ValidateSnapshotPath(node.path).None?
  }

  lemma IgnoredOrNamed(node: Node) returns (path: seq<string>)
    ensures Ignored(node) || Names(node, path)
  {
    path := [];
    if !Ignored(node) {
      path := ValidatedIsPath(node.path);
    }
  }

  /** What a node below `dir` adds to it: its child on the way, a directory unless the node is that child. */
  function Contribution(children: Children, dir: seq<string>, path: seq<string>, node: Node, implied: Attributes): Children
    requires Within(dir, path)
  {
    var name := path[|dir|];
    var own := |path| == |dir| + 1;
    AddChild(children, PathOf(dir + [name]), name, if own then KindOf(node.typ) else Dir, if own then AttributesOf(node) else implied)
  }

  lemma BaseNamesItself(node: Node, path: seq<string>, base: seq<string>)
    requires Names(node, path) && ProperPath(base) && node.path == PathOf(base)
    ensures path == base
  {
    if base == [] {
      assert node.path == "/";
      assert TrimEnd("/", IsSlash) == TrimEnd("", IsSlash) == "";
      assert PathOf(path) == PathOf(base);
    } else {
      JoinEnds(base);
      assert TrimEnd(node.path, IsSlash) == node.path;
      assert PathOf(path) == PathOf(base);
    }
    PathOfInjective(path, base);
  }

  lemma AddPathMeaning(dir: seq<string>, children: Children, node: Node, path: seq<string>)
    requires ProperPath(dir) && ProperPath(path)
    ensures AddPath(PathOf(dir), children, PathOf(path), node) ==
            if Within(dir, path) then Contribution(children, dir, path, node, AttributesOf(node)) else children
  {
    ChildNameMeaning(dir, path);
    if Within(dir, path) {
      JoinIsPath(dir, path[|dir|]);
    }
  }

  lemma DirectChildMeaning(dir: seq<string>, children: Children, node: Node, path: seq<string>)
    requires ProperPath(dir) && Names(node, path)
    ensures AddDirectChild(PathOf(dir), children, node) ==
            if Within(dir, path) then Contribution(children, dir, path, node, AttributesOf(node)) else children
  {
    if node.path == PathOf(dir) {
      BaseNamesItself(node, path, dir);
    } else {
      AddPathMeaning(dir, children, node, path);
    }
  }

  lemma DescendantMeaning(base: seq<string>, dirs: Directories, node: Node, path: seq<string>)
    requires ProperPath(base) && Names(node, path)
    ensures AddDescendant(PathOf(base), dirs, node) ==
            if Within(base, path) then AddParts(dirs, PathOf(base), path[|base|..], node) else dirs
  {
    if node.path == PathOf(base) {
      BaseNamesItself(node, path, base);
    } else {
      RelativeMeaning(base, path);
      if Within(base, path) {
        SplitRelative(base, path);
      }
    }
  }

  lemma SplitRelative(base: seq<string>, path: seq<string>)
    requires ProperPath(base) && ProperPath(path) && Within(base, path)
    ensures Split(RelativePath(PathOf(base), PathOf(path)), '/') == path[|base|..]
  {
    RelativeMeaning(base, path);
    SplitJoin(path[|base|..], '/');
  }

  /** After adding a node, what has become of directory `dir`. */
  ghost predicate DirAfter(dirs: Directories, after: Directories, from: seq<string>, path: seq<string>, node: Node, dir: seq<string>) {
    if from <= dir && Within(dir, path) then
      PathOf(dir) in after && after[PathOf(dir)] == Contribution(ChildrenOf(dirs, PathOf(dir)), dir, path, node, NO_ATTRIBUTES)
    else if dir == path && node.typ == "dir" then
      PathOf(dir) in after && after[PathOf(dir)] == ChildrenOf(dirs, PathOf(dir))
    else
      (PathOf(dir) in after <==> PathOf(dir) in dirs) && ChildrenOf(after, PathOf(dir)) == ChildrenOf(dirs, PathOf(dir))
  }

  lemma SamePath(a: seq<string>, b: seq<string>)
    requires ProperPath(a) && ProperPath(b)
    ensures PathOf(a) == PathOf(b) <==> a == b
  {
    if PathOf(a) == PathOf(b) {
      PathOfInjective(a, b);
    }
  }

  /** One level of the walk: the child is added to its parent. */
  function AddLevel(dirs: Directories, from: seq<string>, path: seq<string>, node: Node): Directories
    requires Within(from, path)
  {
    dirs[PathOf(from) := Contribution(ChildrenOf(dirs, PathOf(from)), from, path, node, NO_ATTRIBUTES)]
  }

  function OpenChild(dirs: Directories, child: seq<string>): Directories {
    dirs[PathOf(child) := ChildrenOf(dirs, PathOf(child))]
  }

  lemma AddPartsUnfolds(dirs: Directories, from: seq<string>, path: seq<string>, node: Node)
    requires ProperPath(path) && Within(from, path)
    ensures var child := path[..|from| + 1];
            var added := AddLevel(dirs, from, path, node);
            AddParts(dirs, PathOf(from), path[|from|..], node) ==
              if child == path && node.typ != "dir" then added
              else AddParts(OpenChild(added, child), PathOf(child), path[|child|..], node)
  {
    var child := path[..|from| + 1];
    assert from == path[..|from|] && child == from + [path[|from|]];
    assert path[|from|..][1..] == path[|child|..];
    JoinIsPath(from, path[|from|]);
  }

  lemma {:induction false} AddPartsMeaning(dirs: Directories, from: seq<string>, path: seq<string>, node: Node, dir: seq<string>)
    requires ProperPath(path) && ProperPath(dir) && Within(from, path)
    ensures DirAfter(dirs, AddParts(dirs, PathOf(from), path[|from|..], node), from, path, node, dir)
    decreases |path| - |from|
  {
    var child := path[..|from| + 1];
    var added := AddLevel(dirs, from, path, node);
    AddPartsUnfolds(dirs, from, path, node);
    assert ProperPath(from) && ProperPath(child) by {
      assert from == path[..|from|];
    }
    SamePath(from, dir);
    SamePath(child, dir);
    SamePath(from, child);
    if child == path {
      assert path[|child|..] == [];
    } else {
      AddPartsMeaning(OpenChild(added, child), child, path, node, dir);
      assert child <= dir && dir <= path ==> from <= dir;
      assert from <= dir && dir < path && dir != from ==> child <= dir;
    }
  }
}
