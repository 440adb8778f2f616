/** Absolute snapshot paths: the string helpers of the browser and their meaning on path components. */
module SnapshotPaths {
  import opened Wrappers
  import opened Text

  predicate IsForbidden(c: char) { c == '\0' || c == '\\' || c == '\r' || c == '\n' }

  predicate IsDotted(part: string) { part == "" || part == "." || part == ".." }

  function ValidateSnapshotPath(value: string): Option<string> {
    if value == "" then Some("/")
    else if exists i :: 0 <= i < |value| && IsForbidden(value[i]) then None
    else if value[0] != '/' then None
    else
      var normalized := TrimEnd(value, IsSlash);
      if normalized == "" then Some("/")
      else
        var parts := Split(normalized, '/');
        if exists i :: 1 <= i < |parts| && IsDotted(parts[i]) then None
        else Some(normalized)
  }

  function RelativePath(base: string, child: string): string {
    if base == "/" then Trim(child, IsSlash)
    else if base + "/" <= child then child[|base| + 1..]
    else child
  }

  predicate LeavesBase(relative: string) {
    relative == "" || "/" <= relative || relative == ".." || "../" <= relative
  }

  function ChildName(base: string, child: string): Option<string> {
    var relative := RelativePath(base, child);
    if LeavesBase(relative) then None else Some(Split(relative, '/')[0])
  }

  function JoinSnapshotPath(base: string, name: string): string {
    if base == "/" then "/" + name else base + "/" + name
  }

  // ----- paths as component lists -----

  predicate Proper(name: string) {
    !IsDotted(name) && '/' !in name
  }

  predicate ProperPath(parts: seq<string>) {
    forall i :: 0 <= i < |parts| ==> Proper(parts[i])
  }

  function PathOf(parts: seq<string>): string {
    "/" + Join(parts, '/')
  }

  predicate Within(base: seq<string>, path: seq<string>) {
    base < path
  }

  /** Every accepted path names exactly one list of proper components. */
  lemma ValidatedIsPath(value: string) returns (parts: seq<string>)
    requires ValidateSnapshotPath(value).Some?
    ensures ProperPath(parts) && ValidateSnapshotPath(value).value == PathOf(parts)
  {
    var n := ValidateSnapshotPath(value).value;
    if n == "/" {
      parts := [];
      assert Join(parts, '/') == "";
    } else {
      assert n[0] == '/';
      parts := Split(n[1..], '/');
      assert Split(n, '/') == [[]] + parts;
      JoinSplit(n[1..], '/');
      SplitPieces(n[1..], '/');
      forall i | 0 <= i < |parts|
        ensures Proper(parts[i])
      {
        assert Split(n, '/')[i + 1] == parts[i];
      }
    }
  }

  lemma PathOfInjective(a: seq<string>, b: seq<string>)
    requires ProperPath(a) && ProperPath(b) && PathOf(a) == PathOf(b)
    ensures a == b
  {
    assert PathOf(a)[1..] == Join(a, '/') && PathOf(b)[1..] == Join(b, '/');
    if a != [] && b != [] {
      SplitJoin(a, '/');
      SplitJoin(b, '/');
    } else if a != [] {
      JoinNonEmpty(a);
    } else if b != [] {
      JoinNonEmpty(b);
    }
  }

  lemma JoinNonEmpty(parts: seq<string>)
    requires ProperPath(parts) && parts != []
    ensures |Join(parts, '/')| >= |parts[0]| > 0
    ensures Join(parts, '/')[..|parts[0]|] == parts[0]
  { }

  lemma {:induction false} JoinAppend(a: seq<string>, b: seq<string>)
    requires a != [] && b != []
    ensures Join(a + b, '/') == Join(a, '/') + "/" + Join(b, '/')
  {
    if |a| == 1 {
      assert (a + b)[1..] == b;
    } else {
      assert (a + b)[1..] == a[1..] + b;
      JoinAppend(a[1..], b);
    }
  }

  lemma JoinIsPath(base: seq<string>, name: string)
    requires ProperPath(base)
    ensures JoinSnapshotPath(PathOf(base), name) == PathOf(base + [name])
  {
    if base == [] {
      assert base + [name] == [name];
    } else {
      JoinNonEmpty(base);
      JoinAppend(base, [name]);
    }
  }

  /** `base/` is a textual prefix of a path exactly when `base` is a proper ancestor of it. */
  lemma PrefixIsAncestor(base: seq<string>, path: seq<string>)
    requires ProperPath(base) && ProperPath(path) && base != []
    ensures PathOf(base) + "/" <= PathOf(path) <==> Within(base, path)
  {
    if Within(base, path) {
      DescendantText(base, path);
    }
    if PathOf(base) + "/" <= PathOf(path) {
      PrefixSplits(base, path, PathOf(path)[|PathOf(base)| + 1..]);
    }
  }

  lemma DescendantText(base: seq<string>, path: seq<string>)
    requires ProperPath(base) && ProperPath(path) && base != [] && Within(base, path)
    ensures PathOf(path) == PathOf(base) + "/" + Join(path[|base|..], '/')
  {
    assert path == base + path[|base|..];
    JoinAppend(base, path[|base|..]);
  }

  lemma PrefixSplits(base: seq<string>, path: seq<string>, rest: string)
    requires ProperPath(base) && ProperPath(path) && base != []
    requires PathOf(path) == PathOf(base) + "/" + rest
    ensures Within(base, path)
  {
    assert PathOf(path)[1..] == Join(path, '/');
    assert Join(path, '/') == Join(base, '/') + ("/" + rest);
    SplitBelow(base, rest);
    if path != [] {
      SplitJoin(path, '/');
    }
  }

  lemma SplitBelow(base: seq<string>, rest: string)
    requires ProperPath(base) && base != []
    ensures Split(Join(base, '/') + ("/" + rest), '/') == base + Split(rest, '/')
  {
    SplitJoin(base, '/');
    SplitConcat(Join(base, '/'), "/" + rest, '/');
    LastComponent(base, rest);
  }

  lemma LastComponent(base: seq<string>, rest: string)
    requires ProperPath(base) && base != []
    ensures base[..|base| - 1] + Split(base[|base| - 1] + ("/" + rest), '/') == base + Split(rest, '/')
  {
    var n := |base| - 1;
    assert base[n] + ("/" + rest) == base[n] + ['/'] + rest;
    LeadingPiece(base[n], rest, '/');
    assert base == base[..n] + [base[n]];
  }

  lemma {:induction false} JoinEnds(parts: seq<string>)
    requires ProperPath(parts) && parts != []
    ensures var s := Join(parts, '/'); s != "" && s[0] != '/' && s[|s| - 1] != '/'
  {
    JoinNonEmpty(parts);
    assert parts[0][0] in parts[0];
    if |parts| == 1 {
      assert parts[0][|parts[0]| - 1] in parts[0];
    } else {
      JoinEnds(parts[1..]);
    }
  }

  /** What the browser's relative path of `path` under `base` is. */
  lemma RelativeMeaning(base: seq<string>, path: seq<string>)
    requires ProperPath(base) && ProperPath(path)
    ensures Within(base, path) ==> RelativePath(PathOf(base), PathOf(path)) == Join(path[|base|..], '/')
    ensures LeavesBase(RelativePath(PathOf(base), PathOf(path))) <==> !Within(base, path)
  {
    if base == [] {
      RelativeToRoot(path);
    } else {
      RelativeToDirectory(base, path);
    }
    if Within(base, path) {
      StaysInside(path[|base|..]);
    }
  }

  lemma RelativeToRoot(path: seq<string>)
    requires ProperPath(path)
    ensures RelativePath("/", PathOf(path)) == Join(path, '/')
    ensures path[0..] == path && PathOf([]) == "/"
  {
    assert "/" + "" == "/";
    if path == [] {
      TrimLeading('/', "", IsSlash);
    } else {
      JoinEnds(path);
      TrimLeading('/', Join(path, '/'), IsSlash);
    }
  }

  lemma RelativeToDirectory(base: seq<string>, path: seq<string>)
    requires ProperPath(base) && ProperPath(path) && base != []
    ensures RelativePath(PathOf(base), PathOf(path)) == if Within(base, path) then Join(path[|base|..], '/') else PathOf(path)
  {
    JoinNonEmpty(base);
    PrefixIsAncestor(base, path);
    if Within(base, path) {
      DescendantText(base, path);
    }
  }

  lemma StaysInside(parts: seq<string>)
    requires ProperPath(parts) && parts != []
    ensures !LeavesBase(Join(parts, '/'))
  {
    JoinEnds(parts);
    SplitJoin(parts, '/');
    assert Proper(parts[0]);
    var s := Join(parts, '/');
    if s == ".." {
      SplitNone(s, '/');
    }
    if "../" <= s {
      assert s == ".." + ['/'] + s[3..];
      LeadingPiece("..", s[3..], '/');
    }
  }

  /** The child of `base` on the way to `path`, and whether `path` lies deeper. */
  lemma ChildNameMeaning(base: seq<string>, path: seq<string>)
    requires ProperPath(base) && ProperPath(path)
    ensures ChildName(PathOf(base), PathOf(path)) == if Within(base, path) then Some(path[|base|]) else None
    ensures Within(base, path) ==> ('/' in RelativePath(PathOf(base), PathOf(path)) <==> |path| > |base| + 1)
  {
    RelativeMeaning(base, path);
    if Within(base, path) {
      var rest := path[|base|..];
      SplitJoin(rest, '/');
      if |rest| == 1 {
        assert Join(rest, '/') == rest[0];
      } else {
        assert Join(rest, '/')[|rest[0]|] == '/';
      }
    }
  }

  // ----- exactly which paths are accepted -----

  /** A component as a snapshot may have it: a dot in front is nothing special. */
  predicate IsComponent(part: string) {
    && part != "" && part != "." && part != ".."
    && forall i :: 0 <= i < |part| ==> part[i] != '/' && part[i] != '\\' && part[i] != '\0' && part[i] != '\r' && part[i] != '\n'
  }

  predicate AreComponents(parts: seq<string>) {
    forall i :: 0 <= i < |parts| ==> IsComponent(parts[i])
  }

  function Slashes(n: nat): string {
    if n == 0 then "" else Slashes(n - 1) + "/"
  }

  lemma {:induction false} TrimSlashes(s: string, n: nat)
    ensures TrimEnd(s + Slashes(n), IsSlash) == TrimEnd(s, IsSlash)
  {
    if n == 0 {
      assert s + "" == s;
    } else {
      var t := s + Slashes(n);
      assert t == s + Slashes(n - 1) + "/";
      assert t[|t| - 1] == '/' && t[..|t| - 1] == s + Slashes(n - 1);
      TrimSlashes(s, n - 1);
    }
  }

  lemma {:induction false} OnlySlashes(n: nat)
    ensures forall i :: 0 <= i < |Slashes(n)| ==> Slashes(n)[i] == '/'
  {
    if n > 0 {
      OnlySlashes(n - 1);
    }
  }

  lemma {:induction false} JoinAllowed(parts: seq<string>)
    requires AreComponents(parts)
    ensures forall i :: 0 <= i < |Join(parts, '/')| ==> !IsForbidden(Join(parts, '/')[i])
  {
    if |parts| > 1 {
      JoinAllowed(parts[1..]);
    }
  }

  lemma ComponentsAreProper(parts: seq<string>)
    requires AreComponents(parts)
    ensures ProperPath(parts)
  { }

  lemma NormalizedText(parts: seq<string>, n: nat)
    requires AreComponents(parts)
    ensures TrimEnd(PathOf(parts) + Slashes(n), IsSlash) == if parts == [] then "" else PathOf(parts)
  {
    TrimSlashes(PathOf(parts), n);
    ComponentsAreProper(parts);
    if parts == [] {
      assert PathOf(parts) == "/" && "/"[..0] == "";
      assert TrimEnd("", IsSlash) == "";
    } else {
      JoinEnds(parts);
    }
  }

  lemma NoDottedPart(parts: seq<string>)
    requires AreComponents(parts) && parts != []
    ensures Split(PathOf(parts), '/') == [""] + parts
  {
    SplitJoin(parts, '/');
    assert PathOf(parts)[1..] == Join(parts, '/');
  }

  lemma AllowedText(parts: seq<string>, n: nat)
    requires AreComponents(parts)
    ensures var value := PathOf(parts) + Slashes(n); value != "" && value[0] == '/' && forall i :: 0 <= i < |value| ==> !IsForbidden(value[i])
  {
    JoinAllowed(parts);
    OnlySlashes(n);
  }

  /** Every path of such components is accepted as it is, slashes at its end left out. */
  lemma ComponentsAreAccepted(parts: seq<string>, n: nat)
    requires AreComponents(parts)
    ensures ValidateSnapshotPath(PathOf(parts) + Slashes(n)) == Some(PathOf(parts))
  {
    AllowedText(parts, n);
    NormalizedText(parts, n);
    if parts == [] {
      assert PathOf(parts) == "/";
    } else {
      NoDottedPart(parts);
    }
  }

  lemma {:induction false} TrimmedIsSlashes(s: string) returns (n: nat)
    ensures s == TrimEnd(s, IsSlash) + Slashes(n)
  {
    n := 0;
    if s != "" && s[|s| - 1] == '/' {
      n := TrimmedIsSlashes(s[..|s| - 1]);
      assert s == s[..|s| - 1] + "/";
      n := n + 1;
    } else {
      assert s + "" == s;
    }
  }

  /** Nothing else is accepted, but the empty path, which stands for the root. */
  lemma OnlyComponentsAreAccepted(value: string) returns (parts: seq<string>, n: nat)
    requires ValidateSnapshotPath(value).Some?
    ensures AreComponents(parts) && ValidateSnapshotPath(value) == Some(PathOf(parts))
    ensures value == "" || value == PathOf(parts) + Slashes(n)
  {
    parts := ValidatedIsPath(value);
    var normalized := TrimEnd(value, IsSlash);
    n := TrimmedIsSlashes(value);
    if normalized == "" {
      RootOnly(parts);
      if value != "" {
        SlashFirst(value, n);
        n := n - 1;
      }
    } else {
      PartsAreComponents(value, parts);
    }
  }

  lemma RootOnly(parts: seq<string>)
    requires ProperPath(parts) && PathOf(parts) == "/"
    ensures parts == []
  {
    assert PathOf(parts)[1..] == Join(parts, '/');
    if parts != [] {
      JoinNonEmpty(parts);
    }
  }

  lemma {:induction false} SlashFirst(value: string, n: nat)
    requires value != "" && value == "" + Slashes(n)
    ensures n > 0 && value == "/" + Slashes(n - 1)
    decreases n
  {
    if n > 1 {
      SlashFirst("" + Slashes(n - 1), n - 1);
      assert Slashes(n) == Slashes(n - 1) + "/" == "/" + Slashes(n - 2) + "/";
    }
  }

  lemma PartsAreComponents(value: string, parts: seq<string>)
    requires ProperPath(parts) && PathOf(parts) <= value && forall i :: 0 <= i < |value| ==> !IsForbidden(value[i])
    ensures AreComponents(parts)
  {
    var text := PathOf(parts);
    assert forall i :: 0 <= i < |text| ==> text[i] == value[i];
    assert text[1..] == Join(parts, '/');
    assert forall i :: 0 <= i < |Join(parts, '/')| ==> Join(parts, '/')[i] == text[i + 1];
    PartsInText(parts);
  }

  lemma {:induction false} PartsInText(parts: seq<string>)
    requires ProperPath(parts) && forall i :: 0 <= i < |Join(parts, '/')| ==> !IsForbidden(Join(parts, '/')[i])
    ensures AreComponents(parts)
  {
    if |parts| == 1 {
      assert Join(parts, '/') == parts[0];
    } else if |parts| > 1 {
      var text, rest := Join(parts, '/'), Join(parts[1..], '/');
      assert text == parts[0] + ['/'] + rest;
      assert forall i :: 0 <= i < |parts[0]| ==> text[i] == parts[0][i];
      assert forall i :: 0 <= i < |rest| ==> text[|parts[0]| + 1 + i] == rest[i];
      PartsInText(parts[1..]);
      assert forall i :: 0 < i < |parts| ==> parts[i] == parts[1..][i - 1];
    }
  }
}
