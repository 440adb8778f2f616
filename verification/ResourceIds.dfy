/** Canonical resource ids: one id for a repository or endpoint, however it is written. */
module ResourceIds {
  import opened Wrappers
  import opened Text

  // ----- posixpath.normpath -----

  /** One component after those kept so far; `absolute` tells whether the path starts with a slash. */
  function Push(kept: seq<string>, part: string, absolute: bool): seq<string> {
    if part == "" || part == "." then kept
    else if part != ".." || (!absolute && kept == []) || (kept != [] && kept[|kept| - 1] == "..") then kept + [part]
    else if kept != [] then kept[..|kept| - 1]
    else kept
  }

  function Normalized(parts: seq<string>, absolute: bool): seq<string> {
    if parts == [] then [] else Push(Normalized(parts[..|parts| - 1], absolute), parts[|parts| - 1], absolute)
  }

  function Slashes(path: string): nat {
    if !("/" <= path) then 0 else if "//" <= path && !("///" <= path) then 2 else 1
  }

  function NormPath(path: string): string {
    if path == "" then "."
    else
      var n := Slashes(path);
      var text := (if n == 0 then "" else if n == 1 then "/" else "//") + Join(Normalized(Split(path, '/'), n > 0), '/');
      if text == "" then "." else text
  }

  function Replaced(s: string): string {
    if s == "" then "" else [if s[0] == '\\' then '/' else s[0]] + Replaced(s[1..])
  }

  function NormalizePosixPath(value: string): string {
    var path := Replaced(value);
    var normalized := NormPath(if path == "" then "/" else path);
    var rooted := if "/" <= path && !("/" <= normalized) then "/" + normalized else normalized;
    if rooted == "." then "/" else rooted
  }

  // ----- endpoints -----

  datatype Endpoint = Endpoint(remote: string, path: string)

  function FirstColon(s: string): (i: nat)
    requires ':' in s
    ensures i < |s| && s[i] == ':' && ':' !in s[..i]
  {
    if s[0] == ':' then 0
    else
      var i := FirstColon(s[1..]);
      assert s[..i + 1] == [s[0]] + s[1..][..i];
      i + 1
  }

  function SplitRcloneEndpoint(value: string): Option<Endpoint> {
    if ':' !in value then None
    else
      var i := FirstColon(value);
      if i == 0 || '/' in value[..i] then None
      else Some(Endpoint(value[..i], TrimStart(value[i + 1..], IsSlash)))
  }

  function EndpointId(e: Endpoint): string {
    "rclone:" + e.remote + ":" + NormalizePosixPath(e.path)
  }

  /** The endpoint a value denotes: behind the restic prefix, or directly where that is allowed. */
  function EndpointOf(value: string, allowDirectRclone: bool): Option<Endpoint> {
    var prefixed := if "rclone:" <= value then SplitRcloneEndpoint(value[7..]) else None;
    if prefixed.Some? then prefixed else if allowDirectRclone then SplitRcloneEndpoint(value) else None
  }

  /** `resolve` expands and resolves a local path. */
  function CanonicalResourceId(resolve: string -> string, value: string, allowDirectRclone: bool): string {
    var endpoint := EndpointOf(value, allowDirectRclone);
    if endpoint.Some? then EndpointId(endpoint.value)
    else if "/" <= value || "~" <= value then "local:" + resolve(value)
    else "repo:" + value
  }

  function RepositoryId(resolve: string -> string, repository: string): string {
    CanonicalResourceId(resolve, repository, false)
  }

  function RcloneEndpointId(resolve: string -> string, endpoint: string): string {
    CanonicalResourceId(resolve, endpoint, true)
  }

  predicate IsRemote(remote: string) {
    remote != "" && '/' !in remote && ':' !in remote
  }

  lemma {:induction false} FirstColonIs(s: string, i: nat)
    requires i < |s| && s[i] == ':' && ':' !in s[..i]
    ensures ':' in s && FirstColon(s) == i
  {
    if i > 0 {
      assert s[0] == s[..i][0];
      assert s[..i] == [s[0]] + s[1..][..i - 1];
      FirstColonIs(s[1..], i - 1);
    }
  }

  lemma EndpointParts(remote: string, path: string)
    requires IsRemote(remote)
    ensures SplitRcloneEndpoint(remote + ":" + path) == Some(Endpoint(remote, TrimStart(path, IsSlash)))
  {
    var value := remote + ":" + path;
    assert value[..|remote|] == remote && value[|remote| + 1..] == path;
    FirstColonIs(value, |remote|);
  }

  lemma PrefixedEndpoint(remote: string, path: string, allowDirectRclone: bool)
    requires IsRemote(remote)
    ensures EndpointOf("rclone:" + remote + ":" + path, allowDirectRclone) == Some(Endpoint(remote, TrimStart(path, IsSlash)))
  {
    var value := "rclone:" + remote + ":" + path;
    assert value == "rclone:" + (remote + ":" + path);
    assert value[7..] == remote + ":" + path;
    EndpointParts(remote, path);
  }

  lemma DirectEndpoint(remote: string, path: string)
    requires IsRemote(remote) && (remote != "rclone" || SplitRcloneEndpoint(path).None?)
    ensures EndpointOf(remote + ":" + path, true) == Some(Endpoint(remote, TrimStart(path, IsSlash)))
  {
    EndpointParts(remote, path);
    if "rclone:" <= remote + ":" + path {
      RemoteIsRclone(remote, path);
    }
  }

  lemma DropPrefix(prefix: string, path: string)
    ensures prefix <= prefix + path && (prefix + path)[|prefix|..] == path
  { }

  lemma ShadowedEndpoint(path: string)
    requires SplitRcloneEndpoint(path).Some?
    ensures EndpointOf("rclone:" + path, true) == SplitRcloneEndpoint(path)
  {
    DropPrefix("rclone:", path);
  }

  lemma EndpointPathIsShorter(path: string)
    requires SplitRcloneEndpoint(path).Some?
    ensures |SplitRcloneEndpoint(path).value.path| < |TrimStart(path, IsSlash)|
  {
    var i := FirstColon(path);
    assert path[0] == path[..i][0];
  }

  lemma PrefixText(path: string)
    ensures "rclone" + ":" + path == "rclone:" + path
  { }

  lemma ShadowedDiffers(value: string, remote: string, path: string)
    requires SplitRcloneEndpoint(path).Some? && EndpointOf(value, true) == SplitRcloneEndpoint(path)
    ensures EndpointOf(value, true) != Some(Endpoint(remote, TrimStart(path, IsSlash)))
  {
    EndpointPathIsShorter(path);
  }

  lemma DirectlyShadowed(remote: string, path: string)
    requires remote == "rclone" && SplitRcloneEndpoint(path).Some?
    ensures EndpointOf(remote + ":" + path, true) != Some(Endpoint(remote, TrimStart(path, IsSlash)))
  {
    PrefixText(path);
    ShadowedEndpoint(path);
    ShadowedDiffers("rclone:" + path, remote, path);
  }

  /**
   Behind the restic prefix and on its own an endpoint is the same, exactly unless its remote is itself called "rclone"
   and its path reads as another endpoint.
   */
  lemma SameEndpointIff(remote: string, path: string)
    requires IsRemote(remote)
    ensures EndpointOf("rclone:" + remote + ":" + path, false) == EndpointOf(remote + ":" + path, true) <==>
              remote != "rclone" || SplitRcloneEndpoint(path).None?
  {
    PrefixedEndpoint(remote, path, false);
    if remote != "rclone" || SplitRcloneEndpoint(path).None? {
      DirectEndpoint(remote, path);
    } else {
      DirectlyShadowed(remote, path);
    }
  }

  /** How a repository behind rclone and a direct endpoint are written. */
  function BehindRclone(remote: string, path: string): string {
    "rclone:" + remote + ":" + path
  }

  function Direct(remote: string, path: string): string {
    remote + ":" + path
  }

  /** The remote is called "rclone", and its path reads as an endpoint on another remote or with another normal path. */
  predicate Shadowed(remote: string, path: string) {
    && remote == "rclone" && SplitRcloneEndpoint(path).Some?
    && (var inner := SplitRcloneEndpoint(path).value;
        inner.remote != "rclone" || NormalizePosixPath(inner.path) != NormalizePosixPath(TrimStart(path, IsSlash)))
  }

  lemma {:induction false} SameColon(a: string, b: string, c: string, d: string)
    requires ':' !in a && ':' !in c && a + ":" + b == c + ":" + d
    ensures a == c && b == d
  {
    FirstColonIs(a + ":" + b, |a|);
    FirstColonIs(c + ":" + d, |c|);
    assert (a + ":" + b)[..|a|] == a && (c + ":" + d)[..|c|] == c;
    assert (a + ":" + b)[|a| + 1..] == b && (c + ":" + d)[|c| + 1..] == d;
  }

  lemma BehindPrefix(remote: string, path: string)
    ensures ("rclone:" + remote + ":" + path)[7..] == remote + ":" + path
  { }

  /** Ids of endpoints are equal exactly if the remotes and the normalised paths are. */
  lemma EndpointIdsEqualIff(a: Endpoint, b: Endpoint)
    requires ':' !in a.remote && ':' !in b.remote
    ensures EndpointId(a) == EndpointId(b) <==> a.remote == b.remote && NormalizePosixPath(a.path) == NormalizePosixPath(b.path)
  {
    if EndpointId(a) == EndpointId(b) {
      BehindPrefix(a.remote, NormalizePosixPath(a.path));
      BehindPrefix(b.remote, NormalizePosixPath(b.path));
      SameColon(a.remote, NormalizePosixPath(a.path), b.remote, NormalizePosixPath(b.path));
    }
  }

  /**
   A restic repository behind rclone and the endpoint itself get one resource id exactly unless the remote is itself called
   "rclone" and its path reads as an endpoint on another remote or with another normal path.
   */
  lemma RepositoryAndEndpointShareIdIff(resolve: string -> string, remote: string, path: string)
    requires IsRemote(remote)
    ensures RepositoryId(resolve, BehindRclone(remote, path)) == RcloneEndpointId(resolve, Direct(remote, path)) <==> !Shadowed(remote, path)
  {
    PrefixedEndpoint(remote, path, false);
    if remote == "rclone" && SplitRcloneEndpoint(path).Some? {
      PrefixText(path);
      ShadowedEndpoint(path);
      EndpointIdsEqualIff(SplitRcloneEndpoint(path).value, Endpoint(remote, TrimStart(path, IsSlash)));
    } else {
      DirectEndpoint(remote, path);
    }
  }

  /** The repository rclone:rclone:b2:x lies on the remote "rclone", but the endpoint rclone:b2:x is taken for the remote "b2". */
  lemma ShadowedRemote(resolve: string -> string)
    ensures RepositoryId(resolve, "rclone:rclone:b2:x") != RcloneEndpointId(resolve, "rclone:b2:x")
  {
    assert BehindRclone("rclone", "b2:x") == "rclone:rclone:b2:x" && Direct("rclone", "b2:x") == "rclone:b2:x";
    EndpointParts("b2", "x");
    assert "b2" + ":" + "x" == "b2:x";
    RepositoryAndEndpointShareIdIff(resolve, "rclone", "b2:x");
  }

  lemma RemoteIsRclone(remote: string, path: string)
    requires IsRemote(remote) && "rclone:" <= remote + ":" + path
    ensures remote == "rclone" && (remote + ":" + path)[7..] == path
  {
    var endpoint := remote + ":" + path;
    assert endpoint[..|remote|] == remote;
    FirstColonIs(endpoint, |remote|);
    assert endpoint[6] == "rclone:"[6] == ':';
    assert endpoint[..6] == "rclone:"[..6] == "rclone";
    FirstColonIs(endpoint, 6);
  }

  // ----- a canonical id is its own canonical id -----

  predicate Plain(part: string) {
    part != "" && part != "." && '/' !in part
  }

  /** Parent references only in front, and no empty or dot component. */
  predicate Reduced(parts: seq<string>) {
    && (forall i :: 0 <= i < |parts| ==> Plain(parts[i]))
    && (forall i :: 0 < i < |parts| && parts[i] == ".." ==> parts[i - 1] == "..")
  }

  lemma {:induction false} NormalizedIsReduced(parts: seq<string>)
    requires forall i :: 0 <= i < |parts| ==> '/' !in parts[i]
    ensures Reduced(Normalized(parts, false))
  {
    if parts != [] {
      NormalizedIsReduced(parts[..|parts| - 1]);
    }
  }

  lemma {:induction false} ReducedIsNormalized(parts: seq<string>)
    requires Reduced(parts)
    ensures Normalized(parts, false) == parts
  {
    if parts != [] {
      ReducedIsNormalized(parts[..|parts| - 1]);
      assert parts == parts[..|parts| - 1] + [parts[|parts| - 1]];
    }
  }

  /** One component followed from a place in the tree; above the root is the root. */
  function Follow(place: seq<string>, part: string): seq<string> {
    if part == "" || part == "." then place
    else if part != ".." then place + [part]
    else if place == [] then place
    else place[..|place| - 1]
  }

  function Walk(start: seq<string>, parts: seq<string>): seq<string> {
    if parts == [] then start else Follow(Walk(start, parts[..|parts| - 1]), parts[|parts| - 1])
  }

  lemma WalkSnoc(start: seq<string>, parts: seq<string>, part: string)
    ensures Walk(start, parts + [part]) == Follow(Walk(start, parts), part)
  {
    assert (parts + [part])[..|parts|] == parts;
  }

  lemma PushFollows(start: seq<string>, kept: seq<string>, part: string, absolute: bool)
    requires Steps(kept) && (absolute ==> start == [])
    ensures Walk(start, Push(kept, part, absolute)) == Follow(Walk(start, kept), part)
  {
    WalkSnoc(start, kept, part);
    if kept != [] {
      var before, last := kept[..|kept| - 1], kept[|kept| - 1];
      assert kept == before + [last];
      WalkSnoc(start, before, last);
    }
  }

  predicate Steps(parts: seq<string>) {
    forall i :: 0 <= i < |parts| ==> parts[i] != "" && parts[i] != "."
  }

  /** Normalising keeps the place a path leads to, from wherever it starts. */
  lemma {:induction false} NormalizingKeepsThePlace(start: seq<string>, parts: seq<string>, absolute: bool)
    requires absolute ==> start == []
    ensures Walk(start, Normalized(parts, absolute)) == Walk(start, parts) && Steps(Normalized(parts, absolute))
  {
    if parts != [] {
      NormalizingKeepsThePlace(start, parts[..|parts| - 1], absolute);
      PushFollows(start, Normalized(parts[..|parts| - 1], absolute), parts[|parts| - 1], absolute);
    }
  }

  lemma {:induction false} NothingReplaced(s: string)
    requires '\\' !in s
    ensures Replaced(s) == s
  {
    if s != "" {
      NothingReplaced(s[1..]);
    }
  }

  lemma {:induction false} JoinedHasNoBackslash(parts: seq<string>)
    requires forall i :: 0 <= i < |parts| ==> '\\' !in parts[i]
    ensures '\\' !in Join(parts, '/')
  {
    if |parts| > 1 {
      JoinedHasNoBackslash(parts[1..]);
    }
  }

  lemma {:induction false} NormalizedParts(parts: seq<string>, absolute: bool)
    ensures forall part :: part in Normalized(parts, absolute) ==> part in parts
  {
    if parts != [] {
      var before := Normalized(parts[..|parts| - 1], absolute);
      NormalizedParts(parts[..|parts| - 1], absolute);
      forall part | part in Normalized(parts, absolute)
        ensures part in parts
      {
        assert part in before || part == parts[|parts| - 1];
      }
    }
  }

  lemma {:induction false} PiecesOf(s: string, c: char, sep: char)
    requires c !in s
    ensures forall part :: part in Split(s, sep) ==> c !in part
  {
    if s != "" {
      PiecesOf(s[1..], c, sep);
      assert forall part :: part in Split(s[1..], sep) ==> c !in part;
      assert Split(s[1..], sep)[0] in Split(s[1..], sep);
    }
  }

  lemma PartsOfRelative(path: string)
    requires '\\' !in path
    ensures var parts := Normalized(Split(path, '/'), false); Reduced(parts) && '\\' !in Join(parts, '/')
  {
    SplitPieces(path, '/');
    NormalizedIsReduced(Split(path, '/'));
    PiecesOf(path, '\\', '/');
    NormalizedParts(Split(path, '/'), false);
    JoinedHasNoBackslash(Normalized(Split(path, '/'), false));
  }

  /** A relative path without backslashes: what its normal form is. */
  lemma NormalFormOfRelative(path: string) returns (parts: seq<string>)
    requires path != "" && !("/" <= path) && '\\' !in path
    ensures Reduced(parts) && '\\' !in Join(parts, '/') && parts == Normalized(Split(path, '/'), false)
    ensures NormalizePosixPath(path) == if parts == [] then "/" else Join(parts, '/')
  {
    parts := Normalized(Split(path, '/'), false);
    PartsOfRelative(path);
    NothingReplaced(path);
    assert "" + Join(parts, '/') == Join(parts, '/');
    if parts != [] {
      ReducedText(parts);
    }
  }

  lemma ReducedText(parts: seq<string>)
    requires Reduced(parts) && parts != []
    ensures var text := Join(parts, '/'); text != "" && text != "." && !("/" <= text) && Split(text, '/') == parts
  {
    SplitJoin(parts, '/');
    assert parts[0] != "" && parts[0][0] in parts[0];
    if Join(parts, '/') == "." {
      SplitNone(".", '/');
    }
  }

  lemma NothingTrimmed(text: string)
    requires !("/" <= text)
    ensures TrimStart(text, IsSlash) == text
  { }

  lemma ReducedStays(parts: seq<string>)
    requires Reduced(parts) && parts != [] && '\\' !in Join(parts, '/')
    ensures NormalizePosixPath(Join(parts, '/')) == Join(parts, '/') && !("/" <= Join(parts, '/'))
  {
    assert Split(Join(parts, '/'), '/') == parts && Join(parts, '/') != "" && !("/" <= Join(parts, '/')) by {
      ReducedText(parts);
    }
    var again := NormalFormOfRelative(Join(parts, '/'));
    assert again == parts by {
      ReducedIsNormalized(parts);
    }
  }

  lemma NormalizeTwice(path: string)
    requires !("/" <= path) && '\\' !in path
    ensures NormalizePosixPath(TrimStart(NormalizePosixPath(path), IsSlash)) == NormalizePosixPath(path)
  {
    RootIsNormal();
    if path != "" {
      var parts := NormalFormOfRelative(path);
      if parts != [] {
        ReducedStays(parts);
        NothingTrimmed(Join(parts, '/'));
      }
    }
  }

  lemma RootIsNormal()
    ensures NormalizePosixPath("") == "/" && NormalizePosixPath("/") == "/" && TrimStart("/", IsSlash) == ""
  {
    assert Split("/", '/') == [[], []] by {
      assert "/"[1..] == "";
    }
    var parts: seq<string> := ["", ""];
    assert parts[..1] == [""] && parts[..1][..0] == [];
    assert Normalized(parts, true) == [];
    assert "/" + "" == "/";
  }

  lemma {:induction false} NoBackslashLeft(s: string)
    ensures '\\' !in Replaced(s) && |Replaced(s)| == |s| && (s != "" ==> (Replaced(s)[0] == '/' <==> s[0] == '/' || s[0] == '\\'))
  {
    if s != "" {
      NoBackslashLeft(s[1..]);
    }
  }

  /** Only the replaced text matters. */
  lemma NormalizeReplaced(path: string)
    ensures NormalizePosixPath(path) == NormalizePosixPath(Replaced(path))
  {
    NoBackslashLeft(path);
    NothingReplaced(Replaced(path));
  }

  lemma NormPathHasNoBackslash(path: string)
    requires '\\' !in path
    ensures '\\' !in NormPath(path)
  {
    if path != "" {
      PiecesOf(path, '\\', '/');
      NormalizedParts(Split(path, '/'), Slashes(path) > 0);
      JoinedHasNoBackslash(Normalized(Split(path, '/'), Slashes(path) > 0));
    }
  }

  lemma NormalHasNoBackslash(path: string)
    ensures '\\' !in NormalizePosixPath(path)
  {
    NoBackslashLeft(path);
    NormPathHasNoBackslash(if Replaced(path) == "" then "/" else Replaced(path));
  }

  lemma NormalOfRelativeIsRelative(path: string)
    requires !("/" <= path) && '\\' !in path
    ensures NormalizePosixPath(path) == "/" || !("/" <= NormalizePosixPath(path))
  {
    RootIsNormal();
    if path != "" {
      var parts := NormalFormOfRelative(path);
      if parts != [] {
        ReducedText(parts);
      }
    }
  }

  /** Normalising twice changes nothing exactly unless a leading backslash has become the root of a longer path. */
  lemma NormalizeTwiceIff(path: string)
    requires !("/" <= path)
    ensures NormalizePosixPath(TrimStart(NormalizePosixPath(path), IsSlash)) == NormalizePosixPath(path) <==>
              !("\\" <= path) || NormalizePosixPath(path) == "/"
  {
    var normal := NormalizePosixPath(path);
    NoBackslashLeft(path);
    NormalizeReplaced(path);
    if "\\" <= path {
      RootIsNormal();
      RootedStaysRooted(path);
      NormalHasNoBackslash(path);
      NormalOfRelativeIsRelative(TrimStart(normal, IsSlash));
    } else {
      NormalizeTwice(Replaced(path));
    }
  }

  lemma RootedStaysRooted(path: string)
    requires "\\" <= path
    ensures "/" <= NormalizePosixPath(path)
  {
    NoBackslashLeft(path);
  }

  /**
   Canonicalising an endpoint's id again changes nothing exactly unless its path begins with a backslash and is more than the
   root: the backslash becomes a leading slash, which the second reading drops.
   */
  lemma CanonicalIdIsStableIff(resolve: string -> string, remote: string, path: string, allowDirectRclone: bool)
    requires IsRemote(remote)
    ensures var relative := TrimStart(path, IsSlash);
            var id := EndpointId(Endpoint(remote, relative));
            CanonicalResourceId(resolve, id, allowDirectRclone) == id <==> !("\\" <= relative) || NormalizePosixPath(relative) == "/"
  {
    var relative := TrimStart(path, IsSlash);
    var normal := NormalizePosixPath(relative);
    PrefixedEndpoint(remote, normal, allowDirectRclone);
    EndpointIdsEqualIff(Endpoint(remote, TrimStart(normal, IsSlash)), Endpoint(remote, relative));
    NormalizeTwiceIff(relative);
  }

  /** The backslash of rclone:r:\x becomes a slash, which the second reading drops. */
  lemma LeadingBackslashIsUnstable(resolve: string -> string)
    ensures var id := EndpointId(Endpoint("r", "\\x")); CanonicalResourceId(resolve, id, true) != id
  {
    var path := "\\x";
    assert TrimStart(path, IsSlash) == path;
    CanonicalIdIsStableIff(resolve, "r", path, true);
    SampleIsLonger();
  }

  lemma SampleIsLonger()
    ensures NormalizePosixPath("\\x") != "/"
  {
    var path := "\\x";
    assert path[1..] == "x" && "x"[1..] == "";
    assert Replaced("x") == "x" && Replaced(path) == "/x";
    LeadingPiece("", "x", '/');
    SplitNone("x", '/');
    assert "" + ['/'] + "x" == "/x";
    assert Split("/x", '/') == ["", "x"];
    var parts := ["", "x"];
    assert parts[..1] == [""] && parts[..1][..0] == [];
    assert Normalized(parts, true) == ["x"];
  }

  // ----- when two values are one resource -----

  /** A value that is no endpoint and begins like a local path. */
  predicate IsLocal(value: string, allowDirectRclone: bool) {
    EndpointOf(value, allowDirectRclone).None? && value != "" && (value[0] == '/' || value[0] == '~')
  }

  /** A value that is neither an endpoint nor a local path: the address of a remote repository. */
  predicate IsAddress(value: string, allowDirectRclone: bool) {
    EndpointOf(value, allowDirectRclone).None? && (value == "" || (value[0] != '/' && value[0] != '~'))
  }

  /** A restic repository is an endpoint only behind the prefix: any other text with a colon is an address. */
  lemma RepositoryNeedsPrefix(value: string)
    ensures !("rclone:" <= value) ==> EndpointOf(value, false).None?
    ensures "rclone:" <= value ==> EndpointOf(value, false) == SplitRcloneEndpoint(value[7..])
  { }

  lemma PrefixTells(prefix: string, a: string, b: string)
    ensures prefix + a == prefix + b <==> a == b
  {
    assert (prefix + a)[|prefix|..] == a && (prefix + b)[|prefix|..] == b;
  }

  lemma LocalId(resolve: string -> string, value: string, allowDirectRclone: bool)
    requires IsLocal(value, allowDirectRclone)
    ensures CanonicalResourceId(resolve, value, allowDirectRclone) == "local:" + resolve(value)
  {
    assert "/" <= value || "~" <= value;
  }

  /** Two local paths are one resource exactly if they resolve to one path. */
  lemma LocalIdsEqualIff(resolve: string -> string, a: string, b: string, directA: bool, directB: bool)
    requires IsLocal(a, directA) && IsLocal(b, directB)
    ensures CanonicalResourceId(resolve, a, directA) == CanonicalResourceId(resolve, b, directB) <==> resolve(a) == resolve(b)
  {
    LocalId(resolve, a, directA);
    LocalId(resolve, b, directB);
    PrefixTells("local:", resolve(a), resolve(b));
  }

  /** Two addresses are one resource exactly if they are equal. */
  lemma AddressIdsEqualIff(resolve: string -> string, a: string, b: string, directA: bool, directB: bool)
    requires IsAddress(a, directA) && IsAddress(b, directB)
    ensures CanonicalResourceId(resolve, a, directA) == CanonicalResourceId(resolve, b, directB) <==> a == b
  {
    PrefixTells("repo:", a, b);
  }

  datatype Kind = EndpointKind | LocalKind | AddressKind

  function KindOf(value: string, allowDirectRclone: bool): Kind {
    if EndpointOf(value, allowDirectRclone).Some? then EndpointKind
    else if IsLocal(value, allowDirectRclone) then LocalKind
    else AddressKind
  }

  function PrefixOf(kind: Kind): string {
    match kind
    case EndpointKind => "rclone:"
    case LocalKind => "local:"
    case AddressKind => "repo:"
  }

  lemma EndpointBegins(e: Endpoint)
    ensures EndpointId(e) == "rclone:" + (e.remote + ":" + NormalizePosixPath(e.path))
  { }

  lemma EndpointValue(resolve: string -> string, value: string, allowDirectRclone: bool)
    requires EndpointOf(value, allowDirectRclone).Some?
    ensures CanonicalResourceId(resolve, value, allowDirectRclone) == EndpointId(EndpointOf(value, allowDirectRclone).value)
  { }

  lemma AddressId(resolve: string -> string, value: string, allowDirectRclone: bool)
    requires IsAddress(value, allowDirectRclone)
    ensures CanonicalResourceId(resolve, value, allowDirectRclone) == "repo:" + value
  { }

  lemma IdBeginsWithKind(resolve: string -> string, value: string, allowDirectRclone: bool) returns (rest: string)
    ensures CanonicalResourceId(resolve, value, allowDirectRclone) == PrefixOf(KindOf(value, allowDirectRclone)) + rest
  {
    match KindOf(value, allowDirectRclone)
    case EndpointKind =>
      EndpointValue(resolve, value, allowDirectRclone);
      var endpoint := EndpointOf(value, allowDirectRclone).value;
      EndpointBegins(endpoint);
      rest := endpoint.remote + ":" + NormalizePosixPath(endpoint.path);
    case LocalKind =>
      LocalId(resolve, value, allowDirectRclone);
      rest := resolve(value);
    case AddressKind =>
      AddressId(resolve, value, allowDirectRclone);
      rest := value;
  }

  /** The first two letters of an id tell its kind. */
  lemma PrefixesDiffer(a: Kind, b: Kind, x: string, y: string)
    requires PrefixOf(a) + x == PrefixOf(b) + y
    ensures a == b
  {
    assert (PrefixOf(a) + x)[0] == PrefixOf(a)[0] && (PrefixOf(a) + x)[1] == PrefixOf(a)[1];
    assert (PrefixOf(b) + y)[0] == PrefixOf(b)[0] && (PrefixOf(b) + y)[1] == PrefixOf(b)[1];
  }

  /** An endpoint, a local path and an address never share an id. */
  lemma KindsNeverShareIds(resolve: string -> string, a: string, b: string, directA: bool, directB: bool)
    requires CanonicalResourceId(resolve, a, directA) == CanonicalResourceId(resolve, b, directB)
    ensures EndpointOf(a, directA).Some? <==> EndpointOf(b, directB).Some?
    ensures IsLocal(a, directA) <==> IsLocal(b, directB)
    ensures IsAddress(a, directA) <==> IsAddress(b, directB)
  {
    var x := IdBeginsWithKind(resolve, a, directA);
    var y := IdBeginsWithKind(resolve, b, directB);
    PrefixesDiffer(KindOf(a, directA), KindOf(b, directB), x, y);
  }

  // ----- endpoint paths are equal exactly if they lead to one place -----

  function Ups(n: nat): seq<string> {
    if n == 0 then [] else Ups(n - 1) + [".."]
  }

  predicate Named(parts: seq<string>) {
    forall i :: 0 <= i < |parts| ==> parts[i] != "" && parts[i] != "." && parts[i] != ".."
  }

  /** A reduced path goes up some levels, and then down along names. */
  lemma {:induction false} ReducedShape(parts: seq<string>) returns (n: nat, names: seq<string>)
    requires Reduced(parts)
    ensures parts == Ups(n) + names && Named(names)
  {
    if parts == [] {
      n, names := 0, [];
    } else {
      var before, last := parts[..|parts| - 1], parts[|parts| - 1];
      n, names := ReducedShape(before);
      assert parts == before + [last];
      if last == ".." {
        NothingUpAfterNames(before, n, names);
        assert Ups(n + 1) + [] == parts;
        n := n + 1;
      } else {
        names := names + [last];
        assert Ups(n) + names == before + [last];
      }
    }
  }

  lemma NothingUpAfterNames(before: seq<string>, n: nat, names: seq<string>)
    requires Reduced(before + [".."]) && before == Ups(n) + names && Named(names)
    ensures names == []
  {
    var parts, i := before + [".."], |before|;
    assert parts[i] == "..";
    assert i > 0 ==> parts[i - 1] == "..";
    assert i > 0 ==> parts[i - 1] == before[i - 1];
  }

  function Fresh(name: string, n: nat): seq<string> {
    if n == 0 then [] else Fresh(name, n - 1) + [name]
  }

  lemma {:induction false} FreshAt(name: string, n: nat)
    ensures |Fresh(name, n)| == n && forall i :: 0 <= i < n ==> Fresh(name, n)[i] == name
  {
    if n > 0 {
      FreshAt(name, n - 1);
    }
  }

  lemma {:induction false} WalkUp(name: string, depth: nat, n: nat)
    requires n <= depth
    ensures Walk(Fresh(name, depth), Ups(n)) == Fresh(name, depth - n)
  {
    if n > 0 {
      WalkUp(name, depth, n - 1);
      WalkSnoc(Fresh(name, depth), Ups(n - 1), "..");
      FreshAt(name, depth - n);
      assert Fresh(name, depth - n + 1) == Fresh(name, depth - n) + [name];
    }
  }

  lemma {:induction false} WalkNames(start: seq<string>, before: seq<string>, names: seq<string>)
    requires Named(names)
    ensures Walk(start, before + names) == Walk(start, before) + names
  {
    if names == [] {
      assert before + names == before && Walk(start, before) + names == Walk(start, before);
    } else {
      var most, last := names[..|names| - 1], names[|names| - 1];
      WalkNames(start, before, most);
      assert before + names == before + most + [last];
      WalkSnoc(start, before + most, last);
      assert Walk(start, before) + names == Walk(start, before) + most + [last];
    }
  }

  /** A name longer than all of these. */
  function Longer(parts: seq<string>): (name: string)
    ensures name != "" && forall i :: 0 <= i < |parts| ==> |parts[i]| < |name|
  {
    if parts == [] then "x"
    else
      var rest := Longer(parts[1..]);
      if |parts[0]| < |rest| then rest else parts[0] + "x"
  }

  function Leading(name: string, s: seq<string>): nat {
    if s != [] && s[0] == name then 1 + Leading(name, s[1..]) else 0
  }

  lemma {:induction false} LeadingFresh(name: string, n: nat, rest: seq<string>)
    requires name !in rest
    ensures Leading(name, Fresh(name, n) + rest) == n
    decreases n
  {
    var s := Fresh(name, n) + rest;
    FreshAt(name, n);
    if n == 0 {
      assert s == rest;
    } else {
      FreshAt(name, n - 1);
      assert s[0] == name && s[1..] == Fresh(name, n - 1) + rest;
      LeadingFresh(name, n - 1, rest);
    }
  }

  lemma DepthsTell(name: string, m: nat, n: nat, a: seq<string>, b: seq<string>)
    requires Fresh(name, m) + a == Fresh(name, n) + b && name !in a && name !in b
    ensures m == n && a == b
  {
    LeadingFresh(name, m, a);
    LeadingFresh(name, n, b);
    FreshAt(name, m);
    assert (Fresh(name, m) + a)[m..] == a && (Fresh(name, m) + b)[m..] == b;
  }

  /** Two paths lead to one place from wherever they start. */
  ghost predicate SamePlace(a: seq<string>, b: seq<string>) {
    forall start :: LeadsSame(start, a, b)
  }

  predicate LeadsSame(start: seq<string>, a: seq<string>, b: seq<string>) {
    Walk(start, a) == Walk(start, b)
  }

  /** Reduced paths that lead to one place are equal: a start deep enough, with a name of its own, tells them apart. */
  lemma ReducedIsUnique(a: seq<string>, b: seq<string>)
    requires Reduced(a) && Reduced(b) && SamePlace(a, b)
    ensures a == b
  {
    var m, x := ReducedShape(a);
    var n, y := ReducedShape(b);
    var name, depth := Longer(x + y), m + n;
    assert name !in x && name !in y by {
      forall i | 0 <= i < |x|
        ensures x[i] != name
      {
        assert (x + y)[i] == x[i];
      }
      forall i | 0 <= i < |y|
        ensures y[i] != name
      {
        assert (x + y)[|x| + i] == y[i];
      }
    }
    assert LeadsSame(Fresh(name, depth), a, b);
    WalkUp(name, depth, m);
    WalkUp(name, depth, n);
    WalkNames(Fresh(name, depth), Ups(m), x);
    WalkNames(Fresh(name, depth), Ups(n), y);
    DepthsTell(name, depth - m, depth - n, x, y);
  }

  lemma NormalizedEqualIff(a: seq<string>, b: seq<string>)
    requires (forall i :: 0 <= i < |a| ==> '/' !in a[i]) && (forall i :: 0 <= i < |b| ==> '/' !in b[i])
    ensures Normalized(a, false) == Normalized(b, false) <==> SamePlace(a, b)
  {
    NormalizedIsReduced(a);
    NormalizedIsReduced(b);
    var x, y := Normalized(a, false), Normalized(b, false);
    forall start
      ensures LeadsSame(start, a, b) <==> LeadsSame(start, x, y)
    {
      NormalizingKeepsThePlace(start, a, false);
      NormalizingKeepsThePlace(start, b, false);
    }
    if SamePlace(a, b) {
      forall start
        ensures LeadsSame(start, x, y)
      {
        assert LeadsSame(start, a, b);
      }
      ReducedIsUnique(x, y);
    }
    if x == y {
      forall start
        ensures LeadsSame(start, a, b)
      {
        assert LeadsSame(start, x, y);
      }
    }
  }

  /** The normal text of a relative path tells its normal components. */
  lemma NormalTextTells(a: string, b: string)
    requires !("/" <= a) && '\\' !in a && !("/" <= b) && '\\' !in b
    ensures NormalizePosixPath(a) == NormalizePosixPath(b) <==> Normalized(Split(a, '/'), false) == Normalized(Split(b, '/'), false)
  {
    var x := TextOfNormal(a);
    var y := TextOfNormal(b);
    if x != [] {
      ReducedText(x);
    }
    if y != [] {
      ReducedText(y);
    }
  }

  lemma TextOfNormal(path: string) returns (parts: seq<string>)
    requires !("/" <= path) && '\\' !in path
    ensures parts == Normalized(Split(path, '/'), false) && Reduced(parts)
    ensures NormalizePosixPath(path) == if parts == [] then "/" else Join(parts, '/')
  {
    if path == "" {
      RootIsNormal();
      parts := [];
      var pieces: seq<string> := [""];
      assert Split("", '/') == pieces && pieces[..0] == [];
      assert Normalized(pieces, false) == [];
    } else {
      parts := NormalFormOfRelative(path);
    }
  }

  /** Two endpoints without backslashes have one id exactly if they are on one remote and their paths lead to one place. */
  lemma EndpointIdsEqualIffSamePlace(a: Endpoint, b: Endpoint)
    requires ':' !in a.remote && !("/" <= a.path) && '\\' !in a.path
    requires ':' !in b.remote && !("/" <= b.path) && '\\' !in b.path
    ensures EndpointId(a) == EndpointId(b) <==> a.remote == b.remote && SamePlace(Split(a.path, '/'), Split(b.path, '/'))
  {
    EndpointIdsEqualIff(a, b);
    NormalTextTells(a.path, b.path);
    SplitPieces(a.path, '/');
    SplitPieces(b.path, '/');
    NormalizedEqualIff(Split(a.path, '/'), Split(b.path, '/'));
  }

  // ----- leading slashes -----

  lemma NormalTextStart(parts: seq<string>)
    requires forall part :: part in parts ==> '/' !in part
    ensures !("/" <= Join(Normalized(parts, true), '/'))
  {
    var kept := Normalized(parts, true);
    NormalizedParts(parts, true);
    NormalizingKeepsThePlace([], parts, true);
    if kept != [] {
      assert kept[0] in kept && kept[0] != "";
      assert kept[0][0] in kept[0];
    }
  }

  /** A path that begins with a slash has one slash in front in its normal form, but exactly two stay two. */
  lemma LeadingSlashes(path: string)
    requires "/" <= path
    ensures "/" <= NormPath(path)
    ensures "//" <= NormPath(path) <==> "//" <= path && !("///" <= path)
  {
    SplitPieces(path, '/');
    NormalTextStart(Split(path, '/'));
    var text := Join(Normalized(Split(path, '/'), true), '/');
    assert ("/" + text)[1..] == text && ("//" + text)[..2] == "//";
    assert text != "" ==> ("/" + text)[1] == text[0];
  }
}
