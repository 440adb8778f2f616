/** The order in which a listing is returned, and why it is unique. */
module SnapshotSorting {
  import opened Wrappers
  import opened Text
  import opened Insertion
  import opened SnapshotPaths
  import opened SnapshotListing
  import opened SnapshotIndex

  /** Directories first, then by name. */
  predicate Before(a: Entry, b: Entry) {
    (a.kind == Dir && b.kind == File) || (a.kind == b.kind && Less(a.name, b.name))
  }

  predicate Ascending(entries: seq<Entry>) {
    forall i, j :: 0 <= i < j < |entries| ==> Before(entries[i], entries[j])
  }

  ghost predicate Lists(entries: seq<Entry>, children: Children, paths: set<string>) {
    && (forall e :: e in entries ==> e.path in paths && e.path in children && children[e.path] == e)
    && (forall p :: p in paths && p in children ==> children[p] in entries)
  }

  /** A listing holds exactly the children, each once, in order. */
  ghost predicate IsListing(children: Children, entries: seq<Entry>) {
    Ascending(entries) && Lists(entries, children, children.Keys)
  }

  /** The children of one directory: keyed by their path, which their name determines. */
  predicate Keyed(base: string, children: Children) {
    forall p :: p in children ==> children[p].path == p == JoinSnapshotPath(base, children[p].name)
  }

  lemma {:induction false} DirectChildrenKeyed(base: string, nodes: seq<Node>)
    ensures Keyed(base, DirectChildren(base, nodes))
  {
    if nodes != [] {
      DirectChildrenKeyed(base, nodes[..|nodes| - 1]);
    }
  }

  lemma BeforeTransitive(a: Entry, b: Entry, c: Entry)
    requires Before(a, b) && Before(b, c)
    ensures Before(a, c)
  {
    if a.kind == b.kind && b.kind == c.kind {
      LessTransitive(a.name, b.name, c.name);
    }
  }

  lemma BeforeTotal(a: Entry, b: Entry)
    ensures a.name != b.name ==> Before(a, b) || Before(b, a)
    ensures !(Before(a, b) && Before(b, a)) && !Before(a, a)
  {
    LessTotal(a.name, b.name);
    LessTotal(a.name, a.name);
  }

  lemma InsertAscends(entries: seq<Entry>, e: Entry)
    requires Ascending(entries) && forall x :: x in entries ==> x.name != e.name
    ensures Ascending(Insert(entries, e, Before))
  {
    forall x | x in entries
      ensures Before(e, x) || Before(x, e)
    {
      BeforeTotal(e, x);
    }
    forall x, y, z | Before(x, y) && Before(y, z)
      ensures Before(x, z)
    {
      BeforeTransitive(x, y, z);
    }
    InsertSorts(entries, e, Before);
  }

  method SortEntries(base: string, children: Children) returns (entries: seq<Entry>)
    requires Keyed(base, children)
    ensures IsListing(children, entries)
  {
    entries := [];
    var rest := children.Keys;
    while rest != {}
      invariant rest <= children.Keys && Ascending(entries)
      invariant Lists(entries, children, children.Keys - rest)
      decreases |rest|
    {
      var p :| p in rest;
      forall x | x in entries
        ensures x.name != children[p].name
      {
        assert x.path in children.Keys - rest;
      }
      InsertAscends(entries, children[p]);
      InsertKeeps(entries, children[p], Before);
      entries := Insert(entries, children[p], Before);
      rest := rest - {p};
    }
  }

  lemma HeadIsLeast(entries: seq<Entry>, x: Entry)
    requires Ascending(entries) && x in entries
    ensures x == entries[0] || Before(entries[0], x)
  { }

  lemma HeadIsMember(entries: seq<Entry>)
    requires entries != []
    ensures exists x :: x in entries
  {
    assert entries[0] in entries;
  }

  /** Equal children have only one listing. */
  lemma {:induction false} ListingUnique(a: seq<Entry>, b: seq<Entry>)
    requires Ascending(a) && Ascending(b) && forall x :: x in a <==> x in b
    ensures a == b
  {
    if a == [] {
      if b != [] {
        HeadIsMember(b);
      }
    } else if b == [] {
      HeadIsMember(a);
    } else {
      assert a[0] in b && b[0] in a;
      HeadIsLeast(a, b[0]);
      HeadIsLeast(b, a[0]);
      BeforeTotal(a[0], b[0]);
      forall x
        ensures x in a[1..] <==> x in b[1..]
      {
        assert x in a[1..] ==> Before(a[0], x);
        assert x in b[1..] ==> Before(b[0], x);
        BeforeTotal(a[0], x);
        assert x in a <==> x == a[0] || x in a[1..] by { assert a == [a[0]] + a[1..]; }
        assert x in b <==> x == b[0] || x in b[1..] by { assert b == [b[0]] + b[1..]; }
      }
      ListingUnique(a[1..], b[1..]);
      assert a == [a[0]] + a[1..] && b == [b[0]] + b[1..];
    }
  }

  /** Two listings that agree position by position, up to the mode and mtime of directories. */
  ghost predicate SameListing(a: seq<Entry>, b: seq<Entry>) {
    |a| == |b| && forall i :: 0 <= i < |a| ==> SameEntry(a[i], b[i])
  }

  /** An entry without what two agreeing listings may differ in. */
  function Bare(e: Entry): Entry {
    if e.kind == Dir then e.(mode := None, mtime := None) else e
  }

  function Bares(entries: seq<Entry>): (r: seq<Entry>)
    ensures |r| == |entries| && forall i :: 0 <= i < |r| ==> r[i] == Bare(entries[i])
  {
    if entries == [] then [] else [Bare(entries[0])] + Bares(entries[1..])
  }

  lemma SameBare(a: Entry, b: Entry)
    ensures SameEntry(a, b) <==> Bare(a) == Bare(b)
  { }

  lemma Counterpart(a: Children, b: Children, listA: seq<Entry>, listB: seq<Entry>, i: nat) returns (j: nat)
    requires SameChildren(a, b) && Lists(listA, a, a.Keys) && Lists(listB, b, b.Keys) && i < |listA|
    ensures j < |listB| && SameEntry(listA[i], listB[j])
  {
    var e := listA[i];
    assert e in listA;
    assert e.path in b && SameEntry(e, b[e.path]);
    assert b[e.path] in listB;
    j :| 0 <= j < |listB| && listB[j] == b[e.path];
  }

  lemma BareMember(a: Children, b: Children, listA: seq<Entry>, listB: seq<Entry>, x: Entry)
    requires SameChildren(a, b) && IsListing(a, listA) && IsListing(b, listB) && x in Bares(listA)
    ensures x in Bares(listB)
  {
    var i :| 0 <= i < |Bares(listA)| && x == Bares(listA)[i];
    var j := Counterpart(a, b, listA, listB, i);
    SameBare(listA[i], listB[j]);
    assert Bares(listB)[j] == x;
  }

  lemma BaresAscend(entries: seq<Entry>)
    requires Ascending(entries)
    ensures Ascending(Bares(entries))
  {
    var r := Bares(entries);
    forall i, j | 0 <= i < j < |r|
      ensures Before(r[i], r[j])
    {
      assert Before(entries[i], entries[j]);
    }
  }

  lemma BaresIncluded(a: Children, b: Children, listA: seq<Entry>, listB: seq<Entry>)
    requires SameChildren(a, b) && IsListing(a, listA) && IsListing(b, listB)
    ensures forall e :: e in Bares(listA) ==> e in Bares(listB)
  {
    forall e | e in Bares(listA)
      ensures e in Bares(listB)
    {
      BareMember(a, b, listA, listB, e);
    }
  }

  lemma BaresUnique(listA: seq<Entry>, listB: seq<Entry>)
    requires Ascending(listA) && Ascending(listB)
    requires forall e :: e in Bares(listA) ==> e in Bares(listB)
    requires forall e :: e in Bares(listB) ==> e in Bares(listA)
    ensures Bares(listA) == Bares(listB)
  {
    BaresAscend(listA);
    BaresAscend(listB);
    ListingUnique(Bares(listA), Bares(listB));
  }

  lemma SameChildrenSymmetric(a: Children, b: Children)
    requires SameChildren(a, b)
    ensures SameChildren(b, a)
  { }

  lemma BaresMatch(a: Children, b: Children, listA: seq<Entry>, listB: seq<Entry>)
    requires SameChildren(a, b) && IsListing(a, listA) && IsListing(b, listB)
    ensures Bares(listA) == Bares(listB)
  {
    BaresIncluded(a, b, listA, listB);
    SameChildrenSymmetric(a, b);
    BaresIncluded(b, a, listB, listA);
    BaresUnique(listA, listB);
  }

  /** Agreeing children give agreeing listings. */
  lemma ListingsAgree(a: Children, b: Children, listA: seq<Entry>, listB: seq<Entry>)
    requires SameChildren(a, b) && IsListing(a, listA) && IsListing(b, listB)
    ensures SameListing(listA, listB)
  {
    BaresMatch(a, b, listA, listB);
    assert |listA| == |Bares(listA)| == |listB|;
    forall i | 0 <= i < |listA|
      ensures SameEntry(listA[i], listB[i])
    {
      assert Bares(listA)[i] == Bare(listA[i]) && Bares(listB)[i] == Bare(listB[i]);
      SameBare(listA[i], listB[i]);
    }
  }

  /** In a listing no file comes before a directory, and directories as well as files are in the order of their names. */
  lemma DirectoriesFirst(children: Children, entries: seq<Entry>, i: nat, j: nat)
    requires IsListing(children, entries) && i < j < |entries|
    ensures entries[i].kind == File ==> entries[j].kind == File
    ensures entries[i].kind == entries[j].kind ==> Less(entries[i].name, entries[j].name)
  {
    assert Before(entries[i], entries[j]);
  }
}
