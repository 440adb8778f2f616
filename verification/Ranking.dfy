/**
 Keeping the newest `n` members of a finite set: what `ORDER BY ... DESC LIMIT -1 OFFSET n`
 leaves behind when the selected rows are deleted.
 */
module Ranking {

  /** `newer` is a strict total order on the members of `s`. */
  ghost predicate StrictOrder<T(!new)>(s: set<T>, newer: (T, T) -> bool) {
    && (forall x :: x in s ==> !newer(x, x))
    && (forall x, y :: x in s && y in s && x != y ==> newer(x, y) || newer(y, x))
    && (forall x, y, z :: x in s && y in s && z in s && newer(x, y) && newer(y, z) ==> newer(x, z))
  }

  function NewerThan<T>(s: set<T>, newer: (T, T) -> bool, x: T): set<T> {
    set y | y in s && newer(y, x)
  }

  /** The rows skipped by OFFSET n: those with fewer than `n` newer rows. */
  function Newest<T>(s: set<T>, newer: (T, T) -> bool, n: nat): set<T> {
    set x | x in s && |NewerThan(s, newer, x)| < n
  }

  lemma SubOrder<T(!new)>(part: set<T>, s: set<T>, newer: (T, T) -> bool)
    requires part <= s && StrictOrder(s, newer)
    ensures StrictOrder(part, newer)
  { }

  /** A non-empty strictly ordered set has a newest member. */
  lemma {:induction false} HasNewest<T(!new)>(s: set<T>, newer: (T, T) -> bool) returns (top: T)
    requires StrictOrder(s, newer) && s != {}
    ensures top in s && forall y :: y in s && y != top ==> newer(top, y)
    decreases |s|
  {
    var x :| x in s;
    if s == {x} {
      top := x;
    } else {
      var rest := s - {x};
      assert |rest| < |s|;
      var best := HasNewest(rest, newer);
      top := if newer(x, best) then x else best;
    }
  }

  /** Every member that stays is newer than every member that goes. */
  lemma {:induction false} NewestAreNewer<T(!new)>(s: set<T>, newer: (T, T) -> bool, n: nat, x: T, y: T)
    requires StrictOrder(s, newer)
    requires x in Newest(s, newer, n) && y in s && y !in Newest(s, newer, n)
    ensures newer(x, y)
  {
    if newer(y, x) {
      var above, below := NewerThan(s, newer, y), NewerThan(s, newer, x);
      assert above <= below by {
        forall z | z in above ensures z in below { }
      }
      SubsetSize(above, below);
    }
  }

  lemma {:induction false} SubsetSize<T>(a: set<T>, b: set<T>)
    requires a <= b
    ensures |a| <= |b|
  {
    assert b == a + (b - a);
  }

  /** Exactly `n` members stay, or all of them when there are fewer. */
  lemma {:induction false} NewestKeepsExactly<T(!new)>(s: set<T>, newer: (T, T) -> bool, n: nat)
    requires StrictOrder(s, newer)
    ensures |Newest(s, newer, n)| == if n < |s| then n else |s|
    decreases |s|
  {
    if s == {} || n == 0 {
      NothingToKeep(s, newer, n);
    } else {
      var top := HasNewest(s, newer);
      NewestWithoutTop(s, newer, n, top);
      SubOrder(s - {top}, s, newer);
      SizeWithout(s, top);
      NewestKeepsExactly(s - {top}, newer, n - 1);
      SizeWithout(Newest(s, newer, n), top);
    }
  }

  lemma NothingToKeep<T(!new)>(s: set<T>, newer: (T, T) -> bool, n: nat)
    requires s == {} || n == 0
    ensures Newest(s, newer, n) == {}
  { }

  lemma SizeWithout<T>(s: set<T>, x: T)
    requires x in s
    ensures |s| == |s - {x}| + 1
  { }

  lemma {:induction false} NewestWithoutTop<T(!new)>(s: set<T>, newer: (T, T) -> bool, n: nat, top: T)
    requires StrictOrder(s, newer) && n > 0
    requires top in s && forall y :: y in s && y != top ==> newer(top, y)
    ensures top in Newest(s, newer, n)
    ensures Newest(s, newer, n) - {top} == Newest(s - {top}, newer, n - 1)
  {
    var rest := s - {top};
    assert NewerThan(s, newer, top) == {} by {
      forall y | y in s ensures !newer(y, top) { }
    }
    forall x | x in rest
      ensures x in Newest(s, newer, n) <==> x in Newest(rest, newer, n - 1)
    {
      var above, aboveInRest := NewerThan(s, newer, x), NewerThan(rest, newer, x);
      assert above == aboveInRest + {top};
      assert |above| == |aboveInRest| + 1;
    }
  }
}
