/** Inserting into a sorted sequence. */
module Insertion {

  function Insert<T>(sorted: seq<T>, x: T, before: (T, T) -> bool): seq<T> {
    if sorted == [] then [x]
    else if before(x, sorted[0]) then [x] + sorted
    else [sorted[0]] + Insert(sorted[1..], x, before)
  }

  lemma {:induction false} InsertKeeps<T>(sorted: seq<T>, x: T, before: (T, T) -> bool)
    ensures forall y :: y in Insert(sorted, x, before) <==> y == x || y in sorted
  {
    if sorted != [] {
      InsertKeeps(sorted[1..], x, before);
      assert sorted == [sorted[0]] + sorted[1..];
    }
  }

  ghost predicate Sorted<T(!new)>(s: seq<T>, before: (T, T) -> bool) {
    forall i, j :: 0 <= i < j < |s| ==> before(s[i], s[j])
  }

  ghost predicate Transitive<T(!new)>(before: (T, T) -> bool) {
    forall x, y, z :: before(x, y) && before(y, z) ==> before(x, z)
  }

  /** Where the new element stands to every other, order is kept. */
  lemma {:induction false} InsertSorts<T(!new)>(sorted: seq<T>, x: T, before: (T, T) -> bool)
    requires Sorted(sorted, before) && Transitive(before) && forall y :: y in sorted ==> before(x, y) || before(y, x)
    ensures Sorted(Insert(sorted, x, before), before)
  {
    if sorted != [] {
      var first, rest := sorted[0], sorted[1..];
      assert first in sorted;
      if before(x, first) {
        forall y | y in sorted
          ensures before(x, y)
        {
          if y != first {
            assert before(first, y);
          }
        }
      } else {
        InsertSorts(rest, x, before);
        InsertKeeps(rest, x, before);
        assert forall y :: y in rest ==> before(first, y);
      }
    }
  }
}
