/** Splitting, joining, trimming and ordering of texts, as the other modules use them. */
module Text {

  type Byte = b: int | 0 <= b < 256

  // ----- split and join at one separator -----

  function Split<T(==)>(s: seq<T>, sep: T): (parts: seq<seq<T>>)
    ensures |parts| > 0
  {
    if s == [] then [[]]
    else Prepend(s[0], Split(s[1..], sep), sep)
  }

  /** The split of [x] + s, given the split of s. */
  function Prepend<T(==)>(x: T, rest: seq<seq<T>>, sep: T): seq<seq<T>>
    requires rest != []
  {
    if x == sep then [[]] + rest else [[x] + rest[0]] + rest[1..]
  }

  function Join<T>(parts: seq<seq<T>>, sep: T): seq<T> {
    if parts == [] then []
    else if |parts| == 1 then parts[0]
    else parts[0] + [sep] + Join(parts[1..], sep)
  }

  lemma {:induction false} JoinSplit<T>(s: seq<T>, sep: T)
    ensures Join(Split(s, sep), sep) == s
  {
    if s != [] {
      JoinSplit(s[1..], sep);
      var rest := Split(s[1..], sep);
      if s[0] == sep {
        assert ([[]] + rest)[1..] == rest;
      } else {
        var parts := [[s[0]] + rest[0]] + rest[1..];
        if |rest| > 1 {
          assert parts[1..] == rest[1..];
          assert Join(parts, sep) == [s[0]] + Join(rest, sep);
        }
      }
    }
  }

  /** No piece contains the separator. */
  lemma {:induction false} SplitPieces<T>(s: seq<T>, sep: T)
    ensures forall part :: part in Split(s, sep) ==> sep !in part
  {
    if s != [] {
      SplitPieces(s[1..], sep);
    }
  }

  lemma {:induction false} SplitNone<T>(s: seq<T>, sep: T)
    requires sep !in s
    ensures Split(s, sep) == [s]
  {
    if s != [] {
      SplitNone(s[1..], sep);
      assert [s[0]] + s[1..] == s;
    }
  }

  /** Splitting a concatenation: the last piece of the first text is continued by the second. */
  lemma {:induction false} SplitConcat<T>(a: seq<T>, b: seq<T>, sep: T)
    ensures Split(a + b, sep) == Split(a, sep)[..|Split(a, sep)| - 1] + Split(Split(a, sep)[|Split(a, sep)| - 1] + b, sep)
  {
    if a == [] {
      assert a + b == b && [] + b == b;
    } else {
      assert Split(a + b, sep) == Prepend(a[0], Split(a[1..] + b, sep), sep) by {
        assert (a + b)[1..] == a[1..] + b;
      }
      SplitConcat(a[1..], b, sep);
      ContinueSplit(a[0], Split(a[1..], sep), b, sep);
    }
  }

  lemma ContinueSplit<T>(x: T, rest: seq<seq<T>>, b: seq<T>, sep: T)
    requires rest != []
    ensures var first := Prepend(x, rest, sep);
            Prepend(x, rest[..|rest| - 1] + Split(rest[|rest| - 1] + b, sep), sep) == first[..|first| - 1] + Split(first[|first| - 1] + b, sep)
  {
    if |rest| > 1 {
      ContinueLongSplit(x, rest, Split(rest[|rest| - 1] + b, sep), sep);
    } else {
      assert rest[..0] + Split(rest[0] + b, sep) == Split(rest[0] + b, sep);
      ContinueLastPiece(x, rest, b, sep);
    }
  }

  lemma ContinueLongSplit<T>(x: T, rest: seq<seq<T>>, tail: seq<seq<T>>, sep: T)
    requires |rest| > 1
    ensures var first := Prepend(x, rest, sep);
            Prepend(x, rest[..|rest| - 1] + tail, sep) == first[..|first| - 1] + tail && first[|first| - 1] == rest[|rest| - 1]
  {
    var first := Prepend(x, rest, sep);
    var n := |rest|;
    if x == sep {
      assert first[..n] == [[]] + rest[..n - 1];
    } else {
      assert (rest[..n - 1] + tail)[1..] == rest[1..n - 1] + tail;
      assert first[..n - 1] == [[x] + rest[0]] + rest[1..n - 1];
    }
  }

  lemma ContinueLastPiece<T>(x: T, rest: seq<seq<T>>, b: seq<T>, sep: T)
    requires |rest| == 1
    ensures var first := Prepend(x, rest, sep);
            Prepend(x, Split(rest[0] + b, sep), sep) == first[..|first| - 1] + Split(first[|first| - 1] + b, sep)
  {
    var first := Prepend(x, rest, sep);
    if x == sep {
      assert first == [[], rest[0]];
      assert first[..1] == [[]];
    } else {
      assert first == [[x] + rest[0]];
      assert ([x] + rest[0] + b)[1..] == rest[0] + b;
    }
  }

  /** Joining and splitting again gives the pieces back. */
  lemma {:induction false} SplitJoin<T>(parts: seq<seq<T>>, sep: T)
    requires parts != [] && forall part :: part in parts ==> sep !in part
    ensures Split(Join(parts, sep), sep) == parts
  {
    SplitNone(parts[0], sep);
    if |parts| == 1 {
    } else {
      var rest := Join(parts[1..], sep);
      SplitJoin(parts[1..], sep);
      assert Join(parts, sep) == parts[0] + ([sep] + rest);
      SplitConcat(parts[0], [sep] + rest, sep);
      LeadingPiece(parts[0], rest, sep);
    }
  }

  lemma {:induction false} LeadingPiece<T>(piece: seq<T>, rest: seq<T>, sep: T)
    requires sep !in piece
    ensures Split(piece + [sep] + rest, sep) == [piece] + Split(rest, sep)
  {
    var s := piece + [sep] + rest;
    if piece == [] {
      assert s[1..] == rest;
    } else {
      assert s[1..] == piece[1..] + [sep] + rest;
      LeadingPiece(piece[1..], rest, sep);
      assert [piece[0]] + piece[1..] == piece;
    }
  }

  lemma Associative<T>(a: seq<T>, b: seq<T>, c: seq<T>)
    ensures a + (b + c) == a + b + c
  { }

  // ----- chunks -----

  function Flatten<T>(chunks: seq<seq<T>>): seq<T> {
    if chunks == [] then [] else chunks[0] + Flatten(chunks[1..])
  }

  lemma {:induction false} FlattenSnoc<T>(chunks: seq<seq<T>>, chunk: seq<T>)
    ensures Flatten(chunks + [chunk]) == Flatten(chunks) + chunk
  {
    if chunks == [] {
      assert [chunk][1..] == [];
      assert chunks + [chunk] == [chunk];
    } else {
      assert (chunks + [chunk])[1..] == chunks[1..] + [chunk];
      FlattenSnoc(chunks[1..], chunk);
    }
  }

  // ----- trimming -----

  predicate IsSlash(c: char) { c == '/' }

  function TrimEnd<T>(s: seq<T>, drop: T -> bool): (r: seq<T>)
    ensures r <= s
    ensures r != [] ==> !drop(r[|r| - 1])
    ensures forall i :: |r| <= i < |s| ==> drop(s[i])
  {
    if s != [] && drop(s[|s| - 1]) then TrimEnd(s[..|s| - 1], drop) else s
  }

  function TrimStart<T>(s: seq<T>, drop: T -> bool): (r: seq<T>)
    ensures |r| <= |s| && r == s[|s| - |r|..]
    ensures r != [] ==> !drop(r[0])
    ensures forall i :: 0 <= i < |s| - |r| ==> drop(s[i])
  {
    if s != [] && drop(s[0]) then
      var rest := TrimStart(s[1..], drop);
      assert s[1..][|s| - 1 - |rest|..] == s[|s| - |rest|..];
      assert forall i :: 0 < i < |s| - |rest| ==> s[i] == s[1..][i - 1];
      rest
    else s
  }

  function Trim<T>(s: seq<T>, drop: T -> bool): seq<T> {
    if s == [] then []
    else if drop(s[0]) then Trim(s[1..], drop)
    else if drop(s[|s| - 1]) then Trim(s[..|s| - 1], drop)
    else s
  }

  lemma TrimLeading<T>(x: T, s: seq<T>, drop: T -> bool)
    requires drop(x) && (s != [] ==> !drop(s[0]) && !drop(s[|s| - 1]))
    ensures Trim([x] + s, drop) == s
  {
    assert ([x] + s)[1..] == s;
  }

  // ----- the order of strings (by code point) -----

  predicate Less(a: string, b: string) {
    b != [] && (a == [] || a[0] < b[0] || (a[0] == b[0] && Less(a[1..], b[1..])))
  }

  lemma {:induction false} LessTotal(a: string, b: string)
    ensures Less(a, b) || Less(b, a) || a == b
    ensures !(Less(a, b) && Less(b, a)) && !Less(a, a)
  {
    if a != [] {
      LessTotal(a[1..], a[1..]);
      if b != [] {
        LessTotal(a[1..], b[1..]);
        assert a[0] == b[0] && a[1..] == b[1..] ==> a == b by {
          assert a == [a[0]] + a[1..] && b == [b[0]] + b[1..];
        }
      }
    }
  }

  lemma {:induction false} LessTransitive(a: string, b: string, c: string)
    requires Less(a, b) && Less(b, c)
    ensures Less(a, c)
  {
    if a != [] && a[0] == b[0] && b[0] == c[0] {
      LessTransitive(a[1..], b[1..], c[1..]);
    }
  }

  /** The first difference decides. */
  lemma {:induction false} LessAtFirstDifference(prefix: string, x: char, y: char, a: string, b: string)
    requires x != y
    ensures Less(prefix + ([x] + a), prefix + ([y] + b)) <==> x < y
  {
    var s, t := prefix + ([x] + a), prefix + ([y] + b);
    if prefix == "" {
      assert s[0] == x && t[0] == y;
    } else {
      assert s[0] == t[0] && s[1..] == prefix[1..] + ([x] + a) && t[1..] == prefix[1..] + ([y] + b);
      LessAtFirstDifference(prefix[1..], x, y, a, b);
    }
  }

  /** A text comes before its continuations. */
  lemma {:induction false} LessThanLonger(prefix: string, rest: string)
    requires rest != ""
    ensures Less(prefix, prefix + rest)
  {
    if prefix != "" {
      assert (prefix + rest)[1..] == prefix[1..] + rest;
      LessThanLonger(prefix[1..], rest);
    }
  }
}
