/** The lines of a text, at any of the characters that end a line, and the characters that count as blank. */
module TextLines {
  import opened Text

  predicate IsBlank(c: char) {
    || '\t' <= c <= '\r' || '\U{1C}' <= c <= ' ' || c == '\U{85}' || c == '\U{A0}' || c == '\U{1680}' || '\U{2000}' <= c <= '\U{200A}'
    || c == '\U{2028}' || c == '\U{2029}' || c == '\U{202F}' || c == '\U{205F}' || c == '\U{3000}'
  }

  predicate IsLineBreak(c: char) {
    || '\n' <= c <= '\r' || '\U{1C}' <= c <= '\U{1E}' || c == '\U{85}' || c == '\U{2028}' || c == '\U{2029}'
  }

  /** How far the first line goes. */
  function LineEnd(s: string): (n: nat)
    ensures n <= |s| && (n < |s| ==> IsLineBreak(s[n]))
    ensures forall i :: 0 <= i < n ==> !IsLineBreak(s[i])
  {
    if s == "" || IsLineBreak(s[0]) then 0 else 1 + LineEnd(s[1..])
  }

  /** A carriage return and a line feed together end one line. */
  function BreakLength(s: string, n: nat): (k: nat)
    requires n < |s|
    ensures 1 <= k && n + k <= |s|
  {
    if s[n] == '\r' && n + 1 < |s| && s[n + 1] == '\n' then 2 else 1
  }

  function SplitLines(s: string): seq<string> {
    if s == "" then []
    else
      var n := LineEnd(s);
      if n == |s| then [s] else [s[..n]] + SplitLines(s[n + BreakLength(s, n)..])
  }

  lemma LineEndIs(s: string, n: nat)
    requires n <= |s| && (n < |s| ==> IsLineBreak(s[n])) && forall i :: 0 <= i < n ==> !IsLineBreak(s[i])
    ensures LineEnd(s) == n
  { }

  /** A suffix has no more lines than the whole. */
  lemma {:induction false} SuffixLines(s: string, k: nat)
    requires k <= |s|
    ensures |SplitLines(s[k..])| <= |SplitLines(s)|
    decreases |s|
  {
    var n := LineEnd(s);
    if s != "" && k > 0 && n < |s| {
      var m := n + BreakLength(s, n);
      if k >= m {
        assert s[m..][k - m..] == s[k..];
        SuffixLines(s[m..], k - m);
      } else {
        CutInFirstLine(s, k);
      }
    } else {
      assert k == 0 ==> s[k..] == s;
      if k < |s| && k > 0 {
        LineEndIs(s[k..], |s| - k);
      }
    }
  }

  lemma FirstLine(s: string, n: nat, m: nat)
    requires n == LineEnd(s) < |s| && m == n + BreakLength(s, n)
    ensures SplitLines(s) == [s[..n]] + SplitLines(s[m..])
  { }

  /** The rest of a text cut before the break at `n` still begins with one line. */
  lemma CutBeforeBreak(s: string, k: nat, n: nat)
    requires k <= n == LineEnd(s) < |s|
    ensures LineEnd(s[k..]) == n - k && BreakLength(s[k..], n - k) == BreakLength(s, n)
  {
    LineEndIs(s[k..], n - k);
  }

  lemma CutInsideBreak(s: string, n: nat)
    requires n == LineEnd(s) < |s| && BreakLength(s, n) == 2
    ensures LineEnd(s[n + 1..]) == 0 && BreakLength(s[n + 1..], 0) == 1
  {
    LineEndIs(s[n + 1..], 0);
  }

  /** Cut before the break, or between a carriage return and its line feed, the rest has as many lines. */
  lemma CutInFirstLine(s: string, k: nat)
    requires 0 < k && LineEnd(s) < |s| && k < LineEnd(s) + BreakLength(s, LineEnd(s))
    ensures |SplitLines(s[k..])| == |SplitLines(s)|
  {
    var n := LineEnd(s);
    var m := n + BreakLength(s, n);
    if k <= n {
      CutBeforeBreak(s, k, n);
    } else {
      CutInsideBreak(s, n);
    }
    SameRest(s, n, m, k, if k <= n then n - k else 0);
  }

  lemma SameRest(s: string, n: nat, m: nat, k: nat, r: nat)
    requires n == LineEnd(s) < |s| && m == n + BreakLength(s, n) && k < m
    requires r == LineEnd(s[k..]) < |s| - k && m - k == r + BreakLength(s[k..], r)
    ensures |SplitLines(s[k..])| == |SplitLines(s)|
  {
    FirstLine(s, n, m);
    FirstLine(s[k..], r, m - k);
    assert s[k..][m - k..] == s[m..];
  }

  predicate NoBreak(line: string) {
    forall i :: 0 <= i < |line| ==> !IsLineBreak(line[i])
  }

  predicate Unbroken(lines: seq<string>) {
    forall i :: 0 <= i < |lines| ==> NoBreak(lines[i])
  }

  lemma {:induction false} JoinedLines(lines: seq<string>)
    requires Unbroken(lines)
    ensures |SplitLines(Join(lines, '\n'))| <= |lines|
  {
    if |lines| == 1 {
      LineEndIs(lines[0], |lines[0]|);
    } else if |lines| > 1 {
      var rest := Join(lines[1..], '\n');
      var s := Join(lines, '\n');
      assert s == lines[0] + ['\n'] + rest;
      LineEndIs(s, |lines[0]|);
      assert s[|lines[0]| + 1..] == rest;
      JoinedLines(lines[1..]);
    }
  }

  lemma {:induction false} LinesHaveNoBreaks(s: string)
    ensures Unbroken(SplitLines(s))
    decreases |s|
  {
    if s != "" {
      var n := LineEnd(s);
      if n < |s| {
        LinesHaveNoBreaks(s[n + BreakLength(s, n)..]);
      }
    }
  }

  /** Each of these ends a line: line feed, vertical tab, form feed, carriage return, the three separators, and the Unicode ones. */
  lemma BreaksEndLines(line: string, c: char, rest: string)
    requires NoBreak(line) && !(c == '\r' && rest != "" && rest[0] == '\n')
    requires c in {'\n', '\U{0B}', '\U{0C}', '\r', '\U{1C}', '\U{1D}', '\U{1E}', '\U{85}', '\U{2028}', '\U{2029}'}
    ensures SplitLines(line + ([c] + rest)) == [line] + SplitLines(rest)
  {
    var s := line + ([c] + rest);
    LineEndIs(s, |line|);
    assert s[|line|] == c && (rest != "" ==> s[|line| + 1] == rest[0]);
    assert s[..|line|] == line && s[|line| + 1..] == rest;
  }

  /** Nothing else does. */
  lemma OtherCharactersStay(line: string)
    requires line != "" && forall i :: 0 <= i < |line| ==>
               line[i] !in {'\n', '\U{0B}', '\U{0C}', '\r', '\U{1C}', '\U{1D}', '\U{1E}', '\U{85}', '\U{2028}', '\U{2029}'}
    ensures SplitLines(line) == [line]
  {
    LineEndIs(line, |line|);
  }

  /** The characters that are blank. */
  lemma BlankCharacters(c: char)
    ensures IsBlank(c) <==> c as int in {
              9, 10, 11, 12, 13, 28, 29, 30, 31, 32, 133, 160, 5760, 8192, 8193, 8194, 8195, 8196, 8197, 8198, 8199, 8200, 8201, 8202,
              8232, 8233, 8239, 8287, 12288}
  { }
}
