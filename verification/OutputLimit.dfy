/** Limiting command output to its last lines and bytes without cutting a character. */
module OutputLimit {
  import opened Wrappers
  import opened Text
  import opened TextLines
  import opened Utf8

  // ----- limiting -----

  /** The last `count` elements, as a slice from `-count`: from minus zero on it is all of them. */
  function Last<T>(s: seq<T>, count: nat): seq<T>
    requires count <= |s|
  {
    if count == 0 then s else s[|s| - count..]
  }

  /** The text after the line limit: itself, or its last lines joined by newlines. */
  function Limited(text: string, maxLines: nat): string {
    var lines := SplitLines(text);
    if |lines| > maxLines then Join(Last(lines, maxLines), '\n') else text
  }

  lemma LimitedLines(text: string, maxLines: nat)
    requires maxLines > 0
    ensures |SplitLines(Limited(text, maxLines))| <= maxLines
  {
    var lines := SplitLines(text);
    if |lines| > maxLines {
      LinesHaveNoBreaks(text);
      assert Unbroken(lines[|lines| - maxLines..]);
      JoinedLines(lines[|lines| - maxLines..]);
    }
  }

  /** What is left of too many lines are exactly the last ones, a newline between any two. */
  lemma LimitedIsTheLastLines(text: string, maxLines: nat)
    requires 0 < maxLines < |SplitLines(text)|
    ensures Split(Limited(text, maxLines), '\n') == SplitLines(text)[|SplitLines(text)| - maxLines..]
  {
    var lines := SplitLines(text);
    var last := lines[|lines| - maxLines..];
    LinesHaveNoBreaks(text);
    assert Unbroken(last);
    UnbrokenSplit(last);
  }

  lemma UnbrokenSplit(lines: seq<string>)
    requires Unbroken(lines) && lines != []
    ensures Split(Join(lines, '\n'), '\n') == lines
  {
    forall line | line in lines
      ensures '\n' !in line
    {
      var i :| 0 <= i < |lines| && lines[i] == line;
      assert NoBreak(lines[i]);
    }
    SplitJoin(lines, '\n');
  }

  lemma NoLines(text: string)
    ensures SplitLines(text) == [] <==> text == ""
  { }

  lemma Behind(head: seq<Byte>, tail: seq<Byte>, j: nat)
    requires j <= |tail|
    ensures (head + tail)[|head| + j..] == tail[j..]
    ensures forall l :: |head| <= l < |head| + |tail| ==> (head + tail)[l] == tail[l - |head|]
  { }

  /** The next character boundary at or after byte `k`: at most three bytes away, all of them continuation bytes. */
  lemma {:induction false} NextBoundary(text: string, k: nat) returns (i: nat, j: nat)
    requires k <= |Encode(text)|
    ensures i <= |text| && k <= j <= |Encode(text)| && j <= k + 3 && Encode(text)[j..] == Encode(text[i..])
    ensures forall l :: k <= l < j ==> IsContinuation(Encode(text)[l])
    ensures k == 0 ==> i == j == 0
  {
    i, j := 0, k;
    if k == 0 {
      assert text[0..] == text;
    } else {
      var head, tail := EncodeChar(text[0]), Encode(text[1..]);
      var h := |head|;
      if k <= h {
        i, j := 1, h;
        EncodedTail(text[0]);
      } else {
        i, j := NextBoundary(text[1..], k - h);
        assert text[1..][i..] == text[i + 1..];
        Behind(head, tail, j);
        i, j := i + 1, h + j;
      }
    }
  }

  lemma EncodedTail(c: char)
    ensures forall l :: 1 <= l < |EncodeChar(c)| ==> IsContinuation(EncodeChar(c)[l])
  { }

  predicate IsSuffix(s: string, t: string) {
    |s| <= |t| && s == t[|t| - |s|..]
  }

  lemma SuffixHasNoMoreLines(s: string, t: string)
    requires IsSuffix(s, t)
    ensures |SplitLines(s)| <= |SplitLines(t)|
  {
    SuffixLines(t, |t| - |s|);
  }

  method LimitLines(text: string, maxLines: nat) returns (limited: string, cut: bool)
    ensures limited == Limited(text, maxLines) && (cut <==> |SplitLines(text)| > maxLines)
  {
    var lines := SplitLines(text);
    cut := |lines| > maxLines;
    limited := if cut then Join(Last(lines, maxLines), '\n') else text;
  }

  method LimitBytes(text: string, maxBytes: nat) returns (result: string, cut: bool)
    ensures IsSuffix(result, text) && (cut <==> |Encode(text)| > maxBytes)
    ensures if cut && maxBytes > 0 then maxBytes - 3 <= |Encode(result)| <= maxBytes else result == text
  {
    var encoded := Encode(text);
    result, cut := text, |encoded| > maxBytes;
    if cut {
      assert encoded[0..] == encoded;
      result := DecodeSuffix(Last(encoded, maxBytes), text, if maxBytes == 0 then 0 else |encoded| - maxBytes);
    }
  }

  /**
   The last lines and bytes: a suffix of the line-limited text that loses at most three bytes to alignment. Positive limits
   are kept; a limit of zero is not, unless there is nothing to limit: it drops nothing.
   */
  method LimitOutput(text: string, maxLines: nat, maxBytes: nat) returns (result: string, truncated: bool)
    ensures IsSuffix(result, Limited(text, maxLines))
    ensures |Encode(result)| <= maxBytes <==> maxBytes > 0 || Limited(text, maxLines) == ""
    ensures |SplitLines(result)| <= maxLines <==> maxLines > 0 || result == ""
    ensures |Encode(Limited(text, maxLines))| <= maxBytes || maxBytes == 0 ==> result == Limited(text, maxLines)
    ensures |Encode(Limited(text, maxLines))| > maxBytes > 0 ==> |Encode(result)| >= maxBytes - 3
    ensures truncated <==> |SplitLines(text)| > maxLines || |Encode(Limited(text, maxLines))| > maxBytes
  {
    var limited, fewer := LimitLines(text, maxLines);
    var shorter;
    result, shorter := LimitBytes(limited, maxBytes);
    EmptyEncoding(limited);
    NoLines(result);
    if maxLines > 0 {
      LimitedLines(text, maxLines);
      SuffixHasNoMoreLines(result, limited);
    }
    truncated := fewer || shorter;
  }

  /** Only at a character boundary does the rest decode, and then to the rest of the text. */
  ghost predicate DecodesFrom(full: seq<Byte>, k: nat, j: nat, text: string) {
    && k <= j <= |full| && j <= k + 3 && full[j..] == Encode(text)
    && forall l :: k <= l <= j && l < |full| ==> DecodeStrict(full[l..]) == if l < j then None else Some(text)
  }

  lemma DecodesAtBoundary(text: string, k: nat) returns (i: nat, j: nat)
    requires k <= |Encode(text)|
    ensures i <= |text| && DecodesFrom(Encode(text), k, j, text[i..]) && (k == 0 ==> i == 0)
  {
    i, j := NextBoundary(text, k);
    RoundTrip(text[i..]);
    NoneDecodesBefore(Encode(text), k, j);
    BoundaryDecodes(Encode(text), k, j, text[i..]);
  }

  lemma NoneDecodesBefore(full: seq<Byte>, k: nat, j: nat)
    requires k <= j <= |full| && forall l :: k <= l < j ==> IsContinuation(full[l])
    ensures forall l :: k <= l < j ==> DecodeStrict(full[l..]).None?
  {
    forall l | k <= l < j
      ensures DecodeStrict(full[l..]).None?
    {
      ContinuationIsBad(full[l..]);
    }
  }

  lemma BoundaryDecodes(full: seq<Byte>, k: nat, j: nat, text: string)
    requires k <= j <= |full| && j <= k + 3 && full[j..] == Encode(text) && DecodeStrict(Encode(text)) == Some(text)
    requires forall l :: k <= l < j ==> DecodeStrict(full[l..]).None?
    ensures DecodesFrom(full, k, j, text)
  { }

  /** Drops bytes from the front until the rest decodes. */
  method DecodeSuffix(bytes: seq<Byte>, ghost text: string, ghost k: nat) returns (result: string)
    requires k <= |Encode(text)| && bytes == Encode(text)[k..]
    ensures IsSuffix(result, text) && |bytes| - 3 <= |Encode(result)| <= |bytes| && (k == 0 ==> result == text)
  {
    ghost var i, j := DecodesAtBoundary(text, k);
    result := DropUntilDecodes(bytes, Encode(text), k, j, text[i..]);
  }

  method DropUntilDecodes(bytes: seq<Byte>, ghost full: seq<Byte>, ghost k: nat, ghost j: nat, ghost rest: string) returns (result: string)
    requires DecodesFrom(full, k, j, rest) && bytes == full[k..]
    ensures result == rest
  {
    var encoded := bytes;
    ghost var l := k;
    while encoded != []
      invariant k <= l <= j && encoded == full[l..]
      decreases |encoded|
    {
      var decoded := DecodeStrict(encoded);
      if decoded.Some? {
        return decoded.value;
      }
      encoded, l := encoded[1..], l + 1;
    }
    EmptyEncoding(rest);
    return "";
  }

  lemma EmptyEncoding(s: string)
    ensures Encode(s) == [] <==> s == ""
  { }
}
