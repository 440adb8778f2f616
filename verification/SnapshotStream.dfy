/** restic's output as a byte stream: lines, the items they decode to, and where a stream may be cut. */
module SnapshotStream {
  import opened Text
  import opened SnapshotListing

  const NEWLINE: Byte := 10

  /** What one JSON line decodes to: a snapshot header, a node, or neither (malformed lines included). */
  datatype Item = Header | Listed(node: Node) | Unusable

  type Decoder = seq<Byte> -> Item

  predicate IsBlankByte(b: Byte) {
    b == 32 || 9 <= b <= 13
  }

  /** What a line contributes: surrounding blanks do not count, and a blank line is skipped. */
  function LineItems(decode: Decoder, line: seq<Byte>): seq<Item> {
    if line == [] then []
    else if IsBlankByte(line[0]) then LineItems(decode, line[1..])
    else if IsBlankByte(line[|line| - 1]) then LineItems(decode, line[..|line| - 1])
    else [decode(line)]
  }

  /** Stripping the line first, as the parsers do, gives the same. */
  lemma {:induction false} LineItemsOfTrimmed(decode: Decoder, line: seq<Byte>)
    ensures var text := Trim(line, IsBlankByte); LineItems(decode, line) == if text == [] then [] else [decode(text)]
  {
    if line != [] && IsBlankByte(line[0]) {
      LineItemsOfTrimmed(decode, line[1..]);
    } else if line != [] && IsBlankByte(line[|line| - 1]) {
      LineItemsOfTrimmed(decode, line[..|line| - 1]);
    }
  }

  /** A space, a tab or a line-ending byte on either side of a line does not count. */
  lemma {:induction false} BlanksDoNotCount(decode: Decoder, line: seq<Byte>, blank: Byte)
    requires blank in {9, 10, 11, 12, 13, 32}
    ensures LineItems(decode, [blank] + line) == LineItems(decode, line) == LineItems(decode, line + [blank])
  {
    assert ([blank] + line)[1..] == line;
    if line == [] {
      assert line + [blank] == [blank] + line;
    } else if IsBlankByte(line[0]) {
      assert (line + [blank])[1..] == line[1..] + [blank];
      BlanksDoNotCount(decode, line[1..], blank);
    } else {
      assert (line + [blank])[..|line|] == line;
    }
  }

  /** Any other byte does. */
  lemma OtherBytesCount(decode: Decoder, line: seq<Byte>)
    requires line != [] && line[0] !in {9, 10, 11, 12, 13, 32} && line[|line| - 1] !in {9, 10, 11, 12, 13, 32}
    ensures LineItems(decode, line) == [decode(line)]
  { }

  function Items(decode: Decoder, lines: seq<seq<Byte>>): seq<Item> {
    if lines == [] then [] else LineItems(decode, lines[0]) + Items(decode, lines[1..])
  }

  function ItemsOf(decode: Decoder, stream: seq<Byte>): seq<Item> {
    Items(decode, Split(stream, NEWLINE))
  }

  function NodesOf(items: seq<Item>): seq<Node> {
    if items == [] then []
    else NodesOf(items[..|items| - 1]) + if items[|items| - 1].Listed? then [items[|items| - 1].node] else []
  }

  /** A stream is accepted when every item is usable and there is at least one. */
  predicate Accepted(items: seq<Item>) {
    Unusable !in items && items != []
  }

  lemma {:induction false} ItemsConcat(decode: Decoder, a: seq<seq<Byte>>, b: seq<seq<Byte>>)
    ensures Items(decode, a + b) == Items(decode, a) + Items(decode, b)
  {
    if a == [] {
      assert a + b == b;
    } else {
      assert (a + b)[1..] == a[1..] + b;
      ItemsConcat(decode, a[1..], b);
    }
  }

  /** One more item, as the fold over nodes sees it. */
  lemma NodesSnoc(items: seq<Item>, item: Item)
    ensures NodesOf(items + [item]) == if item.Listed? then NodesOf(items) + [item.node] else NodesOf(items)
  {
    assert (items + [item])[..|items|] == items;
  }

  /** A stream that stops right after a newline, or has not begun. */
  predicate Whole(stream: seq<Byte>) {
    stream == [] || stream[|stream| - 1] == NEWLINE
  }

  lemma {:induction false} WholeEndsEmpty(stream: seq<Byte>)
    requires Whole(stream)
    ensures var lines := Split(stream, NEWLINE); lines[|lines| - 1] == []
  {
    if |stream| > 1 {
      WholeEndsEmpty(stream[1..]);
      if stream[0] != NEWLINE {
        assert Split(stream[1..], NEWLINE) != [[]] by {
          JoinSplit(stream[1..], NEWLINE);
        }
      }
    }
  }

  lemma BlankLine(decode: Decoder)
    ensures Items(decode, [[]]) == []
  {
    assert LineItems(decode, []) == [];
  }

  lemma WholeItems(decode: Decoder, read: seq<Byte>) returns (first: seq<seq<Byte>>)
    requires Whole(read)
    ensures Split(read, NEWLINE) == first + [[]] && ItemsOf(decode, read) == Items(decode, first)
  {
    var lines := Split(read, NEWLINE);
    first := lines[..|lines| - 1];
    WholeEndsEmpty(read);
    assert lines == first + [[]];
    ItemsConcat(decode, first, [[]]);
    BlankLine(decode);
  }

  lemma SplitWhole(read: seq<Byte>, rest: seq<Byte>, first: seq<seq<Byte>>)
    requires Split(read, NEWLINE) == first + [[]]
    ensures Split(read + rest, NEWLINE) == first + Split(rest, NEWLINE)
  {
    SplitConcat(read, rest, NEWLINE);
    var lines := first + [[]];
    assert lines[..|lines| - 1] == first && lines[|lines| - 1] == [];
    assert [] + rest == rest;
  }

  /** A stream may be cut after any newline. */
  lemma CutAfterNewline(decode: Decoder, read: seq<Byte>, rest: seq<Byte>)
    requires Whole(read)
    ensures ItemsOf(decode, read + rest) == ItemsOf(decode, read) + ItemsOf(decode, rest)
  {
    var first := WholeItems(decode, read);
    SplitWhole(read, rest, first);
    ItemsConcat(decode, first, Split(rest, NEWLINE));
  }

  lemma ItemsOfLine(decode: Decoder, line: seq<Byte>)
    requires NEWLINE !in line
    ensures ItemsOf(decode, line) == LineItems(decode, line)
    ensures ItemsOf(decode, line + [NEWLINE]) == LineItems(decode, line)
  {
    SplitNone(line, NEWLINE);
    LeadingPiece(line, [], NEWLINE);
    assert line + [NEWLINE] + [] == line + [NEWLINE];
    assert Items(decode, [line]) == LineItems(decode, line) + Items(decode, []) by {
      assert [line][1..] == [];
    }
    assert [line] + [[]] == [line, []];
    ItemsConcat(decode, [line], [[]]);
    BlankLine(decode);
  }

  /** The first line of a buffer, and what comes after its newline. */
  method SplitLine(buffer: seq<Byte>) returns (line: seq<Byte>, rest: seq<Byte>)
    requires NEWLINE in buffer
    ensures buffer == line + [NEWLINE] + rest && NEWLINE !in line
  {
    var i := 0;
    while buffer[i] != NEWLINE
      invariant 0 <= i < |buffer| && NEWLINE !in buffer[..i] && NEWLINE in buffer[i..]
      decreases |buffer| - i
    {
      assert buffer[i..] == [buffer[i]] + buffer[i + 1..];
      assert buffer[..i + 1] == buffer[..i] + [buffer[i]];
      i := i + 1;
    }
    line, rest := buffer[..i], buffer[i + 1..];
  }

  /** Accepted means: at least one line that counts, and every one of them usable. */
  lemma AcceptedIff(items: seq<Item>)
    ensures Accepted(items) <==> |items| > 0 && forall i :: 0 <= i < |items| ==> items[i] != Unusable
  { }

  lemma {:induction false} BlankLineHasNoItem(decode: Decoder, line: seq<Byte>)
    requires forall i :: 0 <= i < |line| ==> line[i] in {9, 10, 11, 12, 13, 32}
    ensures LineItems(decode, line) == []
  {
    if line != [] {
      assert line == [line[0]] + line[1..];
      BlanksDoNotCount(decode, line[1..], line[0]);
      BlankLineHasNoItem(decode, line[1..]);
    }
  }

  lemma {:induction false} PieceIsPart(s: seq<Byte>, allowed: set<Byte>)
    requires forall i :: 0 <= i < |s| ==> s[i] in allowed
    ensures forall piece, i :: piece in Split(s, NEWLINE) && 0 <= i < |piece| ==> piece[i] in allowed
  {
    if s != [] {
      PieceIsPart(s[1..], allowed);
      assert Split(s[1..], NEWLINE)[0] in Split(s[1..], NEWLINE);
    }
  }

  lemma {:induction false} BlankLinesHaveNoItems(decode: Decoder, lines: seq<seq<Byte>>)
    requires forall line, i :: line in lines && 0 <= i < |line| ==> line[i] in {9, 10, 11, 12, 13, 32}
    ensures Items(decode, lines) == []
  {
    if lines != [] {
      assert lines[0] in lines;
      BlankLineHasNoItem(decode, lines[0]);
      BlankLinesHaveNoItems(decode, lines[1..]);
    }
  }

  /** No output, or nothing but blanks, is not accepted. */
  lemma BlankOutputIsNotAccepted(decode: Decoder, stream: seq<Byte>)
    requires forall i :: 0 <= i < |stream| ==> stream[i] in {9, 10, 11, 12, 13, 32}
    ensures !Accepted(ItemsOf(decode, stream))
  {
    PieceIsPart(stream, {9, 10, 11, 12, 13, 32});
    BlankLinesHaveNoItems(decode, Split(stream, NEWLINE));
  }
}
