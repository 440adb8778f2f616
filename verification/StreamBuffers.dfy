/** Bounded buffers over a byte stream: complete lines as they come, and the last bytes. */
module StreamBuffers {
  import opened Text
  import opened Utf8

  predicate IsCarriageReturn(c: char) { c == '\r' }

  function Stripped(line: string): string {
    TrimEnd(line, IsCarriageReturn)
  }

  function StrippedAll(lines: seq<string>): seq<string> {
    if lines == [] then [] else [Stripped(lines[0])] + StrippedAll(lines[1..])
  }

  /** The complete lines of a text, and the rest after the last newline. */
  function Complete(text: string): seq<string> {
    var lines := Split(text, '\n');
    lines[..|lines| - 1]
  }

  function Rest(text: string): string {
    var lines := Split(text, '\n');
    lines[|lines| - 1]
  }

  /** The lines of a whole text; an empty last one does not count. */
  function LinesOf(text: string): seq<string> {
    StrippedAll(Complete(text)) + if Rest(text) == "" then [] else [Stripped(Rest(text))]
  }

  lemma {:induction false} StrippedConcat(a: seq<string>, b: seq<string>)
    ensures StrippedAll(a + b) == StrippedAll(a) + StrippedAll(b)
  {
    if a == [] {
      assert a + b == b;
    } else {
      assert (a + b)[1..] == a[1..] + b;
      StrippedConcat(a[1..], b);
    }
  }

  /** More text completes the rest of the text before it. */
  lemma MoreText(text: string, more: string)
    ensures Complete(text + more) == Complete(text) + Complete(Rest(text) + more)
    ensures Rest(text + more) == Rest(Rest(text) + more)
  {
    SplitConcat(text, more, '\n');
    var tail := Split(Rest(text) + more, '\n');
    assert Complete(text) + tail == Complete(text) + tail[..|tail| - 1] + [tail[|tail| - 1]];
  }

  lemma NoNewline(text: string)
    requires '\n' !in text
    ensures Complete(text) == [] && Rest(text) == text
  {
    SplitNone(text, '\n');
  }

  class LineLogBuffer {
    var pending: string
    var decoder: seq<Byte>
    var emitted: seq<string>
    ghost var fed: seq<Byte>

    /** What has been decoded of the bytes fed is emitted up to its last newline. */
    ghost predicate Valid()
      reads this
    {
      && IsPrefix(decoder) && !IsComplete(decoder) && decoder == Run([], fed).1
      && emitted == StrippedAll(Complete(Run([], fed).0)) && pending == Rest(Run([], fed).0)
    }

    constructor ()
      ensures Valid() && fed == [] && emitted == []
    {
      pending, decoder, emitted, fed := "", [], [], [];
    }

    method Feed(chunk: seq<Byte>)
      requires Valid()
      modifies this
      ensures Valid() && fed == old(fed) + chunk
    {
      ghost var text := Run([], fed).0;
      RunConcat([], fed, chunk);
      var (more, rest) := Run(decoder, chunk);
      decoder, fed := rest, fed + chunk;
      MoreText(text, more);
      if more == "" {
        assert text + more == text;
        return;
      }
      StrippedConcat(Complete(text), Complete(pending + more));
      pending := pending + more;
      if '\n' !in pending {
        NoNewline(pending);
        assert StrippedAll([]) == [];
        return;
      }
      EmitAll(Complete(pending));
      pending := Rest(pending);
    }

    method EmitAll(lines: seq<string>)
      modifies this`emitted
      ensures emitted == old(emitted) + StrippedAll(lines)
    {
      assert lines[..0] == [];
      for i := 0 to |lines|
        invariant emitted == old(emitted) + StrippedAll(lines[..i])
      {
        assert lines[..i + 1] == lines[..i] + [lines[i]];
        StrippedConcat(lines[..i], [lines[i]]);
        assert [lines[i]][1..] == [];
        emitted := emitted + [Stripped(lines[i])];
      }
      assert lines[..|lines|] == lines;
    }

    /** After the flush exactly the lines of the whole decoded stream have been emitted, however it was cut. */
    method Flush()
      requires Valid()
      modifies this`pending, this`emitted
      ensures emitted == LinesOf(Decode(fed))
    {
      ghost var text := Run([], fed).0;
      var last := Final(decoder);
      RunIsDecode([], fed);
      assert [] + fed == fed;
      assert Decode(fed) == text + last;
      MoreText(text, last);
      assert '\n' !in pending by {
        SplitPieces(text, '\n');
      }
      NoNewline(pending + last);
      assert Complete(text) + [] == Complete(text);
      pending := pending + last;
      if pending != "" {
        emitted := emitted + [Stripped(pending)];
        pending := "";
      }
    }
  }

  /** A whole stream, chunk by chunk. */
  method LogLines(chunks: seq<seq<Byte>>) returns (lines: seq<string>)
    ensures lines == LinesOf(Decode(Flatten(chunks)))
  {
    var buffer := new LineLogBuffer();
    for i := 0 to |chunks|
      invariant buffer.Valid() && buffer.fed == Flatten(chunks[..i])
    {
      assert chunks[..i + 1] == chunks[..i] + [chunks[i]];
      FlattenSnoc(chunks[..i], chunks[i]);
      buffer.Feed(chunks[i]);
    }
    assert chunks[..|chunks|] == chunks;
    buffer.Flush();
    lines := buffer.emitted;
  }

  // ----- the last bytes -----

  function LastBytes(s: seq<Byte>, count: nat): seq<Byte> {
    if |s| <= count then s else s[|s| - count..]
  }

  class ByteTailBuffer {
    const maxBytes: nat
    var chunks: seq<seq<Byte>>
    var size: nat
    var truncated: bool
    ghost var fed: seq<Byte>

    /** Exactly the last bytes are kept, and truncation is reported exactly if there were more. */
    ghost predicate Valid()
      reads this
    {
      && Flatten(chunks) == LastBytes(fed, maxBytes)
      && size == |Flatten(chunks)|
      && (truncated <==> |fed| > maxBytes)
    }

    constructor (limit: int)
      ensures Valid() && fed == [] && maxBytes == if limit < 0 then 0 else limit
    {
      maxBytes := if limit < 0 then 0 else limit;
      chunks, size, truncated, fed := [], 0, false, [];
    }

    method Feed(chunk: seq<Byte>)
      requires Valid()
      modifies this
      ensures Valid() && fed == old(fed) + chunk
    {
      LastOfMore(fed, chunk, maxBytes);
      fed := fed + chunk;
      if chunk == [] {
        assert fed == old(fed);
        return;
      }
      FlattenSnoc(chunks, chunk);
      chunks := chunks + [chunk];
      size := size + |chunk|;
      DropOverflow();
    }

    /** Whole chunks go from the front, and then part of one. */
    method DropOverflow()
      requires size == |Flatten(chunks)|
      modifies this`chunks, this`size, this`truncated
      ensures Flatten(chunks) == LastBytes(old(Flatten(chunks)), maxBytes) && size == |Flatten(chunks)|
      ensures truncated <==> old(truncated) || old(size) > maxBytes
    {
      ghost var all := Flatten(chunks);
      while size > maxBytes && chunks != []
        invariant size <= |all| && Flatten(chunks) == all[|all| - size..] && (size == |all| || size >= maxBytes)
        invariant truncated ==> old(truncated) || |all| > maxBytes
        invariant old(truncated) || size < |all| ==> truncated
        decreases size, |chunks|
      {
        var overflow, oldest := size - maxBytes, chunks[0];
        if |oldest| <= overflow {
          chunks := chunks[1..];
          size := size - |oldest|;
        } else {
          DropFront(chunks, overflow);
          chunks := [oldest[overflow..]] + chunks[1..];
          size := size - overflow;
        }
        truncated := true;
      }
    }

    method DecodeTail() returns (text: string)
      requires Valid()
      ensures text == Decode(LastBytes(fed, maxBytes))
    {
      text := Decode(Flatten(chunks));
    }
  }

  lemma DropFront(chunks: seq<seq<Byte>>, n: nat)
    requires chunks != [] && n < |chunks[0]|
    ensures Flatten([chunks[0][n..]] + chunks[1..]) == Flatten(chunks)[n..]
  {
    assert ([chunks[0][n..]] + chunks[1..])[1..] == chunks[1..];
  }

  /** The last bytes of the longer stream are the last bytes of what was kept of the shorter one and the new chunk. */
  lemma LastOfMore(fed: seq<Byte>, chunk: seq<Byte>, count: nat)
    ensures LastBytes(LastBytes(fed, count) + chunk, count) == LastBytes(fed + chunk, count)
  { }

  // ----- what the lines of a text are -----

  lemma {:induction false} StrippedAt(lines: seq<string>, i: nat)
    requires i < |lines|
    ensures |StrippedAll(lines)| == |lines| && StrippedAll(lines)[i] == Stripped(lines[i])
  {
    if i > 0 {
      StrippedAt(lines[1..], i - 1);
    } else if |lines| > 1 {
      StrippedAt(lines[1..], 0);
    }
  }

  /** The line is the piece without the carriage returns at its end. */
  predicate IsStripped(line: string, piece: string) {
    && line <= piece && (line != "" ==> line[|line| - 1] != '\r')
    && forall i :: |line| <= i < |piece| ==> piece[i] == '\r'
  }

  /**
   The text is its pieces joined by newlines; each piece gives one line, without carriage returns at its end, except that an
   empty last piece gives none.
   */
  lemma LinesAreThePieces(text: string) returns (pieces: seq<string>)
    ensures pieces != [] && Join(pieces, '\n') == text && forall i :: 0 <= i < |pieces| ==> '\n' !in pieces[i]
    ensures |LinesOf(text)| == if pieces[|pieces| - 1] == "" then |pieces| - 1 else |pieces|
    ensures forall i :: 0 <= i < |LinesOf(text)| ==> IsStripped(LinesOf(text)[i], pieces[i])
  {
    pieces := Split(text, '\n');
    JoinSplit(text, '\n');
    SplitPieces(text, '\n');
    var whole := Complete(text);
    if whole == [] {
      assert StrippedAll(whole) == [];
    } else {
      StrippedAt(whole, 0);
    }
    forall i | 0 <= i < |whole|
      ensures IsStripped(LinesOf(text)[i], pieces[i])
    {
      StrippedAt(whole, i);
    }
  }
}
