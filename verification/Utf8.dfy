/** UTF-8 (section 3 of RFC 3629): encoding, decoding with replacement, and the incremental decoder. */
module Utf8 {
  import opened Wrappers
  import opened Text

  const REPLACEMENT: char := '\U{FFFD}'

  // ----- encoding -----

  function EncodeChar(c: char): (r: seq<Byte>)
    ensures 1 <= |r| <= 4
  {
    var n := c as int;
    if n < 0x80 then [n]
    else if n < 0x800 then [0xC0 + n / 64, 0x80 + n % 64]
    else if n < 0x10000 then [0xE0 + n / 4096, 0x80 + n / 64 % 64, 0x80 + n % 64]
    else [0xF0 + n / 262144, 0x80 + n / 4096 % 64, 0x80 + n / 64 % 64, 0x80 + n % 64]
  }

  function Encode(s: string): seq<Byte> {
    if s == "" then [] else EncodeChar(s[0]) + Encode(s[1..])
  }

  // ----- well-formed sequences -----

  /** How many bytes a sequence with this first byte has; 0 if there is none. */
  function Length(first: Byte): (n: nat)
    ensures n <= 4
  {
    if first < 0x80 then 1
    else if 0xC2 <= first <= 0xDF then 2
    else if 0xE0 <= first <= 0xEF then 3
    else if 0xF0 <= first <= 0xF4 then 4
    else 0
  }

  predicate IsContinuation(b: Byte) {
    0x80 <= b <= 0xBF
  }

  /** The second byte is narrower after some first bytes: no overlong forms, no surrogates, nothing above U+10FFFF. */
  predicate FitsSecond(first: Byte, b: Byte) {
    IsContinuation(b) && (first == 0xE0 ==> 0xA0 <= b) && (first == 0xED ==> b <= 0x9F) && (first == 0xF0 ==> 0x90 <= b) && (first == 0xF4 ==> b <= 0x8F)
  }

  predicate Fits(first: Byte, i: nat, b: Byte) {
    i < Length(first) && (if i == 1 then FitsSecond(first, b) else IsContinuation(b))
  }

  /** A beginning of a well-formed sequence. */
  predicate IsPrefix(s: seq<Byte>) {
    s == [] || (|s| <= Length(s[0]) && forall i :: 1 <= i < |s| ==> Fits(s[0], i, s[i]))
  }

  predicate IsComplete(s: seq<Byte>) {
    s != [] && IsPrefix(s) && |s| == Length(s[0])
  }

  function CodePoint(s: seq<Byte>): (n: int)
    requires IsComplete(s)
    ensures 0 <= n < 0xD800 || 0xE000 <= n < 0x110000
  {
    var first: int := s[0];
    if |s| == 1 then first
    else
      assert Fits(s[0], 1, s[1]);
      var second: int := s[1] - 0x80;
      if |s| == 2 then (first - 0xC0) * 64 + second
      else
        assert Fits(s[0], 2, s[2]);
        var third: int := s[2] - 0x80;
        if |s| == 3 then (first - 0xE0) * 4096 + second * 64 + third
        else
          assert Fits(s[0], 3, s[3]);
          var fourth: int := s[3] - 0x80;
          (first - 0xF0) * 262144 + second * 4096 + third * 64 + fourth
  }

  function CharOf(s: seq<Byte>): char
    requires IsComplete(s)
  {
    CodePoint(s) as char
  }

  lemma Sextets(n: nat)
    ensures n == n / 64 * 64 + n % 64
    ensures n / 64 == n / 4096 * 64 + n / 64 % 64
    ensures n / 4096 == n / 262144 * 64 + n / 4096 % 64
  {
    assert n / 64 / 64 == n / 4096;
    assert n / 4096 / 64 == n / 262144;
  }

  lemma EncodedIsComplete(c: char)
    ensures IsComplete(EncodeChar(c)) && CharOf(EncodeChar(c)) == c
  {
    var n := c as int;
    var s := EncodeChar(c);
    assert n < 0x110000 && !(0xD800 <= n < 0xE000);
    Sextets(n);
    if |s| == 2 {
      TwoBytes(n, s);
    } else if |s| == 3 {
      ThreeBytes(n, s);
    } else if |s| == 4 {
      FourBytes(n, s);
    }
  }

  lemma TwoBytes(n: nat, s: seq<Byte>)
    requires 0x80 <= n < 0x800 && |s| == 2 && s[0] == 0xC0 + n / 64 && s[1] == 0x80 + n % 64
    ensures IsComplete(s) && CodePoint(s) == n
  {
    Sextets(n);
    assert Fits(s[0], 1, s[1]);
  }

  lemma ThreeBytes(n: nat, s: seq<Byte>)
    requires 0x800 <= n < 0x10000 && !(0xD800 <= n < 0xE000)
    requires |s| == 3 && s[0] == 0xE0 + n / 4096 && s[1] == 0x80 + n / 64 % 64 && s[2] == 0x80 + n % 64
    ensures IsComplete(s) && CodePoint(s) == n
  {
    Sextets(n);
    assert Fits(s[0], 1, s[1]) && Fits(s[0], 2, s[2]);
  }

  lemma FourBytes(n: nat, s: seq<Byte>)
    requires 0x10000 <= n < 0x110000
    requires |s| == 4 && s[0] == 0xF0 + n / 262144 && s[1] == 0x80 + n / 4096 % 64 && s[2] == 0x80 + n / 64 % 64 && s[3] == 0x80 + n % 64
    ensures IsComplete(s) && CodePoint(s) == n
  {
    Sextets(n);
    assert Fits(s[0], 1, s[1]) && Fits(s[0], 2, s[2]) && Fits(s[0], 3, s[3]);
  }

  // ----- decoding a whole sequence -----

  /** The longest beginning of `s` that begins a well-formed sequence. */
  function PrefixLength(s: seq<Byte>, k: nat): (n: nat)
    requires k <= |s| && IsPrefix(s[..k])
    ensures k <= n <= |s| && IsPrefix(s[..n]) && (n < |s| ==> !IsPrefix(s[..n + 1]))
    decreases |s| - k
  {
    if k < |s| && IsPrefix(s[..k + 1]) then PrefixLength(s, k + 1) else k
  }

  /** Each well-formed sequence is its character; each longest beginning of one, or single bad byte, is replaced. */
  function Decode(s: seq<Byte>): string {
    if s == [] then ""
    else
      var n := PrefixLength(s, 0);
      if IsComplete(s[..n]) then [CharOf(s[..n])] + Decode(s[n..])
      else [REPLACEMENT] + Decode(s[if n == 0 then 1 else n..])
  }

  /** Strict decoding: only well-formed sequences. */
  function DecodeStrict(s: seq<Byte>): Option<string> {
    if s == [] then Some("")
    else
      var n := PrefixLength(s, 0);
      if !IsComplete(s[..n]) then None
      else
        var rest := DecodeStrict(s[n..]);
        if rest.Some? then Some([CharOf(s[..n])] + rest.value) else None
  }

  lemma ShorterPrefix(s: seq<Byte>, n: nat)
    requires IsPrefix(s) && n <= |s|
    ensures IsPrefix(s[..n])
  { }

  lemma {:induction false} PrefixLengthIs(s: seq<Byte>, k: nat, n: nat)
    requires k <= n <= |s| && IsPrefix(s[..n]) && IsPrefix(s[..k]) && (n < |s| ==> !IsPrefix(s[..n + 1]))
    ensures PrefixLength(s, k) == n
    decreases n - k
  {
    if k < n {
      assert s[..n][..k + 1] == s[..k + 1];
      ShorterPrefix(s[..n], k + 1);
      PrefixLengthIs(s, k + 1, n);
    }
  }

  lemma CompleteStops(s: seq<Byte>, n: nat)
    requires n <= |s| && IsComplete(s[..n])
    ensures PrefixLength(s, 0) == n
  {
    if n < |s| {
      assert s[..n + 1][0] == s[..n][0];
    }
    PrefixLengthIs(s, 0, n);
  }

  /** A well-formed sequence in front. */
  lemma DecodeComplete(head: seq<Byte>, rest: seq<Byte>)
    requires IsComplete(head)
    ensures Decode(head + rest) == [CharOf(head)] + Decode(rest)
    ensures DecodeStrict(head + rest) == var r := DecodeStrict(rest); if r.Some? then Some([CharOf(head)] + r.value) else None
  {
    assert (head + rest)[..|head|] == head && (head + rest)[|head|..] == rest;
    CompleteStops(head + rest, |head|);
  }

  /** Encoded text decodes to itself, strictly and with replacement. */
  lemma {:induction false} RoundTrip(s: string)
    ensures Decode(Encode(s)) == s && DecodeStrict(Encode(s)) == Some(s)
  {
    if s != "" {
      RoundTrip(s[1..]);
      EncodedIsComplete(s[0]);
      DecodeComplete(EncodeChar(s[0]), Encode(s[1..]));
      assert [s[0]] + s[1..] == s;
    }
  }

  /** A sequence that begins in the middle of a character does not decode strictly. */
  lemma ContinuationIsBad(s: seq<Byte>)
    requires s != [] && IsContinuation(s[0])
    ensures DecodeStrict(s).None?
  {
    assert s[..1][0] == s[0];
    assert !IsPrefix(s[..1]);
    PrefixLengthIs(s, 0, 0);
  }

  // ----- the incremental decoder -----

  /** A byte on its own: a character, the beginning of one, or replaced. */
  function Restart(b: Byte): (string, seq<Byte>) {
    if IsComplete([b]) then ([CharOf([b])], []) else if IsPrefix([b]) then ("", [b]) else ([REPLACEMENT], [])
  }

  /** What a byte adds to the text, and the unfinished sequence after it. */
  function Push(pending: seq<Byte>, b: Byte): (string, seq<Byte>)
    requires IsPrefix(pending) && !IsComplete(pending)
  {
    var more := pending + [b];
    if pending == [] then Restart(b)
    else if IsComplete(more) then ([CharOf(more)], [])
    else if IsPrefix(more) then ("", more)
    else ([REPLACEMENT] + Restart(b).0, Restart(b).1)
  }

  lemma PushKeepsPending(pending: seq<Byte>, b: Byte)
    requires IsPrefix(pending) && !IsComplete(pending)
    ensures IsPrefix(Push(pending, b).1) && !IsComplete(Push(pending, b).1)
  { }

  /** The text a run of bytes adds, and what stays pending. */
  function Run(pending: seq<Byte>, s: seq<Byte>): (r: (string, seq<Byte>))
    requires IsPrefix(pending) && !IsComplete(pending)
    ensures IsPrefix(r.1) && !IsComplete(r.1)
    decreases |s|
  {
    if s == [] then ("", pending)
    else
      PushKeepsPending(pending, s[0]);
      var (text, rest) := Push(pending, s[0]);
      var (more, last) := Run(rest, s[1..]);
      (text + more, last)
  }

  /** At the end of the stream an unfinished sequence is replaced. */
  function Final(pending: seq<Byte>): string {
    if pending == [] then "" else [REPLACEMENT]
  }

  lemma UnfinishedIsReplaced(pending: seq<Byte>)
    requires IsPrefix(pending) && !IsComplete(pending)
    ensures Decode(pending) == Final(pending)
  {
    if pending != [] {
      assert pending[..|pending|] == pending;
      PrefixLengthIs(pending, 0, |pending|);
    }
  }

  /** A beginning that the next byte does not continue is replaced, and that byte starts afresh. */
  lemma BrokenIsReplaced(pending: seq<Byte>, s: seq<Byte>)
    requires pending != [] && IsPrefix(pending) && !IsComplete(pending) && s != [] && !IsPrefix(pending + [s[0]])
    ensures Decode(pending + s) == [REPLACEMENT] + Decode(s)
  {
    var all, n := pending + s, |pending|;
    assert all[..n] == pending && all[n..] == s;
    assert all[..n + 1] == pending + [s[0]];
    PrefixLengthIs(all, 0, n);
  }

  lemma RestartIsDecode(b: Byte, rest: seq<Byte>)
    ensures Decode([b] + rest) == Restart(b).0 + Decode(Restart(b).1 + rest)
  {
    assert [] + rest == rest && "" + Decode([b] + rest) == Decode([b] + rest);
    var s := [b] + rest;
    if IsComplete([b]) {
      DecodeComplete([b], rest);
    } else if !IsPrefix([b]) {
      assert s[..1] == [b] && s[..0] == [] && s[1..] == rest;
      PrefixLengthIs(s, 0, 0);
    }
  }

  lemma BrokenThenRestart(pending: seq<Byte>, b: Byte, rest: seq<Byte>)
    requires pending != [] && IsPrefix(pending) && !IsComplete(pending) && !IsPrefix(pending + [b])
    ensures Decode(pending + ([b] + rest)) == [REPLACEMENT] + Restart(b).0 + Decode(Restart(b).1 + rest)
  {
    RestartIsDecode(b, rest);
    BrokenIsReplaced(pending, [b] + rest);
    Associative([REPLACEMENT], Restart(b).0, Decode(Restart(b).1 + rest));
  }

  lemma ExtendedByOne(pending: seq<Byte>, b: Byte, rest: seq<Byte>)
    ensures pending + ([b] + rest) == pending + [b] + rest && [] + rest == rest
    ensures pending == [] ==> pending + ([b] + rest) == [b] + rest
  { }

  /** One byte of the incremental decoder, against decoding everything at once. */
  lemma PushIsDecode(pending: seq<Byte>, b: Byte, rest: seq<Byte>)
    requires IsPrefix(pending) && !IsComplete(pending)
    ensures Decode(pending + ([b] + rest)) == Push(pending, b).0 + Decode(Push(pending, b).1 + rest)
  {
    ExtendedByOne(pending, b, rest);
    if pending == [] {
      RestartIsDecode(b, rest);
    } else if IsComplete(pending + [b]) {
      DecodeComplete(pending + [b], rest);
    } else if IsPrefix(pending + [b]) {
      assert "" + Decode(pending + [b] + rest) == Decode(pending + [b] + rest);
    } else {
      BrokenThenRestart(pending, b, rest);
    }
  }

  /** The incremental decoder adds up to decoding everything at once, wherever the stream is cut. */
  lemma {:induction false} RunIsDecode(pending: seq<Byte>, s: seq<Byte>)
    requires IsPrefix(pending) && !IsComplete(pending)
    ensures Decode(pending + s) == Run(pending, s).0 + Final(Run(pending, s).1)
    decreases |s|
  {
    if s == [] {
      assert pending + s == pending;
      UnfinishedIsReplaced(pending);
    } else {
      var b, rest := s[0], s[1..];
      PushKeepsPending(pending, b);
      var text, next := Push(pending, b).0, Push(pending, b).1;
      assert Decode(pending + s) == text + Decode(next + rest) by {
        assert s == [b] + rest;
        PushIsDecode(pending, b, rest);
      }
      RunIsDecode(next, rest);
      Associative(text, Run(next, rest).0, Final(Run(next, rest).1));
    }
  }

  lemma {:induction false} RunConcat(pending: seq<Byte>, a: seq<Byte>, b: seq<Byte>)
    requires IsPrefix(pending) && !IsComplete(pending)
    ensures var first := Run(pending, a);
            Run(pending, a + b) == (first.0 + Run(first.1, b).0, Run(first.1, b).1)
    decreases |a|
  {
    if a == [] {
      assert a + b == b && "" + Run(pending, b).0 == Run(pending, b).0;
    } else {
      PushKeepsPending(pending, a[0]);
      var text, next := Push(pending, a[0]).0, Push(pending, a[0]).1;
      assert Run(pending, a + b) == (text + Run(next, a[1..] + b).0, Run(next, a[1..] + b).1) by {
        assert (a + b)[1..] == a[1..] + b;
      }
      RunConcat(next, a[1..], b);
      var first := Run(next, a[1..]);
      Associative(text, first.0, Run(first.1, b).0);
    }
  }

  // ----- only encodings are well-formed -----

  lemma OneByteBack(s: seq<Byte>)
    requires IsComplete(s) && |s| == 1
    ensures EncodeChar(CharOf(s)) == s
  { }

  lemma TwoBytesBack(s: seq<Byte>)
    requires IsComplete(s) && |s| == 2
    ensures EncodeChar(CharOf(s)) == s
  {
    assert Fits(s[0], 1, s[1]);
    var high, low := s[0] as int - 0xC0, s[1] as int - 0x80;
    Sextet(high, low);
    assert CodePoint(s) == high * 64 + low;
  }

  lemma Sextet(high: nat, low: nat)
    requires low < 64
    ensures (high * 64 + low) / 64 == high && (high * 64 + low) % 64 == low
  { }

  lemma ThreeBytesBack(s: seq<Byte>)
    requires IsComplete(s) && |s| == 3
    ensures EncodeChar(CharOf(s)) == s
  {
    assert Fits(s[0], 1, s[1]) && Fits(s[0], 2, s[2]);
    var a, b, c := s[0] as int - 0xE0, s[1] as int - 0x80, s[2] as int - 0x80;
    var n := CodePoint(s);
    assert n == (a * 64 + b) * 64 + c;
    Sextet(a * 64 + b, c);
    Sextet(a, b);
    assert n / 4096 == n / 64 / 64;
  }

  lemma FourBytesBack(s: seq<Byte>)
    requires IsComplete(s) && |s| == 4
    ensures EncodeChar(CharOf(s)) == s
  {
    assert Fits(s[0], 1, s[1]) && Fits(s[0], 2, s[2]) && Fits(s[0], 3, s[3]);
    var a, b, c, d := s[0] as int - 0xF0, s[1] as int - 0x80, s[2] as int - 0x80, s[3] as int - 0x80;
    var n := CodePoint(s);
    assert n == ((a * 64 + b) * 64 + c) * 64 + d;
    Sextet((a * 64 + b) * 64 + c, d);
    Sextet(a * 64 + b, c);
    Sextet(a, b);
    assert n / 4096 == n / 64 / 64 && n / 262144 == n / 64 / 64 / 64;
  }

  lemma CompleteIsEncoded(s: seq<Byte>)
    requires IsComplete(s)
    ensures EncodeChar(CharOf(s)) == s
  {
    if |s| == 1 {
      OneByteBack(s);
    } else if |s| == 2 {
      TwoBytesBack(s);
    } else if |s| == 3 {
      ThreeBytesBack(s);
    } else {
      FourBytesBack(s);
    }
  }

  /** What decodes strictly is the encoding of the result: no overlong form, no surrogate, nothing out of range. */
  lemma {:induction false} StrictIsEncoding(s: seq<Byte>)
    requires DecodeStrict(s).Some?
    ensures Encode(DecodeStrict(s).value) == s
    decreases |s|
  {
    if s != [] {
      var n := PrefixLength(s, 0);
      var text := DecodeStrict(s).value;
      assert s == s[..n] + s[n..];
      CompleteIsEncoded(s[..n]);
      StrictIsEncoding(s[n..]);
      assert text[1..] == DecodeStrict(s[n..]).value;
    }
  }

  /** A byte that begins no sequence is replaced by U+FFFD. */
  lemma BadByteIsReplaced(b: Byte, rest: seq<Byte>)
    requires 0x80 <= b < 0xC2 || 0xF5 <= b
    ensures Decode([b] + rest) == ['\U{FFFD}'] + Decode(rest)
  {
    var s := [b] + rest;
    assert s[..1] == [b] && s[..0] == [] && s[1..] == rest;
    PrefixLengthIs(s, 0, 0);
  }
}
