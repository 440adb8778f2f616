/** Bounded push messages: cuts never split an escaped character, and every message fits the provider's limit. */
module PushMessages {
  import opened Wrappers
  import opened Text
  import opened TextLines
  import opened Decimal

  const HARD_LIMIT := 1024
  const TARGET_LIMIT := 140
  const MESSAGE_LIMIT := 160
  const ERROR_LIMIT := 140
  const LOG_LIMIT := 160

  // ----- escaping -----

  function EscapeChar(c: char): (r: string)
    ensures 1 <= |r| <= 6
  {
    if c == '&' then "&amp;"
    else if c == '<' then "&lt;"
    else if c == '>' then "&gt;"
    else if c == '"' then "&quot;"
    else if c == '\'' then "&#x27;"
    else [c]
  }

  function Escape(s: string): string {
    if s == "" then "" else Escape(s[..|s| - 1]) + EscapeChar(s[|s| - 1])
  }

  function WithoutTrailingBlanks(s: string): string {
    TrimEnd(s, IsBlank)
  }

  lemma BlankIsDropped(s: string, c: char)
    requires IsBlank(c)
    ensures WithoutTrailingBlanks(s + [c]) == WithoutTrailingBlanks(s)
  {
    assert (s + [c])[..|s|] == s;
  }

  lemma OtherStays(s: string)
    requires s != "" && !IsBlank(s[|s| - 1])
    ensures WithoutTrailingBlanks(s) == s
  { }

  /** Trailing blanks are dropped from the escaped text as from the text itself: no escape ends in a blank. */
  lemma {:induction false} TrimmedEscape(s: string)
    ensures WithoutTrailingBlanks(Escape(s)) == Escape(WithoutTrailingBlanks(s))
  {
    if s != "" {
      var c, before := s[|s| - 1], s[..|s| - 1];
      assert s == before + [c];
      if IsBlank(c) {
        TrimmedEscape(before);
        assert EscapeChar(c) == [c];
        BlankIsDropped(Escape(before), c);
        BlankIsDropped(before, c);
      } else {
        LastNotBlank(Escape(before), c);
        OtherStays(Escape(s));
        OtherStays(s);
      }
    }
  }

  lemma LastNotBlank(before: string, c: char)
    requires !IsBlank(c)
    ensures var e := before + EscapeChar(c); !IsBlank(e[|e| - 1])
  {
    var e := before + EscapeChar(c);
    assert e[|e| - 1] == EscapeChar(c)[|EscapeChar(c)| - 1];
  }

  lemma {:induction false} EscapeGrows(s: string, n: nat)
    requires n <= |s|
    ensures |Escape(s[..n])| <= |Escape(s)| && (n < |s| ==> |Escape(s[..n])| < |Escape(s)|)
  {
    if n < |s| {
      assert s[..|s| - 1][..n] == s[..n];
      EscapeGrows(s[..|s| - 1], n);
    } else {
      assert s[..n] == s;
    }
  }

  function Dots(n: nat): string {
    if n == 0 then "" else Dots(n - 1) + "."
  }

  lemma {:induction false} DotsLength(n: nat)
    ensures |Dots(n)| == n && forall i :: 0 <= i < n ==> Dots(n)[i] == '.'
  {
    if n > 0 {
      DotsLength(n - 1);
    }
  }

  /** The longest prefix whose escape fits. */
  ghost predicate LongestFit(value: string, n: nat, room: nat) {
    n < |value| && |Escape(value[..n])| <= room < |Escape(value[..n + 1])|
  }

  /**
   What an escaped, truncated value is: the whole escape if it fits; dots if there is no room; otherwise the escape of
   the longest prefix that fits, without its trailing blanks, and three dots.
   */
  ghost predicate IsEscapeTruncated(value: string, limit: int, r: string) {
    if limit <= 0 then r == ""
    else if |Escape(value)| <= limit then r == Escape(value)
    else if limit <= 3 then r == Dots(limit)
    else exists n: nat :: LongestFit(value, n, limit - 3) && r == Escape(WithoutTrailingBlanks(value[..n])) + "..."
  }

  lemma KeptFits(s: string)
    ensures |Escape(WithoutTrailingBlanks(s))| <= |Escape(s)|
  {
    var kept := WithoutTrailingBlanks(s);
    assert s[..|kept|] == kept;
    EscapeGrows(s, |kept|);
  }

  lemma EscapeTruncatedFits(value: string, limit: int, r: string)
    requires IsEscapeTruncated(value, limit, r)
    ensures |r| <= if limit <= 0 then 0 else limit
  {
    if 0 < limit <= 3 {
      DotsLength(limit);
    } else if limit > 3 && |Escape(value)| > limit {
      var n: nat :| LongestFit(value, n, limit - 3) && r == Escape(WithoutTrailingBlanks(value[..n])) + "...";
      KeptFits(value[..n]);
    }
  }

  method EscapeTruncated(value: string, limit: int) returns (r: string)
    ensures IsEscapeTruncated(value, limit, r)
    ensures |r| <= if limit <= 0 then 0 else limit
  {
    if limit <= 0 {
      return "";
    }
    var escaped := Escape(value);
    if |escaped| <= limit {
      return escaped;
    }
    if limit <= 3 {
      DotsLength(limit);
      return Dots(limit);
    }
    var parts, i := "", 0;
    assert value[..0] == "";
    while i < |value| && |parts| + |EscapeChar(value[i])| <= limit - 3
      invariant 0 <= i <= |value| && parts == Escape(value[..i]) && |parts| <= limit - 3
    {
      assert value[..i + 1][..i] == value[..i];
      parts, i := parts + EscapeChar(value[i]), i + 1;
    }
    assert value[..|value|] == value;
    assert LongestFit(value, i, limit - 3) by {
      assert value[..i + 1][..i] == value[..i];
    }
    TrimmedEscape(value[..i]);
    r := WithoutTrailingBlanks(parts) + "...";
    EscapeTruncatedFits(value, limit, r);
  }

  // ----- durations -----

  /** Seconds rounded to an integer; none if the duration is unknown. */
  function DurationLabel(seconds: Option<int>): string {
    if seconds.None? then "unknown"
    else
      var rounded := if seconds.value < 0 then 0 else seconds.value;
      var hours, minutes, secs := rounded / 3600, rounded % 3600 / 60, rounded % 60;
      if hours != 0 then ShowNat(hours) + "h " + ShowNat(minutes) + "m " + ShowNat(secs) + "s"
      else if minutes != 0 then ShowNat(minutes) + "m " + ShowNat(secs) + "s"
      else ShowNat(secs) + "s"
  }

  /** The longest duration a timedelta holds: 999999999 days and almost one more, rounded up. */
  const MAX_SECONDS := 1000000000 * 86400

  lemma DurationLabelFits(seconds: Option<int>)
    requires seconds.Some? ==> seconds.value <= MAX_SECONDS
    ensures |DurationLabel(seconds)| <= 20
  {
    if seconds.Some? {
      var rounded := if seconds.value < 0 then 0 else seconds.value;
      assert Power(2) == 100 && Power(11) == 100000000000 by {
        assert Power(1) == 10 && Power(3) == 1000 && Power(5) == 100000 && Power(7) == 10000000 && Power(9) == 1000000000;
      }
      assert rounded / 3600 < 100000000000 && rounded % 3600 / 60 < 100 && rounded % 60 < 100;
      ShowLength(rounded / 3600, 11);
      ShowLength(rounded % 3600 / 60, 2);
      ShowLength(rounded % 60, 2);
    }
  }

  // ----- messages -----

  datatype Status = Success | Failure | Skipped | LockError | ConfigError | UnexpectedError

  datatype PushEvent = PushEvent(
    status: Status, target: string, seconds: Option<int>, dryRun: bool, message: string, error: string, logPath: Option<string>)

  function StatusLabel(status: Status): (r: string)
    ensures |r| <= 16
  {
    match status
    case Success => "Success"
    case Failure => "Failed"
    case Skipped => "Skipped"
    case LockError => "Lock error"
    case ConfigError => "Config error"
    case UnexpectedError => "Unexpected error"
  }

  function SeverityColor(status: Status): (r: string)
    ensures |r| == 7
  {
    match status
    case Success => "#166534"
    case Skipped => "#8f6108"
    case _ => "#991b1b"
  }

  function Length(parts: seq<string>): nat {
    if parts == [] then 0 else Length(parts[..|parts| - 1]) + |parts[|parts| - 1]| + 1
  }

  lemma {:induction false} LengthConcat(a: seq<string>, b: seq<string>)
    ensures Length(a + b) == Length(a) + Length(b)
  {
    if b == [] {
      assert a + b == a;
    } else {
      assert (a + b)[..|a + b| - 1] == a + b[..|b| - 1];
      LengthConcat(a, b[..|b| - 1]);
    }
  }

  lemma LengthOne(part: string)
    ensures Length([part]) == |part| + 1
  {
    assert [part][..0] == [];
  }

  lemma {:induction false} JoinedLength(parts: seq<string>)
    requires parts != []
    ensures |Join(parts, '\n')| + 1 == Length(parts)
  {
    LengthOne(parts[0]);
    assert parts == [parts[0]] + parts[1..];
    LengthConcat([parts[0]], parts[1..]);
    if |parts| > 1 {
      JoinedLength(parts[1..]);
    }
  }

  lemma TwoParts(a: string, b: string)
    ensures Length([a, b]) == |a| + |b| + 2
  {
    assert [a, b] == [a] + [b];
    LengthConcat([a], [b]);
    LengthOne(a);
    LengthOne(b);
  }

  function FontOf(color: string, text: string): (r: string)
    requires |color| == 7
    ensures |r| == |text| + 29
  {
    "<font color=\"" + color + "\">" + text + "</font>"
  }

  /** The variable fields of a message, escaped and truncated. */
  datatype Fields = Fields(target: string, message: string, error: string, log: string)

  ghost predicate FieldsOf(event: PushEvent, f: Fields) {
    && IsEscapeTruncated(event.target, TARGET_LIMIT, f.target)
    && IsEscapeTruncated(event.message, MESSAGE_LIMIT, f.message)
    && IsEscapeTruncated(event.error, ERROR_LIMIT, f.error)
    && (event.logPath.Some? ==> IsEscapeTruncated(event.logPath.value, LOG_LIMIT, f.log))
  }

  function HeaderParts(event: PushEvent, f: Fields): seq<string> {
    [ "<b>Status:</b> " + FontOf(SeverityColor(event.status), Escape(StatusLabel(event.status))),
      "<b>Target:</b> " + f.target ]
    + ["<b>Duration:</b> " + Escape(DurationLabel(event.seconds))]
    + if event.dryRun then ["<b>Dry run:</b> " + FontOf("#1e40af", "yes")] else []
  }

  function DetailParts(event: PushEvent, f: Fields): seq<string> {
    (if event.message != "" then ["", f.message] else [])
    + (if event.error != "" then ["", "<b>Error:</b>"] + [FontOf("#991b1b", f.error)] else [])
    + (if event.logPath.Some? then ["", "<b>Log:</b> " + f.log] else [])
  }

  lemma HeaderFits(event: PushEvent, f: Fields)
    requires |f.target| <= TARGET_LIMIT && (event.seconds.Some? ==> event.seconds.value <= MAX_SECONDS)
    ensures HeaderParts(event, f) != [] && Length(HeaderParts(event, f)) <= 304
  {
    PlainLabels(event.status);
    DurationLabelFits(event.seconds);
    PlainDuration(event.seconds);
    var first := "<b>Status:</b> " + FontOf(SeverityColor(event.status), Escape(StatusLabel(event.status)));
    var second, third := "<b>Target:</b> " + f.target, "<b>Duration:</b> " + Escape(DurationLabel(event.seconds));
    var flag := "<b>Dry run:</b> " + FontOf("#1e40af", "yes");
    TwoParts(first, second);
    LengthOne(third);
    LengthConcat([first, second], [third]);
    LengthOne(flag);
    LengthConcat([first, second] + [third], if event.dryRun then [flag] else []);
  }

  lemma DetailsFit(event: PushEvent, f: Fields)
    requires |f.message| <= MESSAGE_LIMIT && |f.error| <= ERROR_LIMIT && (event.logPath.Some? ==> |f.log| <= LOG_LIMIT)
    ensures Length(DetailParts(event, f)) <= 521
  {
    var message := if event.message != "" then ["", f.message] else [];
    var error := if event.error != "" then ["", "<b>Error:</b>"] + [FontOf("#991b1b", f.error)] else [];
    var log := if event.logPath.Some? then ["", "<b>Log:</b> " + f.log] else [];
    TwoParts("", f.message);
    TwoParts("", "<b>Error:</b>");
    LengthOne(FontOf("#991b1b", f.error));
    LengthConcat(["", "<b>Error:</b>"], [FontOf("#991b1b", f.error)]);
    TwoParts("", "<b>Log:</b> " + f.log);
    LengthConcat(message, error);
    LengthConcat(message + error, log);
  }

  /** Every message stays within the limit, for every event and any duration a timedelta can hold. */
  method FormatPushHtmlMessage(event: PushEvent) returns (message: string, f: Fields)
    requires event.seconds.Some? ==> event.seconds.value <= MAX_SECONDS
    ensures FieldsOf(event, f) && message == Join(HeaderParts(event, f) + DetailParts(event, f), '\n')
    ensures |message| <= 824 <= HARD_LIMIT
  {
    var target := EscapeTruncated(event.target, TARGET_LIMIT);
    var text := EscapeTruncated(event.message, MESSAGE_LIMIT);
    var error := EscapeTruncated(event.error, ERROR_LIMIT);
    var log := "";
    if event.logPath.Some? {
      log := EscapeTruncated(event.logPath.value, LOG_LIMIT);
    }
    f := Fields(target, text, error, log);
    var parts := HeaderParts(event, f) + DetailParts(event, f);
    HeaderFits(event, f);
    DetailsFit(event, f);
    LengthConcat(HeaderParts(event, f), DetailParts(event, f));
    JoinedLength(parts);
    message := Join(parts, '\n');
  }

  predicate NeedsNoEscape(c: char) {
    EscapeChar(c) == [c]
  }

  predicate NothingToEscape(s: string) {
    forall i :: 0 <= i < |s| ==> NeedsNoEscape(s[i])
  }

  lemma {:induction false} PlainEscape(s: string)
    requires NothingToEscape(s)
    ensures Escape(s) == s
  {
    if s != "" {
      PlainEscape(s[..|s| - 1]);
    }
  }

  lemma PlainLabels(status: Status)
    ensures Escape(StatusLabel(status)) == StatusLabel(status)
  {
    PlainEscape(StatusLabel(status));
  }

  lemma PlainPart(before: string, n: nat, unit: string)
    requires NothingToEscape(before) && NothingToEscape(unit)
    ensures NothingToEscape(before + ShowNat(n) + unit)
  {
    OnlyDigits(n);
  }

  lemma PlainDuration(seconds: Option<int>)
    ensures Escape(DurationLabel(seconds)) == DurationLabel(seconds)
  {
    if seconds.Some? {
      var rounded := if seconds.value < 0 then 0 else seconds.value;
      var hours, minutes, secs := rounded / 3600, rounded % 3600 / 60, rounded % 60;
      var h, m := "" + ShowNat(hours) + "h ", "" + ShowNat(minutes) + "m ";
      PlainPart("", hours, "h ");
      PlainPart("", minutes, "m ");
      PlainPart("", secs, "s");
      PlainPart(m, secs, "s");
      PlainPart(h, minutes, "m ");
      PlainPart(h + ShowNat(minutes) + "m ", secs, "s");
      assert "" + ShowNat(hours) == ShowNat(hours) && "" + ShowNat(minutes) == ShowNat(minutes) && "" + ShowNat(secs) == ShowNat(secs);
    }
    PlainEscape(DurationLabel(seconds));
  }

  // ----- what a reader sees -----

  /** HTML's reading of the five entities. */
  function Unescape(s: string): string {
    if s == "" then ""
    else if "&amp;" <= s then "&" + Unescape(s[5..])
    else if "&lt;" <= s then "<" + Unescape(s[4..])
    else if "&gt;" <= s then ">" + Unescape(s[4..])
    else if "&quot;" <= s then "\"" + Unescape(s[6..])
    else if "&#x27;" <= s then "\'" + Unescape(s[6..])
    else [s[0]] + Unescape(s[1..])
  }

  lemma {:induction false} EscapeCons(c: char, s: string)
    ensures Escape([c] + s) == EscapeChar(c) + Escape(s)
  {
    if s == "" {
      assert [c] + s == [c] && [c][..0] == "";
    } else {
      var before, last := s[..|s| - 1], s[|s| - 1];
      assert Escape([c] + s) == Escape([c] + before) + EscapeChar(last) by {
        assert ([c] + s)[..|s|] == [c] + before && ([c] + s)[|s|] == last;
      }
      EscapeCons(c, before);
      Associative(EscapeChar(c), Escape(before), EscapeChar(last));
    }
  }

  lemma EntityAhead(e: string, s: string)
    requires e <= s && |e| > 3 && e in ["&amp;", "&lt;", "&gt;", "&quot;", "&#x27;"]
    ensures "&amp;" <= s <==> e == "&amp;"
    ensures "&lt;" <= s <==> e == "&lt;"
    ensures "&gt;" <= s <==> e == "&gt;"
    ensures "&quot;" <= s <==> e == "&quot;"
    ensures "&#x27;" <= s <==> e == "&#x27;"
  {
    assert s[1] == e[1];
  }

  lemma UnescapeOne(c: char, rest: string)
    ensures Unescape(EscapeChar(c) + rest) == [c] + Unescape(rest)
  {
    var e := EscapeChar(c);
    var s := e + rest;
    assert s[|e|..] == rest && s[..|e|] == e;
    if NeedsNoEscape(c) {
      assert s[0] == c && c != '&';
    } else {
      EntityAhead(e, s);
    }
  }

  /** Reading an escaped text gives the text back. */
  lemma {:induction false} UnescapeEscape(s: string, rest: string)
    ensures Unescape(Escape(s) + rest) == s + Unescape(rest)
  {
    if s == "" {
      assert Escape(s) + rest == rest && s + Unescape(rest) == Unescape(rest);
    } else {
      var c, more := s[0], s[1..];
      assert [c] + more == s;
      assert Escape(s) == EscapeChar(c) + Escape(more) by {
        EscapeCons(c, more);
      }
      Associative(EscapeChar(c), Escape(more), rest);
      UnescapeOne(c, Escape(more) + rest);
      UnescapeEscape(more, rest);
      Associative([c], more, Unescape(rest));
    }
  }

  lemma DotsRead()
    ensures Unescape("...") == "..." && Unescape("") == ""
  {
    assert "..."[1..] == ".." && ".."[1..] == "." && "."[1..] == "";
  }

  /** No markup of its own is in an escaped text. */
  lemma {:induction false} EscapedHasNoMarkup(s: string)
    ensures forall i :: 0 <= i < |Escape(s)| ==> Escape(s)[i] != '<' && Escape(s)[i] != '>' && Escape(s)[i] != '"' && Escape(s)[i] != '\''
  {
    if s != "" {
      EscapedHasNoMarkup(s[..|s| - 1]);
    }
  }

  /** Read as HTML, an escaped and truncated value is the value, or a beginning of it and three dots. */
  lemma TruncatedReads(value: string, limit: int, r: string)
    requires limit > 3 && IsEscapeTruncated(value, limit, r)
    ensures Unescape(r) == value || exists n: nat :: n < |value| && Unescape(r) == WithoutTrailingBlanks(value[..n]) + "..."
  {
    DotsRead();
    if |Escape(value)| <= limit {
      assert Escape(value) + "" == Escape(value) && value + "" == value;
      UnescapeEscape(value, "");
    } else {
      var n: nat :| LongestFit(value, n, limit - 3) && r == Escape(WithoutTrailingBlanks(value[..n])) + "...";
      UnescapeEscape(WithoutTrailingBlanks(value[..n]), "...");
    }
  }

  /** A duration label names the hours, minutes and seconds of the duration, leaving out what is zero in front. */
  lemma DurationLabelTells(seconds: nat) returns (h: nat, m: nat, s: nat)
    ensures seconds == 60 * (60 * h + m) + s && m < 60 && s < 60
    ensures DurationLabel(Some(seconds)) ==
            (if h > 0 then ShowNat(h) + "h " else "") + (if h > 0 || m > 0 then ShowNat(m) + "m " else "") + ShowNat(s) + "s"
  {
    h, m, s := seconds / 3600, seconds % 3600 / 60, seconds % 60;
    HoursMinutesSeconds(seconds);
    assert "" + ShowNat(m) == ShowNat(m) && "" + "" + ShowNat(s) == ShowNat(s);
  }

  lemma HoursMinutesSeconds(seconds: nat)
    ensures seconds == 60 * (60 * (seconds / 3600) + seconds % 3600 / 60) + seconds % 60
  {
    assert seconds % 3600 % 60 == seconds % 60;
  }

  lemma ColoredLine(title: string, color: string, text: string)
    requires |color| == 7
    ensures title + FontOf(color, text) == title + "<font color=\"" + color + "\">" + text + "</font>"
  { }

  /** The lines of every message: status, target and duration first, and a mark if it was a dry run. */
  lemma HeaderLines(event: PushEvent, f: Fields)
    ensures var lines := HeaderParts(event, f);
            && |lines| == (if event.dryRun then 4 else 3)
            && lines[0] == "<b>Status:</b> " + "<font color=\"" + SeverityColor(event.status) + "\">" + Escape(StatusLabel(event.status)) + "</font>"
            && lines[1] == "<b>Target:</b> " + f.target
            && lines[2] == "<b>Duration:</b> " + Escape(DurationLabel(event.seconds))
            && (event.dryRun ==> lines[3] == "<b>Dry run:</b> " + "<font color=\"" + "#1e40af" + "\">" + "yes" + "</font>")
  {
    ColoredLine("<b>Status:</b> ", SeverityColor(event.status), Escape(StatusLabel(event.status)));
    ColoredLine("<b>Dry run:</b> ", "#1e40af", "yes");
  }

  /** After them, as far as there are any, the message, the error under its heading, and the log path, each after an empty line. */
  lemma DetailLines(event: PushEvent, f: Fields)
    ensures var lines := DetailParts(event, f);
            var e := if event.message != "" then 2 else 0;
            var l := if event.error != "" then e + 3 else e;
            && |lines| == (if event.logPath.Some? then l + 2 else l)
            && (event.message != "" ==> lines[0] == "" && lines[1] == f.message)
            && (event.error != "" ==> lines[e] == "" && lines[e + 1] == "<b>Error:</b>" && lines[e + 2] == FontOf("#991b1b", f.error))
            && (event.logPath.Some? ==> lines[l] == "" && lines[l + 1] == "<b>Log:</b> " + f.log)
  { }

  /** Every status has a label of its own, and only what is neither a success nor skipped is shown in the color of errors. */
  lemma LabelsTell(a: Status, b: Status)
    ensures StatusLabel(a) == StatusLabel(b) ==> a == b
    ensures SeverityColor(a) == FontOfError() <==> a != Success && a != Skipped
  {
    assert |"Success"| == 7 && |"Failed"| == 6 && |"Skipped"| == 7 && |"Lock error"| == 10 && |"Config error"| == 12 && |"Unexpected error"| == 16;
    assert "Success"[1] == 'u' && "Skipped"[1] == 'k';
    assert "#166534"[1] == '1' && "#8f6108"[1] == '8' && "#991b1b"[1] == '9';
  }

  function FontOfError(): string { "#991b1b" }
}
