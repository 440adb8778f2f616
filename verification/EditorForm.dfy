/** The config editor's forms: how a table is shown, submitted and read back. */
module EditorForm {
  import opened Wrappers
  import opened Text
  import opened TextLines
  import opened Decimal

  datatype Kind = TextKind | SelectKind | BoolKind | NumberKind | ListKind | ChecklistKind

  datatype Field = Field(key: string, kind: Kind, inheritable: bool, choices: seq<string>)

  datatype Value = Flag(flag: bool) | Number(number: int) | Words(text: string) | Items(items: seq<string>)

  type Table = map<string, Value>
  type Form = map<string, string>

  // ----- integers as text -----

  function ShowInt(n: int): string {
    if n < 0 then "-" + ShowNat(-n) else ShowNat(n)
  }

  /** Decimal digits, single underscores between them allowed. */
  function ParseDigits(s: string): Option<nat> {
    if s == "" || !('0' <= s[|s| - 1] <= '9') then None
    else
      var last := s[|s| - 1] as int - '0' as int;
      var before := s[..|s| - 1];
      if before == "" then Some(last)
      else
        var rest := ParseDigits(if before[|before| - 1] == '_' then before[..|before| - 1] else before);
        if rest.Some? then Some(10 * rest.value + last) else None
  }

  predicate IsDigit(c: char) { '0' <= c <= '9' }

  function WithLast(rest: Option<nat>, d: char): Option<nat>
    requires IsDigit(d)
  {
    if rest.Some? then Some(10 * rest.value + (d as int - '0' as int)) else None
  }

  function BeforeLast(t: string): string
    requires |t| > 1
  {
    var before := t[..|t| - 1];
    if before[|before| - 1] == '_' then before[..|before| - 1] else before
  }

  lemma LastDigit(t: string)
    requires |t| > 1 && IsDigit(t[|t| - 1])
    ensures ParseDigits(t) == WithLast(ParseDigits(BeforeLast(t)), t[|t| - 1])
  { }

  lemma BeforeUnderscore(s: string, d: char)
    requires s != "" && s[|s| - 1] != '_'
    ensures BeforeLast(s + "_" + [d]) == s == BeforeLast(s + [d])
  {
    assert (s + "_" + [d])[..|s| + 1] == s + "_" && (s + "_")[..|s|] == s && (s + [d])[..|s|] == s;
  }

  /** An underscore between two digits does not matter. */
  lemma UnderscoreBetweenDigits(s: string, d: char)
    requires s != "" && IsDigit(s[|s| - 1]) && IsDigit(d)
    ensures ParseDigits(s + "_" + [d]) == ParseDigits(s + [d])
  {
    LastDigit(s + "_" + [d]);
    LastDigit(s + [d]);
    BeforeUnderscore(s, d);
  }

  /** Anywhere else it does: no number begins or ends with one, or has two in a row. */
  lemma {:induction false} UnderscoresStandAlone(s: string, i: nat)
    requires i < |s| && s[i] == '_' && ParseDigits(s).Some?
    ensures 0 < i < |s| - 1 && IsDigit(s[i - 1]) && IsDigit(s[i + 1])
    decreases |s|
  {
    var before := s[..|s| - 1];
    var rest := if before[|before| - 1] == '_' then before[..|before| - 1] else before;
    assert ParseDigits(rest).Some?;
    if i < |rest| {
      UnderscoresStandAlone(rest, i);
    } else {
      EndsWithDigit(rest);
      EndsWithDigit(s);
    }
  }

  lemma EndsWithDigit(s: string)
    requires ParseDigits(s).Some?
    ensures s != "" && IsDigit(s[|s| - 1])
  { }

  function ParseInt(s: string): Option<int> {
    if s != "" && s[0] == '-' then
      var digits := ParseDigits(s[1..]);
      if digits.Some? then
        var n: int := digits.value;
        Some(-n)
      else None
    else ParseDigits(if s != "" && s[0] == '+' then s[1..] else s)
  }

  lemma {:induction false} ParseShowNat(n: nat)
    ensures ShowNat(n) != "" && '0' <= ShowNat(n)[0] <= '9' && '0' <= ShowNat(n)[|ShowNat(n)| - 1] <= '9'
    ensures ParseDigits(ShowNat(n)) == Some(n)
  {
    if n >= 10 {
      ParseShowNat(n / 10);
      var s := ShowNat(n);
      assert s[..|s| - 1] == ShowNat(n / 10);
    }
  }

  lemma MinusSign(digits: string)
    requires ParseDigits(digits).Some?
    ensures ParseInt("-" + digits) == Some(-(ParseDigits(digits).value as int))
  {
    assert ("-" + digits)[1..] == digits && ("-" + digits)[0] == '-';
  }

  lemma DigitIsNotBlank(c: char)
    requires IsDigit(c) || c == '-'
    ensures !IsBlank(c)
  { }

  lemma Negative(n: int)
    requires n < 0
    ensures var s := "-" + ShowNat(-n); ParseInt(s) == Some(n) && !IsBlank(s[0]) && !IsBlank(s[|s| - 1])
  {
    var digits := ShowNat(-n);
    ParseShowNat(-n);
    MinusSign(digits);
    var s := "-" + digits;
    assert s[0] == '-' && s[|s| - 1] == digits[|digits| - 1];
    DigitIsNotBlank(s[0]);
    DigitIsNotBlank(s[|s| - 1]);
  }

  lemma ParseShowInt(n: int)
    ensures ParseInt(ShowInt(n)) == Some(n) && ShowInt(n) != ""
    ensures !IsBlank(ShowInt(n)[0]) && !IsBlank(ShowInt(n)[|ShowInt(n)| - 1])
  {
    if n < 0 {
      Negative(n);
    } else {
      ParseShowNat(n);
    }
  }

  // ----- reading a form -----

  function Strip(s: string): string {
    Trim(s, IsBlank)
  }

  /** Blanks on either side of what was typed do not matter. */
  lemma {:induction false} BlanksAroundDoNotMatter(s: string, c: char)
    requires IsBlank(c)
    ensures Strip([c] + s) == Strip(s) == Strip(s + [c])
    decreases |s|
  {
    assert ([c] + s)[1..] == s;
    if s == "" {
      assert s + [c] == [c] + s;
    } else if IsBlank(s[0]) {
      assert (s + [c])[1..] == s[1..] + [c];
      BlanksAroundDoNotMatter(s[1..], c);
    } else {
      assert (s + [c])[..|s|] == s;
    }
  }

  function Lower(s: string): string {
    if s == "" then "" else [if 'A' <= s[0] <= 'Z' then (s[0] as int + 32) as char else s[0]] + Lower(s[1..])
  }

  predicate IsOn(value: string) {
    Lower(value) in {"1", "true", "yes", "on"}
  }

  lemma {:induction false} LowerIsTotal(s: string)
    ensures |Lower(s)| == |s| && forall i :: 0 <= i < |s| ==> Lower(s)[i] == if 'A' <= s[i] <= 'Z' then (s[i] as int + 32) as char else s[i]
  {
    if s != "" {
      LowerIsTotal(s[1..]);
    }
  }

  /** What switches a box on, in any case of its letters: 1, true, yes, on. */
  lemma SwitchesOn(value: string)
    ensures IsOn(value) <==>
              || value == "1"
              || (|value| == 2 && value[0] in "oO" && value[1] in "nN")
              || (|value| == 3 && value[0] in "yY" && value[1] in "eE" && value[2] in "sS")
              || (|value| == 4 && value[0] in "tT" && value[1] in "rR" && value[2] in "uU" && value[3] in "eE")
  {
    LowerIsTotal(value);
    var low := Lower(value);
    assert low == "1" <==> |low| == 1 && low[0] == '1';
    assert low == "on" <==> |low| == 2 && low[0] == 'o' && low[1] == 'n';
    assert low == "yes" <==> |low| == 3 && low[0] == 'y' && low[1] == 'e' && low[2] == 's';
    assert low == "true" <==> |low| == 4 && low[0] == 't' && low[1] == 'r' && low[2] == 'u' && low[3] == 'e';
    assert value == "1" <==> |value| == 1 && value[0] == '1';
  }

  function Lookup(form: Form, name: string): string {
    if name in form then form[name] else ""
  }

  function CheckedChoices(choices: seq<string>, form: Form, name: string): seq<string> {
    if choices == [] then []
    else (if IsOn(Lookup(form, name + "__" + choices[0])) then [choices[0]] else []) + CheckedChoices(choices[1..], form, name)
  }

  function NonBlank(lines: seq<string>): seq<string> {
    if lines == [] then []
    else (if Strip(lines[0]) == "" then [] else [Strip(lines[0])]) + NonBlank(lines[1..])
  }

  /** What a form says about a field: nothing, remove it, set it, or an invalid number. */
  datatype Parsed = Silent | Remove | Set(value: Value) | Invalid(raw: string)

  function Parse(f: Field, form: Form, name: string): Parsed {
    if name !in form then Silent
    else
      var raw := Strip(form[name]);
      match f.kind
      case BoolKind => if raw == "true" || raw == "false" then Set(Flag(raw == "true")) else Remove
      case ChecklistKind =>
        var checked := CheckedChoices(f.choices, form, name);
        if checked != [] then Set(Items(checked)) else Remove
      case ListKind =>
        var lines := NonBlank(SplitLines(raw));
        if f.inheritable then
          if lines != [] then Set(Items(lines)) else if IsOn(Lookup(form, name + "__empty")) then Set(Items([])) else Remove
        else if raw == "" then Remove
        else Set(Items(lines))
      case NumberKind =>
        if raw == "" then Remove
        else
          var number := ParseInt(raw);
          if number.Some? then Set(Number(number.value)) else Invalid(raw)
      case TextKind => if raw == "" then Remove else Set(Words(raw))
      case SelectKind => if raw == "" then Remove else Set(Words(raw))
  }

  /** The table after the fields, up to the first invalid number. */
  datatype Applied = Applied(table: Table, ok: bool)

  function ApplyParsed(table: Table, key: string, parsed: Parsed): Table {
    match parsed
    case Silent => table
    case Remove => table - {key}
    case Set(value) => table[key := value]
    case Invalid(_) => table
  }

  function ApplyFields(table: Table, fields: seq<Field>, form: Form, prefix: string): Applied
    decreases |fields|
  {
    if fields == [] then Applied(table, true)
    else
      var parsed := Parse(fields[0], form, prefix + fields[0].key);
      if parsed.Invalid? then Applied(table, false)
      else ApplyFields(ApplyParsed(table, fields[0].key, parsed), fields[1..], form, prefix)
  }

  /** The table shown again after a failed save: like an empty table with the form applied, but bad numbers stay as text. */
  function PseudoTable(fields: seq<Field>, form: Form, prefix: string): Table {
    if fields == [] then map[]
    else
      var f := fields[|fields| - 1];
      var before := PseudoTable(fields[..|fields| - 1], form, prefix);
      match Parse(f, form, prefix + f.key)
      case Set(value) => before[f.key := value]
      case Invalid(raw) => before[f.key := Words(raw)]
      case _ => before
  }

  predicate DistinctKeys(fields: seq<Field>) {
    forall i, j :: 0 <= i < j < |fields| ==> fields[i].key != fields[j].key
  }

  predicate IsAccepted(fields: seq<Field>, form: Form, prefix: string) {
    forall i :: 0 <= i < |fields| ==> !Parse(fields[i], form, prefix + fields[i].key).Invalid?
  }

  /** A form is accepted exactly if no field of it is an invalid number. */
  lemma {:induction false} AppliedOkIff(table: Table, fields: seq<Field>, form: Form, prefix: string)
    ensures ApplyFields(table, fields, form, prefix).ok <==> IsAccepted(fields, form, prefix)
    decreases |fields|
  {
    if fields != [] {
      var parsed := Parse(fields[0], form, prefix + fields[0].key);
      if !parsed.Invalid? {
        AppliedOkIff(ApplyParsed(table, fields[0].key, parsed), fields[1..], form, prefix);
        assert forall i :: 0 < i < |fields| ==> fields[i] == fields[1..][i - 1];
      }
    }
  }

  /** The last field of an accepted form is applied last. */
  lemma {:induction false} ApplySnoc(table: Table, fields: seq<Field>, f: Field, form: Form, prefix: string)
    requires IsAccepted(fields + [f], form, prefix)
    ensures var before := ApplyFields(table, fields, form, prefix);
            before.ok && ApplyFields(table, fields + [f], form, prefix) == Applied(ApplyParsed(before.table, f.key, Parse(f, form, prefix + f.key)), true)
    decreases |fields|
  {
    var all := fields + [f];
    assert all[|fields|] == f;
    if fields == [] {
      assert all[1..] == [];
    } else {
      assert all[1..] == fields[1..] + [f] && all[0] == fields[0];
      assert IsAccepted(fields[1..] + [f], form, prefix) by {
        assert forall i :: 0 <= i < |all[1..]| ==> all[1..][i] == all[i + 1];
      }
      ApplySnoc(ApplyParsed(table, fields[0].key, Parse(fields[0], form, prefix + fields[0].key)), fields[1..], f, form, prefix);
    }
  }

  lemma {:induction false} PseudoKeys(fields: seq<Field>, form: Form, prefix: string, key: string)
    requires forall i :: 0 <= i < |fields| ==> fields[i].key != key
    ensures key !in PseudoTable(fields, form, prefix)
  {
    if fields != [] {
      PseudoKeys(fields[..|fields| - 1], form, prefix, key);
    }
  }

  /** For any form that is accepted, the pseudo table is the form applied to an empty table. */
  lemma {:induction false} PseudoTableIsApplied(fields: seq<Field>, form: Form, prefix: string)
    requires DistinctKeys(fields) && ApplyFields(map[], fields, form, prefix).ok
    ensures PseudoTable(fields, form, prefix) == ApplyFields(map[], fields, form, prefix).table
  {
    AppliedOkIff(map[], fields, form, prefix);
    if fields != [] {
      var before, f := fields[..|fields| - 1], fields[|fields| - 1];
      assert fields == before + [f];
      ApplySnoc(map[], before, f, form, prefix);
      PseudoTableIsApplied(before, form, prefix);
      PseudoKeys(before, form, prefix, f.key);
    }
  }

  /** A number that cannot be read is shown again as it was typed. */
  lemma {:induction false} BadNumberIsShownAgain(fields: seq<Field>, form: Form, prefix: string, i: nat)
    requires DistinctKeys(fields) && i < |fields| && Parse(fields[i], form, prefix + fields[i].key).Invalid?
    ensures prefix + fields[i].key in form && fields[i].key in PseudoTable(fields, form, prefix)
    ensures PseudoTable(fields, form, prefix)[fields[i].key] == Words(Strip(form[prefix + fields[i].key]))
  {
    if i < |fields| - 1 {
      BadNumberIsShownAgain(fields[..|fields| - 1], form, prefix, i);
    }
  }

  // ----- the loops of the editor -----

  /** The table of a section, changed in place. */
  class TomlTable {
    var entries: Table

    constructor (entries: Table)
      ensures this.entries == entries
    {
      this.entries := entries;
    }

    /** An invalid number stops it; what was applied before stays. */
    method Apply(fields: seq<Field>, form: Form, prefix: string) returns (ok: bool)
      modifies this
      ensures Applied(entries, ok) == ApplyFields(old(entries), fields, form, prefix)
    {
      var i := 0;
      while i < |fields|
        invariant 0 <= i <= |fields|
        invariant ApplyFields(entries, fields[i..], form, prefix) == ApplyFields(old(entries), fields, form, prefix)
      {
        assert fields[i..][1..] == fields[i + 1..];
        match Parse(fields[i], form, prefix + fields[i].key) {
          case Silent =>
          case Remove => entries := entries - {fields[i].key};
          case Set(value) => entries := entries[fields[i].key := value];
          case Invalid(_) => return false;
        }
        i := i + 1;
      }
      ok := true;
    }
  }

  method PseudoTableFromForm(fields: seq<Field>, form: Form, prefix: string) returns (table: Table)
    ensures table == PseudoTable(fields, form, prefix)
    ensures DistinctKeys(fields) && ApplyFields(map[], fields, form, prefix).ok ==> table == ApplyFields(map[], fields, form, prefix).table
  {
    table := map[];
    for i := 0 to |fields|
      invariant table == PseudoTable(fields[..i], form, prefix)
    {
      assert fields[..i + 1][..i] == fields[..i];
      match Parse(fields[i], form, prefix + fields[i].key) {
        case Set(value) => table := table[fields[i].key := value];
        case Invalid(raw) => table := table[fields[i].key := Words(raw)];
        case _ =>
      }
    }
    assert fields[..|fields|] == fields;
    if DistinctKeys(fields) && ApplyFields(map[], fields, form, prefix).ok {
      PseudoTableIsApplied(fields, form, prefix);
    }
  }
}
