/** Showing a table and submitting the form unchanged restores it. */
module EditorRoundTrip {
  import opened Text
  import opened TextLines
  import opened EditorForm

  // ----- showing and submitting -----

  /** What the editor shows of a field. */
  datatype View = View(value: string, selected: seq<string>, emptyChecked: bool)

  function Display(value: Value): string {
    match value
    case Words(text) => text
    case Number(number) => ShowInt(number)
    case Flag(flag) => if flag then "true" else "false"
    case Items(items) => Join(items, '\n')
  }

  function Selected(f: Field, items: seq<string>): seq<string> {
    if items == [] then []
    else (if items[0] in f.choices then [items[0]] else []) + Selected(f, items[1..])
  }

  function FieldView(f: Field, table: Table): View {
    if f.key !in table then View("", [], false)
    else
      var value := table[f.key];
      View(Display(value), if f.kind == ChecklistKind && value.Items? then Selected(f, value.items) else [],
           f.kind == ListKind && f.inheritable && value == Items([]))
  }

  /** A browser submits the line breaks of a text area as carriage return and line feed. */
  function Crlf(s: string): string {
    if s == "" then "" else (if s[0] == '\n' then "\r\n" else [s[0]]) + Crlf(s[1..])
  }

  function ChoiceInputs(choices: seq<string>, selected: seq<string>, name: string): Form {
    if choices == [] then map[]
    else ChoiceInputs(choices[1..], selected, name) + if choices[0] in selected then map[name + "__" + choices[0] := "true"] else map[]
  }

  /** What a field submits. The page's script disables the text area of a list overridden with nothing. */
  function Inputs(f: Field, view: View, name: string, scripted: bool): Form {
    match f.kind
    case BoolKind => map[name := view.value]
    case SelectKind => map[name := if view.value in f.choices then view.value else ""]
    case ChecklistKind => ChoiceInputs(f.choices, view.selected, name) + map[name := ""]
    case ListKind =>
      (if view.emptyChecked then map[name + "__empty" := "true"] else map[])
      + (if view.emptyChecked && scripted then map[] else map[name := Crlf(view.value)])
    case TextKind => map[name := view.value]
    case NumberKind => map[name := view.value]
  }

  function Submission(fields: seq<Field>, table: Table, prefix: string, scripted: bool): Form {
    if fields == [] then map[]
    else
      var f := fields[|fields| - 1];
      Submission(fields[..|fields| - 1], table, prefix, scripted) + Inputs(f, FieldView(f, table), prefix + f.key, scripted)
  }

  // ----- names do not collide -----

  /** Keys as they are in the schema: no double underscore, none at the end. */
  predicate PlainKey(key: string) {
    (key != "" ==> key[|key| - 1] != '_') && forall i :: 0 <= i < |key| - 1 ==> !(key[i] == '_' && key[i + 1] == '_')
  }

  predicate Owns(prefix: string, key: string, name: string) {
    name == prefix + key || prefix + key + "__" <= name
  }

  lemma LongerIsNotPlain(short: string, long: string, rest: string)
    requires long <= rest && |short| < |long| && |rest| >= |short| + 2 && rest[|short|] == '_' && rest[|short| + 1] == '_'
    ensures !PlainKey(long)
  {
    if |long| == |short| + 1 {
      assert long[|long| - 1] == '_';
    } else {
      assert long[|short|] == '_' && long[|short| + 1] == '_';
    }
  }

  lemma OwnerIsUnique(prefix: string, a: string, b: string, name: string)
    requires PlainKey(a) && PlainKey(b) && Owns(prefix, a, name) && Owns(prefix, b, name)
    ensures a == b
  {
    OwnedText(prefix, a, name);
    OwnedText(prefix, b, name);
    var rest := name[|prefix|..];
    if |a| < |b| {
      LongerIsNotPlain(a, b, rest);
    } else if |b| < |a| {
      LongerIsNotPlain(b, a, rest);
    } else {
      assert a == rest[..|a|] == b;
    }
  }

  lemma OwnedText(prefix: string, key: string, name: string)
    requires Owns(prefix, key, name)
    ensures |prefix| <= |name| && key <= name[|prefix|..]
    ensures var rest := name[|prefix|..]; rest == key || (|rest| >= |key| + 2 && rest[|key|] == '_' && rest[|key| + 1] == '_')
  {
    var rest := name[|prefix|..];
    assert prefix + key <= name;
    assert (prefix + key)[|prefix|..] == key;
    if name != prefix + key {
      assert name[|prefix| + |key|] == (prefix + key + "__")[|prefix| + |key|] == '_';
      assert name[|prefix| + |key| + 1] == (prefix + key + "__")[|prefix| + |key| + 1] == '_';
    }
  }

  lemma {:induction false} ChoicesOwned(choices: seq<string>, selected: seq<string>, prefix: string, key: string, n: string)
    requires n in ChoiceInputs(choices, selected, prefix + key)
    ensures Owns(prefix, key, n)
  {
    if n in ChoiceInputs(choices[1..], selected, prefix + key) {
      ChoicesOwned(choices[1..], selected, prefix, key, n);
    } else {
      assert n == prefix + key + "__" + choices[0];
    }
  }

  lemma InputsOwned(f: Field, view: View, prefix: string, scripted: bool, n: string)
    requires n in Inputs(f, view, prefix + f.key, scripted)
    ensures Owns(prefix, f.key, n)
  {
    if f.kind == ChecklistKind && n != prefix + f.key {
      ChoicesOwned(f.choices, view.selected, prefix, f.key, n);
    }
  }

  ghost predicate WellNamed(fields: seq<Field>) {
    DistinctKeys(fields) && forall i :: 0 <= i < |fields| ==> PlainKey(fields[i].key)
  }

  /** Of the names a field owns, the whole form says what the field's own inputs say. */
  lemma {:induction false} FormOfField(fields: seq<Field>, table: Table, prefix: string, scripted: bool, i: nat, n: string)
    requires WellNamed(fields) && i < |fields| && Owns(prefix, fields[i].key, n)
    ensures var inputs := Inputs(fields[i], FieldView(fields[i], table), prefix + fields[i].key, scripted);
            var form := Submission(fields, table, prefix, scripted);
            (n in form <==> n in inputs) && (n in form ==> form[n] == inputs[n])
  {
    var before, f := fields[..|fields| - 1], fields[|fields| - 1];
    if i == |fields| - 1 {
      if n in Submission(before, table, prefix, scripted) {
        SubmissionOwned(before, table, prefix, scripted, f.key, n);
      }
    } else {
      FormOfField(before, table, prefix, scripted, i, n);
      if n in Inputs(f, FieldView(f, table), prefix + f.key, scripted) {
        InputsOwned(f, FieldView(f, table), prefix, scripted, n);
        OwnerIsUnique(prefix, f.key, fields[i].key, n);
      }
    }
  }

  lemma {:induction false} SubmissionOwned(fields: seq<Field>, table: Table, prefix: string, scripted: bool, key: string, n: string)
    requires n in Submission(fields, table, prefix, scripted) && Owns(prefix, key, n) && PlainKey(key)
    requires forall i :: 0 <= i < |fields| ==> PlainKey(fields[i].key) && fields[i].key != key
    ensures false
  {
    var before, f := fields[..|fields| - 1], fields[|fields| - 1];
    if n in Submission(before, table, prefix, scripted) {
      SubmissionOwned(before, table, prefix, scripted, key, n);
    } else {
      InputsOwned(f, FieldView(f, table), prefix, scripted, n);
      OwnerIsUnique(prefix, f.key, key, n);
    }
  }

  /** Reading a field depends only on the names it owns. */
  ghost predicate AgreeOn(a: Form, b: Form, prefix: string, key: string) {
    forall n :: Owns(prefix, key, n) ==> (n in a <==> n in b) && (n in a ==> a[n] == b[n])
  }

  lemma {:induction false} ChoicesAgree(choices: seq<string>, a: Form, b: Form, prefix: string, key: string)
    requires AgreeOn(a, b, prefix, key)
    ensures CheckedChoices(choices, a, prefix + key) == CheckedChoices(choices, b, prefix + key)
  {
    if choices != [] {
      assert Owns(prefix, key, prefix + key + "__" + choices[0]);
      ChoicesAgree(choices[1..], a, b, prefix, key);
    }
  }

  lemma ParseAgrees(f: Field, a: Form, b: Form, prefix: string)
    requires AgreeOn(a, b, prefix, f.key)
    ensures Parse(f, a, prefix + f.key) == Parse(f, b, prefix + f.key)
  {
    assert Owns(prefix, f.key, prefix + f.key) && Owns(prefix, f.key, prefix + f.key + "__empty");
    ChoicesAgree(f.choices, a, b, prefix, f.key);
  }

  // ----- normal values -----

  predicate IsTrimmed(s: string) {
    s != "" && !IsBlank(s[0]) && !IsBlank(s[|s| - 1])
  }

  predicate IsNormalLine(s: string) {
    IsTrimmed(s) && NoBreak(s)
  }

  predicate AllNormalLines(items: seq<string>) {
    forall i :: 0 <= i < |items| ==> IsNormalLine(items[i])
  }

  /** A choice of some choices, in their order and without repetition. */
  predicate IsChoice(items: seq<string>, choices: seq<string>) {
    items == Chosen(choices, items)
  }

  function Chosen(choices: seq<string>, items: seq<string>): seq<string> {
    if choices == [] then [] else (if choices[0] in items then [choices[0]] else []) + Chosen(choices[1..], items)
  }

  predicate IsNormal(f: Field, value: Value) {
    match f.kind
    case BoolKind => value.Flag?
    case NumberKind => value.Number?
    case TextKind => value.Words? && IsNormalLine(value.text)
    case SelectKind => value.Words? && IsNormalLine(value.text) && value.text in f.choices
    case ListKind => value.Items? && AllNormalLines(value.items) && (value.items != [] || f.inheritable)
    case ChecklistKind => value.Items? && value.items != [] && IsChoice(value.items, f.choices)
  }

  // ----- lists -----

  lemma {:induction false} CrlfConcat(a: string, b: string)
    ensures Crlf(a + b) == Crlf(a) + Crlf(b)
  {
    if a == "" {
      assert a + b == b;
    } else {
      var head := if a[0] == '\n' then "\r\n" else [a[0]];
      assert Crlf(a + b) == head + Crlf(a[1..] + b) by {
        assert (a + b)[1..] == a[1..] + b;
      }
      CrlfConcat(a[1..], b);
      assert head + (Crlf(a[1..]) + Crlf(b)) == head + Crlf(a[1..]) + Crlf(b);
    }
  }

  lemma {:induction false} CrlfPlain(s: string)
    requires NoBreak(s)
    ensures Crlf(s) == s
  {
    if s != "" {
      assert NoBreak(s[1..]);
      CrlfPlain(s[1..]);
    }
  }

  /** The submitted text of a list: its items with line breaks between them. */
  lemma CrlfOfItems(items: seq<string>)
    requires |items| > 1 && NoBreak(items[0])
    ensures Crlf(Join(items, '\n')) == items[0] + ("\r\n" + Crlf(Join(items[1..], '\n')))
  {
    var rest := Join(items[1..], '\n');
    assert Join(items, '\n') == items[0] + (['\n'] + rest);
    CrlfConcat(items[0], ['\n'] + rest);
    CrlfPlain(items[0]);
    assert (['\n'] + rest)[1..] == rest;
  }

  lemma SplitFirst(line: string, rest: string)
    requires NoBreak(line)
    ensures SplitLines(line + ("\r\n" + rest)) == [line] + SplitLines(rest)
  {
    var s := line + ("\r\n" + rest);
    var n := |line|;
    LineEndIs(s, n);
    assert s[n] == '\r' && s[n + 1] == '\n';
    assert s[..n] == line && s[n + 2..] == rest;
  }

  lemma {:induction false} LinesOfItems(items: seq<string>)
    requires items != [] && AllNormalLines(items)
    ensures SplitLines(Crlf(Join(items, '\n'))) == items
  {
    assert IsNormalLine(items[0]);
    if |items| == 1 {
      CrlfPlain(items[0]);
      LineEndIs(items[0], |items[0]|);
    } else {
      CrlfOfItems(items);
      SplitFirst(items[0], Crlf(Join(items[1..], '\n')));
      LinesOfItems(items[1..]);
    }
  }

  lemma {:induction false} ItemsTextIsTrimmed(items: seq<string>)
    requires items != [] && AllNormalLines(items)
    ensures IsTrimmed(Crlf(Join(items, '\n')))
  {
    assert IsNormalLine(items[0]);
    if |items| == 1 {
      CrlfPlain(items[0]);
    } else {
      CrlfOfItems(items);
      ItemsTextIsTrimmed(items[1..]);
      var text, tail := Crlf(Join(items, '\n')), Crlf(Join(items[1..], '\n'));
      assert text[|text| - 1] == tail[|tail| - 1] && text[0] == items[0][0];
    }
  }

  lemma {:induction false} NonBlankItems(items: seq<string>)
    requires AllNormalLines(items)
    ensures NonBlank(items) == items
  {
    if items != [] {
      assert IsNormalLine(items[0]);
      NonBlankItems(items[1..]);
      assert items == [items[0]] + items[1..];
    }
  }

  lemma EmptyText()
    ensures Strip("") == "" && SplitLines("") == [] && NonBlank([]) == [] && Crlf("") == "" && Join([], '\n') == ""
  { }

  // ----- checklists -----

  lemma {:induction false} ChoiceInput(choices: seq<string>, selected: seq<string>, name: string, choice: string)
    ensures var n := name + "__" + choice;
            var inputs := ChoiceInputs(choices, selected, name);
            (n in inputs <==> choice in choices && choice in selected) && (n in inputs ==> inputs[n] == "true")
  {
    if choices != [] {
      ChoiceInput(choices[1..], selected, name, choice);
      SameChoice(name, choice, choices[0]);
    }
  }

  lemma SameChoice(name: string, a: string, b: string)
    ensures name + "__" + a == name + "__" + b <==> a == b
  {
    var k := |name| + 2;
    assert (name + "__" + a)[k..] == a && (name + "__" + b)[k..] == b;
  }

  lemma {:induction false} CheckedAreChosen(rest: seq<string>, choices: seq<string>, selected: seq<string>, form: Form, name: string)
    requires forall i :: 0 <= i < |rest| ==> rest[i] in choices
    requires form == ChoiceInputs(choices, selected, name) + map[name := ""]
    ensures CheckedChoices(rest, form, name) == Chosen(rest, selected)
  {
    if rest != [] {
      CheckedAreChosen(rest[1..], choices, selected, form, name);
      ChoiceInput(choices, selected, name, rest[0]);
      assert rest[0] in choices;
      assert |name + "__" + rest[0]| != |name|;
      assert IsOn("true") && !IsOn("") by {
        TrueIsOn();
      }
    }
  }

  lemma TrueIsOn()
    ensures IsOn("true") && !IsOn("")
  {
    assert Lower("true") == "true" by {
      assert "true"[1..] == "rue" && "rue"[1..] == "ue" && "ue"[1..] == "e" && "e"[1..] == "";
    }
  }

  lemma {:induction false} SelectedAll(f: Field, items: seq<string>)
    requires forall i :: 0 <= i < |items| ==> items[i] in f.choices
    ensures Selected(f, items) == items
  {
    if items != [] {
      SelectedAll(f, items[1..]);
      assert items == [items[0]] + items[1..];
    }
  }

  lemma {:induction false} ChosenAreChoices(choices: seq<string>, items: seq<string>)
    ensures forall c :: c in Chosen(choices, items) ==> c in choices
  {
    if choices != [] {
      ChosenAreChoices(choices[1..], items);
    }
  }

  // ----- the round trip -----

  /** What reading a field back yields. */
  function Expected(f: Field, table: Table, scripted: bool): Parsed {
    if f.key !in table then Remove
    else if scripted && FieldView(f, table).emptyChecked then Silent
    else Set(table[f.key])
  }

  predicate NormalField(f: Field, table: Table) {
    f.key in table ==> IsNormal(f, table[f.key])
  }

  lemma ItemsReadBack(items: seq<string>)
    requires items != [] && AllNormalLines(items)
    ensures var raw := Strip(Crlf(Join(items, '\n'))); raw != "" && NonBlank(SplitLines(raw)) == items
  {
    ItemsTextIsTrimmed(items);
    LinesOfItems(items);
    NonBlankItems(items);
  }

  lemma ListReadsBack(f: Field, table: Table, name: string, scripted: bool)
    requires f.kind == ListKind && NormalField(f, table)
    ensures Parse(f, Inputs(f, FieldView(f, table), name, scripted), name) == Expected(f, table, scripted)
  {
    EmptyText();
    TrueIsOn();
    assert |name + "__empty"| != |name|;
    if f.key in table && table[f.key] != Items([]) {
      ItemsReadBack(table[f.key].items);
    }
  }

  lemma ChecklistReadsBack(f: Field, table: Table, name: string, scripted: bool)
    requires f.kind == ChecklistKind && NormalField(f, table)
    ensures Parse(f, Inputs(f, FieldView(f, table), name, scripted), name) == Expected(f, table, scripted)
  {
    var view := FieldView(f, table);
    CheckedAreChosen(f.choices, f.choices, view.selected, Inputs(f, view, name, scripted), name);
    if f.key in table {
      var items := table[f.key].items;
      ChosenAreChoices(f.choices, items);
      assert forall i :: 0 <= i < |items| ==> items[i] in Chosen(f.choices, items);
      SelectedAll(f, items);
    } else {
      NoneChosen(f.choices);
    }
  }

  lemma {:induction false} NoneChosen(choices: seq<string>)
    ensures Chosen(choices, []) == []
  {
    if choices != [] {
      NoneChosen(choices[1..]);
    }
  }

  lemma PlainReadsBack(f: Field, table: Table, name: string, scripted: bool)
    requires f.kind != ListKind && f.kind != ChecklistKind && NormalField(f, table)
    ensures Parse(f, Inputs(f, FieldView(f, table), name, scripted), name) == Expected(f, table, scripted)
  {
    EmptyText();
    if f.key in table {
      var value := table[f.key];
      if value.Number? {
        ParseShowInt(value.number);
      }
      assert IsTrimmed(Display(value));
    }
  }

  lemma FieldReadsBack(f: Field, table: Table, name: string, scripted: bool)
    requires NormalField(f, table)
    ensures Parse(f, Inputs(f, FieldView(f, table), name, scripted), name) == Expected(f, table, scripted)
  {
    if f.kind == ListKind {
      ListReadsBack(f, table, name, scripted);
    } else if f.kind == ChecklistKind {
      ChecklistReadsBack(f, table, name, scripted);
    } else {
      PlainReadsBack(f, table, name, scripted);
    }
  }

  /** Field by field, the whole form reads back as the table it shows. */
  lemma FormReadsBack(fields: seq<Field>, table: Table, prefix: string, scripted: bool, i: nat)
    requires WellNamed(fields) && i < |fields| && NormalField(fields[i], table)
    ensures Parse(fields[i], Submission(fields, table, prefix, scripted), prefix + fields[i].key) == Expected(fields[i], table, scripted)
  {
    var f := fields[i];
    var inputs, form := Inputs(f, FieldView(f, table), prefix + f.key, scripted), Submission(fields, table, prefix, scripted);
    forall n | Owns(prefix, f.key, n)
      ensures (n in form <==> n in inputs) && (n in form ==> form[n] == inputs[n])
    {
      FormOfField(fields, table, prefix, scripted, i, n);
    }
    ParseAgrees(f, form, inputs, prefix);
    FieldReadsBack(f, table, prefix + f.key, scripted);
  }

  predicate SameAt(a: Table, b: Table, key: string) {
    (key in a <==> key in b) && (key in a ==> a[key] == b[key])
  }

  /** Applying fields one by one: each has the value it was read with, every other key stays. */
  lemma {:induction false} AppliedAt(t: Table, fields: seq<Field>, form: Form, prefix: string, key: string, i: nat)
    requires DistinctKeys(fields) && IsAccepted(fields, form, prefix) && i <= |fields| && (i < |fields| ==> fields[i].key == key)
    requires forall j :: 0 <= j < |fields| && j != i ==> fields[j].key != key
    ensures var applied := ApplyFields(t, fields, form, prefix);
            applied.ok && SameAt(applied.table, if i < |fields| then ApplyParsed(t, key, Parse(fields[i], form, prefix + key)) else t, key)
  {
    if fields != [] {
      var before, f := fields[..|fields| - 1], fields[|fields| - 1];
      assert fields == before + [f];
      ApplySnoc(t, before, f, form, prefix);
      if i < |before| {
        AppliedAt(t, before, form, prefix, key, i);
      } else {
        AppliedAt(t, before, form, prefix, key, |before|);
      }
    }
  }

  ghost predicate AllNormal(fields: seq<Field>, table: Table) {
    forall i :: 0 <= i < |fields| ==> NormalField(fields[i], table)
  }

  /**
   Submitting what the editor shows of a normal table restores the value of every field and leaves every other key alone,
   whatever table it is applied to; with the page's script, lists overridden with nothing must already be there.
   */
  lemma RoundTrip(fields: seq<Field>, table: Table, t: Table, prefix: string, scripted: bool, key: string)
    requires WellNamed(fields) && AllNormal(fields, table)
    requires scripted ==> forall i :: 0 <= i < |fields| ==> SameAt(t, table, fields[i].key)
    ensures var applied := ApplyFields(t, fields, Submission(fields, table, prefix, scripted), prefix);
            applied.ok && SameAt(applied.table, if exists i :: 0 <= i < |fields| && fields[i].key == key then table else t, key)
  {
    var form := Submission(fields, table, prefix, scripted);
    forall i | 0 <= i < |fields|
      ensures Parse(fields[i], form, prefix + fields[i].key) == Expected(fields[i], table, scripted)
    {
      assert NormalField(fields[i], table);
      FormReadsBack(fields, table, prefix, scripted, i);
    }
    if i: nat :| i < |fields| && fields[i].key == key {
      AppliedAt(t, fields, form, prefix, key, i);
    } else {
      AppliedAt(t, fields, form, prefix, key, |fields|);
    }
  }

  /** A field the browser does not send keeps its old value. */
  lemma SilentFieldIsKept(t: Table, fields: seq<Field>, form: Form, prefix: string, i: nat)
    requires DistinctKeys(fields) && IsAccepted(fields, form, prefix) && i < |fields| && prefix + fields[i].key !in form
    ensures SameAt(ApplyFields(t, fields, form, prefix).table, t, fields[i].key)
  {
    AppliedAt(t, fields, form, prefix, fields[i].key, i);
  }

  // ----- overriding with nothing -----

  predicate IsOverride(f: Field) {
    f.kind == ListKind && f.inheritable
  }

  predicate HoldsNothing(table: Table, key: string) {
    key in table && table[key] == Items([])
  }

  /** The form carries the override: the field itself is sent, without items, and the tick with it. */
  predicate SendsOverride(form: Form, name: string) {
    name in form && NonBlank(SplitLines(Strip(form[name]))) == [] && IsOn(Lookup(form, name + "__empty"))
  }

  lemma OverrideIsReadIff(f: Field, form: Form, name: string)
    requires IsOverride(f)
    ensures Parse(f, form, name) == Set(Items([])) <==> SendsOverride(form, name)
  { }

  /** After any accepted form a list is overridden with nothing iff the form carries the override, or is silent and it already was. */
  lemma OverrideAppliesIff(t: Table, fields: seq<Field>, form: Form, prefix: string, i: nat)
    requires DistinctKeys(fields) && IsAccepted(fields, form, prefix) && i < |fields| && IsOverride(fields[i])
    ensures var name := prefix + fields[i].key;
            HoldsNothing(ApplyFields(t, fields, form, prefix).table, fields[i].key) <==>
              SendsOverride(form, name) || (name !in form && HoldsNothing(t, fields[i].key))
  {
    AppliedAt(t, fields, form, prefix, fields[i].key, i);
    OverrideIsReadIff(fields[i], form, prefix + fields[i].key);
  }

  /** Ticking the box of an empty list: the page then shows what it shows of a list overridden with nothing. */
  function Ticked(table: Table, f: Field): Table {
    table[f.key := Items([])]
  }

  /** What a ticked field submits is read as the override without the script, and not at all with it. */
  lemma TickedInputs(f: Field, table: Table, name: string, scripted: bool)
    requires IsOverride(f)
    ensures FieldView(f, Ticked(table, f)) == View("", [], true)
    ensures Parse(f, Inputs(f, View("", [], true), name, scripted), name) == if scripted then Silent else Set(Items([]))
  {
    EmptyText();
    FieldReadsBack(f, Ticked(table, f), name, scripted);
  }

  /**
   Ticking "override with empty value" and saving makes the list empty exactly without the page's script, or if it already
   was: the script disables the text area, and a field that is not sent is left as it was.
   */
  lemma TickTakesEffectIff(fields: seq<Field>, table: Table, t: Table, prefix: string, scripted: bool, i: nat)
    requires WellNamed(fields) && AllNormal(fields, table) && i < |fields| && IsOverride(fields[i])
    ensures var applied := ApplyFields(t, fields, Submission(fields, Ticked(table, fields[i]), prefix, scripted), prefix);
            && applied.ok
            && (HoldsNothing(applied.table, fields[i].key) <==> !scripted || HoldsNothing(t, fields[i].key))
            && (scripted ==> SameAt(applied.table, t, fields[i].key))
  {
    var ticked := Ticked(table, fields[i]);
    var form := Submission(fields, ticked, prefix, scripted);
    forall j | 0 <= j < |fields|
      ensures Parse(fields[j], form, prefix + fields[j].key) == Expected(fields[j], ticked, scripted)
    {
      assert NormalField(fields[j], table);
      FormReadsBack(fields, ticked, prefix, scripted, j);
    }
    AppliedAt(t, fields, form, prefix, fields[i].key, i);
    TickedInputs(fields[i], table, prefix + fields[i].key, scripted);
  }

  /** A single list that inherits, ticked and saved with the script: nothing is stored, and it goes on inheriting. */
  lemma TickIsLost()
    ensures var fields := [Field("exclude", ListKind, true, [])];
            var saved := ApplyFields(map[], fields, Submission(fields, Ticked(map[], fields[0]), "", true), "");
            saved.ok && "exclude" !in saved.table
  {
    var fields := [Field("exclude", ListKind, true, [])];
    TickTakesEffectIff(fields, map[], map[], "", true, 0);
  }
}
