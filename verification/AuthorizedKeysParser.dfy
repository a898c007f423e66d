/** The reader, printer and setters as the program runs them, proved against the line grammar. */
module AuthorizedKeysParser {
  import opened Text
  import Spec = AuthorizedKeys
  import Edits = AuthorizedKeysFile
  import Grammar = AuthorizedKeysGrammar
  import Lines = AuthorizedKeysLines

  // ---------------------------------------------------------------- scanning

  method ReadName(s: string, i: nat) returns (j: nat)
    requires i <= |s|
    ensures j == i + Spec.NameLength(s[i..])
  {
    j := i;
    while j < |s| && s[j] != ',' && s[j] != '='
      invariant i <= j <= |s|
      invariant Spec.NameLength(s[i..]) == j - i + Spec.NameLength(s[j..])
    {
      assert s[j..][1..] == s[j + 1..];
      j := j + 1;
    }
  }

  method SkipSeparators(s: string, i: nat) returns (j: nat)
    requires i <= |s|
    ensures j == i + Spec.SeparatorLength(s[i..])
  {
    j := i;
    while j < |s| && (s[j] == ',' || s[j] == ' ' || s[j] == '\t')
      invariant i <= j <= |s|
      invariant Spec.SeparatorLength(s[i..]) == j - i + Spec.SeparatorLength(s[j..])
    {
      assert s[j..][1..] == s[j + 1..];
      j := j + 1;
    }
  }

  method ReadQuoted(s: string, i: nat) returns (value: string, j: nat)
    requires i <= |s|
    ensures j <= |s| && (value, j - i) == Spec.Unquote(s[i..])
  {
    hide Spec.Unquote;
    value, j := "", i;
    while j < |s|
      invariant i <= j <= |s|
      invariant Spec.Unquote(s[i..]).0 == value + Spec.Unquote(s[j..]).0
      invariant Spec.Unquote(s[i..]).1 == j - i + Spec.Unquote(s[j..]).1
    {
      UnquoteAt(s, j);
      if s[j] == '\\' && j + 1 < |s| {
        Regroup(value, [s[j + 1]], Spec.Unquote(s[j + 2..]).0);
        value, j := value + [s[j + 1]], j + 2;
        continue;
      }
      if s[j] == '"' {
        break;
      }
      Regroup(value, [s[j]], Spec.Unquote(s[j + 1..]).0);
      value, j := value + [s[j]], j + 1;
    }
    if j == |s| { UnquoteEnd(s); }
    assert value + "" == value;
  }

  /** One step of the quoted value. */
  lemma UnquoteAt(s: string, j: nat)
    requires j < |s|
    ensures Spec.Unquote(s[j..]) ==
      if s[j] == '\\' && j + 1 < |s| then ([s[j + 1]] + Spec.Unquote(s[j + 2..]).0, 2 + Spec.Unquote(s[j + 2..]).1)
      else if s[j] == '"' then ("", 0)
      else ([s[j]] + Spec.Unquote(s[j + 1..]).0, 1 + Spec.Unquote(s[j + 1..]).1)
  {
    assert s[j..][1..] == s[j + 1..];
    if j + 1 < |s| { assert s[j..][2..] == s[j + 2..]; }
  }

  lemma UnquoteEnd(s: string)
    ensures Spec.Unquote(s[|s|..]) == ("", 0)
  {
  }

  method ReadBare(s: string, i: nat) returns (j: nat)
    requires i <= |s|
    ensures j == i + IndexOf(s[i..], ',')
  {
    j := i;
    while j < |s| && s[j] != ','
      invariant i <= j <= |s|
      invariant IndexOf(s[i..], ',') == j - i + IndexOf(s[j..], ',')
    {
      assert s[j..][1..] == s[j + 1..];
      j := j + 1;
    }
  }

  method ReadValue(s: string, i: nat) returns (value: string, j: nat)
    requires i <= |s|
    ensures i <= j <= |s| && (value, j - i) == Spec.ReadValue(s[i..])
  {
    hide Spec.Unquote;
    ghost var rest := s[i..];
    if i < |s| && s[i] == '"' {
      assert rest[1..] == s[i + 1..];
      value, j := ReadQuoted(s, i + 1);
      assert j < |s| ==> rest[j - i] == s[j];
      if j < |s| && s[j] == '"' {
        j := j + 1;
      }
    } else {
      j := ReadBare(s, i);
      value := s[i..j];
      assert rest[..j - i] == value;
    }
  }

  method ReadOption(s: string, i: nat) returns (option: Spec.KeyOption, next: nat)
    requires i < |s|
    ensures i < next <= |s| && (option, next - i) == Spec.ReadOption(s[i..])
  {
    hide Spec.ReadValue, Spec.SeparatorLength, Spec.NameLength;
    ghost var rest := s[i..];
    var j := ReadName(s, i);
    var name := s[i..j];
    assert rest[..j - i] == name && rest[j - i..] == s[j..];
    assert j < |s| ==> rest[j - i] == s[j];
    if j < |s| && s[j] == '=' {
      assert rest[j - i + 1..] == s[j + 1..];
      var value, end := ReadValue(s, j + 1);
      option := Spec.KeyOption(name, Spec.Str(value));
      assert rest[end - i..] == s[end..];
      next := SkipSeparators(s, end);
    } else {
      option := Spec.KeyOption(name, Spec.Flag(true));
      next := SkipSeparators(s, j);
    }
    assert Spec.ReadOption(rest) == (option, next - i);
  }

  method TokenizeOptions(s: string) returns (out: seq<Spec.KeyOption>)
    ensures out == Spec.TokenizeOptions(s) && Grammar.SpellsOptions(s, out)
  {
    hide Spec.ReadOption, Grammar.SpellsOptions;
    Grammar.TokenizeIs(s, Spec.TokenizeOptions(s));
    out := [];
    var i := 0;
    assert s[0..] == s;
    while i < |s|
      invariant i <= |s|
      invariant Spec.TokenizeOptions(s) == out + Spec.TokenizeOptions(s[i..])
    {
      var option, next := ReadOption(s, i);
      assert s[i..][next - i..] == s[next..];
      assert out + ([option] + Spec.TokenizeOptions(s[next..])) == out + [option] + Spec.TokenizeOptions(s[next..]);
      out, i := out + [option], next;
    }
  }

  method ScanForKeytype(s: string) returns (r: Option<Spec.Fields>)
    ensures r == Spec.ScanForKeytype(s, 0, false)
  {
    hide Spec.IsKeytype, Spec.FieldsAt, Spec.ScanForKeytype, Spec.SkipSpaces;
    Spec.ScanEnds(s, false);
    Spec.ScanEnds(s, true);
    var inQuote, j := false, 0;
    while j < |s|
      invariant j <= |s|
      invariant Spec.ScanForKeytype(s, 0, false) == Spec.ScanForKeytype(s, j, inQuote)
    {
      Spec.ScanUnfold(s, j, inQuote);
      if s[j] == '\\' && inQuote && j + 1 < |s| {
        j := j + 2;
        continue;
      }
      if s[j] == '"' {
        inQuote, j := !inQuote, j + 1;
        continue;
      }
      if s[j] == ' ' && !inQuote {
        var k := SkipSpaces(s, j);
        var m := EndOfWord(s, k);
        if Spec.IsKeytype(s[k..m]) {
          return Spec.FieldsAt(s, j, k);
        }
        j := m;
        continue;
      }
      j := j + 1;
    }
    r := None;
  }

  method SplitLine(line: string) returns (r: Option<Spec.Fields>)
    ensures r == Spec.SplitLine(line)
    ensures forall f :: r == Some(f) <==> Lines.SpellsFields(line, f)
  {
    hide Spec.IsKeytype, Spec.ScanForKeytype, Spec.Head, Spec.Tail, LStrip, IndexOf, IsSpace, Lines.SpellsFields;
    forall f ensures Spec.SplitLine(line) == Some(f) <==> Lines.SpellsFields(line, f) { Lines.SplitLineIs(line, f); }
    var s := LStrip(line);
    var sp := IndexOf(s, ' ');
    if sp == |s| {
      return None;
    }
    if Spec.IsKeytype(s[..sp]) {
      var rest := LStrip(s[sp + 1..]);
      var key, comment := Spec.Head(rest), Spec.Tail(rest);
      if key == "" {
        return None;
      }
      return Some(Spec.Fields("", s[..sp], key, comment));
    }
    r := ScanForKeytype(s);
  }

  method SkipSpaces(s: string, j: nat) returns (k: nat)
    requires j <= |s|
    ensures k == Spec.SkipSpaces(s, j)
  {
    k := j;
    while k < |s| && s[k] == ' '
      invariant j <= k <= |s| && Spec.SkipSpaces(s, j) == Spec.SkipSpaces(s, k)
    {
      k := k + 1;
    }
  }

  method EndOfWord(s: string, k: nat) returns (m: nat)
    requires k <= |s|
    ensures m == k + IndexOf(s[k..], ' ')
  {
    m := k;
    while m < |s| && s[m] != ' '
      invariant k <= m <= |s| && IndexOf(s[k..], ' ') == m - k + IndexOf(s[m..], ' ')
    {
      assert s[m..][1..] == s[m + 1..];
      m := m + 1;
    }
  }

  method ClassifyOptions(tokens: seq<Spec.KeyOption>) returns (known: seq<Spec.KeyOption>, unknown: seq<string>)
    ensures known == Spec.KnownOptions(tokens) && unknown == Spec.UnknownOptions(tokens)
  {
    hide Spec.IsKnown, Spec.SerializeOption;
    known, unknown := [], [];
    assert tokens[0..] == tokens;
    for i := 0 to |tokens|
      invariant Spec.KnownOptions(tokens) == known + Spec.KnownOptions(tokens[i..])
      invariant Spec.UnknownOptions(tokens) == unknown + Spec.UnknownOptions(tokens[i..])
    {
      assert tokens[i..][1..] == tokens[i + 1..];
      ghost var more, others := Spec.KnownOptions(tokens[i + 1..]), Spec.UnknownOptions(tokens[i + 1..]);
      Regroup(known, [tokens[i]], more);
      Regroup(known, [], more);
      Regroup(unknown, [Spec.SerializeOption(tokens[i])], others);
      Regroup(unknown, [], others);
      if Spec.IsKnown(tokens[i].name) {
        known := known + [tokens[i]];
      } else {
        var piece := Spec.SerializeOption(tokens[i]);
        if piece != "" {
          unknown := unknown + [piece];
        }
      }
    }
  }

  // ---------------------------------------------------------------- the entry object

  class AuthorizedKeyEntry {
    var rawLine: string
    var disabled: bool
    var options: seq<Spec.KeyOption>
    var unknownOptions: seq<string>
    var keytype: string
    var key: string
    var comment: string
    var dirty: bool

    ghost function Value(): Spec.Entry
      reads this
    {
      Spec.Entry(rawLine, disabled, options, unknownOptions, keytype, key, comment, dirty)
    }

    constructor (raw: string, off: bool, known: seq<Spec.KeyOption>, unknown: seq<string>, f: Spec.Fields)
      ensures Value() == Spec.Entry(raw, off, known, unknown, f.keytype, f.key, f.comment, false)
    {
      rawLine, disabled, options, unknownOptions := raw, off, known, unknown;
      keytype, key, comment, dirty := f.keytype, f.key, f.comment, false;
    }

    method MarkDirty()
      modifies this`dirty
      ensures dirty
    {
      dirty := true;
    }

    method GetOption(name: string) returns (r: Option<Spec.OptionValue>)
      ensures r == if Edits.Values(options, name) == [] then None else Some(Edits.Values(options, name)[0])
    {
      for i := 0 to |options|
        invariant Edits.Values(options, name) == Edits.Values(options[i..], name)
      {
        assert options[i..][1..] == options[i + 1..];
        if options[i].name == name {
          return Some(options[i].value);
        }
      }
      r := None;
    }

    /** The comprehension that drops every option called `name`. */
    method DropOption(name: string)
      modifies this`options
      ensures options == Edits.Without(old(options), name)
    {
      var kept := [];
      for i := 0 to |options|
        invariant options == old(options)
        invariant Edits.Without(options, name) == kept + Edits.Without(options[i..], name)
      {
        assert options[i..][1..] == options[i + 1..];
        ghost var piece := if options[i].name != name then [options[i]] else [];
        assert Edits.Without(options[i..], name) == piece + Edits.Without(options[i + 1..], name);
        Regroup(kept, piece, Edits.Without(options[i + 1..], name));
        if options[i].name != name {
          kept := kept + [options[i]];
        }
      }
      options := kept;
    }

    method SetFlag(name: string, on: bool)
      modifies this`options, this`dirty
      ensures Value() == Edits.Apply(old(Value()), Edits.SetFlag(name, on))
    {
      DropOption(name);
      if on {
        options := options + [Spec.KeyOption(name, Spec.Flag(true))];
      }
      MarkDirty();
    }

    method SetValue(name: string, value: Option<string>)
      modifies this`options, this`dirty
      ensures Value() == Edits.Apply(old(Value()), Edits.SetValue(name, value))
    {
      DropOption(name);
      if value.Some? && value.value != "" {
        options := options + [Spec.KeyOption(name, Spec.Str(value.value))];
      }
      MarkDirty();
    }

    method SetRepeatable(name: string, values: seq<string>)
      modifies this`options, this`dirty
      ensures Value() == Edits.Apply(old(Value()), Edits.SetRepeatable(name, values))
    {
      DropOption(name);
      ghost var kept := options;
      assert values[0..] == values;
      for i := 0 to |values|
        invariant kept + Edits.Repeated(name, values) == options + Edits.Repeated(name, values[i..])
        invariant dirty == old(dirty)
      {
        assert values[i..][1..] == values[i + 1..];
        ghost var piece := if values[i] != "" then [Spec.KeyOption(name, Spec.Str(values[i]))] else [];
        assert Edits.Repeated(name, values[i..]) == piece + Edits.Repeated(name, values[i + 1..]);
        Regroup(options, piece, Edits.Repeated(name, values[i + 1..]));
        if values[i] != "" {
          options := options + [Spec.KeyOption(name, Spec.Str(values[i]))];
        }
      }
      MarkDirty();
    }
  }

  // ---------------------------------------------------------------- files

  datatype Item = KeyItem(entry: AuthorizedKeyEntry) | TextItem(text: string)

  ghost function Objects(items: seq<Item>): set<AuthorizedKeyEntry> {
    set it | it in items && it.KeyItem? :: it.entry
  }

  ghost function LineOf(item: Item): Spec.Line
    reads if item.KeyItem? then {item.entry} else {}
  {
    match item
    case KeyItem(e) => Spec.KeyLine(e.Value())
    case TextItem(t) => Spec.Passthrough(t)
  }

  /** What the list of items stands for. */
  ghost function LinesOf(items: seq<Item>): seq<Spec.Line>
    reads Objects(items)
  {
    if items == [] then [] else [LineOf(items[0])] + LinesOf(items[1..])
  }

  /** No entry object occurs twice. */
  ghost predicate Distinct(items: seq<Item>) {
    forall i, j :: 0 <= i < j < |items| && items[i].KeyItem? ==> items[i] != items[j]
  }

  lemma {:induction false} LinesOfAt(items: seq<Item>)
    ensures |LinesOf(items)| == |items|
    ensures forall i :: 0 <= i < |items| ==> LinesOf(items)[i] == LineOf(items[i])
  {
    if items != [] { LinesOfAt(items[1..]); }
  }

  method ParseLine(line: string) returns (item: Item)
    ensures item.KeyItem? ==> fresh(item.entry)
    ensures LineOf(item) == Spec.ParseLine(line)
  {
    hide Spec.SplitLine, Spec.TokenizeOptions;
    var stripped := Strip(line);
    if stripped == "" {
      return TextItem(line);
    }
    var off, body := false, line;
    if stripped[0] == '#' {
      var candidate := LStrip(stripped[1..]);
      var trial := SplitLine(candidate);
      if trial.None? {
        return TextItem(line);
      }
      off, body := true, candidate;
    }
    var split := SplitLine(body);
    if split.None? {
      return TextItem(line);
    }
    var f := split.value;
    var known, unknown := [], [];
    if f.options != "" {
      var tokens := TokenizeOptions(f.options);
      known, unknown := ClassifyOptions(tokens);
    } else {
      NoOptions();
    }
    var e := new AuthorizedKeyEntry(line, off, known, unknown, f);
    item := KeyItem(e);
  }

  lemma NoOptions()
    ensures Spec.TokenizeOptions("") == [] && Spec.KnownOptions([]) == [] && Spec.UnknownOptions([]) == []
  {
  }

  method ParseFile(text: string) returns (items: seq<Item>)
    ensures LinesOf(items) == Spec.ParseText(text)
    ensures Distinct(items) && fresh(Objects(items))
  {
    hide Spec.ParseLine, Spec.ParseLines, SplitLines, EndsWithNewline;
    var lines := SplitLines(text);
    items := [];
    for i := 0 to |lines|
      invariant |items| == i
      invariant forall j :: 0 <= j < i && items[j].KeyItem? ==> fresh(items[j].entry)
      invariant Distinct(items)
      invariant forall j :: 0 <= j < i ==> LineOf(items[j]) == Spec.ParseLine(lines[j])
    {
      var item := ParseLine(lines[i]);
      items := items + [item];
    }
    Edits.CleanLines(lines);
    if EndsWithNewline(text) {
      items := items + [TextItem("")];
    }
    LinesOfAt(items);
    assert LinesOf(items) == Spec.ParseText(text);
  }

  method SerializeOptions(options: seq<Spec.KeyOption>) returns (pieces: seq<string>)
    ensures pieces == Spec.OptionPieces(options)
  {
    hide Spec.SerializeOption;
    pieces := [];
    assert options[0..] == options;
    for i := 0 to |options|
      invariant Spec.OptionPieces(options) == pieces + Spec.OptionPieces(options[i..])
    {
      assert options[i..][1..] == options[i + 1..];
      var piece := Spec.SerializeOption(options[i]);
      if piece != "" {
        pieces := pieces + [piece];
      }
    }
  }

  method SerializeEntry(e: AuthorizedKeyEntry) returns (line: string)
    ensures line == Spec.PrintEntry(e.Value())
  {
    hide Spec.OptionPieces, Join;
    if !e.dirty {
      return e.rawLine;
    }
    var pieces := SerializeOptions(e.options);
    pieces := pieces + e.unknownOptions;
    var parts := [];
    if pieces != [] {
      parts := parts + [Join(",", pieces)];
    }
    parts := parts + [e.keytype];
    parts := parts + [e.key];
    assert parts == (if pieces != [] then [Join(",", pieces)] else []) + [e.keytype, e.key];
    if e.comment != "" {
      parts := parts + [e.comment];
    }
    assert parts == (if pieces != [] then [Join(",", pieces)] else []) + [e.keytype, e.key]
                    + if e.comment != "" then [e.comment] else [];
    line := Join(" ", parts);
    if e.disabled {
      line := "# " + line;
    }
  }

  method Serialize(items: seq<Item>) returns (text: string)
    ensures text == Spec.PrintText(LinesOf(items))
  {
    hide Spec.PrintEntry, Spec.PrintLines, LinesOf;
    var lines: seq<string> := [];
    for i := 0 to |items|
      invariant |lines| == i
      invariant forall j :: 0 <= j < i ==> lines[j] == Spec.PrintLine(LineOf(items[j]))
    {
      match items[i] {
        case KeyItem(e) =>
          var line := SerializeEntry(e);
          lines := lines + [line];
        case TextItem(t) =>
          lines := lines + [t];
      }
    }
    LinesOfAt(items);
    Edits.PrintLinesOf(LinesOf(items));
    assert lines == Spec.PrintLines(LinesOf(items));
    if lines == [] {
      return "";
    }
    if lines[|lines| - 1] == "" {
      return Join("\n", lines[..|lines| - 1]) + "\n";
    }
    text := Join("\n", lines);
  }

  /** Setters on one entry of a parsed file leave what every other item stands for unchanged. */
  twostate lemma OneEntryChanges(items: seq<Item>, k: nat)
    requires Distinct(items) && k < |items| && items[k].KeyItem?
    requires forall o :: o in Objects(items) && o != items[k].entry ==> unchanged(o)
    ensures |old(LinesOf(items))| == |items|
    ensures LinesOf(items) == old(LinesOf(items))[k := LineOf(items[k])]
  {
    LinesOfAt(items);
    LinesOfAtOld(items);
    forall i | 0 <= i < |items| && i != k ensures LineOf(items[i]) == old(LineOf(items[i])) {
      if items[i].KeyItem? { assert items[i].entry in Objects(items); }
    }
  }

  twostate lemma {:induction false} LinesOfAtOld(items: seq<Item>)
    ensures |old(LinesOf(items))| == |items|
    ensures forall i :: 0 <= i < |items| ==> old(LinesOf(items))[i] == old(LineOf(items[i]))
  {
    if items != [] { LinesOfAtOld(items[1..]); }
  }
}
