/** Whole files: the clean round trip, and setters that touch one line only. */
module AuthorizedKeysFile {
  import opened Text
  import opened AuthorizedKeys
  import Tokens = AuthorizedKeysTokens
  import RoundTrip = AuthorizedKeysRoundTrip

  // ---------------------------------------------------------------- clean round trip

  lemma {:induction false} CleanLines(ls: seq<string>)
    ensures PrintLines(ParseLines(ls)) == ls && |ParseLines(ls)| == |ls|
    ensures forall i :: 0 <= i < |ls| ==> ParseLines(ls)[i] == ParseLine(ls[i])
  {
    hide ParseLine;
    if ls != [] {
      CleanLines(ls[1..]);
      PrintParsed(ls[0]);
      assert [ls[0]] + ls[1..] == ls;
    }
  }

  /** An entry just read is clean, and prints as the line it was read from. */
  lemma PrintParsed(line: string)
    ensures PrintLine(ParseLine(line)) == line
  {
    hide SplitLine, Strip;
  }

  lemma {:induction false} PrintLinesOf(items: seq<Line>)
    ensures |PrintLines(items)| == |items|
    ensures forall i :: 0 <= i < |items| ==> PrintLines(items)[i] == PrintLine(items[i])
  {
    hide PrintLine;
    if items != [] { PrintLinesOf(items[1..]); }
  }

  lemma {:induction false} PrintAppendMarker(items: seq<Line>)
    ensures PrintLines(items + [Passthrough("")]) == PrintLines(items) + [""]
  {
    PrintLinesOf(items + [Passthrough("")]);
    PrintLinesOf(items);
  }

  /** Items whose lines are `lines`, with the marker for a final newline if `ended`. */
  lemma PrintTextOf(items: seq<Line>, lines: seq<string>, ended: bool)
    requires PrintLines(items) == lines && lines != [] && (!ended ==> lines[|lines| - 1] != "")
    ensures PrintText(items + if ended then [Passthrough("")] else [])
         == if ended then Unlines(lines) else Join("\n", lines)
  {
    hide PrintLines, Join, Unlines;
    if ended {
      PrintAppendMarker(items);
      assert (lines + [""])[..|lines|] == lines;
      JoinIsUnlines(lines);
    } else {
      assert items + [] == items;
    }
  }

  lemma {:induction false} JoinOnlyNewlines(lines: seq<string>)
    requires forall l :: l in lines ==> NoBreaks(l)
    ensures OnlyNewlines(Join("\n", lines)) && OnlyNewlines(Join("\n", lines) + "\n")
  {
    hide IsLineBreak;
    if lines != [] {
      assert NoBreaks(lines[0]);
      if |lines| > 1 { JoinOnlyNewlines(lines[1..]); }
    }
  }

  /** Printing what was read gives the text back exactly when LF is its only kind of break. */
  lemma FileRoundTrip(text: string)
    ensures PrintText(ParseText(text)) == text <==> OnlyNewlines(text)
  {
    hide IsLineBreak, ParseLines, SplitLines, PrintLines;
    var ls := SplitLines(text);
    CleanLines(ls);
    if OnlyNewlines(text) {
      LinesRebuild(text);
      if text != "" {
        PrintTextOf(ParseLines(ls), ls, EndsWithNewline(text));
      } else {
        assert PrintLines(ParseLines([])) == [];
      }
    }
    SplitLinesNoBreaks(text);
    if EndsWithNewline(text) {
      PrintAppendMarker(ParseLines(ls));
      assert (ls + [""])[..|ls|] == ls;
    } else {
      assert ParseLines(ls) + [] == ParseLines(ls);
    }
    JoinOnlyNewlines(ls);
    if ls != [] {
      JoinOnlyNewlines(ls[..|ls| - 1]);
    }
  }

  // ---------------------------------------------------------------- edits

  function Without(os: seq<KeyOption>, name: string): seq<KeyOption> {
    if os == [] then []
    else (if os[0].name != name then [os[0]] else []) + Without(os[1..], name)
  }

  /** The values of the options called `name`, in order. */
  function Values(os: seq<KeyOption>, name: string): seq<OptionValue> {
    if os == [] then []
    else (if os[0].name == name then [os[0].value] else []) + Values(os[1..], name)
  }

  function Repeated(name: string, values: seq<string>): seq<KeyOption> {
    if values == [] then []
    else (if values[0] != "" then [KeyOption(name, Str(values[0]))] else []) + Repeated(name, values[1..])
  }

  datatype Setter =
    | SetFlag(name: string, on: bool)
    | SetValue(name: string, value: Option<string>)
    | SetRepeatable(name: string, values: seq<string>)

  /** The options a setter leaves under its own name. */
  function Wanted(s: Setter): seq<KeyOption> {
    match s
    case SetFlag(n, on) => if on then [KeyOption(n, Flag(true))] else []
    case SetValue(n, v) => if v.Some? && v.value != "" then [KeyOption(n, Str(v.value))] else []
    case SetRepeatable(n, vs) => Repeated(n, vs)
  }

  function Apply(e: Entry, s: Setter): Entry {
    e.(options := Without(e.options, s.name) + Wanted(s), dirty := true)
  }

  function ApplyAll(e: Entry, edits: seq<Setter>): Entry
    decreases |edits|
  {
    if edits == [] then e else ApplyAll(Apply(e, edits[0]), edits[1..])
  }

  lemma {:induction false} ValuesAppend(a: seq<KeyOption>, b: seq<KeyOption>, m: string)
    ensures Values(a + b, m) == Values(a, m) + Values(b, m)
  {
    if a == [] {
      assert a + b == b;
    } else {
      ValuesAppend(a[1..], b, m);
      assert (a + b)[0] == a[0] && (a + b)[1..] == a[1..] + b;
      var first := if a[0].name == m then [a[0].value] else [];
      assert first + (Values(a[1..], m) + Values(b, m)) == first + Values(a[1..], m) + Values(b, m);
    }
  }

  lemma {:induction false} ValuesWithout(os: seq<KeyOption>, name: string, m: string)
    ensures Values(Without(os, name), m) == if m == name then [] else Values(os, m)
  {
    if os != [] {
      ValuesWithout(os[1..], name, m);
      if os[0].name != name {
        ValuesAppend([os[0]], Without(os[1..], name), m);
      } else {
        assert Without(os, name) == [] + Without(os[1..], name) == Without(os[1..], name);
      }
    }
  }

  lemma {:induction false} ValuesOfOther(os: seq<KeyOption>, m: string)
    requires forall o :: o in os ==> o.name != m
    ensures Values(os, m) == []
  {
    if os != [] { ValuesOfOther(os[1..], m); }
  }

  lemma {:induction false} RepeatedNames(name: string, values: seq<string>)
    ensures forall o :: o in Repeated(name, values) ==> o.name == name
  {
    if values != [] { RepeatedNames(name, values[1..]); }
  }

  lemma {:induction false} RepeatedAppend(name: string, a: seq<string>, b: seq<string>)
    ensures Repeated(name, a + b) == Repeated(name, a) + Repeated(name, b)
  {
    if a == [] {
      assert a + b == b;
    } else {
      RepeatedAppend(name, a[1..], b);
      assert (a + b)[0] == a[0] && (a + b)[1..] == a[1..] + b;
      var first := if a[0] != "" then [KeyOption(name, Str(a[0]))] else [];
      assert Repeated(name, a) == first + Repeated(name, a[1..]);
      Regroup(first, Repeated(name, a[1..]), Repeated(name, b));
    }
  }

  /** A list of values is kept value for value, in order; an empty one anywhere in it makes no difference. */
  lemma {:induction false} RepeatedKeeps(name: string, vs: seq<string>)
    ensures "" !in vs ==> Values(Repeated(name, vs), name) == seq(|vs|, i requires 0 <= i < |vs| => Str(vs[i]))
    ensures forall i :: 0 <= i < |vs| && vs[i] == "" ==> Repeated(name, vs) == Repeated(name, vs[..i] + vs[i + 1..])
  {
    if vs != [] {
      RepeatedKeeps(name, vs[1..]);
      ValuesAppend([KeyOption(name, Str(vs[0]))], Repeated(name, vs[1..]), name);
    }
    forall i | 0 <= i < |vs| && vs[i] == "" ensures Repeated(name, vs) == Repeated(name, vs[..i] + vs[i + 1..]) {
      EmptyValue(name, vs, i);
    }
  }

  lemma EmptyValue(name: string, vs: seq<string>, i: nat)
    requires i < |vs| && vs[i] == ""
    ensures Repeated(name, vs) == Repeated(name, vs[..i] + vs[i + 1..])
  {
    assert vs == vs[..i] + vs[i..] && vs[i..][1..] == vs[i + 1..];
    RepeatedAppend(name, vs[..i], vs[i..]);
    RepeatedAppend(name, vs[..i], vs[i + 1..]);
    assert Repeated(name, vs[i..]) == Repeated(name, vs[i + 1..]);
  }

  lemma {:induction false} WithoutAppend(a: seq<KeyOption>, b: seq<KeyOption>, name: string)
    requires forall o :: o in b ==> o.name == name
    ensures Without(a + b, name) == Without(a, name)
  {
    if a != [] {
      WithoutAppend(a[1..], b, name);
      assert (a + b)[0] == a[0] && (a + b)[1..] == a[1..] + b;
    } else if b != [] {
      assert a + b == b && b[0] in b;
      WithoutAppend([], b[1..], name);
      assert [] + b[1..] == b[1..];
    }
  }

  lemma {:induction false} WithoutTwice(os: seq<KeyOption>, name: string)
    ensures Without(Without(os, name), name) == Without(os, name)
  {
    if os != [] {
      WithoutTwice(os[1..], name);
      if os[0].name != name {
        assert ([os[0]] + Without(os[1..], name))[1..] == Without(os[1..], name);
      } else {
        assert Without(os, name) == [] + Without(os[1..], name) == Without(os[1..], name);
      }
    }
  }

  /**
   * A setter decides the values under its own name and leaves every other name alone, in the order
   * they had; it touches nothing else of the entry but its mark as edited.
   */
  lemma SetterEffect(e: Entry, s: Setter, m: string)
    ensures var after := Apply(e, s);
      && after == e.(options := after.options, dirty := true)
      && Without(after.options, s.name) == Without(e.options, s.name)
      && (m != s.name ==> Values(after.options, m) == Values(e.options, m))
      && Values(after.options, s.name) == match s
         case SetFlag(_, on) => if on then [Flag(true)] else []
         case SetValue(_, None) => []
         case SetValue(_, Some(v)) => if v == "" then [] else [Str(v)]
         case SetRepeatable(n, vs) => Values(Repeated(n, vs), n)
  {
    if s.SetRepeatable? { RepeatedNames(s.name, s.values); }
    ValuesAppend(Without(e.options, s.name), Wanted(s), s.name);
    ValuesWithout(e.options, s.name, s.name);
    ValuesAppend(Without(e.options, s.name), Wanted(s), m);
    ValuesWithout(e.options, s.name, m);
    WithoutAppend(Without(e.options, s.name), Wanted(s), s.name);
    WithoutTwice(e.options, s.name);
    if m != s.name { ValuesOfOther(Wanted(s), m); }
  }

  // ---------------------------------------------------------------- edits stay on their line

  /** Replacing one item changes one line of the text. */
  lemma EditOneLine(text: string, k: nat, item: Line)
    requires OnlyNewlines(text) && k < |SplitLines(text)|
    requires NoBreaks(PrintLine(item)) && PrintLine(item) != ""
    ensures |ParseText(text)| >= |SplitLines(text)|
    ensures var after := PrintText(ParseText(text)[k := item]);
            && SplitLines(after) == SplitLines(text)[k := PrintLine(item)]
            && EndsWithNewline(after) == EndsWithNewline(text)
            && OnlyNewlines(after)
  {
    hide IsLineBreak, ParseLines, ParseLine, SplitLines, PrintLines, PrintLine, PrintText, Join;
    var ls := SplitLines(text);
    var items, ended := ParseLines(ls), EndsWithNewline(text);
    CleanLines(ls);
    SplitLinesNoBreaks(text);
    LinesRebuild(text);
    var ls', items' := ls[k := PrintLine(item)], items[k := item];
    assert PrintLines(items') == ls' by { PrintLinesOf(items); PrintLinesOf(items'); }
    PrintTextOf(items', ls', ended);
    assert ParseText(text)[k := item] == items' + if ended then [Passthrough("")] else [];
    assert forall l :: l in ls' ==> NoBreaks(l);
    JoinIsUnlines(ls');
    JoinOnlyNewlines(ls');
    if ended { SplitUnlines(ls'); } else { SplitJoin(ls'); LastOfJoin(ls'); }
  }

  lemma {:induction false} LastOfJoin(ls: seq<string>)
    requires ls != [] && ls[|ls| - 1] != "" && forall l :: l in ls ==> NoBreaks(l)
    ensures !EndsWithNewline(Join("\n", ls))
  {
    if |ls| > 1 {
      LastOfJoin(ls[1..]);
    } else {
      assert NoBreaks(ls[0]);
      assert !IsLineBreak(ls[0][|ls[0]| - 1]);
    }
  }

  predicate CleanOption(o: KeyOption) {
    NoBreaks(o.name) && (o.value.Str? ==> NoBreaks(o.value.text))
  }

  /** No part of the entry holds a line break. */
  predicate CleanEntry(e: Entry) {
    && (forall o :: o in e.options ==> CleanOption(o))
    && (forall u :: u in e.unknownOptions ==> NoBreaks(u))
    && NoBreaks(e.keytype) && NoBreaks(e.key) && NoBreaks(e.comment) && e.keytype != ""
  }

  predicate CleanSetter(s: Setter) {
    && NoBreaks(s.name)
    && (s.SetValue? && s.value.Some? ==> NoBreaks(s.value.value))
    && (s.SetRepeatable? ==> forall v :: v in s.values ==> NoBreaks(v))
  }

  lemma {:induction false} UnquoteClean(s: string)
    requires NoBreaks(s)
    ensures NoBreaks(Unquote(s).0)
    decreases |s|
  {
    hide IsLineBreak;
    if s != "" {
      if s[0] == '\\' && |s| > 1 { UnquoteClean(s[2..]); }
      else if s[0] != '"' { UnquoteClean(s[1..]); }
    }
  }

  lemma ReadOptionClean(s: string)
    requires s != "" && NoBreaks(s)
    ensures CleanOption(ReadOption(s).0)
  {
    hide IsLineBreak, Unquote, SeparatorLength;
    var j := NameLength(s);
    if j < |s| && s[j] == '=' {
      var t := s[j + 1..];
      assert NoBreaks(t);
      if t != "" { UnquoteClean(t[1..]); }
    }
  }

  lemma {:induction false} TokensClean(s: string)
    requires NoBreaks(s)
    ensures forall o :: o in TokenizeOptions(s) ==> CleanOption(o)
    decreases |s|
  {
    hide IsLineBreak, ReadOption, CleanOption;
    if s != "" {
      ReadOptionClean(s);
      TokensClean(s[ReadOption(s).1..]);
    }
  }

  lemma {:induction false} EscapedClean(v: string)
    requires NoBreaks(v)
    ensures NoBreaks(Tokens.Escape(v))
  {
    if v != "" { EscapedClean(v[1..]); }
  }

  lemma PieceClean(o: KeyOption)
    requires CleanOption(o)
    ensures NoBreaks(SerializeOption(o))
  {
    if o.value.Str? {
      Tokens.TwoPassesEscape(o.value.text);
      EscapedClean(o.value.text);
      hide IsLineBreak;
      assert NoBreaks("=\"") && NoBreaks("\"") by { QuotesClean(); }
    }
  }

  lemma QuotesClean()
    ensures NoBreaks("=\"") && NoBreaks("\"") && NoBreaks(",") && NoBreaks(" ") && NoBreaks("# ")
  {
  }

  lemma {:induction false} JoinClean(sep: string, parts: seq<string>)
    requires NoBreaks(sep) && forall p :: p in parts ==> NoBreaks(p)
    ensures NoBreaks(Join(sep, parts))
  {
    hide IsLineBreak;
    if parts != [] {
      assert NoBreaks(parts[0]);
      if |parts| > 1 { JoinClean(sep, parts[1..]); }
    }
  }

  lemma {:induction false} OptionPiecesClean(os: seq<KeyOption>)
    requires forall o :: o in os ==> CleanOption(o)
    ensures forall p :: p in OptionPieces(os) ==> NoBreaks(p)
  {
    hide CleanOption, NoBreaks, SerializeOption;
    if os != [] {
      PieceClean(os[0]);
      OptionPiecesClean(os[1..]);
    }
  }

  /** A dirty break-free entry prints as one line that is not empty. */
  lemma PrintedClean(e: Entry)
    requires CleanEntry(e) && e.dirty
    ensures NoBreaks(PrintEntry(e)) && PrintEntry(e) != ""
  {
    QuotesClean();
    hide IsLineBreak, CleanOption;
    OptionPiecesClean(e.options);
    var pieces := OptionPieces(e.options) + e.unknownOptions;
    JoinClean(",", pieces);
    var parts := (if pieces != [] then [Join(",", pieces)] else []) + [e.keytype, e.key]
                 + (if e.comment != "" then [e.comment] else []);
    JoinClean(" ", parts);
    JoinNonEmpty(" ", parts);
  }

  lemma JoinNonEmpty(sep: string, parts: seq<string>)
    requires |parts| > 1 && sep != ""
    ensures Join(sep, parts) != ""
  {
  }

  lemma {:induction false} KnownClean(ts: seq<KeyOption>)
    requires forall o :: o in ts ==> CleanOption(o)
    ensures forall o :: o in KnownOptions(ts) ==> CleanOption(o)
    ensures forall u :: u in UnknownOptions(ts) ==> NoBreaks(u)
  {
    hide CleanOption, NoBreaks, SerializeOption, IsKnown;
    if ts != [] {
      KnownClean(ts[1..]);
      PieceClean(ts[0]);
    }
  }

  lemma {:induction false} WithoutClean(os: seq<KeyOption>, name: string)
    requires forall o :: o in os ==> CleanOption(o)
    ensures forall o :: o in Without(os, name) ==> CleanOption(o)
  {
    hide CleanOption;
    if os != [] { WithoutClean(os[1..], name); }
  }

  lemma {:induction false} RepeatedClean(name: string, values: seq<string>)
    requires NoBreaks(name) && forall v :: v in values ==> NoBreaks(v)
    ensures forall o :: o in Repeated(name, values) ==> CleanOption(o)
  {
    hide NoBreaks;
    if values != [] { RepeatedClean(name, values[1..]); }
  }

  lemma ApplyClean(e: Entry, s: Setter)
    requires CleanEntry(e) && CleanSetter(s)
    ensures CleanEntry(Apply(e, s))
  {
    hide NoBreaks;
    WithoutClean(e.options, s.name);
    if s.SetRepeatable? { RepeatedClean(s.name, s.values); }
  }

  lemma {:induction false} ApplyAllClean(e: Entry, edits: seq<Setter>)
    requires CleanEntry(e) && forall s :: s in edits ==> CleanSetter(s)
    ensures CleanEntry(ApplyAll(e, edits)) && (edits != [] ==> ApplyAll(e, edits).dirty)
    decreases |edits|
  {
    hide CleanEntry, CleanSetter;
    if edits != [] {
      ApplyClean(e, edits[0]);
      ApplyAllClean(Apply(e, edits[0]), edits[1..]);
    }
  }

  predicate CleanFields(f: Fields) {
    NoBreaks(f.options) && NoBreaks(f.keytype) && NoBreaks(f.key) && NoBreaks(f.comment)
  }

  lemma SplitWordClean(s: string)
    requires NoBreaks(s)
    ensures NoBreaks(Head(s)) && NoBreaks(Tail(s))
  {
    hide IsLineBreak;
  }

  lemma FieldsAtClean(s: string, j: nat, k: nat)
    requires NoBreaks(s) && j <= k <= |s|
    ensures FieldsAt(s, j, k).Some? ==> CleanFields(FieldsAt(s, j, k).value)
  {
    hide IsLineBreak, Head, Tail;
    var rest := s[k..];
    assert NoBreaks(rest) && NoBreaks(s[..j]);
    SplitWordClean(rest);
    SplitWordClean(Tail(rest));
  }

  lemma {:induction false} ScanClean(s: string, j: nat, inQuote: bool)
    requires NoBreaks(s) && j <= |s|
    ensures ScanForKeytype(s, j, inQuote).Some? ==> CleanFields(ScanForKeytype(s, j, inQuote).value)
    decreases |s| - j
  {
    hide IsKeytype, FieldsAt, NoBreaks, CleanFields, ScanForKeytype, SkipSpaces;
    if j == |s| {
      ScanEnds(s, inQuote);
    } else {
      ScanUnfold(s, j, inQuote);
      if s[j] == '\\' && inQuote && j + 1 < |s| {
        ScanClean(s, j + 2, inQuote);
      } else if s[j] == '"' {
        ScanClean(s, j + 1, !inQuote);
      } else if s[j] == ' ' && !inQuote {
        var k := SkipSpaces(s, j);
        var m := k + IndexOf(s[k..], ' ');
        FieldsAtClean(s, j, k);
        ScanClean(s, m, inQuote);
      } else {
        ScanClean(s, j + 1, inQuote);
      }
    }
  }

  lemma SliceClean(s: string, i: nat, j: nat)
    requires NoBreaks(s) && i <= j <= |s|
    ensures NoBreaks(s[i..j]) && NoBreaks(s[i..]) && NoBreaks(s[..j])
  {
    hide IsLineBreak;
  }

  lemma StripClean(s: string)
    requires NoBreaks(s)
    ensures NoBreaks(LStrip(s)) && NoBreaks(RStrip(s)) && NoBreaks(Strip(s))
  {
    hide NoBreaks, IsSpace;
    var l := LStrip(s);
    SliceClean(s, |s| - |l|, |s|);
    SliceClean(s, 0, |RStrip(s)|);
    SliceClean(l, 0, |RStrip(l)|);
  }

  lemma KeytypeFieldsClean(s: string, sp: nat)
    requires NoBreaks(s) && sp < |s|
    ensures var rest := LStrip(s[sp + 1..]); CleanFields(Fields("", s[..sp], Head(rest), Tail(rest)))
  {
    assert NoBreaks("");
    hide NoBreaks, Head, Tail, LStrip;
    SliceClean(s, 0, sp);
    SliceClean(s, sp + 1, |s|);
    StripClean(s[sp + 1..]);
    SplitWordClean(LStrip(s[sp + 1..]));
  }

  lemma {:induction false} SplitLineClean(line: string)
    requires NoBreaks(line)
    ensures SplitLine(line).Some? ==> CleanFields(SplitLine(line).value)
  {
    hide NoBreaks, IsSpace, IsKeytype, ScanForKeytype, Head, Tail, LStrip, RStrip, Strip, CleanFields, IndexOf;
    var s := LStrip(line);
    StripClean(line);
    var sp := IndexOf(s, ' ');
    if sp < |s| {
      if IsKeytype(s[..sp]) {
        KeytypeFieldsClean(s, sp);
      } else {
        ScanClean(s, 0, false);
      }
    }
  }

  lemma EntryOfClean(raw: string, disabled: bool, f: Fields)
    requires CleanFields(f) && f.keytype != ""
    ensures CleanEntry(EntryOf(raw, disabled, f))
  {
    hide NoBreaks, CleanOption, TokenizeOptions;
    TokensClean(f.options);
    KnownClean(TokenizeOptions(f.options));
  }

  lemma FieldsOfClean(line: string)
    requires NoBreaks(line) && RoundTrip.FieldsOf(line).Some?
    ensures CleanFields(RoundTrip.FieldsOf(line).value)
  {
    hide NoBreaks, SplitLine, Strip, LStrip, CleanFields;
    var stripped := Strip(line);
    StripClean(line);
    SplitLineClean(line);
    SliceClean(stripped, 1, |stripped|);
    StripClean(stripped[1..]);
    SplitLineClean(LStrip(stripped[1..]));
  }

  /** An entry read from one line holds no line break. */
  lemma ParsedClean(line: string)
    requires NoBreaks(line) && ParseLine(line).KeyLine?
    ensures CleanEntry(ParseLine(line).entry)
  {
    hide NoBreaks, IsKeytype, ParseLine, CleanEntry, RoundTrip.FieldsOf;
    RoundTrip.FieldsOfFacts(line);
    FieldsOfClean(line);
    var f := RoundTrip.FieldsOf(line).value;
    Tokens.KeytypePlain(f.keytype);
    EntryOfClean(line, ParseLine(line).entry.disabled, f);
  }

  /**
   * Any run of setters on one entry: every other line of the file stays byte-identical, and
   * reading the new file gives the old items with that one line read anew.
   */
  lemma EditsStayLocal(text: string, k: nat, edits: seq<Setter>)
    requires OnlyNewlines(text) && k < |SplitLines(text)| && k < |ParseText(text)|
    requires ParseText(text)[k].KeyLine?
    requires edits != [] && forall s :: s in edits ==> CleanSetter(s)
    ensures var e := ApplyAll(ParseText(text)[k].entry, edits);
            var after := PrintText(ParseText(text)[k := KeyLine(e)]);
            && SplitLines(after) == SplitLines(text)[k := PrintEntry(e)]
            && EndsWithNewline(after) == EndsWithNewline(text)
            && ParseText(after) == ParseText(text)[k := ParseLine(PrintEntry(e))]
  {
    hide IsLineBreak, ParseLine, ParseLines, SplitLines, PrintText, PrintEntry, CleanEntry, CleanSetter;
    var ls := SplitLines(text);
    CleanLines(ls);
    SplitLinesNoBreaks(text);
    assert ls[k] in ls && ParseText(text)[k] == ParseLine(ls[k]);
    ParsedClean(ls[k]);
    var e := ApplyAll(ParseText(text)[k].entry, edits);
    ApplyAllClean(ParseText(text)[k].entry, edits);
    PrintedClean(e);
    EditOneLine(text, k, KeyLine(e));
    CleanLines(ls[k := PrintEntry(e)]);
    var marker := if EndsWithNewline(text) then [Passthrough("")] else [];
    assert ParseLines(ls[k := PrintEntry(e)]) == ParseLines(ls)[k := ParseLine(PrintEntry(e))];
    assert (ParseLines(ls) + marker)[k := ParseLine(PrintEntry(e))]
        == ParseLines(ls)[k := ParseLine(PrintEntry(e))] + marker;
  }
}
