/** Option lists as a grammar that does not mention the tokenizer, and the tokenizer as its only reading. */
module AuthorizedKeysGrammar {
  import opened Text
  import opened AuthorizedKeys
  import opened AuthorizedKeysTokens

  // ---------------------------------------------------------------- the grammar

  /** One character between quotes: as it is, or behind a backslash. */
  datatype Mark = Plain(c: char) | Escaped(c: char)

  /** One option as it is written; the end of the text may stand in for a closing quote. */
  datatype Spelling =
    | Named(name: string)
    | Bare(name: string, value: string)
    | Quoted(name: string, marks: seq<Mark>, closed: bool)

  /** An option and the separators after it. */
  datatype Item = Item(option: Spelling, gap: string)

  function MarkText(m: Mark): string { if m.Plain? then [m.c] else ['\\', m.c] }

  function MarksText(ms: seq<Mark>): string {
    if ms == [] then "" else MarkText(ms[0]) + MarksText(ms[1..])
  }

  function MarksValue(ms: seq<Mark>): string {
    if ms == [] then "" else [ms[0].c] + MarksValue(ms[1..])
  }

  function SpellingText(o: Spelling): string {
    match o
    case Named(name) => name
    case Bare(name, value) => name + "=" + value
    case Quoted(name, marks, closed) => name + "=\"" + MarksText(marks) + if closed then "\"" else ""
  }

  function ItemText(it: Item): string { SpellingText(it.option) + it.gap }

  function ItemsText(its: seq<Item>): string {
    if its == [] then "" else ItemText(its[0]) + ItemsText(its[1..])
  }

  /** A quote or a backslash stands for itself only behind a backslash; a backslash also where the text ends. */
  predicate ProperMarks(ms: seq<Mark>, closed: bool) {
    forall i :: 0 <= i < |ms| && ms[i].Plain? ==>
      ms[i].c != '"' && (ms[i].c == '\\' ==> !closed && i == |ms| - 1)
  }

  predicate AllSeparators(s: string) {
    forall i :: 0 <= i < |s| ==> !Solid(s[i])
  }

  /** What may follow an option without quotes: nothing, or a comma. */
  predicate Ends(rest: string) { rest != "" ==> rest[0] == ',' }

  predicate ProperItem(it: Item, rest: string) {
    && NameChars(it.option.name)
    && AllSeparators(it.gap) && (rest != "" ==> Solid(rest[0]))
    && match it.option
       case Named(name) => Ends(it.gap + rest) && name + it.gap != ""
       case Bare(name, value) => Ends(it.gap + rest) && ',' !in value && (value != "" ==> value[0] != '"')
       case Quoted(name, marks, closed) => ProperMarks(marks, closed) && (!closed ==> it.gap == "" && rest == "")
  }

  predicate ProperItems(its: seq<Item>) {
    its == [] || (ProperItem(its[0], ItemsText(its[1..])) && ProperItems(its[1..]))
  }

  /** What a spelling means. */
  function Meant(o: Spelling): KeyOption {
    match o
    case Named(name) => KeyOption(name, Flag(true))
    case Bare(name, value) => KeyOption(name, Str(value))
    case Quoted(name, marks, _) => KeyOption(name, Str(MarksValue(marks)))
  }

  function AllMeant(its: seq<Item>): seq<KeyOption> {
    if its == [] then [] else [Meant(its[0].option)] + AllMeant(its[1..])
  }

  /** The text spells the options, one way or another. */
  ghost predicate SpellsOptions(s: string, ts: seq<KeyOption>) {
    exists its :: ProperItems(its) && ItemsText(its) == s && AllMeant(its) == ts
  }

  // ---------------------------------------------------------------- reading a spelling

  lemma MarksStep(ms: seq<Mark>, closed: bool)
    requires ms != [] && ProperMarks(ms, closed)
    ensures ProperMarks(ms[1..], closed)
  {
    forall i | 0 <= i < |ms[1..]| && ms[1..][i].Plain?
      ensures ms[1..][i].c != '"' && (ms[1..][i].c == '\\' ==> !closed && i == |ms[1..]| - 1)
    {
      assert ms[1..][i] == ms[i + 1];
    }
  }

  /** Between the quotes the marks are read one by one. */
  lemma {:induction false} UnquoteMarks(ms: seq<Mark>, closed: bool, rest: string)
    requires ProperMarks(ms, closed) && (!closed ==> rest == "")
    ensures Unquote(MarksText(ms) + (if closed then "\"" + rest else "")) == (MarksValue(ms), |MarksText(ms)|)
  {
    var end := if closed then "\"" + rest else "";
    if ms == [] {
      assert MarksText(ms) + end == end;
    } else {
      MarksStep(ms, closed);
      UnquoteMarks(ms[1..], closed, rest);
      var m, tail := ms[0], MarksText(ms[1..]) + end;
      var s := MarksText(ms) + end;
      assert s == MarkText(m) + tail;
      hide ProperMarks;
      if m.Escaped? {
        assert s[0] == '\\' && s[1] == m.c && s[2..] == tail;
      } else {
        assert s[0] == m.c && s[1..] == tail;
        if m.c == '\\' { assert ms[1..] == []; }
      }
    }
  }

  lemma {:induction false} SeparatorsEnd(gap: string, rest: string)
    requires AllSeparators(gap) && (rest != "" ==> Solid(rest[0]))
    ensures SeparatorLength(gap + rest) == |gap|
  {
    if gap != "" {
      assert (gap + rest)[1..] == gap[1..] + rest;
      assert !Solid(gap[0]);
      SeparatorsEnd(gap[1..], rest);
    } else {
      assert gap + rest == rest;
    }
  }

  lemma BareValue(value: string, rest: string)
    requires Ends(rest) && ',' !in value && (value != "" ==> value[0] != '"')
    ensures ReadValue(value + rest) == (value, |value|)
  {
    hide Unquote;
    var s := value + rest;
    assert forall j :: 0 <= j < |value| ==> s[j] == value[j] && value[j] in value;
    IndexOfIs(s, ',', |value|);
    assert s[..|value|] == value;
  }

  lemma QuotedValue(ms: seq<Mark>, closed: bool, rest: string)
    requires ProperMarks(ms, closed) && (!closed ==> rest == "")
    ensures var t := "\"" + MarksText(ms) + if closed then "\"" else "";
            ReadValue(t + rest) == (MarksValue(ms), |t|)
  {
    hide Unquote, ProperMarks, MarksText, MarksValue;
    var s := "\"" + MarksText(ms) + (if closed then "\"" else "") + rest;
    UnquoteMarks(ms, closed, rest);
    assert s[1..] == MarksText(ms) + if closed then "\"" + rest else "";
    if closed { assert s[1 + |MarksText(ms)|] == '"'; }
  }

  /** What follows `=` is read as the value, whatever separators come after it. */
  lemma ReadValued(name: string, t: string, value: string, gap: string, rest: string)
    requires NameChars(name) && ReadValue(t + (gap + rest)) == (value, |t|)
    requires AllSeparators(gap) && (rest != "" ==> Solid(rest[0]))
    ensures ReadOption(name + ("=" + (t + (gap + rest)))) == (KeyOption(name, Str(value)), |name| + 1 + |t| + |gap|)
  {
    hide NameChars, ReadOption, ReadValue, SeparatorLength, Solid, AllSeparators;
    var after := gap + rest;
    SeparatorsEnd(gap, rest);
    ReadNamed(name, t + after);
    assert (t + after)[|t|..] == after;
  }

  /** The tokenizer reads an option as it is spelled, and the separators after it. */
  lemma ReadItem(it: Item, rest: string)
    requires ProperItem(it, rest)
    ensures ItemText(it) + rest != ""
    ensures ReadOption(ItemText(it) + rest) == (Meant(it.option), |ItemText(it)|)
  {
    hide NameChars, ReadOption, ReadValue, SeparatorLength, Solid, ProperMarks, MarksText, MarksValue, AllSeparators;
    match it.option
    case Named(name) =>
      SeparatorsEnd(it.gap, rest);
      assert ItemText(it) + rest == name + (it.gap + rest);
      ReadFlag(name, it.gap + rest);
    case Bare(name, value) =>
      BareValue(value, it.gap + rest);
      ReadBehindName(it, value, value, rest);
    case Quoted(name, marks, closed) =>
      QuotedValue(marks, closed, it.gap + rest);
      ReadBehindName(it, "\"" + MarksText(marks) + (if closed then "\"" else ""), MarksValue(marks), rest);
  }

  lemma ReadBehindName(it: Item, t: string, value: string, rest: string)
    requires ProperItem(it, rest) && SpellingText(it.option) == it.option.name + "=" + t
    requires ReadValue(t + (it.gap + rest)) == (value, |t|)
    ensures ReadOption(ItemText(it) + rest) == (KeyOption(it.option.name, Str(value)), |ItemText(it)|)
    ensures ItemText(it) + rest != ""
  {
    hide NameChars, ReadOption, ReadValue, Solid, AllSeparators, SpellingText;
    ReadValued(it.option.name, t, value, it.gap, rest);
    assert ItemText(it) + rest == it.option.name + ("=" + (t + (it.gap + rest)));
  }

  /** However a list of options is spelled, the tokenizer reads what it means. */
  lemma {:induction false} TokenizeSpelled(its: seq<Item>)
    requires ProperItems(its)
    ensures TokenizeOptions(ItemsText(its)) == AllMeant(its)
  {
    hide ReadOption, ProperItem, ItemText, Meant;
    if its != [] {
      var rest := ItemsText(its[1..]);
      ReadItem(its[0], rest);
      TokenizeSpelled(its[1..]);
      assert (ItemText(its[0]) + rest)[|ItemText(its[0])|..] == rest;
    }
  }

  // ---------------------------------------------------------------- every text is spelled

  /** The quoted text that is read, as marks. */
  lemma {:induction false} MarksOf(s: string) returns (ms: seq<Mark>)
    ensures var n := Unquote(s).1; MarksText(ms) == s[..n] && (n < |s| ==> s[n] == '"')
    ensures ProperMarks(ms, Unquote(s).1 < |s|)
    decreases |s|
  {
    ms := [];
    if s == "" || s[0] == '"' {
    } else if s[0] == '\\' && |s| > 1 {
      var more := MarksOf(s[2..]);
      ms := [Escaped(s[1])] + more;
      ConsMark(Escaped(s[1]), more, Unquote(s).1 < |s|);
      assert s[..Unquote(s).1] == ['\\', s[1]] + s[2..][..Unquote(s[2..]).1];
    } else {
      var more := MarksOf(s[1..]);
      ms := [Plain(s[0])] + more;
      if s[0] == '\\' { assert s[1..] == ""; }
      ConsMark(Plain(s[0]), more, Unquote(s).1 < |s|);
      assert s[..Unquote(s).1] == [s[0]] + s[1..][..Unquote(s[1..]).1];
    }
  }

  lemma ConsMark(m: Mark, ms: seq<Mark>, closed: bool)
    requires ProperMarks(ms, closed)
    requires m.Plain? ==> m.c != '"' && (m.c == '\\' ==> !closed && ms == [])
    ensures ProperMarks([m] + ms, closed) && MarksText([m] + ms) == MarkText(m) + MarksText(ms)
  {
    assert ([m] + ms)[1..] == ms;
  }

  lemma {:induction false} SeparatorsOfText(s: string)
    ensures var n := SeparatorLength(s); AllSeparators(s[..n]) && (n < |s| ==> Solid(s[n]))
  {
    if s != "" && !Solid(s[0]) {
      SeparatorsOfText(s[1..]);
      var n := SeparatorLength(s);
      assert forall i :: 1 <= i < n ==> s[i] == s[1..][..n - 1][i - 1];
    }
  }

  /** The separators a text begins with, and the rest. */
  lemma GapOf(s: string) returns (gap: string, rest: string)
    ensures s == gap + rest && AllSeparators(gap) && (rest != "" ==> Solid(rest[0]))
    ensures s != "" && s[0] == ',' ==> gap != ""
  {
    hide Solid, AllSeparators;
    var n := SeparatorLength(s);
    SeparatorsOfText(s);
    gap, rest := s[..n], s[n..];
    if s != "" && s[0] == ',' { CommaIsSeparator(s); }
  }

  /** The name a text begins with, and the rest. */
  lemma NameOfText(s: string) returns (name: string, rest: string)
    ensures s == name + rest && NameChars(name) && (rest != "" ==> rest[0] == ',' || rest[0] == '=')
  {
    var j := NameLength(s);
    name, rest := s[..j], s[j..];
    assert forall i :: 0 <= i < j ==> name[i] == s[i];
  }

  /** The value a text begins with, spelled under a name, and the rest. */
  lemma ValueOf(name: string, v: string) returns (o: Spelling, rest: string)
    requires NameChars(name)
    ensures !o.Named? && o.name == name && SpellingText(o) + rest == name + "=" + v
    ensures match o
            case Named(_) => false
            case Bare(_, value) => Ends(rest) && ',' !in value && (value != "" ==> value[0] != '"')
            case Quoted(_, marks, closed) => ProperMarks(marks, closed) && (!closed ==> rest == "")
  {
    hide Unquote, MarksText, ProperMarks;
    if v != "" && v[0] == '"' {
      var q := v[1..];
      assert v == "\"" + q;
      var ms := MarksOf(q);
      var n := Unquote(q).1;
      var closed := n < |q|;
      o, rest := Quoted(name, ms, closed), if closed then q[n + 1..] else "";
      assert q == MarksText(ms) + (if closed then "\"" else "") + rest;
    } else {
      var n := IndexOf(v, ',');
      o, rest := Bare(name, v[..n]), v[n..];
    }
  }

  /** The option a text begins with, spelled, and the text after it. */
  lemma FirstItem(s: string) returns (it: Item, rest: string)
    requires s != ""
    ensures ProperItem(it, rest) && ItemText(it) + rest == s && |rest| < |s|
  {
    hide ProperMarks, AllSeparators, Solid, NameChars;
    var name, tail := NameOfText(s);
    if tail != "" && tail[0] == '=' {
      var v := tail[1..];
      assert s == name + "=" + v;
      var o, after := ValueOf(name, v);
      var gap, more := GapOf(after);
      it, rest := Item(o, gap), more;
      assert SpellingText(o) + after == s;
      assert |SpellingText(o)| > 0;
    } else {
      var gap, more := GapOf(tail);
      it, rest := Item(Named(name), gap), more;
    }
  }

  lemma CommaIsSeparator(s: string)
    requires s != "" && s[0] == ','
    ensures SeparatorLength(s) > 0
  {
  }

  /** Every text spells some list of options. */
  lemma {:induction false} SpellingOf(s: string) returns (its: seq<Item>)
    ensures ProperItems(its) && ItemsText(its) == s
    decreases |s|
  {
    hide ProperItem, ItemText;
    its := [];
    if s != "" {
      var it, rest := FirstItem(s);
      var more := SpellingOf(rest);
      its := [it] + more;
      assert its[1..] == more;
    }
  }

  /** The tokenizer returns the options the text spells: every text spells exactly one list of them. */
  lemma TokenizeIs(s: string, ts: seq<KeyOption>)
    ensures TokenizeOptions(s) == ts <==> SpellsOptions(s, ts)
  {
    hide ProperItems, ItemsText, AllMeant, TokenizeOptions;
    if TokenizeOptions(s) == ts {
      var its := SpellingOf(s);
      TokenizeSpelled(its);
    }
    if SpellsOptions(s, ts) {
      var its :| ProperItems(its) && ItemsText(its) == s && AllMeant(its) == ts;
      TokenizeSpelled(its);
    }
  }
}
