/** Key lines as a grammar that does not mention the line scanner, and the scanner as its only reading. */
module AuthorizedKeysLines {
  import opened Text
  import opened AuthorizedKeys
  import opened AuthorizedKeysTokens
  import opened AuthorizedKeysScan
  import opened AuthorizedKeysRoundTrip
  import opened AuthorizedKeysGrammar

  // ---------------------------------------------------------------- the grammar

  /** A character outside quotes, or a quoted stretch. */
  datatype Stretch = Out(c: char) | Quote(marks: seq<Mark>)

  /** A word after the first unquoted space, where quotes mean nothing any more, and the spaces before it. */
  datatype Later = Later(spaces: string, word: string)

  /** A key line without its indentation: the key type comes first, or behind option text. */
  datatype Layout =
    | KeyFirst(keytype: string, gap: string, key: string, comment: Option<string>)
    | OptionsFirst(
        front: seq<Stretch>, later: seq<Later>, spaces: string, keytype: string, key: string, comment: Option<string>)

  function StretchText(x: Stretch): string {
    if x.Out? then [x.c] else "\"" + MarksText(x.marks) + "\""
  }

  function FrontText(xs: seq<Stretch>): string {
    if xs == [] then "" else StretchText(xs[0]) + FrontText(xs[1..])
  }

  function LaterText(ws: seq<Later>): string {
    if ws == [] then "" else ws[0].spaces + ws[0].word + LaterText(ws[1..])
  }

  function EndText(key: string, comment: Option<string>): string {
    key + if comment.Some? then " " + comment.value else ""
  }

  function OptionsOf(l: Layout): string {
    if l.KeyFirst? then "" else FrontText(l.front) + LaterText(l.later)
  }

  function LayoutText(l: Layout): string {
    match l
    case KeyFirst(keytype, gap, key, comment) => keytype + " " + gap + EndText(key, comment)
    case OptionsFirst(_, _, spaces, keytype, key, comment) =>
      OptionsOf(l) + spaces + (keytype + " " + EndText(key, comment))
  }

  predicate Spaces(s: string) { s != "" && forall i :: 0 <= i < |s| ==> s[i] == ' ' }

  predicate ProperStretch(x: Stretch) {
    if x.Out? then x.c != '"' && x.c != ' ' else ProperMarks(x.marks, true)
  }

  predicate ProperFront(xs: seq<Stretch>) { forall i :: 0 <= i < |xs| ==> ProperStretch(xs[i]) }

  predicate ProperLater(w: Later) { Spaces(w.spaces) && w.word != "" && ' ' !in w.word && !IsKeytype(w.word) }

  predicate ProperLayout(l: Layout) {
    && IsKeytype(l.keytype) && ' ' !in l.key
    && match l
       case KeyFirst(_, gap, key, _) => Blank(gap) && key != "" && !IsSpace(key[0])
       case OptionsFirst(front, later, spaces, _, _, _) =>
         var text := FrontText(front);
         && ProperFront(front) && text != "" && !IsSpace(text[0]) && !IsKeytype(text)
         && (forall i :: 0 <= i < |later| ==> ProperLater(later[i])) && Spaces(spaces)
  }

  function LayoutFields(l: Layout): Fields {
    Fields(OptionsOf(l), l.keytype, l.key, if l.comment.Some? then l.comment.value else "")
  }

  ghost predicate SpelledAs(line: string, f: Fields, indent: string, l: Layout) {
    Blank(indent) && ProperLayout(l) && line == indent + LayoutText(l) && LayoutFields(l) == f
  }

  /** The line spells the fields, one way or another. */
  ghost predicate SpellsFields(line: string, f: Fields) {
    exists indent, l :: SpelledAs(line, f, indent, l)
  }

  // ---------------------------------------------------------------- reading a spelled line

  lemma {:induction false} ScanMarks(s: string, j: nat, ms: seq<Mark>)
    requires ProperMarks(ms, true) && At(s, j, MarksText(ms)) && j + |MarksText(ms)| < |s|
    ensures ScanForKeytype(s, j, true) == ScanForKeytype(s, j + |MarksText(ms)|, true)
    decreases |ms|
  {
    hide IsKeytype, FieldsAt, SkipSpaces, At, ScanForKeytype;
    if ms != [] {
      var m := MarkText(ms[0]);
      AtAppend(s, j, m, MarksText(ms[1..]));
      AtChar(s, j, m, 0);
      AtFits(s, j, m);
      ScanUnfold(s, j, true);
      MarksStep(ms, true);
      ScanMarks(s, j + |m|, ms[1..]);
    }
  }

  lemma ScanStretch(s: string, j: nat, x: Stretch)
    requires ProperStretch(x) && At(s, j, StretchText(x))
    ensures ScanForKeytype(s, j, false) == ScanForKeytype(s, j + |StretchText(x)|, false)
  {
    hide IsKeytype, FieldsAt, SkipSpaces, At, ScanForKeytype, ProperMarks, MarksText;
    AtFits(s, j, StretchText(x));
    if x.Quote? { ScanQuotes(s, j, x.marks); } else { ScanOut(s, j, x.c); }
  }

  lemma ScanOut(s: string, j: nat, c: char)
    requires c != '"' && c != ' ' && At(s, j, [c])
    ensures j < |s| && ScanForKeytype(s, j, false) == ScanForKeytype(s, j + 1, false)
  {
    AtFits(s, j, [c]);
    hide IsKeytype, FieldsAt, SkipSpaces, At, ScanForKeytype;
    AtChar(s, j, [c], 0);
    ScanUnfold(s, j, false);
  }

  lemma ScanQuotes(s: string, j: nat, marks: seq<Mark>)
    requires ProperMarks(marks, true) && At(s, j, "\"" + MarksText(marks) + "\"")
    ensures j + |MarksText(marks)| + 2 <= |s|
    ensures ScanForKeytype(s, j, false) == ScanForKeytype(s, j + |MarksText(marks)| + 2, false)
  {
    var n := |MarksText(marks)|;
    AtFits(s, j, "\"" + MarksText(marks) + "\"");
    hide IsKeytype, FieldsAt, SkipSpaces, At, ScanForKeytype, ProperMarks, MarksText;
    AtAppend(s, j, "\"" + MarksText(marks), "\"");
    AtAppend(s, j, "\"", MarksText(marks));
    AtChar(s, j, "\"", 0);
    AtChar(s, j + 1 + n, "\"", 0);
    ScanUnfold(s, j, false);
    ScanMarks(s, j + 1, marks);
    ScanUnfold(s, j + 1 + n, true);
  }

  lemma FrontStep(xs: seq<Stretch>)
    requires ProperFront(xs) && xs != []
    ensures ProperStretch(xs[0]) && ProperFront(xs[1..])
    ensures FrontText(xs) == StretchText(xs[0]) + FrontText(xs[1..])
  {
    hide ProperStretch, StretchText;
  }

  lemma {:induction false} ScanFront(s: string, j: nat, xs: seq<Stretch>)
    requires ProperFront(xs) && At(s, j, FrontText(xs))
    ensures j + |FrontText(xs)| <= |s|
    ensures ScanForKeytype(s, j, false) == ScanForKeytype(s, j + |FrontText(xs)|, false)
    decreases |xs|
  {
    hide ProperFront, ProperStretch, StretchText, At, ScanForKeytype, FrontText;
    AtFits(s, j, FrontText(xs));
    if xs == [] {
      NoFront();
    } else {
      FrontStep(xs);
      var x, more := StretchText(xs[0]), FrontText(xs[1..]);
      AtAppend(s, j, x, more);
      AtFits(s, j, x);
      ScanStretch(s, j, xs[0]);
      ScanFront(s, j + |x|, xs[1..]);
    }
  }

  /** A word that is no key type is passed over. */
  lemma ScanLaterWord(s: string, j: nat, w: Later)
    requires ProperLater(w) && At(s, j, w.spaces + w.word)
    requires var m := j + |w.spaces + w.word|; m < |s| ==> s[m] == ' '
    ensures ScanForKeytype(s, j, false) == ScanForKeytype(s, j + |w.spaces + w.word|, false)
  {
    hide IsKeytype, FieldsAt, SkipSpaces, ScanForKeytype, At, IndexOf;
    var k, m := j + |w.spaces|, j + |w.spaces + w.word|;
    AtFits(s, j, w.spaces + w.word);
    AtAppend(s, j, w.spaces, w.word);
    WordAt(s, k, w.word);
    forall i | j <= i < k ensures s[i] == ' ' { AtChar(s, j, w.spaces, i - j); }
    SkipSpacesIs(s, j, k);
    ScanUnfold(s, j, false);
  }

  lemma WordAt(s: string, k: nat, word: string)
    requires At(s, k, word) && word != "" && ' ' !in word
    requires k + |word| <= |s| && (k + |word| < |s| ==> s[k + |word|] == ' ')
    ensures k < |s| && s[k] != ' ' && s[k..k + |word|] == word && IndexOf(s[k..], ' ') == |word|
  {
    forall i | 0 <= i < |word| ensures s[k..][i] != ' ' { assert s[k..][i] == word[i]; assert word[i] in word; }
    IndexOfIs(s[k..], ' ', |word|);
  }

  lemma {:induction false} ScanLater(s: string, j: nat, ws: seq<Later>)
    requires (forall i :: 0 <= i < |ws| ==> ProperLater(ws[i])) && At(s, j, LaterText(ws))
    requires var m := j + |LaterText(ws)|; m < |s| && s[m] == ' '
    ensures ScanForKeytype(s, j, false) == ScanForKeytype(s, j + |LaterText(ws)|, false)
    decreases |ws|
  {
    hide At, ScanForKeytype, IsKeytype;
    if ws != [] {
      var w := ws[0].spaces + ws[0].word;
      AtAppend(s, j, w, LaterText(ws[1..]));
      if |ws| > 1 {
        assert ws[1..][0] == ws[1] && ProperLater(ws[1]);
        AtChar(s, j + |w|, LaterText(ws[1..]), 0);
      }
      ScanLaterWord(s, j, ws[0]);
      ScanLater(s, j + |w|, ws[1..]);
    }
  }

  /** At the spaces before a key type the scanner takes what came before for the option text. */
  lemma ScanFindsSpaced(t: string, spaces: string, p: string)
    requires Spaces(spaces) && IndexOf(p, ' ') < |p| && IsKeytype(Head(p)) && p[0] != ' '
    ensures ScanForKeytype(t + spaces + p, |t|, false) == Some(Fields(t, Head(p), Head(Tail(p)), Tail(Tail(p))))
  {
    hide IsKeytype, Tail, ScanForKeytype, IndexOf, SkipSpaces;
    var s, k := t + spaces + p, |t| + |spaces|;
    var m := k + IndexOf(p, ' ');
    assert s[k..] == p && s[..|t|] == t && s[k..m] == p[..IndexOf(p, ' ')];
    assert forall i :: |t| <= i < k ==> s[i] == spaces[i - |t|];
    assert s[k] == p[0];
    SkipSpacesIs(s, |t|, k);
    ScanStops(s, |t|, k, m);
  }

  /** The key part of a line, as the reader cuts it. */
  lemma KeyEnd(keytype: string, key: string, comment: Option<string>)
    requires IsKeytype(keytype) && ' ' !in key
    ensures var p := keytype + " " + EndText(key, comment);
            && IndexOf(p, ' ') == |keytype| < |p| && Head(p) == keytype && p[0] != ' ' && !IsSpace(p[0])
            && Head(Tail(p)) == key && Tail(Tail(p)) == if comment.Some? then comment.value else ""
    ensures Head(EndText(key, comment)) == key
    ensures Tail(EndText(key, comment)) == if comment.Some? then comment.value else ""
  {
    hide IsKeytype, Head, Tail, IndexOf, IsSpace;
    KeytypePlain(keytype);
    PlainHasNoSpace(keytype);
    var rest := EndText(key, comment);
    HeadTail(keytype, rest);
    assert keytype[0] in keytype;
    if comment.Some? {
      assert rest == key + " " + comment.value;
      HeadTail(key, comment.value);
    } else {
      assert rest == key;
      HeadAlone(key);
    }
  }

  lemma BlankBefore(indent: string, t: string)
    requires Blank(indent) && t != "" && !IsSpace(t[0])
    ensures LStrip(indent + t) == t
  {
    hide IsSpace, LStrip;
    var s, n := indent + t, |indent|;
    assert s[n] == t[0];
    forall i | 0 <= i < n ensures IsSpace(s[i]) { assert s[i] == indent[i]; }
    LStripAt(s, n);
    assert s[n..] == t;
  }

  /** The first space lies behind a quote. */
  predicate QuoteFirst(s: string) {
    var i := IndexOf(s, ' ');
    i < |s| && '"' in s[..i]
  }

  lemma OutFirst(c: char, s: string)
    requires c != ' '
    ensures IndexOf([c] + s, ' ') == 1 + IndexOf(s, ' ')
    ensures QuoteFirst(s) ==> QuoteFirst([c] + s)
  {
    var t, i := [c] + s, IndexOf(s, ' ');
    assert t[1..] == s;
    assert t[..1 + i] == [c] + s[..i];
  }

  lemma SpaceAfter(a: string, rest: string)
    requires a != "" && a[0] == '"' && rest != "" && rest[0] == ' '
    ensures QuoteFirst(a + rest)
  {
    var s := a + rest;
    var i := IndexOf(s, ' ');
    assert s[|a|] == ' ';
    assert s[..i][0] == '"';
  }

  /** Up to its first space, a line has a quote, or is the front it begins with. */
  lemma {:induction false} FirstSpace(xs: seq<Stretch>, rest: string)
    requires ProperFront(xs) && rest != "" && rest[0] == ' '
    ensures var s := FrontText(xs) + rest; QuoteFirst(s) || IndexOf(s, ' ') == |FrontText(xs)|
  {
    hide ProperMarks, MarksText, QuoteFirst, ProperFront, FrontText;
    if xs == [] {
      NoFront();
      assert FrontText(xs) + rest == rest;
    } else {
      FrontStep(xs);
      FirstSpace(xs[1..], rest);
      var more := FrontText(xs[1..]) + rest;
      assert FrontText(xs) + rest == StretchText(xs[0]) + more;
      if xs[0].Quote? {
        SpaceAfter(FrontText(xs), rest);
      } else {
        OutFirst(xs[0].c, more);
      }
    }
  }

  /** The scanner passes over the option text and stops at the spaces after it. */
  lemma ScanLayout(l: Layout)
    requires ProperLayout(l) && l.OptionsFirst?
    ensures ScanForKeytype(LayoutText(l), 0, false) == Some(LayoutFields(l))
  {
    hide IsKeytype, IsSpace, ScanForKeytype, Head, Tail, IndexOf, EndText, ProperFront, ProperLater, FrontText,
      LaterText;
    var front, later, o := FrontText(l.front), LaterText(l.later), OptionsOf(l);
    var p := l.keytype + " " + EndText(l.key, l.comment);
    var t := o + l.spaces + p;
    KeyEnd(l.keytype, l.key, l.comment);
    assert At(t, 0, front);
    ScanFront(t, 0, l.front);
    assert At(t, |front|, later);
    assert t[|o|] == l.spaces[0];
    ScanLater(t, |front|, l.later);
    ScanFindsSpaced(o, l.spaces, p);
  }

  /** A line with options does not begin with a key type. */
  lemma LayoutStarts(l: Layout)
    requires ProperLayout(l) && l.OptionsFirst?
    ensures var t := LayoutText(l);
            t != "" && !IsSpace(t[0]) && IndexOf(t, ' ') < |t| && !IsKeytype(t[..IndexOf(t, ' ')])
  {
    hide IsKeytype, IsSpace, Head, Tail, IndexOf, EndText, ProperFront, ProperLater, FrontText, LaterText;
    var front, later := FrontText(l.front), LaterText(l.later);
    var t := LayoutText(l);
    var rest := later + l.spaces + (l.keytype + " " + EndText(l.key, l.comment));
    assert t == front + rest;
    assert t[0] == front[0] && t[..|front|] == front;
    assert rest[0] == ' ' by {
      if l.later == [] { NoLater(l.later); } else { LaterStarts(l.later); }
    }
    FirstSpace(l.front, rest);
    var i := IndexOf(t, ' ');
    if IsKeytype(t[..i]) {
      KeytypePlain(t[..i]);
      PlainHasNoSpace(t[..i]);
      assert false;
    }
  }

  lemma NoLater(ws: seq<Later>)
    requires ws == []
    ensures LaterText(ws) == ""
  {
  }

  lemma LaterStarts(ws: seq<Later>)
    requires ws != [] && ProperLater(ws[0])
    ensures LaterText(ws) != "" && LaterText(ws)[0] == ' '
  {
    hide IsKeytype;
  }

  lemma SplitKeyFirst(l: Layout)
    requires ProperLayout(l) && l.KeyFirst?
    ensures var t := LayoutText(l); t != "" && !IsSpace(t[0]) && SplitLine(t) == Some(LayoutFields(l))
  {
    hide IsKeytype, IsSpace, ScanForKeytype, Head, Tail, IndexOf, EndText, LStrip;
    var t, rest := LayoutText(l), l.gap + EndText(l.key, l.comment);
    KeyEnd(l.keytype, l.key, l.comment);
    assert t == l.keytype + " " + rest;
    KeytypePlain(l.keytype);
    PlainHasNoSpace(l.keytype);
    assert t[0] == l.keytype[0];
    LStripKeeps(t);
    HeadTail(l.keytype, rest);
    HeadTailDef(t);
    EndStarts(l.key, l.comment);
    BlankBefore(l.gap, EndText(l.key, l.comment));
  }

  /** However a key line is spelled, the reader finds its fields. */
  lemma SplitSpelled(line: string, f: Fields, indent: string, l: Layout)
    requires SpelledAs(line, f, indent, l)
    ensures SplitLine(line) == Some(f)
  {
    hide IsKeytype, IsSpace, ScanForKeytype, IndexOf, LStrip, Blank, LayoutText, ProperLayout, LayoutFields, SplitLine;
    var t := LayoutText(l);
    if l.OptionsFirst? {
      LayoutStarts(l);
      ScanLayout(l);
      HeadTailDef(t);
      SplitScans(t);
    } else {
      SplitKeyFirst(l);
    }
    BlankBefore(indent, t);
    SplitStripped(line);
  }

  lemma EndStarts(key: string, comment: Option<string>)
    requires key != ""
    ensures EndText(key, comment) != "" && EndText(key, comment)[0] == key[0]
  {
  }

  // ---------------------------------------------------------------- every line that is read is spelled

  /** The text of a quoted stretch that the scanner leaves again, as marks. */
  lemma {:induction false} QuoteAt(s: string, j: nat) returns (ms: seq<Mark>, k: nat)
    requires j <= |s| && ScanForKeytype(s, j, true).Some?
    ensures j <= k < |s| && s[j..k] == MarksText(ms) && s[k] == '"' && ProperMarks(ms, true)
    ensures ScanForKeytype(s, j, true) == ScanForKeytype(s, k + 1, false)
    decreases |s| - j
  {
    hide IsKeytype, FieldsAt, SkipSpaces, ScanForKeytype;
    ScanEnds(s, true);
    ScanUnfold(s, j, true);
    if s[j] == '"' {
      ms, k := [], j;
    } else if s[j] == '\\' && j + 1 < |s| {
      var more, end := QuoteAt(s, j + 2);
      ms, k := [Escaped(s[j + 1])] + more, end;
      ConsMark(Escaped(s[j + 1]), more, true);
      assert s[j..k] == ['\\', s[j + 1]] + s[j + 2..k];
    } else {
      if s[j] == '\\' { ScanEnds(s, true); }
      var more, end := QuoteAt(s, j + 1);
      ms, k := [Plain(s[j])] + more, end;
      ConsMark(Plain(s[j]), more, true);
      assert s[j..k] == [s[j]] + s[j + 1..k];
    }
  }

  /** A stretch in front of the stretches after it. */
  lemma ConsFront(s: string, j: nat, i: nat, k: nat, x: Stretch, xs: seq<Stretch>)
    requires j <= i <= k <= |s| && s[j..i] == StretchText(x) && s[i..k] == FrontText(xs)
    requires ProperStretch(x) && ProperFront(xs)
    ensures ProperFront([x] + xs) && s[j..k] == FrontText([x] + xs)
  {
    hide ProperStretch, StretchText;
    assert ([x] + xs)[1..] == xs;
    assert s[j..k] == s[j..i] + s[i..k];
  }

  /** The option text up to its first unquoted space. */
  lemma {:induction false} FrontAt(s: string, j: nat) returns (xs: seq<Stretch>, k: nat)
    requires j <= |s| && ScanForKeytype(s, j, false).Some?
    ensures j <= k < |s| && s[j..k] == FrontText(xs) && s[k] == ' ' && ProperFront(xs)
    ensures ScanForKeytype(s, j, false) == ScanForKeytype(s, k, false)
    decreases |s| - j
  {
    hide IsKeytype, FieldsAt, SkipSpaces, ScanForKeytype, ProperMarks, ProperFront, FrontText;
    ScanEnds(s, false);
    ScanUnfold(s, j, false);
    if s[j] == ' ' {
      xs, k := [], j;
      NoFront();
    } else if s[j] == '"' {
      var ms, q := QuoteAt(s, j + 1);
      var more, end := FrontAt(s, q + 1);
      QuoteSlice(s, j, q);
      ConsFront(s, j, q + 1, end, Quote(ms), more);
      xs, k := [Quote(ms)] + more, end;
    } else {
      var more, end := FrontAt(s, j + 1);
      ConsFront(s, j, j + 1, end, Out(s[j]), more);
      xs, k := [Out(s[j])] + more, end;
    }
  }

  lemma QuoteSlice(s: string, j: nat, q: nat)
    requires j < q < |s| && s[j] == '"' && s[q] == '"'
    ensures s[j..q + 1] == "\"" + s[j + 1..q] + "\""
  {
    assert s[j..j + 1] == "\"" && s[q..q + 1] == "\"";
    assert s[j..q + 1] == s[j..j + 1] + s[j + 1..q] + s[q..q + 1];
  }

  lemma NoFront()
    ensures ProperFront([]) && FrontText([]) == ""
  {
  }

  /** A word in front of the words after it. */
  lemma ConsLater(s: string, j: nat, k: nat, m: nat, n: nat, ws: seq<Later>)
    requires j <= k <= m <= n <= |s| && s[m..n] == LaterText(ws)
    requires ProperLater(Later(s[j..k], s[k..m])) && forall i :: 0 <= i < |ws| ==> ProperLater(ws[i])
    ensures var all := [Later(s[j..k], s[k..m])] + ws;
            (forall i :: 0 <= i < |all| ==> ProperLater(all[i])) && s[j..n] == LaterText(all)
  {
    hide ProperLater;
    var w := Later(s[j..k], s[k..m]);
    assert ([w] + ws)[1..] == ws;
    assert s[j..n] == w.spaces + w.word + s[m..n];
  }

  /** The words up to the key type, and the spaces before it. */
  lemma {:induction false} LaterAt(s: string, j: nat) returns (ws: seq<Later>, n: nat, k: nat)
    requires j < |s| && s[j] == ' ' && ScanForKeytype(s, j, false).Some?
    ensures j <= n < k <= |s| && s[j..n] == LaterText(ws) && Spaces(s[n..k])
    ensures forall i :: 0 <= i < |ws| ==> ProperLater(ws[i])
    ensures IsKeytype(s[k..k + IndexOf(s[k..], ' ')]) && ScanForKeytype(s, j, false) == FieldsAt(s, n, k)
    decreases |s| - j
  {
    hide IsKeytype, FieldsAt, ScanForKeytype, IndexOf, SkipSpaces, LaterText;
    ScanUnfold(s, j, false);
    k := SkipSpaces(s, j);
    var m := k + IndexOf(s[k..], ' ');
    assert Spaces(s[j..k]);
    if IsKeytype(s[k..m]) {
      ws, n := [], j;
      NoLater(ws);
    } else {
      ScanEnds(s, false);
      SkipSpacesStops(s, j);
      assert m < |s| && s[k..][m - k] == ' ';
      assert k < m;
      var w := Later(s[j..k], s[k..m]);
      assert ' ' !in w.word by { assert forall i :: 0 <= i < m - k ==> w.word[i] == s[k..][i]; }
      var more, end, key := LaterAt(s, m);
      ConsLater(s, j, k, m, end, more);
      ws, n, k := [w] + more, end, key;
    }
  }

  /** A text cut at its first two spaces. */
  lemma CutKey(rest: string) returns (key: string, comment: Option<string>)
    ensures ' ' !in key && rest == EndText(key, comment) && key == Head(rest)
    ensures Tail(rest) == if comment.Some? then comment.value else ""
  {
    var i := IndexOf(rest, ' ');
    key, comment := rest[..i], if i < |rest| then Some(rest[i + 1..]) else None;
  }

  lemma CutKeytype(p: string)
    requires IndexOf(p, ' ') < |p|
    ensures p == Head(p) + " " + Tail(p)
  {
    hide IndexOf;
    SpaceThere(p);
    CutAt(p, IndexOf(p, ' '));
  }

  lemma CutAt(p: string, i: nat)
    requires i < |p| && p[i] == ' '
    ensures p == p[..i] + " " + p[i + 1..]
  {
    assert p[i..i + 1] == " ";
    assert p == p[..i] + p[i..i + 1] + p[i + 1..];
  }

  lemma SpaceThere(p: string)
    ensures var i := IndexOf(p, ' '); i < |p| ==> p[i] == ' '
  {
  }

  lemma FieldsThere(s: string, n: nat, k: nat)
    requires n <= k <= |s| && FieldsAt(s, n, k).Some?
    ensures IndexOf(s[k..], ' ') < |s[k..]|
    ensures var p := s[k..]; FieldsAt(s, n, k) == Some(Fields(s[..n], Head(p), Head(Tail(p)), Tail(Tail(p))))
  {
    hide IndexOf, Head, Tail;
  }

  lemma LayoutOfScan(s: string) returns (l: Layout)
    requires s != "" && !IsSpace(s[0]) && !IsKeytype(s[..IndexOf(s, ' ')]) && ScanForKeytype(s, 0, false).Some?
    ensures ProperLayout(l) && s == LayoutText(l) && ScanForKeytype(s, 0, false) == Some(LayoutFields(l))
  {
    hide IsKeytype, FieldsAt, ScanForKeytype, IndexOf, IsSpace, EndText, FrontText, LaterText, ProperFront, ProperLater,
      Head, Tail;
    var front, j := FrontAt(s, 0);
    var later, n, k := LaterAt(s, j);
    var p := s[k..];
    FieldsThere(s, n, k);
    CutKeytype(p);
    HeadTailDef(p);
    var key, comment := CutKey(Tail(p));
    l := OptionsFirst(front, later, s[n..k], Head(p), key, comment);
    SliceInFour(s, j, n, k);
    assert s[k..k + IndexOf(p, ' ')] == p[..IndexOf(p, ' ')];
    SpaceIsSpace();
    assert j > 0;
    if IsKeytype(s[..j]) { KeytypeFront(s, j); }
  }

  lemma SliceInFour(s: string, j: nat, n: nat, k: nat)
    requires j <= n <= k <= |s|
    ensures s[..j] == s[0..j] && s[..n] == s[..j] + s[j..n] && s == s[..n] + s[n..k] + s[k..]
  {
  }

  lemma KeytypeFront(s: string, j: nat)
    requires j < |s| && s[j] == ' ' && IsKeytype(s[..j])
    ensures IndexOf(s, ' ') == j
  {
    hide IsKeytype;
    KeytypePlain(s[..j]);
    PlainHasNoSpace(s[..j]);
    assert forall i :: 0 <= i < j ==> s[..j][i] == s[i];
    IndexOfIs(s, ' ', j);
  }

  /** A line that starts with a key type and is read. */
  lemma LayoutOfKey(s: string) returns (l: Layout)
    requires IsKeytype(s[..IndexOf(s, ' ')]) && IndexOf(s, ' ') < |s| && Head(LStrip(Tail(s))) != ""
    ensures ProperLayout(l) && s == LayoutText(l)
    ensures var rest := LStrip(Tail(s)); LayoutFields(l) == Fields("", Head(s), Head(rest), Tail(rest))
  {
    hide IsKeytype, IndexOf, IsSpace, LStrip, EndText, Head, Tail;
    var tail := Tail(s);
    var rest := LStrip(tail);
    var gap := tail[..|tail| - |rest|];
    CutKeytype(s);
    HeadTailDef(s);
    var key, comment := CutKey(rest);
    EndOf(rest, key, comment);
    l := KeyFirst(Head(s), gap, key, comment);
    assert tail == gap + rest;
    assert LayoutText(l) == Head(s) + " " + gap + rest;
  }

  /** A line that is read is spelled. */
  lemma LayoutOf(line: string) returns (indent: string, l: Layout)
    requires SplitLine(line).Some?
    ensures SpelledAs(line, SplitLine(line).value, indent, l)
  {
    hide IsKeytype, ScanForKeytype, IndexOf, IsSpace, LStrip, Head, Tail, LayoutFields, LayoutText, ProperLayout;
    var s := LStrip(line);
    indent := line[..|line| - |s|];
    assert line == indent + s && Blank(indent);
    HeadTailDef(s);
    if IsKeytype(s[..IndexOf(s, ' ')]) {
      l := LayoutOfKey(s);
    } else {
      l := LayoutOfScan(s);
    }
  }

  lemma EndOf(rest: string, key: string, comment: Option<string>)
    requires rest == EndText(key, comment) && key != ""
    ensures rest != "" && rest[0] == key[0]
  {
  }

  /** The line reader returns the fields a line spells, and a line spells one set of fields at most. */
  lemma SplitLineIs(line: string, f: Fields)
    ensures SplitLine(line) == Some(f) <==> SpellsFields(line, f)
  {
    hide SplitLine, SpelledAs;
    if SplitLine(line) == Some(f) {
      var indent, l := LayoutOf(line);
    }
    if SpellsFields(line, f) {
      var indent, l :| SpelledAs(line, f, indent, l);
      SplitSpelled(line, f, indent, l);
    }
  }

  // ---------------------------------------------------------------- whole lines

  /** The first character that is no whitespace is a `#`. */
  ghost predicate Commented(line: string) {
    exists a :: 0 <= a < |line| && line[a] == '#' && Blank(line[..a])
  }

  /** The line without its `#`, and without the whitespace around that and at its end. */
  ghost predicate Uncommented(line: string, body: string) {
    && body != "" && !IsSpace(body[|body| - 1])
    && exists indent, trail :: Blank(indent) && Blank(trail) && line == indent + "#" + body + trail
  }

  /** The line is a key line with these fields: as it stands, or disabled behind a `#`. */
  ghost predicate SpellsKeyLine(line: string, off: bool, f: Fields) {
    if off then exists body :: Uncommented(line, body) && SpellsFields(body, f)
    else !Commented(line) && SpellsFields(line, f)
  }

  lemma StripStart(line: string)
    ensures Commented(line) <==> Strip(line) != "" && Strip(line)[0] == '#'
  {
    hide IsSpace, Strip;
    HashIsNoSpace();
    if Strip(line) != "" {
      var a, b := StripBounds(line);
      assert Strip(line)[0] == line[a];
      assert Blank(line[..a]);
      if Commented(line) {
        var c :| 0 <= c < |line| && line[c] == '#' && Blank(line[..c]);
        FirstText(line, a, c);
      }
    } else if Commented(line) {
      var c :| 0 <= c < |line| && line[c] == '#' && Blank(line[..c]);
      StripOfText(line, c);
    }
  }

  lemma FirstText(s: string, a: nat, c: nat)
    requires a < |s| && c < |s| && !IsSpace(s[a]) && !IsSpace(s[c]) && Blank(s[..a]) && Blank(s[..c])
    ensures a == c
  {
    hide IsSpace;
    assert forall i :: 0 <= i < a ==> IsSpace(s[..a][i]) ==> IsSpace(s[i]);
    assert forall i :: 0 <= i < c ==> IsSpace(s[..c][i]) ==> IsSpace(s[i]);
  }

  lemma StripOfText(s: string, i: nat)
    requires i < |s| && !IsSpace(s[i])
    ensures Strip(s) != ""
  {
    hide IsSpace, LStrip, RStrip;
    var l := LStrip(s);
    var a := |s| - |l|;
    assert a <= i && l[i - a] == s[i];
    var r := RStrip(l);
    assert i - a < |r|;
  }

  /** What is behind the `#` of a stripped line. */
  lemma UncommentedIs(line: string, body: string)
    requires Uncommented(line, body)
    ensures Strip(line) == "#" + body
  {
    hide IsSpace, Strip;
    var indent, trail :| Blank(indent) && Blank(trail) && line == indent + "#" + body + trail;
    HashIsNoSpace();
    var a, b := |indent|, |indent| + 1 + |body|;
    assert line[a] == '#' && line[b - 1] == body[|body| - 1];
    forall i | 0 <= i < a || b <= i < |line| ensures IsSpace(line[i]) {
      if i < a { assert line[i] == indent[i]; } else { assert line[i] == trail[i - b]; }
    }
    StripAt(line, a, b);
    assert line[a..b] == "#" + body;
  }

  lemma UncommentedOf(line: string) returns (body: string)
    requires Strip(line) != "" && Strip(line)[0] == '#' && Strip(line)[1..] != ""
    ensures body == Strip(line)[1..] && Uncommented(line, body)
  {
    hide IsSpace, Strip;
    var s := Strip(line);
    body := s[1..];
    var a, b := StripBounds(line);
    assert body[|body| - 1] == s[|s| - 1] == line[b - 1];
    var indent, trail := line[..a], line[b..];
    assert line == indent + "#" + body + trail by {
      assert s == ['#'] + body;
      assert line == line[..a] + line[a..b] + line[b..];
    }
    assert Blank(indent) && Blank(trail);
  }

  lemma EntryOfIs(line: string, off: bool, f: Fields, ts: seq<KeyOption>)
    requires ts == TokenizeOptions(f.options)
    ensures EntryOf(line, off, f)
      == Entry(line, off, KnownOptions(ts), UnknownOptions(ts), f.keytype, f.key, f.comment, false)
  {
  }

  /** A line is taken for a key line, enabled or disabled, exactly when it spells one. */
  lemma FieldsOfIs(line: string, off: bool, f: Fields)
    ensures ParseLine(line) == KeyLine(EntryOf(line, off, f)) && FieldsOf(line) == Some(f)
            <==> SpellsKeyLine(line, off, f)
  {
    hide IsSpace, SplitLine, Strip, LStrip, Commented, Uncommented, SpellsFields, TokenizeOptions;
    StripStart(line);
    var s := Strip(line);
    SplitLineIs(line, f);
    EntryOfDisabled(line, f);
    if s != "" && s[0] == '#' {
      SplitStripped(s[1..]);
      SplitLineIs(s[1..], f);
      if off {
        if SplitLine(s[1..]) == Some(f) {
          SplitNonEmpty(s[1..]);
          var body := UncommentedOf(line);
        }
        if SpellsKeyLine(line, off, f) {
          var body :| Uncommented(line, body) && SpellsFields(body, f);
          UncommentedIs(line, body);
          assert s[1..] == body;
        }
      }
    } else {
      if off && SpellsKeyLine(line, off, f) {
        var body :| Uncommented(line, body) && SpellsFields(body, f);
        UncommentedIs(line, body);
      }
      if !off && SplitLine(line) == Some(f) { TextOfKeyLine(line); }
    }
  }

  /** A line with fields is not blank. */
  lemma TextOfKeyLine(line: string)
    requires SplitLine(line).Some?
    ensures Strip(line) != ""
  {
    hide IsSpace, Strip, IsKeytype, ScanForKeytype, Head, Tail, IndexOf;
    var l := LStrip(line);
    if l == "" {
      EmptyHasNoSpace();
    } else {
      assert l[0] == line[|line| - |l|];
      StripOfText(line, |line| - |l|);
    }
  }

  lemma EmptyHasNoSpace()
    ensures IndexOf("", ' ') == 0
  {
  }

  /** The line, its fields and its options are spelled like this. */
  ghost predicate SpellsEntry(line: string, e: Entry, f: Fields, ts: seq<KeyOption>) {
    && SpellsKeyLine(line, e.disabled, f) && SpellsOptions(f.options, ts)
    && e == Entry(line, e.disabled, KnownOptions(ts), UnknownOptions(ts), f.keytype, f.key, f.comment, false)
  }

  /**
   * The reader takes a line for the entry it spells, and for plain text exactly when it spells none:
   * indentation, repeated spaces, a `#` without a space after it, and bare option values included.
   */
  lemma ParseLineIs(line: string, e: Entry)
    ensures ParseLine(line) == KeyLine(e) <==> exists f, ts :: SpellsEntry(line, e, f, ts)
    ensures ParseLine(line) == Passthrough(line)
            <==> !exists off, f :: SpellsKeyLine(line, off, f)
  {
    hide ParseLine, FieldsOf, SpellsKeyLine, SpellsOptions, TokenizeOptions, KnownOptions, UnknownOptions;
    forall off, f | SpellsKeyLine(line, off, f) ensures ParseLine(line) == KeyLine(EntryOf(line, off, f)) {
      FieldsOfIs(line, off, f);
    }
    if exists f, ts :: SpellsEntry(line, e, f, ts) {
      var f, ts :| SpellsEntry(line, e, f, ts);
      FieldsOfIs(line, e.disabled, f);
      TokenizeIs(f.options, ts);
      EntryOfIs(line, e.disabled, f, ts);
    }
    if ParseLine(line).KeyLine? {
      FieldsOfFacts(line);
      var read, f := ParseLine(line).entry, FieldsOf(line).value;
      var ts := TokenizeOptions(f.options);
      FieldsOfIs(line, read.disabled, f);
      TokenizeIs(f.options, ts);
      EntryOfIs(line, read.disabled, f, ts);
      assert SpellsEntry(line, read, f, ts);
    } else {
      PassedOn(line);
    }
  }

  lemma PassedOn(line: string)
    ensures ParseLine(line).Passthrough? ==> ParseLine(line) == Passthrough(line)
  {
    hide Strip, SplitLine, EntryOf;
  }
}
