/** Merge import of SSH hosts: the names a file declares, which stanzas are new, and the headers that are rebuilt. */
module HostMerge {
  import opened Text
  import opened SshConfig

  // ---------------------------------------------------------------- names in a file

  function LineNames(line: string): set<string> {
    if Keyword(line) == "host" then SetOf(HostPatterns(line)) else {}
  }

  /** Every Host pattern that some line of the file declares. */
  function HostNames(lines: seq<string>): set<string> {
    if lines == [] then {} else LineNames(lines[0]) + HostNames(lines[1..])
  }

  function TextNames(text: string): set<string> { HostNames(SplitLines(text)) }

  /** The names as the program collects them, stanza by stanza. */
  function StanzaNames(ss: seq<Stanza>): set<string> {
    if ss == [] then {}
    else (if ss[0].kind == Host then SetOf(ss[0].patterns) else {}) + StanzaNames(ss[1..])
  }

  lemma {:induction false} HostNamesAppend(a: seq<string>, b: seq<string>)
    ensures HostNames(a + b) == HostNames(a) + HostNames(b)
  {
    hide LineNames;
    if a == [] {
      assert a + b == b;
    } else {
      HostNamesAppend(a[1..], b);
      assert (a + b)[0] == a[0] && (a + b)[1..] == a[1..] + b;
    }
  }

  lemma {:induction false} NoHeaderNoNames(lines: seq<string>)
    requires forall i :: 0 <= i < |lines| ==> !IsHeader(lines[i])
    ensures HostNames(lines) == {}
  {
    if lines != [] { NoHeaderNoNames(lines[1..]); }
  }

  lemma BlockNames(s: Stanza)
    requires WellHeaded(s)
    ensures HostNames(s.block) == if s.kind == Host then SetOf(s.patterns) else {}
  {
    hide Keyword, HostPatterns;
    NoHeaderNoNames(s.block[1..]);
    assert s.block == [s.block[0]] + s.block[1..];
  }

  lemma {:induction false} StanzaNamesAreHostNames(ss: seq<Stanza>)
    requires forall i :: 0 <= i < |ss| ==> WellHeaded(ss[i])
    ensures StanzaNames(ss) == HostNames(Flatten(ss))
  {
    hide WellHeaded;
    if ss != [] {
      BlockNames(ss[0]);
      StanzaNamesAreHostNames(ss[1..]);
      HostNamesAppend(ss[0].block, Flatten(ss[1..]));
    }
  }

  /** Collecting patterns over stanzas finds exactly the patterns of the Host lines. */
  lemma NamesOfStanzas(lines: seq<string>)
    ensures StanzaNames(Stanzas(lines)) == HostNames(lines)
  {
    hide WellHeaded;
    StanzasPartition(lines);
    StanzaNamesAreHostNames(Stanzas(lines));
  }

  // ---------------------------------------------------------------- choosing stanzas

  predicate IsWildcard(p: string) { '*' in p || '?' in p || '!' in p }

  function Concrete(ps: seq<string>): (r: seq<string>)
    ensures forall p :: p in r <==> p in ps && !IsWildcard(p)
  {
    if ps == [] then [] else (if IsWildcard(ps[0]) then [] else [ps[0]]) + Concrete(ps[1..])
  }

  function Having(ps: seq<string>, names: set<string>): (r: seq<string>)
    ensures forall p :: p in r <==> p in ps && p in names
  {
    if ps == [] then [] else (if ps[0] in names then [ps[0]] else []) + Having(ps[1..], names)
  }

  function Lacking(ps: seq<string>, names: set<string>): (r: seq<string>)
    ensures forall p :: p in r <==> p in ps && p !in names
  {
    if ps == [] then [] else (if ps[0] !in names then [ps[0]] else []) + Lacking(ps[1..], names)
  }

  predicate HasContent(block: seq<string>) {
    exists i :: 0 <= i < |block| && Strip(block[i]) != "" && Strip(block[i])[0] != '#'
  }

  function Indent(line: string): string { line[..|line| - |LStrip(line)|] }

  function RebuiltHeader(line: string, names: seq<string>): string {
    Indent(line) + "Host " + Join(" ", names)
  }

  /** What the merge does with one imported stanza. */
  datatype Outcome =
    | Skipped
    | Dropped
    | Kept(text: string)
    | Rebuilt(text: string, patterns: seq<string>)

  function Choose(s: Stanza, existing: set<string>): Outcome {
    if s.kind != Host || s.patterns == [] then (if HasContent(s.block) then Dropped else Skipped)
    else
      var concrete := Concrete(s.patterns);
      var unseen := Lacking(concrete, existing);
      if concrete == [] then Dropped
      else if Having(concrete, existing) == [] then Kept(RStrip(Join("\n", s.block)))
      else if unseen != [] && s.block != [] then
        Rebuilt(RStrip(Join("\n", [RebuiltHeader(s.block[0], unseen)] + s.block[1..])), s.patterns)
      else Skipped
  }

  function ChooseAll(ss: seq<Stanza>, existing: set<string>): (r: seq<Outcome>)
    ensures |r| == |ss| && forall i :: 0 <= i < |ss| ==> r[i] == Choose(ss[i], existing)
  {
    if ss == [] then [] else [Choose(ss[0], existing)] + ChooseAll(ss[1..], existing)
  }

  /** The stanzas of all imported files, in order. */
  function Imported(texts: seq<string>): seq<Stanza> {
    if texts == [] then [] else Stanzas(SplitLines(texts[0])) + Imported(texts[1..])
  }

  function KeptTexts(os: seq<Outcome>): seq<string> {
    if os == [] then []
    else (if os[0].Kept? || os[0].Rebuilt? then [os[0].text] else []) + KeptTexts(os[1..])
  }

  function DroppedCount(os: seq<Outcome>): nat {
    if os == [] then 0 else (if os[0].Dropped? then 1 else 0) + DroppedCount(os[1..])
  }

  function Collisions(os: seq<Outcome>): seq<seq<string>> {
    if os == [] then []
    else (if os[0].Rebuilt? then [os[0].patterns] else []) + Collisions(os[1..])
  }

  datatype Selection = Selection(text: string, dropped: nat, collisions: seq<seq<string>>)

  function Select(texts: seq<string>, existing: set<string>): Selection {
    var os := ChooseAll(Imported(texts), existing);
    Selection(Join("\n\n", KeptTexts(os)), DroppedCount(os), Collisions(os))
  }

  function Title(): string { "# SSH hosts imported by sshPilot" }

  /** The fragment file after an import that found new hosts. */
  function FragmentBody(fragment: string, added: string): string {
    if fragment != "" then
      (if EndsWithNewline(fragment) then fragment else fragment + "\n") + "\n" + added + "\n"
    else Title() + "\n\n" + added + "\n"
  }

  /** The fragment file, taken apart at its newlines. */
  lemma BodyShape(fragment: string, added: string) returns (head: string)
    ensures FragmentBody(fragment, added) == head + "\n" + (added + "\n" + "")
    ensures if fragment == "" then head == Title() + "\n" + ""
            else head == fragment || head == fragment + "\n" + ""
  {
    hide Title;
    var last := added + "\n" + "";
    if fragment == "" {
      head := Title() + "\n" + "";
      assert FragmentBody(fragment, added) == head + "\n" + last;
    } else if EndsWithNewline(fragment) {
      head := fragment;
      assert FragmentBody(fragment, added) == head + "\n" + last;
    } else {
      head := fragment + "\n" + "";
      assert FragmentBody(fragment, added) == head + "\n" + last;
    }
  }

  // ---------------------------------------------------------------- names of a composed text

  lemma {:induction false} SplitLinesAfterNewline(x: string, y: string)
    ensures SplitLines(x + "\n" + y) == SplitLines(x + "\n") + SplitLines(y)
    ensures SplitLines(x + "\n") == SplitLines(x) || SplitLines(x + "\n") == SplitLines(x) + [""]
    decreases |x|
  {
    var n := LineLength(x);
    if n == |x| {
      assert x == x[..n];
      SplitLinesStep(x, y);
      SplitLinesStep(x, "");
      assert x + "\n" + "" == x + "\n";
      if x != "" { SplitLinesOne(x); }
    } else {
      SplitAtBreak(x, y, n);
    }
  }

  /** A CR at the end of `x` and an LF at the start of `z` form one break. */
  predicate Fuses(x: string, z: string) {
    x != "" && x[|x| - 1] == '\r' && z != "" && z[0] == '\n'
  }

  lemma {:induction false} LineLengthOfAppend(x: string, z: string)
    requires LineLength(x) < |x|
    ensures LineLength(x + z) == LineLength(x) && (x + z)[..LineLength(x)] == x[..LineLength(x)]
  {
    hide IsLineBreak;
    var n := LineLength(x);
    assert forall i :: 0 <= i <= n ==> (x + z)[i] == x[i];
    assert (x + z)[..n] == x[..n];
    LineLengthIs(x + z, n);
  }

  lemma {:induction false} BreakOfAppend(x: string, z: string, n: nat)
    requires n < |x|
    ensures if n + 1 == |x| && Fuses(x, z) then
              BreakLength(x + z, n) == 2 && (x + z)[n + 2..] == z[1..] && x[n + BreakLength(x, n)..] == ""
            else
              BreakLength(x + z, n) == BreakLength(x, n)
              && (x + z)[n + BreakLength(x, n)..] == x[n + BreakLength(x, n)..] + z
  {
    assert (x + z)[n] == x[n];
    if n + 1 < |x| { assert (x + z)[n + 1] == x[n + 1]; }
    else if z != "" { assert (x + z)[n + 1] == z[0]; }
  }

  lemma {:induction false} SplitOfAppend(x: string, z: string)
    requires LineLength(x) < |x|
    ensures var n := LineLength(x);
            var tail := x[n + BreakLength(x, n)..];
            && SplitLines(x) == [x[..n]] + SplitLines(tail)
            && SplitLines(x + z) == [x[..n]]
              + (if n + 1 == |x| && Fuses(x, z) then SplitLines(z[1..]) else SplitLines(tail + z))
  {
    hide LineLength, BreakLength, Fuses, SplitLines;
    LineLengthOfAppend(x, z);
    BreakOfAppend(x, z, LineLength(x));
    SplitUnfold(x);
    SplitUnfold(x + z);
  }

  lemma {:induction false} SplitUnfold(s: string)
    requires LineLength(s) < |s|
    ensures SplitLines(s) == [s[..LineLength(s)]] + SplitLines(s[LineLength(s) + BreakLength(s, LineLength(s))..])
  {
    hide LineLength, BreakLength;
  }

  lemma {:induction false} SplitAtBreak(x: string, y: string, n: nat)
    requires n < |x| && n == LineLength(x)
    ensures SplitLines(x + "\n" + y) == SplitLines(x + "\n") + SplitLines(y)
    ensures SplitLines(x + "\n") == SplitLines(x) || SplitLines(x + "\n") == SplitLines(x) + [""]
    decreases |x|, 0
  {
    hide LineLength, BreakLength, SplitLines;
    var first, tail := [x[..n]], x[n + BreakLength(x, n)..];
    SplitOfAppend(x, "\n" + y);
    SplitOfAppend(x, "\n");
    assert x + ("\n" + y) == x + "\n" + y && tail + ("\n" + y) == tail + "\n" + y;
    assert Fuses(x, "\n" + y) == Fuses(x, "\n");
    if n + 1 == |x| && Fuses(x, "\n") {
      // a final CR and the added LF are one break
      assert ("\n" + y)[1..] == y && "\n"[1..] == "";
      BreakOfAppend(x, "\n", n);
      assert SplitLines(x + "\n" + y) == first + SplitLines(y);
      assert SplitLines(x + "\n") == first + SplitLines("");
      assert SplitLines(x) == first + SplitLines("");
      assert SplitLines("") == [] by { SplitEmpty(); }
    } else {
      SplitLinesAfterNewline(tail, y);
      Regroup(first, SplitLines(tail + "\n"), SplitLines(y));
      Regroup(first, SplitLines(tail), [""]);
    }
  }

  lemma SplitEmpty()
    ensures SplitLines("") == []
  {
  }

  /** Joining two texts with a newline declares the hosts of both, no more. */
  lemma TextNamesJoin(x: string, y: string)
    ensures TextNames(x + "\n" + y) == TextNames(x) + TextNames(y)
  {
    hide SplitLines, LineNames;
    SplitLinesAfterNewline(x, y);
    HostNamesAppend(SplitLines(x + "\n"), SplitLines(y));
    HostNamesAppend(SplitLines(x), [""]);
    assert HostNames([""]) == {} by { BlankNames(); }
  }

  lemma BlankNames()
    ensures HostNames([""]) == {} && TextNames("") == {}
  {
    assert Strip("") == "";
  }

  // ---------------------------------------------------------------- a kept block declares its names

  /** Trimming whitespace off the end of a line changes neither its keyword nor its patterns. */
  lemma {:induction false} TrimmedLine(line: string, n: nat)
    requires n <= |line| && Strip(line) != "" && forall i :: n <= i < |line| ==> IsSpace(line[i])
    ensures Strip(line[..n]) == Strip(line) && LineNames(line[..n]) == LineNames(line)
  {
    hide IsSpace, Strip, HostPatterns;
    var a, b := StripBounds(line);
    assert b <= n;
    var t := line[..n];
    assert forall i :: 0 <= i < n ==> t[i] == line[i];
    StripAt(t, a, b);
    assert t[a..b] == line[a..b];
    SameStripSameNames(t, line);
  }

  lemma SameStripSameNames(a: string, b: string)
    requires Strip(a) == Strip(b)
    ensures LineNames(a) == LineNames(b)
  {
    hide Strip;
  }

  /** The first line of a block survives its trimming as far as its names go. */
  lemma {:induction false} FirstLineKeepsNames(h: string, rest: string)
    requires NoBreaks(h) && Strip(h) != ""
    ensures LineNames(h) <= TextNames(RStrip(h + "\n" + rest)) && LineNames(h) <= TextNames(RStrip(h))
  {
    hide *;
    FirstLineOfTrimmed(h, "");
    FirstLineOfTrimmed(h, "\n" + rest);
    assert h + "" == h && h + ("\n" + rest) == h + "\n" + rest;
  }

  lemma {:induction false} FirstLineOfTrimmed(h: string, z: string)
    requires NoBreaks(h) && Strip(h) != "" && (z != "" ==> z[0] == '\n')
    ensures LineNames(h) <= TextNames(RStrip(h + z))
  {
    hide IsSpace, IsLineBreak, LineNames, RStrip, Strip;
    var s := h + z;
    var t := RStrip(s);
    var a, b := StripBounds(h);
    assert s[b - 1] == h[b - 1];
    assert |t| >= b;
    if |t| <= |h| {
      assert t == h[..|t|];
      forall i | |t| <= i < |h| ensures IsSpace(h[i]) { assert h[i] == s[i]; }
      TrimmedLine(h, |t|);
      SplitLinesOne(t);
      assert HostNames([t]) == LineNames(t) + HostNames([]);
    } else {
      var rest := z[1..|t| - |h|];
      assert t == h + "\n" + rest;
      SplitLinesStep(h, rest);
      HostNamesAppend([h], SplitLines(rest));
      assert HostNames([h]) == LineNames(h) + HostNames([]);
    }
  }

  lemma {:induction false} BlockKeepsNames(block: seq<string>)
    requires block != [] && NoBreaks(block[0]) && Strip(block[0]) != ""
    ensures LineNames(block[0]) <= TextNames(RStrip(Join("\n", block)))
  {
    hide NoBreaks, Strip, LineNames, TextNames, RStrip;
    FirstLineKeepsNames(block[0], Join("\n", block[1..]));
  }

  // ---------------------------------------------------------------- a rebuilt header declares its names

  /** A character that the shell lexer takes as it is. */
  predicate BareChar(c: char) { !ShellSpace(c) && c != '\\' && c != '\'' && c != '"' }

  /** A text without quotes and backslashes. */
  predicate Unquoted(s: string) { forall i :: 0 <= i < |s| ==> BareChar(s[i]) || ShellSpace(s[i]) }

  /** One word for the shell lexer. */
  predicate Bare(w: string) { w != "" && forall i :: 0 <= i < |w| ==> BareChar(w[i]) }

  /** Names that read back from a header: each is one word, the first is not led by '=', no blank ends the last. */
  predicate Readable(names: seq<string>) {
    && names != []
    && (forall i :: 0 <= i < |names| ==> Bare(names[i]))
    && names[0][0] != '='
    && !IsSpace(names[|names| - 1][|names[|names| - 1]| - 1])
  }

  lemma {:induction false} ShlexWord(w: string, rest: string, state: LexState, word: string)
    requires state == Between || state == InWord
    requires Bare(w)
    ensures Shlex(w + rest, state, word, false) == Shlex(rest, InWord, word + w, false)
    decreases |w|
  {
    var s := w + rest;
    assert s[0] == w[0] && s[1..] == w[1..] + rest;
    assert word + w == word + [w[0]] + w[1..];
    if |w| == 1 {
      assert w[1..] + rest == rest && [w[0]] == w;
    } else {
      ShlexWord(w[1..], rest, InWord, word + [w[0]]);
    }
  }

  lemma ShlexSpace(rest: string, word: string, more: seq<string>)
    requires word != "" && Shlex(rest, Between, "", false) == Some(more)
    ensures Shlex(" " + rest, InWord, word, false) == Some([word] + more)
    ensures Shlex("", InWord, word, false) == Some([word])
  {
    assert (" " + rest)[1..] == rest;
  }

  /** The shell lexer splits words joined by spaces back into those words. */
  lemma {:induction false} ShlexJoin(names: seq<string>)
    requires names != [] && forall i :: 0 <= i < |names| ==> Bare(names[i])
    ensures Shlex(Join(" ", names), Between, "", false) == Some(names)
  {
    assert Shlex("", Between, "", false) == Some([]);
    hide BareChar, Shlex;
    var w := names[0];
    assert Bare(w) && "" + w == w;
    if |names| == 1 {
      ShlexWord(w, "", Between, "");
      ShlexSpace("", w, []);
      assert w + "" == w && names == [w];
    } else {
      var rest := Join(" ", names[1..]);
      ShlexJoin(names[1..]);
      ShlexWord(w, " " + rest, Between, "");
      ShlexSpace(rest, w, names[1..]);
      assert Join(" ", names) == w + (" " + rest);
      assert names == [w] + names[1..];
    }
  }

  /** Splitting at blanks, the word so far in hand. */
  function SpaceSplit(s: string, word: string): seq<string>
    decreases |s|
  {
    var emitted := if word != "" then [word] else [];
    if s == "" then emitted
    else if ShellSpace(s[0]) then emitted + SpaceSplit(s[1..], "")
    else SpaceSplit(s[1..], word + [s[0]])
  }

  /** Without quotes and backslashes the shell lexer only splits at blanks. */
  lemma {:induction false} UnquotedWords(s: string, state: LexState, word: string)
    requires Unquoted(s) && (state == Between || state == InWord)
    ensures Shlex(s, state, word, false) == Some(SpaceSplit(s, word))
    decreases |s|
  {
    if s != "" {
      assert BareChar(s[0]) || ShellSpace(s[0]);
      if ShellSpace(s[0]) { UnquotedWords(s[1..], Between, ""); } else { UnquotedWords(s[1..], InWord, word + [s[0]]); }
    }
  }

  lemma {:induction false} SplitIsBare(s: string, word: string)
    requires Unquoted(s) && (word != "" ==> Bare(word))
    ensures forall w :: w in SpaceSplit(s, word) ==> Bare(w)
    decreases |s|
  {
    if s != "" {
      assert BareChar(s[0]) || ShellSpace(s[0]);
      if ShellSpace(s[0]) { SplitIsBare(s[1..], ""); } else { SplitIsBare(s[1..], word + [s[0]]); }
    }
  }

  lemma {:induction false} SplitStarts(s: string, word: string)
    requires word != "" || (s != "" && !ShellSpace(s[0]))
    ensures var ws := SpaceSplit(s, word); ws != [] && ws[0] != "" && ws[0][0] == (word + s)[0]
    decreases |s|
  {
    if s != "" && !ShellSpace(s[0]) {
      SplitStarts(s[1..], word + [s[0]]);
      assert word + [s[0]] + s[1..] == word + s;
    }
  }

  predicate EndsWithChar(ws: seq<string>, c: char) {
    ws != [] && ws[|ws| - 1] != "" && ws[|ws| - 1][|ws[|ws| - 1]| - 1] == c
  }

  lemma LastOfOne(word: string)
    requires word != ""
    ensures EndsWithChar([word], word[|word| - 1])
  {
  }

  lemma LastOfMore(a: seq<string>, b: seq<string>, c: char)
    requires EndsWithChar(b, c)
    ensures EndsWithChar(a + b, c)
  {
    assert (a + b)[|a + b| - 1] == b[|b| - 1];
  }

  lemma {:induction false} SplitEnds(s: string, word: string)
    requires word + s != "" && !ShellSpace((word + s)[|word + s| - 1])
    ensures EndsWithChar(SpaceSplit(s, word), (word + s)[|word + s| - 1])
    decreases |s|
  {
    hide ShellSpace, EndsWithChar;
    var all := word + s;
    if s == "" {
      assert all == word;
      LastOfOne(word);
    } else if ShellSpace(s[0]) {
      assert all[|all| - 1] == s[|s| - 1];
      assert "" + s[1..] == s[1..] && s[1..][|s| - 2] == s[|s| - 1];
      SplitEnds(s[1..], "");
      LastOfMore(if word != "" then [word] else [], SpaceSplit(s[1..], ""), all[|all| - 1]);
    } else {
      assert word + [s[0]] + s[1..] == all;
      SplitEnds(s[1..], word + [s[0]]);
    }
  }

  lemma StripAssignSpace(j: string)
    requires j != "" && j[0] != ' ' && j[0] != '=' && j[0] != '\t'
    ensures StripAssign(" " + j) == j
  {
    assert (" " + j)[1..] == j;
  }

  lemma HeaderPatterns(h: string, j: string, names: seq<string>)
    requires Strip(h) == "Host " + j && j != "" && j[0] != ' ' && j[0] != '=' && j[0] != '\t'
    requires Shlex(j, Between, "", false) == Some(names)
    ensures HostPatterns(h) == names && LineNames(h) == SetOf(names)
  {
    HostPrefix(j);
    hide Shlex, StripAssign, Strip, Keyword;
    StripAssignSpace(j);
    KeywordOf(h);
    assert HostPatterns(h) == names;
  }

  lemma HostPrefix(j: string)
    ensures var s := "Host " + j;
      |s| >= 5 && s[0] == 'H' && s[1] == 'o' && s[2] == 's' && s[3] == 't' && s[4] == ' ' && s[4..] == " " + j
  {
  }

  lemma IndentIsSpace(line: string)
    ensures forall i :: 0 <= i < |Indent(line)| ==> IsSpace(Indent(line)[i])
    ensures NoBreaks(line) ==> NoBreaks(Indent(line))
  {
    hide IsSpace, IsLineBreak;
  }

  lemma {:induction false} JoinEnds(names: seq<string>)
    requires names != [] && forall i :: 0 <= i < |names| ==> names[i] != ""
    ensures var j := Join(" ", names); var last := names[|names| - 1];
      j != "" && j[0] == names[0][0] && j[|j| - 1] == last[|last| - 1]
  {
    if |names| > 1 {
      var rest := Join(" ", names[1..]);
      JoinEnds(names[1..]);
      JoinLast(names[0], rest);
    }
  }

  lemma JoinLast(a: string, b: string)
    requires a != "" && b != ""
    ensures (a + " " + b)[0] == a[0] && (a + " " + b)[|a + " " + b| - 1] == b[|b| - 1]
  {
  }

  lemma {:induction false} JoinNoBreaks(names: seq<string>)
    requires forall i :: 0 <= i < |names| ==> NoBreaks(names[i])
    ensures NoBreaks(Join(" ", names))
  {
    hide IsLineBreak;
    if |names| > 1 {
      JoinNoBreaks(names[1..]);
      assert NoBreaks(" ") by { OneBlank(); }
      NoBreaksAppend(names[0], " ");
      NoBreaksAppend(names[0] + " ", Join(" ", names[1..]));
    }
  }

  lemma OneBlank()
    ensures NoBreaks(" ")
  {
  }

  lemma {:induction false} JoinUnquoted(names: seq<string>)
    requires forall i :: 0 <= i < |names| ==> Unquoted(names[i])
    ensures Unquoted(Join(" ", names))
  {
    if |names| > 1 { JoinUnquoted(names[1..]); }
  }

  /** Readable names are exactly what their header declares. */
  lemma ReadableHeader(line: string, names: seq<string>)
    requires Readable(names)
    ensures var h := RebuiltHeader(line, names);
      HostPatterns(h) == names && LineNames(h) == SetOf(names) && Strip(h) != ""
  {
    var j, indent := Join(" ", names), Indent(line);
    assert !IsSpace('H');
    assert Bare(names[0]) && BareChar(names[0][0]);
    hide IsSpace, Shlex, Strip, LineNames, Indent, HostPatterns, Bare;
    assert forall i :: 0 <= i < |names| ==> names[i] != "" by { BareNotEmpty(names); }
    JoinEnds(names);
    hide Join;
    IndentIsSpace(line);
    assert indent + "Host " + j == indent + ("Host " + j);
    assert ("Host " + j)[0] == 'H';
    StripIndented(indent, "Host " + j);
    ShlexJoin(names);
    HeaderPatterns(RebuiltHeader(line, names), j, names);
  }

  lemma BareNotEmpty(names: seq<string>)
    requires forall i :: 0 <= i < |names| ==> Bare(names[i])
    ensures forall i :: 0 <= i < |names| ==> names[i] != ""
  {
    forall i | 0 <= i < |names| ensures names[i] != "" { assert Bare(names[i]); }
  }

  /** The rebuilt header, trimmed. */
  lemma TrimmedHeader(line: string, j: string) returns (n: nat)
    ensures var h := Indent(line) + "Host " + j;
      && 4 <= n <= |"Host " + j| && Strip(h) == ("Host " + j)[..n] && !IsSpace(("Host " + j)[n - 1])
      && (forall i :: n <= i < |"Host " + j| ==> IsSpace(("Host " + j)[i]))
      && Keyword(h) == "host"
  {
    hide IsSpace, Strip, Indent, Keyword;
    HostPrefix(j);
    RegroupText(Indent(line), "Host ", j);
    IndentIsSpace(line);
    n := TrimmedHost(Indent(line), "Host " + j);
  }

  lemma TrimmedHost(indent: string, t: string) returns (n: nat)
    requires |t| >= 5 && t[0] == 'H' && t[1] == 'o' && t[2] == 's' && t[3] == 't' && t[4] == ' '
    requires forall i :: 0 <= i < |indent| ==> IsSpace(indent[i])
    ensures 4 <= n <= |t| && Strip(indent + t) == t[..n] && !IsSpace(t[n - 1]) && Keyword(indent + t) == "host"
    ensures forall i :: n <= i < |t| ==> IsSpace(t[i])
  {
    assert !IsSpace('H') && !IsSpace('t');
    hide IsSpace, Strip, Keyword, RStrip;
    StripOfIndented(indent, t);
    n := |RStrip(t)|;
    RStripReaches(t, 3);
    KeywordOf(indent + t);
  }

  lemma RStripReaches(t: string, i: nat)
    requires i < |t| && !IsSpace(t[i])
    ensures i < |RStrip(t)| && !IsSpace(t[|RStrip(t)| - 1])
  {
    hide IsSpace;
  }

  lemma RegroupText(a: string, b: string, c: string)
    ensures a + b + c == a + (b + c)
  {
  }

  /** What the header's first word and the trimming leave to split. */
  lemma HeaderRest(line: string, j: string) returns (rest: string)
    requires Unquoted(j)
    ensures var h := Indent(line) + "Host " + j;
      Keyword(h) == "host" && |Strip(h)| >= 4 && rest == StripAssign(Strip(h)[4..])
    ensures Unquoted(rest) && (forall c :: c in rest ==> c in j || c == ' ')
    ensures rest != "" ==> rest[0] != ' ' && rest[0] != '=' && rest[0] != '\t' && !IsSpace(rest[|rest| - 1])
  {
    hide IsSpace, Strip, Indent, Unquoted, Keyword, StripAssign;
    var n := TrimmedHeader(line, j);
    var s := ("Host " + j)[..n];
    rest := StripAssign(s[4..]);
    StripAssignTail(s[4..]);
    TrimmedNames(j, rest, n);
  }

  lemma StripOfIndented(indent: string, t: string)
    requires t != "" && !IsSpace(t[0]) && forall i :: 0 <= i < |indent| ==> IsSpace(indent[i])
    ensures Strip(indent + t) == RStrip(t)
  {
    hide IsSpace, RStrip;
    LStripAt(indent + t, |indent|);
    assert (indent + t)[|indent|..] == t;
  }

  lemma {:induction false} StripAssignTail(s: string)
    ensures var r := StripAssign(s);
      && |r| <= |s| && r == s[|s| - |r|..] && (r != "" ==> r[0] != ' ' && r[0] != '=' && r[0] != '\t')
      && (forall i :: 0 <= i < |s| - |r| ==> s[i] == ' ' || s[i] == '=' || s[i] == '\t')
  {
    if s != "" { StripAssignTail(s[1..]); }
  }

  lemma TrimmedNames(j: string, rest: string, n: nat)
    requires Unquoted(j) && var t := "Host " + j;
      4 <= n <= |t| && |rest| <= n - 4 && rest == t[n - |rest|..n] && (n > 0 ==> !IsSpace(t[n - 1]))
    ensures Unquoted(rest) && (forall c :: c in rest ==> c in j || c == ' ')
    ensures rest != "" ==> !IsSpace(rest[|rest| - 1])
  {
    hide IsSpace;
    var t := "Host " + j;
    forall i | 0 <= i < |rest| ensures (BareChar(rest[i]) || ShellSpace(rest[i])) && (rest[i] in j || rest[i] == ' ') {
      var k := n - |rest| + i;
      assert rest[i] == t[k];
      assert k >= 5 ==> t[k] == j[k - 5];
    }
  }

  lemma HostLetters(s: string)
    requires |s| >= 4 && s[0] == 'H' && s[1] == 'o' && s[2] == 's' && s[3] == 't' && (|s| > 4 ==> s[4] == ' ')
    ensures WordLength(s) == 4 && s[..4] == "Host" && s[0] != '#'
  {
    assert !IsSpace('H') && !IsSpace('o') && !IsSpace('s') && !IsSpace('t') && IsSpace(' ');
    hide IsSpace;
    assert s[..4] == ['H', 'o', 's', 't'];
  }

  lemma HostIsHost()
    ensures Lower("Host") == "host"
  {
    assert Lower("Host") == ['h', 'o', 's', 't'];
  }

  lemma KeywordOf(h: string)
    requires var s := Strip(h);
             && |s| >= 4 && s[0] == 'H' && s[1] == 'o' && s[2] == 's' && s[3] == 't'
             && (|s| > 4 ==> s[4] == ' ')
    ensures Keyword(h) == "host"
  {
    HostLetters(Strip(h));
    HostIsHost();
    hide Strip, Lower, WordLength;
  }

  lemma {:induction false} JoinBareChars(names: seq<string>)
    requires forall i :: 0 <= i < |names| ==> Bare(names[i])
    ensures forall c :: c in Join(" ", names) ==> BareChar(c) || c == ' '
  {
    hide BareChar;
    if names != [] {
      assert Bare(names[0]);
      JoinBareChars(names[1..]);
    }
  }

  /** The patterns of a rebuilt header with unquoted names are bare words. */
  lemma RebuiltPatterns(line: string, names: seq<string>) returns (rest: string)
    requires forall i :: 0 <= i < |names| ==> Unquoted(names[i])
    ensures var h := RebuiltHeader(line, names);
      && LineNames(h) == SetOf(HostPatterns(h))
      && (forall w :: w in HostPatterns(h) ==> Bare(w))
      && (rest == "" ==> HostPatterns(h) == [])
    ensures (forall c :: c in rest ==> c in Join(" ", names) || c == ' ')
    ensures rest != "" ==> rest[0] != ' ' && rest[0] != '=' && !IsSpace(rest[|rest| - 1])
    ensures var ws := HostPatterns(RebuiltHeader(line, names));
      && (rest != "" && !ShellSpace(rest[0]) ==> ws != [] && ws[0] != "" && ws[0][0] == rest[0])
      && (rest != "" && !ShellSpace(rest[|rest| - 1]) ==> EndsWithChar(ws, rest[|rest| - 1]))
  {
    hide Unquoted, Strip, Indent, Join, Shlex, Keyword, Bare, IsSpace, ShellSpace, StripAssign, EndsWithChar;
    JoinUnquoted(names);
    rest := HeaderRest(line, Join(" ", names));
    UnquotedWords(rest, Between, "");
    SplitIsBare(rest, "");
    assert "" + rest == rest;
    assert HostPatterns(RebuiltHeader(line, names)) == SpaceSplit(rest, "");
    if rest != "" && !ShellSpace(rest[0]) { SplitStarts(rest, ""); }
    if rest != "" && !ShellSpace(rest[|rest| - 1]) { SplitEnds(rest, ""); }
  }

  /** A rebuilt header of unquoted names reads back as those names if and only if they are readable. */
  lemma UnquotedHeaderReadsBack(line: string, names: seq<string>)
    requires names != [] && forall i :: 0 <= i < |names| ==> Unquoted(names[i])
    ensures HostPatterns(RebuiltHeader(line, names)) == names <==> Readable(names)
  {
    hide Unquoted, RebuiltHeader, HostPatterns, Join, IsSpace, LineNames;
    var rest := RebuiltPatterns(line, names);
    if Readable(names) { ReadableHeader(line, names); }
    if HostPatterns(RebuiltHeader(line, names)) == names {
      hide BareChar;
      assert forall i :: 0 <= i < |names| ==> names[i] in names;
      JoinBareChars(names);
      assert rest[0] in rest && rest[|rest| - 1] in rest;
      assert IsSpace(' ') by { SpaceIsSpace(); }
    }
  }
}
