/** When a rebuilt Host header reads back as the names it was rebuilt from, quotes and all. */
module HostHeader {
  import opened Text
  import opened SshConfig
  import opened HostMerge

  // ---------------------------------------------------------------- what the shell lexer uses up

  predicate IsSpecial(c: char) { c == '\\' || c == '\'' || c == '"' }

  /** How many quotes and backslashes a text holds. */
  function Specials(s: string): nat { if s == "" then 0 else (if IsSpecial(s[0]) then 1 else 0) + Specials(s[1..]) }

  function AllSpecials(ws: seq<string>): nat { if ws == [] then 0 else Specials(ws[0]) + AllSpecials(ws[1..]) }

  lemma {:induction false} SpecialsAppend(a: string, b: string)
    ensures Specials(a + b) == Specials(a) + Specials(b)
    decreases |a|
  {
    hide IsSpecial;
    if a == "" {
      assert a + b == b;
    } else {
      assert (a + b)[1..] == a[1..] + b;
      SpecialsAppend(a[1..], b);
    }
  }

  lemma SpecialsOne(c: char)
    ensures Specials([c]) == if IsSpecial(c) then 1 else 0
  {
    assert [c][1..] == "";
  }

  lemma {:induction false} NoSpecials(s: string)
    ensures Specials(s) == 0 <==> forall i :: 0 <= i < |s| ==> !IsSpecial(s[i])
  {
    hide IsSpecial;
    if s != "" {
      NoSpecials(s[1..]);
      assert forall i :: 0 <= i < |s| - 1 ==> s[1..][i] == s[i + 1];
    }
  }

  lemma {:induction false} AllSpecialsAppend(a: seq<string>, b: seq<string>)
    ensures AllSpecials(a + b) == AllSpecials(a) + AllSpecials(b)
    decreases |a|
  {
    hide Specials;
    if a == [] {
      assert a + b == b;
    } else {
      assert (a + b)[1..] == a[1..] + b;
      AllSpecialsAppend(a[1..], b);
    }
  }

  lemma OneWord(w: string)
    ensures AllSpecials([w]) == Specials(w) && Specials("") == 0 && AllSpecials([]) == 0
  {
    assert [w][1..] == [];
  }

  /** A backslash that a double quote may still give back. */
  function Owed(state: LexState): nat { if state.Escaped? && state.back.InQuote? then 1 else 0 }

  /** Lexing invents no quote or backslash, and outside quotes it uses up the first one it meets. */
  lemma {:induction false} ShlexUsesUp(s: string, state: LexState, word: string, quoted: bool)
    requires Shlex(s, state, word, quoted).Some? && (state.Escaped? ==> !state.back.Escaped?)
    ensures var ws := Shlex(s, state, word, quoted).value;
      && AllSpecials(ws) <= Specials(word) + Specials(s) + Owed(state)
      && ((state == Between || state == InWord) && Specials(s) > 0 ==> AllSpecials(ws) < Specials(word) + Specials(s))
    decreases |s|
  {
    hide Specials, AllSpecials;
    OneWord(word);
    if s == "" {
      OneWord("");
    } else {
      var c, rest := s[0], s[1..];
      assert s == [c] + rest;
      SpecialsAppend([c], rest);
      SpecialsOne(c);
      match state
      case Between | InWord =>
        if ShellSpace(c) {
          OneWord("");
          ShlexUsesUp(rest, Between, "", false);
          AllSpecialsAppend(if word != "" || quoted then [word] else [], Shlex(rest, Between, "", false).value);
        } else if c == '\\' {
          ShlexUsesUp(rest, Escaped(InWord), word, quoted);
        } else if c == '\'' || c == '"' {
          ShlexUsesUp(rest, InQuote(c), word, quoted);
        } else {
          SpecialsAppend(word, [c]);
          ShlexUsesUp(rest, InWord, word + [c], quoted);
        }
      case InQuote(q) =>
        if c == q {
          ShlexUsesUp(rest, InWord, word, true);
        } else if c == '\\' && q == '"' {
          ShlexUsesUp(rest, Escaped(state), word, true);
        } else {
          SpecialsAppend(word, [c]);
          ShlexUsesUp(rest, state, word + [c], true);
        }
      case Escaped(back) =>
        var kept := if back.InQuote? && c != '\\' && c != back.quote then "\\" else "";
        SpecialsOne('\\');
        OneWord("");
        SpecialsAppend(word, kept);
        SpecialsAppend(word + kept, [c]);
        ShlexUsesUp(rest, back, word + kept + [c], quoted);
    }
  }

  // ---------------------------------------------------------------- words and headers

  /** Words that a split at whitespace gives back: not empty, no whitespace in them. */
  predicate Solid(w: string) { w != "" && forall i :: 0 <= i < |w| ==> !IsSpace(w[i]) }

  lemma {:induction false} WordEndIs(w: string, rest: string)
    requires Solid(w) && (rest != "" ==> IsSpace(rest[0]))
    ensures WordEnd(w + rest) == |w|
    decreases |w|
  {
    hide IsSpace;
    var s := w + rest;
    assert s[0] == w[0] && s[1..] == w[1..] + rest;
    if |w| == 1 {
      assert w[1..] + rest == rest;
    } else {
      WordEndIs(w[1..], rest);
    }
  }

  lemma {:induction false} WordsAreSolid(s: string)
    ensures forall w :: w in Words(s) ==> Solid(w)
    decreases |s|
  {
    hide IsSpace, LStrip;
    var t := LStrip(s);
    if t != "" {
      var n := WordEnd(t);
      WordIsSolid(t);
      WordsAreSolid(t[n..]);
    }
  }

  lemma {:induction false} WordIsSolid(t: string)
    requires t != "" && !IsSpace(t[0])
    ensures Solid(t[..WordEnd(t)])
  {
    hide IsSpace;
    if |t| > 1 && !IsSpace(t[1]) {
      WordIsSolid(t[1..]);
      assert t[..WordEnd(t)] == [t[0]] + t[1..][..WordEnd(t[1..])];
    } else {
      assert WordEnd(t[1..]) == 0;
      assert t[..1] == [t[0]];
    }
  }

  lemma WordsStep(w: string, rest: string)
    requires Solid(w) && (rest != "" ==> IsSpace(rest[0]))
    ensures Words(w + rest) == [w] + Words(rest)
  {
    hide IsSpace, LStrip, WordEnd;
    var s := w + rest;
    assert s[0] == w[0];
    LStripAt(s, 0);
    WordEndIs(w, rest);
    assert s[0..] == s && s[..|w|] == w && s[|w|..] == rest;
  }

  lemma SameWords(a: string, b: string)
    requires LStrip(a) == LStrip(b)
    ensures Words(a) == Words(b)
  {
    hide LStrip, WordEnd;
  }

  lemma LStripBlank(s: string)
    ensures LStrip(" " + s) == LStrip(s)
  {
    assert IsSpace(' ');
    hide IsSpace;
    assert (" " + s)[1..] == s;
  }

  lemma NoWords()
    ensures Words("") == []
  {
    assert LStrip("") == "";
  }

  lemma WordsBlank(s: string)
    ensures Words(" " + s) == Words(s) && Words("") == []
  {
    hide Words, LStrip;
    LStripBlank(s);
    SameWords(" " + s, s);
    NoWords();
  }

  /** Splitting at whitespace gives solid words back. */
  lemma {:induction false} WordsJoin(names: seq<string>)
    requires names != [] && forall i :: 0 <= i < |names| ==> Solid(names[i])
    ensures Words(Join(" ", names)) == names
  {
    hide Words;
    var w := names[0];
    assert IsSpace(' ');
    hide IsSpace, Solid;
    if |names| == 1 {
      WordsStep(w, "");
      WordsBlank("");
      assert w + "" == w && names == [w];
    } else {
      var rest := Join(" ", names[1..]);
      WordsJoin(names[1..]);
      WordsStep(w, " " + rest);
      WordsBlank(rest);
      RegroupText(w, " ", rest);
      assert names == [w] + names[1..];
    }
  }

  lemma FirstWord(s: string)
    requires s != "" && !IsSpace(s[0])
    ensures Words(s) != [] && Words(s)[0] != "" && Words(s)[0][0] == s[0]
  {
    hide IsSpace;
    LStripAt(s, 0);
    assert s[0..] == s;
  }

  /** The names of a header whose line the shell lexer refuses, split at whitespace instead. */
  predicate Plain(names: seq<string>) {
    names != [] && (forall i :: 0 <= i < |names| ==> Solid(names[i])) && names[0][0] != '='
  }

  /** Exactly when the names come back: without quotes as words, with them only when lexing fails. */
  predicate ComesBack(names: seq<string>) {
    if AllSpecials(names) == 0 then Readable(names)
    else Plain(names) && Shlex(Join(" ", names), Between, "", false) == None
  }

  lemma {:induction false} JoinSpecials(names: seq<string>)
    ensures Specials(Join(" ", names)) == AllSpecials(names)
  {
    OneWord("");
    hide Specials;
    if |names| == 1 {
      assert names == [names[0]];
      OneWord(names[0]);
    } else if |names| > 1 {
      var rest := Join(" ", names[1..]);
      JoinSpecials(names[1..]);
      SpecialsOne(' ');
      SpecialsAppend(names[0], " ");
      SpecialsAppend(names[0] + " ", rest);
    }
  }

  lemma {:induction false} UnquotedIs(names: seq<string>)
    ensures AllSpecials(names) == 0 <==> forall i :: 0 <= i < |names| ==> Unquoted(names[i])
  {
    hide Specials;
    if names != [] {
      NoSpecials(names[0]);
      assert Specials(names[0]) == 0 <==> Unquoted(names[0]);
      hide Unquoted, IsSpecial;
      UnquotedIs(names[1..]);
      assert forall i :: 0 <= i < |names| - 1 ==> names[1..][i] == names[i + 1];
      assert forall i :: 1 <= i < |names| ==> names[i] == names[1..][i - 1];
    }
  }

  lemma NoneSpecial(s: string)
    requires forall i :: 0 <= i < |s| ==> IsSpace(s[i]) || s[i] == '='
    ensures Specials(s) == 0
  {
    assert !IsSpace('\\') && !IsSpace('\'') && !IsSpace('"');
    hide IsSpace, Specials;
    NoSpecials(s);
  }

  /** A text cut at both ends, where only blanks and '=' were cut off. */
  lemma CutSpecials(t: string, a: nat, b: nat)
    requires a <= b <= |t|
    requires forall i :: 0 <= i < a ==> IsSpace(t[i]) || t[i] == '='
    requires forall i :: b <= i < |t| ==> IsSpace(t[i])
    ensures Specials(t[a..b]) == Specials(t)
  {
    hide IsSpace, Specials;
    var front, middle, back := t[..a], t[a..b], t[b..];
    assert t == front + middle + back;
    SpecialsAppend(front + middle, back);
    SpecialsAppend(front, middle);
    forall i | 0 <= i < |back| ensures IsSpace(back[i]) { assert back[i] == t[b + i]; }
    NoneSpecial(front);
    NoneSpecial(back);
  }

  /** What a rebuilt header leaves to split: its names, cut at both ends. */
  lemma RestOf(line: string, j: string) returns (rest: string)
    ensures var h := Indent(line) + "Host " + j;
      Keyword(h) == "host" && |Strip(h)| >= 4 && rest == StripAssign(Strip(h)[4..])
    ensures Specials(rest) == Specials(j) && (forall c :: c in rest ==> c in j || c == ' ')
    ensures rest != "" ==> rest[0] != ' ' && rest[0] != '='
  {
    hide IsSpace, Strip, Indent, Keyword, StripAssign, Specials;
    HostPrefix(j);
    var n := TrimmedHeader(line, j);
    rest := RestCut("Host " + j, j, n);
  }

  lemma RestCut(u: string, j: string, n: nat) returns (rest: string)
    requires 4 <= n <= |u| && u[4..] == " " + j && forall i :: n <= i < |u| ==> IsSpace(u[i])
    ensures rest == StripAssign(u[..n][4..])
    ensures Specials(rest) == Specials(j) && (forall c :: c in rest ==> c in j || c == ' ')
    ensures rest != "" ==> rest[0] != ' ' && rest[0] != '='
  {
    hide IsSpace, StripAssign, Specials;
    var t := " " + j;
    assert u[..n][4..] == t[..n - 4];
    rest := StripAssign(t[..n - 4]);
    StripAssignTail(t[..n - 4]);
    RestSpecials(t, rest, n - 4);
    forall i | n - 4 <= i < |t| ensures IsSpace(t[i]) { assert t[i] == u[4..][i] == u[i + 4]; }
    CutSpecials(t, n - 4 - |rest|, n - 4);
    SpecialsAppend(" ", j);
    SpecialsOne(' ');
    assert forall c :: c in t ==> c in j || c == ' ';
  }

  lemma RestSpecials(t: string, rest: string, n: nat)
    requires n <= |t| && |rest| <= n && rest == t[..n][n - |rest|..]
    requires forall i :: 0 <= i < n - |rest| ==> t[..n][i] == ' ' || t[..n][i] == '=' || t[..n][i] == '\t'
    ensures rest == t[n - |rest|..n] && (forall c :: c in rest ==> c in t)
    ensures forall i :: 0 <= i < n - |rest| ==> IsSpace(t[i]) || t[i] == '='
  {
    assert IsSpace(' ') && IsSpace('\t');
    hide IsSpace;
    forall i | 0 <= i < n - |rest| ensures IsSpace(t[i]) || t[i] == '=' { assert t[i] == t[..n][i]; }
  }

  /** Plain names are all of what is left to split. */
  lemma PlainRest(line: string, names: seq<string>)
    requires Plain(names)
    ensures var h := RebuiltHeader(line, names);
      |Strip(h)| >= 4 && StripAssign(Strip(h)[4..]) == Join(" ", names)
  {
    var j := Join(" ", names);
    assert !IsSpace('H') && IsSpace(' ') && IsSpace('\t');
    assert Solid(names[0]) && Solid(names[|names| - 1]);
    hide IsSpace, Strip, Indent, StripAssign, Join;
    assert forall i :: 0 <= i < |names| ==> names[i] != "" by { SolidNotEmpty(names); }
    JoinEnds(names);
    HostPrefix(j);
    IndentIsSpace(line);
    RegroupText(Indent(line), "Host ", j);
    StripIndented(Indent(line), "Host " + j);
    StripAssignSpace(j);
  }

  lemma SolidNotEmpty(names: seq<string>)
    requires forall i :: 0 <= i < |names| ==> Solid(names[i])
    ensures forall i :: 0 <= i < |names| ==> names[i] != ""
  {
    forall i | 0 <= i < |names| ensures names[i] != "" { assert Solid(names[i]); }
  }

  lemma {:induction false} SolidJoinChars(names: seq<string>)
    requires forall i :: 0 <= i < |names| ==> Solid(names[i])
    ensures forall c :: c in Join(" ", names) ==> !IsSpace(c) || c == ' '
  {
    hide IsSpace;
    if names != [] {
      assert Solid(names[0]);
      SolidJoinChars(names[1..]);
    }
  }

  /** With quotes or backslashes: the names that come back are plain, and lexing fails. */
  lemma QuotedHeaderReadsBack(line: string, names: seq<string>)
    requires names != [] && AllSpecials(names) > 0
    ensures HostPatterns(RebuiltHeader(line, names)) == names
      <==> Plain(names) && Shlex(Join(" ", names), Between, "", false) == None
  {
    hide Join, Shlex, Words, Specials, AllSpecials, IsSpace, Strip, StripAssign, Indent, Keyword, Solid;
    var j, h := Join(" ", names), RebuiltHeader(line, names);
    JoinSpecials(names);
    var rest := RestOf(line, j);
    OneWord("");
    if Shlex(rest, Between, "", false).Some? { ShlexUsesUp(rest, Between, "", false); }
    if HostPatterns(h) == names {
      assert Words(rest) == names;
      WordsAreSolid(rest);
      assert forall i :: 0 <= i < |names| ==> names[i] in names;
      SolidJoinChars(names);
      assert rest != "" && rest[0] in rest;
      FirstWord(rest);
      PlainRest(line, names);
    }
    if Plain(names) {
      PlainRest(line, names);
      WordsJoin(names);
    }
  }

  /** A rebuilt header reads back as the names it was rebuilt from if and only if they come back, for all names. */
  lemma HeaderReadsBack(line: string, names: seq<string>)
    requires names != []
    ensures HostPatterns(RebuiltHeader(line, names)) == names <==> ComesBack(names)
  {
    hide Readable, Plain, AllSpecials, Shlex, Join, HostPatterns, RebuiltHeader, Unquoted;
    UnquotedIs(names);
    if AllSpecials(names) == 0 { UnquotedHeaderReadsBack(line, names); } else { QuotedHeaderReadsBack(line, names); }
  }
}
