/** The lines of an SSH config, told by their parts: the directive, and the names of a Host line. */
module ConfigLines {
  import opened Text
  import opened SshConfig
  import opened HostMerge
  import opened HostHeader
  import opened ShellWords

  /** A directive word: no blank and no '=' in it, and no '#' in front. */
  predicate DirectiveWord(w: string) {
    w != "" && w[0] != '#' && forall i :: 0 <= i < |w| ==> !IsSpace(w[i]) && w[i] != '='
  }

  predicate AfterWord(rest: string) { rest == "" || IsSpace(rest[0]) || rest[0] == '=' }

  /** The line is blanks, the word and what comes after it. */
  predicate Directs(line: string, indent: string, w: string, rest: string) {
    line == indent + w + rest && Blank(indent) && DirectiveWord(w) && AfterWord(rest)
  }

  lemma {:induction false} WordLengthIs(w: string, rest: string)
    requires AfterWord(rest) && forall i :: 0 <= i < |w| ==> !IsSpace(w[i]) && w[i] != '='
    ensures WordLength(w + rest) == |w|
    decreases |w|
  {
    hide IsSpace;
    if w != "" {
      assert (w + rest)[0] == w[0] && (w + rest)[1..] == w[1..] + rest;
      WordLengthIs(w[1..], rest);
    } else {
      assert w + rest == rest;
    }
  }

  /** Where the stripped line ends in the rest. */
  lemma StrippedLine(line: string, indent: string, w: string, rest: string) returns (cut: string, tail: string)
    requires Directs(line, indent, w, rest)
    ensures Strip(line) == w + cut && rest == cut + tail && Blank(tail) && AfterWord(cut)
    ensures cut != "" ==> !IsSpace(cut[|cut| - 1])
  {
    hide IsSpace, Strip, RStrip;
    var trimmed := RStrip(rest);
    cut, tail := trimmed, rest[|trimmed|..];
    var a, b := |indent|, |indent| + |w| + |cut|;
    assert line == indent + w + cut + tail;
    assert line[a] == w[0];
    if cut == "" { assert line[b - 1] == w[|w| - 1]; } else { assert line[b - 1] == cut[|cut| - 1]; }
    forall i | 0 <= i < a || b <= i < |line| ensures IsSpace(line[i]) {
      if i < a { assert line[i] == indent[i]; } else { assert line[i] == rest[i - |indent| - |w|]; }
    }
    StripAt(line, a, b);
    assert line[a..b] == w + cut;
  }

  lemma DirectsKeyword(line: string, indent: string, w: string, rest: string)
    requires Directs(line, indent, w, rest)
    ensures Keyword(line) == Lower(w)
  {
    var cut, tail := StrippedLine(line, indent, w, rest);
    hide Strip, IsSpace, Lower;
    assert (w + cut)[0] == w[0];
    WordLengthIs(w, cut);
    assert (w + cut)[..|w|] == w;
  }

  lemma KeywordStarts(line: string)
    requires Keyword(line) != ""
    ensures var s := Strip(line); s != "" && s[0] != '#' && WordLength(s) > 0
  {
    hide Strip, WordLength;
  }

  lemma KeywordDirects(line: string) returns (indent: string, w: string, rest: string)
    requires Keyword(line) != ""
    ensures Directs(line, indent, w, rest)
  {
    hide Strip, Keyword, IsSpace, WordLength;
    KeywordStarts(line);
    var a, b := StripBounds(line);
    var s, tail := Strip(line), line[b..];
    var n := WordLength(s);
    indent, w, rest := line[..a], s[..n], s[n..] + tail;
    assert line == indent + s + tail && s == w + s[n..];
    assert line == indent + w + rest;
    RestOfLine(s, n, tail);
  }

  lemma RestOfLine(s: string, n: nat, tail: string)
    requires n <= |s| && Blank(tail) && (n < |s| ==> AfterWord(s[n..]))
    ensures AfterWord(s[n..] + tail)
  {
    hide IsSpace;
    if n == |s| { assert s[n..] + tail == tail; }
  }

  /** The directive of a line is its first word in lower case. */
  lemma KeywordIs(line: string, k: string)
    requires k != ""
    ensures Keyword(line) == k <==> exists indent, w, rest :: Directs(line, indent, w, rest) && Lower(w) == k
  {
    hide Keyword, Directs, Lower;
    if Keyword(line) == k {
      var indent, w, rest := KeywordDirects(line);
      DirectsKeyword(line, indent, w, rest);
    }
    forall indent, w, rest | Directs(line, indent, w, rest) ensures Keyword(line) == Lower(w) {
      DirectsKeyword(line, indent, w, rest);
    }
  }

  /** A rebuilt header keeps the blanks in front of the old one, and holds nothing else of it. */
  lemma RebuiltIs(line: string, indent: string, w: string, rest: string, names: seq<string>)
    requires Directs(line, indent, w, rest)
    ensures RebuiltHeader(line, names) == indent + "Host " + Join(" ", names)
  {
    hide IsSpace, LStrip, Join;
    assert line[|indent|] == w[0];
    LStripAt(line, |indent|);
  }

  // ---------------------------------------------------------------- the names of a Host line

  /** What may stand between `Host` and its names. */
  predicate IsAssign(c: char) { c == ' ' || c == '=' || c == '\t' }

  predicate Assigns(s: string) { forall i :: 0 <= i < |s| ==> IsAssign(s[i]) }

  /** A Host line, and the part of it that holds the names. */
  ghost predicate HostLine(line: string, names: string) {
    exists indent, w, sep, tail :: HostParts(line, indent, w, sep, names, tail)
  }

  predicate HostParts(line: string, indent: string, w: string, sep: string, names: string, tail: string) {
    && Directs(line, indent, w, sep + names + tail) && Lower(w) == "host"
    && Assigns(sep) && Blank(tail)
    && (names != "" ==> !IsAssign(names[0]) && !IsSpace(names[|names| - 1]))
  }

  lemma {:induction false} StripAssignIs(sep: string, names: string)
    requires Assigns(sep) && (names != "" ==> !IsAssign(names[0]))
    ensures StripAssign(sep + names) == names
    decreases |sep|
  {
    if sep == "" {
      assert sep + names == names;
    } else {
      assert (sep + names)[0] == sep[0] && (sep + names)[1..] == sep[1..] + names;
      StripAssignIs(sep[1..], names);
    }
  }

  lemma {:induction false} StripAssignSplits(s: string) returns (sep: string)
    ensures s == sep + StripAssign(s) && Assigns(sep)
    ensures StripAssign(s) != "" ==> !IsAssign(StripAssign(s)[0])
  {
    if s != "" && IsAssign(s[0]) {
      sep := StripAssignSplits(s[1..]);
      sep := [s[0]] + sep;
    } else {
      sep := "";
    }
  }

  /** The names stand where the program looks for them. */
  lemma HostPartsAre(line: string, indent: string, w: string, sep: string, names: string, tail: string)
    requires HostParts(line, indent, w, sep, names, tail)
    ensures Keyword(line) == "host" && |Strip(line)| >= 4 && StripAssign(Strip(line)[4..]) == names
  {
    var rest := sep + names + tail;
    DirectsKeyword(line, indent, w, rest);
    var cut, end := StrippedLine(line, indent, w, rest);
    hide Strip, Directs, Keyword;
    assert (w + cut)[4..] == cut;
    CutNames(sep, names, tail, cut, end);
  }

  lemma CutNames(sep: string, names: string, tail: string, cut: string, end: string)
    requires sep + names + tail == cut + end && Assigns(sep) && Blank(tail) && Blank(end)
    requires names != "" ==> !IsAssign(names[0]) && !IsSpace(names[|names| - 1])
    requires cut != "" ==> !IsSpace(cut[|cut| - 1])
    ensures StripAssign(cut) == names
  {
    hide IsSpace;
    var s := cut + end;
    if names != "" {
      var n := |sep| + |names|;
      forall i | n <= i < |s| ensures IsSpace(s[i]) { assert s[i] == tail[i - n]; }
      forall i | |cut| <= i < |s| ensures IsSpace(s[i]) { assert s[i] == end[i - |cut|]; }
      assert s[n - 1] == names[|names| - 1];
      assert cut != "" ==> s[|cut| - 1] == cut[|cut| - 1];
      assert cut == s[..n] == sep + names;
      hide IsAssign;
      StripAssignIs(sep, names);
    } else {
      forall i | |sep| <= i < |s| ensures IsSpace(s[i]) { assert s[i] == tail[i - |sep|]; }
      assert cut != "" ==> s[|cut| - 1] == cut[|cut| - 1];
      forall i | 0 <= i < |cut| ensures IsAssign(cut[i]) { assert cut[i] == s[i] == sep[i]; }
      StripAssignIs(cut, "");
      assert cut + "" == cut;
    }
  }

  lemma HostLineParts(line: string) returns (indent: string, w: string, sep: string, names: string, tail: string)
    requires Keyword(line) == "host"
    ensures HostParts(line, indent, w, sep, names, tail)
  {
    var rest: string;
    assert |"host"| == 4;
    indent, w, rest := KeywordDirects(line);
    DirectsKeyword(line, indent, w, rest);
    var cut: string;
    cut, tail := StrippedLine(line, indent, w, rest);
    hide Strip, Directs, Keyword, IsSpace;
    sep := StripAssignSplits(cut);
    names := StripAssign(cut);
    assert rest == sep + names + tail;
  }

  /** A Host line is a line with that directive, and its names are read from the part that holds them. */
  lemma HostLineIs(line: string, names: string)
    ensures HostLine(line, names)
      <==> Keyword(line) == "host" && |Strip(line)| >= 4 && StripAssign(Strip(line)[4..]) == names
  {
    hide HostParts, Keyword, Strip;
    if HostLine(line, names) {
      var indent, w, sep, tail :| HostParts(line, indent, w, sep, names, tail);
      HostPartsAre(line, indent, w, sep, names, tail);
    }
    if Keyword(line) == "host" {
      var indent, w, sep, found, tail := HostLineParts(line);
      HostPartsAre(line, indent, w, sep, found, tail);
    }
  }

  // ---------------------------------------------------------------- splitting at whitespace

  /** Only blanks and plain characters, without quoting. */
  predicate Unquoted(t: Token) {
    match t
    case Gap(c) => IsSpace(c)
    case Piece(Bare(c)) => !IsSpace(c)
    case _ => false
  }

  predicate AllUnquoted(ts: seq<Token>) { forall i :: 0 <= i < |ts| ==> Unquoted(ts[i]) }

  ghost predicate SpellsPlainly(s: string, ws: seq<string>) {
    exists ts :: AllUnquoted(ts) && TokensText(ts) == s && WordsOf(ts, None) == ws
  }

  function OpenWord(cur: string): Option<string> { if cur == "" then None else Some(cur) }

  /** The word that is open goes on where the text does not begin with a blank. */
  lemma {:induction false} PlainWords(ts: seq<Token>, cur: string)
    requires AllUnquoted(ts) && (cur != "" ==> Solid(cur))
    ensures WordsOf(ts, OpenWord(cur)) == Words(cur + TokensText(ts))
    decreases |ts|
  {
    hide IsSpace, Words, Solid;
    if ts == [] {
      PlainEnd(cur);
    } else if ts[0].Gap? {
      assert Unquoted(ts[0]);
      PlainWords(ts[1..], "");
      PlainGap(ts[0].blank, TokensText(ts[1..]), cur);
      assert "" + TokensText(ts[1..]) == TokensText(ts[1..]);
    } else {
      assert Unquoted(ts[0]);
      PlainPiece(ts, cur);
      PlainWords(ts[1..], cur + [ts[0].part.c]);
    }
  }

  lemma PlainPiece(ts: seq<Token>, cur: string)
    requires ts != [] && ts[0].Piece? && Unquoted(ts[0]) && (cur != "" ==> Solid(cur))
    ensures var next := cur + [ts[0].part.c];
      && Solid(next) && cur + TokensText(ts) == next + TokensText(ts[1..])
      && WordsOf(ts, OpenWord(cur)) == WordsOf(ts[1..], OpenWord(next))
  {
    hide IsSpace, Solid, TokensText, WordsOf;
    SolidGrows(cur, ts[0].part.c);
    PieceText(ts);
    PieceWords(ts, cur);
  }

  lemma PieceText(ts: seq<Token>)
    requires ts != [] && ts[0].Piece? && Unquoted(ts[0])
    ensures TokensText(ts) == [ts[0].part.c] + TokensText(ts[1..])
  {
    hide IsSpace;
  }

  lemma PieceWords(ts: seq<Token>, cur: string)
    requires ts != [] && ts[0].Piece? && Unquoted(ts[0])
    ensures WordsOf(ts, OpenWord(cur)) == WordsOf(ts[1..], OpenWord(cur + [ts[0].part.c]))
  {
    hide IsSpace;
    var c := ts[0].part.c;
    assert "" + [c] == [c];
    assert cur == "" ==> cur + [c] == [c];
  }

  lemma PlainEnd(cur: string)
    requires cur != "" ==> Solid(cur)
    ensures WordsOf([], OpenWord(cur)) == Words(cur + "")
  {
    hide Words, Solid;
    WordsBlank("");
    assert cur + "" == cur;
    if cur != "" { WordsStep(cur, ""); }
  }

  lemma PlainGap(c: char, rest: string, cur: string)
    requires IsSpace(c) && (cur != "" ==> Solid(cur))
    ensures Words(cur + ([c] + rest)) == (if cur == "" then [] else [cur]) + Words(rest)
  {
    hide Words, Solid, IsSpace;
    BlankFirst(c, rest);
    if cur != "" { WordsStep(cur, [c] + rest); } else { assert cur + ([c] + rest) == [c] + rest; }
  }

  lemma SolidGrows(cur: string, c: char)
    requires !IsSpace(c) && (cur != "" ==> Solid(cur))
    ensures Solid(cur + [c])
  {
    hide IsSpace;
  }

  lemma BlankFirst(c: char, rest: string)
    requires IsSpace(c)
    ensures Words([c] + rest) == Words(rest)
  {
    hide IsSpace, Words;
    var s := [c] + rest;
    assert s[0] == c && s[1..] == rest;
    assert LStrip(s) == LStrip(rest);
    SameWords(s, rest);
  }

  lemma {:induction false} PlainTokens(s: string) returns (ts: seq<Token>)
    ensures AllUnquoted(ts) && TokensText(ts) == s
  {
    hide IsSpace;
    if s == "" {
      ts := [];
    } else {
      ts := PlainTokens(s[1..]);
      var t := if IsSpace(s[0]) then Gap(s[0]) else Piece(Bare(s[0]));
      assert ([t] + ts)[1..] == ts;
      ts := [t] + ts;
    }
  }

  /** Splitting at whitespace returns the words that the text is without any quoting. */
  lemma WordsAre(s: string, ws: seq<string>)
    ensures Words(s) == ws <==> SpellsPlainly(s, ws)
  {
    hide Words, AllUnquoted, TokensText, WordsOf;
    assert "" + s == s;
    if Words(s) == ws {
      var ts := PlainTokens(s);
      PlainWords(ts, "");
    }
    if SpellsPlainly(s, ws) {
      var ts :| AllUnquoted(ts) && TokensText(ts) == s && WordsOf(ts, None) == ws;
      PlainWords(ts, "");
    }
  }

  // ---------------------------------------------------------------- what a line declares

  /** The names of the text: the shell words it spells, or else its words. */
  ghost predicate Declares(names: string, ws: seq<string>) {
    if exists shell :: SpellsWords(names, shell) then SpellsWords(names, ws) else SpellsPlainly(names, ws)
  }

  /** The patterns of a Host line, told by the line. */
  lemma PatternsAre(line: string, names: string, ws: seq<string>)
    requires HostLine(line, names)
    ensures HostPatterns(line) == ws <==> Declares(names, ws)
  {
    hide HostLine, Keyword, Strip, Shlex, Words, StripAssign, SpellsWords, SpellsPlainly;
    HostLineIs(line, names);
    WordsAre(names, ws);
    forall shell { ShlexIs(names, shell); }
    if Shlex(names, Between, "", false).Some? {
      assert SpellsWords(names, Shlex(names, Between, "", false).value);
    }
  }

  /** A line declares a name exactly if it is a Host line with that name among its patterns. */
  lemma LineDeclares(line: string, p: string)
    ensures p in LineNames(line) <==> exists names, ws :: HostLine(line, names) && Declares(names, ws) && p in ws
  {
    hide HostLine, Keyword, Strip, StripAssign, HostPatterns, Declares;
    if p in LineNames(line) {
      var names := HostRest(line);
      PatternsAre(line, names, HostPatterns(line));
    }
    forall names, ws | HostLine(line, names) && Declares(names, ws)
      ensures Keyword(line) == "host" && HostPatterns(line) == ws
    {
      HostLineIs(line, names);
      PatternsAre(line, names, ws);
    }
  }

  lemma HostRest(line: string) returns (names: string)
    requires Keyword(line) == "host"
    ensures HostLine(line, names)
  {
    hide Keyword, HostParts;
    var indent, w, sep, tail;
    indent, w, sep, names, tail := HostLineParts(line);
  }
}
