/** The stanza splitter of the backup manager: keywords, Host patterns, and the partition of a file. */
module SshConfig {
  import opened Text

  function LowerChar(c: char): char {
    if 'A' <= c <= 'Z' then (c as int - 'A' as int + 'a' as int) as char else c
  }

  /** `str.lower`, exact for the ASCII letters that the keywords consist of. */
  function Lower(s: string): (r: string)
    ensures |r| == |s| && forall i :: 0 <= i < |s| ==> r[i] == LowerChar(s[i])
  {
    if s == "" then "" else [LowerChar(s[0])] + Lower(s[1..])
  }

  /** Length of the leading text before whitespace or '='. */
  function WordLength(s: string): (n: nat)
    ensures n <= |s|
    ensures forall i :: 0 <= i < n ==> !IsSpace(s[i]) && s[i] != '='
    ensures n < |s| ==> IsSpace(s[n]) || s[n] == '='
  {
    if s == "" || IsSpace(s[0]) || s[0] == '=' then 0 else 1 + WordLength(s[1..])
  }

  /** The lower-case directive of a line, empty for blank and comment lines. */
  function Keyword(line: string): string {
    var s := Strip(line);
    if s == "" || s[0] == '#' then "" else Lower(s[..WordLength(s)])
  }

  predicate IsHeader(line: string) {
    Keyword(line) == "host" || Keyword(line) == "match"
  }

  // ---------------------------------------------------------------- Host patterns

  /** `str.lstrip(' =\t')` */
  function StripAssign(s: string): string {
    if s != "" && (s[0] == ' ' || s[0] == '=' || s[0] == '\t') then StripAssign(s[1..]) else s
  }

  /** `str.split()` */
  function Words(s: string): seq<string>
    decreases |s|
  {
    var t := LStrip(s);
    if t == "" then []
    else
      var n := WordEnd(t);
      [t[..n]] + Words(t[n..])
  }

  function WordEnd(s: string): (n: nat)
    ensures n <= |s|
    ensures s != "" && !IsSpace(s[0]) ==> n > 0
  {
    if s == "" || IsSpace(s[0]) then 0 else 1 + WordEnd(s[1..])
  }

  predicate ShellSpace(c: char) {
    c == ' ' || c == '\t' || c == '\r' || c == '\n'
  }

  /** Where the shell lexer is: between words, in a word, in a quote, or after a backslash. */
  datatype LexState = Between | InWord | InQuote(quote: char) | Escaped(back: LexState)

  /**
   * `shlex.split`: the rest of the input, the word so far and whether any of it was quoted.
   * None is the ValueError for an open quote or a trailing backslash.
   */
  function Shlex(s: string, state: LexState, word: string, quoted: bool): Option<seq<string>>
    decreases |s|
  {
    var emitted: seq<string> := if word != "" || quoted then [word] else [];
    if s == "" then
      if state.InQuote? || state.Escaped? then None else Some(emitted)
    else
      var c, rest := s[0], s[1..];
      match state
      case Between | InWord =>
        if ShellSpace(c) then
          match Shlex(rest, Between, "", false)
          case None => None
          case Some(ws) => Some(emitted + ws)
        else if c == '\\' then Shlex(rest, Escaped(InWord), word, quoted)
        else if c == '\'' || c == '"' then Shlex(rest, InQuote(c), word, quoted)
        else Shlex(rest, InWord, word + [c], quoted)
      case InQuote(q) =>
        if c == q then Shlex(rest, InWord, word, true)
        else if c == '\\' && q == '"' then Shlex(rest, Escaped(state), word, true)
        else Shlex(rest, state, word + [c], true)
      case Escaped(back) =>
        var kept := if back.InQuote? && c != '\\' && c != back.quote then "\\" else "";
        Shlex(rest, back, word + kept + [c], quoted)
  }

  /** The patterns of a `Host a b c` line. */
  function HostPatterns(line: string): seq<string> {
    var s := Strip(line);
    var rest := if |s| >= 4 then StripAssign(s[4..]) else "";
    match Shlex(rest, Between, "", false)
    case Some(ws) => ws
    case None => Words(rest)
  }

  // ---------------------------------------------------------------- stanzas

  datatype Kind = Global | Host | Match

  datatype Stanza = Stanza(kind: Kind, patterns: seq<string>, block: seq<string>)

  function KindOf(header: string): Kind {
    if Keyword(header) == "host" then Host else Match
  }

  /** The stanza that a header line opens. */
  function Opened(header: string): Stanza {
    Stanza(KindOf(header), if KindOf(header) == Host then HostPatterns(header) else [], [header])
  }

  /** The stanzas of `lines` that follow the open stanza `cur`. */
  function StanzasFrom(cur: Stanza, lines: seq<string>): seq<Stanza>
    decreases |lines|
  {
    if lines == [] then (if cur.block != [] then [cur] else [])
    else if IsHeader(lines[0]) then
      (if cur.block != [] then [cur] else []) + StanzasFrom(Opened(lines[0]), lines[1..])
    else StanzasFrom(cur.(block := cur.block + [lines[0]]), lines[1..])
  }

  function Stanzas(lines: seq<string>): seq<Stanza> {
    StanzasFrom(Stanza(Global, [], []), lines)
  }

  function Flatten(ss: seq<Stanza>): seq<string> {
    if ss == [] then [] else ss[0].block + Flatten(ss[1..])
  }

  /** A stanza is headed by its own Host or Match line, or is the preamble; no other line is a header. */
  predicate WellHeaded(s: Stanza) {
    && s.block != []
    && (forall i :: 1 <= i < |s.block| ==> !IsHeader(s.block[i]))
    && (if s.kind == Global then !IsHeader(s.block[0]) && s.patterns == []
        else IsHeader(s.block[0]) && s.kind == KindOf(s.block[0])
             && s.patterns == if s.kind == Host then HostPatterns(s.block[0]) else [])
  }

  lemma OpenedIsHeaded(h: string)
    requires IsHeader(h)
    ensures WellHeaded(Opened(h)) && Opened(h).kind != Global && Opened(h).block == [h]
  {
    hide Keyword, HostPatterns;
  }

  lemma GrownIsHeaded(cur: Stanza, line: string)
    requires !IsHeader(line) && (if cur.block == [] then cur == Stanza(Global, [], []) else WellHeaded(cur))
    ensures WellHeaded(cur.(block := cur.block + [line]))
  {
    hide IsHeader, HostPatterns;
  }

  lemma {:induction false} StanzasFromPartition(cur: Stanza, lines: seq<string>)
    requires cur.block != [] ==> WellHeaded(cur)
    requires cur.block == [] ==> cur == Stanza(Global, [], [])
    ensures Flatten(StanzasFrom(cur, lines)) == cur.block + lines
    ensures forall i :: 0 <= i < |StanzasFrom(cur, lines)| ==> WellHeaded(StanzasFrom(cur, lines)[i])
    ensures forall i :: 1 <= i < |StanzasFrom(cur, lines)| ==> StanzasFrom(cur, lines)[i].kind != Global
    ensures cur.kind != Global
      ==> forall i :: 0 <= i < |StanzasFrom(cur, lines)| ==> StanzasFrom(cur, lines)[i].kind != Global
    decreases |lines|
  {
    hide Keyword, HostPatterns, WellHeaded, Opened;
    if lines == [] {
      if cur.block != [] { assert Flatten([cur]) == cur.block + Flatten([]); }
    } else if IsHeader(lines[0]) {
      var next := Opened(lines[0]);
      OpenedIsHeaded(lines[0]);
      StanzasFromPartition(next, lines[1..]);
      var rest := StanzasFrom(next, lines[1..]);
      assert [lines[0]] + lines[1..] == lines;
      if cur.block != [] {
        assert ([cur] + rest)[1..] == rest;
      } else {
        assert [] + rest == rest;
      }
    } else {
      var next := cur.(block := cur.block + [lines[0]]);
      GrownIsHeaded(cur, lines[0]);
      StanzasFromPartition(next, lines[1..]);
      assert cur.block + [lines[0]] + lines[1..] == cur.block + lines;
    }
  }

  /**
   * The splitter is a lossless partition: the blocks in order are the lines, every block but a
   * leading preamble starts at a Host or Match header, and every header starts a block.
   */
  lemma StanzasPartition(lines: seq<string>)
    ensures Flatten(Stanzas(lines)) == lines
    ensures forall i :: 0 <= i < |Stanzas(lines)| ==> WellHeaded(Stanzas(lines)[i])
    ensures forall i :: 1 <= i < |Stanzas(lines)| ==> Stanzas(lines)[i].kind != Global
  {
    hide WellHeaded;
    StanzasFromPartition(Stanza(Global, [], []), lines);
    assert [] + lines == lines;
  }
}
