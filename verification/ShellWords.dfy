/** Shell quoting as a grammar that does not mention the lexer, and the lexer as its only reading. */
module ShellWords {
  import opened Text
  import opened SshConfig
  import opened HostHeader

  // ---------------------------------------------------------------- the grammar

  /** Between double quotes: a character, or a backslash and a character. */
  datatype Bit = Char(c: char) | Pair(c: char)

  datatype Part =
    | Bare(c: char)
    | Slash(c: char)
    | Single(text: string)
    | Double(bits: seq<Bit>)

  /** A blank ends a word; parts that touch make one. */
  datatype Token = Gap(blank: char) | Piece(part: Part)

  function BitText(b: Bit): string { if b.Char? then [b.c] else ['\\', b.c] }

  function BitsText(bs: seq<Bit>): string { if bs == [] then "" else BitText(bs[0]) + BitsText(bs[1..]) }

  /** Between double quotes a backslash is dropped only before a backslash or a double quote. */
  function BitValue(b: Bit): string { if b.Char? || b.c == '\\' || b.c == '"' then [b.c] else ['\\', b.c] }

  function BitsValue(bs: seq<Bit>): string { if bs == [] then "" else BitValue(bs[0]) + BitsValue(bs[1..]) }

  function PartText(p: Part): string {
    match p
    case Bare(c) => [c]
    case Slash(c) => ['\\', c]
    case Single(text) => "'" + text + "'"
    case Double(bits) => "\"" + BitsText(bits) + "\""
  }

  function PartValue(p: Part): string {
    match p
    case Bare(c) => [c]
    case Slash(c) => [c]
    case Single(text) => text
    case Double(bits) => BitsValue(bits)
  }

  predicate ProperBits(bs: seq<Bit>) { forall i :: 0 <= i < |bs| && bs[i].Char? ==> bs[i].c != '"' && bs[i].c != '\\' }

  predicate Proper(t: Token) {
    match t
    case Gap(c) => ShellSpace(c)
    case Piece(Bare(c)) => !ShellSpace(c) && c != '\\' && c != '\'' && c != '"'
    case Piece(Slash(_)) => true
    case Piece(Single(text)) => '\'' !in text
    case Piece(Double(bits)) => ProperBits(bits)
  }

  function TokenText(t: Token): string { if t.Gap? then [t.blank] else PartText(t.part) }

  function TokensText(ts: seq<Token>): string { if ts == [] then "" else TokenText(ts[0]) + TokensText(ts[1..]) }

  /** `cur` is the word that is open, if one is. */
  function WordsOf(ts: seq<Token>, cur: Option<string>): seq<string> {
    var closed := if cur.Some? then [cur.value] else [];
    if ts == [] then closed
    else if ts[0].Gap? then closed + WordsOf(ts[1..], None)
    else WordsOf(ts[1..], Some((if cur.Some? then cur.value else "") + PartValue(ts[0].part)))
  }

  predicate AllProper(ts: seq<Token>) { forall i :: 0 <= i < |ts| ==> Proper(ts[i]) }

  /** `s` is written as these words. */
  ghost predicate SpellsWords(s: string, ws: seq<string>) {
    exists ts :: AllProper(ts) && TokensText(ts) == s && WordsOf(ts, None) == ws
  }

  // ---------------------------------------------------------------- from the grammar to the lexer

  lemma {:induction false} SingleRead(text: string, rest: string, word: string)
    requires '\'' !in text
    ensures Shlex(text + "'" + rest, InQuote('\''), word, true) == Shlex(rest, InWord, word + text, true)
    decreases |text|
  {
    var s := text + "'" + rest;
    if text == "" {
      assert s[0] == '\'' && s[1..] == rest;
      assert word + text == word;
    } else {
      assert s[0] == text[0] && s[1..] == text[1..] + "'" + rest;
      SingleRead(text[1..], rest, word + [text[0]]);
      assert word + [text[0]] + text[1..] == word + text;
    }
  }

  lemma {:induction false} DoubleRead(bits: seq<Bit>, rest: string, word: string)
    requires ProperBits(bits)
    ensures Shlex(BitsText(bits) + ("\"" + rest), InQuote('"'), word, true)
      == Shlex(rest, InWord, word + BitsValue(bits), true)
    decreases |bits|
  {
    hide Shlex;
    if bits == [] {
      ClosingQuote(rest, word);
      assert BitsText(bits) + ("\"" + rest) == ['"'] + rest && word + BitsValue(bits) == word;
    } else {
      var b, more := bits[0], bits[1..];
      assert b.Char? ==> b.c != '"' && b.c != '\\';
      DoubleRead(more, rest, word + BitValue(b));
      BitRead(b, BitsText(more) + ("\"" + rest), word);
      hide ProperBits, BitText, BitValue;
      Regroup(BitText(b), BitsText(more), "\"" + rest);
      Regroup(word, BitValue(b), BitsValue(more));
    }
  }

  lemma ClosingQuote(rest: string, word: string)
    ensures Shlex(['"'] + rest, InQuote('"'), word, true) == Shlex(rest, InWord, word, true)
  {
    assert (['"'] + rest)[1..] == rest;
  }

  lemma BitRead(b: Bit, after: string, word: string)
    requires b.Char? ==> b.c != '"' && b.c != '\\'
    ensures Shlex(BitText(b) + after, InQuote('"'), word, true)
      == Shlex(after, InQuote('"'), word + BitValue(b), true)
  {
    var s := BitText(b) + after;
    if b.Char? {
      assert s[0] == b.c && s[1..] == after;
    } else {
      assert s[0] == '\\' && s[1..] == [b.c] + after;
      PairRead(b.c, after, word);
    }
  }

  lemma PairRead(c: char, rest: string, word: string)
    ensures Shlex([c] + rest, Escaped(InQuote('"')), word, true)
      == Shlex(rest, InQuote('"'), word + BitValue(Pair(c)), true)
  {
    var s := [c] + rest;
    assert s[0] == c && s[1..] == rest;
    if c == '\\' || c == '"' {
      assert word + "" + [c] == word + BitValue(Pair(c));
    } else {
      assert word + "\\" + [c] == word + BitValue(Pair(c));
    }
  }

  /** A word is open when it has text or quotes. */
  function Open(word: string, quoted: bool): Option<string> { if word != "" || quoted then Some(word) else None }

  predicate Outside(state: LexState) { state == Between || state == InWord }

  lemma PartRead(p: Part, rest: string, state: LexState, word: string, quoted: bool) returns (q: bool)
    requires Proper(Piece(p)) && Outside(state)
    ensures Shlex(PartText(p) + rest, state, word, quoted) == Shlex(rest, InWord, word + PartValue(p), q)
    ensures Open(word + PartValue(p), q) == Some(word + PartValue(p))
  {
    hide Shlex, Outside;
    q := quoted || p.Single? || p.Double?;
    match p
    case Bare(c) =>
      BareRead(c, rest, state, word, quoted);
    case Slash(c) =>
      SlashRead(c, rest, state, word, quoted);
    case Single(text) =>
      QuoteOpens('\'', text + "'" + rest, state, word, quoted);
      SingleRead(text, rest, word);
      assert "'" + text + "'" + rest == ['\''] + (text + "'" + rest);
    case Double(bits) =>
      QuoteOpens('"', BitsText(bits) + ("\"" + rest), state, word, quoted);
      DoubleRead(bits, rest, word);
      assert "\"" + BitsText(bits) + "\"" + rest == ['"'] + (BitsText(bits) + ("\"" + rest));
  }

  lemma BareRead(c: char, rest: string, state: LexState, word: string, quoted: bool)
    requires Proper(Piece(Bare(c))) && Outside(state)
    ensures Shlex([c] + rest, state, word, quoted) == Shlex(rest, InWord, word + [c], quoted)
  {
    assert ([c] + rest)[1..] == rest;
  }

  lemma SlashRead(c: char, rest: string, state: LexState, word: string, quoted: bool)
    requires Outside(state)
    ensures Shlex(['\\', c] + rest, state, word, quoted) == Shlex(rest, InWord, word + [c], quoted)
  {
    assert (['\\', c] + rest)[1..] == [c] + rest && ([c] + rest)[1..] == rest;
    assert word + "" + [c] == word + [c];
  }

  lemma QuoteOpens(q: char, s: string, state: LexState, word: string, quoted: bool)
    requires (q == '\'' || q == '"') && Outside(state) && s != ""
    ensures Shlex([q] + s, state, word, quoted) == Shlex(s, InQuote(q), word, true)
  {
    assert ([q] + s)[1..] == s;
    IntoQuote(s, q, word, quoted);
  }

  /** In a quote the flag makes no difference: it is set by the next character. */
  lemma IntoQuote(s: string, q: char, word: string, quoted: bool)
    requires s != ""
    ensures Shlex(s, InQuote(q), word, quoted) == Shlex(s, InQuote(q), word, true)
  {
  }

  lemma {:induction false} TokensRead(ts: seq<Token>, state: LexState, word: string, quoted: bool)
    requires AllProper(ts) && Outside(state)
    ensures Shlex(TokensText(ts), state, word, quoted) == Some(WordsOf(ts, Open(word, quoted)))
    decreases |ts|
  {
    if ts != [] {
      var s, rest := TokensText(ts), TokensText(ts[1..]);
      assert Proper(ts[0]);
      hide Proper;
      match ts[0]
      case Gap(c) =>
        assert s[0] == c && s[1..] == rest;
        GapRead(c, rest, state, word, quoted);
        TokensRead(ts[1..], Between, "", false);
      case Piece(p) =>
        var q := PartRead(p, rest, state, word, quoted);
        TokensRead(ts[1..], InWord, word + PartValue(p), q);
        assert "" + PartValue(p) == PartValue(p);
        if Open(word, quoted).None? { assert word + PartValue(p) == PartValue(p); }
    }
  }

  lemma GapRead(c: char, rest: string, state: LexState, word: string, quoted: bool)
    requires Proper(Gap(c)) && Outside(state)
    ensures Shlex([c] + rest, state, word, quoted)
      == match Shlex(rest, Between, "", false)
         case None => None
         case Some(ws) => Some((if Open(word, quoted).Some? then [word] else []) + ws)
  {
    assert ([c] + rest)[1..] == rest;
  }

  // ---------------------------------------------------------------- from the lexer to the grammar

  lemma {:induction false} SingleSpelled(s: string, word: string, quoted: bool) returns (text: string, rest: string)
    requires Shlex(s, InQuote('\''), word, quoted).Some?
    ensures '\'' !in text && s == text + "'" + rest
    decreases |s|
  {
    if s[0] == '\'' {
      text, rest := "", s[1..];
    } else {
      text, rest := SingleSpelled(s[1..], word + [s[0]], true);
      text := [s[0]] + text;
    }
  }

  lemma {:induction false} DoubleSpelled(s: string, word: string, quoted: bool) returns (bits: seq<Bit>, rest: string)
    requires Shlex(s, InQuote('"'), word, quoted).Some?
    ensures ProperBits(bits) && s == BitsText(bits) + "\"" + rest
    decreases |s|
  {
    if s[0] == '"' {
      bits, rest := [], s[1..];
    } else if s[0] == '\\' {
      var w := SlashInQuote(s, word, quoted);
      bits, rest := DoubleSpelled(s[2..], w, true);
      bits := BitsCons(Pair(s[1]), bits, rest, s);
    } else {
      bits, rest := DoubleSpelled(s[1..], word + [s[0]], true);
      bits := BitsCons(Char(s[0]), bits, rest, s);
    }
  }

  lemma BitsCons(b: Bit, bits: seq<Bit>, rest: string, s: string) returns (more: seq<Bit>)
    requires ProperBits(bits) && ProperBits([b]) && s == BitText(b) + (BitsText(bits) + "\"" + rest)
    ensures ProperBits(more) && s == BitsText(more) + "\"" + rest
  {
    more := [b] + bits;
    assert more[1..] == bits;
    assert [b][0] == b;
    assert forall i :: 1 <= i < |more| ==> more[i] == bits[i - 1];
  }

  lemma SlashInQuote(s: string, word: string, quoted: bool) returns (w: string)
    requires Shlex(s, InQuote('"'), word, quoted).Some? && s != "" && s[0] == '\\'
    ensures |s| > 1 && Shlex(s[2..], InQuote('"'), w, true).Some?
  {
    assert Shlex(s[1..], Escaped(InQuote('"')), word, true).Some?;
    assert |s| > 1;
    w := word + (if s[1] != '\\' && s[1] != '"' then "\\" else "") + [s[1]];
    assert s[1..][1..] == s[2..];
  }

  /** A text that the lexer takes apart is spelled somehow. */
  lemma {:induction false} Spelled(s: string, state: LexState, word: string, quoted: bool) returns (ts: seq<Token>)
    requires Shlex(s, state, word, quoted).Some? && Outside(state)
    ensures AllProper(ts) && TokensText(ts) == s
    decreases |s|
  {
    if s == "" {
      ts := [];
    } else {
      var t, rest := FirstToken(s, state, word, quoted);
      var w, q := AfterToken(t, rest, state, word, quoted);
      ts := Spelled(rest, if t.Gap? then Between else InWord, w, q);
      assert ([t] + ts)[1..] == ts;
      assert forall i :: 1 <= i < |ts| + 1 ==> ([t] + ts)[i] == ts[i - 1];
      ts := [t] + ts;
    }
  }

  lemma FirstToken(s: string, state: LexState, word: string, quoted: bool) returns (t: Token, rest: string)
    requires Shlex(s, state, word, quoted).Some? && Outside(state) && s != ""
    ensures Proper(t) && s == TokenText(t) + rest && |rest| < |s|
  {
    var c := s[0];
    rest := s[1..];
    assert s == [c] + rest;
    if ShellSpace(c) {
      t := Gap(c);
    } else if c == '\\' {
      assert Shlex(rest, Escaped(InWord), word, quoted).Some?;
      assert rest != "" && rest == [rest[0]] + rest[1..];
      t, rest := Piece(Slash(rest[0])), rest[1..];
    } else if c == '\'' {
      var text, after := SingleSpelled(rest, word, quoted);
      t, rest := Piece(Single(text)), after;
      assert s == "'" + text + "'" + rest;
    } else if c == '"' {
      var bits, after := DoubleSpelled(rest, word, quoted);
      t, rest := Piece(Double(bits)), after;
      assert s == "\"" + BitsText(bits) + "\"" + rest;
    } else {
      t := Piece(Bare(c));
    }
  }

  lemma AfterToken(t: Token, rest: string, state: LexState, word: string, quoted: bool) returns (w: string, q: bool)
    requires Proper(t) && Outside(state) && Shlex(TokenText(t) + rest, state, word, quoted).Some?
    ensures Shlex(rest, if t.Gap? then Between else InWord, w, q).Some?
  {
    hide Shlex, Proper;
    if t.Gap? {
      w, q := "", false;
      GapRead(t.blank, rest, state, word, quoted);
    } else {
      q := PartRead(t.part, rest, state, word, quoted);
      w := word + PartValue(t.part);
    }
  }

  /** The lexer returns words exactly for the texts that are written as them, and so in one way only. */
  lemma ShlexIs(s: string, ws: seq<string>)
    ensures Shlex(s, Between, "", false) == Some(ws) <==> SpellsWords(s, ws)
  {
    hide Shlex, AllProper, TokensText, WordsOf;
    if Shlex(s, Between, "", false) == Some(ws) {
      var ts := Spelled(s, Between, "", false);
      TokensRead(ts, Between, "", false);
    }
    if SpellsWords(s, ws) {
      var ts :| AllProper(ts) && TokensText(ts) == s && WordsOf(ts, None) == ws;
      TokensRead(ts, Between, "", false);
    }
  }
}
