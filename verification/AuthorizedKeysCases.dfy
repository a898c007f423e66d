/** Reprinted lines case by case: plain option names, and two families of lines that are misread. */
module AuthorizedKeysCases {
  import opened Text
  import opened AuthorizedKeys
  import opened AuthorizedKeysTokens
  import opened AuthorizedKeysScan
  import opened AuthorizedKeysRoundTrip

  // ---------------------------------------------------------------- plain names

  /** With plain names, option text is legible exactly when it is no key type as a whole. */
  lemma PlainIsLegible(ts: seq<KeyOption>, disabled: bool)
    requires PlainTokens(ts) && ts != []
    ensures var o := Join(",", Pieces(ts)); Legible(o, disabled) <==> !IsKeytype(o)
  {
    hide IsKeytype, IsSpace, PlainToken, Pieces, Join, Crosses, ScanForKeytype, IndexOf;
    var o, p := Join(",", Pieces(ts)), "ssh-rsa K";
    PlainStart(ts);
    FirstWordOfOptions(ts, p);
    HeadOfOptions(o, p);
    WholeHead(o);
    assert At(o + " " + p, 0, o);
    ScanPrinted(o + " " + p, 0, ts);
    ScanOptions(o, p, 0, false);
    SampleKey();
    ScanFinds(o, p);
  }

  lemma SampleKey()
    ensures var p := "ssh-rsa K"; IndexOf(p, ' ') == 7 < |p| && IsKeytype(Head(p))
  {
    IndexOfIs("ssh-rsa K", ' ', 7);
    assert "ssh-rsa K"[..7] == "ssh-rsa";
  }

  lemma WholeHead(o: string)
    ensures IsKeytype(o) ==> Head(o) == o
  {
    hide IsKeytype, IsSpace;
    if IsKeytype(o) {
      KeytypePlain(o);
      PlainHasNoSpace(o);
      HeadAlone(o);
    }
  }

  lemma PlainStart(ts: seq<KeyOption>)
    requires PlainTokens(ts) && ts != []
    ensures var o := Join(",", Pieces(ts)); o != "" && !IsSpace(o[0]) && o[0] != '#'
  {
    hide IsSpace, SerializeOption, Join;
    var more := FirstPiece(ts);
    PlainIsLive(ts[0]);
    PieceShape(ts[0]);
    PlainHasNoSpace(ts[0].name);
  }

  /** The first word of a body with plain options is no key type, unless the options are one. */
  lemma FirstWordOfOptions(ts: seq<KeyOption>, rest: string)
    requires PlainTokens(ts) && ts != []
    ensures var t := Join(",", Pieces(ts));
            !IsKeytype(t) ==> !IsKeytype(Head(t + " " + rest))
  {
    var t := Join(",", Pieces(ts));
    var s := t + " " + rest;
    var sp := IndexOf(s, ' ');
    hide IsKeytype, PlainTokens, Pieces, Join, IndexOf;
    assert s[|t|] == ' ';
    assert sp <= |t|;
    if sp < |t| {
      assert t[sp] == s[sp] == ' ';
      var q := QuoteBeforeSpace(ts, sp);
      assert s[..sp][q] == '"';
      if IsKeytype(s[..sp]) {
        KeytypePlain(s[..sp]);
        PlainHasNoSpace(s[..sp]);
      }
    } else {
      assert s[..sp] == t;
    }
  }

  lemma {:induction false} NoPiecesNoOptions(ts: seq<KeyOption>)
    requires PlainTokens(ts) && OptionPieces(KnownOptions(ts)) + UnknownOptions(ts) == []
    ensures ts == []
  {
    hide IsKnown, PlainName, SerializeOption;
    if ts != [] { PlainIsLive(ts[0]); }
  }

  lemma NoTokensNoText(s: string)
    requires TokenizeOptions(s) == []
    ensures s == ""
  {
  }

  /** The tokens that reprinting writes are among those that were read. */
  lemma {:induction false} UnknownTokensArePlain(ts: seq<KeyOption>)
    requires PlainTokens(ts)
    ensures forall i :: 0 <= i < |UnknownOptions(ts)| ==> CanonicalUnknown(UnknownOptions(ts)[i])
    ensures PlainTokens(UnknownTokens(UnknownOptions(ts)))
  {
    hide PlainToken, IsKnown, SerializeOption, TokenizeOptions, LiveToken;
    if ts != [] {
      UnknownTokensArePlain(ts[1..]);
      assert IsKnown(ts[0].name) ==> UnknownOptions(ts) == UnknownOptions(ts[1..]);
      if !IsKnown(ts[0].name) {
        PlainIsLive(ts[0]);
        PieceShape(ts[0]);
        CanonicalPiece(ts[0]);
        TokenizePrinted([ts[0]]);
        assert Pieces([ts[0]]) == [SerializeOption(ts[0])];
        var us := UnknownOptions(ts);
        assert us[0] == SerializeOption(ts[0]) && us[1..] == UnknownOptions(ts[1..]);
        assert UnknownToken(us[0]) == ts[0];
      }
    }
  }

  lemma {:induction false} KnownArePlain(os: seq<KeyOption>)
    requires AllKnownAndLive(os)
    ensures PlainTokens(os)
  {
    hide IsKnown, PlainName;
    forall i | 0 <= i < |os| ensures PlainToken(os[i]) { KnownNamesPlain(os[i].name); }
  }

  /** With plain option names, a line that was read survives reprinting exactly when its option text is no key type. */
  lemma PlainLineRoundTrip(line: string)
    requires ParseLine(line).KeyLine?
    requires FieldsOf(line).Some? && PlainTokens(TokenizeOptions(FieldsOf(line).value.options))
    ensures var e := ParseLine(line).entry.(dirty := true);
            ParseLine(PrintEntry(e)) == KeyLine(e.(rawLine := PrintEntry(e), dirty := false))
            <==> !IsKeytype(OptionText(e))
  {
    hide IsKeytype, IsSpace, FieldsOf, ParseLine, OptionName, CanonicalUnknown, TokenizeOptions, IsKnown, Legible,
      PlainToken, AllKnownAndLive, PrintEntry, EndsInText, Normal, LiveTokens;
    ReadLineRoundTrip(line);
    ReadIsPrintable(line);
    FieldsOfFacts(line);
    var e := ParseLine(line).entry.(dirty := true);
    var ts := TokenizeOptions(FieldsOf(line).value.options);
    if PrintedPieces(e) == [] {
      NoPiecesNoOptions(ts);
      NoTokensNoText(FieldsOf(line).value.options);
      assert !IsKeytype("") by { EmptyIsNoKeytype(); }
    } else {
      KnownStayPut(e.options);
      KnownArePlain(e.options);
      UnknownTokensArePlain(ts);
      PrintedOptions(e);
      PlainIsLegible(Tokens(e), e.disabled);
    }
  }

  lemma EmptyIsNoKeytype()
    ensures !IsKeytype("")
  {
    hide IsKeytype;
    if IsKeytype("") { KeytypePlain(""); }
  }

  // ---------------------------------------------------------------- lines that are misread

  lemma CommaIsNoKeytype(s: string)
    requires ',' in s
    ensures !IsKeytype(s)
  {
    hide IsKeytype;
    if IsKeytype(s) {
      KeytypePlain(s);
    }
  }

  lemma TrailingCommaTokens(t: KeyOption)
    requires LiveToken(t) && t.value.Flag? && !IsKnown(t.name)
    ensures TokenizeOptions(t.name + ",") == [t]
    ensures KnownOptions([t]) == [] && UnknownOptions([t]) == [t.name]
  {
    hide IsKnown, IsSpace;
    var s := t.name + ",";
    PieceShape(t);
    NameOf(t.name, ",");
    assert s[..|t.name|] == t.name && s[|t.name|..] == ",";
    assert SeparatorLength(",") == 1 by { assert ","[1..] == ""; }
    assert ReadOption(s) == (t, |s|);
    assert s[|s|..] == "";
  }

  lemma ReadTrailingComma(t: KeyOption, e: Entry)
    requires PlainToken(t) && t.value.Flag? && !IsKnown(t.name)
    requires IsKeytype(e.keytype) && ' ' !in e.key
    ensures var line := t.name + "," + " " + KeyPart(e);
            ParseLine(line) == KeyLine(Entry(line, false, [], [t.name], e.keytype, e.key, e.comment, false))
  {
    hide IsKeytype, IsSpace, KeyPart, ScanForKeytype, SplitLine, ParseLine, IsKnown, TokenizeOptions;
    var opts := t.name + ",";
    var line := opts + " " + KeyPart(e);
    forall i | 0 <= i < |opts| ensures line[i] != ' ' && line[i] != '"' {
      assert line[i] == opts[i];
      if i < |t.name| { assert PlainChar(t.name[i]); }
    }
    IndexOfIs(line, ' ', |opts|);
    assert Head(line) == opts;
    assert opts[|t.name|] == ',';
    CommaIsNoKeytype(opts);
    assert PlainChar(t.name[0]) && line[0] == t.name[0];
    SplitScans(line);
    ScanPlain(line, 0, |opts|);
    ScanFindsKeyPart(opts, e);
    ParseEnabled(line);
    PlainIsLive(t);
    TrailingCommaTokens(t);
  }

  /** An option named like a key type survives reading but not reprinting. */
  lemma KeytypeOptionMisreads(k: string, rest: Entry)
    requires IsKeytype(k) && !IsKnown(k) && IsKeytype(rest.keytype) && ' ' !in rest.key
    ensures var line := k + "," + " " + KeyPart(rest);
            && ParseLine(line) == KeyLine(Entry(line, false, [], [k], rest.keytype, rest.key, rest.comment, false))
            && var e := ParseLine(line).entry.(dirty := true);
               ParseLine(PrintEntry(e)) != KeyLine(Normal(e))
  {
    hide ParseLine, Normal, CanonicalUnknown, SerializeOption, IsKnown, IsKeytype, PlainName, KeyPart, PrintEntry;
    var t := KeyOption(k, Flag(true));
    KeytypePlain(k);
    PlainIsLive(t);
    PieceShape(t);
    CanonicalPiece(t);
    ReadTrailingComma(t, rest);
    var e := ParseLine(k + "," + " " + KeyPart(rest)).entry.(dirty := true);
    assert OptionPieces([]) == [] && PrintedPieces(e) == [k];
    assert OptionText(e) == k;
    WholeHead(k);
    DirtyRoundTrip(e);
  }

  /** A trailing comma is enough to turn an option into a key type on reprinting. */
  lemma ReprintedOptionBecomesKeytype()
    ensures var line := "ssh-rsa, ssh-dss K";
            && ParseLine(line) == KeyLine(Entry(line, false, [], ["ssh-rsa"], "ssh-dss", "K", "", false))
            && var e := ParseLine(line).entry.(dirty := true);
               ParseLine(PrintEntry(e)) != KeyLine(Normal(e))
  {
    hide ParseLine, Normal, PrintEntry;
    var rest := Entry("", false, [], [], "ssh-dss", "K", "", true);
    assert !IsKnown("ssh-rsa");
    assert IsKeytype("ssh-rsa") && IsKeytype("ssh-dss");
    hide IsKnown, IsKeytype;
    assert "ssh-rsa" + "," + " " + KeyPart(rest) == "ssh-rsa, ssh-dss K";
    KeytypeOptionMisreads("ssh-rsa", rest);
  }

  lemma ReadTwoOptions()
    ensures TokenizeOptions("foo ssh-rsa,pty") == [KeyOption("foo ssh-rsa", Flag(true)), KeyOption("pty", Flag(true))]
  {
    hide SerializeOption, TokenizeOptions;
    var a, b := KeyOption("foo ssh-rsa", Flag(true)), KeyOption("pty", Flag(true));
    assert SerializeOption(a) == "foo ssh-rsa" && SerializeOption(b) == "pty" by { FlagPieces(a); FlagPieces(b); }
    var ts := [a, b];
    assert ts[1..] == [b];
    JoinPiecesStep(ts);
    assert Pieces([b]) == ["pty"] && Join(",", ["pty"]) == "pty";
    assert Join(",", Pieces(ts)) == "foo ssh-rsa,pty";
    TokenizePrinted(ts);
  }

  lemma FlagPieces(t: KeyOption)
    ensures t.value == Flag(true) ==> SerializeOption(t) == t.name
  {
  }

  lemma SortTwoOptions()
    ensures var ts := [KeyOption("foo ssh-rsa", Flag(true)), KeyOption("pty", Flag(true))];
            KnownOptions(ts) == [KeyOption("pty", Flag(true))] && UnknownOptions(ts) == ["foo ssh-rsa"]
  {
    var a, b := KeyOption("foo ssh-rsa", Flag(true)), KeyOption("pty", Flag(true));
    assert IsKnown("pty");
    assert "foo ssh-rsa"[3] == ' ';
    SpaceIsSpace();
    SpacedIsUnknown("foo ssh-rsa", 3);
    hide IsKnown, IsSpace;
    FlagPieces(a);
    hide SerializeOption;
    assert [a, b][1..] == [b] && [b][1..] == [];
    assert KnownOptions([b]) == [b] + KnownOptions([]);
    assert UnknownOptions([b]) == [] + UnknownOptions([]);
  }

  lemma PiecesOfTwo()
    ensures OptionPieces([KeyOption("pty", Flag(true))]) == ["pty"]
    ensures Join(",", ["pty"] + ["foo ssh-rsa"]) == "pty,foo ssh-rsa"
  {
    var b := KeyOption("pty", Flag(true));
    assert [b][1..] == [];
    FlagPieces(b);
    assert OptionPieces([b]) == ["pty"] + OptionPieces([]);
    assert (["pty"] + ["foo ssh-rsa"])[1..] == ["foo ssh-rsa"];
  }

  lemma ReadOrderIsLegible()
    ensures Legible("foo ssh-rsa,pty", false)
  {
    assert !IsSpace('f');
    hide IsKeytype, IsSpace, Crosses, IndexOf;
    assert "foo ssh-rsa,pty" == "foo" + " " + "ssh-rsa,pty";
    CrossesTwoWords("foo", "ssh-rsa,pty");
    assert "ssh-rsa,pty"[7] == ',';
    CommaIsNoKeytype("ssh-rsa,pty");
    HeadTail("foo", "ssh-rsa,pty");
    assert !IsKeytype("foo") by { ShortIsNoKeytype("foo"); }
  }

  lemma PrintedOrderIsNot()
    ensures !Legible("pty,foo ssh-rsa", false)
  {
    assert IsKeytype("ssh-rsa");
    hide IsKeytype, IsSpace, Crosses, Head;
    assert "pty,foo ssh-rsa" == "pty,foo" + " " + "ssh-rsa";
    CrossesTwoWords("pty,foo", "ssh-rsa");
  }

  lemma ShortIsNoKeytype(s: string)
    requires |s| < 7
    ensures !IsKeytype(s)
  {
  }

  lemma SameKeyPart(d: Entry, e: Entry)
    requires d.keytype == e.keytype && d.key == e.key && d.comment == e.comment
    ensures KeyPart(d) == KeyPart(e)
  {
  }

  lemma ReadReordered(rest: Entry)
    requires IsKeytype(rest.keytype) && ' ' !in rest.key
    ensures var line := "foo ssh-rsa,pty " + KeyPart(rest);
            ParseLine(line) == KeyLine(Entry(line, false, [KeyOption("pty", Flag(true))], ["foo ssh-rsa"],
                                             rest.keytype, rest.key, rest.comment, false))
  {
    hide IsKeytype, IsSpace, KeyPart, SplitLine, ParseLine, Crosses, TokenizeOptions, IndexOf, Head;
    var o, e := "foo ssh-rsa,pty", rest.(disabled := false);
    var line := "foo ssh-rsa,pty " + KeyPart(rest);
    SameKeyPart(rest, e);
    assert line == o + " " + KeyPart(e);
    ReadOrderIsLegible();
    SplitLegible(o, e);
    ParseEnabled(line);
    ReadTwoOptions();
    SortTwoOptions();
  }

  lemma PrintReordered(e: Entry)
    requires e.options == [KeyOption("pty", Flag(true))] && e.unknownOptions == ["foo ssh-rsa"]
    ensures OptionText(e) == "pty,foo ssh-rsa" && PrintedPieces(e) != []
    ensures e.dirty && !e.disabled ==> PrintEntry(e) == "pty,foo ssh-rsa " + KeyPart(e)
  {
    hide KeyPart, Body;
    BodyShape(e);
    PiecesOfTwo();
  }

  /** Known options are written first, and that alone can bring a key type to where the reader looks for one. */
  lemma ReorderedOptionBecomesKeytype(rest: Entry)
    requires IsKeytype(rest.keytype) && ' ' !in rest.key
    ensures var line := "foo ssh-rsa,pty " + KeyPart(rest);
            && ParseLine(line) == KeyLine(Entry(line, false, [KeyOption("pty", Flag(true))], ["foo ssh-rsa"],
                                                rest.keytype, rest.key, rest.comment, false))
            && var e := ParseLine(line).entry.(dirty := true);
               && PrintEntry(e) == "pty,foo ssh-rsa " + KeyPart(rest)
               && ParseLine(PrintEntry(e)) != KeyLine(e.(rawLine := PrintEntry(e), dirty := false))
  {
    hide IsKeytype, KeyPart, ParseLine, Legible, PrintEntry, OptionText, PrintedPieces;
    var line := "foo ssh-rsa,pty " + KeyPart(rest);
    ReadReordered(rest);
    var e := ParseLine(line).entry.(dirty := true);
    SameKeyPart(rest, e);
    PrintReordered(e);
    PrintedOrderIsNot();
    ReadLineRoundTrip(line);
  }
}
