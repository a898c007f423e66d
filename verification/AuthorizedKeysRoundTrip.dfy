/** Printing an entry and reading it back: exactly when every field is recovered. */
module AuthorizedKeysRoundTrip {
  import opened Text
  import opened AuthorizedKeys
  import opened AuthorizedKeysTokens
  import opened AuthorizedKeysScan

  // ---------------------------------------------------------------- well-formed entries

  /** An unknown option as the reader stores it: the printed form of one token. */
  predicate CanonicalUnknown(u: string) {
    var ts := TokenizeOptions(u);
    |ts| == 1 && LiveToken(ts[0]) && !IsKnown(ts[0].name) && SerializeOption(ts[0]) == u
  }

  /** Entries in the reader's terms: names without separators, a one-word key. */
  predicate Printable(e: Entry) {
    && IsKeytype(e.keytype)
    && ' ' !in e.key
    && (forall i :: 0 <= i < |e.options| ==> OptionName(e.options[i].name))
    && (forall i :: 0 <= i < |e.unknownOptions| ==> CanonicalUnknown(e.unknownOptions[i]))
  }

  function PrintedPieces(e: Entry): seq<string> { OptionPieces(e.options) + e.unknownOptions }

  function Last(key: string, comment: string): string {
    if comment != "" then comment else key
  }

  predicate EndsInText(s: string) {
    s != "" && !IsSpace(s[|s| - 1])
  }

  /** Option text that is neither trimmed nor taken for a comment, nor for a key type anywhere outside its quotes. */
  predicate Legible(o: string, disabled: bool) {
    && o != "" && !IsSpace(o[0]) && (o[0] == '#' ==> disabled)
    && !IsKeytype(Head(o)) && Crosses(o, 0, false)
  }

  /** The front of the printed line can be read: its option text or, without one, its key. */
  predicate FrontReads(e: Entry) {
    if PrintedPieces(e) == [] then e.key != "" && !IsSpace(e.key[0]) else Legible(OptionText(e), e.disabled)
  }

  /** What the caller must check before printing, for the line to read back as the entry. */
  predicate ReadsBack(e: Entry) {
    FrontReads(e) && (e.disabled ==> EndsInText(Last(e.key, e.comment)))
  }

  function LiveOptions(options: seq<KeyOption>): seq<KeyOption> {
    if options == [] then []
    else (if SerializeOption(options[0]) != "" then [options[0]] else []) + LiveOptions(options[1..])
  }

  /** The entry a reader recovers: false flags gone, unrecognized names among the unknown. */
  function Normal(e: Entry): Entry {
    e.(rawLine := PrintEntry(e),
       options := KnownOptions(LiveOptions(e.options)),
       unknownOptions := UnknownOptions(e.options) + e.unknownOptions,
       dirty := false)
  }

  // ---------------------------------------------------------------- printed options as tokens

  function UnknownToken(u: string): KeyOption
    requires CanonicalUnknown(u)
  {
    TokenizeOptions(u)[0]
  }

  function UnknownTokens(us: seq<string>): seq<KeyOption>
    requires forall i :: 0 <= i < |us| ==> CanonicalUnknown(us[i])
  {
    if us == [] then [] else [UnknownToken(us[0])] + UnknownTokens(us[1..])
  }

  function Tokens(e: Entry): seq<KeyOption>
    requires Printable(e)
  {
    LiveOptions(e.options) + UnknownTokens(e.unknownOptions)
  }

  lemma {:induction false} PiecesAppend(a: seq<KeyOption>, b: seq<KeyOption>)
    ensures Pieces(a + b) == Pieces(a) + Pieces(b)
  {
  }

  lemma {:induction false} LivePieces(os: seq<KeyOption>)
    requires forall i :: 0 <= i < |os| ==> OptionName(os[i].name)
    ensures LiveTokens(LiveOptions(os)) && Pieces(LiveOptions(os)) == OptionPieces(os)
  {
    hide OptionName, SerializeOption;
    if os != [] {
      LivePieces(os[1..]);
      if SerializeOption(os[0]) != "" {
        PiecesAppend([os[0]], LiveOptions(os[1..]));
      }
    }
  }

  lemma {:induction false} UnknownPieces(us: seq<string>)
    requires forall i :: 0 <= i < |us| ==> CanonicalUnknown(us[i])
    ensures LiveTokens(UnknownTokens(us)) && Pieces(UnknownTokens(us)) == us
    ensures KnownOptions(UnknownTokens(us)) == [] && UnknownOptions(UnknownTokens(us)) == us
  {
    hide LiveToken, TokenizeOptions, SerializeOption, IsKnown;
    if us != [] {
      UnknownPieces(us[1..]);
      assert CanonicalUnknown(us[0]);
      var t := UnknownToken(us[0]);
      PieceShape(t);
      assert UnknownTokens(us)[1..] == UnknownTokens(us[1..]);
      assert [us[0]] + us[1..] == us;
    }
  }

  lemma {:induction false} KnownAppend(a: seq<KeyOption>, b: seq<KeyOption>)
    ensures KnownOptions(a + b) == KnownOptions(a) + KnownOptions(b)
  {
    hide IsKnown;
    if a == [] {
      assert a + b == b;
    } else {
      KnownAppend(a[1..], b);
      assert (a + b)[1..] == a[1..] + b && (a + b)[0] == a[0];
      var first := if IsKnown(a[0].name) then [a[0]] else [];
      assert first + (KnownOptions(a[1..]) + KnownOptions(b)) == first + KnownOptions(a[1..]) + KnownOptions(b);
    }
  }

  lemma {:induction false} UnknownAppend(a: seq<KeyOption>, b: seq<KeyOption>)
    ensures UnknownOptions(a + b) == UnknownOptions(a) + UnknownOptions(b)
  {
    hide SerializeOption, IsKnown;
    if a == [] {
      assert a + b == b;
    } else {
      UnknownAppend(a[1..], b);
      assert (a + b)[1..] == a[1..] + b && (a + b)[0] == a[0];
      var piece := SerializeOption(a[0]);
      var first := if !IsKnown(a[0].name) && piece != "" then [piece] else [];
      assert first + (UnknownOptions(a[1..]) + UnknownOptions(b)) == first + UnknownOptions(a[1..]) + UnknownOptions(b);
    }
  }

  lemma {:induction false} LiveUnknown(os: seq<KeyOption>)
    ensures UnknownOptions(LiveOptions(os)) == UnknownOptions(os)
  {
    hide IsKnown, SerializeOption;
    if os != [] {
      LiveUnknown(os[1..]);
      assert SerializeOption(os[0]) == "" ==>
          && UnknownOptions(os) == [] + UnknownOptions(os[1..]) == UnknownOptions(os[1..])
          && LiveOptions(os) == [] + LiveOptions(os[1..]) == LiveOptions(os[1..]);
      if SerializeOption(os[0]) != "" {
        UnknownAppend([os[0]], LiveOptions(os[1..]));
        UnknownAppend([os[0]], os[1..]);
        assert [os[0]] + os[1..] == os;
      }
    }
  }

  /** The printed option text, its tokens, and how the reader sorts them. */
  lemma PrintedOptions(e: Entry)
    requires Printable(e)
    ensures LiveTokens(Tokens(e)) && Pieces(Tokens(e)) == PrintedPieces(e)
    ensures TokenizeOptions(OptionText(e)) == Tokens(e)
    ensures KnownOptions(Tokens(e)) == Normal(e).options
    ensures UnknownOptions(Tokens(e)) == Normal(e).unknownOptions
  {
    hide LiveToken, SerializeOption, TokenizeOptions, IsKeytype, OptionName, CanonicalUnknown;
    LivePieces(e.options);
    UnknownPieces(e.unknownOptions);
    PiecesAppend(LiveOptions(e.options), UnknownTokens(e.unknownOptions));
    KnownAppend(LiveOptions(e.options), UnknownTokens(e.unknownOptions));
    UnknownAppend(LiveOptions(e.options), UnknownTokens(e.unknownOptions));
    LiveUnknown(e.options);
    TokenizePrinted(Tokens(e));
  }

  // ---------------------------------------------------------------- printed lines as fields

  /** Key type, key and comment as the printer lays them out. */
  function KeyPart(e: Entry): string {
    e.keytype + " " + e.key + (if e.comment != "" then " " + e.comment else "")
  }

  lemma JoinThree(a: string, b: string, c: string)
    ensures Join(" ", [a, b]) == a + " " + b
    ensures Join(" ", [a, b, c]) == a + " " + b + " " + c
  {
    assert [a, b][1..] == [b] && [a, b, c][1..] == [b, c] && [b, c][1..] == [c];
    assert Join(" ", [b, c]) == b + " " + c;
    assert a + " " + (b + " " + c) == a + " " + b + " " + c;
  }

  lemma BodyShape(e: Entry)
    ensures Body(e) == (if PrintedPieces(e) != [] then OptionText(e) + " " + KeyPart(e) else KeyPart(e))
  {
    var core := if e.comment != "" then [e.keytype, e.key, e.comment] else [e.keytype, e.key];
    JoinThree(e.keytype, e.key, e.comment);
    assert Join(" ", core) == KeyPart(e) by {
      assert e.comment != "" ==>
        e.keytype + " " + e.key + (" " + e.comment) == e.keytype + " " + e.key + " " + e.comment;
    }
    JoinCons(" ", OptionText(e), core);
    assert (if PrintedPieces(e) != [] then [OptionText(e)] else []) + [e.keytype, e.key]
           + (if e.comment != "" then [e.comment] else [])
        == if PrintedPieces(e) != [] then [OptionText(e)] + core else core;
  }

  lemma HeadTail(a: string, b: string)
    requires ' ' !in a
    ensures IndexOf(a + " " + b, ' ') == |a| && Head(a + " " + b) == a && Tail(a + " " + b) == b
  {
    IndexOfIs(a + " " + b, ' ', |a|);
  }

  lemma HeadAlone(a: string)
    requires ' ' !in a
    ensures IndexOf(a, ' ') == |a| && Head(a) == a && Tail(a) == ""
  {
    IndexOfIs(a, ' ', |a|);
  }

  lemma KeyAndComment(e: Entry)
    requires ' ' !in e.key
    ensures var rest := e.key + (if e.comment != "" then " " + e.comment else "");
            Head(rest) == e.key && Tail(rest) == e.comment
  {
    if e.comment != "" {
      assert e.key + (" " + e.comment) == e.key + " " + e.comment;
      HeadTail(e.key, e.comment);
    } else {
      assert e.key + "" == e.key;
      HeadAlone(e.key);
    }
  }

  lemma PlainHasNoSpace(n: string)
    requires PlainName(n)
    ensures ' ' !in n && '"' !in n && n != "" && !IsSpace(n[0]) && n[0] != '#'
  {
    hide IsSpace;
    assert PlainChar(n[0]);
  }

  lemma KeyPartFields(e: Entry)
    requires IsKeytype(e.keytype) && ' ' !in e.key
    ensures IndexOf(KeyPart(e), ' ') == |e.keytype| < |KeyPart(e)| && Head(KeyPart(e)) == e.keytype
    ensures Head(Tail(KeyPart(e))) == e.key && Tail(Tail(KeyPart(e))) == e.comment
    ensures Tail(KeyPart(e)) == e.key + (if e.comment != "" then " " + e.comment else "")
  {
    hide IsKeytype;
    KeytypePlain(e.keytype);
    PlainHasNoSpace(e.keytype);
    var rest := e.key + (if e.comment != "" then " " + e.comment else "");
    assert KeyPart(e) == e.keytype + " " + rest;
    HeadTail(e.keytype, rest);
    KeyAndComment(e);
  }

  lemma LStripKeeps(s: string)
    requires s != "" && !IsSpace(s[0])
    ensures LStrip(s) == s
  {
  }

  /** A printed body without options. */
  lemma SplitKeyPart(e: Entry)
    requires IsKeytype(e.keytype) && ' ' !in e.key
    requires e.key != "" && !IsSpace(e.key[0])
    ensures SplitLine(KeyPart(e)) == Some(Fields("", e.keytype, e.key, e.comment))
  {
    hide IsKeytype, IsSpace, KeyPart, ScanForKeytype, Head, Tail;
    KeyPartFields(e);
    KeytypePlain(e.keytype);
    PlainHasNoSpace(e.keytype);
    var s := KeyPart(e);
    assert s[..|e.keytype|] == e.keytype && s[|e.keytype| + 1..] == Tail(s) by { HeadTailDef(s); }
    assert s[0] == s[..|e.keytype|][0] == e.keytype[0];
    LStripKeeps(s);
    LStripKeeps(Tail(s));
  }

  lemma HeadTailDef(s: string)
    ensures Head(s) == s[..IndexOf(s, ' ')]
    ensures Tail(s) == if IndexOf(s, ' ') < |s| then s[IndexOf(s, ' ') + 1..] else ""
  {
  }

  lemma {:induction false} ScanStops(s: string, j: nat, k: nat, m: nat)
    requires j < k <= m <= |s| && s[j] == ' ' && SkipSpaces(s, j) == k
    requires IndexOf(s[k..], ' ') == m - k && IsKeytype(s[k..m])
    ensures ScanForKeytype(s, j, false) == FieldsAt(s, j, k)
  {
    hide IsKeytype, FieldsAt, SkipSpaces, ScanForKeytype;
    ScanUnfold(s, j, false);
  }

  /** After any option text and one space the scanner reads the fields of a text that starts with a key type. */
  lemma ScanFinds(t: string, p: string)
    requires IndexOf(p, ' ') < |p| && IsKeytype(Head(p)) && p[0] != ' '
    ensures ScanForKeytype(t + " " + p, |t|, false) == Some(Fields(t, Head(p), Head(Tail(p)), Tail(Tail(p))))
  {
    hide IsKeytype, Tail, ScanForKeytype, IndexOf;
    var s, k := t + " " + p, |t| + 1;
    var m := k + IndexOf(p, ' ');
    assert s[k..] == p && s[..|t|] == t && s[k..m] == p[..IndexOf(p, ' ')];
    OneSpace(t, p);
    hide SkipSpaces;
    ScanStops(s, |t|, k, m);
  }

  lemma ScanFindsKeyPart(t: string, e: Entry)
    requires IsKeytype(e.keytype) && ' ' !in e.key
    ensures ScanForKeytype(t + " " + KeyPart(e), |t|, false) == Some(Fields(t, e.keytype, e.key, e.comment))
  {
    var p := KeyPart(e);
    hide IsKeytype, KeyPart, Head, Tail, ScanForKeytype, PlainName, IndexOf;
    KeyPartFields(e);
    KeytypePlain(e.keytype);
    PlainHasNoSpace(e.keytype);
    HeadTailDef(p);
    assert p[0] == p[..|e.keytype|][0] == e.keytype[0];
    assert e.keytype[0] in e.keytype;
    ScanFinds(t, p);
  }

  lemma OneSpace(t: string, p: string)
    requires p != "" && p[0] != ' '
    ensures var s := t + " " + p; s[|t|] == ' ' && SkipSpaces(s, |t|) == |t| + 1
  {
    var s := t + " " + p;
    assert s[|t|] == ' ' && s[|t| + 1] == p[0];
    assert SkipSpaces(s, |t| + 1) == |t| + 1;
  }

  lemma SplitScans(s: string)
    requires s != "" && !IsSpace(s[0]) && IndexOf(s, ' ') < |s| && !IsKeytype(Head(s))
    ensures SplitLine(s) == ScanForKeytype(s, 0, false)
  {
    hide IsKeytype, IsSpace, ScanForKeytype;
    LStripKeeps(s);
  }

  // ---------------------------------------------------------------- reading a printed entry

  /** The first word of a line with options is the first word of the options. */
  lemma HeadOfOptions(o: string, p: string)
    ensures IndexOf(o + " " + p, ' ') == IndexOf(o, ' ') && Head(o + " " + p) == Head(o)
  {
    hide IndexOf;
    var s, n := o + " " + p, IndexOf(o, ' ');
    assert forall i :: 0 <= i < n ==> s[i] == o[i];
    assert s[n] == ' ';
    IndexOfIs(s, ' ', n);
    assert s[..n] == o[..n];
  }

  lemma KeyPartStart(e: Entry)
    requires IsKeytype(e.keytype)
    ensures KeyPart(e) != "" && KeyPart(e)[0] == e.keytype[0] && !IsSpace(e.keytype[0]) && e.keytype[0] != ' '
    ensures e.keytype[0] != '#'
  {
    hide IsKeytype, IsSpace;
    KeytypePlain(e.keytype);
    PlainHasNoSpace(e.keytype);
    assert e.keytype[0] in e.keytype;
  }

  /** A line with legible options splits into exactly its option text, key type, key and comment. */
  lemma SplitLegible(o: string, e: Entry)
    requires IsKeytype(e.keytype) && ' ' !in e.key && Legible(o, e.disabled)
    ensures SplitLine(o + " " + KeyPart(e)) == Some(Fields(o, e.keytype, e.key, e.comment))
  {
    hide IsKeytype, IsSpace, KeyPart, SplitLine, Crosses, ScanForKeytype, Head, IndexOf;
    var p := KeyPart(e);
    KeyPartStart(e);
    HeadOfOptions(o, p);
    assert (o + " " + p)[0] == o[0];
    SplitScans(o + " " + p);
    ScanOptions(o, p, 0, false);
    ScanFindsKeyPart(o, e);
  }

  /** A printed body splits into exactly its option text, key type, key and comment. */
  lemma SplitBody(e: Entry)
    requires IsKeytype(e.keytype) && ' ' !in e.key && FrontReads(e)
    ensures SplitLine(Body(e)) == Some(Fields(OptionText(e), e.keytype, e.key, e.comment))
  {
    hide IsKeytype, IsSpace, KeyPart, SplitLine, Body, Legible;
    BodyShape(e);
    if PrintedPieces(e) == [] { SplitKeyPart(e); } else { SplitLegible(OptionText(e), e); }
  }

  lemma StripHead(s: string)
    requires s != "" && !IsSpace(s[0])
    ensures Strip(s) == RStrip(s) != "" && Strip(s)[0] == s[0]
  {
    LStripKeeps(s);
  }

  /** The last character of a body is that of its comment or, without one, its key. */
  lemma BodyLast(e: Entry)
    ensures var last := if e.comment != "" then e.comment else e.key;
            var b := Body(e);
            b != "" && (if last == "" then b[|b| - 1] == ' ' else b[|b| - 1] == last[|last| - 1])
  {
    hide Body;
    BodyShape(e);
  }

  /** The body that the reader recovers from a printed line. */
  function ReadBody(e: Entry): string {
    if e.disabled then RStrip(Body(e)) else Body(e)
  }

  lemma RStripAfterHash(b: string)
    requires RStrip(b) != ""
    ensures RStrip("# " + b) == "# " + RStrip(b)
  {
    hide IsSpace, RStrip;
    var s, r := "# " + b, RStrip(b);
    assert s[|r| + 1] == b[|r| - 1] == r[|r| - 1];
    forall i | |r| + 2 <= i < |s| ensures IsSpace(s[i]) { assert s[i] == b[i - 2]; }
    RStripAt(s, |r| + 2);
    assert s[..|r| + 2] == "# " + b[..|r|];
  }

  lemma ParseEnabled(b: string)
    requires b != "" && !IsSpace(b[0]) && b[0] != '#'
    ensures ParseLine(b) == match SplitLine(b)
                            case None => Passthrough(b)
                            case Some(f) => KeyLine(EntryOf(b, false, f))
  {
    hide IsSpace, SplitLine, EntryOf, Strip;
    StripHead(b);
  }

  lemma ParseDisabled(b: string)
    requires RStrip(b) != ""
    ensures ParseLine("# " + b) == match SplitLine(RStrip(b))
                                   case None => Passthrough("# " + b)
                                   case Some(f) => KeyLine(EntryOf("# " + b, true, f))
  {
    hide IsSpace, SplitLine, EntryOf, RStrip, LStrip, Strip;
    HashedLine(b);
    SplitStripped(RStrip(b));
  }

  /** A commented line, stripped, and its body behind the mark. */
  lemma HashedLine(b: string)
    requires RStrip(b) != ""
    ensures var s := Strip("# " + b); s != "" && s[0] == '#' && LStrip(s[1..]) == LStrip(RStrip(b))
  {
    hide IsSpace, RStrip, LStrip, Strip;
    RStripAfterHash(b);
    HashIsNoSpace();
    HashTail(b);
    HashTail(RStrip(b));
    StripHead("# " + b);
    LStripOneSpace(RStrip(b));
  }

  lemma HashTail(r: string)
    ensures ("# " + r)[0] == '#' && ("# " + r)[1..] == " " + r
  {
  }

  lemma LStripOneSpace(s: string)
    ensures LStrip(" " + s) == LStrip(s)
  {
    assert (" " + s)[1..] == s;
  }

  lemma StripTwice(s: string)
    ensures LStrip(LStrip(s)) == LStrip(s)
  {
  }

  lemma SplitStripped(s: string)
    ensures SplitLine(LStrip(s)) == SplitLine(s)
  {
    hide IsSpace, IsKeytype, ScanForKeytype, LStrip, Head, Tail, IndexOf;
    StripTwice(s);
  }

  /** A body has text in it, so stripping leaves some. */
  lemma BodyHasText(e: Entry)
    requires IsKeytype(e.keytype)
    ensures RStrip(Body(e)) != "" && Strip(Body(e)) != ""
  {
    hide IsKeytype, IsSpace, Body, KeyPart, RStrip, LStrip;
    BodyShape(e);
    KeyPartStart(e);
    var b, i := Body(e), |Body(e)| - |KeyPart(e)|;
    assert b[i] == KeyPart(e)[0];
    var l := LStrip(b);
    assert i >= |b| - |l|;
    assert l[i - (|b| - |l|)] == b[i];
  }

  lemma {:induction false} ReadsPrinted(e: Entry)
    requires Printable(e) && e.dirty && ReadsBack(e)
    ensures ParseLine(PrintEntry(e)) == KeyLine(Normal(e))
  {
    hide IsKeytype, IsSpace, CanonicalUnknown, OptionName, SplitLine, Body, ParseLine, RStrip, Strip, FrontReads,
      EntryOf, OptionText, Normal, EndsInText;
    SplitBody(e);
    EntryOfPrinted(e);
    if e.disabled {
      BodyHasText(e);
      BodyIsKept(e);
      ParseDisabled(Body(e));
    } else {
      FrontStarts(e);
      ParseEnabled(Body(e));
    }
  }

  lemma BodyIsKept(e: Entry)
    requires EndsInText(Last(e.key, e.comment))
    ensures RStrip(Body(e)) == Body(e)
  {
    hide IsSpace, Body, RStrip;
    BodyLast(e);
    RStripKeepsText(Body(e));
  }

  lemma EntryOfPrinted(e: Entry)
    requires Printable(e)
    ensures EntryOf(PrintEntry(e), e.disabled, Fields(OptionText(e), e.keytype, e.key, e.comment)) == Normal(e)
  {
    hide IsKeytype, CanonicalUnknown, OptionName, TokenizeOptions, OptionText, PrintEntry, Tokens;
    PrintedOptions(e);
  }

  lemma FrontStarts(e: Entry)
    requires IsKeytype(e.keytype) && FrontReads(e)
    ensures Body(e) != "" && !IsSpace(Body(e)[0]) && (Body(e)[0] == '#' ==> e.disabled)
  {
    hide IsKeytype, IsSpace, Body, KeyPart, Crosses, OptionText, PrintedPieces;
    BodyShape(e);
    KeyPartStart(e);
  }

  lemma RStripKeepsText(s: string)
    ensures s != "" && !IsSpace(s[|s| - 1]) ==> RStrip(s) == s
  {
  }

  lemma HashIsNoSpace()
    ensures !IsSpace('#')
  {
  }

  // ---------------------------------------------------------------- and only then

  lemma StartsWithKeytype(s: string, k: string)
    requires IsKeytype(k) && |k| <= |s| && s[..|k|] == k && (|k| < |s| ==> s[|k|] == ' ')
    ensures SplitLine(s).Some? ==> SplitLine(s).value.options == ""
  {
    hide IsKeytype, IsSpace, ScanForKeytype, PlainName, Head, Tail;
    KeytypePlain(k);
    PlainHasNoSpace(k);
    assert s[0] == s[..|k|][0];
    LStripKeeps(s);
    forall j | 0 <= j < |k| ensures s[j] != ' ' { assert s[j] == s[..|k|][j] && s[..|k|][j] in k; }
    IndexOfIs(s, ' ', |k|);
  }

  lemma {:induction false} HeadTailLast(s: string)
    requires EndsInText(s)
    ensures EndsInText(Last(Head(s), Tail(s))) && ' ' !in Head(s)
    ensures IndexOf(s, ' ') < |s| ==> EndsInText(Tail(s))
  {
    assert IsSpace(' ');
    hide IsSpace, IndexOf;
    HeadTailDef(s);
    var i := IndexOf(s, ' ');
    if i < |s| {
      assert i + 1 < |s|;
      assert Tail(s)[|Tail(s)| - 1] == s[|s| - 1];
    } else {
      assert Head(s) == s;
    }
  }

  /** What every successful split of `b` guarantees about its fields. */
  predicate GoodFields(b: string, f: Fields) {
    && IsKeytype(f.keytype) && ' ' !in f.key
    && (f.options != "" ==> !IsSpace(f.options[0]))
    && (f.options == "" ==> f.key != "" && !IsSpace(f.key[0]))
    && (EndsInText(b) ==> EndsInText(Last(f.key, f.comment)))
  }

  lemma FirstWordFacts(rest: string)
    requires Head(rest) != "" && !IsSpace(rest[0])
    ensures ' ' !in Head(rest) && !IsSpace(Head(rest)[0])
    ensures EndsInText(rest) ==> EndsInText(Last(Head(rest), Tail(rest)))
  {
    hide IsSpace, Tail, IndexOf, EndsInText, Last;
    HeadTailDef(rest);
    assert Head(rest)[0] == rest[0];
    if EndsInText(rest) { HeadTailLast(rest); }
  }

  lemma LStripEnds(t: string)
    requires LStrip(t) != ""
    ensures !IsSpace(LStrip(t)[0]) && (EndsInText(t) <==> EndsInText(LStrip(t)))
  {
    hide IsSpace, LStrip;
    assert LStrip(t)[|LStrip(t)| - 1] == t[|t| - 1];
  }

  lemma SplitAtKeytypeFacts(s: string)
    requires IndexOf(s, ' ') < |s| && IsKeytype(Head(s)) && Head(LStrip(Tail(s))) != ""
    ensures GoodFields(s, Fields("", Head(s), Head(LStrip(Tail(s))), Tail(LStrip(Tail(s)))))
  {
    hide IsKeytype, IsSpace, Tail, LStrip, IndexOf, Last;
    HeadTailDef(s);
    var rest := LStrip(Tail(s));
    HeadTailDef(rest);
    assert rest != "";
    LStripEnds(Tail(s));
    hide Head;
    assert EndsInText(s) ==> Tail(s)[|Tail(s)| - 1] == s[|s| - 1];
    FirstWordFacts(rest);
  }

  lemma ScanGoodFields(s: string, f: Fields, k: nat)
    requires ScanEnd(s, f, k) && f.options != "" && !IsSpace(s[0])
    ensures GoodFields(s, f)
  {
    hide IsKeytype, IsSpace, Head, Tail;
    var rest := s[k..];
    HeadTailDef(Tail(rest));
    assert ' ' !in Head(Tail(rest));
    if EndsInText(s) {
      assert rest[|rest| - 1] == s[|s| - 1];
      HeadTailLast(rest);
      HeadTailLast(Tail(rest));
    }
  }

  lemma SplitFacts(b: string)
    requires SplitLine(b).Some?
    ensures GoodFields(b, SplitLine(b).value)
  {
    hide IsKeytype, IsSpace, ScanForKeytype, Head, Tail, GoodFields, LStrip, IndexOf;
    var s := LStrip(b);
    HeadTailDef(s);
    SpaceIsSpace();
    if IsKeytype(s[..IndexOf(s, ' ')]) {
      SplitAtKeytypeFacts(s);
    } else {
      var k := ScanFacts(s, 0, false);
      ScanGoodFields(s, ScanForKeytype(s, 0, false).value, k);
    }
    GoodFieldsOf(b, s, SplitLine(b).value);
  }

  lemma GoodFieldsOf(b: string, s: string, f: Fields)
    requires GoodFields(s, f) && s != "" && |s| <= |b| && s == b[|b| - |s|..]
    ensures GoodFields(b, f)
  {
    hide IsSpace, IsKeytype;
  }

  lemma NormalKeepsOptions(e: Entry)
    requires Printable(e) && PrintedPieces(e) != []
    ensures Normal(e).options != [] || Normal(e).unknownOptions != []
  {
    hide IsKeytype, CanonicalUnknown, PlainName, SerializeOption, TokenizeOptions, IsKnown, Tokens, Normal;
    PrintedOptions(e);
    PieceShape(Tokens(e)[0]);
  }

  /** What it takes for a printed line to have been read as the entry. */
  lemma ReadMeansSplit(e: Entry) returns (f: Fields)
    requires IsKeytype(e.keytype) && e.dirty && ParseLine(PrintEntry(e)) == KeyLine(Normal(e))
    ensures SplitLine(ReadBody(e)) == Some(f) && EntryOf(PrintEntry(e), e.disabled, f) == Normal(e)
    ensures Strip(Body(e)) != "" && (!e.disabled ==> Strip(Body(e))[0] != '#')
  {
    hide IsKeytype, IsSpace, SplitLine, Body, Strip, RStrip, LStrip, TokenizeOptions;
    BodyHasText(e);
    if e.disabled { ParseDisabled(Body(e)); }
    f := SplitLine(ReadBody(e)).value;
  }

  /** Whitespace at the end of a disabled entry would have been trimmed. */
  lemma EndIsKept(e: Entry, f: Fields)
    requires e.disabled && SplitLine(ReadBody(e)) == Some(f) && f.key == e.key && f.comment == e.comment
    ensures EndsInText(Last(e.key, e.comment))
  {
    hide IsKeytype, IsSpace, SplitLine, Body, RStrip;
    SplitFacts(ReadBody(e));
    SplitNonEmpty(ReadBody(e));
  }

  /** A key that is empty or begins with whitespace is not read after a leading key type. */
  lemma KeyIsKept(e: Entry, f: Fields)
    requires IsKeytype(e.keytype) && PrintedPieces(e) == [] && SplitLine(ReadBody(e)) == Some(f) && f.key == e.key
    ensures e.key != "" && !IsSpace(e.key[0])
  {
    hide IsKeytype, IsSpace, SplitLine, Body, PrintEntry, RStrip, PlainName;
    var b, s, k := Body(e), ReadBody(e), e.keytype;
    BodyShape(e);
    KeytypePlain(k);
    PlainLast(k);
    assert b[..|k|] == k && b[|k|] == ' ';
    assert b[|k| - 1] == b[..|k|][|k| - 1];
    assert |k| <= |s| && s[..|k|] == b[..|k|];
    StartsWithKeytype(s, k);
    SplitFacts(s);
  }

  lemma PlainLast(n: string)
    requires PlainName(n)
    ensures EndsInText(n)
  {
    hide IsSpace;
    assert PlainChar(n[|n| - 1]);
  }

  /** A split with options was made by the scanner, behind the whitespace in front. */
  lemma SplitScanned(b: string, f: Fields)
    requires SplitLine(b) == Some(f) && f.options != ""
    ensures var s := LStrip(b); ScanForKeytype(s, 0, false) == Some(f) && !IsKeytype(Head(s))
  {
    hide IsKeytype, IsSpace, ScanForKeytype, LStrip;
  }

  /** Text put together again from its first two words and the rest: one space at its end may be lost. */
  lemma Reassemble(p: string, e: Entry)
    requires IndexOf(p, ' ') < |p|
    requires e.keytype == Head(p) && e.key == Head(Tail(p)) && e.comment == Tail(Tail(p))
    ensures p == KeyPart(e) || p == KeyPart(e) + " "
  {
    hide IndexOf, Head, Tail;
    var t := Tail(p);
    HeadAndTail(p);
    HeadAndTail(t);
    if IndexOf(t, ' ') < |t| {
      assert p == e.keytype + " " + e.key + " " + e.comment;
    }
  }

  lemma CutAt(s: string, i: nat)
    requires i < |s|
    ensures s == s[..i] + [s[i]] + s[i + 1..]
  {
  }

  lemma HeadAndTail(s: string)
    ensures if IndexOf(s, ' ') < |s| then s == Head(s) + " " + Tail(s) else s == Head(s) && Tail(s) == ""
  {
    hide IndexOf, Head, Tail;
    HeadTailDef(s);
    var i := IndexOf(s, ' ');
    if i < |s| {
      CutAt(s, i);
    } else {
      assert s[..i] == s;
    }
  }

  /** The key type, key and comment were read from where they were printed. */
  lemma KeyPartIsThere(o: string, e: Entry, s: string, k: nat)
    requires IsKeytype(e.keytype) && k <= |s| <= |o + " " + KeyPart(e)|
    requires var b := o + " " + KeyPart(e); s == b[|b| - |s|..]
    requires s[k..] == KeyPart(e) || s[k..] == KeyPart(e) + " "
    ensures s[k..] == KeyPart(e)
  {
    hide IsKeytype, KeyPart, IsSpace;
    KeyPartStart(e);
    var b, p := o + " " + KeyPart(e), s[k..];
    assert p == b[|b| - |p|..];
    assert p[0] == b[|b| - |p|] && b[|o|] == ' ';
  }

  /** Where the option text that was read lies in the one that was printed. */
  lemma OptionsAreThere(o: string, e: Entry, f: Fields) returns (a: nat, b: nat)
    requires IsKeytype(e.keytype) && SplitLine(o + " " + KeyPart(e)) == Some(f) && f.options != ""
    requires f.keytype == e.keytype && f.key == e.key && f.comment == e.comment
    ensures a + b < |o| && f.options == o[a..|o| - b] && !IsSpace(f.options[0])
    ensures forall i :: 0 <= i < a ==> IsSpace(o[i])
    ensures forall i :: |o| - b <= i < |o| ==> o[i] == ' '
  {
    hide IsKeytype, IsSpace, KeyPart, SplitLine, Head, Tail, IndexOf, LStrip, ScanForKeytype;
    var line := o + " " + KeyPart(e);
    var s := LStrip(line);
    SplitScanned(line, f);
    var k := ScanFacts(s, 0, false);
    Reassemble(s[k..], e);
    KeyPartIsThere(o, e, s, k);
    a := |line| - |s|;
    assert a + k == |o| + 1;
    b := k - 1 - |f.options|;
    assert f.options == o[a..|o| - b];
    assert forall i :: 0 <= i < a ==> o[i] == line[i];
    forall i | |o| - b <= i < |o| ensures o[i] == ' ' { assert o[i] == line[i] == s[i - a]; }
  }

  /** Options that are read back were legible. */
  lemma OptionsAreKept(e: Entry, f: Fields)
    requires Printable(e) && PrintedPieces(e) != [] && SplitLine(Body(e)) == Some(f)
    requires EntryOf(PrintEntry(e), e.disabled, f) == Normal(e)
    requires Strip(Body(e)) != "" && (!e.disabled ==> Strip(Body(e))[0] != '#')
    ensures Legible(OptionText(e), e.disabled)
  {
    hide IsKeytype, IsSpace, KeyPart, SplitLine, Head, Crosses, LStrip, RStrip, Strip, ScanForKeytype, IndexOf, Body,
      CanonicalUnknown, OptionName, TokenizeOptions, OptionText, PrintEntry, Tokens, LiveTokens, Normal,
      UnknownOptions, KnownOptions, Pieces;
    var o, p := OptionText(e), KeyPart(e);
    BodyShape(e);
    NormalKeepsOptions(e);
    NoOptionsRead(f.options);
    assert f.keytype == e.keytype && f.key == e.key && f.comment == e.comment by { NormalKey(e); }
    PrintedOptions(e);
    assert o == Join(",", Pieces(Tokens(e))) by { TextOfPieces(e); }
    var a, b := OptionsAreThere(o, e, f);
    assert a + b == 0 by {
      if a + b > 0 { TrimmedDiffers(Tokens(e), a, b); }
    }
    assert f.options == o && o != "";
    assert Body(e)[0] == o[0];
    StripHead(Body(e));
    LStripKeeps(Body(e));
    SplitScanned(Body(e), f);
    HeadOfOptions(o, p);
    KeyPartStart(e);
    ScanOptions(o, p, 0, false);
  }

  lemma NoOptionsRead(s: string)
    ensures s == "" ==> KnownOptions(TokenizeOptions(s)) == [] && UnknownOptions(TokenizeOptions(s)) == []
  {
  }

  lemma NormalKey(e: Entry)
    ensures Normal(e).keytype == e.keytype && Normal(e).key == e.key && Normal(e).comment == e.comment
  {
  }

  lemma TextOfPieces(e: Entry)
    ensures OptionText(e) == Join(",", PrintedPieces(e))
  {
  }

  /** A printed line that reads as the entry met every condition. */
  lemma ReadBackMeans(e: Entry)
    requires Printable(e) && e.dirty && ParseLine(PrintEntry(e)) == KeyLine(Normal(e))
    ensures ReadsBack(e)
  {
    hide IsKeytype, IsSpace, SplitLine, Body, PrintEntry, ParseLine, PrintedPieces, OptionText, Legible,
      CanonicalUnknown, OptionName, RStrip, Strip, TokenizeOptions;
    var f := ReadMeansSplit(e);
    if e.disabled {
      EndIsKept(e, f);
      BodyIsKept(e);
    }
    if PrintedPieces(e) == [] { KeyIsKept(e, f); } else { OptionsAreKept(e, f); }
  }

  /**
   * A dirty entry is recovered from its printed line, field for field, exactly when its option text
   * is legible or, without one, its key can stand first after the key type, and - if it is disabled -
   * nothing at its end is trimmed.
   */
  lemma DirtyRoundTrip(e: Entry)
    requires Printable(e) && e.dirty
    ensures ParseLine(PrintEntry(e)) == KeyLine(Normal(e)) <==> ReadsBack(e)
  {
    hide *;
    if ReadsBack(e) { ReadsPrinted(e); }
    if ParseLine(PrintEntry(e)) == KeyLine(Normal(e)) { ReadBackMeans(e); }
  }

  // ---------------------------------------------------------------- reading twice

  /** What the tokenizer reads: names without separators, and no option switched off. */
  lemma {:induction false} TokensHaveNames(s: string)
    requires s != "" ==> Solid(s[0]) || s[0] == ','
    ensures forall t :: t in TokenizeOptions(s) ==> OptionName(t.name) && t.value != Flag(false)
    decreases |s|
  {
    hide ReadValue, SeparatorLength, NameLength;
    if s != "" {
      var r := ReadOption(s);
      assert forall i :: 0 <= i < |r.0.name| ==> r.0.name[i] == s[i];
      TokensHaveNames(s[r.1..]);
    }
  }

  lemma CanonicalPiece(t: KeyOption)
    requires LiveToken(t) && !IsKnown(t.name)
    ensures CanonicalUnknown(SerializeOption(t))
  {
    hide LiveToken, IsKnown, SerializeOption, TokenizeOptions;
    TokenizePrinted([t]);
    assert Pieces([t]) == [SerializeOption(t)];
  }

  lemma {:induction false} UnknownAreCanonical(os: seq<KeyOption>)
    requires forall i :: 0 <= i < |os| ==> OptionName(os[i].name)
    ensures forall i :: 0 <= i < |UnknownOptions(os)| ==> CanonicalUnknown(UnknownOptions(os)[i])
  {
    hide OptionName, IsKnown, CanonicalUnknown, SerializeOption;
    if os != [] {
      UnknownAreCanonical(os[1..]);
      if SerializeOption(os[0]) != "" && !IsKnown(os[0].name) { CanonicalPiece(os[0]); }
    }
  }

  predicate AllKnownAndLive(os: seq<KeyOption>) {
    forall i :: 0 <= i < |os| ==> IsKnown(os[i].name) && os[i].value != Flag(false)
  }

  lemma {:induction false} KnownAreKnown(os: seq<KeyOption>)
    ensures AllKnownAndLive(KnownOptions(LiveOptions(os)))
  {
    hide IsKnown;
    if os != [] {
      KnownAreKnown(os[1..]);
      assert SerializeOption(os[0]) == "" ==> LiveOptions(os) == [] + LiveOptions(os[1..]) == LiveOptions(os[1..]);
      if SerializeOption(os[0]) != "" { KnownAppend([os[0]], LiveOptions(os[1..])); }
    }
  }

  /** Known live options are sorted into place unchanged. */
  lemma {:induction false} KnownStayPut(os: seq<KeyOption>)
    requires AllKnownAndLive(os)
    ensures LiveOptions(os) == os && KnownOptions(os) == os && UnknownOptions(os) == []
    ensures forall i :: 0 <= i < |os| ==> OptionName(os[i].name)
  {
    hide IsKnown, PlainName, OptionName, SerializeOption;
    if os != [] {
      KnownStayPut(os[1..]);
      KnownNamesPlain(os[0].name);
      PlainIsLive(os[0]);
      assert [os[0]] + os[1..] == os;
    }
  }

  /** An entry with recognized, set options is recovered as it is. */
  lemma NormalIsIdentity(e: Entry)
    requires AllKnownAndLive(e.options)
    ensures Normal(e) == e.(rawLine := PrintEntry(e), dirty := false)
  {
    hide PrintEntry, AllKnownAndLive;
    KnownStayPut(e.options);
    assert [] + e.unknownOptions == e.unknownOptions;
  }

  /** What was recovered once is recovered unchanged, and prints the same line from then on. */
  lemma ReprintFixpoint(e: Entry)
    requires Printable(e)
    ensures var again := Normal(e).(dirty := true);
            && Printable(again)
            && Normal(again) == Normal(e).(rawLine := PrintEntry(again))
            && PrintEntry(Normal(again).(dirty := true)) == PrintEntry(again)
  {
    hide IsKeytype, CanonicalUnknown, OptionName, IsKnown, SerializeOption;
    var again := Normal(e).(dirty := true);
    KnownAreKnown(e.options);
    KnownStayPut(again.options);
    UnknownAreCanonical(e.options);
    NormalIsIdentity(again);
    assert Body(again) == Body(Normal(again).(dirty := true));
  }

  /** The fields an entry was read from. */
  function FieldsOf(line: string): Option<Fields> {
    var stripped := Strip(line);
    if stripped == "" then None
    else if stripped[0] == '#' then SplitLine(LStrip(stripped[1..]))
    else SplitLine(line)
  }

  lemma {:induction false} FieldsOfFacts(line: string)
    requires ParseLine(line).KeyLine?
    ensures FieldsOf(line).Some?
    ensures var e, f := ParseLine(line).entry, FieldsOf(line).value;
            && e == EntryOf(line, e.disabled, f) && IsKeytype(f.keytype) && ' ' !in f.key
            && (f.options == "" ==> f.key != "" && !IsSpace(f.key[0]))
            && (f.options != "" ==> !IsSpace(f.options[0]))
            && (e.disabled ==> EndsInText(Last(f.key, f.comment)))
  {
    hide IsKeytype, IsSpace, SplitLine, EntryOf, LStrip, RStrip, Strip;
    var stripped := Strip(line);
    if stripped[0] == '#' {
      var body := LStrip(stripped[1..]);
      SplitFacts(body);
      SplitNonEmpty(body);
      assert EndsInText(body);
    } else {
      SplitFacts(line);
    }
    assert EntryOf(line, true, FieldsOf(line).value).disabled && !EntryOf(line, false, FieldsOf(line).value).disabled
      by { EntryOfDisabled(line, FieldsOf(line).value); }
  }

  lemma EntryOfDisabled(line: string, f: Fields)
    ensures EntryOf(line, true, f).disabled && !EntryOf(line, false, f).disabled
  {
  }

  lemma SplitNonEmpty(s: string)
    requires SplitLine(s).Some?
    ensures s != ""
  {
  }

  lemma {:induction false} KnownReadAreLive(ts: seq<KeyOption>)
    requires forall t :: t in ts ==> t.value != Flag(false)
    ensures AllKnownAndLive(KnownOptions(ts))
  {
    hide IsKnown;
    if ts != [] { KnownReadAreLive(ts[1..]); }
  }

  /** Whatever line an entry was read from, it is in the reader's terms, and nothing at its end is trimmed. */
  lemma ReadIsPrintable(line: string)
    requires ParseLine(line).KeyLine?
    ensures var e := ParseLine(line).entry;
            && Printable(e) && AllKnownAndLive(e.options)
            && (e.disabled ==> EndsInText(Last(e.key, e.comment)))
  {
    hide IsKeytype, IsSpace, FieldsOf, ParseLine, OptionName, CanonicalUnknown, TokenizeOptions, IsKnown, EndsInText;
    FieldsOfFacts(line);
    var f := FieldsOf(line).value;
    var ts := TokenizeOptions(f.options);
    assert f.options != "" ==> Solid(f.options[0]) || f.options[0] == ',' by { TextIsSolid(f.options); }
    TokensHaveNames(f.options);
    KnownReadAreLive(ts);
    KnownStayPut(KnownOptions(ts));
    UnknownAreCanonical(ts);
  }

  lemma TextIsSolid(s: string)
    ensures s != "" && !IsSpace(s[0]) ==> Solid(s[0]) || s[0] == ','
  {
  }

  /**
   * Reprinting any line that was read loses and invents nothing: the new line reads back as the same
   * entry if and only if its option text is legible or, without one, its key can stand first.
   */
  lemma ReadLineRoundTrip(line: string)
    requires ParseLine(line).KeyLine?
    ensures var e := ParseLine(line).entry.(dirty := true);
            ParseLine(PrintEntry(e)) == KeyLine(e.(rawLine := PrintEntry(e), dirty := false))
            <==> FrontReads(e)
  {
    hide IsKeytype, ParseLine, OptionName, CanonicalUnknown, FrontReads, AllKnownAndLive, PrintEntry, EndsInText;
    ReadIsPrintable(line);
    var e := ParseLine(line).entry.(dirty := true);
    NormalIsIdentity(e);
    DirtyRoundTrip(e);
  }
}
