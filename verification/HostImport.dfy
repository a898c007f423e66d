/** Importing the same SSH hosts twice, and the loops that select them. */
module HostImport {
  import opened Text
  import opened SshConfig
  import opened HostMerge

  // ---------------------------------------------------------------- what a written block declares

  /** The names an import would add on its own, because some of the stanza's names exist already. */
  function SplitOff(s: Stanza, existing: set<string>): seq<string> {
    Lacking(Concrete(s.patterns), existing)
  }

  /** A stanza read from some text. */
  predicate FromText(s: Stanza) {
    WellHeaded(s) && forall l :: l in s.block ==> NoBreaks(l)
  }

  lemma {:induction false} ShlexNoBreaks(s: string, state: LexState, word: string, quoted: bool)
    requires NoBreaks(s) && NoBreaks(word) && Shlex(s, state, word, quoted).Some?
    ensures forall w :: w in Shlex(s, state, word, quoted).value ==> NoBreaks(w)
    decreases |s|
  {
    assert !IsLineBreak('\\');
    hide IsLineBreak, ShellSpace;
    if s != "" {
      var c, rest := s[0], s[1..];
      match state
      case Between | InWord =>
        if ShellSpace(c) { ShlexNoBreaks(rest, Between, "", false); }
        else if c == '\\' { ShlexNoBreaks(rest, Escaped(InWord), word, quoted); }
        else if c == '\'' || c == '"' { ShlexNoBreaks(rest, InQuote(c), word, quoted); }
        else { ShlexNoBreaks(rest, InWord, word + [c], quoted); }
      case InQuote(q) =>
        if c == q { ShlexNoBreaks(rest, InWord, word, true); }
        else if c == '\\' && q == '"' { ShlexNoBreaks(rest, Escaped(state), word, true); }
        else { ShlexNoBreaks(rest, state, word + [c], true); }
      case Escaped(back) =>
        var kept := if back.InQuote? && c != '\\' && c != back.quote then "\\" else "";
        ShlexNoBreaks(rest, back, word + kept + [c], quoted);
    }
  }

  lemma {:induction false} WordsNoBreaks(s: string)
    requires NoBreaks(s)
    ensures forall w :: w in Words(s) ==> NoBreaks(w)
    decreases |s|
  {
    hide IsLineBreak, IsSpace;
    var t := LStrip(s);
    assert NoBreaks(t);
    if t != "" {
      var n := WordEnd(t);
      assert NoBreaks(t[..n]) && NoBreaks(t[n..]);
      hide NoBreaks;
      WordsNoBreaks(t[n..]);
    }
  }

  /** The patterns of a line hold no line break. */
  lemma PatternsNoBreaks(line: string)
    requires NoBreaks(line)
    ensures forall p :: p in HostPatterns(line) ==> NoBreaks(p)
  {
    hide IsLineBreak, IsSpace, Strip, Shlex, Words, StripAssign;
    var a, b := StripSlice(line);
    var s := Strip(line);
    assert NoBreaks(s);
    if |s| >= 4 {
      StripAssignTail(s[4..]);
      var rest := StripAssign(s[4..]);
      assert NoBreaks(rest);
      if Shlex(rest, Between, "", false).Some? {
        ShlexNoBreaks(rest, Between, "", false);
      } else {
        WordsNoBreaks(rest);
      }
    } else {
      ShlexNothing();
    }
  }

  lemma ShlexNothing()
    ensures Shlex("", Between, "", false) == Some([])
  {
  }

  lemma StripSlice(s: string) returns (a: nat, b: nat)
    ensures a <= b <= |s| && Strip(s) == s[a..b]
  {
    hide IsSpace, LStrip, RStrip;
    var l := LStrip(s);
    var n := |RStrip(l)|;
    a := |s| - |l|;
    b := a + n;
    SliceOfTail(s, a, n);
  }

  lemma SliceOfTail(s: string, a: nat, n: nat)
    requires a + n <= |s|
    ensures s[a..][..n] == s[a..a + n]
  {
  }

  lemma HeaderNoBreaks(line: string, names: seq<string>)
    requires NoBreaks(line) && forall n :: n in names ==> NoBreaks(n)
    ensures var h := RebuiltHeader(line, names); NoBreaks(h) && Strip(h) != ""
  {
    hide IsLineBreak, IsSpace, Indent, Join, Strip, Keyword;
    var j := Join(" ", names);
    assert forall i :: 0 <= i < |names| ==> names[i] in names;
    JoinNoBreaks(names);
    IndentIsSpace(line);
    HostNoBreaks();
    NoBreaksAppend(Indent(line), "Host ");
    NoBreaksAppend(Indent(line) + "Host ", j);
    var n := TrimmedHeader(line, j);
  }

  lemma HostNoBreaks()
    ensures NoBreaks("Host ")
  {
  }

  /** Trimming a block of lines at its end declares no further name. */
  lemma {:induction false} TrimmedBlockNames(lines: seq<string>, n: nat)
    requires forall l :: l in lines ==> NoBreaks(l)
    requires n <= |Join("\n", lines)| && forall i :: n <= i < |Join("\n", lines)| ==> IsSpace(Join("\n", lines)[i])
    ensures TextNames(Join("\n", lines)[..n]) <= HostNames(lines)
    decreases |lines|
  {
    BlankNames();
    hide IsSpace, IsLineBreak, LineNames, SplitLines;
    if n > 0 {
      var h, t := lines[0], Join("\n", lines);
      assert lines[0] in lines && t[..|h|] == h;
      if n <= |h| {
        assert t[..n] == h[..n];
        forall i | n <= i < |h| ensures IsSpace(h[i]) { assert t[i] == h[i]; }
        TrimmedLineNames(h, n);
      } else {
        var rest := Join("\n", lines[1..]);
        assert t == h + "\n" + rest;
        var m := n - |h| - 1;
        assert t[..n] == h + "\n" + rest[..m];
        forall i | m <= i < |rest| ensures IsSpace(rest[i]) { assert rest[i] == t[|h| + 1 + i]; }
        TrimmedBlockNames(lines[1..], m);
        SplitLinesStep(h, rest[..m]);
        HostNamesAppend([h], SplitLines(rest[..m]));
        assert HostNames([h]) == LineNames(h) + HostNames([]);
      }
    }
  }

  lemma TrimmedLineNames(h: string, n: nat)
    requires NoBreaks(h) && 0 < n <= |h| && forall i :: n <= i < |h| ==> IsSpace(h[i])
    ensures TextNames(h[..n]) <= LineNames(h)
  {
    hide IsSpace, IsLineBreak, LineNames, Strip;
    SplitLinesOne(h[..n]);
    assert HostNames([h[..n]]) == LineNames(h[..n]) + HostNames([]);
    if Strip(h) != "" { TrimmedLine(h, n); } else { BlankPrefix(h, n); }
  }

  lemma BlankPrefix(h: string, n: nat)
    requires n <= |h| && Strip(h) == ""
    ensures LineNames(h[..n]) == {}
  {
    hide IsSpace;
    assert LStrip(h) == "" by { assert LStrip(h) != "" ==> RStrip(LStrip(h)) != ""; }
    assert forall i :: 0 <= i < n ==> IsSpace(h[..n][i]);
    assert LStrip(h[..n]) == "";
    assert Strip(h[..n]) == "";
    KeywordOfBlank(h[..n]);
  }

  lemma KeywordOfBlank(h: string)
    requires Strip(h) == ""
    ensures Keyword(h) == "" && LineNames(h) == {}
  {
    assert |"host"| == 4;
  }

  /** A block whose first line is the only header declares exactly what that line does. */
  lemma BlockNamesExactly(block: seq<string>)
    requires block != [] && Strip(block[0]) != "" && forall l :: l in block ==> NoBreaks(l)
    requires forall i :: 1 <= i < |block| ==> !IsHeader(block[i])
    ensures TextNames(RStrip(Join("\n", block))) == LineNames(block[0])
  {
    hide Strip, LineNames, NoBreaks, Join, IsHeader;
    BlockKeepsNames(block);
    var t := Join("\n", block);
    TrimmedBlockNames(block, |RStrip(t)|);
    NoHeaderNoNames(block[1..]);
  }

  lemma RebuiltBlockNames(s: Stanza, names: seq<string>)
    requires FromText(s) && s.kind == Host && forall n :: n in names ==> n in s.patterns
    ensures TextNames(RStrip(Join("\n", [RebuiltHeader(s.block[0], names)] + s.block[1..])))
      == LineNames(RebuiltHeader(s.block[0], names))
  {
    hide TextNames, RStrip, NoBreaks, Join, RebuiltHeader, HostPatterns, IsHeader, KindOf, LineNames, Strip;
    assert s.block[0] in s.block;
    PatternsNoBreaks(s.block[0]);
    HeaderNoBreaks(s.block[0], names);
    var h, rest := RebuiltHeader(s.block[0], names), s.block[1..];
    var block := [h] + rest;
    forall l | l in block ensures NoBreaks(l) { assert l == h || l in s.block; }
    forall i | 1 <= i < |block| ensures !IsHeader(block[i]) { assert block[i] == s.block[i]; }
    BlockNamesExactly(block);
  }

  lemma KeptBlockNames(s: Stanza)
    requires FromText(s) && s.kind == Host
    ensures TextNames(RStrip(Join("\n", s.block))) == SetOf(s.patterns)
  {
    hide TextNames, RStrip, NoBreaks, Join, HostPatterns, IsHeader, KindOf, LineNames, Strip;
    HeaderIsNotBlank(s.block[0]);
    BlockNamesExactly(s.block);
    HostHeader(s);
  }

  /** What the block written for a stanza declares: exactly what its header does. */
  lemma ChosenDeclares(s: Stanza, existing: set<string>)
    requires FromText(s)
    ensures var o := Choose(s, existing);
      && (o.Kept? ==> TextNames(o.text) == SetOf(s.patterns))
      && (o.Rebuilt? ==> TextNames(o.text) == LineNames(RebuiltHeader(s.block[0], SplitOff(s, existing))))
  {
    hide TextNames, RStrip, Concrete, Having, Lacking, FromText, Join, RebuiltHeader, HasContent, LineNames;
    var o := Choose(s, existing);
    if o.Kept? {
      KeptBlockNames(s);
    } else if o.Rebuilt? {
      RebuiltBlockNames(s, SplitOff(s, existing));
    }
  }

  lemma HostHeader(s: Stanza)
    requires WellHeaded(s) && s.kind == Host
    ensures LineNames(s.block[0]) == SetOf(s.patterns)
  {
    hide HostPatterns;
  }

  lemma HeaderIsNotBlank(h: string)
    requires IsHeader(h)
    ensures Strip(h) != ""
  {
    hide Strip;
  }

  // ---------------------------------------------------------------- a selection of nothing

  lemma InkAppend(a: string, s: string, b: string)
    requires HasInk(s)
    ensures HasInk(a + s + b)
  {
    hide IsSpace;
    var i :| 0 <= i < |s| && !IsSpace(s[i]);
    assert (a + s + b)[|a| + i] == s[i];
  }

  lemma {:induction false} InkTrimmed(s: string)
    requires HasInk(s)
    ensures HasInk(RStrip(s))
  {
    hide IsSpace, RStrip;
    var i :| 0 <= i < |s| && !IsSpace(s[i]);
    var r := RStrip(s);
    assert i < |r| && r[i] == s[i];
  }

  lemma {:induction false} JoinHasInk(sep: string, parts: seq<string>, p: string)
    requires p in parts && HasInk(p)
    ensures HasInk(Join(sep, parts))
  {
    hide HasInk;
    if |parts| == 1 {
      assert parts[0] == p;
    } else {
      var rest := Join(sep, parts[1..]);
      if p == parts[0] {
        InkAppend("", p, sep + rest);
        assert "" + p + (sep + rest) == p + sep + rest;
      } else {
        JoinHasInk(sep, parts[1..], p);
        InkAppend(parts[0] + sep, rest, "");
        assert parts[0] + sep + rest + "" == parts[0] + sep + rest;
      }
    }
  }

  lemma BlockHasInk(block: seq<string>)
    requires block != [] && HasInk(block[0])
    ensures HasInk(RStrip(Join("\n", block)))
  {
    hide *;
    JoinHasInk("\n", block, block[0]);
    InkTrimmed(Join("\n", block));
  }

  lemma ChosenHasInk(s: Stanza, existing: set<string>)
    requires FromText(s)
    requires Choose(s, existing).Kept? || Choose(s, existing).Rebuilt?
    ensures HasInk(Choose(s, existing).text)
  {
    hide HasInk, Strip, RStrip, Join, Concrete, Having, Lacking, HasContent, HostPatterns, NoBreaks, RebuiltHeader,
      IsHeader;
    if Choose(s, existing).Kept? {
      HeaderIsNotBlank(s.block[0]);
      NotBlankHasInk(s.block[0]);
      BlockHasInk(s.block);
    } else {
      var h := RebuiltHeader(s.block[0], SplitOff(s, existing));
      assert HasInk(h) by { RebuiltHasInk(s.block[0], SplitOff(s, existing)); }
      BlockHasInk([h] + s.block[1..]);
    }
  }

  lemma RebuiltHasInk(line: string, names: seq<string>)
    ensures HasInk(RebuiltHeader(line, names))
  {
    hide HasInk;
    HostWordHasInk(Indent(line), Join(" ", names));
  }

  lemma HostWordHasInk(a: string, b: string)
    ensures HasInk(a + "Host " + b)
  {
    assert !IsSpace('H');
    hide IsSpace;
    assert "Host "[0] == 'H';
    InkAppend(a, "Host ", b);
  }

  /** A selection that adds anything does not print as blank. */
  lemma SelectionHasInk(texts: seq<string>, existing: set<string>, i: nat)
    requires i < |Imported(texts)|
    requires Choose(Imported(texts)[i], existing).Kept? || Choose(Imported(texts)[i], existing).Rebuilt?
    ensures Strip(Select(texts, existing).text) != ""
  {
    hide HasInk, Strip, Join, Choose, Imported, FromText;
    var os := ChooseAll(Imported(texts), existing);
    ImportedFromText(texts);
    KeptTextsOf(os);
    ChosenHasInk(Imported(texts)[i], existing);
    JoinHasInk("\n\n", KeptTexts(os), os[i].text);
    InkNotBlank(Join("\n\n", KeptTexts(os)));
  }

  /** A selection that prints as blank selected nothing. */
  lemma BlankSelection(texts: seq<string>, existing: set<string>)
    requires Strip(Select(texts, existing).text) == ""
    ensures Select(texts, existing) == Selection("", Select(texts, existing).dropped, [])
    ensures forall i :: 0 <= i < |Imported(texts)| ==> !Choose(Imported(texts)[i], existing).Rebuilt?
  {
    hide Strip, Join, Choose, Imported;
    var os := ChooseAll(Imported(texts), existing);
    forall i | 0 <= i < |os| ensures os[i].Skipped? || os[i].Dropped? {
      if os[i].Kept? || os[i].Rebuilt? { SelectionHasInk(texts, existing, i); }
    }
    NoneKept(os);
    EmptyJoin();
  }

  lemma {:induction false} KeptTextsOf(os: seq<Outcome>)
    ensures forall i :: 0 <= i < |os| && (os[i].Kept? || os[i].Rebuilt?) ==> os[i].text in KeptTexts(os)
  {
    if os != [] {
      KeptTextsOf(os[1..]);
      forall i | 0 <= i < |os| && (os[i].Kept? || os[i].Rebuilt?) ensures os[i].text in KeptTexts(os) {
        if i > 0 { assert os[1..][i - 1] == os[i]; }
      }
    }
  }

  lemma {:induction false} NoneKept(os: seq<Outcome>)
    requires forall i :: 0 <= i < |os| ==> os[i].Skipped? || os[i].Dropped?
    ensures KeptTexts(os) == [] && Collisions(os) == []
  {
    if os != [] { NoneKept(os[1..]); }
  }

  lemma {:induction false} SameDropped(a: seq<Outcome>, b: seq<Outcome>)
    requires |a| == |b| && forall i :: 0 <= i < |a| ==> (a[i].Dropped? <==> b[i].Dropped?)
    ensures DroppedCount(a) == DroppedCount(b)
  {
    if a != [] {
      assert a[0].Dropped? <==> b[0].Dropped?;
      SameDropped(a[1..], b[1..]);
    }
  }

  lemma EmptyJoin()
    ensures Join("\n\n", []) == ""
  {
  }

  lemma NoneLacking(ps: seq<string>, names: set<string>)
    requires forall p :: p in ps ==> p in names
    ensures Lacking(ps, names) == []
  {
    if Lacking(ps, names) != [] { assert Lacking(ps, names)[0] in Lacking(ps, names); }
  }

  lemma {:induction false} JoinDeclares(ts: seq<string>, t: string)
    requires t in ts
    ensures TextNames(t) <= TextNames(Join("\n\n", ts))
  {
    hide TextNames;
    if |ts| > 1 {
      var rest := Join("\n\n", ts[1..]);
      TextNamesJoin(ts[0], "" + "\n" + rest);
      TextNamesJoin("", rest);
      assert ts[0] + "\n\n" + rest == ts[0] + "\n" + ("" + "\n" + rest);
      if t != ts[0] { JoinDeclares(ts[1..], t); }
    }
  }

  lemma {:induction false} ImportedFromText(texts: seq<string>)
    ensures forall i :: 0 <= i < |Imported(texts)| ==> FromText(Imported(texts)[i])
  {
    hide FromText;
    if texts != [] {
      ImportedFromText(texts[1..]);
      StanzasFromText(texts[0]);
    }
  }

  lemma StanzasFromText(text: string)
    ensures forall i :: 0 <= i < |Stanzas(SplitLines(text))| ==> FromText(Stanzas(SplitLines(text))[i])
  {
    hide IsHeader, KindOf, HostPatterns, NoBreaks, Stanzas, SplitLines;
    var lines := SplitLines(text);
    SplitLinesNoBreaks(text);
    StanzasPartition(lines);
    forall i | 0 <= i < |Stanzas(lines)| ensures FromText(Stanzas(lines)[i]) {
      FlattenHas(Stanzas(lines), i);
      assert WellHeaded(Stanzas(lines)[i]);
    }
  }

  lemma {:induction false} FlattenHas(ss: seq<Stanza>, i: nat)
    requires i < |ss|
    ensures forall l :: l in ss[i].block ==> l in Flatten(ss)
  {
    if i > 0 { FlattenHas(ss[1..], i - 1); }
  }

  /** All concrete names of the stanza exist. */
  predicate Settled(s: Stanza, names: set<string>) {
    s.kind == Host ==> SetOf(Concrete(s.patterns)) <= names
  }

  /** A stanza adds nothing exactly when all its concrete names exist. */
  lemma ChooseSettled(s: Stanza, names: set<string>)
    requires s.block != []
    ensures Choose(s, names).Skipped? || Choose(s, names).Dropped? <==> Settled(s, names)
  {
    hide Having, Lacking, RStrip, Join, HasContent, RebuiltHeader, Concrete;
    var concrete := Concrete(s.patterns);
    if s.kind == Host && s.patterns == [] { NoConcrete(); }
    if s.kind == Host && concrete != [] {
      if Settled(s, names) {
        NoneLacking(concrete, names);
        assert concrete[0] in SetOf(concrete);
        assert concrete[0] in Having(concrete, names);
      } else {
        var p :| p in concrete && p !in names;
        assert p in Lacking(concrete, names);
      }
    }
  }

  lemma NoConcrete()
    ensures Concrete([]) == []
  {
  }

  /** What is dropped does not depend on the names there are. */
  lemma DroppedRegardless(s: Stanza, a: set<string>, b: set<string>)
    ensures Choose(s, a).Dropped? <==> Choose(s, b).Dropped?
  {
    hide Having, Lacking, RStrip, Join, HasContent, RebuiltHeader, Concrete;
  }

  /** An import selects nothing if and only if every stanza is settled. */
  lemma SelectsNothing(texts: seq<string>, before: set<string>, names: set<string>)
    ensures Select(texts, names) == Selection("", Select(texts, before).dropped, [])
      <==> forall s :: s in Imported(texts) ==> Settled(s, names)
  {
    hide Choose, Join, Strip, FromText, Settled, Imported;
    var ss := Imported(texts);
    var os, was := ChooseAll(ss, names), ChooseAll(ss, before);
    ImportedFromText(texts);
    forall i | 0 <= i < |ss| ensures os[i].Dropped? <==> was[i].Dropped? { DroppedRegardless(ss[i], names, before); }
    SameDropped(os, was);
    forall i | 0 <= i < |ss| ensures os[i].Skipped? || os[i].Dropped? <==> Settled(ss[i], names) {
      assert ss[i].block != [] by { FromTextHasBlock(ss[i]); }
      ChooseSettled(ss[i], names);
    }
    if forall s :: s in ss ==> Settled(s, names) {
      assert forall i :: 0 <= i < |ss| ==> ss[i] in ss;
      NoneKept(os);
      EmptyJoin();
    } else {
      var s :| s in ss && !Settled(s, names);
      var i :| 0 <= i < |ss| && ss[i] == s;
      StripEmpty();
      SelectionHasInk(texts, names, i);
    }
  }

  lemma StripEmpty()
    ensures Strip("") == ""
  {
  }

  lemma FromTextHasBlock(s: Stanza)
    requires FromText(s)
    ensures s.block != []
  {
  }

  // ---------------------------------------------------------------- importing twice

  /** Every name split off a partly colliding stanza is declared once the import is written. */
  predicate SplitsDeclared(texts: seq<string>, existing: set<string>, later: set<string>) {
    forall s :: s in Imported(texts) && Choose(s, existing).Rebuilt? ==> SetOf(SplitOff(s, existing)) <= later
  }

  /** Every imported name that was there is still there. */
  predicate StillThere(texts: seq<string>, existing: set<string>, later: set<string>) {
    forall s :: s in Imported(texts) && s.kind == Host ==> SetOf(Concrete(s.patterns)) * existing <= later
  }

  /**
   * Importing the same files again adds nothing and reports no collision if and only if the
   * imported names that were there still are, and every name split off the first time is declared.
   */
  lemma SecondImport(texts: seq<string>, existing: set<string>, later: set<string>)
    requires TextNames(Select(texts, existing).text) <= later
    ensures Select(texts, later) == Selection("", Select(texts, existing).dropped, [])
      <==> StillThere(texts, existing, later) && SplitsDeclared(texts, existing, later)
  {
    hide TextNames, Choose, Join, SplitOff, Select, Concrete, Imported, Settled;
    SelectsNothing(texts, existing, later);
    forall i | 0 <= i < |Imported(texts)|
      ensures var s := Imported(texts)[i];
        Settled(s, later) <==>
          && (s.kind == Host ==> SetOf(Concrete(s.patterns)) * existing <= later)
          && (Choose(s, existing).Rebuilt? ==> SetOf(SplitOff(s, existing)) <= later)
    {
      SettledLater(texts, existing, later, i);
    }
  }

  lemma SettledLater(texts: seq<string>, existing: set<string>, later: set<string>, i: nat)
    requires i < |Imported(texts)| && TextNames(Select(texts, existing).text) <= later
    ensures var s := Imported(texts)[i];
      Settled(s, later) <==>
        && (s.kind == Host ==> SetOf(Concrete(s.patterns)) * existing <= later)
        && (Choose(s, existing).Rebuilt? ==> SetOf(SplitOff(s, existing)) <= later)
  {
    hide TextNames, Choose, Join, Concrete, Lacking;
    var s := Imported(texts)[i];
    var os := ChooseAll(Imported(texts), existing);
    ImportedFromText(texts);
    assert s.block != [] by { FromTextHasBlock(s); }
    ChooseSettled(s, existing);
    RebuiltIsHost(s, existing);
    var concrete := Concrete(s.patterns);
    assert SetOf(concrete) == SetOf(concrete) * existing + SetOf(SplitOff(s, existing));
    if os[i].Kept? {
      ChosenDeclares(s, existing);
      KeptTextsOf(os);
      JoinDeclares(KeptTexts(os), os[i].text);
      SplitOffIsListed(s, existing);
    }
  }

  lemma RebuiltIsHost(s: Stanza, existing: set<string>)
    ensures Choose(s, existing).Kept? || Choose(s, existing).Rebuilt? ==> s.kind == Host
  {
    hide Having, Lacking, RStrip, Join, HasContent, RebuiltHeader, Concrete;
  }

  lemma SplitOffIsListed(s: Stanza, existing: set<string>)
    ensures SetOf(SplitOff(s, existing)) <= SetOf(s.patterns)
  {
  }

  /** A name that is still missing brings its stanza back, and its collision with it. */
  lemma MissingIsImportedAgain(s: Stanza, existing: set<string>, later: set<string>, n: string)
    requires existing <= later && Choose(s, existing).Rebuilt? && n in SplitOff(s, existing) && n !in later
    ensures Choose(s, later).Rebuilt? && n in SplitOff(s, later)
  {
    hide Concrete, Having, Lacking, RStrip, Join, HasContent, RebuiltHeader;
    var concrete := Concrete(s.patterns);
    var p := Having(concrete, existing)[0];
    assert p in Having(concrete, existing);
    assert p in Having(concrete, later);
    assert n in Lacking(concrete, later);
  }

  /**
   * With nothing lost in between, importing the same files again adds nothing and reports no
   * collision if and only if every name split off the first time is declared by then: by the hosts
   * there were, the fragment, or the written blocks.
   */
  lemma ImportIsIdempotent(texts: seq<string>, existing: set<string>, fragment: string)
    ensures var first := Select(texts, existing);
            var later := existing + TextNames(FragmentBody(fragment, first.text));
            Select(texts, later) == Selection("", first.dropped, []) <==> SplitsDeclared(texts, existing, later)
  {
    hide TextNames, FragmentBody, Choose, Join, SplitsDeclared, Concrete, Select;
    var first := Select(texts, existing);
    BodyNames(fragment, first.text);
    SecondImport(texts, existing, existing + TextNames(FragmentBody(fragment, first.text)));
  }

  /** Readable names are declared by what is written for them. */
  lemma ReadableSplitsAreDeclared(texts: seq<string>, existing: set<string>, later: set<string>)
    requires existing + TextNames(Select(texts, existing).text) <= later
    requires forall s :: s in Imported(texts) && Choose(s, existing).Rebuilt? ==> Readable(SplitOff(s, existing))
    ensures SplitsDeclared(texts, existing, later)
  {
    hide TextNames, Choose, Join, SplitOff, Readable, RebuiltHeader;
    var os := ChooseAll(Imported(texts), existing);
    forall s | s in Imported(texts) && Choose(s, existing).Rebuilt? ensures SetOf(SplitOff(s, existing)) <= later {
      var i :| 0 <= i < |Imported(texts)| && Imported(texts)[i] == s;
      ImportedFromText(texts);
      ChosenDeclares(s, existing);
      ReadableHeader(s.block[0], SplitOff(s, existing));
      KeptTextsOf(os);
      JoinDeclares(KeptTexts(os), os[i].text);
    }
  }

  /**
   * A name split off the first time is split off again if and only if neither the rebuilt header nor
   * the fragment declares it, whatever the name.
   */
  lemma SplitNameComesBack(s: Stanza, existing: set<string>, fragment: string, n: string)
    requires FromText(s) && Choose(s, existing).Rebuilt? && n in SplitOff(s, existing)
    ensures var later := existing + TextNames(FragmentBody(fragment, Choose(s, existing).text));
      Choose(s, later).Rebuilt? && n in SplitOff(s, later)
      <==> n !in LineNames(RebuiltHeader(s.block[0], SplitOff(s, existing))) && n !in TextNames(fragment)
  {
    hide TextNames, Choose, RebuiltHeader, HostPatterns, LineNames, FragmentBody, Concrete;
    var text := Choose(s, existing).text;
    ChosenDeclares(s, existing);
    BodyNames(fragment, text);
    SplitOffIsNew(s, existing, n);
    var later := existing + TextNames(FragmentBody(fragment, text));
    if n in later { assert n !in SplitOff(s, later); } else { MissingIsImportedAgain(s, existing, later, n); }
  }

  /**
   * An empty name, or one that holds a blank, is written without its quotes when it is split off:
   * unless something else declares it, every import writes the same block again.
   */
  lemma SpacedNameIsImportedAgain(s: Stanza, existing: set<string>, fragment: string, n: string)
    requires FromText(s) && Choose(s, existing).Rebuilt?
    requires forall i :: 0 <= i < |SplitOff(s, existing)| ==> Unquoted(SplitOff(s, existing)[i])
    requires n in SplitOff(s, existing) && !Bare(n) && n !in TextNames(fragment)
    ensures Choose(s, existing + TextNames(FragmentBody(fragment, Choose(s, existing).text))).Rebuilt?
  {
    hide TextNames, Choose, SplitOff, Unquoted, Bare, RebuiltHeader, HostPatterns, LineNames, FragmentBody;
    var rest := RebuiltPatterns(s.block[0], SplitOff(s, existing));
    SplitNameComesBack(s, existing, fragment, n);
  }

  lemma SplitOffIsNew(s: Stanza, existing: set<string>, n: string)
    requires n in SplitOff(s, existing)
    ensures n !in existing
  {
  }

  /** The written fragment declares the hosts it had and the added ones, no more. */
  lemma BodyNames(fragment: string, added: string)
    ensures TextNames(FragmentBody(fragment, added)) == TextNames(fragment) + TextNames(added)
  {
    hide TextNames, Title, FragmentBody;
    BlankNames();
    TitleNames();
    var head := BodyShape(fragment, added);
    TextNamesJoin(added, "");
    TextNamesJoin(head, added + "\n" + "");
    TextNamesJoin(Title(), "");
    TextNamesJoin(fragment, "");
  }

  lemma TitleNames()
    ensures TextNames(Title()) == {}
  {
    var t := Title();
    assert t[0] == '#' && NoBreaks(t);
    hide NoBreaks, TextNames;
    CommentNames(t);
  }

  lemma CommentNames(t: string)
    requires t != "" && t[0] == '#' && NoBreaks(t)
    ensures TextNames(t) == {}
  {
    assert !IsSpace('#') && !IsSpace(t[0]);
    hide IsSpace, NoBreaks, SplitLines, Strip, WordLength, Lower, HostPatterns;
    SplitLinesOne(t);
    CommentStripped(t);
    assert Keyword(t) == "";
    assert |"host"| == 4;
    assert HostNames([t]) == LineNames(t) + HostNames([]);
  }

  lemma CommentStripped(t: string)
    requires t != "" && t[0] == '#'
    ensures Strip(t) != "" && Strip(t)[0] == '#'
  {
    assert !IsSpace('#') && !IsSpace(t[0]);
    hide IsSpace;
    LStripAt(t, 0);
    assert t[0..] == t;
    assert RStrip(t) != "" && RStrip(t)[0] == '#';
  }

  // ---------------------------------------------------------------- the loops as they run

  method IterConfigStanzas(text: string) returns (ss: seq<Stanza>)
    ensures ss == Stanzas(SplitLines(text))
  {
    hide IsHeader, KindOf, HostPatterns, SplitLines;
    var lines := SplitLines(text);
    ss := [];
    var kind, patterns: seq<string>, buf: seq<string> := Global, [], [];
    assert lines[0..] == lines;
    assert [] + Stanzas(lines) == Stanzas(lines);
    for i := 0 to |lines|
      invariant Stanzas(lines) == ss + StanzasFrom(Stanza(kind, patterns, buf), lines[i..])
    {
      ghost var rest := lines[i + 1..];
      assert lines[i..][1..] == rest;
      var line := lines[i];
      if IsHeader(line) {
        if buf != [] {
          assert ss + ([Stanza(kind, patterns, buf)] + StanzasFrom(Opened(line), rest))
              == ss + [Stanza(kind, patterns, buf)] + StanzasFrom(Opened(line), rest);
          ss := ss + [Stanza(kind, patterns, buf)];
        } else {
          assert [] + StanzasFrom(Opened(line), rest) == StanzasFrom(Opened(line), rest);
        }
        buf := [line];
        kind := KindOf(line);
        patterns := if kind == Host then HostPatterns(line) else [];
        assert Stanza(kind, patterns, buf) == Opened(line);
      } else {
        buf := buf + [line];
      }
    }
    assert lines[|lines|..] == [];
    if buf != [] {
      ss := ss + [Stanza(kind, patterns, buf)];
    }
  }

  method SelectFrom(ss: seq<Stanza>, existing: set<string>) returns (r: (seq<string>, nat, seq<seq<string>>))
    ensures r == Tally(ChooseAll(ss, existing))
  {
    hide Choose;
    var kept: seq<string>, dropped: nat, collisions: seq<seq<string>> := [], 0, [];
    ghost var os := ChooseAll(ss, existing);
    assert os[..0] == [];
    for i := 0 to |ss|
      invariant (kept, dropped, collisions) == Tally(os[..i])
    {
      TallyOne(os[..i], os[i]);
      assert os[..i + 1] == os[..i] + [os[i]];
      match Choose(ss[i], existing)
      case Skipped =>
      case Dropped => dropped := dropped + 1;
      case Kept(text) => kept := kept + [text];
      case Rebuilt(text, patterns) =>
        kept := kept + [text];
        collisions := collisions + [patterns];
    }
    assert os[..|ss|] == os;
    r := (kept, dropped, collisions);
  }

  function Tally(os: seq<Outcome>): (seq<string>, nat, seq<seq<string>>) {
    (KeptTexts(os), DroppedCount(os), Collisions(os))
  }

  lemma {:induction false} KeptAppend(a: seq<Outcome>, b: seq<Outcome>)
    ensures KeptTexts(a + b) == KeptTexts(a) + KeptTexts(b)
  {
    if a == [] {
      assert a + b == b;
    } else {
      KeptAppend(a[1..], b);
      assert (a + b)[0] == a[0] && (a + b)[1..] == a[1..] + b;
      var k := if a[0].Kept? || a[0].Rebuilt? then [a[0].text] else [];
      assert k + (KeptTexts(a[1..]) + KeptTexts(b)) == k + KeptTexts(a[1..]) + KeptTexts(b);
    }
  }

  lemma {:induction false} CollisionsAppend(a: seq<Outcome>, b: seq<Outcome>)
    ensures Collisions(a + b) == Collisions(a) + Collisions(b)
  {
    if a == [] {
      assert a + b == b;
    } else {
      CollisionsAppend(a[1..], b);
      assert (a + b)[0] == a[0] && (a + b)[1..] == a[1..] + b;
      var c := if a[0].Rebuilt? then [a[0].patterns] else [];
      assert c + (Collisions(a[1..]) + Collisions(b)) == c + Collisions(a[1..]) + Collisions(b);
    }
  }

  lemma {:induction false} DroppedAppend(a: seq<Outcome>, b: seq<Outcome>)
    ensures DroppedCount(a + b) == DroppedCount(a) + DroppedCount(b)
  {
    if a == [] {
      assert a + b == b;
    } else {
      DroppedAppend(a[1..], b);
      assert (a + b)[0] == a[0] && (a + b)[1..] == a[1..] + b;
    }
  }

  lemma TallyAppend(a: seq<Outcome>, b: seq<Outcome>)
    ensures Tally(a + b) == (Tally(a).0 + Tally(b).0, Tally(a).1 + Tally(b).1, Tally(a).2 + Tally(b).2)
  {
    hide KeptTexts, DroppedCount, Collisions;
    KeptAppend(a, b);
    DroppedAppend(a, b);
    CollisionsAppend(a, b);
  }

  lemma TallyOne(a: seq<Outcome>, o: Outcome)
    ensures var t := Tally(a);
            Tally(a + [o]) == match o
                              case Skipped => t
                              case Dropped => (t.0, t.1 + 1, t.2)
                              case Kept(text) => (t.0 + [text], t.1, t.2)
                              case Rebuilt(text, patterns) => (t.0 + [text], t.1, t.2 + [patterns])
  {
    TallyAppend(a, [o]);
    assert [o][1..] == [];
    var t := Tally(a);
    assert t.0 + [] == t.0 && t.2 + [] == t.2;
    assert KeptTexts([o]) == if o.Kept? || o.Rebuilt? then [o.text] else [];
    assert Collisions([o]) == if o.Rebuilt? then [o.patterns] else [];
    assert DroppedCount([o]) == if o.Dropped? then 1 else 0;
  }

  lemma {:induction false} ImportedSnoc(texts: seq<string>, t: string)
    ensures Imported(texts + [t]) == Imported(texts) + Stanzas(SplitLines(t))
  {
    hide Stanzas, SplitLines;
    if texts == [] {
      assert [t][1..] == [] && texts + [t] == [t];
      assert Imported([t]) == Stanzas(SplitLines(t)) + Imported([]);
    } else {
      ImportedSnoc(texts[1..], t);
      assert (texts + [t])[0] == texts[0] && (texts + [t])[1..] == texts[1..] + [t];
    }
  }

  method SelectNewHostBlocks(texts: seq<string>, existing: set<string>) returns (r: Selection)
    ensures r == Select(texts, existing)
  {
    hide Choose, Stanzas, SplitLines, Join, Tally, Imported;
    var kept: seq<string>, dropped: nat, collisions: seq<seq<string>> := [], 0, [];
    assert texts[..0] == [];
    EmptyTally(existing);
    for i := 0 to |texts|
      invariant (kept, dropped, collisions) == Tally(ChooseAll(Imported(texts[..i]), existing))
    {
      var ss := IterConfigStanzas(texts[i]);
      var t := SelectFrom(ss, existing);
      ghost var before := Imported(texts[..i]);
      ImportedSnoc(texts[..i], texts[i]);
      assert texts[..i + 1] == texts[..i] + [texts[i]];
      ChooseAllAppend(before, ss, existing);
      TallyAppend(ChooseAll(before, existing), ChooseAll(ss, existing));
      kept, dropped, collisions := kept + t.0, dropped + t.1, collisions + t.2;
    }
    assert texts[..|texts|] == texts;
    r := Selection(Join("\n\n", kept), dropped, collisions);
    TallyIsSelection(texts, existing);
  }

  lemma ChooseAllAppend(a: seq<Stanza>, b: seq<Stanza>, existing: set<string>)
    ensures ChooseAll(a + b, existing) == ChooseAll(a, existing) + ChooseAll(b, existing)
  {
    hide Choose;
  }

  lemma TallyIsSelection(texts: seq<string>, existing: set<string>)
    ensures var t := Tally(ChooseAll(Imported(texts), existing));
            Select(texts, existing) == Selection(Join("\n\n", t.0), t.1, t.2)
  {
    hide Join, Imported, ChooseAll;
  }

  lemma EmptyTally(existing: set<string>)
    ensures Tally(ChooseAll(Imported([]), existing)) == ([], 0, [])
  {
  }
}
