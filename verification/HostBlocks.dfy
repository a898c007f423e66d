/** What an import writes: which stanzas are chosen, and their lines, whole and in order, in the fragment file. */
module HostBlocks {
  import opened Text
  import opened SshConfig
  import opened HostMerge
  import opened HostImport
  import opened IncludeReach

  // ---------------------------------------------------------------- the lines of a trimmed block

  /** `written` are the lines without the blank lines at their end, and without the blanks at the end of the last. */
  ghost predicate TrimmedLines(lines: seq<string>, written: seq<string>) {
    var n := |written| - 1;
    && 0 <= n < |lines| && written[..n] == lines[..n]
    && written[n] <= lines[n] && Inked(written[n])
    && (forall i :: |written[n]| <= i < |lines[n]| ==> IsSpace(lines[n][i]))
    && forall k :: n < k < |lines| ==> Blank(lines[k])
  }

  /** The text ends in a character that is no whitespace. */
  predicate Inked(s: string) { s != "" && !IsSpace(s[|s| - 1]) }

  lemma {:induction false} BlankLines(lines: seq<string>)
    requires Blank(Join("\n", lines))
    ensures forall k :: 0 <= k < |lines| ==> Blank(lines[k])
  {
    hide IsSpace;
    if |lines| == 1 {
      assert Join("\n", lines) == lines[0];
    } else if |lines| > 1 {
      var t, h, rest := Join("\n", lines), lines[0], Join("\n", lines[1..]);
      assert t == h + "\n" + rest;
      forall i | 0 <= i < |h| ensures IsSpace(h[i]) { assert h[i] == t[i]; }
      forall i | 0 <= i < |rest| ensures IsSpace(rest[i]) { assert rest[i] == t[|h| + 1 + i]; }
      BlankLines(lines[1..]);
      forall k | 0 <= k < |lines| ensures Blank(lines[k]) { if k > 0 { assert lines[k] == lines[1..][k - 1]; } }
    }
  }

  /** The text of the block up to its last character that is no whitespace, cut into lines. */
  lemma {:induction false} TrimTo(lines: seq<string>, n: nat) returns (written: seq<string>)
    requires forall l :: l in lines ==> NoBreaks(l)
    requires var t := Join("\n", lines); 0 < n <= |t| && Inked(t[..n]) && Blank(t[n..])
    ensures TrimmedLines(lines, written) && SplitLines(Join("\n", lines)[..n]) == written
    decreases |lines|
  {
    hide IsSpace, NoBreaks, SplitLines;
    var t, h := Join("\n", lines), lines[0];
    assert h in lines && t[..n][n - 1] == t[n - 1];
    if n <= |h| {
      written := [h[..n]];
      assert t[..n] == h[..n];
      forall i | n <= i < |h| ensures IsSpace(h[i]) { assert h[i] == t[n..][i - n]; }
      assert NoBreaks(h[..n]) by { PartNoBreaks(h, n); }
      SplitLinesOne(h[..n]);
      if |lines| > 1 {
        var rest := Join("\n", lines[1..]);
        assert t == h + "\n" + rest;
        forall i | 0 <= i < |rest| ensures IsSpace(rest[i]) { assert rest[i] == t[n..][|h| + 1 + i - n]; }
        BlankLines(lines[1..]);
        forall k | 0 < k < |lines| ensures Blank(lines[k]) { assert lines[k] == lines[1..][k - 1]; }
      }
    } else {
      var rest := Join("\n", lines[1..]);
      assert t == h + "\n" + rest;
      var m := n - |h| - 1;
      NewlineIsSpace();
      assert t[|h|] == '\n';
      assert t[..n] == h + "\n" + rest[..m] && t[n..] == rest[m..];
      assert rest[..m][m - 1] == t[n - 1];
      var more := TrimTo(lines[1..], m);
      written := [h] + more;
      SplitLinesStep(h, rest[..m]);
      ConsTrimmed(lines, more);
    }
  }

  lemma ConsTrimmed(lines: seq<string>, more: seq<string>)
    requires lines != [] && TrimmedLines(lines[1..], more)
    ensures TrimmedLines(lines, [lines[0]] + more)
  {
    hide IsSpace, Blank, Inked;
    var all, rest, n := [lines[0]] + more, lines[1..], |more| - 1;
    assert all[..n + 1] == [lines[0]] + more[..n];
    assert lines[..n + 1] == [lines[0]] + rest[..n];
    assert all[n + 1] == more[n] && lines[n + 1] == rest[n];
    forall k | n + 1 < k < |lines| ensures Blank(lines[k]) { assert lines[k] == rest[k - 1]; }
  }

  lemma PartNoBreaks(s: string, n: nat)
    requires NoBreaks(s) && n <= |s|
    ensures NoBreaks(s[..n])
  {
    hide IsLineBreak;
  }

  lemma NewlineIsSpace()
    ensures IsSpace('\n')
  {
  }

  /** A block joined and trimmed keeps its lines. */
  lemma TrimmedBlock(lines: seq<string>)
    requires lines != [] && HasInk(lines[0]) && forall l :: l in lines ==> NoBreaks(l)
    ensures var t := RStrip(Join("\n", lines)); Inked(t) && TrimmedLines(lines, SplitLines(t))
  {
    hide IsSpace, NoBreaks, SplitLines, HasInk, TrimmedLines;
    BlockHasInk(lines);
    var t := Join("\n", lines);
    var n := |RStrip(t)|;
    assert RStrip(t) != "" by { InkIsText(RStrip(t)); }
    assert Blank(t[n..]);
    var written := TrimTo(lines, n);
  }

  lemma InkIsText(s: string)
    requires HasInk(s)
    ensures s != ""
  {
  }

  // ---------------------------------------------------------------- which stanzas are chosen

  /** The names of a stanza that are no patterns. */
  ghost function ConcreteNames(s: Stanza): set<string> { set p | p in s.patterns && !IsWildcard(p) }

  /** The stanza names a host that does not exist. */
  ghost predicate IsNew(s: Stanza, existing: set<string>) {
    s.kind == Host && ConcreteNames(s) - existing != {}
  }

  /** And one that does. */
  ghost predicate Collides(s: Stanza, existing: set<string>) {
    IsNew(s, existing) && ConcreteNames(s) * existing != {}
  }

  /** The stanza would apply to more than single hosts, and says something. */
  ghost predicate IsGlobal(s: Stanza) {
    if s.kind == Host && s.patterns != [] then ConcreteNames(s) == {}
    else exists l :: l in s.block && Strip(l) != "" && Strip(l)[0] != '#'
  }

  /** The lines of a stanza as they are written: all of them, with a new header for the new names if some collide. */
  ghost function LinesToWrite(s: Stanza, existing: set<string>): seq<string>
    requires s.block != []
  {
    if Collides(s, existing) then [RebuiltHeader(s.block[0], SplitOff(s, existing))] + s.block[1..] else s.block
  }

  lemma ConcreteUnfold(p: string, rest: seq<string>)
    ensures Concrete([p] + rest) == (if IsWildcard(p) then [] else [p]) + Concrete(rest)
  {
    hide IsWildcard;
    assert ([p] + rest)[1..] == rest;
  }

  lemma {:induction false} ConcreteAppend(a: seq<string>, b: seq<string>)
    ensures Concrete(a + b) == Concrete(a) + Concrete(b)
  {
    hide IsWildcard;
    if a == [] {
      assert a + b == b;
    } else {
      hide Concrete;
      assert a == [a[0]] + a[1..] && a + b == [a[0]] + (a[1..] + b);
      ConcreteUnfold(a[0], a[1..]);
      ConcreteUnfold(a[0], a[1..] + b);
      ConcreteAppend(a[1..], b);
      Regroup(if IsWildcard(a[0]) then [] else [a[0]], Concrete(a[1..]), Concrete(b));
    }
  }

  lemma {:induction false} LackingAppend(a: seq<string>, b: seq<string>, names: set<string>)
    ensures Lacking(a + b, names) == Lacking(a, names) + Lacking(b, names)
  {
    if a == [] {
      assert a + b == b;
    } else {
      LackingAppend(a[1..], b, names);
      assert (a + b)[0] == a[0] && (a + b)[1..] == a[1..] + b;
      var first := if a[0] !in names then [a[0]] else [];
      Regroup(first, Lacking(a[1..], names), Lacking(b, names));
    }
  }

  /** A name stands in the new header exactly if it is no pattern and does not exist, and in its place. */
  lemma NewNamesInOrder(a: seq<string>, p: string, b: seq<string>, existing: set<string>)
    ensures Lacking(Concrete(a + [p] + b), existing)
      == Lacking(Concrete(a), existing) + (if IsWildcard(p) || p in existing then [] else [p])
         + Lacking(Concrete(b), existing)
  {
    hide IsWildcard, Concrete, Lacking;
    ConcreteAppend(a + [p], b);
    ConcreteAppend(a, [p]);
    ConcreteOne(p);
    var c := if IsWildcard(p) then [] else [p];
    LackingAppend(Concrete(a) + c, Concrete(b), existing);
    LackingAppend(Concrete(a), c, existing);
    LackingOne(p, existing);
  }

  lemma ConcreteOne(p: string)
    ensures Concrete([p]) == if IsWildcard(p) then [] else [p]
  {
    assert [p][1..] == [];
    assert Concrete([]) == [];
  }

  lemma LackingOne(p: string, names: set<string>)
    ensures Lacking([p], names) == if p !in names then [p] else []
    ensures Lacking([], names) == []
  {
    assert [p][1..] == [];
  }

  /**
   * What becomes of a stanza: it is written exactly when it names a host that does not exist, and
   * then with all its lines; it is reported exactly when another of its names does; it counts as
   * dropped exactly when it is no stanza for single hosts.
   */
  lemma ChosenIs(s: Stanza, existing: set<string>)
    requires FromText(s)
    ensures var o := Choose(s, existing);
      && (o.Kept? || o.Rebuilt? <==> IsNew(s, existing))
      && (o.Rebuilt? <==> Collides(s, existing))
      && (o.Rebuilt? ==> o.patterns == s.patterns)
      && (o.Dropped? <==> IsGlobal(s))
      && (o.Kept? || o.Rebuilt? ==>
            Inked(o.text) && TrimmedLines(LinesToWrite(s, existing), SplitLines(o.text)))
  {
    ChosenByNames(s, existing);
    hide Choose, IsNew, Collides, IsGlobal, FromText;
    var o := Choose(s, existing);
    if o.Kept? || o.Rebuilt? {
      ChosenLines(s, existing);
    }
  }

  lemma ChosenByNames(s: Stanza, existing: set<string>)
    requires FromText(s)
    ensures var o := Choose(s, existing);
      && (o.Kept? || o.Rebuilt? <==> IsNew(s, existing))
      && (o.Rebuilt? <==> Collides(s, existing))
      && (o.Rebuilt? ==> o.patterns == s.patterns)
      && (o.Dropped? <==> IsGlobal(s))
  {
    assert s.block != [] by { FromTextHasBlock(s); }
    hide Having, Lacking, RStrip, Join, RebuiltHeader, Concrete, IsWildcard, FromText, Strip, ConcreteNames, HasContent;
    NamesAreSets(s, existing);
    ContentIs(s.block);
  }

  lemma NamesAreSets(s: Stanza, existing: set<string>)
    ensures var concrete, names := Concrete(s.patterns), ConcreteNames(s);
      && (concrete == [] <==> names == {}) && (s.patterns == [] ==> concrete == [])
      && (Having(concrete, existing) == [] <==> names * existing == {})
      && (Lacking(concrete, existing) == [] <==> names - existing == {})
  {
    hide IsWildcard;
    var concrete := Concrete(s.patterns);
    assert ConcreteNames(s) == SetOf(concrete);
    hide Concrete, Having, Lacking;
    NothingOf(concrete);
    NothingOf(Having(concrete, existing));
    NothingOf(Lacking(concrete, existing));
    assert SetOf(Having(concrete, existing)) == SetOf(concrete) * existing;
    assert SetOf(Lacking(concrete, existing)) == SetOf(concrete) - existing;
  }

  lemma NothingOf(ps: seq<string>)
    ensures ps == [] <==> SetOf(ps) == {}
  {
    if ps != [] { assert ps[0] in SetOf(ps); }
  }

  lemma ContentIs(block: seq<string>)
    ensures HasContent(block) <==> exists l :: l in block && Strip(l) != "" && Strip(l)[0] != '#'
  {
    hide Strip;
    if HasContent(block) {
      var i :| 0 <= i < |block| && Strip(block[i]) != "" && Strip(block[i])[0] != '#';
      assert block[i] in block;
    }
  }

  lemma ChosenText(s: Stanza, existing: set<string>)
    ensures var o := Choose(s, existing);
      && (o.Kept? ==> o.text == RStrip(Join("\n", s.block)) && s.kind == Host)
      && (o.Rebuilt? ==> s.kind == Host && s.block != [])
      && (o.Rebuilt? ==>
            o.text == RStrip(Join("\n", [RebuiltHeader(s.block[0], SplitOff(s, existing))] + s.block[1..])))
  {
    hide Having, RStrip, Join, HasContent, RebuiltHeader, Concrete;
  }

  lemma ChosenLines(s: Stanza, existing: set<string>)
    requires FromText(s) && (Choose(s, existing).Kept? || Choose(s, existing).Rebuilt?)
    ensures s.block != []
    ensures Inked(Choose(s, existing).text)
    ensures TrimmedLines(LinesToWrite(s, existing), SplitLines(Choose(s, existing).text))
  {
    ChosenText(s, existing);
    ChosenByNames(s, existing);
    hide Choose, FromText, HasInk, TrimmedLines, SplitLines, Join, RStrip, Collides, IsNew, IsGlobal, Inked, NoBreaks,
      RebuiltHeader, SplitOff;
    assert s.block != [] by { FromTextHasBlock(s); }
    LinesAreText(s, existing);
    TrimmedBlock(LinesToWrite(s, existing));
  }

  lemma LinesAreText(s: Stanza, existing: set<string>)
    requires FromText(s) && s.kind == Host && s.block != []
    ensures var lines := LinesToWrite(s, existing);
      lines != [] && HasInk(lines[0]) && forall l :: l in lines ==> NoBreaks(l)
  {
    hide HostPatterns, NoBreaks, RebuiltHeader, Strip, HasInk, Collides, SplitOff, IsHeader;
    var lines := LinesToWrite(s, existing);
    assert s.block[0] in s.block;
    if Collides(s, existing) {
      PatternsNoBreaks(s.block[0]);
      SplitOffIsListed(s, existing);
      assert forall n :: n in SplitOff(s, existing) ==> n in SetOf(SplitOff(s, existing));
      HeaderNoBreaks(s.block[0], SplitOff(s, existing));
      forall l | l in lines ensures NoBreaks(l) { assert l == lines[0] || l in s.block; }
    } else {
      HeaderIsNotBlank(s.block[0]);
    }
    NotBlankHasInk(lines[0]);
  }

  // ---------------------------------------------------------------- all stanzas of an import

  /** Every line of every imported text belongs to one stanza, in order. */
  lemma {:induction false} ImportedLines(texts: seq<string>)
    ensures Flatten(Imported(texts)) == AllLines(texts)
  {
    hide Stanzas, SplitLines;
    if texts != [] {
      ImportedLines(texts[1..]);
      StanzasPartition(SplitLines(texts[0]));
      FlattenAppend(Stanzas(SplitLines(texts[0])), Imported(texts[1..]));
    }
  }

  function AllLines(texts: seq<string>): seq<string> {
    if texts == [] then [] else SplitLines(texts[0]) + AllLines(texts[1..])
  }

  lemma {:induction false} FlattenAppend(a: seq<Stanza>, b: seq<Stanza>)
    ensures Flatten(a + b) == Flatten(a) + Flatten(b)
  {
    if a == [] {
      assert a + b == b;
    } else {
      FlattenAppend(a[1..], b);
      assert (a + b)[0] == a[0] && (a + b)[1..] == a[1..] + b;
      Regroup(a[0].block, Flatten(a[1..]), Flatten(b));
    }
  }

  /** `ix` are the indices below `n` with the property, in order. */
  ghost predicate Lists(ix: seq<nat>, n: nat, p: nat -> bool) {
    && (forall i, j :: 0 <= i < j < |ix| ==> ix[i] < ix[j])
    && (forall k :: 0 <= k < |ix| ==> ix[k] < n)
    && (forall i: nat :: i < n ==> (p(i) <==> i in ix))
  }

  predicate Writes(o: Outcome) { o.Kept? || o.Rebuilt? }

  /** `ix` are the indices of the outcomes that are written or, if asked for, of those that collide. */
  ghost predicate Picks(ix: seq<nat>, os: seq<Outcome>, colliding: bool) {
    && (forall i, j :: 0 <= i < j < |ix| ==> ix[i] < ix[j])
    && (forall k :: 0 <= k < |ix| ==> ix[k] < |os|)
    && (forall i: nat :: i < |os| ==> (Picked(os[i], colliding) <==> i in ix))
  }

  predicate Picked(o: Outcome, colliding: bool) { if colliding then o.Rebuilt? else Writes(o) }

  lemma PicksNext(ix: seq<nat>, os: seq<Outcome>, o: Outcome, colliding: bool)
    requires Picks(ix, os, colliding)
    ensures Picks(if Picked(o, colliding) then ix + [|os|] else ix, os + [o], colliding)
  {
    hide Picked;
    var next := if Picked(o, colliding) then ix + [|os|] else ix;
    assert |os| !in ix;
    forall i: nat | i < |os| + 1 ensures Picked((os + [o])[i], colliding) <==> i in next {
      if i < |os| { assert (os + [o])[i] == os[i]; }
    }
  }

  /** The texts are those of the picked outcomes. */
  ghost predicate TextsOf(ts: seq<string>, ix: seq<nat>, os: seq<Outcome>) {
    && |ts| == |ix|
    && forall k :: 0 <= k < |ix| ==> ix[k] < |os| && Writes(os[ix[k]]) && ts[k] == os[ix[k]].text
  }

  lemma TextsNext(ts: seq<string>, ix: seq<nat>, os: seq<Outcome>, o: Outcome)
    requires TextsOf(ts, ix, os)
    ensures if Writes(o) then TextsOf(ts + [o.text], ix + [|os|], os + [o]) else TextsOf(ts + [], ix, os + [o])
  {
    hide Writes;
    assert ts + [] == ts;
    forall k | 0 <= k < |ix| ensures (os + [o])[ix[k]] == os[ix[k]] { assert ix[k] < |os|; }
  }

  /** The texts that are written, by stanza. */
  lemma {:induction false} KeptTextsAre(os: seq<Outcome>) returns (ix: seq<nat>)
    ensures Picks(ix, os, false) && TextsOf(KeptTexts(os), ix, os)
    decreases |os|
  {
    ix := [];
    if os != [] {
      hide KeptTexts, Picks, TextsOf, Writes;
      var front, o := os[..|os| - 1], os[|os| - 1];
      var before := KeptTextsAre(front);
      assert os == front + [o];
      KeptAppend(front, [o]);
      KeptOne(o);
      PicksNext(before, front, o, false);
      TextsNext(KeptTexts(front), before, front, o);
      ix := if Writes(o) then before + [|front|] else before;
    }
  }

  lemma KeptOne(o: Outcome)
    ensures KeptTexts([o]) == if Writes(o) then [o.text] else []
    ensures Collisions([o]) == if o.Rebuilt? then [o.patterns] else []
  {
    assert [o][1..] == [];
    assert KeptTexts([]) == [] && Collisions([]) == [];
  }

  /** The pattern lists are those of the rebuilt outcomes. */
  ghost predicate PatternsOf(pss: seq<seq<string>>, ix: seq<nat>, os: seq<Outcome>) {
    && |pss| == |ix|
    && forall k :: 0 <= k < |ix| ==> ix[k] < |os| && os[ix[k]].Rebuilt? && pss[k] == os[ix[k]].patterns
  }

  lemma PatternsNext(pss: seq<seq<string>>, ix: seq<nat>, os: seq<Outcome>, o: Outcome)
    requires PatternsOf(pss, ix, os)
    ensures if o.Rebuilt? then PatternsOf(pss + [o.patterns], ix + [|os|], os + [o])
            else PatternsOf(pss + [], ix, os + [o])
  {
    assert pss + [] == pss;
    forall k | 0 <= k < |ix| ensures (os + [o])[ix[k]] == os[ix[k]] { assert ix[k] < |os|; }
  }

  /** The patterns that are reported, by stanza. */
  lemma {:induction false} CollisionsAre(os: seq<Outcome>) returns (ix: seq<nat>)
    ensures Picks(ix, os, true) && PatternsOf(Collisions(os), ix, os)
    decreases |os|
  {
    ix := [];
    if os != [] {
      hide Collisions, Picks, PatternsOf;
      var front, o := os[..|os| - 1], os[|os| - 1];
      var before := CollisionsAre(front);
      assert os == front + [o];
      CollisionsAppend(front, [o]);
      KeptOne(o);
      PicksNext(before, front, o, true);
      PatternsNext(Collisions(front), before, front, o);
      ix := if o.Rebuilt? then before + [|front|] else before;
    }
  }

  lemma {:induction false} DroppedCountIs(os: seq<Outcome>)
    ensures DroppedCount(os) == |set i: nat | i < |os| && os[i].Dropped?|
    decreases |os|
  {
    if os != [] {
      var n, o := |os| - 1, os[|os| - 1];
      DroppedCountIs(os[..n]);
      assert os == os[..n] + [o];
      DroppedAppend(os[..n], [o]);
      assert [o][1..] == [] && DroppedCount([o]) == if o.Dropped? then 1 else 0;
      hide DroppedCount;
      var below, all := set i: nat | i < n && os[..n][i].Dropped?, set i: nat | i < |os| && os[i].Dropped?;
      assert forall i :: 0 <= i < n ==> os[..n][i] == os[i];
      assert all == below + if o.Dropped? then {n} else {};
    }
  }

  /** What a merge reports: how many stanzas were dropped, and the patterns of those that collide, in order. */
  lemma ReportIs(texts: seq<string>, existing: set<string>)
    ensures var ss, r := Imported(texts), Select(texts, existing);
      && r.dropped == |set i: nat | i < |ss| && IsGlobal(ss[i])|
      && exists ix :: Lists(ix, |ss|, (i: nat) => i < |ss| && Collides(ss[i], existing))
           && r.collisions == seq(|ix|, k requires 0 <= k < |ix| => if ix[k] < |ss| then ss[ix[k]].patterns else [])
  {
    hide Imported, Choose, Join, KeptTexts, DroppedCount, Collisions, FromText, IsGlobal, Collides, IsNew,
      TrimmedLines, SplitLines, Inked, LinesToWrite;
    var ss := Imported(texts);
    var os := ChooseAll(ss, existing);
    ImportedFromText(texts);
    forall i | 0 <= i < |ss|
      ensures (os[i].Dropped? <==> IsGlobal(ss[i])) && (os[i].Rebuilt? <==> Collides(ss[i], existing))
        && (os[i].Rebuilt? ==> os[i].patterns == ss[i].patterns)
    {
      ChosenIs(ss[i], existing);
    }
    DroppedCountIs(os);
    assert (set i: nat | i < |os| && os[i].Dropped?) == set i: nat | i < |ss| && IsGlobal(ss[i]);
    var ix := CollisionsAre(os);
    assert Collisions(os)
      == seq(|ix|, k requires 0 <= k < |ix| => if ix[k] < |ss| then ss[ix[k]].patterns else []);
    PickedLists(ix, os, true, (i: nat) => i < |ss| && Collides(ss[i], existing));
  }

  /** The picked outcomes, told by what was known before the choice. */
  lemma PickedLists(ix: seq<nat>, os: seq<Outcome>, colliding: bool, q: nat -> bool)
    requires Picks(ix, os, colliding) && forall i: nat :: i < |os| ==> Picked(os[i], colliding) == q(i)
    ensures Lists(ix, |os|, q)
  {
  }

  // ---------------------------------------------------------------- the fragment file

  /** Blocks of lines, a blank line between them. */
  function Stacked(blocks: seq<seq<string>>): seq<string> {
    if blocks == [] then []
    else if |blocks| == 1 then blocks[0]
    else blocks[0] + [""] + Stacked(blocks[1..])
  }

  function LinesOfAll(ts: seq<string>): (r: seq<seq<string>>)
    ensures |r| == |ts| && forall i :: 0 <= i < |ts| ==> r[i] == SplitLines(ts[i])
  {
    if ts == [] then [] else [SplitLines(ts[0])] + LinesOfAll(ts[1..])
  }

  /** A text that ends in no whitespace has the same lines with a newline after it. */
  lemma {:induction false} InkedLines(t: string)
    requires Inked(t)
    ensures SplitLines(t + "\n") == SplitLines(t)
    decreases |t|
  {
    hide IsSpace, IsLineBreak, LineLength, BreakLength, SplitLines;
    BreaksAreSpace(t[|t| - 1]);
    var n := LineLength(t);
    if n == |t| {
      OneInkedLine(t);
    } else {
      SplitOfAppend(t, "\n");
      var tail := t[n + BreakLength(t, n)..];
      if n + 1 == |t| { LastBreak(t); }
      assert n + 1 < |t|;
      TailInked(t);
      InkedLines(tail);
    }
  }

  lemma OneInkedLine(t: string)
    requires t != "" && LineLength(t) == |t|
    ensures SplitLines(t + "\n") == SplitLines(t)
  {
    hide IsLineBreak;
    assert t == t[..|t|];
    SplitLinesStep(t, "");
    SplitLinesOne(t);
    assert t + "\n" + "" == t + "\n";
    assert SplitLines("") == [];
  }

  lemma LastBreak(t: string)
    requires LineLength(t) + 1 == |t|
    ensures IsLineBreak(t[|t| - 1])
  {
  }

  lemma TailInked(t: string)
    requires Inked(t) && LineLength(t) + 1 < |t|
    ensures var tail := t[LineLength(t) + BreakLength(t, LineLength(t))..]; Inked(tail) && |tail| < |t|
  {
    NewlineIsSpace();
    hide IsSpace;
  }

  lemma BreaksAreSpace(c: char)
    ensures IsLineBreak(c) ==> IsSpace(c)
  {
  }

  lemma {:induction false} StackedLines(ts: seq<string>)
    requires ts != [] && forall i :: 0 <= i < |ts| ==> Inked(ts[i])
    ensures SplitLines(Join("\n\n", ts) + "\n") == Stacked(LinesOfAll(ts))
  {
    hide SplitLines, Inked;
    assert LinesOfAll(ts)[1..] == LinesOfAll(ts[1..]);
    InkedLines(ts[0]);
    if |ts| > 1 {
      var rest := Join("\n\n", ts[1..]) + "\n";
      StackedLines(ts[1..]);
      assert Join("\n\n", ts) + "\n" == ts[0] + "\n" + ("" + "\n" + rest);
      SplitLinesAfterNewline(ts[0], "" + "\n" + rest);
      assert NoBreaks("");
      SplitLinesStep("", rest);
      Regroup(SplitLines(ts[0]), [""], Stacked(LinesOfAll(ts[1..])));
    }
  }

  lemma NewlineAfterNewline(s: string)
    requires EndsWithNewline(s)
    ensures SplitLines(s + "\n") == SplitLines(s) + [""]
  {
    hide SplitLines;
    var x := s[..|s| - 1];
    assert s == x + "\n" && s + "\n" == x + "\n" + ("" + "\n" + "");
    SplitLinesAfterNewline(x, "" + "\n" + "");
    assert NoBreaks("");
    SplitLinesStep("", "");
    SplitEmpty();
  }

  /** The lines in front of the imported blocks: the old fragment and a blank line or two, or the title. */
  ghost predicate FrontOf(front: seq<string>, fragment: string) {
    if fragment == "" then front == [Title(), ""]
    else front == SplitLines(fragment) + [""] || front == SplitLines(fragment) + ["", ""]
  }

  lemma TitleFront() returns (front: seq<string>)
    ensures FrontOf(front, "") && front == SplitLines(Title() + "\n" + "" + "\n")
  {
    assert NoBreaks(Title());
    hide SplitLines, Title, NoBreaks;
    front := [Title(), ""];
    var t := Title() + "\n" + ("" + "\n" + "");
    assert Title() + "\n" + "" + "\n" == t;
    SplitLinesStep(Title(), "" + "\n" + "");
    assert NoBreaks("") by { NothingHasNoBreaks(); }
    SplitLinesStep("", "");
    SplitEmpty();
  }

  lemma NothingHasNoBreaks()
    ensures NoBreaks("")
  {
  }

  lemma OldFront(fragment: string) returns (front: seq<string>)
    requires fragment != ""
    ensures FrontOf(front, fragment)
    ensures front == SplitLines((if EndsWithNewline(fragment) then fragment else fragment + "\n") + "\n")
  {
    hide SplitLines;
    SplitLinesAfterNewline(fragment, "");
    if EndsWithNewline(fragment) {
      NewlineAfterNewline(fragment);
      front := SplitLines(fragment) + [""];
    } else {
      var body := fragment + "\n";
      NewlineAfterNewline(body);
      front := SplitLines(body) + [""];
      Regroup(SplitLines(fragment), [""], [""]);
    }
  }

  /** The written fragment begins with the old one, and its lines are the old ones and the added blocks. */
  lemma BodyLines(fragment: string, ts: seq<string>) returns (front: seq<string>)
    requires ts != [] && forall i :: 0 <= i < |ts| ==> Inked(ts[i])
    ensures var body := FragmentBody(fragment, Join("\n\n", ts));
      fragment <= body && FrontOf(front, fragment) && SplitLines(body) == front + Stacked(LinesOfAll(ts))
  {
    hide SplitLines, Inked, Title, Join, Stacked, FrontOf;
    var added := Join("\n\n", ts);
    StackedLines(ts);
    if fragment == "" {
      front := TitleFront();
      var x := Title() + "\n" + "";
      SplitLinesAfterNewline(x, added + "\n");
      assert FragmentBody(fragment, added) == x + "\n" + (added + "\n");
    } else {
      front := OldFront(fragment);
      var x := if EndsWithNewline(fragment) then fragment else fragment + "\n";
      SplitLinesAfterNewline(x, added + "\n");
      assert FragmentBody(fragment, added) == x + "\n" + (added + "\n");
    }
  }

  /** The lines of `body` are those of the fragment there was, and the new stanzas, whole and in order. */
  ghost predicate HoldsBlocks(
    body: string, fragment: string, ss: seq<Stanza>, existing: set<string>, front: seq<string>,
    blocks: seq<seq<string>>, ix: seq<nat>)
  {
    && fragment <= body && FrontOf(front, fragment) && SplitLines(body) == front + Stacked(blocks)
    && Lists(ix, |ss|, (i: nat) => i < |ss| && IsNew(ss[i], existing)) && |blocks| == |ix|
    && forall k :: 0 <= k < |ix| ==>
         ix[k] < |ss| && ss[ix[k]].block != [] && TrimmedLines(LinesToWrite(ss[ix[k]], existing), blocks[k])
  }

  /** What a selection writes, stanza by stanza. */
  lemma SelectionBlocks(texts: seq<string>, existing: set<string>) returns (ix: seq<nat>, ts: seq<string>)
    ensures Select(texts, existing).text == Join("\n\n", ts) && |ts| == |ix|
    ensures var ss := Imported(texts);
      && Lists(ix, |ss|, (i: nat) => i < |ss| && IsNew(ss[i], existing))
      && forall k :: 0 <= k < |ix| ==>
           ix[k] < |ss| && ss[ix[k]].block != [] && Inked(ts[k])
           && TrimmedLines(LinesToWrite(ss[ix[k]], existing), SplitLines(ts[k]))
  {
    hide Imported, Choose, Join, KeptTexts, DroppedCount, Collisions, FromText, IsGlobal, Collides, IsNew, Lists,
      TrimmedLines, SplitLines, Inked, LinesToWrite, Strip, Picks;
    var ss := Imported(texts);
    var os := ChooseAll(ss, existing);
    ImportedFromText(texts);
    forall i | 0 <= i < |ss|
      ensures (Writes(os[i]) <==> IsNew(ss[i], existing)) && ss[i].block != []
        && (Writes(os[i]) ==> Inked(os[i].text))
        && (Writes(os[i]) ==> TrimmedLines(LinesToWrite(ss[i], existing), SplitLines(os[i].text)))
    {
      FromTextHasBlock(ss[i]);
      ChosenIs(ss[i], existing);
    }
    ts := KeptTexts(os);
    ix := KeptTextsAre(os);
    PickedLists(ix, os, false, (i: nat) => i < |ss| && IsNew(ss[i], existing));
  }

  lemma BlankMeansNothing(texts: seq<string>, existing: set<string>, s: Stanza)
    requires Strip(Select(texts, existing).text) == "" && s in Imported(texts)
    ensures !IsNew(s, existing)
  {
    hide Imported, Select, Strip, Choose, IsNew, Collides, IsGlobal, TrimmedLines, FromText;
    ImportedFromText(texts);
    var i :| 0 <= i < |Imported(texts)| && Imported(texts)[i] == s;
    ChosenIs(s, existing);
    if IsNew(s, existing) { SelectionHasInk(texts, existing, i); }
  }

  lemma SomeText(ts: seq<string>)
    requires Strip(Join("\n\n", ts)) != ""
    ensures ts != []
  {
    if ts == [] {
      EmptyJoin();
      StripEmpty();
    }
  }

  /** The lines after the fragment there was are the new stanzas, and there are some. */
  lemma SelectionIs(texts: seq<string>, existing: set<string>, fragment: string)
    returns (front: seq<string>, blocks: seq<seq<string>>, ix: seq<nat>)
    requires Strip(Select(texts, existing).text) != ""
    ensures ix != [] && HoldsBlocks(
      FragmentBody(fragment, Select(texts, existing).text), fragment, Imported(texts), existing, front, blocks, ix)
  {
    hide Imported, Select, IsNew, Lists, TrimmedLines, SplitLines, Inked, LinesToWrite, Strip, FragmentBody, Stacked,
      FrontOf, Join;
    var ts;
    ix, ts := SelectionBlocks(texts, existing);
    SomeText(ts);
    front := BodyLines(fragment, ts);
    blocks := LinesOfAll(ts);
  }

  /**
   * A merge keeps the fragment there was and writes after it every stanza that names a new host, with
   * all its lines, in order and one after the other; with no such stanza it writes nothing.
   */
  lemma MergeWritesBlocks(r: Resolver, t: Tree, texts: seq<string>, name: string)
    ensures var ss, existing, after := Imported(texts), TreeNames(r, t), Merged(r, t, texts, name);
      if forall s :: s in ss ==> !IsNew(s, existing) then after == t
      else exists front, blocks, ix :: HoldsBlocks(after.fragment, t.fragment, ss, existing, front, blocks, ix)
  {
    hide Imported, Select, TreeNames, FragmentBody, HoldsBlocks, IsNew, Strip;
    var ss, existing := Imported(texts), TreeNames(r, t);
    if Strip(Select(texts, existing).text) == "" {
      forall s | s in ss ensures !IsNew(s, existing) { BlankMeansNothing(texts, existing, s); }
    } else {
      var front, blocks, ix := SelectionIs(texts, existing, t.fragment);
      SomeNew(Merged(r, t, texts, name).fragment, t.fragment, ss, existing, front, blocks, ix);
    }
  }

  lemma SomeNew(
    body: string, fragment: string, ss: seq<Stanza>, existing: set<string>, front: seq<string>,
    blocks: seq<seq<string>>, ix: seq<nat>)
    requires ix != [] && HoldsBlocks(body, fragment, ss, existing, front, blocks, ix)
    ensures exists s :: s in ss && IsNew(s, existing)
  {
    hide IsNew, FrontOf, TrimmedLines, LinesToWrite, Stacked, SplitLines;
    assert ix[0] in ix && ss[ix[0]] in ss;
  }
}
