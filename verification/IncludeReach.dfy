/** The host names an Include-resolved tree declares, and what merging an import does to them. */
module IncludeReach {
  import opened Text
  import opened SshConfig
  import opened HostMerge
  import opened HostImport
  import opened IncludeRepair

  // ---------------------------------------------------------------- the resolver

  /**
   * What resolving an Include line finds: the names declared by the files it reaches, the main file
   * and the fragment aside, whether it reaches the fragment, and whether it makes the resolver give up,
   * as an unbalanced quote does.
   */
  datatype Resolver = Resolver(reach: string -> set<string>, hits: string -> bool, fails: string -> bool)

  /** The lines the resolver follows: `Include` and a space, in any case. */
  predicate Follows(line: string) {
    var s := Strip(line);
    |s| >= 8 && Lower(s[..8]) == "include "
  }

  function LineReach(r: Resolver, line: string): set<string> { if Follows(line) then r.reach(line) else {} }

  function Reached(r: Resolver, lines: seq<string>): set<string> {
    if lines == [] then {} else Reached(r, lines[..|lines| - 1]) + LineReach(r, lines[|lines| - 1])
  }

  predicate Hits(r: Resolver, lines: seq<string>) {
    exists i :: 0 <= i < |lines| && Follows(lines[i]) && r.hits(lines[i])
  }

  /** Some line makes the resolver give up. */
  predicate Breaks(r: Resolver, lines: seq<string>) {
    exists i :: 0 <= i < |lines| && Follows(lines[i]) && r.fails(lines[i])
  }

  /** What the Include lines reach that a repair keeps, and what those reach that it removes. */
  function KeptReach(r: Resolver, lines: seq<string>, name: string): set<string> {
    if lines == [] then {}
    else
      var line := lines[|lines| - 1];
      KeptReach(r, lines[..|lines| - 1], name) + if IsFragmentInclude(line, name) then {} else LineReach(r, line)
  }

  function RemovedReach(r: Resolver, lines: seq<string>, name: string): set<string> {
    if lines == [] then {}
    else
      var line := lines[|lines| - 1];
      RemovedReach(r, lines[..|lines| - 1], name) + if IsFragmentInclude(line, name) then LineReach(r, line) else {}
  }

  /** Some line that a repair keeps makes the resolver give up. */
  predicate KeptBreaks(r: Resolver, lines: seq<string>, name: string) {
    exists i :: 0 <= i < |lines| && !IsFragmentInclude(lines[i], name) && Follows(lines[i]) && r.fails(lines[i])
  }

  datatype Tree = Tree(main: string, fragment: string)

  /** What a text declares, itself and through its Includes. */
  function Declared(r: Resolver, text: string): set<string> { TextNames(text) + Reached(r, SplitLines(text)) }

  /** The resolver gets through the tree. */
  predicate Resolves(r: Resolver, t: Tree) {
    !Breaks(r, SplitLines(t.main)) && (Hits(r, SplitLines(t.main)) ==> !Breaks(r, SplitLines(t.fragment)))
  }

  /** Every host name of the resolved tree or, when the resolver gives up, of the main file alone. */
  function TreeNames(r: Resolver, t: Tree): set<string> {
    if Resolves(r, t) then Declared(r, t.main) + if Hits(r, SplitLines(t.main)) then Declared(r, t.fragment) else {}
    else TextNames(t.main)
  }

  /** Giving up, told as reach: what breaks the resolver reaches one name, everything else none. */
  function Faults(r: Resolver): Resolver {
    r.(reach := line => if r.fails(line) then {""} else {})
  }

  lemma {:induction false} BreaksIsReach(r: Resolver, lines: seq<string>)
    ensures Breaks(r, lines) <==> Reached(Faults(r), lines) != {}
  {
    hide Follows;
    if lines != [] {
      var n := |lines| - 1;
      BreaksIsReach(r, lines[..n]);
      assert lines == lines[..n] + [lines[n]];
      assert LineReach(Faults(r), lines[n]) != {} <==> Follows(lines[n]) && r.fails(lines[n]);
    }
  }

  lemma {:induction false} KeptBreaksIsReach(r: Resolver, lines: seq<string>, name: string)
    ensures KeptBreaks(r, lines, name) <==> KeptReach(Faults(r), lines, name) != {}
  {
    hide Follows, IsFragmentInclude;
    if lines != [] {
      var n := |lines| - 1;
      KeptBreaksIsReach(r, lines[..n], name);
      assert lines == lines[..n] + [lines[n]];
      assert LineReach(Faults(r), lines[n]) != {} <==> Follows(lines[n]) && r.fails(lines[n]);
    }
  }

  lemma {:induction false} ReachedAppend(r: Resolver, a: seq<string>, b: seq<string>)
    ensures Reached(r, a + b) == Reached(r, a) + Reached(r, b)
    decreases |b|
  {
    hide LineReach;
    if b == [] {
      assert a + b == a;
    } else {
      var n := |b| - 1;
      ReachedAppend(r, a, b[..n]);
      assert (a + b)[..|a + b| - 1] == a + b[..n];
    }
  }

  lemma ReachedOne(r: Resolver, line: string)
    ensures Reached(r, [line]) == LineReach(r, line)
  {
    hide LineReach;
    assert [line][..0] == [];
    assert Reached(r, []) == {};
  }

  lemma {:induction false} ReachSplits(r: Resolver, lines: seq<string>, name: string)
    ensures Reached(r, lines) == KeptReach(r, lines, name) + RemovedReach(r, lines, name)
  {
    hide LineReach, IsFragmentInclude;
    if lines != [] { ReachSplits(r, lines[..|lines| - 1], name); }
  }

  // ---------------------------------------------------------------- lines that reach nothing

  lemma CommentReachesNothing(r: Resolver, line: string)
    requires Strip(line) == "" || Strip(line)[0] == '#'
    ensures LineReach(r, line) == {}
  {
    hide Strip;
    var s := Strip(line);
    if |s| >= 8 {
      assert Lower(s[..8])[0] == LowerChar(s[0]);
      assert "include "[0] == 'i';
    }
  }

  lemma MarkerReachesNothing(r: Resolver, line: string)
    requires IsMarker(line)
    ensures LineReach(r, line) == {}
  {
    assert Marker()[0] == '#';
    hide Strip, LineReach;
    CommentReachesNothing(r, line);
  }

  lemma MatchAllReachesNothing(r: Resolver)
    ensures LineReach(r, MatchAll()) == {}
  {
    MatchAllStripped();
    hide Strip, Lower;
    var s := Strip(MatchAll());
    assert s[0] == 'M';
    assert Lower(s[..8])[0] == LowerChar(s[0]) == 'm';
    assert "include "[0] == 'i';
  }

  lemma BlankReachesNothing(r: Resolver)
    ensures LineReach(r, "") == {} && Reached(r, SplitLines("")) == {}
  {
    assert Strip("") == "";
    assert SplitLines("") == [];
  }

  lemma IncludeEight(j: string)
    ensures var s := "Include " + j; |s| >= 8 && s[0] == 'I' && Lower(s[..8]) == "include "
  {
    var s := "Include " + j;
    assert s[..8] == ['I', 'n', 'c', 'l', 'u', 'd', 'e', ' '];
    assert Lower(s[..8]) == ['i', 'n', 'c', 'l', 'u', 'd', 'e', ' '];
  }

  /** An Include line is one the resolver follows. */
  lemma IncludeIsFollowed(j: string)
    requires j != "" && !IsSpace(j[|j| - 1])
    ensures Follows(IncludeLine(j))
  {
    IncludeStripped(j);
    IncludeEight(j);
    hide Strip, Lower;
  }

  lemma IncludeStripped(j: string)
    requires j != "" && !IsSpace(j[|j| - 1])
    ensures Strip(IncludeLine(j)) == "Include " + j
  {
    var body := "Include " + j;
    assert !IsSpace('I') && IsSpace(' ');
    hide IsSpace, Strip;
    assert IncludeLine(j) == "    " + body;
    assert body[0] == 'I' && body[|body| - 1] == j[|j| - 1];
    StripIndented("    ", body);
  }

  // ---------------------------------------------------------------- what the repair reaches

  lemma {:induction false} CleanedReach(r: Resolver, lines: seq<string>, name: string)
    ensures Reached(r, Cleaned(lines, name)) == KeptReach(r, lines, name)
  {
    hide LineReach, IsFragmentInclude, IsMarker;
    if lines != [] {
      var n := |lines| - 1;
      var out, line := Cleaned(lines[..n], name), lines[n];
      CleanedReach(r, lines[..n], name);
      if !IsFragmentInclude(line, name) {
        ReachedAppend(r, out, [line]);
        ReachedOne(r, line);
      } else if out != [] && IsMarker(out[|out| - 1]) {
        MarkerReachesNothing(r, out[|out| - 1]);
      }
    }
  }

  lemma PaddedReach(r: Resolver, out: seq<string>)
    ensures Reached(r, Padded(out)) == Reached(r, out)
  {
    BlankReachesNothing(r);
    hide LineReach;
    ReachedOne(r, "");
    ReachedAppend(r, out, [""]);
    assert Reached(r, []) == {};
  }

  /** The repaired main file reaches what its kept Includes reach, and what the new one does. */
  lemma NormalizedReach(r: Resolver, text: string, name: string)
    requires FragmentName(name)
    ensures Reached(r, SplitLines(Normalize(text, name, name)))
      == KeptReach(r, SplitLines(text), name) + r.reach(IncludeLine(name))
    ensures r.hits(IncludeLine(name)) ==> Hits(r, SplitLines(Normalize(text, name, name)))
  {
    FragmentNameClean(name);
    FragmentNameEnds(name);
    hide FragmentName, NoBreaks, SplitLines, Cleaned, Padded, LineReach, Normalize, IsMarker, Follows, IncludeLine,
      IsSpace;
    var out := Padded(Cleaned(SplitLines(text), name));
    NormalizeLines(text, name, name);
    TailParts(out, name);
    CleanedReach(r, SplitLines(text), name);
    PaddedReach(r, Cleaned(SplitLines(text), name));
    MarkerItself(r);
    MatchAllReachesNothing(r);
    IncludeIsFollowed(name);
    TailReach(r, out, name);
    var all := out + [Marker()] + [MatchAll()] + [IncludeLine(name)];
    assert all[|all| - 1] == IncludeLine(name);
  }

  lemma MarkerItself(r: Resolver)
    ensures LineReach(r, Marker()) == {}
  {
    assert !IsSpace('#') && !IsSpace('t');
    hide IsSpace, Strip, LineReach;
    var m := Marker();
    assert m[0] == '#' && m[|m| - 1] == 't';
    StripIndented("", m);
    assert "" + m == m;
    MarkerReachesNothing(r, m);
  }

  lemma TailReach(r: Resolver, out: seq<string>, name: string)
    requires LineReach(r, Marker()) == {} && LineReach(r, MatchAll()) == {} && Follows(IncludeLine(name))
    ensures Reached(r, out + [Marker()] + [MatchAll()] + [IncludeLine(name)])
      == Reached(r, out) + r.reach(IncludeLine(name))
  {
    hide Follows, Marker, MatchAll, IncludeLine;
    ReachedOne(r, Marker());
    ReachedOne(r, MatchAll());
    ReachedOne(r, IncludeLine(name));
    ReachedAppend(r, out, [Marker()]);
    ReachedAppend(r, out + [Marker()], [MatchAll()]);
    ReachedAppend(r, out + [Marker()] + [MatchAll()], [IncludeLine(name)]);
  }

  lemma FragmentNameEnds(name: string)
    requires FragmentName(name)
    ensures name != "" && !IsSpace(name[|name| - 1])
  {
  }

  // ---------------------------------------------------------------- what the fragment reaches

  lemma ReachJoin(r: Resolver, x: string, y: string)
    ensures Reached(r, SplitLines(x + "\n" + y)) == Reached(r, SplitLines(x)) + Reached(r, SplitLines(y))
  {
    BlankReachesNothing(r);
    hide SplitLines, LineReach;
    SplitLinesAfterNewline(x, y);
    ReachedAppend(r, SplitLines(x + "\n"), SplitLines(y));
    ReachedAppend(r, SplitLines(x), [""]);
    ReachedOne(r, "");
  }

  lemma TitleReachesNothing(r: Resolver)
    ensures Reached(r, SplitLines(Title())) == {}
  {
    var t := Title();
    assert t[0] == '#' && NoBreaks(t);
    assert !IsSpace('#');
    hide IsSpace, NoBreaks, LineReach, SplitLines;
    SplitLinesOne(t);
    ReachedOne(r, t);
    hide Title;
    CommentStripped(t);
    CommentReachesNothing(r, t);
  }

  /** The written fragment reaches what it reached and what the added blocks reach. */
  lemma BodyReach(r: Resolver, fragment: string, added: string)
    ensures Reached(r, SplitLines(FragmentBody(fragment, added)))
      == Reached(r, SplitLines(fragment)) + Reached(r, SplitLines(added))
  {
    hide SplitLines, Reached, Title, LineReach, FragmentBody;
    BlankReachesNothing(r);
    TitleReachesNothing(r);
    var head := BodyShape(fragment, added);
    ReachJoin(r, added, "");
    ReachJoin(r, head, added + "\n" + "");
    ReachJoin(r, Title(), "");
    ReachJoin(r, fragment, "");
  }

  lemma BodyDeclared(r: Resolver, fragment: string, added: string)
    ensures Declared(r, FragmentBody(fragment, added)) == Declared(r, fragment) + Declared(r, added)
  {
    hide TextNames, Reached, FragmentBody;
    BodyNames(fragment, added);
    BodyReach(r, fragment, added);
  }

  // ---------------------------------------------------------------- merging twice

  /** The resolver gets through the tree and meets the fragment. */
  predicate Found(r: Resolver, t: Tree) {
    Resolves(r, t) && Hits(r, SplitLines(t.main))
  }

  predicate Repairs(r: Resolver, t: Tree, name: string) {
    !Found(r, t) || IsConditional(t.main, name)
  }

  /** The tree after a merge: nothing written when nothing is new, else the fragment and then the repaired main file. */
  function Merged(r: Resolver, t: Tree, texts: seq<string>, name: string): Tree {
    var chosen := Select(texts, TreeNames(r, t));
    if Strip(chosen.text) == "" then t else Ensured(r, Tree(t.main, FragmentBody(t.fragment, chosen.text)), name)
  }

  function Ensured(r: Resolver, t: Tree, name: string): Tree {
    t.(main := EnsureInclude(t.main, Found(r, t), name))
  }

  /** The names that are left when the repair has removed its Include lines. */
  function Elsewhere(r: Resolver, t: Tree, name: string): set<string> {
    TextNames(t.main) + KeptReach(r, SplitLines(t.main), name) + r.reach(IncludeLine(name)) + Declared(r, t.fragment)
  }

  /** The resolver still gives up after the repair. */
  predicate StaysBroken(r: Resolver, t: Tree, name: string) {
    Repairs(r, t, name) && (KeptBreaks(r, SplitLines(t.main), name) || Breaks(r, SplitLines(t.fragment)))
  }

  /** The names of a tree once the Include of its fragment is in place. */
  function EnsuredNames(r: Resolver, t: Tree, name: string): set<string> {
    if StaysBroken(r, t, name) then TextNames(t.main)
    else if Repairs(r, t, name) then Elsewhere(r, t, name)
    else Declared(r, t.main) + Declared(r, t.fragment)
  }

  /** The program's own Include line reaches the fragment and does not break the resolver. */
  predicate OwnInclude(r: Resolver, name: string) {
    FragmentName(name) && r.hits(IncludeLine(name)) && !r.fails(IncludeLine(name))
  }

  lemma EnsuredNamesAre(r: Resolver, t: Tree, name: string)
    requires OwnInclude(r, name)
    ensures TreeNames(r, Ensured(r, t, name)) == EnsuredNames(r, t, name)
    ensures Found(r, Ensured(r, t, name)) <==> !StaysBroken(r, t, name)
  {
    hide FragmentName, TextNames, Reached, KeptReach, Normalize, IsConditional, SplitLines, Hits, IncludeLine, Breaks,
      KeptBreaks;
    if Repairs(r, t, name) {
      NormalizeKeepsNames(t.main, name);
      NormalizedReach(r, t.main, name);
      NormalizedReach(Faults(r), t.main, name);
      BreaksIsReach(r, SplitLines(Normalize(t.main, name, name)));
      KeptBreaksIsReach(r, SplitLines(t.main), name);
    }
  }

  /** What the removed Include lines reached is declared elsewhere, or nothing is removed. */
  predicate KeepsReach(r: Resolver, t: Tree, added: string, name: string) {
    var next := Tree(t.main, FragmentBody(t.fragment, added));
    if StaysBroken(r, next, name) then TreeNames(r, t) <= TextNames(t.main)
    else Repairs(r, next, name) && Resolves(r, t) ==>
           RemovedReach(r, SplitLines(t.main), name) <= Elsewhere(r, next, name)
  }

  /**
   * The repair loses no name of the tree if and only if what its removed lines reached is declared
   * elsewhere or, should the resolver give up from then on, the main file declares all there was.
   */
  lemma RepairKeepsReach(r: Resolver, t: Tree, added: string, name: string)
    requires OwnInclude(r, name)
    ensures var next := Tree(t.main, FragmentBody(t.fragment, added));
      TreeNames(r, t) <= TreeNames(r, Ensured(r, next, name)) <==> KeepsReach(r, t, added, name)
  {
    hide OwnInclude, TextNames, Reached, KeptReach, RemovedReach, EnsureInclude, SplitLines, Hits, IncludeLine,
      FragmentBody, IsConditional, Breaks, KeptBreaks;
    EnsuredNamesAre(r, Tree(t.main, FragmentBody(t.fragment, added)), name);
    BodyDeclared(r, t.fragment, added);
    BodyBreaks(r, t.fragment, added);
    ReachSplits(r, SplitLines(t.main), name);
  }

  lemma BodyBreaks(r: Resolver, fragment: string, added: string)
    ensures Breaks(r, SplitLines(FragmentBody(fragment, added)))
      <==> Breaks(r, SplitLines(fragment)) || Breaks(r, SplitLines(added))
  {
    hide SplitLines, FragmentBody, Breaks, Reached;
    BodyReach(Faults(r), fragment, added);
    BreaksIsReach(r, SplitLines(FragmentBody(fragment, added)));
    BreaksIsReach(r, SplitLines(fragment));
    BreaksIsReach(r, SplitLines(added));
  }

  /**
   * Merging an import into the tree and merging it again: the second merge adds nothing and reports
   * no collision if and only if the imported names that were there are still reached and every name
   * split off the first time is declared; or, should the resolver give up from then on, if the main
   * file declares every name of the import. All of it is told from the tree before the first merge.
   */
  lemma MergeTwiceAddsNothing(r: Resolver, t: Tree, texts: seq<string>, name: string)
    requires OwnInclude(r, name)
    ensures var existing := TreeNames(r, t);
      var first := Select(texts, existing);
      var next := Tree(t.main, FragmentBody(t.fragment, first.text));
      var later := if Strip(first.text) == "" then existing else EnsuredNames(r, next, name);
      && TreeNames(r, Merged(r, t, texts, name)) == later
      && (Select(texts, later) == Selection("", first.dropped, [])
          <==> if Strip(first.text) != "" && StaysBroken(r, next, name) then AllSettled(texts, TextNames(t.main))
               else StillThere(texts, existing, later) && SplitsDeclared(texts, existing, later))
      && (KeepsReach(r, t, first.text, name) ==> StillThere(texts, existing, later))
  {
    hide OwnInclude, TextNames, Select, TreeNames, FragmentBody, SplitsDeclared, KeepsReach, Strip, Ensured, Settled,
      EnsuredNames, Concrete, Imported, StaysBroken;
    var existing := TreeNames(r, t);
    var first := Select(texts, existing);
    var next := Tree(t.main, FragmentBody(t.fragment, first.text));
    if Strip(first.text) == "" {
      BlankSelection(texts, existing);
      BlankNames();
      SecondImport(texts, existing, existing);
    } else {
      EnsuredNamesAre(r, next, name);
      RepairKeepsReach(r, t, first.text, name);
      if StaysBroken(r, next, name) {
        BrokenNames(r, next, name);
        SelectsNothing(texts, existing, TextNames(t.main));
      } else {
        WrittenIsDeclared(r, t, first.text, name);
        SecondImport(texts, existing, EnsuredNames(r, next, name));
      }
    }
  }

  /** Every host of the import that is not a pattern is declared. */
  predicate AllSettled(texts: seq<string>, names: set<string>) {
    forall s :: s in Imported(texts) ==> Settled(s, names)
  }

  lemma BrokenNames(r: Resolver, t: Tree, name: string)
    requires StaysBroken(r, t, name)
    ensures EnsuredNames(r, t, name) == TextNames(t.main)
  {
  }

  lemma WrittenIsDeclared(r: Resolver, t: Tree, added: string, name: string)
    requires !StaysBroken(r, Tree(t.main, FragmentBody(t.fragment, added)), name)
    ensures TextNames(added) <= EnsuredNames(r, Tree(t.main, FragmentBody(t.fragment, added)), name)
  {
    hide TextNames, Reached, KeptReach, SplitLines, IncludeLine, FragmentBody, StaysBroken, Repairs;
    BodyDeclared(r, t.fragment, added);
  }

  /**
   * An Include line that makes the resolver give up, and that no repair removes: every merge of the
   * same import writes the same blocks again.
   */
  lemma BrokenIncludeImportsAgain(r: Resolver, t: Tree, texts: seq<string>, name: string)
    requires OwnInclude(r, name) && KeptBreaks(r, SplitLines(t.main), name)
    ensures var again := Merged(r, t, texts, name);
      && Select(texts, TreeNames(r, again)) == Select(texts, TreeNames(r, t))
      && KeptBreaks(r, SplitLines(again.main), name)
  {
    hide OwnInclude, TextNames, Select, FragmentBody, Strip, Normalize, IsConditional, SplitLines, Hits, KeptBreaks,
      Breaks, EnsuredNames;
    KeptIsBroken(r, SplitLines(t.main), name);
    var next := Tree(t.main, FragmentBody(t.fragment, Select(texts, TreeNames(r, t)).text));
    EnsuredNamesAre(r, next, name);
    BrokenNames(r, next, name);
    RepairKeepsBroken(r, t.main, name);
  }

  lemma KeptIsBroken(r: Resolver, lines: seq<string>, name: string)
    requires KeptBreaks(r, lines, name)
    ensures Breaks(r, lines)
  {
    hide Follows, IsFragmentInclude;
  }

  lemma RepairKeepsBroken(r: Resolver, main: string, name: string)
    requires OwnInclude(r, name) && KeptBreaks(r, SplitLines(main), name)
    ensures KeptBreaks(r, SplitLines(Normalize(main, name, name)), name)
  {
    FragmentNameClean(name);
    NewLineIsInclude(name);
    hide OwnInclude, NoBreaks, SplitLines, Normalize, KeptBreaks, KeptReach, Reached, Cleaned, Padded, Marker,
      MatchAll, IncludeLine, IsFragmentInclude, HasFragmentInclude, Faults;
    var lines := SplitLines(main);
    var out, f := Padded(Cleaned(lines, name)), Faults(r);
    NormalizeLines(main, name, name);
    TailParts(out, name);
    NoIncludeBefore(lines, name);
    KeptAll(f, out + [Marker()], name);
    KeptTail(f, out + [Marker()], name);
    ReachedAppend(f, out, [Marker()]);
    CleanedReach(f, lines, name);
    PaddedReach(f, Cleaned(lines, name));
    KeptBreaksIsReach(r, lines, name);
    KeptBreaksIsReach(r, SplitLines(Normalize(main, name, name)), name);
  }

  lemma {:induction false} KeptAll(r: Resolver, lines: seq<string>, name: string)
    requires !HasFragmentInclude(lines, name)
    ensures KeptReach(r, lines, name) == Reached(r, lines)
  {
    hide LineReach, IsFragmentInclude;
    if lines != [] {
      var n := |lines| - 1;
      assert lines == lines[..n] + [lines[n]];
      KeptAll(r, lines[..n], name);
    }
  }

  lemma KeptTail(r: Resolver, out: seq<string>, name: string)
    ensures KeptReach(r, out, name) <= KeptReach(r, out + [MatchAll()] + [IncludeLine(name)], name)
  {
    hide LineReach, IsFragmentInclude, MatchAll, IncludeLine;
    var a := out + [MatchAll()];
    var b := a + [IncludeLine(name)];
    assert b[..|b| - 1] == a && a[..|a| - 1] == out;
  }

  // ---------------------------------------------------------------- a line that includes more than the fragment

  /**
   * A Host block whose Include names another file beside the fragment: the repair removes the whole
   * line, the other file's hosts are no longer reached, and the next import adds them.
   */
  lemma SharedIncludeLosesHosts(r: Resolver, h: string, other: string, fragment: string, name: string, w: string,
    s: Stanza)
    requires OwnInclude(r, name) && NoBreaks(h) && NoBreaks(other) && Keyword(h) == "host"
    requires var line := IncludeLine(other + " " + name);
      && !r.fails(line) && !Breaks(r, SplitLines(fragment))
      && w in r.reach(line) && w !in LineNames(h) + r.reach(IncludeLine(name)) + Declared(r, fragment)
    requires s.kind == Host && s.patterns == [w] && !IsWildcard(w)
    ensures var main := h + "\n" + IncludeLine(other + " " + name);
      var existing := TreeNames(r, Tree(main, fragment));
      var later := TreeNames(r, Ensured(r, Tree(main, fragment), name));
      && w in existing && Choose(s, existing).Skipped?
      && w !in later && Choose(s, later).Kept?
  {
    hide *;
    var line := IncludeLine(other + " " + name);
    var main := h + "\n" + line;
    var t := Tree(main, fragment);
    assert FragmentName(name) by { OwnName(r, name); }
    SharedLine(other, name);
    TwoLines(r, h, line, name);
    TwoUnbroken(r, h, line, name);
    EnsuredNamesAre(r, t, name);
    SharedNames(r, h, line, t, name, w);
    ChooseOne(s, w, TreeNames(r, t));
    ChooseOne(s, w, TreeNames(r, Ensured(r, t, name)));
  }

  lemma SharedLine(other: string, name: string)
    requires FragmentName(name) && NoBreaks(other)
    ensures var line := IncludeLine(other + " " + name);
      IsFragmentInclude(line, name) && Follows(line) && NoBreaks(line) && line != ""
  {
    SharedShape(other, name);
    hide *;
    IncludeIsFollowed(other + " " + name);
    NewLineKeyword(other + " " + name);
    LeadNoBreaks(other);
    NoBreaksAppend(Lead(other), name);
    SharedContains(other, name);
  }

  lemma SharedShape(other: string, name: string)
    requires FragmentName(name)
    ensures var j := other + " " + name;
      && j != "" && !IsSpace(j[|j| - 1]) && Lower(name) == name && NoBreaks(name)
      && IncludeLine(j) == Lead(other) + name && IncludeLine(j) != ""
  {
    hide IsSpace, Lower, NoBreaks;
    var j := other + " " + name;
    assert j[|j| - 1] == name[|name| - 1];
    assert IncludeLine(j) == Lead(other) + name;
  }

  lemma SharedContains(other: string, name: string)
    requires Lower(name) == name && IncludeLine(other + " " + name) == Lead(other) + name
    requires Keyword(IncludeLine(other + " " + name)) == "include"
    ensures IsFragmentInclude(IncludeLine(other + " " + name), name)
  {
    hide Lower, Keyword, Contains, IncludeLine, Lead;
    LowerContains(Lead(other), name);
  }

  function Lead(other: string): string { "    Include " + other + " " }

  lemma LeadNoBreaks(other: string)
    requires NoBreaks(other)
    ensures NoBreaks(Lead(other))
  {
    assert NoBreaks("    Include ") && NoBreaks(" ");
    hide NoBreaks;
    NoBreaksAppend("    Include ", other);
    NoBreaksAppend("    Include " + other, " ");
  }

  lemma TwoLines(r: Resolver, h: string, line: string, name: string)
    requires NoBreaks(h) && NoBreaks(line) && line != "" && Keyword(h) == "host" && IsFragmentInclude(line, name)
      && Follows(line)
    ensures var main := h + "\n" + line;
      && TextNames(main) == LineNames(h) && IsConditional(main, name)
      && KeptReach(r, SplitLines(main), name) == {} && r.reach(line) <= Reached(r, SplitLines(main))
  {
    hide IsSpace, NoBreaks, Follows, IsFragmentInclude, SplitLines, Keyword, LineNames, IsHeader, LineReach, Stanzas;
    IncludeIsNoHeader(line, name);
    SplitLinesStep(h, line);
    SplitLinesOne(line);
    var lines := [h, line];
    assert SplitLines(h + "\n" + line) == [h] + [line] == lines;
    TwoNames(h, line);
    HostReaches(r, h);
    TwoStanzas(h, line, name);
    TwoReach(r, h, line, name);
  }

  lemma TwoReach(r: Resolver, h: string, line: string, name: string)
    requires LineReach(r, h) == {} && IsFragmentInclude(line, name) && Follows(line)
    ensures KeptReach(r, [h, line], name) == {} && r.reach(line) <= Reached(r, [h, line])
  {
    hide IsFragmentInclude, Follows;
    var lines := [h, line];
    assert lines[..1] == [h] && [h][..0] == [];
    assert KeptReach(r, [h], name)
      == KeptReach(r, [], name) + (if IsFragmentInclude(h, name) then {} else LineReach(r, h));
  }

  lemma TwoNames(h: string, line: string)
    requires !IsHeader(line)
    ensures HostNames([h, line]) == LineNames(h)
  {
    hide HostPatterns, Keyword;
    NoHeaderLine(line);
    assert [h, line][1..] == [line] && [line][1..] == [];
    assert HostNames([line]) == LineNames(line) + HostNames([]);
  }

  lemma HostReaches(r: Resolver, h: string)
    requires Keyword(h) == "host"
    ensures LineReach(r, h) == {}
  {
    hide Follows, Keyword;
    HostIsNotFollowed(h);
  }

  lemma HostIsNotFollowed(h: string)
    requires Keyword(h) == "host"
    ensures !Follows(h)
  {
    hide Strip;
    var s := Strip(h);
    var word := s[..WordLength(s)];
    assert Lower(word) == "host" && |word| == 4 && Lower(word)[0] == LowerChar(s[0]) == 'h';
    assert |s| >= 8 ==> Lower(s[..8])[0] == LowerChar(s[0]);
    assert "include "[0] == 'i';
  }

  lemma TwoStanzas(h: string, line: string, name: string)
    requires Keyword(h) == "host" && !IsHeader(line) && IsFragmentInclude(line, name)
    ensures ConditionalIn(Stanzas([h, line]), name)
  {
    hide Strip, HostPatterns, IsFragmentInclude, Lower;
    var lines := [h, line];
    var empty := Stanza(Global, [], []);
    assert IsHeader(h) && KindOf(h) == Host;
    var open := Opened(h);
    var whole := open.(block := [h] + [line]);
    assert lines[1..] == [line] && [line][1..] == [];
    assert StanzasFrom(whole, []) == [whole];
    assert StanzasFrom(open, [line]) == [whole];
    assert StanzasFrom(empty, lines) == [whole];
    assert whole.block[1] == line;
    assert HasFragmentInclude(whole.block, name);
  }

  lemma SharedNames(r: Resolver, h: string, line: string, t: Tree, name: string, w: string)
    requires TextNames(t.main) == LineNames(h) && IsConditional(t.main, name)
    requires KeptReach(r, SplitLines(t.main), name) == {} && r.reach(line) <= Reached(r, SplitLines(t.main))
    requires !Breaks(r, SplitLines(t.main)) && !KeptBreaks(r, SplitLines(t.main), name)
    requires !Breaks(r, SplitLines(t.fragment))
    requires w in r.reach(line) && w !in LineNames(h) + r.reach(IncludeLine(name)) + Declared(r, t.fragment)
    ensures w in TreeNames(r, t) && w !in EnsuredNames(r, t, name)
  {
    hide TextNames, LineNames, IsConditional, KeptReach, SplitLines, Reached, IncludeLine, Hits, Breaks, KeptBreaks;
  }

  lemma OwnName(r: Resolver, name: string)
    requires OwnInclude(r, name)
    ensures FragmentName(name)
  {
  }

  lemma TwoUnbroken(r: Resolver, h: string, line: string, name: string)
    requires NoBreaks(h) && NoBreaks(line) && line != "" && Keyword(h) == "host" && !r.fails(line)
    ensures var main := h + "\n" + line; !Breaks(r, SplitLines(main)) && !KeptBreaks(r, SplitLines(main), name)
  {
    hide IsSpace, NoBreaks, Follows, IsFragmentInclude, SplitLines, Keyword;
    SplitLinesStep(h, line);
    SplitLinesOne(line);
    assert SplitLines(h + "\n" + line) == [h, line];
    assert !Follows(h) by { HostIsNotFollowed(h); }
  }

  lemma ChooseOne(s: Stanza, w: string, names: set<string>)
    requires s.kind == Host && s.patterns == [w] && !IsWildcard(w)
    ensures if w in names then Choose(s, names).Skipped? else Choose(s, names).Kept?
  {
    hide RStrip, Join, IsWildcard, RebuiltHeader;
    assert [w][1..] == [];
    assert Concrete([w]) == [w] + Concrete([]);
    assert Lacking([w], names) == (if w !in names then [w] else []) + Lacking([], names);
    assert Having([w], names) == (if w in names then [w] else []) + Having([], names);
  }

  // ---------------------------------------------------------------- files that cannot be read

  /** A file on disk, which the program may or may not be able to read. */
  datatype File = Readable(text: string) | Unreadable(text: string)

  /** What the program takes the file to hold. */
  function Seen(f: File): string { if f.Readable? then f.text else "" }

  datatype Disk = Disk(main: File, fragment: File)

  function Read(d: Disk): Tree { Tree(Seen(d.main), Seen(d.fragment)) }

  /** The files after a merge, those it does not write included. */
  function Rewritten(r: Resolver, d: Disk, texts: seq<string>, name: string): Disk {
    var chosen := Select(texts, TreeNames(r, Read(d)));
    if Strip(chosen.text) == "" then d
    else
      var next := Tree(Seen(d.main), FragmentBody(Seen(d.fragment), chosen.text));
      Disk(if Repairs(r, next, name) then Readable(Normalize(next.main, name, name)) else d.main,
           Readable(next.fragment))
  }

  /**
   * A merge goes by what it can read, and afterwards both files can be read. A file that could not be
   * is left alone if and only if nothing is new; otherwise it is overwritten, its text not even kept.
   */
  lemma UnreadableIsOverwritten(r: Resolver, d: Disk, texts: seq<string>, name: string)
    ensures var after := Rewritten(r, d, texts, name);
      var added := Select(texts, TreeNames(r, Read(d))).text;
      && Read(after) == Merged(r, Read(d), texts, name)
      && (d.main.Unreadable? ==>
            if Strip(added) == "" then after.main == d.main else after.main == Readable(Normalize("", name, name)))
      && (d.fragment.Unreadable? ==>
            if Strip(added) == "" then after.fragment == d.fragment
            else after.fragment == Readable(FragmentBody("", added)))
  {
    hide Select, TreeNames, Normalize, FragmentBody, Strip, IsConditional, Follows;
    assert SplitLines("") == [];
    assert !Hits(r, []);
  }

  // ---------------------------------------------------------------- the files as they change

  /** The main file, the import fragment beside it, and what the last merge reported. */
  class ConfigTree {
    var main: File
    var fragment: File
    var lastMergeDroppedGlobals: nat
    var lastMergeCollisions: seq<seq<string>>

    constructor (mainFile: File, fragmentFile: File)
      ensures main == mainFile && fragment == fragmentFile
    {
      main, fragment := mainFile, fragmentFile;
      lastMergeDroppedGlobals, lastMergeCollisions := 0, [];
    }

    method EnsureFragmentInclude(name: string, resolved: bool)
      modifies this`main
      ensures Seen(main) == EnsureInclude(Seen(old(main)), resolved, name)
      ensures main == if resolved && !IsConditional(Seen(old(main)), name) then old(main) else Readable(Seen(main))
    {
      var existing := Seen(main);
      var conditional := FragmentIncludeIsConditional(existing, name);
      if resolved && !conditional {
        return;
      }
      var text := NormalizeFragmentInclude(existing, name, name);
      main := Readable(text);
    }

    /** One merge: the files become the merged ones, and the report is that of the selection. */
    method MergeFragment(r: Resolver, texts: seq<string>, name: string)
      modifies this
      ensures var before := Disk(old(main), old(fragment));
              var chosen := Select(texts, TreeNames(r, Read(before)));
              && lastMergeDroppedGlobals == chosen.dropped && lastMergeCollisions == chosen.collisions
              && Disk(main, fragment) == Rewritten(r, before, texts, name)
    {
      hide Select, Strip, TreeNames, Title, Resolves, Hits, SplitLines, Normalize, IsConditional;
      var existing := Seen(fragment);
      var chosen := SelectNewHostBlocks(texts, TreeNames(r, Tree(Seen(main), existing)));
      lastMergeDroppedGlobals := chosen.dropped;
      lastMergeCollisions := chosen.collisions;
      if Strip(chosen.text) == "" {
        return;
      }
      var body;
      if existing != "" {
        body := existing;
        if !EndsWithNewline(body) {
          body := body + "\n";
        }
        body := body + "\n" + chosen.text + "\n";
      } else {
        body := Title() + "\n\n" + chosen.text + "\n";
      }
      fragment := Readable(body);
      EnsureFragmentInclude(name, Found(r, Tree(Seen(main), body)));
    }
  }
}
