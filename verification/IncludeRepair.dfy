/** The Include line that makes OpenSSH read the import fragment for every host. */
module IncludeRepair {
  import opened Text
  import opened SshConfig
  import opened HostMerge
  import opened HostImport

  function Marker(): string { "# Added by sshPilot import" }

  function MatchAll(): string { "Match all" }

  predicate IsFragmentInclude(line: string, name: string) {
    Keyword(line) == "include" && Contains(Lower(line), name)
  }

  predicate IsMarker(line: string) { Strip(line) == Marker() }

  /** The lines that stay: fragment Includes go, and with each a marker comment just before it. */
  function Cleaned(lines: seq<string>, name: string): seq<string> {
    if lines == [] then []
    else
      var out, line := Cleaned(lines[..|lines| - 1], name), lines[|lines| - 1];
      if !IsFragmentInclude(line, name) then out + [line]
      else if out != [] && IsMarker(out[|out| - 1]) then out[..|out| - 1]
      else out
  }

  function Body(out: seq<string>): string {
    var b := Join("\n", out);
    if b != "" && !EndsWithNewline(b) then b + "\n" else b
  }

  function IncludeLine(rel: string): string { "    Include " + rel }

  function Guard(rel: string): string { Marker() + "\n" + MatchAll() + "\n" + IncludeLine(rel) + "\n" }

  function Normalize(text: string, name: string, rel: string): string {
    var b := Body(Cleaned(SplitLines(text), name));
    b + (if b != "" then "\n" else "") + Guard(rel)
  }

  predicate HasFragmentInclude(lines: seq<string>, name: string) {
    exists i :: 0 <= i < |lines| && IsFragmentInclude(lines[i], name)
  }

  /** Is the stanza's own condition something other than `Match all`? */
  predicate IsConditionalStanza(s: Stanza) {
    match s.kind
    case Global => false
    case Host => true
    case Match => s.block != [] && Lower(Strip(Drop5(Strip(s.block[0])))) != "all"
  }

  function Drop5(s: string): string { if |s| >= 5 then s[5..] else "" }

  /** The verdict is that of the first stanza with a fragment Include. */
  predicate ConditionalIn(ss: seq<Stanza>, name: string) {
    ss != []
    && if HasFragmentInclude(ss[0].block, name) then IsConditionalStanza(ss[0]) else ConditionalIn(ss[1..], name)
  }

  predicate IsConditional(text: string, name: string) {
    ConditionalIn(Stanzas(SplitLines(text)), name)
  }

  /** `resolved` says whether the Include resolver already reaches the fragment. */
  function EnsureInclude(text: string, resolved: bool, name: string): string {
    if resolved && !IsConditional(text, name) then text else Normalize(text, name, name)
  }

  /** A file name that an Include line can carry as it is. */
  predicate FragmentName(name: string) {
    && name != "" && NoBreaks(name) && Lower(name) == name
    && !IsSpace(name[0]) && !IsSpace(name[|name| - 1])
  }

  // ---------------------------------------------------------------- what the kept lines are

  lemma {:induction false} CleanedHasNone(lines: seq<string>, name: string)
    ensures !HasFragmentInclude(Cleaned(lines, name), name)
  {
    hide IsFragmentInclude, IsMarker;
    if lines != [] {
      CleanedHasNone(lines[..|lines| - 1], name);
    }
  }

  lemma {:induction false} CleanedSubset(lines: seq<string>, name: string)
    ensures forall l :: l in Cleaned(lines, name) ==> l in lines
  {
    hide IsFragmentInclude, IsMarker;
    if lines != [] {
      var n := |lines| - 1;
      var out := Cleaned(lines[..n], name);
      CleanedSubset(lines[..n], name);
      forall l | l in Cleaned(lines, name) ensures l in lines {
        assert l in out || l == lines[n];
        assert l in lines[..n] ==> l in lines;
      }
    }
  }

  lemma {:induction false} CleanedKeepsAll(lines: seq<string>, name: string)
    requires !HasFragmentInclude(lines, name)
    ensures Cleaned(lines, name) == lines
  {
    hide IsFragmentInclude, IsMarker;
    if lines != [] {
      var n := |lines| - 1;
      assert !IsFragmentInclude(lines[n], name);
      assert forall i :: 0 <= i < n ==> lines[..n][i] == lines[i];
      CleanedKeepsAll(lines[..n], name);
      assert lines == lines[..n] + [lines[n]];
    }
  }

  /** The Host or Match line that a line stands under. */
  function Enclosing(lines: seq<string>, i: nat): Option<string>
    requires i < |lines|
  {
    if IsHeader(lines[i]) then Some(lines[i]) else if i == 0 then None else Enclosing(lines, i - 1)
  }

  /** The header a line appended to `lines` would stand under. */
  function LastHeader(lines: seq<string>): Option<string> {
    if lines == [] then None else Enclosing(lines, |lines| - 1)
  }

  lemma {:induction false} EnclosingPrefix(a: seq<string>, b: seq<string>, i: nat)
    requires i < |a|
    ensures Enclosing(a + b, i) == Enclosing(a, i)
  {
    hide IsHeader;
    assert (a + b)[i] == a[i];
    if i > 0 { EnclosingPrefix(a, b, i - 1); }
  }

  lemma EnclosingSnoc(a: seq<string>, l: string)
    ensures Enclosing(a + [l], |a|) == if IsHeader(l) then Some(l) else LastHeader(a)
  {
    hide IsHeader;
    if a != [] { EnclosingPrefix(a, [l], |a| - 1); }
  }

  lemma MarkerIsNoHeader(line: string)
    requires IsMarker(line)
    ensures !IsHeader(line)
  {
    assert Marker()[0] == '#';
    hide Strip;
  }

  /** `out[i]` is line `idx[i]` of `lines`, in order and under the same header. */
  predicate Embeds(out: seq<string>, lines: seq<string>, idx: seq<nat>) {
    && |idx| == |out|
    && (forall i :: 0 <= i < |idx| ==>
          idx[i] < |lines| && out[i] == lines[idx[i]] && Enclosing(out, i) == Enclosing(lines, idx[i]))
    && (forall i, j :: 0 <= i < j < |idx| ==> idx[i] < idx[j])
  }

  /** Lines `k` to `m` are all left out, and the last of them is a fragment Include. */
  predicate GoneUntil(lines: seq<string>, idx: seq<nat>, name: string, k: nat, m: nat) {
    k < m < |lines| && IsFragmentInclude(lines[m], name) && forall x :: k <= x <= m ==> x !in idx
  }

  /** A line that goes is a fragment Include, or a marker that goes with the Include after it. */
  predicate Removable(lines: seq<string>, idx: seq<nat>, name: string, k: nat)
    requires k < |lines|
  {
    IsFragmentInclude(lines[k], name)
      || (IsMarker(lines[k]) && exists m | k < m < |lines| :: GoneUntil(lines, idx, name, k, m))
  }

  /** Every line that is left out may be. */
  predicate OnlyRemovable(lines: seq<string>, idx: seq<nat>, name: string) {
    forall k :: 0 <= k < |lines| && k !in idx ==> Removable(lines, idx, name, k)
  }

  lemma EmbedsSkip(out: seq<string>, lines: seq<string>, idx: seq<nat>, line: string)
    requires Embeds(out, lines, idx)
    ensures Embeds(out, lines + [line], idx)
  {
    hide Enclosing;
    forall i | 0 <= i < |idx| ensures Enclosing(out, i) == Enclosing(lines + [line], idx[i]) {
      EnclosingPrefix(lines, [line], idx[i]);
    }
  }

  lemma EmbedsKeep(out: seq<string>, lines: seq<string>, idx: seq<nat>, line: string)
    requires Embeds(out, lines, idx) && LastHeader(out) == LastHeader(lines)
    ensures Embeds(out + [line], lines + [line], idx + [|lines|])
  {
    hide Enclosing, LastHeader, IsHeader;
    EnclosingSnoc(lines, line);
    EnclosingSnoc(out, line);
    forall i | 0 <= i < |idx| ensures Enclosing(out + [line], i) == Enclosing(lines + [line], idx[i]) {
      EnclosingPrefix(out, [line], i);
      EnclosingPrefix(lines, [line], idx[i]);
    }
  }

  lemma EmbedsDrop(out: seq<string>, last: string, lines: seq<string>, idx: seq<nat>)
    requires Embeds(out + [last], lines, idx)
    ensures Embeds(out, lines, idx[..|out|])
  {
    hide Enclosing;
    forall i | 0 <= i < |out| ensures Enclosing(out, i) == Enclosing(lines, idx[i]) {
      EnclosingPrefix(out, [last], i);
    }
  }

  lemma RemovableStays(lines: seq<string>, idx: seq<nat>, idx': seq<nat>, line: string, name: string, k: nat)
    requires k < |lines| && Removable(lines, idx, name, k) && forall x :: x in idx' ==> x in idx || x == |lines|
    ensures Removable(lines + [line], idx', name, k)
  {
    hide IsFragmentInclude, IsMarker;
    var all := lines + [line];
    assert all[k] == lines[k];
    if !IsFragmentInclude(lines[k], name) {
      var m :| k < m < |lines| && GoneUntil(lines, idx, name, k, m);
      assert all[m] == lines[m];
      assert GoneUntil(all, idx', name, k, m);
    }
  }

  lemma OnlyRemovableSnoc(lines: seq<string>, idx: seq<nat>, idx': seq<nat>, line: string, name: string)
    requires OnlyRemovable(lines, idx, name)
    requires forall x :: x in idx' ==> x in idx || x == |lines|
    requires forall k :: k in idx && k !in idx' && k < |lines| ==> Removable(lines + [line], idx', name, k)
    requires |lines| in idx' || IsFragmentInclude(line, name)
    ensures OnlyRemovable(lines + [line], idx', name)
  {
    hide IsFragmentInclude, IsMarker;
    forall k | 0 <= k < |lines + [line]| && k !in idx' ensures Removable(lines + [line], idx', name, k) {
      if k < |lines| && k !in idx { RemovableStays(lines, idx, idx', line, name, k); }
    }
  }

  /**
   * Removing the Includes keeps every other line, apart from their marker comments: in order, unchanged,
   * and under the same Host or Match header as before.
   */
  lemma {:induction false} CleanedKeepsContext(lines: seq<string>, name: string) returns (idx: seq<nat>)
    ensures Embeds(Cleaned(lines, name), lines, idx) && OnlyRemovable(lines, idx, name)
    ensures LastHeader(Cleaned(lines, name)) == LastHeader(lines)
  {
    hide IsFragmentInclude, IsMarker, IsHeader, Enclosing, Embeds, OnlyRemovable;
    if lines == [] {
      idx := [];
      NothingEmbeds(name);
    } else {
      var n := |lines| - 1;
      var before := CleanedKeepsContext(lines[..n], name);
      var out, line := Cleaned(lines[..n], name), lines[n];
      assert lines == lines[..n] + [line];
      EnclosingSnoc(lines[..n], line);
      if !IsFragmentInclude(line, name) {
        idx := before + [n];
        EnclosingSnoc(out, line);
        EmbedsKeep(out, lines[..n], before, line);
        assert forall k :: k in before ==> k in idx;
        assert n in idx;
        OnlyRemovableSnoc(lines[..n], before, idx, line, name);
      } else {
        IncludeIsNoHeader(line, name);
        EmbedsSkip(out, lines[..n], before, line);
        if out != [] && IsMarker(out[|out| - 1]) {
          idx := DropMarker(out, lines[..n], before, line, name);
        } else {
          idx := before;
          OnlyRemovableSnoc(lines[..n], before, idx, line, name);
        }
      }
    }
  }

  lemma DropMarker(out: seq<string>, lines: seq<string>, before: seq<nat>, line: string, name: string)
    returns (idx: seq<nat>)
    requires out != [] && IsMarker(out[|out| - 1]) && IsFragmentInclude(line, name)
    requires Embeds(out, lines, before) && Embeds(out, lines + [line], before) && OnlyRemovable(lines, before, name)
    ensures Embeds(out[..|out| - 1], lines + [line], idx) && OnlyRemovable(lines + [line], idx, name)
    ensures LastHeader(out[..|out| - 1]) == LastHeader(out)
  {
    hide IsFragmentInclude, IsMarker, IsHeader, Enclosing, OnlyRemovable;
    var m := |out| - 1;
    assert out == out[..m] + [out[m]];
    MarkerIsNoHeader(out[m]);
    EnclosingSnoc(out[..m], out[m]);
    EmbedsDrop(out[..m], out[m], lines + [line], before);
    idx := before[..m];
    MarkerGoes(out, lines, before, line, name);
  }

  /** The last kept line, a marker, goes with the Include that follows it. */
  lemma MarkerGoes(out: seq<string>, lines: seq<string>, before: seq<nat>, line: string, name: string)
    requires out != [] && IsMarker(out[|out| - 1]) && IsFragmentInclude(line, name)
    requires Embeds(out, lines, before) && OnlyRemovable(lines, before, name)
    ensures OnlyRemovable(lines + [line], before[..|out| - 1], name)
  {
    hide IsFragmentInclude, IsMarker, OnlyRemovable, Enclosing;
    var m, all := |out| - 1, lines + [line];
    var idx, k := before[..m], before[m];
    assert all[k] == out[m] && all[|lines|] == line;
    assert forall i :: 0 <= i < m ==> idx[i] == before[i] < k;
    assert GoneUntil(all, idx, name, k, |lines|);
    forall i | 0 <= i < m ensures before[i] in idx { assert idx[i] == before[i]; }
    assert forall x :: x in before && x !in idx ==> x == k;
    OnlyRemovableSnoc(lines, before, idx, line, name);
  }

  lemma NothingEmbeds(name: string)
    ensures Embeds([], [], []) && OnlyRemovable([], [], name)
  {
  }

  lemma IncludeIsNoHeader(line: string, name: string)
    requires IsFragmentInclude(line, name)
    ensures !IsHeader(line)
  {
    hide Keyword, Contains;
    assert "include"[0] == 'i' && "host"[0] == 'h' && "match"[0] == 'm';
  }

  // ---------------------------------------------------------------- the normalized text, line by line

  /** The kept lines as they come out: set off by a blank line, and a lone blank line disappears. */
  function Padded(out: seq<string>): seq<string> {
    if out == [""] then []
    else if out != [] && out[|out| - 1] != "" then out + [""]
    else out
  }

  function Tail(rel: string): seq<string> { [Marker(), MatchAll(), IncludeLine(rel)] }

  lemma {:induction false} UnlinesAppend(a: seq<string>, b: seq<string>)
    ensures Unlines(a + b) == Unlines(a) + Unlines(b)
  {
    if a == [] {
      assert a + b == b;
    } else {
      UnlinesAppend(a[1..], b);
      assert (a + b)[0] == a[0] && (a + b)[1..] == a[1..] + b;
      assert a[0] + "\n" + (Unlines(a[1..]) + Unlines(b)) == a[0] + "\n" + Unlines(a[1..]) + Unlines(b);
    }
  }

  lemma TailText(a: string, b: string, c: string)
    ensures Unlines([a, b, c]) == a + "\n" + b + "\n" + c + "\n"
  {
    assert [a, b, c][1..] == [b, c] && [b, c][1..] == [c] && [c][1..] == [];
    assert Unlines([c]) == c + "\n" + "" == c + "\n";
    assert Unlines([b, c]) == b + "\n" + (c + "\n");
    assert a + "\n" + (b + "\n" + (c + "\n")) == a + "\n" + b + "\n" + c + "\n";
  }

  lemma {:induction false} JoinEndsIn(lines: seq<string>)
    requires lines != [] && forall l :: l in lines ==> NoBreaks(l)
    ensures var j := Join("\n", lines);
            && (j == "" <==> lines == [""])
            && (j != "" ==> (EndsWithNewline(j) <==> lines[|lines| - 1] == ""))
  {
    hide IsLineBreak;
    assert NoBreaks(lines[0]);
    var j := Join("\n", lines);
    if |lines| == 1 {
      assert lines == [lines[0]];
      if j != "" { LastIsNoNewline(j); }
    } else {
      var rest := Join("\n", lines[1..]);
      JoinEndsIn(lines[1..]);
      assert j == lines[0] + "\n" + rest;
      if rest == "" { assert j[|j| - 1] == '\n'; } else { assert j[|j| - 1] == rest[|rest| - 1]; }
    }
  }

  lemma LastIsNoNewline(s: string)
    requires NoBreaks(s) && s != ""
    ensures !EndsWithNewline(s)
  {
    assert !IsLineBreak(s[|s| - 1]);
  }

  lemma BodyIsUnlines(out: seq<string>)
    requires forall l :: l in out ==> NoBreaks(l)
    ensures var b := Body(out); b + (if b != "" then "\n" else "") == Unlines(Padded(out))
  {
    hide NoBreaks, EndsWithNewline;
    if out != [] {
      JoinEndsIn(out);
      JoinIsUnlines(out);
      if out[|out| - 1] != "" {
        UnlinesAppend(out, [""]);
        assert Unlines([""]) == "" + "\n" + Unlines([]) == "\n";
      }
    }
  }

  lemma NormalizeText(text: string, name: string, rel: string)
    ensures Normalize(text, name, rel) == Unlines(Padded(Cleaned(SplitLines(text), name)) + Tail(rel))
  {
    TailText(Marker(), MatchAll(), IncludeLine(rel));
    hide Marker, MatchAll, IncludeLine;
    assert Guard(rel) == Unlines(Tail(rel));
    hide NoBreaks, SplitLines, Cleaned, Body, Padded, Guard, Tail, Unlines;
    var out := Cleaned(SplitLines(text), name);
    SplitLinesNoBreaks(text);
    CleanedSubset(SplitLines(text), name);
    BodyIsUnlines(out);
    UnlinesAppend(Padded(out), Tail(rel));
  }

  /** The normalized file: the kept lines, a blank line, and the guarded Include. */
  lemma NormalizeLines(text: string, name: string, rel: string)
    requires NoBreaks(rel)
    ensures SplitLines(Normalize(text, name, rel)) == Padded(Cleaned(SplitLines(text), name)) + Tail(rel)
  {
    TailClean(rel);
    hide NoBreaks, SplitLines, Cleaned, Tail;
    NormalizeText(text, name, rel);
    SplitLinesNoBreaks(text);
    CleanedSubset(SplitLines(text), name);
    assert NoBreaks("") by { EmptyClean(); }
    SplitUnlines(Padded(Cleaned(SplitLines(text), name)) + Tail(rel));
  }

  lemma EmptyClean()
    ensures NoBreaks("")
  {
  }

  lemma TailClean(rel: string)
    requires NoBreaks(rel)
    ensures forall l :: l in Tail(rel) ==> NoBreaks(l)
  {
    assert NoBreaks("    Include ");
    NoBreaksAppend("    Include ", rel);
    MarkerClean();
    assert NoBreaks(MatchAll());
  }

  lemma MarkerClean()
    ensures NoBreaks(Marker())
  {
  }

  // ---------------------------------------------------------------- one unconditional Include

  lemma IncludeKeyword(j: string)
    ensures WordLength("Include " + j) == 7 && Lower(("Include " + j)[..7]) == "include"
  {
    var s := "Include " + j;
    assert !IsSpace('I') && !IsSpace('n') && !IsSpace('c') && !IsSpace('l') && !IsSpace('u') && !IsSpace('d')
      && !IsSpace('e');
    assert IsSpace(' ');
    hide IsSpace;
    assert s[0] == 'I' && s[1] == 'n' && s[2] == 'c' && s[3] == 'l' && s[4] == 'u' && s[5] == 'd' && s[6] == 'e'
      && s[7] == ' ';
    assert WordLength(s) == 7;
    assert Lower(s[..7]) == ['i', 'n', 'c', 'l', 'u', 'd', 'e'];
  }

  lemma NewLineKeyword(name: string)
    requires name != "" && !IsSpace(name[|name| - 1])
    ensures Keyword(IncludeLine(name)) == "include"
  {
    var body := "Include " + name;
    assert !IsSpace('I') && IsSpace(' ');
    hide IsSpace, Lower, WordLength, Strip;
    assert IncludeLine(name) == "    " + body;
    assert body[|body| - 1] == name[|name| - 1];
    StripIndented("    ", body);
    IncludeKeyword(name);
  }

  lemma {:induction false} LowerContains(a: string, name: string)
    requires Lower(name) == name
    ensures Contains(Lower(a + name), name)
  {
    hide Lower;
    var lowered := Lower(a + name);
    forall i | 0 <= i < |name| ensures lowered[|a| + i] == name[i] {
      assert (a + name)[|a| + i] == name[i] && Lower(name)[i] == LowerChar(name[i]);
    }
    assert lowered[|a|..|a| + |name|] == name;
    assert At(lowered, |a|, name);
  }

  lemma NewLineIsInclude(name: string)
    requires FragmentName(name)
    ensures IsFragmentInclude(IncludeLine(name), name)
  {
    hide IsSpace, NoBreaks, Lower, Keyword, Contains;
    NewLineKeyword(name);
    LowerContains("    Include ", name);
  }

  lemma MatchAllStripped()
    ensures Strip("Match all") == "Match all" && Strip(" all") == "all"
  {
    assert !IsSpace('M') && !IsSpace('l') && !IsSpace('a') && IsSpace(' ');
    hide IsSpace, Strip;
    StripIndented("", "Match all");
    assert "" + "Match all" == "Match all" && " " + "all" == " all";
    StripIndented(" ", "all");
  }

  lemma {:induction false} MatchAllWord()
    ensures WordLength("Match all") == 5
  {
    var s := "Match all";
    assert !IsSpace('M') && !IsSpace('a') && !IsSpace('t') && !IsSpace('c') && !IsSpace('h') && IsSpace(' ');
    hide IsSpace;
    var n := WordLength(s);
    hide WordLength;
    assert s[0] == 'M' && s[1] == 'a' && s[2] == 't' && s[3] == 'c' && s[4] == 'h' && s[5] == ' ';
    assert n <= 5;
    assert n >= 5;
  }

  lemma {:induction false} MatchAllLower()
    ensures Lower("Match all"[..5]) == "match" && Lower("all") == "all"
  {
    hide Lower;
    assert "Match all"[..5] == ['M', 'a', 't', 'c', 'h'];
    assert Lower(['M', 'a', 't', 'c', 'h']) == ['m', 'a', 't', 'c', 'h'];
    assert Lower(['a', 'l', 'l']) == ['a', 'l', 'l'];
  }

  lemma MatchAllLine()
    ensures Keyword(MatchAll()) == "match" && !IsConditionalStanza(Opened(MatchAll()))
    ensures KindOf(MatchAll()) == Match && IsHeader(MatchAll())
  {
    hide Strip, WordLength, Lower;
    MatchAllStripped();
    MatchAllWord();
    MatchAllLower();
    assert "match"[0] == 'm' && "host"[0] == 'h';
    assert "Match all"[5..] == " all";
  }

  lemma MarkerLine()
    ensures Keyword(Marker()) == "" && Keyword("") == ""
  {
    assert !IsSpace('#') && !IsSpace('t');
    hide IsSpace;
    assert Marker()[0] == '#' && Marker()[|Marker()| - 1] == 't';
    StripIndented("", Marker());
    assert "" + Marker() == Marker();
    assert Strip("") == "";
  }

  lemma {:induction false} StanzasBeforeHeader(cur: Stanza, a: seq<string>, h: string, b: seq<string>)
    requires IsHeader(h) && forall i :: 0 <= i < |b| ==> !IsHeader(b[i])
    ensures StanzasFrom(cur, a + [h] + b) == StanzasFrom(cur, a) + [Opened(h).(block := [h] + b)]
    decreases |a|
  {
    hide IsHeader, Opened;
    var all := a + [h] + b;
    if a == [] {
      assert all[0] == h && all[1..] == b;
      OpenedBlock(h);
      StanzaGrows(Opened(h), b);
    } else {
      assert all[0] == a[0] && all[1..] == a[1..] + [h] + b;
      if IsHeader(a[0]) {
        StanzasBeforeHeader(Opened(a[0]), a[1..], h, b);
      } else {
        StanzasBeforeHeader(cur.(block := cur.block + [a[0]]), a[1..], h, b);
      }
    }
  }

  lemma OpenedBlock(h: string)
    ensures Opened(h).block == [h]
  {
  }

  lemma {:induction false} StanzaGrows(cur: Stanza, b: seq<string>)
    requires cur.block != [] && forall i :: 0 <= i < |b| ==> !IsHeader(b[i])
    ensures StanzasFrom(cur, b) == [cur.(block := cur.block + b)]
    decreases |b|
  {
    hide IsHeader;
    if b != [] {
      StanzaGrows(cur.(block := cur.block + [b[0]]), b[1..]);
      assert cur.block + [b[0]] + b[1..] == cur.block + b;
    } else {
      assert cur.block + b == cur.block;
    }
  }

  lemma {:induction false} FirstIncludeIsLast(ss: seq<Stanza>, last: Stanza, name: string)
    requires !HasFragmentInclude(Flatten(ss), name) && HasFragmentInclude(last.block, name)
    ensures ConditionalIn(ss + [last], name) == IsConditionalStanza(last)
  {
    hide IsFragmentInclude, IsConditionalStanza;
    if ss == [] {
      assert ss + [last] == [last];
    } else {
      var block, rest := ss[0].block, Flatten(ss[1..]);
      assert !HasFragmentInclude(block, name) && !HasFragmentInclude(rest, name) by {
        assert forall i :: 0 <= i < |block| ==> (block + rest)[i] == block[i];
        assert forall i :: 0 <= i < |rest| ==> (block + rest)[|block| + i] == rest[i];
      }
      FirstIncludeIsLast(ss[1..], last, name);
      assert (ss + [last])[1..] == ss[1..] + [last];
    }
  }

  /** The number of fragment Includes. */
  function IncludeCount(lines: seq<string>, name: string): nat {
    if lines == [] then 0 else (if IsFragmentInclude(lines[0], name) then 1 else 0) + IncludeCount(lines[1..], name)
  }

  lemma {:induction false} CountWithLast(lines: seq<string>, last: string, name: string)
    requires !HasFragmentInclude(lines, name) && IsFragmentInclude(last, name)
    ensures IncludeCount(lines + [last], name) == 1
  {
    hide IsFragmentInclude;
    if lines == [] {
      assert lines + [last] == [last];
    } else {
      assert forall i :: 0 <= i < |lines[1..]| ==> lines[1..][i] == lines[i + 1];
      CountWithLast(lines[1..], last, name);
      assert (lines + [last])[1..] == lines[1..] + [last];
    }
  }

  lemma NoIncludeBefore(lines: seq<string>, name: string)
    ensures !HasFragmentInclude(Padded(Cleaned(lines, name)) + [Marker()], name)
  {
    MarkerLine();
    hide Keyword;
    assert !IsFragmentInclude(Marker(), name) && !IsFragmentInclude("", name);
    hide IsFragmentInclude, Cleaned, Marker;
    CleanedHasNone(lines, name);
  }

  lemma NoneAppend(a: seq<string>, b: seq<string>, name: string)
    requires !HasFragmentInclude(a, name) && !HasFragmentInclude(b, name)
    ensures !HasFragmentInclude(a + b, name)
  {
    hide IsFragmentInclude;
  }

  lemma SingleIncludes(line: string, other: string, name: string)
    ensures HasFragmentInclude([line], name) <==> IsFragmentInclude(line, name)
    ensures IsFragmentInclude(other, name) ==> HasFragmentInclude([line] + [other], name)
  {
    hide IsFragmentInclude;
    assert [line][0] == line && ([line] + [other])[1] == other;
  }

  /** Lines without a fragment Include, then an unconditional header and the Include. */
  lemma GuardedInclude(p: seq<string>, h: string, inc: string, name: string)
    requires !HasFragmentInclude(p, name) && !IsFragmentInclude(h, name) && IsFragmentInclude(inc, name)
    requires IsHeader(h) && !IsConditionalStanza(Opened(h))
    ensures IncludeCount(p + [h] + [inc], name) == 1
    ensures !ConditionalIn(Stanzas(p + [h] + [inc]), name)
  {
    hide IsFragmentInclude, IsConditionalStanza, IsHeader, KindOf, Opened, ConditionalIn, StanzasFrom, IncludeCount,
      HasFragmentInclude;
    IncludeIsNoHeader(inc, name);
    OpenedBlock(h);
    SingleIncludes(h, inc, name);
    NoneAppend(p, [h], name);
    CountWithLast(p + [h], inc, name);
    StanzasBeforeHeader(Stanza(Global, [], []), p, h, [inc]);
    StanzasPartition(p);
    var last := Opened(h).(block := [h] + [inc]);
    FirstIncludeIsLast(Stanzas(p), last, name);
    SameCondition(Opened(h), last);
  }

  lemma TailParts(kept: seq<string>, rel: string)
    ensures kept + Tail(rel) == kept + [Marker()] + [MatchAll()] + [IncludeLine(rel)]
  {
    hide Marker, MatchAll, IncludeLine;
  }

  lemma NormalizedLinesUnconditional(lines: seq<string>, name: string)
    requires FragmentName(name)
    ensures var out := Padded(Cleaned(lines, name)) + Tail(name);
            IncludeCount(out, name) == 1 && !ConditionalIn(Stanzas(out), name)
  {
    hide *;
    NewLineIsInclude(name);
    NoIncludeBefore(lines, name);
    MatchAllLine();
    MatchAllIsNoInclude(name);
    GuardedInclude(Padded(Cleaned(lines, name)) + [Marker()], MatchAll(), IncludeLine(name), name);
    TailParts(Padded(Cleaned(lines, name)), name);
  }

  /**
   * Whatever the main file looked like, its normalized form has exactly one fragment Include, and
   * OpenSSH reads it unconditionally.
   */
  lemma NormalizedIsUnconditional(text: string, name: string)
    requires FragmentName(name)
    ensures IncludeCount(SplitLines(Normalize(text, name, name)), name) == 1
    ensures !IsConditional(Normalize(text, name, name), name)
  {
    hide NoBreaks, SplitLines, Cleaned, Normalize, Padded, FragmentName, IncludeCount, ConditionalIn, Stanzas, Tail;
    FragmentNameClean(name);
    NormalizeLines(text, name, name);
    NormalizedLinesUnconditional(SplitLines(text), name);
  }

  lemma FragmentNameClean(name: string)
    requires FragmentName(name)
    ensures NoBreaks(name)
  {
  }

  lemma MatchAllIsNoInclude(name: string)
    ensures !IsFragmentInclude(MatchAll(), name)
  {
    MatchAllLine();
    hide Keyword, Contains;
    assert "include"[0] == 'i' && "match"[0] == 'm';
  }

  lemma SameCondition(s: Stanza, t: Stanza)
    requires s.kind == t.kind && s.block != [] && t.block != [] && s.block[0] == t.block[0]
    ensures IsConditionalStanza(s) == IsConditionalStanza(t)
  {
    hide Strip, Lower;
  }

  /**
   * The repaired file, seen from the original: each line but the Includes and their markers is
   * where `idx` says it came from, unchanged, in order, under the same Host or Match header. The
   * one other line that can go is a blank line that would have been all that was left.
   */
  lemma RepairKeepsContext(text: string, name: string) returns (idx: seq<nat>)
    requires FragmentName(name)
    ensures if Cleaned(SplitLines(text), name) != [""] then OnlyRemovable(SplitLines(text), idx, name)
            else SplitLines(Normalize(text, name, name)) == Tail(name)
    ensures forall i, j :: 0 <= i < j < |idx| ==> idx[i] < idx[j]
    ensures var before, after := SplitLines(text), SplitLines(Normalize(text, name, name));
            && |idx| < |after|
            && forall i :: 0 <= i < |idx| ==>
                 idx[i] < |before| && after[i] == before[idx[i]] && Enclosing(after, i) == Enclosing(before, idx[i])
  {
    FragmentNameClean(name);
    hide NoBreaks, SplitLines, Normalize, FragmentName, Cleaned, Enclosing, Tail, OnlyRemovable, Padded, Embeds;
    var lines := SplitLines(text);
    var out := Cleaned(lines, name);
    NormalizeLines(text, name, name);
    if out == [""] {
      LoneBlank(name);
      idx := [];
    } else {
      idx := CleanedKeepsContext(lines, name);
      var extra := PaddedTail(out, name);
      EmbedsPrefix(out, extra, lines, idx);
    }
  }

  lemma LoneBlank(rel: string)
    ensures Padded([""]) + Tail(rel) == Tail(rel) && Tail(rel) != []
  {
    hide Marker, MatchAll, IncludeLine;
  }

  lemma PaddedTail(out: seq<string>, rel: string) returns (extra: seq<string>)
    requires out != [""]
    ensures Padded(out) + Tail(rel) == out + extra && extra != []
  {
    hide Marker, MatchAll, IncludeLine;
    extra := (if out != [] && out[|out| - 1] != "" then [""] else []) + Tail(rel);
  }

  lemma EmbedsPrefix(out: seq<string>, extra: seq<string>, lines: seq<string>, idx: seq<nat>)
    requires Embeds(out, lines, idx)
    ensures |idx| == |out| && forall i, j :: 0 <= i < j < |idx| ==> idx[i] < idx[j]
    ensures forall i :: 0 <= i < |idx| ==>
              idx[i] < |lines| && (out + extra)[i] == lines[idx[i]]
                && Enclosing(out + extra, i) == Enclosing(lines, idx[i])
  {
    hide Enclosing;
    forall i | 0 <= i < |idx| ensures Enclosing(out + extra, i) == Enclosing(lines, idx[i]) {
      EnclosingPrefix(out, extra, i);
    }
  }

  /** Once the resolver sees the fragment, ensuring the Include again changes nothing. */
  lemma EnsureIncludeIdempotent(text: string, resolved: bool, name: string)
    requires FragmentName(name)
    ensures EnsureInclude(EnsureInclude(text, resolved, name), true, name) == EnsureInclude(text, resolved, name)
  {
    hide IsConditional, Normalize, FragmentName;
    NormalizedIsUnconditional(text, name);
  }

  /** Without that guard the repair never settles: normalizing again always adds lines. */
  lemma NormalizeNeverSettles(text: string, name: string)
    requires FragmentName(name)
    ensures |SplitLines(Normalize(Normalize(text, name, name), name, name))| > |SplitLines(Normalize(text, name, name))|
  {
    hide NoBreaks, SplitLines, Normalize, FragmentName, Marker, MatchAll, IncludeLine, IsFragmentInclude, IsMarker;
    FragmentNameClean(name);
    NewLineIsInclude(name);
    MatchAllIsNoInclude(name);
    MatchAllIsNoMarker();
    var p := Padded(Cleaned(SplitLines(text), name)) + [Marker()];
    var inc := IncludeLine(name);
    NormalizeLines(text, name, name);
    NormalizeLines(Normalize(text, name, name), name, name);
    NoIncludeBefore(SplitLines(text), name);
    TailParts(Padded(Cleaned(SplitLines(text), name)), name);
    SingleIncludes(MatchAll(), inc, name);
    NoneAppend(p, [MatchAll()], name);
    CleanedKeepsAll(p + [MatchAll()], name);
    CleanedDropsLast(p + [MatchAll()], inc, name);
  }

  lemma MatchAllIsNoMarker()
    ensures !IsMarker(MatchAll()) && MatchAll() != ""
  {
    MatchAllStripped();
    hide Strip;
    assert Marker()[0] == '#' && MatchAll()[0] == 'M';
  }

  lemma CleanedDropsLast(lines: seq<string>, inc: string, name: string)
    requires lines != [] && Cleaned(lines, name) == lines && !IsMarker(lines[|lines| - 1])
      && IsFragmentInclude(inc, name)
    ensures Cleaned(lines + [inc], name) == lines
  {
    hide IsMarker, IsFragmentInclude;
    assert (lines + [inc])[..|lines|] == lines;
  }

  lemma SnocNames(a: seq<string>, l: string)
    ensures HostNames(a + [l]) == HostNames(a) + LineNames(l)
  {
    hide LineNames;
    HostNamesAppend(a, [l]);
    assert [l][1..] == [];
  }

  lemma NoHeaderLine(line: string)
    requires !IsHeader(line)
    ensures LineNames(line) == {}
  {
    hide Keyword;
  }

  lemma {:induction false} CleanedNames(lines: seq<string>, name: string)
    ensures HostNames(Cleaned(lines, name)) == HostNames(lines)
  {
    hide IsFragmentInclude, IsMarker, LineNames, HostNames, IsHeader;
    if lines != [] {
      var n := |lines| - 1;
      var out, line := Cleaned(lines[..n], name), lines[n];
      CleanedNames(lines[..n], name);
      assert lines == lines[..n] + [line];
      SnocNames(lines[..n], line);
      if !IsFragmentInclude(line, name) {
        SnocNames(out, line);
      } else {
        IncludeIsNoHeader(line, name);
        NoHeaderLine(line);
        if out != [] && IsMarker(out[|out| - 1]) {
          var m := |out| - 1;
          assert out == out[..m] + [out[m]];
          SnocNames(out[..m], out[m]);
          MarkerIsNoHeader(out[m]);
          NoHeaderLine(out[m]);
        }
      }
    }
  }

  lemma BlankAndMarkerNames()
    ensures LineNames("") == {} && LineNames(Marker()) == {}
  {
    MarkerLine();
    hide Keyword, Marker;
    assert "host"[0] == 'h';
  }

  lemma MatchAllNames()
    ensures LineNames(MatchAll()) == {}
  {
    MatchAllLine();
    hide Keyword, MatchAll;
    assert "host"[0] == 'h' && "match"[0] == 'm';
  }

  lemma PaddedNames(out: seq<string>)
    ensures HostNames(Padded(out)) == HostNames(out)
  {
    BlankAndMarkerNames();
    hide LineNames, HostNames;
    SnocNames(out, "");
    SnocNames([], "");
    assert [] + [""] == [""];
    assert HostNames([]) == {} by { NoLinesNoNames(); }
  }

  lemma NoLinesNoNames()
    ensures HostNames([]) == {}
  {
  }

  /** The repair declares no host and loses none. */
  lemma NormalizeKeepsNames(text: string, name: string)
    requires FragmentName(name)
    ensures TextNames(Normalize(text, name, name)) == TextNames(text)
  {
    hide NoBreaks, SplitLines, Normalize, FragmentName, Marker, MatchAll, IncludeLine, IsFragmentInclude, LineNames,
      HostNames, Cleaned, Padded, IsHeader, Tail;
    FragmentNameClean(name);
    NewLineIsInclude(name);
    IncludeIsNoHeader(IncludeLine(name), name);
    NoHeaderLine(IncludeLine(name));
    BlankAndMarkerNames();
    MatchAllNames();
    var out := Cleaned(SplitLines(text), name);
    NormalizeLines(text, name, name);
    CleanedNames(SplitLines(text), name);
    PaddedNames(out);
    TailParts(Padded(out), name);
    SnocNames(Padded(out), Marker());
    SnocNames(Padded(out) + [Marker()], MatchAll());
    SnocNames(Padded(out) + [Marker()] + [MatchAll()], IncludeLine(name));
  }

  // ---------------------------------------------------------------- the loops as they run

  method FragmentIncludeIsConditional(text: string, name: string) returns (conditional: bool)
    ensures conditional == IsConditional(text, name)
  {
    hide Stanzas, SplitLines, HasFragmentInclude, IsConditionalStanza;
    var ss := IterConfigStanzas(text);
    assert ss[0..] == ss;
    for i := 0 to |ss|
      invariant IsConditional(text, name) == ConditionalIn(ss[i..], name)
    {
      assert ss[i..][1..] == ss[i + 1..];
      if HasFragmentInclude(ss[i].block, name) {
        return IsConditionalStanza(ss[i]);
      }
    }
    conditional := false;
  }

  method NormalizeFragmentInclude(text: string, name: string, rel: string) returns (r: string)
    ensures r == Normalize(text, name, rel)
  {
    hide SplitLines, IsFragmentInclude, IsMarker, Guard, Join;
    var lines := SplitLines(text);
    var out: seq<string> := [];
    assert lines[..0] == [];
    for i := 0 to |lines|
      invariant out == Cleaned(lines[..i], name)
    {
      assert lines[..i + 1][..i] == lines[..i];
      if IsFragmentInclude(lines[i], name) {
        if out != [] && IsMarker(out[|out| - 1]) {
          out := out[..|out| - 1];
        }
        continue;
      }
      out := out + [lines[i]];
    }
    assert lines[..|lines|] == lines;
    var body := Join("\n", out);
    if body != "" && !EndsWithNewline(body) {
      body := body + "\n";
    }
    r := body + (if body != "" then "\n" else "") + Guard(rel);
  }
}
