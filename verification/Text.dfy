/** The parts of Python's `str` that the modelled code relies on. */
module Text {

  datatype Option<+T> = None | Some(value: T)

  /** `str.isspace` for one character. */
  predicate IsSpace(c: char) {
    || c == ' '
    || '\t' <= c <= '\r'
    || '\U{1C}' <= c <= '\U{1F}'
    || c == '\U{85}' || c == '\U{A0}' || c == '\U{1680}'
    || '\U{2000}' <= c <= '\U{200A}'
    || c == '\U{2028}' || c == '\U{2029}' || c == '\U{202F}' || c == '\U{205F}' || c == '\U{3000}'
  }

  /** The characters at which `str.splitlines` cuts. */
  predicate IsLineBreak(c: char) {
    || '\n' <= c <= '\r'
    || '\U{1C}' <= c <= '\U{1E}'
    || c == '\U{85}' || c == '\U{2028}' || c == '\U{2029}'
  }

  lemma SpaceIsSpace()
    ensures IsSpace(' ')
  {
  }

  predicate IsDigit(c: char) { '0' <= c <= '9' }

  /** `str.lstrip` */
  function LStrip(s: string): (r: string)
    ensures |r| <= |s| && r == s[|s| - |r|..]
    ensures r != "" ==> !IsSpace(r[0])
    ensures forall i :: 0 <= i < |s| - |r| ==> IsSpace(s[i])
  {
    if s != "" && IsSpace(s[0]) then LStrip(s[1..]) else s
  }

  /** `str.rstrip` */
  function RStrip(s: string): (r: string)
    ensures |r| <= |s| && r == s[..|r|]
    ensures r != "" ==> !IsSpace(r[|r| - 1])
    ensures forall i :: |r| <= i < |s| ==> IsSpace(s[i])
  {
    if s != "" && IsSpace(s[|s| - 1]) then RStrip(s[..|s| - 1]) else s
  }

  /** `str.strip` */
  function Strip(s: string): (r: string)
    ensures r != "" ==> !IsSpace(r[0]) && !IsSpace(r[|r| - 1])
  {
    var l := LStrip(s);
    var r := RStrip(l);
    assert r != "" ==> r[0] == l[0];
    r
  }

  lemma {:induction false} LStripAt(s: string, n: nat)
    requires n < |s| && !IsSpace(s[n]) && forall i :: 0 <= i < n ==> IsSpace(s[i])
    ensures LStrip(s) == s[n..]
    decreases n
  {
    hide IsSpace;
    if n > 0 { LStripAt(s[1..], n - 1); }
  }

  lemma {:induction false} RStripAt(s: string, n: nat)
    requires 0 < n <= |s| && !IsSpace(s[n - 1]) && forall i :: n <= i < |s| ==> IsSpace(s[i])
    ensures RStrip(s) == s[..n]
  {
    hide IsSpace;
    assert |RStrip(s)| >= n;
    assert |RStrip(s)| <= n;
  }

  /** Stripping cuts off exactly the whitespace at both ends. */
  lemma {:induction false} StripAt(s: string, a: nat, b: nat)
    requires a < b <= |s| && !IsSpace(s[a]) && !IsSpace(s[b - 1])
    requires forall i :: 0 <= i < a || b <= i < |s| ==> IsSpace(s[i])
    ensures Strip(s) == s[a..b]
  {
    hide IsSpace, LStrip, RStrip;
    LStripAt(s, a);
    var l := s[a..];
    assert Strip(s) == RStrip(l);
    hide Strip;
    forall i | b - a <= i < |l| ensures IsSpace(l[i]) { assert l[i] == s[a + i]; }
    assert l[b - a - 1] == s[b - 1];
    RStripAt(l, b - a);
    assert l[..b - a] == s[a..b];
  }

  lemma {:induction false} StripIndented(indent: string, t: string)
    requires t != "" && !IsSpace(t[0]) && !IsSpace(t[|t| - 1]) && forall i :: 0 <= i < |indent| ==> IsSpace(indent[i])
    ensures Strip(indent + t) == t
  {
    hide IsSpace, Strip;
    var s, n := indent + t, |indent|;
    assert s[n] == t[0] && s[|s| - 1] == t[|t| - 1];
    forall i | 0 <= i < n || |s| <= i < |s| ensures IsSpace(s[i]) { assert s[i] == indent[i]; }
    StripAt(s, n, |s|);
    assert s[n..|s|] == t;
  }

  lemma NoBreaksAppend(a: string, b: string)
    requires NoBreaks(a) && NoBreaks(b)
    ensures NoBreaks(a + b)
  {
    hide IsLineBreak;
  }

  /** Where a text that is not blank starts and ends once stripped. */
  lemma {:induction false} StripBounds(s: string) returns (a: nat, b: nat)
    requires Strip(s) != ""
    ensures a < b <= |s| && !IsSpace(s[a]) && !IsSpace(s[b - 1]) && Strip(s) == s[a..b]
    ensures forall i :: 0 <= i < a || b <= i < |s| ==> IsSpace(s[i])
  {
    hide IsSpace, LStrip, RStrip;
    var l := LStrip(s);
    var r := RStrip(l);
    assert Strip(s) == r;
    hide Strip;
    a, b := |s| - |l|, |s| - |l| + |r|;
    forall i | b <= i < |s| ensures IsSpace(s[i]) { assert s[i] == l[i - a]; }
    assert s[b - 1] == l[|r| - 1] == r[|r| - 1];
    assert s[a..b] == l[..|r|];
  }

  predicate Blank(s: string) { forall i :: 0 <= i < |s| ==> IsSpace(s[i]) }

  /** `s` has a character that stripping keeps. */
  predicate HasInk(s: string) { exists i :: 0 <= i < |s| && !IsSpace(s[i]) }

  lemma {:induction false} InkNotBlank(s: string)
    requires HasInk(s)
    ensures Strip(s) != ""
  {
    hide IsSpace, LStrip, RStrip;
    var i :| 0 <= i < |s| && !IsSpace(s[i]);
    var l := LStrip(s);
    assert l[i - (|s| - |l|)] == s[i];
  }

  lemma NotBlankHasInk(s: string)
    requires Strip(s) != ""
    ensures HasInk(s)
  {
    hide IsSpace;
    var a, b := StripBounds(s);
  }

  /** `str.find` for one character, with the length standing for "not found". */
  function IndexOf(s: string, c: char): (i: nat)
    ensures i <= |s|
    ensures i < |s| ==> s[i] == c
    ensures forall j :: 0 <= j < i ==> s[j] != c
  {
    if s == "" || s[0] == c then 0 else 1 + IndexOf(s[1..], c)
  }

  /** The first occurrence is where it is, however it was found. */
  lemma IndexOfIs(s: string, c: char, i: nat)
    requires i <= |s| && (i < |s| ==> s[i] == c)
    requires forall j :: 0 <= j < i ==> s[j] != c
    ensures IndexOf(s, c) == i
  {
  }

  /** `p` occurs in `s` at position `j`. */
  predicate At(s: string, j: nat, p: string) {
    j + |p| <= |s| && s[j..j + |p|] == p
  }

  /** `p in s` for strings. */
  predicate Contains(s: string, p: string) {
    exists i | 0 <= i <= |s| :: At(s, i, p)
  }

  lemma AtAppend(s: string, j: nat, a: string, b: string)
    requires At(s, j, a + b)
    ensures At(s, j, a) && At(s, j + |a|, b)
  {
    var ab := a + b;
    assert s[j..j + |a|] == s[j..j + |ab|][..|a|] == ab[..|a|] == a;
    assert s[j + |a|..j + |ab|] == s[j..j + |ab|][|a|..] == ab[|a|..] == b;
  }

  lemma AtChar(s: string, j: nat, p: string, i: nat)
    requires At(s, j, p) && i < |p|
    ensures s[j + i] == p[i]
  {
    assert s[j..j + |p|][i] == p[i];
  }

  /** `sep.join(parts)` */
  function Join(sep: string, parts: seq<string>): string {
    if parts == [] then ""
    else if |parts| == 1 then parts[0]
    else parts[0] + sep + Join(sep, parts[1..])
  }

  // ---------------------------------------------------------------- lines

  /** Length of the first line, its terminator excluded. */
  function LineLength(s: string): (n: nat)
    ensures n <= |s|
    ensures forall i :: 0 <= i < n ==> !IsLineBreak(s[i])
    ensures n < |s| ==> IsLineBreak(s[n])
  {
    if s == "" || IsLineBreak(s[0]) then 0 else 1 + LineLength(s[1..])
  }

  /** Length of the break at `n`: CR LF is one break. */
  function BreakLength(s: string, n: nat): (b: nat)
    requires n < |s|
    ensures 1 <= b && n + b <= |s|
  {
    if s[n] == '\r' && n + 1 < |s| && s[n + 1] == '\n' then 2 else 1
  }

  /** `str.splitlines`: a final break opens no line. */
  function SplitLines(s: string): seq<string> {
    if s == "" then []
    else
      var n := LineLength(s);
      if n == |s| then [s] else [s[..n]] + SplitLines(s[n + BreakLength(s, n)..])
  }

  predicate NoBreaks(s: string) {
    forall i :: 0 <= i < |s| ==> !IsLineBreak(s[i])
  }

  predicate OnlyNewlines(s: string) {
    forall i :: 0 <= i < |s| && IsLineBreak(s[i]) ==> s[i] == '\n'
  }

  predicate EndsWithNewline(s: string) {
    s != "" && s[|s| - 1] == '\n'
  }

  /** The lines of a text hold no breaks. */
  lemma {:induction false} SplitLinesNoBreaks(s: string)
    ensures forall l :: l in SplitLines(s) ==> NoBreaks(l)
    decreases |s|
  {
    if s != "" {
      var n := LineLength(s);
      if n < |s| {
        SplitLinesNoBreaks(s[n + BreakLength(s, n)..]);
      }
    }
  }

  /** Joining lines back: what `splitlines` makes of a list of lines that each end in LF. */
  lemma {:induction false} SplitLinesStep(line: string, rest: string)
    requires NoBreaks(line)
    ensures SplitLines(line + "\n" + rest) == [line] + SplitLines(rest)
  {
    var s := line + "\n" + rest;
    assert LineLength(s) == |line| by { LineLengthIs(s, |line|); }
    assert s[..|line|] == line && s[|line| + 1..] == rest;
  }

  lemma LineLengthIs(s: string, n: nat)
    requires n <= |s| && NoBreaks(s[..n])
    requires n < |s| ==> IsLineBreak(s[n])
    ensures LineLength(s) == n
  {
    assert forall i :: 0 <= i < n ==> s[..n][i] == s[i];
  }

  lemma SplitLinesOne(line: string)
    requires NoBreaks(line) && line != ""
    ensures SplitLines(line) == [line]
  {
    assert line[..|line|] == line;
    LineLengthIs(line, |line|);
  }

  /** Every line followed by LF. */
  function Unlines(lines: seq<string>): string {
    if lines == [] then "" else lines[0] + "\n" + Unlines(lines[1..])
  }

  lemma {:induction false} SplitUnlines(lines: seq<string>)
    requires forall l :: l in lines ==> NoBreaks(l)
    ensures SplitLines(Unlines(lines)) == lines
  {
    if lines != [] {
      SplitUnlines(lines[1..]);
      SplitLinesStep(lines[0], Unlines(lines[1..]));
    }
  }

  lemma {:induction false} JoinIsUnlines(lines: seq<string>)
    requires lines != []
    ensures Join("\n", lines) + "\n" == Unlines(lines)
  {
    if |lines| > 1 {
      JoinIsUnlines(lines[1..]);
      assert Join("\n", lines) + "\n" == lines[0] + "\n" + (Join("\n", lines[1..]) + "\n");
    } else {
      assert Unlines(lines[1..]) == "";
    }
  }

  /** Lines joined by LF split back into those lines, when the last one is not empty. */
  lemma {:induction false} SplitJoin(lines: seq<string>)
    requires forall l :: l in lines ==> NoBreaks(l)
    requires lines != [] ==> lines[|lines| - 1] != ""
    ensures SplitLines(Join("\n", lines)) == lines
  {
    if lines == [] {
      assert SplitLines("") == [];
    } else {
      hide SplitLines, NoBreaks;
      assert lines[0] in lines && lines == [lines[0]] + lines[1..];
      if |lines| == 1 {
        SplitLinesOne(lines[0]);
      } else {
        SplitJoin(lines[1..]);
        SplitLinesStep(lines[0], Join("\n", lines[1..]));
      }
    }
  }

  lemma UnlinesCons(line: string, rest: seq<string>)
    ensures Unlines([line] + rest) == line + "\n" + Unlines(rest)
  {
    assert ([line] + rest)[1..] == rest;
  }

  lemma JoinCons(sep: string, line: string, rest: seq<string>)
    requires rest != []
    ensures Join(sep, [line] + rest) == line + sep + Join(sep, rest)
  {
    assert ([line] + rest)[1..] == rest;
  }

  /** A text with an LF in it is its first line, the LF, and the rest. */
  lemma FirstLine(s: string) returns (line: string, rest: string)
    requires OnlyNewlines(s) && LineLength(s) < |s|
    ensures s == line + "\n" + rest && OnlyNewlines(rest) && |rest| < |s|
    ensures SplitLines(s) == [line] + SplitLines(rest)
  {
    var n := LineLength(s);
    line, rest := s[..n], s[n + 1..];
    assert forall i :: 0 <= i < |rest| ==> rest[i] == s[n + 1 + i];
  }

  lemma OneLine(s: string)
    requires s != "" && LineLength(s) == |s|
    ensures SplitLines(s) == [s] && !EndsWithNewline(s)
  {
  }

  /** `ls` are the lines of `s`: joined, plus a final LF if `s` has one. */
  predicate Rebuilds(s: string, ls: seq<string>) {
    if s == "" then ls == []
    else if EndsWithNewline(s) then ls != [] && Unlines(ls) == s
    else ls != [] && ls[|ls| - 1] != "" && Join("\n", ls) == s
  }

  lemma RebuildsStep(line: string, rest: string, ls: seq<string>)
    requires Rebuilds(rest, ls)
    ensures Rebuilds(line + "\n" + rest, [line] + ls)
  {
    var s := line + "\n" + rest;
    UnlinesCons(line, ls);
    if rest != "" {
      assert rest[|rest| - 1] == s[|s| - 1];
      JoinCons("\n", line, ls);
    } else {
      assert s == line + "\n" + "";
    }
  }

  /** A text whose only breaks are LF is its lines joined, plus a final LF if it had one. */
  lemma {:induction false} LinesRebuild(s: string)
    requires OnlyNewlines(s)
    ensures Rebuilds(s, SplitLines(s))
    decreases |s|
  {
    if s != "" && LineLength(s) < |s| {
      var line, rest := FirstLine(s);
      LinesRebuild(rest);
      RebuildsStep(line, rest, SplitLines(rest));
    } else if s != "" {
      OneLine(s);
    }
  }

  /** Sequence concatenation regrouped. */
  lemma Regroup<T>(a: seq<T>, b: seq<T>, c: seq<T>)
    ensures a + (b + c) == a + b + c && a + [] == a
  {
  }

  /** No element occurs twice. */
  predicate Distinct(s: seq<string>) {
    forall i, j :: 0 <= i < j < |s| ==> s[i] != s[j]
  }

  function SetOf(s: seq<string>): set<string> { set x | x in s }
}
