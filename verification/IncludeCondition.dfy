/** The conditional check of the Include repair, told by lines: the header over the first fragment Include. */
module IncludeCondition {
  import opened Text
  import opened SshConfig
  import opened IncludeRepair

  /** Line `i` is the first Include of the fragment. */
  ghost predicate FirstInclude(lines: seq<string>, i: nat, name: string) {
    i < |lines| && IsFragmentInclude(lines[i], name)
    && forall k :: 0 <= k < i ==> !IsFragmentInclude(lines[k], name)
  }

  /** A `Match` line whose only criterion is `all`, in any case and however spaced. */
  predicate MatchesAll(header: string) {
    var s := Strip(header);
    Keyword(header) == "match" && |s| >= 5 && Lower(Strip(s[5..])) == "all"
  }

  /** What stands under a Host or Match line other than `Match all` is read for some hosts only. */
  ghost predicate UnderCondition(lines: seq<string>, i: nat) {
    i < |lines| && Enclosing(lines, i).Some? && !MatchesAll(Enclosing(lines, i).value)
  }

  ghost predicate ConditionalLine(lines: seq<string>, name: string) {
    exists i: nat :: FirstInclude(lines, i, name) && UnderCondition(lines, i)
  }

  lemma {:induction false} EnclosingInBlock(block: seq<string>, i: nat)
    requires i < |block| && forall k :: 1 <= k < |block| ==> !IsHeader(block[k])
    ensures Enclosing(block, i) == if IsHeader(block[0]) then Some(block[0]) else None
  {
    hide IsHeader;
    if i > 0 { EnclosingInBlock(block, i - 1); }
  }

  lemma {:induction false} EnclosingBehind(a: seq<string>, b: seq<string>, i: nat)
    requires i < |b| && IsHeader(b[0])
    ensures Enclosing(a + b, |a| + i) == Enclosing(b, i)
  {
    hide IsHeader;
    assert (a + b)[|a| + i] == b[i];
    if i > 0 { EnclosingBehind(a, b, i - 1); }
  }

  lemma {:induction false} FirstOf(lines: seq<string>, name: string) returns (i: nat)
    requires HasFragmentInclude(lines, name)
    ensures FirstInclude(lines, i, name)
    decreases |lines|
  {
    hide IsFragmentInclude;
    if HasFragmentInclude(lines[..|lines| - 1], name) {
      i := FirstOf(lines[..|lines| - 1], name);
    } else {
      i := |lines| - 1;
      forall k | 0 <= k < i ensures !IsFragmentInclude(lines[k], name) {
        assert lines[k] == lines[..|lines| - 1][k];
      }
    }
  }

  /** The word after `match` decides. */
  lemma StanzaCondition(s: Stanza)
    requires WellHeaded(s)
    ensures IsConditionalStanza(s) <==> IsHeader(s.block[0]) && !MatchesAll(s.block[0])
  {
    hide Strip, HostPatterns;
    if s.kind == Match { MatchIsLong(s.block[0]); }
  }

  lemma MatchIsLong(h: string)
    requires Keyword(h) == "match"
    ensures |Strip(h)| >= 5
  {
    hide Strip;
    var s := Strip(h);
    assert |Lower(s[..WordLength(s)])| == |"match"|;
  }

  lemma InBlock(s: Stanza, rest: seq<string>, name: string)
    requires WellHeaded(s) && HasFragmentInclude(s.block, name)
    ensures IsConditionalStanza(s) <==> ConditionalLine(s.block + rest, name)
  {
    StanzaCondition(s);
    var i := FirstOf(s.block, name);
    EnclosingInBlock(s.block, i);
    hide IsHeader, HostPatterns, IsFragmentInclude, MatchesAll, IsConditionalStanza, Enclosing, WellHeaded;
    EnclosingPrefix(s.block, rest, i);
    OnlyFirst(s.block, rest, i, name);
  }

  lemma OnlyFirst(block: seq<string>, rest: seq<string>, i: nat, name: string)
    requires FirstInclude(block, i, name)
    ensures ConditionalLine(block + rest, name) <==> UnderCondition(block + rest, i)
  {
    hide IsFragmentInclude, UnderCondition;
    var all := block + rest;
    assert forall k :: 0 <= k < |block| ==> all[k] == block[k];
    assert FirstInclude(all, i, name);
    if ConditionalLine(all, name) {
      var j: nat :| FirstInclude(all, j, name) && UnderCondition(all, j);
      assert !(i < j) && !(j < i);
    }
  }

  lemma FirstBehind(block: seq<string>, rest: seq<string>, name: string, j: nat)
    requires !HasFragmentInclude(block, name)
    ensures FirstInclude(block + rest, j, name) <==> j >= |block| && FirstInclude(rest, j - |block|, name)
  {
    hide IsFragmentInclude;
    var all, n := block + rest, |block|;
    assert forall k :: 0 <= k < n ==> all[k] == block[k];
    assert forall k :: n <= k < |all| ==> all[k] == rest[k - n];
    if j >= n && FirstInclude(all, j, name) {
      assert forall k :: 0 <= k < j - n ==> rest[k] == all[n + k];
    }
  }

  lemma ConditionBehind(block: seq<string>, rest: seq<string>, i: nat)
    requires rest != [] && IsHeader(rest[0])
    ensures UnderCondition(block + rest, |block| + i) <==> UnderCondition(rest, i)
  {
    hide IsHeader, MatchesAll, Enclosing;
    if i < |rest| { EnclosingBehind(block, rest, i); }
  }

  lemma BehindBlock(block: seq<string>, rest: seq<string>, name: string)
    requires !HasFragmentInclude(block, name) && rest != [] && IsHeader(rest[0])
    ensures ConditionalLine(block + rest, name) <==> ConditionalLine(rest, name)
  {
    hide IsHeader, UnderCondition, HasFragmentInclude, FirstInclude;
    var all, n := block + rest, |block|;
    if ConditionalLine(rest, name) {
      var i: nat :| FirstInclude(rest, i, name) && UnderCondition(rest, i);
      FirstBehind(block, rest, name, n + i);
      ConditionBehind(block, rest, i);
    }
    if ConditionalLine(all, name) {
      var j: nat :| FirstInclude(all, j, name) && UnderCondition(all, j);
      FirstBehind(block, rest, name, j);
      ConditionBehind(block, rest, j - n);
    }
  }

  lemma {:induction false} ConditionalFrom(cur: Stanza, lines: seq<string>, name: string)
    requires if cur.block == [] then cur == Stanza(Global, [], []) else WellHeaded(cur)
    ensures ConditionalIn(StanzasFrom(cur, lines), name) <==> ConditionalLine(cur.block + lines, name)
    decreases |lines|
  {
    hide IsHeader, HostPatterns, WellHeaded, Opened, IsConditionalStanza, ConditionalLine, HasFragmentInclude;
    if lines == [] {
      assert cur.block + lines == cur.block;
      if cur.block == [] {
        NoLines(name);
      } else if HasFragmentInclude(cur.block, name) {
        InBlock(cur, [], name);
        assert cur.block + [] == cur.block;
      } else {
        NoneThere(cur.block, name);
        assert [cur][1..] == [];
      }
    } else if IsHeader(lines[0]) {
      var next := Opened(lines[0]);
      OpenedIsHeaded(lines[0]);
      ConditionalFrom(next, lines[1..], name);
      assert [lines[0]] + lines[1..] == lines;
      if cur.block == [] {
        assert [] + lines == lines;
        assert [] + StanzasFrom(next, lines[1..]) == StanzasFrom(next, lines[1..]);
      } else {
        var rest := StanzasFrom(next, lines[1..]);
        assert ([cur] + rest)[1..] == rest;
        if HasFragmentInclude(cur.block, name) {
          InBlock(cur, lines, name);
        } else {
          BehindBlock(cur.block, lines, name);
        }
      }
    } else {
      GrownIsHeaded(cur, lines[0]);
      ConditionalFrom(cur.(block := cur.block + [lines[0]]), lines[1..], name);
      assert cur.block + [lines[0]] + lines[1..] == cur.block + lines;
    }
  }

  lemma NoLines(name: string)
    ensures !ConditionalLine([], name)
  {
  }

  lemma NoneThere(lines: seq<string>, name: string)
    requires !HasFragmentInclude(lines, name)
    ensures !ConditionalLine(lines, name)
  {
    hide IsFragmentInclude;
  }

  /**
   * The check calls the fragment's Include conditional if and only if the first one stands under a
   * Host line, or under a Match line with any other criterion than `all`.
   */
  lemma ConditionIs(text: string, name: string)
    ensures IsConditional(text, name) <==> ConditionalLine(SplitLines(text), name)
  {
    hide SplitLines, StanzasFrom, ConditionalIn, ConditionalLine;
    var lines := SplitLines(text);
    ConditionalFrom(Stanza(Global, [], []), lines, name);
    assert [] + lines == lines;
  }
}
