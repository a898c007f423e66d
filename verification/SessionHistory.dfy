/** Commands of this session, most recent first: a bounded cache that equals a recomputation. */
module SessionHistory {
  import opened Text

  function Digits(s: string): (n: nat)
    ensures n <= |s|
  {
    if s != "" && IsDigit(s[0]) then 1 + Digits(s[1..]) else 0
  }

  /** Length of a leading `: <digits>:<digits>;`, 0 without one. */
  function StampLength(line: string): (n: nat)
    ensures n <= |line|
  {
    if !(": " <= line) then 0
    else
      var d := Digits(line[2..]);
      var i := 2 + d;
      if d == 0 || i >= |line| || line[i] != ':' then 0
      else
        var e := Digits(line[i + 1..]);
        var j := i + 1 + e;
        if e == 0 || j >= |line| || line[j] != ';' then 0 else j + 1
  }

  function Command(line: string): string { Strip(line[StampLength(line)..]) }

  /** History lines, oldest first: the commands not in `seen`, most recent first, each once. */
  function Unseen(lines: seq<string>, seen: set<string>): (out: seq<string>)
    decreases |lines|
  {
    if lines == [] then []
    else
      var n := |lines| - 1;
      var c := Command(lines[n]);
      if c != "" && c !in seen then [c] + Unseen(lines[..n], seen + {c}) else Unseen(lines[..n], seen)
  }

  function RecentFirst(lines: seq<string>): seq<string> { Unseen(lines, {}) }

  method RecentFirstDedupe(lines: seq<string>) returns (out: seq<string>)
    ensures out == RecentFirst(lines)
  {
    hide Command;
    var seen: set<string> := {};
    out := [];
    var i := |lines|;
    assert lines[..i] == lines;
    while i > 0
      invariant i <= |lines| && RecentFirst(lines) == out + Unseen(lines[..i], seen)
    {
      i := i - 1;
      var command := Command(lines[i]);
      assert lines[..i + 1][..i] == lines[..i];
      if command != "" && command !in seen {
        Regroup(out, [command], Unseen(lines[..i], seen + {command}));
        seen := seen + {command};
        out := out + [command];
      }
    }
  }

  // ---------------------------------------------------------------- what the recomputation is

  function Without(s: seq<string>, x: string): seq<string> {
    if s == [] then [] else (if s[0] != x then [s[0]] else []) + Without(s[1..], x)
  }

  lemma {:induction false} WithoutAbsent(s: seq<string>, x: string)
    requires x !in s
    ensures Without(s, x) == s
  {
    if s != [] {
      WithoutAbsent(s[1..], x);
      assert s == [s[0]] + s[1..];
    }
  }

  lemma {:induction false} WithoutMembers(s: seq<string>, x: string)
    ensures forall y :: y in Without(s, x) ==> y in s && y != x
  {
    if s != [] {
      WithoutMembers(s[1..], x);
      forall y | y in Without(s, x) ensures y in s && y != x {
        if y in Without(s[1..], x) { assert y in s[1..]; }
      }
    }
  }

  lemma {:induction false} WithoutDistinct(s: seq<string>, x: string)
    requires Distinct(s)
    ensures Distinct(Without(s, x))
  {
    if s != [] {
      WithoutDistinct(s[1..], x);
      WithoutMembers(s[1..], x);
      var w := Without(s[1..], x);
      forall j | 0 <= j < |w| ensures w[j] != s[0] { assert w[j] in w; }
    }
  }

  lemma {:induction false} UnseenDistinct(lines: seq<string>, seen: set<string>)
    ensures Distinct(Unseen(lines, seen)) && forall c :: c in Unseen(lines, seen) ==> c !in seen && c != ""
    decreases |lines|
  {
    hide Command;
    if lines != [] {
      var n := |lines| - 1;
      var c := Command(lines[n]);
      UnseenDistinct(lines[..n], if c != "" && c !in seen then seen + {c} else seen);
    }
  }

  /** The recomputation holds every command of the history. */
  lemma {:induction false} UnseenComplete(lines: seq<string>, seen: set<string>, i: nat)
    requires i < |lines| && Command(lines[i]) != ""
    ensures Command(lines[i]) in seen || Command(lines[i]) in Unseen(lines, seen)
    decreases |lines|
  {
    hide Command;
    var n := |lines| - 1;
    var c := Command(lines[n]);
    if i < n {
      UnseenComplete(lines[..n], if c != "" && c !in seen then seen + {c} else seen, i);
    }
  }

  lemma {:induction false} UnseenWithout(lines: seq<string>, seen: set<string>, x: string)
    ensures Unseen(lines, seen + {x}) == Without(Unseen(lines, seen), x)
    decreases |lines|
  {
    hide Command;
    if lines != [] {
      var n := |lines| - 1;
      var c := Command(lines[n]);
      if c != "" && c !in seen {
        UnseenWithout(lines[..n], seen + {c}, x);
        assert seen + {x} + {c} == seen + {c} + {x};
        var rest := Unseen(lines[..n], seen + {c});
        assert ([c] + rest)[1..] == rest;
        if c == x {
          UnseenDistinct(lines[..n], seen + {c});
          WithoutAbsent(rest, x);
          assert seen + {c} + {x} == seen + {c};
        }
      } else {
        UnseenWithout(lines[..n], seen, x);
      }
    }
  }

  /** A new command goes to the front and leaves its old place. */
  lemma RecentFirstSnoc(lines: seq<string>, line: string)
    ensures RecentFirst(lines + [line]) ==
            if Command(line) == ""
            then RecentFirst(lines)
            else [Command(line)] + Without(RecentFirst(lines), Command(line))
  {
    hide Command;
    assert (lines + [line])[..|lines|] == lines;
    UnseenWithout(lines, {}, Command(line));
    assert {} + {Command(line)} == {Command(line)};
  }

  // ---------------------------------------------------------------- the bounded deque

  function Take(s: seq<string>, n: nat): seq<string> { if |s| <= n then s else s[..n] }

  /** `deque.remove` then `appendleft` on a deque of length at most `maxlen`. */
  function Added(ls: seq<string>, maxlen: nat, line: string): seq<string> {
    var c := Strip(line);
    if c == "" then ls else Take([c] + Without(ls, c), maxlen)
  }

  function AddedAll(maxlen: nat, lines: seq<string>): seq<string> {
    if lines == [] then [] else Added(AddedAll(maxlen, lines[..|lines| - 1]), maxlen, lines[|lines| - 1])
  }

  lemma {:induction false} WithoutAppend(a: seq<string>, b: seq<string>, x: string)
    ensures Without(a + b, x) == Without(a, x) + Without(b, x)
  {
    if a == [] {
      assert a + b == b;
    } else {
      WithoutAppend(a[1..], b, x);
      assert (a + b)[0] == a[0] && (a + b)[1..] == a[1..] + b;
      var k := if a[0] != x then [a[0]] else [];
      assert k + (Without(a[1..], x) + Without(b, x)) == k + Without(a[1..], x) + Without(b, x);
    }
  }

  lemma {:induction false} WithoutLength(s: seq<string>, x: string)
    requires Distinct(s)
    ensures |Without(s, x)| == if x in s then |s| - 1 else |s|
  {
    if s != [] {
      WithoutLength(s[1..], x);
    }
  }

  lemma TakeFront(l: seq<string>, m: seq<string>, n: nat)
    requires |l| >= n
    ensures Take(l + m, n) == Take(l, n)
  {
  }

  /** Cutting off the tail first does not change the front of the result. */
  lemma TakeWithout(s: seq<string>, n: nat, x: string)
    requires Distinct(s)
    ensures Take([x] + Without(Take(s, n), x), n) == Take([x] + Without(s, x), n)
  {
    hide Without;
    if |s| > n {
      var a, b := s[..n], s[n..];
      assert s == a + b;
      assert Distinct(a);
      hide Distinct;
      WithoutAppend(a, b, x);
      WithoutLength(a, x);
      assert Take(s, n) == a;
      hide Take;
      TakeFront([x] + Without(a, x), Without(b, x), n);
      assert [x] + (Without(a, x) + Without(b, x)) == [x] + Without(a, x) + Without(b, x);
    }
  }

  /** A line that is blank has no command. */
  lemma BlankHasNoCommand(line: string)
    requires Strip(line) == ""
    ensures Command(line) == ""
  {
    hide IsSpace;
    assert LStrip(line) == "" by { assert LStrip(line) != "" ==> RStrip(LStrip(line)) != ""; }
    ColonIsNoSpace();
    assert StampLength(line) == 0;
    assert line[0..] == line;
  }

  lemma ColonIsNoSpace()
    ensures !IsSpace(':')
  {
  }

  /** The cache takes the line as the recomputation does, or already has it in front and keeps it there. */
  predicate Agrees(lines: seq<string>, line: string) {
    || Strip(line) == Command(line)
    || (Command(line) == "" && RecentFirst(lines) != [] && RecentFirst(lines)[0] == Strip(line))
  }

  predicate AgreesThroughout(lines: seq<string>) {
    lines == [] || (AgreesThroughout(lines[..|lines| - 1]) && Agrees(lines[..|lines| - 1], lines[|lines| - 1]))
  }

  /** At every moment the cache was the front of the recomputed history. */
  predicate EqualThroughout(maxlen: nat, lines: seq<string>) {
    && AddedAll(maxlen, lines) == Take(RecentFirst(lines), maxlen)
    && (lines != [] ==> EqualThroughout(maxlen, lines[..|lines| - 1]))
  }

  /** One addition to a cache that is the front of the history. */
  lemma AddKeepsEqual(maxlen: nat, before: seq<string>, line: string)
    requires maxlen > 0
    ensures Added(Take(RecentFirst(before), maxlen), maxlen, line) == Take(RecentFirst(before + [line]), maxlen)
      <==> Agrees(before, line)
  {
    hide Command, Strip, Unseen;
    var r, c, x := RecentFirst(before), Command(line), Strip(line);
    RecentFirstSnoc(before, line);
    UnseenDistinct(before, {});
    if x == c {
      TakeWithout(r, maxlen, c);
    } else if x == "" {
      BlankHasNoCommand(line);
    } else {
      var a := Take(r, maxlen);
      var added := Added(a, maxlen, line);
      assert added != [] && added[0] == x;
      if c == "" && r != [] && r[0] == x {
        assert a == [x] + a[1..];
        assert Distinct(a);
        WithoutFirst(a);
        assert added == a;
      }
    }
  }

  lemma WithoutFirst(s: seq<string>)
    requires s != [] && Distinct(s)
    ensures Without(s, s[0]) == s[1..]
  {
    WithoutAbsent(s[1..], s[0]);
  }

  /**
   * Over any sequence of additions the bounded cache is, at every moment, the front of the
   * recomputed history if and only if each line is taken alike by both: it has no shell time stamp
   * to strip, or is a bare stamp that the cache had in front already.
   */
  lemma {:induction false} CacheIsRecomputation(maxlen: nat, lines: seq<string>)
    ensures EqualThroughout(maxlen, lines) <==> maxlen == 0 || AgreesThroughout(lines)
  {
    hide Agrees, RecentFirst, Added, Take;
    if lines == [] {
      NothingYet(maxlen);
    } else if maxlen == 0 {
      CacheIsRecomputation(maxlen, lines[..|lines| - 1]);
      NoRoom(lines);
    } else {
      var n := |lines| - 1;
      CacheIsRecomputation(maxlen, lines[..n]);
      assert lines == lines[..n] + [lines[n]];
      if EqualThroughout(maxlen, lines[..n]) { AddKeepsEqual(maxlen, lines[..n], lines[n]); }
    }
  }

  /** Length of the stamp `: 1:0;` before any command. */
  lemma StampOf(c: string)
    ensures StampLength(": 1:0;" + c) == 6 && (": 1:0;" + c)[6..] == c
  {
    var s := ": 1:0;" + c;
    assert s[2..][0] == '1' && s[2..][1] == ':' && s[2..][1..][0] == ':';
    assert Digits(s[2..]) == 1;
    assert s[4..][0] == '0' && s[4..][1] == ';' && s[4..][1..][0] == ';';
    assert Digits(s[4..]) == 1;
    hide Digits;
    assert s[0] == ':' && s[1] == ' ' && s[3] == ':' && s[5] == ';' && ": " <= s;
  }

  /** One stamped line is enough: the cache keeps the stamp, the recomputation does not. */
  lemma StampedLineDiffers(maxlen: nat, c: string)
    requires maxlen > 0
    ensures !EqualThroughout(maxlen, [": 1:0;" + c])
  {
    var line := ": 1:0;" + c;
    StampOf(c);
    StampIsKept(c);
    hide StampLength, Strip, EqualThroughout;
    assert [line][..0] == [];
    assert RecentFirst([]) == [];
    CacheIsRecomputation(maxlen, [line]);
  }

  lemma StampIsKept(c: string)
    ensures |Strip(": 1:0;" + c)| > |Strip(c)|
  {
    var line := ": 1:0;" + c;
    ColonIsNoSpace();
    assert line[0] == ':' && line[5] == ';' && !IsSpace(';');
    hide IsSpace, LStrip, RStrip;
    LStripAt(line, 0);
    assert line[0..] == line;
    var r, l := RStrip(line), LStrip(c);
    assert |r| >= 6;
    StrippedWithin(c, line, |r|);
  }

  /** The text that trimming keeps of `c` lies within what it keeps of a line that ends in `c`. */
  lemma StrippedWithin(c: string, line: string, n: nat)
    requires |line| == |c| + 6 && line[6..] == c && 6 <= n <= |line| && n == |RStrip(line)|
    ensures |Strip(c)| <= n - 6
  {
    hide IsSpace, LStrip, RStrip;
    var s := Strip(c);
    var l := LStrip(c);
    if s != "" {
      var k := |c| - |l| + |s| - 1;
      assert c[k] == l[|s| - 1] == s[|s| - 1];
      assert line[6 + k] == line[6..][k] == c[k];
      assert 6 + k < n;
    }
  }

  lemma {:induction false} NoRoom(lines: seq<string>)
    ensures AddedAll(0, lines) == [] == Take(RecentFirst(lines), 0)
  {
    hide RecentFirst, Strip;
    if lines != [] { NoRoom(lines[..|lines| - 1]); }
  }

  lemma NothingYet(maxlen: nat)
    ensures AddedAll(maxlen, []) == Take(RecentFirst([]), maxlen)
  {
  }

  /** Lines without a time stamp agree throughout. */
  lemma {:induction false} UnstampedAgree(lines: seq<string>)
    requires forall i :: 0 <= i < |lines| ==> StampLength(lines[i]) == 0
    ensures AgreesThroughout(lines)
  {
    hide StampLength, Strip, RecentFirst;
    if lines != [] {
      var n := |lines| - 1;
      UnstampedAgree(lines[..n]);
      assert lines[n][0..] == lines[n];
    }
  }

  /** The cache never repeats a line, never exceeds its bound, and starts with the last line that is not blank. */
  lemma {:induction false} CacheFacts(maxlen: nat, lines: seq<string>)
    ensures Distinct(AddedAll(maxlen, lines)) && |AddedAll(maxlen, lines)| <= maxlen
    ensures lines != [] && Strip(lines[|lines| - 1]) != "" && maxlen > 0 ==>
              |AddedAll(maxlen, lines)| > 0 && AddedAll(maxlen, lines)[0] == Strip(lines[|lines| - 1])
  {
    hide Strip, Added, Distinct;
    if lines == [] {
      NothingRepeats();
    } else {
      var n := |lines| - 1;
      CacheFacts(maxlen, lines[..n]);
      AddedFacts(AddedAll(maxlen, lines[..n]), maxlen, lines[n]);
    }
  }

  lemma NothingRepeats()
    ensures Distinct([])
  {
  }

  lemma AddedFacts(cache: seq<string>, maxlen: nat, line: string)
    requires Distinct(cache) && |cache| <= maxlen
    ensures var next := Added(cache, maxlen, line);
      && Distinct(next) && |next| <= maxlen
      && (Strip(line) != "" && maxlen > 0 ==> next != [] && next[0] == Strip(line))
  {
    hide Strip, Without;
    var x := Strip(line);
    WithoutDistinct(cache, x);
    WithoutMembers(cache, x);
    var front := [x] + Without(cache, x);
    assert forall j :: 0 < j < |front| ==> front[j] in Without(cache, x);
    assert Distinct(front);
  }

  class SessionProvider {
    const maxlen: nat
    var lines: seq<string>

    constructor (bound: nat)
      ensures maxlen == bound && lines == []
    {
      maxlen, lines := bound, [];
    }

    method Add(line: string)
      requires Distinct(lines) && |lines| <= maxlen
      modifies this`lines
      ensures Distinct(lines) && |lines| <= maxlen
      ensures lines == Added(old(lines), maxlen, line)
    {
      hide Strip, Without;
      var command := Strip(line);
      if command == "" {
        return;
      }
      var kept := lines;
      for i := 0 to |lines|
        invariant kept == lines == old(lines) && command !in lines[..i]
      {
        if lines[i] == command {
          kept := lines[..i] + lines[i + 1..];
          RemoveFirst(lines, i);
          break;
        }
      }
      if command !in old(lines) { WithoutAbsent(old(lines), command); }
      assert kept == Without(old(lines), command);
      WithoutDistinct(old(lines), command);
      WithoutMembers(old(lines), command);
      var front := [command] + kept;
      assert Distinct(front);
      lines := if |front| <= maxlen then front else front[..maxlen];
    }
  }

  lemma {:induction false} RemoveFirst(s: seq<string>, i: nat)
    requires Distinct(s) && i < |s|
    ensures Without(s, s[i]) == s[..i] + s[i + 1..]
    decreases i
  {
    var rest := s[1..];
    if i == 0 {
      WithoutAbsent(rest, s[0]);
    } else {
      RemoveFirst(rest, i - 1);
      assert rest[i - 1] == s[i];
      assert [s[0]] + (rest[..i - 1] + rest[i..]) == s[..i] + s[i + 1..];
    }
  }
}
