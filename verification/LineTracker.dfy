/** The keystroke tracker: it reconstructs the shell's edit line or admits that it cannot. */
module LineTracker {
  import opened Text

  const BACKSPACE := '\U{7F}'
  const CTRL_H := '\U{08}'
  const CTRL_C := '\U{03}'
  const CTRL_U := '\U{15}'
  const CTRL_L := '\U{0C}'
  const CTRL_W := '\U{17}'

  /** What the tracker does on a key, `printable` deciding the rest of the alphabet. */
  datatype Key = Enter | Erase | Discard | Redraw | EraseWord | Insert | Unknown

  function KeyOf(printable: char -> bool, c: char): Key {
    if c == '\r' || c == '\n' then Enter
    else if c == BACKSPACE || c == CTRL_H then Erase
    else if c == CTRL_C || c == CTRL_U then Discard
    else if c == CTRL_L then Redraw
    else if c == CTRL_W then EraseWord
    else if printable(c) then Insert
    else Unknown
  }

  datatype Tracker = Tracker(line: string, valid: bool)

  const START := Tracker("", true)

  /** `rstrip(" ")` */
  function TrimSpaces(s: string): (r: string)
    ensures |r| <= |s| && r == s[..|r|] && (r != "" ==> r[|r| - 1] != ' ')
    ensures forall i :: |r| <= i < |s| ==> s[i] == ' '
  {
    if s != "" && s[|s| - 1] == ' ' then TrimSpaces(s[..|s| - 1]) else s
  }

  /** One past the last space, 0 when there is none. */
  function AfterLastSpace(s: string): (n: nat)
    ensures n <= |s| && (n > 0 ==> s[n - 1] == ' ')
    ensures forall i :: n <= i < |s| ==> s[i] != ' '
  {
    if s == "" then 0 else if s[|s| - 1] == ' ' then |s| else AfterLastSpace(s[..|s| - 1])
  }

  function WithoutLastWord(line: string): string {
    var t := TrimSpaces(line);
    t[..AfterLastSpace(t)]
  }

  /** One key: the new state, and the line an Enter commits. */
  function Press(printable: char -> bool, t: Tracker, c: char): (Tracker, Option<string>) {
    match KeyOf(printable, c)
    case Enter => (Tracker("", true), if t.valid && Strip(t.line) != "" then Some(t.line) else None)
    case Erase => (t.(line := if t.line == "" then "" else t.line[..|t.line| - 1]), None)
    case Discard => (Tracker("", true), None)
    case Redraw => (t, None)
    case EraseWord => (t.(line := WithoutLastWord(t.line)), None)
    case Insert => (t.(line := t.line + [c]), None)
    case Unknown => (Tracker("", false), None)
  }

  /** A chunk of input: the last committed line wins. */
  function Feed(printable: char -> bool, t: Tracker, data: string): (Tracker, Option<string>)
    decreases |data|
  {
    if data == "" then (t, None)
    else
      var p := Press(printable, t, data[0]);
      var r := Feed(printable, p.0, data[1..]);
      (r.0, if r.1.Some? then r.1 else p.1)
  }

  // ---------------------------------------------------------------- chunking

  /** Where the input is cut does not matter: neither for the state nor for what is committed last. */
  lemma {:induction false} FeedAppend(printable: char -> bool, t: Tracker, a: string, b: string)
    ensures var l := Feed(printable, t, a);
            var r := Feed(printable, l.0, b);
            Feed(printable, t, a + b) == (r.0, if r.1.Some? then r.1 else l.1)
    decreases |a|
  {
    hide Press;
    if a == "" {
      assert a + b == b;
    } else {
      FeedAppend(printable, Press(printable, t, a[0]).0, a[1..], b);
      assert (a + b)[0] == a[0] && (a + b)[1..] == a[1..] + b;
    }
  }

  function Concat(chunks: seq<string>): string {
    if chunks == [] then "" else chunks[0] + Concat(chunks[1..])
  }

  function FeedAll(printable: char -> bool, t: Tracker, chunks: seq<string>): Tracker
    decreases |chunks|
  {
    if chunks == [] then t else FeedAll(printable, Feed(printable, t, chunks[0]).0, chunks[1..])
  }

  /** Two deliveries of the same keystrokes leave the same state. */
  lemma ChunkingIsIrrelevant(printable: char -> bool, t: Tracker, a: seq<string>, b: seq<string>)
    requires Concat(a) == Concat(b)
    ensures FeedAll(printable, t, a) == FeedAll(printable, t, b)
  {
    FeedAllIsFeed(printable, t, a);
    FeedAllIsFeed(printable, t, b);
  }

  lemma {:induction false} FeedAllIsFeed(printable: char -> bool, t: Tracker, chunks: seq<string>)
    ensures FeedAll(printable, t, chunks) == Feed(printable, t, Concat(chunks)).0
    decreases |chunks|
  {
    if chunks != [] {
      FeedAllIsFeed(printable, Feed(printable, t, chunks[0]).0, chunks[1..]);
      FeedAppend(printable, t, chunks[0], Concat(chunks[1..]));
    }
  }

  // ---------------------------------------------------------------- the real edit line

  /** `before` is `after`, then a run of non-spaces up to `m`, then spaces. */
  predicate WordBoundary(before: string, after: string, m: nat) {
    && |after| <= m <= |before| && before[..|after|] == after
    && (after == "" || after[|after| - 1] == ' ')
    && (forall i :: |after| <= i < m ==> before[i] != ' ')
    && (forall i :: m <= i < |before| ==> before[i] == ' ')
    && (m == 0 || before[m - 1] != ' ')
  }

  /** Deleting the last word: a run of spaces, and before it a run of other characters. */
  ghost predicate LastWordDeleted(before: string, after: string) {
    exists m: nat :: WordBoundary(before, after, m)
  }

  lemma WordDeletion(s: string)
    ensures LastWordDeleted(s, WithoutLastWord(s))
  {
    var t := TrimSpaces(s);
    var n := AfterLastSpace(t);
    assert t[..n] == s[..n];
    assert forall i :: n <= i < |t| ==> s[i] == t[i];
    assert WordBoundary(s, WithoutLastWord(s), |t|);
  }

  /** There is only one way to delete the last word. */
  lemma WordDeletionUnique(s: string, a: string, b: string)
    requires LastWordDeleted(s, a) && LastWordDeleted(s, b)
    ensures a == b
  {
    var m: nat :| WordBoundary(s, a, m);
    var k: nat :| WordBoundary(s, b, k);
    assert m == k;
    assert a != "" ==> s[|a| - 1] == ' ';
    assert b != "" ==> s[|b| - 1] == ' ';
  }

  /** One key in the shell's own editor. Keys the tracker does not know may do anything. */
  ghost predicate EditorStep(printable: char -> bool, before: string, c: char, after: string) {
    if c in "\r\n\U{03}\U{15}" then after == ""
    else if c in "\U{7F}\U{08}" then after == if before == "" then "" else before[..|before| - 1]
    else if c == '\U{0C}' then after == before
    else if c == '\U{17}' then LastWordDeleted(before, after)
    else printable(c) ==> after == before + [c]
  }

  /** `buffers[i]` is the true edit line before key `i`. */
  ghost predicate EditorRun(printable: char -> bool, data: string, buffers: seq<string>) {
    |buffers| == |data| + 1
    && forall i :: 0 <= i < |data| ==> EditorStep(printable, buffers[i], data[i], buffers[i + 1])
  }

  function State(printable: char -> bool, t: Tracker, data: string, i: nat): Tracker
    requires i <= |data|
  {
    if i == 0 then t else Press(printable, State(printable, t, data, i - 1), data[i - 1]).0
  }

  predicate Truthful(t: Tracker, buffer: string) { t.valid ==> t.line == buffer }

  lemma PressIsTruthful(printable: char -> bool, t: Tracker, c: char, before: string, after: string)
    requires Truthful(t, before) && EditorStep(printable, before, c, after)
    ensures Truthful(Press(printable, t, c).0, after)
    ensures Press(printable, t, c).1.Some? ==> Press(printable, t, c).1.value == before
  {
    hide LastWordDeleted, WithoutLastWord;
    if KeyOf(printable, c) == EraseWord && t.valid {
      WordDeletion(before);
      WordDeletionUnique(before, WithoutLastWord(before), after);
    }
  }

  /**
   * Over every run of the editor, whatever it does on keys the tracker does not model: a valid
   * tracker shows the true edit line, and every committed line was the true edit line.
   */
  lemma {:induction false} TrackerIsSound(printable: char -> bool, t: Tracker, data: string, buffers: seq<string>,
    i: nat)
    requires EditorRun(printable, data, buffers) && Truthful(t, buffers[0]) && i <= |data|
    ensures Truthful(State(printable, t, data, i), buffers[i])
    ensures i < |data| ==>
              var p := Press(printable, State(printable, t, data, i), data[i]); p.1.Some? ==> p.1.value == buffers[i]
  {
    hide Press, EditorStep;
    if i > 0 {
      TrackerIsSound(printable, t, data, buffers, i - 1);
      PressIsTruthful(printable, State(printable, t, data, i - 1), data[i - 1], buffers[i - 1], buffers[i]);
    }
    if i < |data| {
      PressIsTruthful(printable, State(printable, t, data, i), data[i], buffers[i], buffers[i + 1]);
    }
  }

  lemma {:induction false} FeedReachesState(printable: char -> bool, t: Tracker, data: string)
    ensures Feed(printable, t, data).0 == State(printable, t, data, |data|)
    decreases |data|
  {
    hide Press;
    if data != "" {
      var n := |data| - 1;
      FeedReachesState(printable, t, data[..n]);
      FeedAppend(printable, t, data[..n], [data[n]]);
      assert data == data[..n] + [data[n]];
      StatePrefix(printable, t, data[..n], [data[n]], n);
      assert Feed(printable, State(printable, t, data, n), [data[n]]).0
        == Press(printable, State(printable, t, data, n), data[n]).0;
    }
  }

  lemma {:induction false} StatePrefix(printable: char -> bool, t: Tracker, a: string, b: string, i: nat)
    requires i <= |a|
    ensures State(printable, t, a + b, i) == State(printable, t, a, i)
  {
    hide Press;
    if i > 0 { StatePrefix(printable, t, a, b, i - 1); }
  }

  /** Feeding a whole run in one call, the tracker ends truthful. */
  lemma FeedIsSound(printable: char -> bool, data: string, buffers: seq<string>)
    requires EditorRun(printable, data, buffers) && buffers[0] == ""
    ensures Truthful(Feed(printable, START, data).0, buffers[|data|])
  {
    hide EditorRun, Feed, State;
    assert |buffers| == |data| + 1 by { RunLength(printable, data, buffers); }
    TrackerIsSound(printable, START, data, buffers, |data|);
    FeedReachesState(printable, START, data);
  }

  lemma RunLength(printable: char -> bool, data: string, buffers: seq<string>)
    requires EditorRun(printable, data, buffers)
    ensures |buffers| == |data| + 1
  {
  }

  // ---------------------------------------------------------------- the tracker object

  class LineTracker {
    const printable: char -> bool
    var line: string
    var valid: bool

    ghost function Value(): Tracker
      reads this
    {
      Tracker(line, valid)
    }

    constructor (p: char -> bool)
      ensures printable == p && Value() == START
    {
      printable, line, valid := p, "", true;
    }

    method FeedInput(data: string) returns (committed: Option<string>)
      modifies this`line, this`valid
      ensures (Value(), committed) == Feed(printable, old(Value()), data)
    {
      hide Press, Feed;
      committed := None;
      FeedNothing(printable, Value());
      assert data[..0] == "";
      for i := 0 to |data|
        invariant (Value(), committed) == Feed(printable, old(Value()), data[..i])
      {
        assert data[..i + 1] == data[..i] + [data[i]];
        FeedAppend(printable, old(Value()), data[..i], [data[i]]);
        FeedOne(printable, Value(), data[i]);
        var entered := PressKey(data[i]);
        if entered.Some? {
          committed := entered;
        }
      }
      assert data[..|data|] == data;
    }

    /** One turn of the loop. */
    method PressKey(c: char) returns (committed: Option<string>)
      modifies this`line, this`valid
      ensures (Value(), committed) == Press(printable, old(Value()), c)
    {
      committed := None;
      if c == '\r' || c == '\n' {
        if valid && Strip(line) != "" {
          committed := Some(line);
        }
        line, valid := "", true;
      } else if c == BACKSPACE || c == CTRL_H {
        line := if line == "" then "" else line[..|line| - 1];
      } else if c == CTRL_C || c == CTRL_U {
        line, valid := "", true;
      } else if c == CTRL_L {
      } else if c == CTRL_W {
        var stripped := TrimSpaces(line);
        line := stripped[..AfterLastSpace(stripped)];
      } else if printable(c) {
        line := line + [c];
      } else {
        line, valid := "", false;
      }
    }
  }

  lemma FeedNothing(printable: char -> bool, t: Tracker)
    ensures Feed(printable, t, "") == (t, None)
  {
  }

  lemma FeedOne(printable: char -> bool, t: Tracker, c: char)
    ensures Feed(printable, t, [c]) == Press(printable, t, c)
  {
    assert [c][1..] == "";
  }
}
