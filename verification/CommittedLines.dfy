/** Which lines the tracker commits, told by the keys and the true edit line. */
module CommittedLines {
  import opened Text
  import opened LineTracker

  /** Enter, Ctrl+C and Ctrl+U leave an empty edit line. */
  predicate Resets(c: char) { c in "\r\n\U{03}\U{15}" }

  /** The keys whose effect on the edit line is known. */
  predicate Known(printable: char -> bool, c: char) { Resets(c) || c in "\U{7F}\U{08}\U{0C}\U{17}" || printable(c) }

  /** Only known keys stand between key `i` and a reset before it, or between key `i` and a start in step. */
  ghost predicate InStep(printable: char -> bool, inStep: bool, data: string, i: nat)
    requires i <= |data|
  {
    exists j :: 0 <= j <= i && StepsFrom(printable, inStep, data, j, i)
  }

  predicate StepsFrom(printable: char -> bool, inStep: bool, data: string, j: nat, i: nat)
    requires j <= i <= |data|
  {
    (if j == 0 then inStep else Resets(data[j - 1])) && forall k :: j <= k < i ==> Known(printable, data[k])
  }

  /** The tracker is valid exactly while it is in step. */
  lemma {:induction false} ValidExactly(printable: char -> bool, t: Tracker, data: string, i: nat)
    requires i <= |data|
    ensures State(printable, t, data, i).valid <==> InStep(printable, t.valid, data, i)
  {
    if i == 0 {
      assert InStep(printable, t.valid, data, i) == StepsFrom(printable, t.valid, data, 0, 0);
    } else {
      ValidExactly(printable, t, data, i - 1);
      StepOn(printable, t.valid, data, i);
      PressValid(printable, State(printable, t, data, i - 1), data[i - 1]);
    }
  }

  lemma PressValid(printable: char -> bool, t: Tracker, c: char)
    ensures Press(printable, t, c).0.valid <==> Resets(c) || (Known(printable, c) && t.valid)
  {
    hide WithoutLastWord;
  }

  lemma StepOn(printable: char -> bool, inStep: bool, data: string, i: nat)
    requires 0 < i <= |data|
    ensures InStep(printable, inStep, data, i)
      <==> Resets(data[i - 1]) || (Known(printable, data[i - 1]) && InStep(printable, inStep, data, i - 1))
  {
    hide Resets, Known;
    if InStep(printable, inStep, data, i) {
      var j :| 0 <= j <= i && StepsFrom(printable, inStep, data, j, i);
      assert j < i ==> StepsFrom(printable, inStep, data, j, i - 1);
    }
    if Resets(data[i - 1]) {
      assert StepsFrom(printable, inStep, data, i, i);
    } else if Known(printable, data[i - 1]) && InStep(printable, inStep, data, i - 1) {
      var j :| 0 <= j <= i - 1 && StepsFrom(printable, inStep, data, j, i - 1);
      assert StepsFrom(printable, inStep, data, j, i);
    }
  }

  /** Key `i` is an Enter on a line that is known and not blank. */
  ghost predicate Commits(printable: char -> bool, inStep: bool, data: string, buffers: seq<string>, i: nat)
    requires i < |data| && i < |buffers|
  {
    (data[i] == '\r' || data[i] == '\n') && InStep(printable, inStep, data, i) && HasInk(buffers[i])
  }

  /** In every run, a key commits a line exactly if it is an Enter in step with a line that is not blank: that line. */
  lemma CommittedExactly(printable: char -> bool, t: Tracker, data: string, buffers: seq<string>, i: nat)
    requires EditorRun(printable, data, buffers) && Truthful(t, buffers[0]) && i < |data| && i < |buffers|
    ensures Press(printable, State(printable, t, data, i), data[i]).1
      == if Commits(printable, t.valid, data, buffers, i) then Some(buffers[i]) else None
  {
    hide EditorRun, InStep, HasInk, Strip, WithoutLastWord;
    ValidExactly(printable, t, data, i);
    TrackerIsSound(printable, t, data, buffers, i);
    if HasInk(buffers[i]) { InkNotBlank(buffers[i]); }
    if Strip(buffers[i]) != "" { NotBlankHasInk(buffers[i]); }
    hide State;
  }

  /** What feeding the first `n` keys returns, by the presses. */
  lemma {:induction false} FeedReturnsTheLast(printable: char -> bool, t: Tracker, data: string, n: nat)
    requires n <= |data|
    ensures n == 0 ==> Feed(printable, t, data[..n]).1.None?
    ensures n > 0 ==>
      var p := Press(printable, State(printable, t, data, n - 1), data[n - 1]).1;
      Feed(printable, t, data[..n]).1 == if p.Some? then p else Feed(printable, t, data[..n - 1]).1
  {
    hide Press;
    if n > 0 {
      var a := data[..n - 1];
      FeedReachesState(printable, t, a);
      assert data[..n] == a + [data[n - 1]];
      FeedAppend(printable, t, a, [data[n - 1]]);
      assert data == a + data[n - 1..];
      StatePrefix(printable, t, a, data[n - 1..], n - 1);
      FeedOne(printable, State(printable, t, data, n - 1), data[n - 1]);
    }
  }

  /** The call returns the line of the last key that commits one. */
  ghost predicate LastCommitted(printable: char -> bool, inStep: bool, data: string, buffers: seq<string>, n: nat,
    l: string)
    requires n <= |data| && n <= |buffers|
  {
    exists i :: 0 <= i < n && Commits(printable, inStep, data, buffers, i) && l == buffers[i]
      && forall j :: i < j < n ==> !Commits(printable, inStep, data, buffers, j)
  }

  lemma {:induction false} FedExactly(printable: char -> bool, t: Tracker, data: string, buffers: seq<string>, n: nat,
    l: string)
    requires EditorRun(printable, data, buffers) && Truthful(t, buffers[0]) && n <= |data| && n <= |buffers|
    ensures Feed(printable, t, data[..n]).1 == Some(l)
      <==> LastCommitted(printable, t.valid, data, buffers, n, l)
  {
    hide EditorRun, Commits, Feed, Press, State;
    FeedReturnsTheLast(printable, t, data, n);
    if n > 0 {
      FedExactly(printable, t, data, buffers, n - 1, l);
      CommittedExactly(printable, t, data, buffers, n - 1);
    }
  }
}
