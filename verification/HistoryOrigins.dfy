/** Where history entries come from: the commands behind the shell's time stamps, and the fetch that brought them. */
module HistoryOrigins {
  import opened Text
  import opened SessionHistory
  import opened RemoteHistory

  // ---------------------------------------------------------------- time stamps

  predicate Number(s: string) { s != "" && forall i :: 0 <= i < |s| ==> IsDigit(s[i]) }

  /** A zsh history line: a start time, a duration and the command. */
  predicate Stamped(line: string, start: string, duration: string, rest: string) {
    line == ": " + start + ":" + duration + ";" + rest && Number(start) && Number(duration)
  }

  lemma {:induction false} DigitsIs(d: string, rest: string)
    requires (forall i :: 0 <= i < |d| ==> IsDigit(d[i])) && (rest != "" ==> !IsDigit(rest[0]))
    ensures Digits(d + rest) == |d|
    decreases |d|
  {
    if d == "" {
      assert d + rest == rest;
    } else {
      assert (d + rest)[0] == d[0] && (d + rest)[1..] == d[1..] + rest;
      DigitsIs(d[1..], rest);
    }
  }

  lemma {:induction false} DigitsAre(s: string)
    ensures forall i :: 0 <= i < Digits(s) ==> IsDigit(s[i])
  {
    if s != "" && IsDigit(s[0]) { DigitsAre(s[1..]); }
  }

  lemma StampedLength(line: string, start: string, duration: string, rest: string)
    requires Stamped(line, start, duration, rest)
    ensures StampLength(line) > 0 && line[StampLength(line)..] == rest
  {
    var tail := duration + (";" + rest);
    assert line[2..] == start + (":" + tail) && ": " <= line;
    DigitsIs(start, ":" + tail);
    var i := 2 + |start|;
    assert line[i] == ':' && line[i + 1..] == tail;
    DigitsIs(duration, ";" + rest);
    var j := i + 1 + |duration|;
    assert line[j] == ';' && line[j + 1..] == rest;
  }

  lemma StampParts(line: string) returns (start: string, duration: string, rest: string)
    requires StampLength(line) > 0
    ensures Stamped(line, start, duration, rest)
  {
    var d := Digits(line[2..]);
    var i := 2 + d;
    var e := Digits(line[i + 1..]);
    var j := i + 1 + e;
    DigitsAre(line[2..]);
    DigitsAre(line[i + 1..]);
    start, duration, rest := line[2..i], line[i + 1..j], line[j + 1..];
    assert line[2..][..d] == start && line[i + 1..][..e] == duration;
    hide Digits, StampLength;
    PartsJoin(line, i, j);
  }

  lemma PartsJoin(line: string, i: nat, j: nat)
    requires 2 <= i < j < |line| && ": " <= line && line[i] == ':' && line[j] == ';'
    ensures line == ": " + line[2..i] + ":" + line[i + 1..j] + ";" + line[j + 1..]
  {
    assert line[..2] == ": " && line[i..i + 1] == ":" && line[j..j + 1] == ";";
    assert line == line[..2] + line[2..i] + line[i..i + 1] + line[i + 1..j] + line[j..j + 1] + line[j + 1..];
  }

  /** The line is a time stamp with `rest` behind it. */
  ghost predicate Behind(line: string, rest: string) {
    exists start, duration :: Stamped(line, start, duration, rest)
  }

  lemma StampIs(line: string, rest: string)
    ensures Behind(line, rest) <==> StampLength(line) > 0 && rest == line[StampLength(line)..]
  {
    hide StampLength, Stamped;
    if Behind(line, rest) {
      var start, duration :| Stamped(line, start, duration, rest);
      StampedLength(line, start, duration, rest);
    }
    if StampLength(line) > 0 {
      var start, duration, behind := StampParts(line);
      StampedLength(line, start, duration, behind);
    }
  }

  /** The command of a history line is what stands behind its time stamp, or the line, without blanks around it. */
  lemma CommandIs(line: string, c: string)
    ensures Command(line) == c <==>
      if exists rest :: Behind(line, rest) then exists rest :: Behind(line, rest) && c == Strip(rest)
      else c == Strip(line)
  {
    hide Strip, StampLength, Behind;
    forall rest { StampIs(line, rest); }
    if StampLength(line) > 0 {
      assert Behind(line, line[StampLength(line)..]);
    } else {
      assert line[0..] == line;
    }
  }

  // ---------------------------------------------------------------- the shared cache

  /** The entries of a fetch that returned this text, or none. */
  function Entries(text: Option<string>): seq<string> {
    RecentFirst(SplitLines(if text.Some? then text.value else ""))
  }

  /** Some fetch for this host in the run returned these entries. */
  ghost predicate Brought(s: Shared, steps: seq<Step>, key: Key, entries: seq<string>)
    requires IsRun(s, steps)
    decreases |steps|
  {
    steps != []
    && (BringsNow(s, steps[0], key, entries) || Brought(Next(s, steps[0]), steps[1..], key, entries))
  }

  predicate BringsNow(s: Shared, a: Step, key: Key, entries: seq<string>) {
    a.Fetch? && a.tid in s.threads && s.threads[a.tid].key == key && entries == Entries(a.text)
  }

  /** The entries are cached already, or a thread is about to publish them. */
  ghost predicate AtHand(s: Shared, key: Key, entries: seq<string>) {
    || (key in s.cache && s.cache[key] == entries)
    || exists t :: Serves(s, t, key) && s.threads[t].phase == Fetched(entries)
  }

  lemma AtHandBefore(s: Shared, a: Step, key: Key, entries: seq<string>)
    requires Enabled(s, a) && AtHand(Next(s, a), key, entries)
    ensures AtHand(s, key, entries) || BringsNow(s, a, key, entries)
  {
    hide RecentFirst, SplitLines;
    var s' := Next(s, a);
    if !(key in s'.cache && s'.cache[key] == entries) {
      var t :| Serves(s', t, key) && s'.threads[t].phase == Fetched(entries);
      if a.Fetch? && a.tid == t { assert BringsNow(s, a, key, entries); } else { assert Serves(s, t, key); }
    } else if a.Publish? && s.threads[a.tid].key == key {
      assert Serves(s, a.tid, key);
    }
  }

  lemma {:induction false} AtHandWasBrought(s: Shared, steps: seq<Step>, key: Key, entries: seq<string>)
    requires IsRun(s, steps) && AtHand(After(s, steps), key, entries)
    ensures AtHand(s, key, entries) || Brought(s, steps, key, entries)
    decreases |steps|
  {
    hide AtHand, BringsNow, Next, Enabled;
    if steps != [] {
      AtHandWasBrought(Next(s, steps[0]), steps[1..], key, entries);
      if AtHand(Next(s, steps[0]), key, entries) { AtHandBefore(s, steps[0], key, entries); }
    }
  }

  /** In every run, what is cached for a host is what a fetch for that very host returned. */
  lemma CachedWasFetched(steps: seq<Step>, key: Key)
    requires IsRun(EMPTY, steps) && key in After(EMPTY, steps).cache
    ensures Brought(EMPTY, steps, key, After(EMPTY, steps).cache[key])
  {
    hide IsRun, After, Brought;
    var entries := After(EMPTY, steps).cache[key];
    assert forall t :: !Serves(EMPTY, t, key);
    AtHandWasBrought(EMPTY, steps, key, entries);
  }
}
