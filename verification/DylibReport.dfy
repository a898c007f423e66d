/** What the report of a closing pass says, entry by entry, told by the references in the order they were handled. */
module DylibReport {
  import opened Text
  import opened DylibClosure

  /** Step `i` put the library that its reference names into the bundle. */
  predicate SuppliedBy(start: set<Path>, log: seq<Step>, i: nat)
    requires i < |log|
  {
    Basename(log[i].ref) !in PresentAfter(start, log[..i]) && Basename(log[i].ref) in PresentAfter(start, log[..i + 1])
  }

  /** The entry a step makes if it makes one. */
  function Entry(s: Step): (string, string) { (s.binary.name, s.ref) }

  /** The reference of step `i` is one to look after, and its library was missing. */
  predicate WasMissing(start: set<Path>, log: seq<Step>, i: nat)
    requires i < |log|
  {
    !Skipped(log[i].binary.name, log[i].ref) && Basename(log[i].ref) !in PresentAfter(start, log[..i])
  }

  predicate Supply(m: Machine, r: string) { IsCopyable(r) && Source(m, r).Some? }

  /** The reference must lead to the root: a build-machine path to a file there, or a library just supplied. */
  predicate MustMove(start: set<Path>, log: seq<Step>, i: nat)
    requires i < |log|
  {
    var s := log[i];
    && !Skipped(s.binary.name, s.ref) && !IsTarget(s.binary, s.ref)
    && (SuppliedBy(start, log, i) || (IsAbsolute(s.ref) && Basename(s.ref) in RootAfter(start, log[..i])))
  }

  lemma ReportStep(log: seq<Step>, i: nat)
    requires i < |log|
    ensures ReportOf(log[..i + 1]) == Noted(ReportOf(log[..i]), log[i])
  {
    hide Noted;
    assert log[..i + 1][..i] == log[..i] && log[..i + 1][i] == log[i];
  }

  /** A library is in the bundle after a step, and was not before, exactly when the step supplied it. */
  lemma SuppliedIs(m: Machine, start: set<Path>, log: seq<Step>, i: nat)
    requires i < |log| && Right(m, PresentAfter(start, log[..i]), RootAfter(start, log[..i]), log[i])
    ensures log[i].verdict == Supplied <==> SuppliedBy(start, log, i)
  {
    ReportStep(log, i);
    hide ReportOf, Skipped, IsCopyable, Source, Basename, Names, RootNames;
  }

  lemma MissingIs(m: Machine, start: set<Path>, log: seq<Step>, i: nat)
    requires i < |log| && Right(m, PresentAfter(start, log[..i]), RootAfter(start, log[..i]), log[i])
    ensures var r, v, missing := log[i].ref, log[i].verdict, WasMissing(start, log, i);
      && (v == Supplied <==> missing && Supply(m, r))
      && (v == Unsupplied <==> missing && IsCopyable(r) && Source(m, r).None?)
      && (v == Unfixable <==> missing && !IsCopyable(r))
  {
    hide ReportOf, Skipped, IsCopyable, Source, Basename, Names, RootNames;
  }

  lemma MovesIs(m: Machine, start: set<Path>, log: seq<Step>, i: nat)
    requires i < |log| && Right(m, PresentAfter(start, log[..i]), RootAfter(start, log[..i]), log[i])
    ensures Moves(log[i]) <==> MustMove(start, log, i)
  {
    SuppliedIs(m, start, log, i);
    RootsArePresent(start, log[..i]);
    if IsAbsolute(log[i].ref) { AbsoluteIsNoTarget(log[i].binary, log[i].ref); }
    hide PresentAfter, RootAfter, Skipped, IsCopyable, Source, Basename, IsTarget, IsAbsolute, SuppliedBy;
  }

  /** What a verdict means. */
  lemma VerdictIs(m: Machine, start: set<Path>, report: Report, log: seq<Step>, i: nat)
    requires Logged(m, start, report, log) && i < |log|
    ensures var r, v, missing := log[i].ref, log[i].verdict, WasMissing(start, log, i);
      && (v == Supplied <==> SuppliedBy(start, log, i))
      && (v == Supplied <==> missing && Supply(m, r))
      && (v == Unsupplied <==> missing && IsCopyable(r) && Source(m, r).None?)
      && (v == Unfixable <==> missing && !IsCopyable(r))
      && (Moves(log[i]) <==> MustMove(start, log, i))
  {
    hide Right, WasMissing, SuppliedBy, MustMove, Moves, Supply, IsCopyable, Source, ReportOf, PresentAfter, RootAfter;
    SuppliedIs(m, start, log, i);
    MissingIs(m, start, log, i);
    MovesIs(m, start, log, i);
  }

  lemma RootsArePresent(start: set<Path>, log: seq<Step>)
    ensures RootAfter(start, log) <= PresentAfter(start, log)
  {
    hide ReportOf;
  }

  /** The step puts the reference into `rewritten`. */
  predicate Moves(s: Step) { s.verdict == Redirected || (s.verdict == Supplied && !IsTarget(s.binary, s.ref)) }

  lemma NotedHas(r: Report, s: Step, e: (string, string), n: string)
    ensures var c, v := Noted(r, s), s.verdict;
      && (e in c.rewritten <==> e in r.rewritten || (e == Entry(s) && Moves(s)))
      && (e in c.unresolved <==> e in r.unresolved || (e == Entry(s) && v == Unsupplied))
      && (e in c.warnings <==> e in r.warnings || (e == Entry(s) && v == Unfixable))
      && (n in c.copied <==> n in r.copied || (n == Basename(s.ref) && v == Supplied))
  {
    hide IsTarget, Basename;
  }

  /** Some step makes the entry, with one of the verdicts. */
  predicate Made(log: seq<Step>, e: (string, string), p: Step -> bool) {
    exists i :: 0 <= i < |log| && Entry(log[i]) == e && p(log[i])
  }

  predicate Named(log: seq<Step>, n: string) {
    exists i :: 0 <= i < |log| && Basename(log[i].ref) == n && log[i].verdict == Supplied
  }

  lemma MadeMore(log: seq<Step>, s: Step, e: (string, string), p: Step -> bool)
    ensures Made(log + [s], e, p) <==> Made(log, e, p) || (e == Entry(s) && p(s))
  {
    hide Entry;
    var all := log + [s];
    assert all[|log|] == s && forall i :: 0 <= i < |log| ==> all[i] == log[i];
  }

  lemma NamedMore(log: seq<Step>, s: Step, n: string)
    ensures Named(log + [s], n) <==> Named(log, n) || (n == Basename(s.ref) && s.verdict == Supplied)
  {
    hide Basename;
    var all := log + [s];
    assert all[|log|] == s && forall i :: 0 <= i < |log| ==> all[i] == log[i];
  }

  /** Every entry of the report was made by some step. */
  lemma {:induction false} EntriesOf(log: seq<Step>, e: (string, string), n: string)
    ensures var r := ReportOf(log);
      && (e in r.rewritten <==> Made(log, e, Moves))
      && (e in r.unresolved <==> Made(log, e, (s: Step) => s.verdict == Unsupplied))
      && (e in r.warnings <==> Made(log, e, (s: Step) => s.verdict == Unfixable))
      && (n in r.copied <==> Named(log, n))
    decreases |log|
  {
    if log != [] {
      hide Basename, Noted, Moves, Entry, Made, Named;
      var front, s := log[..|log| - 1], log[|log| - 1];
      assert log == front + [s];
      EntriesOf(front, e, n);
      NotedHas(ReportOf(front), s, e, n);
      MadeMore(front, s, e, Moves);
      MadeMore(front, s, e, (s: Step) => s.verdict == Unsupplied);
      MadeMore(front, s, e, (s: Step) => s.verdict == Unfixable);
      NamedMore(front, s, n);
    }
  }

  /**
   * The report, entry by entry. A reference is in `rewritten` exactly when it is not the target already
   * and is a build-machine path to a file that is at the root by then, or names a library that it made
   * the pass supply; in `unresolved` and `warnings` exactly when its library was missing and cannot be
   * found, or cannot be supplied as a file; and a library was copied exactly when it was missing and can.
   */
  lemma ReportExactly(m: Machine, start: set<Path>, report: Report, log: seq<Step>, e: (string, string), n: string)
    requires Logged(m, start, report, log)
    ensures e in report.rewritten <==> exists i: nat :: i < |log| && Entry(log[i]) == e && MustMove(start, log, i)
    ensures e in report.unresolved <==> exists i: nat ::
      i < |log| && Entry(log[i]) == e && WasMissing(start, log, i) && IsCopyable(e.1) && Source(m, e.1).None?
    ensures e in report.warnings <==> exists i: nat ::
      i < |log| && Entry(log[i]) == e && WasMissing(start, log, i) && !IsCopyable(e.1)
    ensures n in report.copied <==> exists i: nat ::
      i < |log| && Basename(log[i].ref) == n && WasMissing(start, log, i) && Supply(m, log[i].ref)
  {
    hide Basename, ReportOf, WasMissing, SuppliedBy, MustMove, IsCopyable, Source, IsTarget, Supply, Right,
      PresentAfter, RootAfter;
    EntriesOf(log, e, n);
    forall i: nat | i < |log|
      ensures Moves(log[i]) <==> MustMove(start, log, i)
      ensures log[i].verdict == Unsupplied
        <==> WasMissing(start, log, i) && IsCopyable(log[i].ref) && Source(m, log[i].ref).None?
      ensures log[i].verdict == Unfixable <==> WasMissing(start, log, i) && !IsCopyable(log[i].ref)
      ensures log[i].verdict == Supplied <==> WasMissing(start, log, i) && Supply(m, log[i].ref)
    {
      VerdictIs(m, start, report, log, i);
    }
  }

  /**
   * A library that was copied was missing when some reference asked for it, that reference made the
   * pass supply it, and it was redirected to the copy unless it led there already.
   */
  lemma CopiedIsRedirected(m: Machine, start: set<Path>, report: Report, log: seq<Step>, n: string)
    requires Logged(m, start, report, log) && n in report.copied
    ensures exists i: nat ::
      i < |log| && Basename(log[i].ref) == n && SuppliedBy(start, log, i)
      && (Entry(log[i]) in report.rewritten || IsTarget(log[i].binary, log[i].ref))
  {
    hide Basename, ReportOf, WasMissing, SuppliedBy, MustMove, IsTarget, Supply, Right, PresentAfter, RootAfter, Entry,
      Logged;
    ReportExactly(m, start, report, log, ("", ""), n);
    var i: nat :| i < |log| && Basename(log[i].ref) == n && WasMissing(start, log, i) && Supply(m, log[i].ref);
    VerdictIs(m, start, report, log, i);
    ReportExactly(m, start, report, log, Entry(log[i]), n);
  }

  /** Every reference of every walked binary is visited. */
  lemma {:induction false} VisitOf(m: Machine, order: seq<Path>, p: Path, r: string) returns (i: nat)
    requires p in order && m.deps(p).Some? && r in m.deps(p).value
    ensures i < |Visits(m, order)| && Visits(m, order)[i] == (p, r)
    decreases |order|
  {
    hide Visits, RefsOf;
    var k, q := |order| - 1, order[|order| - 1];
    assert order == order[..k] + [q];
    VisitsMore(m, order[..k], q);
    if p == q {
      var j: nat :| j < |m.deps(p).value| && m.deps(p).value[j] == r;
      RefAt(p, m.deps(p).value, j);
      i := |Visits(m, order[..k])| + j;
    } else {
      i := VisitOf(m, order[..k], p, r);
    }
  }

  /** Every reference of every walked binary was handled. */
  lemma EveryReferenceIsHandled(m: Machine, order: seq<Path>, log: seq<Step>, p: Path, r: string)
    requires Handles(log, Visits(m, order))
    requires p in order && m.deps(p).Some? && r in m.deps(p).value
    ensures exists i: nat :: i < |log| && log[i].binary == p && log[i].ref == r
  {
    hide Visits;
    var i := VisitOf(m, order, p, r);
    assert (log[i].binary, log[i].ref) == Visits(m, order)[i];
  }

  lemma RefAt(p: Path, deps: seq<string>, j: nat)
    requires j < |deps|
    ensures |RefsOf(p, deps)| == |deps| && RefsOf(p, deps)[j] == (p, deps[j])
  {
  }
}
