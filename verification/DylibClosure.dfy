/** Closing the dylib dependency graph of the app bundle: a worklist that grows while it is walked. */
module DylibClosure {
  import opened Text

  /** A file below the Frameworks directory. */
  datatype Path = Path(dir: seq<string>, name: string)

  // ---------------------------------------------------------------- references

  predicate StartsWith(s: string, prefix: string) { prefix <= s }

  predicate EndsWith(s: string, suffix: string) {
    |s| >= |suffix| && s[|s| - |suffix|..] == suffix
  }

  predicate IsSystemReference(r: string) { StartsWith(r, "/usr/lib/") || StartsWith(r, "/System/") }

  predicate IsAbsolute(r: string) { StartsWith(r, "/") }

  predicate IsMachoName(n: string) { EndsWith(n, ".dylib") || EndsWith(n, ".so") }

  /** `os.path.basename` */
  function Basename(r: string): (b: string)
    ensures |b| <= |r| && b == r[|r| - |b|..] && '/' !in b
    ensures |b| < |r| ==> r[|r| - |b| - 1] == '/'
  {
    if r == "" || r[|r| - 1] == '/' then ""
    else
      var rest := Basename(r[..|r| - 1]);
      rest + [r[|r| - 1]]
  }

  function ReferenceTail(r: string): string {
    if StartsWith(r, "@rpath/") then r[7..]
    else if StartsWith(r, "@loader_path/") then r[13..]
    else if StartsWith(r, "@executable_path/") then r[17..]
    else r
  }

  predicate IsLeafReference(r: string) {
    ReferenceTail(r) != "" && '/' !in ReferenceTail(r) && !IsAbsolute(r)
  }

  /** A missing library this pass may supply by dropping a file at the root. */
  predicate IsCopyable(r: string) {
    IsLeafReference(r) || (IsAbsolute(r) && IsMachoName(Basename(r)))
  }

  /** The way up from the directory of a binary to the Frameworks directory. */
  function WayUp(depth: nat): string {
    if depth == 0 then "" else "../" + WayUp(depth - 1)
  }

  /** The `@loader_path` reference from `binary` to `name` at the root of Frameworks. */
  function LoaderPathReference(binary: Path, name: string): string {
    "@loader_path/" + WayUp(|binary.dir|) + name
  }

  /** Following a relative path from a directory, component by component. */
  function Follow(dir: seq<string>, rel: string): seq<string>
    decreases |rel|
  {
    var i := IndexOf(rel, '/');
    var first := rel[..i];
    var here := if first == ".." then (if dir == [] then [] else dir[..|dir| - 1]) else dir + [first];
    if i == |rel| then here else Follow(here, rel[i + 1..])
  }

  lemma {:induction false} FollowWayUp(dir: seq<string>, name: string)
    requires '/' !in name && name != ".."
    ensures Follow(dir, WayUp(|dir|) + name) == [name]
    decreases |dir|
  {
    var rel := WayUp(|dir|) + name;
    if dir == [] {
      assert rel == name;
      IndexOfIs(rel, '/', |rel|);
      assert rel[..|rel|] == name;
    } else {
      var rest := WayUp(|dir| - 1) + name;
      assert rel == "../" + rest;
      assert rel[0] == '.' && rel[1] == '.' && rel[2] == '/';
      IndexOfIs(rel, '/', 2);
      assert rel[..2] == ".." && rel[3..] == rest;
      FollowWayUp(dir[..|dir| - 1], name);
    }
  }

  /** A rewritten reference leads from the binary's own directory to the file at the root. */
  lemma LoaderPathResolves(binary: Path, name: string)
    requires '/' !in name && name != ".."
    ensures StartsWith(LoaderPathReference(binary, name), "@loader_path/")
    ensures Follow(binary.dir, LoaderPathReference(binary, name)[13..]) == [name]
  {
    var up := WayUp(|binary.dir|) + name;
    assert LoaderPathReference(binary, name) == "@loader_path/" + up;
    assert ("@loader_path/" + up)[13..] == up;
    FollowWayUp(binary.dir, name);
  }

  // ---------------------------------------------------------------- the pass

  /** What the build machine answers: dependencies of a binary, Homebrew lookups, existing files. */
  datatype Machine = Machine(deps: Path -> Option<seq<string>>, find: string -> Option<string>, isFile: string -> bool)

  datatype Report = Report(
    copied: seq<string>,
    rewritten: seq<(string, string)>,
    unresolved: seq<(string, string)>,
    warnings: seq<(string, string)>)

  /** The bundle and the report while the pass runs. */
  datatype Bundle = Bundle(files: set<Path>, present: set<string>, atRoot: set<string>, queue: seq<Path>,
    report: Report)

  function Names(files: set<Path>): set<string> { set p | p in files :: p.name }

  function RootNames(files: set<Path>): set<string> { set p | p in files && p.dir == [] :: p.name }

  function AtRoot(names: seq<string>): set<Path> { set n | n in names :: Path([], n) }

  /** The index by name is exact, and the copies are new files at the root, each made once. */
  predicate Consistent(start: set<Path>, b: Bundle) {
    && b.files == start + AtRoot(b.report.copied)
    && b.present == Names(b.files) && b.atRoot == RootNames(b.files)
    && Distinct(b.report.copied)
    && (forall n :: n in b.report.copied ==> n !in Names(start))
  }

  /** The library a reference of `binary` names is not one the bundle has to hold. */
  predicate Exempt(binary: Path, r: string) { Skipped(binary.name, r) }

  predicate Skipped(name: string, r: string) {
    IsSystemReference(r) || Basename(r) == "" || Basename(r) == name
  }

  /** A reference is satisfied by a bundled file, or the report says that it is not. */
  predicate Settled(b: Bundle, binary: Path, r: string) {
    || Exempt(binary, r)
    || Basename(r) in b.present
    || (binary.name, r) in b.report.unresolved
    || (binary.name, r) in b.report.warnings
  }

  /** No reference to a root library is left pointing at the build machine unreported. */
  predicate Relocated(b: Bundle, binary: Path, r: string) {
    IsAbsolute(r) && !Exempt(binary, r) && Basename(r) in b.atRoot ==>
      || (binary.name, r) in b.report.rewritten
      || (binary.name, r) in b.report.unresolved
      || (binary.name, r) in b.report.warnings
  }

  predicate Done(b: Bundle, binary: Path, r: string) { Settled(b, binary, r) && Relocated(b, binary, r) }

  /** Everything the build machine could ever supply. */
  predicate Supplies(m: Machine, universe: set<string>, r: string) {
    && (m.find(Basename(r)).Some? ==> Basename(r) in universe)
    && (m.isFile(r) ==> Basename(r) in universe)
  }

  /** Where a missing library comes from: the path itself, or Homebrew. */
  function Source(m: Machine, r: string): Option<string> {
    if IsAbsolute(r) && m.isFile(r) then Some(r) else m.find(Basename(r))
  }

  /** Some binary asks for the library `n`, and it can be supplied. */
  predicate Wanted(m: Machine, n: string, p: Path, r: string) {
    m.deps(p).Some? && r in m.deps(p).value && Basename(r) == n && IsCopyable(r) && Source(m, r).Some?
  }

  ghost predicate AskedFor(m: Machine, n: string) { exists p, r :: Wanted(m, n, p, r) }

  predicate MissingEverywhere(m: Machine, start: set<Path>, entries: seq<(string, string)>) {
    forall e :: e in entries ==>
      IsCopyable(e.1) && Source(m, e.1) == None && Basename(e.1) !in Names(start) && !Skipped(e.0, e.1)
  }

  predicate Structural(start: set<Path>, entries: seq<(string, string)>) {
    forall e :: e in entries ==> !IsCopyable(e.1) && Basename(e.1) !in Names(start) && !Skipped(e.0, e.1)
  }

  predicate ToRoot(entries: seq<(string, string)>, atRoot: set<string>) {
    forall e :: e in entries ==> Leads(e.1, atRoot) && !Skipped(e.0, e.1)
  }

  predicate Leads(r: string, names: set<string>) { Basename(r) in names }

  ghost predicate AllAskedFor(m: Machine, copied: seq<string>) { forall n :: n in copied ==> AskedFor(m, n) }

  /** Every entry of the report has its reason, and every copy was asked for. */
  ghost predicate Justified(m: Machine, start: set<Path>, b: Bundle) {
    && MissingEverywhere(m, start, b.report.unresolved)
    && Structural(start, b.report.warnings)
    && ToRoot(b.report.rewritten, b.atRoot)
    && AllAskedFor(m, b.report.copied)
  }

  /** One reference handled: at most one library copied, nothing taken out of the report. */
  predicate OneMore(b: Bundle, c: Bundle, universe: set<string>) {
    && b.report.rewritten <= c.report.rewritten
    && b.report.unresolved <= c.report.unresolved
    && b.report.warnings <= c.report.warnings
    && (|| (c.files == b.files && c.present == b.present && c.atRoot == b.atRoot
            && c.queue == b.queue && c.report.copied == b.report.copied)
        || (exists n :: n in universe - b.present && Copied(b, c, n)))
  }

  predicate Copied(b: Bundle, c: Bundle, n: string) {
    && c.files == b.files + {Path([], n)} && c.present == b.present + {n} && c.atRoot == b.atRoot + {n}
    && c.queue == b.queue + [Path([], n)] && c.report.copied == b.report.copied + [n]
  }

  // ---------------------------------------------------------------- the pass as a log

  /** What became of one reference. */
  datatype Verdict = Ignored | Left | Redirected | Supplied | Unsupplied | Unfixable

  datatype Step = Step(binary: Path, ref: string, verdict: Verdict)

  predicate IsTarget(binary: Path, r: string) { LoaderPathReference(binary, Basename(r)) == r }

  /** The report with one more step in it. */
  function Noted(report: Report, s: Step): Report {
    var e := (s.binary.name, s.ref);
    match s.verdict
    case Ignored | Left => report
    case Redirected => report.(rewritten := report.rewritten + [e])
    case Supplied =>
      report.(copied := report.copied + [Basename(s.ref)],
              rewritten := report.rewritten + if IsTarget(s.binary, s.ref) then [] else [e])
    case Unsupplied => report.(unresolved := report.unresolved + [e])
    case Unfixable => report.(warnings := report.warnings + [e])
  }

  function ReportOf(log: seq<Step>): Report {
    if log == [] then Report([], [], [], [])
    else Noted(ReportOf(log[..|log| - 1]), log[|log| - 1])
  }

  /** The verdict that the state of the bundle calls for. */
  predicate Right(m: Machine, present: set<string>, atRoot: set<string>, s: Step) {
    var r, name := s.ref, Basename(s.ref);
    match s.verdict
    case Ignored => Skipped(s.binary.name, r)
    case Left => !Skipped(s.binary.name, r) && name in present && !(IsAbsolute(r) && name in atRoot)
    case Redirected => !Skipped(s.binary.name, r) && name in present && IsAbsolute(r) && name in atRoot
    case Supplied => !Skipped(s.binary.name, r) && name !in present && IsCopyable(r) && Source(m, r).Some?
    case Unsupplied => !Skipped(s.binary.name, r) && name !in present && IsCopyable(r) && Source(m, r).None?
    case Unfixable => !Skipped(s.binary.name, r) && name !in present && !IsCopyable(r)
  }

  /** The names in the bundle, and at its root, once the steps are done. */
  function PresentAfter(start: set<Path>, log: seq<Step>): set<string> { Names(start) + SetOf(ReportOf(log).copied) }

  function RootAfter(start: set<Path>, log: seq<Step>): set<string> { RootNames(start) + SetOf(ReportOf(log).copied) }

  /** The log tells the report, and every verdict in it was right when it was given. */
  predicate Logged(m: Machine, start: set<Path>, report: Report, log: seq<Step>) {
    && report == ReportOf(log)
    && forall i :: 0 <= i < |log| ==> Right(m, PresentAfter(start, log[..i]), RootAfter(start, log[..i]), log[i])
  }

  function RefsOf(p: Path, deps: seq<string>): (r: seq<(Path, string)>)
    ensures |r| == |deps| && forall i :: 0 <= i < |deps| ==> r[i] == (p, deps[i])
  {
    if deps == [] then [] else [(p, deps[0])] + RefsOf(p, deps[1..])
  }

  /** The references of the binaries, one binary after the other. */
  function Visits(m: Machine, order: seq<Path>): seq<(Path, string)> {
    if order == [] then []
    else
      var p := order[|order| - 1];
      Visits(m, order[..|order| - 1]) + if m.deps(p).Some? then RefsOf(p, m.deps(p).value) else []
  }

  /** The steps handle these references, in this order. */
  predicate Handles(log: seq<Step>, refs: seq<(Path, string)>) {
    |log| == |refs| && forall i :: 0 <= i < |log| ==> (log[i].binary, log[i].ref) == refs[i]
  }

  lemma ConsistentSets(start: set<Path>, b: Bundle)
    requires Consistent(start, b)
    ensures b.present == Names(start) + SetOf(b.report.copied)
    ensures b.atRoot == RootNames(start) + SetOf(b.report.copied)
  {
    var copies := AtRoot(b.report.copied);
    assert Names(b.files) == Names(start) + Names(copies);
    assert RootNames(b.files) == RootNames(start) + RootNames(copies);
    forall n | n in SetOf(b.report.copied) ensures n in Names(copies) && n in RootNames(copies) {
      assert Path([], n) in copies;
    }
    assert Names(copies) == SetOf(b.report.copied);
    assert RootNames(copies) == SetOf(b.report.copied);
  }

  lemma LoggedNext(m: Machine, start: set<Path>, b: Bundle, log: seq<Step>, s: Step)
    requires Consistent(start, b) && Logged(m, start, b.report, log) && Right(m, b.present, b.atRoot, s)
    ensures Logged(m, start, Noted(b.report, s), log + [s])
  {
    ConsistentSets(start, b);
    hide Consistent, Right, Noted, Names, RootNames;
    var all := log + [s];
    assert all[..|log|] == log;
    forall i | 0 <= i < |log| ensures all[..i] == log[..i] && all[i] == log[i] {}
  }

  lemma AbsoluteIsNoLoaderPath(binary: Path, name: string, r: string)
    requires IsAbsolute(r)
    ensures LoaderPathReference(binary, name) != r
  {
    assert LoaderPathReference(binary, name)[0] == '@' && r[0] == '/';
  }

  function Warned(b: Bundle, e: (string, string)): (c: Bundle)
    ensures e in c.report.warnings && b.report.warnings <= c.report.warnings
    ensures c.report.warnings == b.report.warnings + [e]
    ensures forall x :: x in c.report.warnings ==> x in b.report.warnings || x == e
    ensures c == b.(report := b.report.(warnings := c.report.warnings))
  {
    b.(report := b.report.(warnings := b.report.warnings + [e]))
  }

  function Unresolved(b: Bundle, e: (string, string)): (c: Bundle)
    ensures e in c.report.unresolved && b.report.unresolved <= c.report.unresolved
    ensures c.report.unresolved == b.report.unresolved + [e]
    ensures forall x :: x in c.report.unresolved ==> x in b.report.unresolved || x == e
    ensures c == b.(report := b.report.(unresolved := c.report.unresolved))
  {
    b.(report := b.report.(unresolved := b.report.unresolved + [e]))
  }

  function Rewritten(b: Bundle, e: (string, string)): (c: Bundle)
    ensures e in c.report.rewritten && b.report.rewritten <= c.report.rewritten
    ensures forall x :: x in c.report.rewritten ==> x in b.report.rewritten || x == e
    ensures c == b.(report := b.report.(rewritten := c.report.rewritten))
  {
    b.(report := b.report.(rewritten := b.report.rewritten + [e]))
  }

  function CopiedIn(b: Bundle, name: string): (c: Bundle)
    ensures Copied(b, c, name) && c.report == b.report.(copied := c.report.copied)
  {
    Bundle(b.files + {Path([], name)}, b.present + {name}, b.atRoot + {name}, b.queue + [Path([], name)],
           b.report.(copied := b.report.copied + [name]))
  }

  /** Redirects a reference to the root copy when it is a build-machine path or was just supplied. */
  method Redirect(b: Bundle, binary: Path, r: string, wasMissing: bool) returns (c: Bundle)
    requires Basename(r) in b.present
    ensures Done(c, binary, r)
    ensures forall e :: e in c.report.rewritten ==>
              e in b.report.rewritten || (e == (binary.name, r) && Basename(r) in b.atRoot)
    ensures b.report.rewritten <= c.report.rewritten
    ensures c == b.(report := b.report.(rewritten := c.report.rewritten))
    ensures c.report.rewritten == b.report.rewritten
      + if (IsAbsolute(r) || wasMissing) && Basename(r) in b.atRoot && !IsTarget(binary, r) then [(binary.name, r)]
        else []
  {
    hide IsAbsolute, LoaderPathReference, Basename, Exempt;
    c := b;
    var name := Basename(r);
    if (IsAbsolute(r) || wasMissing) && name in b.atRoot {
      var target := LoaderPathReference(binary, name);
      if IsAbsolute(r) { AbsoluteIsNoLoaderPath(binary, name, r); }
      if target != r {
        c := Rewritten(b, (binary.name, r));
      }
    }
  }

  /** What has to be known of a reference to handle it. */
  predicate Listed(m: Machine, universe: set<string>, binary: Path, r: string) {
    Supplies(m, universe, r) && m.deps(binary).Some? && r in m.deps(binary).value
  }

  /** One reference of one binary handled, with a verdict that the bundle calls for and that the report tells. */
  ghost predicate Handled(
    m: Machine, universe: set<string>, start: set<Path>, b: Bundle, c: Bundle, binary: Path, r: string, v: Verdict)
  {
    && OneMore(b, c, universe) && Justified(m, start, c) && Done(c, binary, r)
    && Right(m, b.present, b.atRoot, Step(binary, r, v)) && c.report == Noted(b.report, Step(binary, r, v))
  }

  lemma PresentVerdict(m: Machine, b: Bundle, binary: Path, r: string, after: Report) returns (v: Verdict)
    requires !Skipped(binary.name, r) && Basename(r) in b.present
    requires after == b.report.(rewritten := b.report.rewritten
      + if IsAbsolute(r) && Basename(r) in b.atRoot && !IsTarget(binary, r) then [(binary.name, r)] else [])
    ensures Right(m, b.present, b.atRoot, Step(binary, r, v)) && after == Noted(b.report, Step(binary, r, v))
  {
    hide IsCopyable, Basename, IsTarget, IsAbsolute, Skipped, Source;
    if IsAbsolute(r) && Basename(r) in b.atRoot {
      v := Redirected;
      AbsoluteIsNoTarget(binary, r);
    } else {
      v := Left;
      assert b.report.rewritten + [] == b.report.rewritten;
    }
  }

  lemma RewritingIsOneMore(b: Bundle, c: Bundle, universe: set<string>)
    requires c == b.(report := b.report.(rewritten := c.report.rewritten))
    requires b.report.rewritten <= c.report.rewritten
    ensures OneMore(b, c, universe)
  {
  }

  /** A library that is in the bundle: the reference is redirected if it is a build-machine path to a root file. */
  method ProcessPresent(m: Machine, ghost universe: set<string>, ghost start: set<Path>, b: Bundle, binary: Path,
    r: string)
    returns (c: Bundle, ghost v: Verdict)
    requires Listed(m, universe, binary, r) && Consistent(start, b) && Justified(m, start, b)
    requires !Skipped(binary.name, r) && Basename(r) in b.present
    ensures Handled(m, universe, start, b, c, binary, r, v)
  {
    hide Consistent, Names, IsCopyable, Basename, Done, Justified, IsTarget, IsAbsolute, Skipped, Wanted, Source,
      Supplies, OneMore, Right, Noted;
    c := Redirect(b, binary, r, false);
    RewritingIsOneMore(b, c, universe);
    RedirectIsJustified(m, start, b, c, binary, r);
    v := PresentVerdict(m, b, binary, r, c.report);
  }

  /** A missing library that this pass can supply: it is copied to the root, and the reference redirected. */
  method SupplyLibrary(m: Machine, ghost universe: set<string>, ghost start: set<Path>, b: Bundle, binary: Path,
    r: string)
    returns (c: Bundle)
    requires Listed(m, universe, binary, r) && Consistent(start, b) && Justified(m, start, b)
    requires !Skipped(binary.name, r) && Basename(r) !in b.present && IsCopyable(r) && Source(m, r).Some?
    ensures Handled(m, universe, start, b, c, binary, r, Supplied)
  {
    hide Consistent, Names, IsCopyable, Basename, CopiedIn, Done, Wanted, Justified, Source, IsTarget, IsAbsolute,
      Skipped, Supplies, OneMore;
    var name := Basename(r);
    SourceIsInUniverse(m, universe, r);
    var d := CopiedIn(b, name);
    c := Redirect(d, binary, r, true);
    assert Copied(b, c, name);
    CopyIsOneMore(b, c, universe, name);
    IsWanted(m, binary, r);
    CopyIsJustified(m, start, b, c, name, binary, r);
  }

  lemma CopyIsOneMore(b: Bundle, c: Bundle, universe: set<string>, n: string)
    requires Copied(b, c, n) && n in universe && n !in b.present
    requires b.report.rewritten <= c.report.rewritten
    requires c.report.unresolved == b.report.unresolved && c.report.warnings == b.report.warnings
    ensures OneMore(b, c, universe)
  {
    hide Copied;
  }

  lemma WarningIsHandled(m: Machine, universe: set<string>, start: set<Path>, b: Bundle, p: Path, r: string)
    requires Consistent(start, b) && Justified(m, start, b)
    requires !Skipped(p.name, r) && Basename(r) !in b.present && !IsCopyable(r)
    ensures Handled(m, universe, start, b, Warned(b, (p.name, r)), p, r, Unfixable)
  {
    hide Consistent, Names, IsCopyable, Basename, Done, Justified, Skipped, Source, IsTarget, IsAbsolute;
    ConsistentNames(start, b);
    var c := Warned(b, (p.name, r));
    ReportedIsDone(c, p, r);
    WarningIsJustified(m, start, b, c, p, r);
  }

  lemma UnresolvedIsHandled(m: Machine, universe: set<string>, start: set<Path>, b: Bundle, p: Path, r: string)
    requires Consistent(start, b) && Justified(m, start, b)
    requires !Skipped(p.name, r) && Basename(r) !in b.present && IsCopyable(r) && Source(m, r) == None
    ensures Handled(m, universe, start, b, Unresolved(b, (p.name, r)), p, r, Unsupplied)
  {
    hide Consistent, Names, IsCopyable, Basename, Done, Justified, Skipped, Source, IsTarget, IsAbsolute;
    ConsistentNames(start, b);
    var c := Unresolved(b, (p.name, r));
    ReportedIsDone(c, p, r);
    UnresolvedIsJustified(m, start, b, c, p, r);
  }

  /** A library that is missing: structural, nowhere to be found, or supplied. */
  method ProcessMissing(m: Machine, ghost universe: set<string>, ghost start: set<Path>, b: Bundle, binary: Path,
    r: string)
    returns (c: Bundle, ghost v: Verdict)
    requires Listed(m, universe, binary, r) && Consistent(start, b) && Justified(m, start, b)
    requires !Skipped(binary.name, r) && Basename(r) !in b.present
    ensures Handled(m, universe, start, b, c, binary, r, v)
  {
    hide Consistent, IsCopyable, Basename, Justified, Source, Skipped, Listed, Handled;
    if !IsCopyable(r) {
      c, v := Warned(b, (binary.name, r)), Unfixable;
      WarningIsHandled(m, universe, start, b, binary, r);
      return;
    }
    if Source(m, r) == None {
      c, v := Unresolved(b, (binary.name, r)), Unsupplied;
      UnresolvedIsHandled(m, universe, start, b, binary, r);
      return;
    }
    c := SupplyLibrary(m, universe, start, b, binary, r);
    v := Supplied;
  }

  /** Handles one reference of one binary, in the order of checks of the pass. */
  method ProcessReference(m: Machine, ghost universe: set<string>, ghost start: set<Path>, b: Bundle, binary: Path,
    r: string)
    returns (c: Bundle, ghost v: Verdict)
    requires Listed(m, universe, binary, r) && Consistent(start, b) && Justified(m, start, b)
    ensures Handled(m, universe, start, b, c, binary, r, v)
  {
    hide Consistent, IsCopyable, IsSystemReference, Basename, Done, Justified, Source, IsTarget, IsAbsolute, Listed;
    var name := Basename(r);
    if IsSystemReference(r) || name == "" || name == binary.name {
      ExemptIsDone(b, binary, r);
      return b, Ignored;
    }
    if name in b.present {
      c, v := ProcessPresent(m, universe, start, b, binary, r);
    } else {
      c, v := ProcessMissing(m, universe, start, b, binary, r);
    }
  }

  lemma AbsoluteIsNoTarget(binary: Path, r: string)
    requires IsAbsolute(r)
    ensures !IsTarget(binary, r)
  {
    hide LoaderPathReference, IsAbsolute;
    AbsoluteIsNoLoaderPath(binary, Basename(r), r);
  }

  lemma SourceIsInUniverse(m: Machine, universe: set<string>, r: string)
    requires Supplies(m, universe, r) && Source(m, r).Some?
    ensures Basename(r) in universe
  {
    hide Basename;
  }

  lemma RedirectIsJustified(m: Machine, start: set<Path>, b: Bundle, c: Bundle, p: Path, r: string)
    requires Justified(m, start, b) && c == b.(report := b.report.(rewritten := c.report.rewritten))
      && !Skipped(p.name, r)
    requires forall e :: e in c.report.rewritten ==> e in b.report.rewritten || (e == (p.name, r) && Leads(r, b.atRoot))
    ensures Justified(m, start, c)
  {
    hide Basename, MissingEverywhere, Structural, AllAskedFor;
  }

  lemma WarningIsJustified(m: Machine, start: set<Path>, b: Bundle, c: Bundle, p: Path, r: string)
    requires Justified(m, start, b) && c == b.(report := b.report.(warnings := c.report.warnings))
    requires !IsCopyable(r) && Basename(r) !in Names(start) && !Skipped(p.name, r)
    requires forall e :: e in c.report.warnings ==> e in b.report.warnings || e == (p.name, r)
    ensures Justified(m, start, c)
  {
    hide IsCopyable, Basename, Names, MissingEverywhere, ToRoot, AllAskedFor;
  }

  lemma UnresolvedIsJustified(m: Machine, start: set<Path>, b: Bundle, c: Bundle, p: Path, r: string)
    requires Justified(m, start, b) && c == b.(report := b.report.(unresolved := c.report.unresolved))
    requires IsCopyable(r) && Source(m, r) == None && Basename(r) !in Names(start) && !Skipped(p.name, r)
    requires forall e :: e in c.report.unresolved ==> e in b.report.unresolved || e == (p.name, r)
    ensures Justified(m, start, c)
  {
    hide IsCopyable, Source, Basename, Names, Structural, ToRoot, AllAskedFor;
  }

  lemma IsWanted(m: Machine, p: Path, r: string)
    requires m.deps(p).Some? && r in m.deps(p).value && IsCopyable(r) && Source(m, r).Some?
    ensures Wanted(m, Basename(r), p, r)
  {
    hide IsCopyable, Source, Basename;
  }

  lemma AskedForGrows(m: Machine, copied: seq<string>, n: string, p: Path, r: string)
    requires AllAskedFor(m, copied) && Wanted(m, n, p, r)
    ensures AllAskedFor(m, copied + [n])
  {
    assert AskedFor(m, n);
    hide Wanted, AskedFor;
  }

  lemma ToRootGrows(a: seq<(string, string)>, b: seq<(string, string)>, before: set<string>, now: set<string>,
    e: (string, string))
    requires ToRoot(a, before) && before <= now && !Skipped(e.0, e.1)
    requires forall x :: x in b ==> x in a || (x == e && Leads(e.1, now))
    ensures ToRoot(b, now)
  {
    hide Skipped;
    forall x | x in b ensures Leads(x.1, now) && !Skipped(x.0, x.1) { assert x in a ==> Leads(x.1, before); }
  }

  lemma CopyIsJustified(m: Machine, start: set<Path>, b: Bundle, c: Bundle, n: string, p: Path, r: string)
    requires Justified(m, start, b) && Wanted(m, n, p, r) && !Skipped(p.name, r)
    requires c.report.copied == b.report.copied + [n] && c.atRoot == b.atRoot + {n}
    requires c.report.unresolved == b.report.unresolved && c.report.warnings == b.report.warnings
    requires forall e :: e in c.report.rewritten ==> e in b.report.rewritten || (e == (p.name, r) && Leads(r, c.atRoot))
    ensures Justified(m, start, c)
  {
    hide Wanted, MissingEverywhere, Structural, ToRoot, AllAskedFor, Leads;
    AskedForGrows(m, b.report.copied, n, p, r);
    ToRootGrows(b.report.rewritten, c.report.rewritten, b.atRoot, c.atRoot, (p.name, r));
  }

  lemma ConsistentNames(start: set<Path>, b: Bundle)
    requires Consistent(start, b)
    ensures b.atRoot <= b.present && Names(start) <= b.present
  {
    assert Names(start) <= Names(b.files);
  }

  lemma ExemptIsDone(b: Bundle, binary: Path, r: string)
    requires Exempt(binary, r)
    ensures Done(b, binary, r)
  {
    hide Exempt;
  }

  lemma ReportedIsDone(b: Bundle, binary: Path, r: string)
    requires (binary.name, r) in b.report.unresolved || (binary.name, r) in b.report.warnings
    ensures Done(b, binary, r)
  {
    hide Exempt;
  }

  /** What was settled stays settled, whatever is copied later. */
  lemma DoneStays(b: Bundle, c: Bundle, universe: set<string>, binary: Path, r: string)
    requires OneMore(b, c, universe) && Done(b, binary, r)
    ensures Done(c, binary, r)
  {
    hide Exempt, IsAbsolute, Basename;
  }

  lemma ConsistentStays(start: set<Path>, b: Bundle, c: Bundle, universe: set<string>)
    requires Consistent(start, b) && OneMore(b, c, universe)
    ensures Consistent(start, c) && b.present <= c.present && |universe - c.present| <= |universe - b.present|
    ensures c.report.copied != b.report.copied ==> |universe - c.present| < |universe - b.present|
    ensures c.report.copied == b.report.copied ==> c.queue == b.queue
    ensures forall p :: p in b.queue ==> p in c.queue
    ensures forall p :: p in AtRoot(c.report.copied) ==> p in AtRoot(b.report.copied) || p in c.queue
    ensures AtRoot(b.report.copied) <= AtRoot(c.report.copied)
    ensures forall p :: p in c.queue ==> p in b.queue || p in AtRoot(c.report.copied)
  {
    if c.report.copied != b.report.copied {
      var n :| n in universe - b.present && Copied(b, c, n);
      assert n in universe - b.present && n !in universe - c.present;
      assert universe - c.present == universe - b.present - {n};
      assert AtRoot(c.report.copied) == AtRoot(b.report.copied) + {Path([], n)};
      assert Names(c.files) == Names(b.files) + {n};
      assert RootNames(c.files) == RootNames(b.files) + {n};
      assert Path([], n) == c.queue[|b.queue|];
      assert Names(start) <= Names(b.files);
    } else {
      assert c.files == b.files;
    }
  }

  /** Every reference of a readable binary is settled. */
  predicate AllDone(m: Machine, b: Bundle, binary: Path) {
    m.deps(binary).Some? ==> forall r :: r in m.deps(binary).value ==> Done(b, binary, r)
  }

  lemma AllDoneStays(m: Machine, b: Bundle, c: Bundle, universe: set<string>, binary: Path)
    requires OneMore(b, c, universe) && AllDone(m, b, binary)
    ensures AllDone(m, c, binary)
  {
    hide OneMore, Done;
    if m.deps(binary).Some? {
      forall r | r in m.deps(binary).value ensures Done(c, binary, r) { DoneStays(b, c, universe, binary, r); }
    }
  }

  /** The binaries the pass has to walk, and no others: those in the bundle at first and every library it copied. */
  ghost predicate Covered(machos: seq<Path>, b: Bundle, seen: set<Path>) {
    forall p :: p in machos || p in AtRoot(b.report.copied) <==> p in seen || p in b.queue
  }

  predicate AllSeenDone(m: Machine, b: Bundle, seen: set<Path>) {
    forall p :: p in seen ==> AllDone(m, b, p)
  }

  /** The references of one binary, one after the other. */
  method ProcessBinary(m: Machine, ghost universe: set<string>, ghost start: set<Path>, ghost machos: seq<Path>,
                       ghost seen: set<Path>, ghost log: seq<Step>, b: Bundle, binary: Path)
    returns (c: Bundle, ghost longer: seq<Step>)
    requires Logged(m, start, b.report, log)
    ensures Logged(m, start, c.report, longer) && log <= longer
    ensures Handles(longer[|log|..], if m.deps(binary).Some? then RefsOf(binary, m.deps(binary).value) else [])
    requires Consistent(start, b) && Justified(m, start, b) && Covered(machos, b, seen)
      && AllSeenDone(m, b, seen - {binary})
    requires m.deps(binary).Some? ==> forall r :: r in m.deps(binary).value ==> Supplies(m, universe, r)
    ensures Consistent(start, c) && Justified(m, start, c) && Covered(machos, c, seen) && AllSeenDone(m, c, seen)
    ensures |universe - c.present| < |universe - b.present|
      || (|universe - c.present| == |universe - b.present| && c.queue == b.queue)
  {
    hide Consistent, Done, OneMore, Supplies, AtRoot, Justified, Logged, Right, Noted;
    c, longer := b, log;
    ghost var steps: seq<Step> := [];
    assert log + steps == log;
    if m.deps(binary) == None {
      assert longer[|log|..] == [];
      assert AllDone(m, c, binary);
      return;
    }
    var deps := m.deps(binary).value;
    for i := 0 to |deps|
      invariant Consistent(start, c) && Justified(m, start, c) && Covered(machos, c, seen)
        && AllSeenDone(m, c, seen - {binary})
      invariant forall j :: 0 <= j < i ==> Done(c, binary, deps[j])
      invariant Logged(m, start, c.report, log + steps) && |steps| == i
      invariant forall j :: 0 <= j < i ==> (steps[j].binary, steps[j].ref) == (binary, deps[j])
      invariant |universe - c.present| < |universe - b.present|
        || (|universe - c.present| == |universe - b.present| && c.queue == b.queue)
    {
      assert deps[i] in deps;
      var d, v := ProcessReference(m, universe, start, c, binary, deps[i]);
      LoggedNext(m, start, c, log + steps, Step(binary, deps[i], v));
      Regroup(log, steps, [Step(binary, deps[i], v)]);
      steps := steps + [Step(binary, deps[i], v)];
      ConsistentStays(start, c, d, universe);
      forall p | p in seen - {binary} ensures AllDone(m, d, p) { AllDoneStays(m, c, d, universe, p); }
      forall j | 0 <= j < i ensures Done(d, binary, deps[j]) { DoneStays(c, d, universe, binary, deps[j]); }
      c := d;
    }
    longer := log + steps;
    assert longer[|log|..] == steps;
  }

  /**
   * Closing the graph. `universe` is what the build machine can supply at all; it only has to be
   * finite for the pass to end, whatever cycles the dependencies form.
   */
  method CloseDylibGraph(m: Machine, ghost universe: set<string>, start: set<Path>, machos: seq<Path>)
    returns (b: Bundle, ghost order: seq<Path>, ghost log: seq<Step>)
    requires forall p, r :: m.deps(p).Some? && r in m.deps(p).value ==> Supplies(m, universe, r)
    ensures Consistent(start, b) && Justified(m, start, b)
    ensures forall p :: p in machos || p in AtRoot(b.report.copied) ==> AllDone(m, b, p)
    ensures forall p :: p in order <==> p in machos || p in AtRoot(b.report.copied)
    ensures forall i, j :: 0 <= i < j < |order| ==> order[i] != order[j]
    ensures Logged(m, start, b.report, log) && Handles(log, Visits(m, order))
  {
    hide Consistent, AllDone, Supplies, AtRoot, Justified, Logged;
    b := Bundle(start, Names(start), RootNames(start), machos, Report([], [], [], []));
    StartIsConsistent(m, start, machos);
    var seen: set<Path> := {};
    order, log := [], [];
    assert Logged(m, start, b.report, log) by { NothingLogged(m, start); }
    while b.queue != []
      invariant Consistent(start, b) && Justified(m, start, b) && Covered(machos, b, seen) && AllSeenDone(m, b, seen)
      invariant forall p :: p in order <==> p in seen
      invariant forall i, j :: 0 <= i < j < |order| ==> order[i] != order[j]
      invariant Logged(m, start, b.report, log) && Handles(log, Visits(m, order))
      decreases |universe - b.present|, |b.queue|
    {
      var binary, rest := b.queue[0], b.queue[1..];
      assert forall p :: p in b.queue ==> p == binary || p in rest;
      var c := b.(queue := rest);
      QueueDoesNotMatter(start, m, b, c, seen);
      if binary !in seen {
        seen := seen + {binary};
        assert seen - {binary} <= seen;
        ghost var longer;
        c, longer := ProcessBinary(m, universe, start, machos, seen, log, c, binary);
        HandlesMore(m, order, binary, log, longer);
        order, log := order + [binary], longer;
      }
      b := c;
    }
  }

  lemma NothingLogged(m: Machine, start: set<Path>)
    ensures Logged(m, start, Report([], [], [], []), [])
  {
  }

  lemma HandlesMore(m: Machine, order: seq<Path>, p: Path, log: seq<Step>, longer: seq<Step>)
    requires Handles(log, Visits(m, order)) && log <= longer
    requires Handles(longer[|log|..], if m.deps(p).Some? then RefsOf(p, m.deps(p).value) else [])
    ensures Handles(longer, Visits(m, order + [p]))
  {
    VisitsMore(m, order, p);
    hide Visits, RefsOf;
    HandlesAppend(log, longer[|log|..], Visits(m, order), if m.deps(p).Some? then RefsOf(p, m.deps(p).value) else []);
    assert longer == log + longer[|log|..];
  }

  lemma HandlesAppend(a: seq<Step>, b: seq<Step>, refs: seq<(Path, string)>, more: seq<(Path, string)>)
    requires Handles(a, refs) && Handles(b, more)
    ensures Handles(a + b, refs + more)
  {
  }

  lemma VisitsMore(m: Machine, order: seq<Path>, p: Path)
    ensures Visits(m, order + [p])
      == Visits(m, order) + if m.deps(p).Some? then RefsOf(p, m.deps(p).value) else []
  {
    hide RefsOf;
    assert (order + [p])[..|order|] == order;
  }

  lemma StartIsConsistent(m: Machine, start: set<Path>, machos: seq<Path>)
    ensures Consistent(start, Bundle(start, Names(start), RootNames(start), machos, Report([], [], [], [])))
    ensures Justified(m, start, Bundle(start, Names(start), RootNames(start), machos, Report([], [], [], [])))
    ensures AtRoot([]) == {}
  {
    assert AtRoot([]) == {};
  }

  lemma QueueDoesNotMatter(start: set<Path>, m: Machine, b: Bundle, c: Bundle, seen: set<Path>)
    requires Consistent(start, b) && Justified(m, start, b) && AllSeenDone(m, b, seen) && c == b.(queue := c.queue)
    ensures Consistent(start, c) && Justified(m, start, c) && AllSeenDone(m, c, seen)
  {
    hide Exempt, IsAbsolute, Basename, IsCopyable, Source, AskedFor;
    forall p | p in seen ensures AllDone(m, c, p) {
      assert AllDone(m, b, p);
      if m.deps(p).Some? {
        forall r | r in m.deps(p).value ensures Done(c, p, r) { assert Done(b, p, r); }
      }
    }
  }

  // ---------------------------------------------------------------- what a closed bundle means

  /**
   * With nothing reported, every library that a walked binary names - system libraries and the
   * binary itself aside - is a file of the bundle.
   */
  lemma CleanReportMeansClosed(m: Machine, b: Bundle, p: Path, r: string)
    requires AllDone(m, b, p) && m.deps(p).Some? && r in m.deps(p).value
    requires b.report.unresolved == [] && b.report.warnings == []
    ensures Exempt(p, r) || Basename(r) in b.present
    ensures IsAbsolute(r) && !Exempt(p, r) && Basename(r) in b.atRoot ==> (p.name, r) in b.report.rewritten
  {
    hide Exempt, IsAbsolute, Basename;
    assert Done(b, p, r);
  }

  /** The bundle holds the library below its root, and not at it. */
  predicate OnlyNested(start: set<Path>, n: string) { n in Names(start) && n !in RootNames(start) }

  lemma NestedStays(start: set<Path>, b: Bundle, n: string)
    requires Consistent(start, b)
    ensures n in b.present && n !in b.atRoot <==> OnlyNested(start, n)
  {
    if n in b.present && n !in b.atRoot {
      var f :| f in b.files && f.name == n;
      assert f.dir != [];
    }
    if OnlyNested(start, n) {
      var f :| f in start && f.name == n;
      assert forall g :: g in start && g.dir == [] ==> g.name in RootNames(start);
    }
  }

  /**
   * Which absolute paths of the build machine stay in a walked binary, neither rewritten nor
   * reported: those without a base name, those with the binary's own, and those whose library the
   * bundle held from the start, but only below its root.
   */
  lemma AbsoluteSurvivesExactly(m: Machine, start: set<Path>, b: Bundle, p: Path, r: string)
    requires Consistent(start, b) && Justified(m, start, b) && Done(b, p, r) && IsAbsolute(r) && !IsSystemReference(r)
    ensures (p.name, r) !in b.report.rewritten && (p.name, r) !in b.report.unresolved
      && (p.name, r) !in b.report.warnings
      <==> Basename(r) == "" || Basename(r) == p.name || OnlyNested(start, Basename(r))
  {
    NestedStays(start, b, Basename(r));
    hide IsAbsolute, Basename, IsCopyable, Source, AskedFor, OnlyNested, IsSystemReference, Consistent;
    ConsistentNames(start, b);
    hide Names;
    assert (p.name, r).0 == p.name && (p.name, r).1 == r;
  }

  /** A path below `/opt/` names its library. */
  lemma OptPath(n: string)
    requires n != "" && '/' !in n
    ensures var r := "/opt/" + n; IsAbsolute(r) && !IsSystemReference(r) && Basename(r) == n
  {
    var r := "/opt/" + n;
    assert r[0] == '/' && r[1] == 'o' && r[4] == '/' && r[5..] == n;
    assert "/usr/lib/"[1] == 'u' && "/System/"[1] == 'S';
    BasenameIs(r, 5);
  }

  /**
   * A binary that names `/opt/n`, whether `n` is its own name or lies nested in the bundle: every
   * outcome of the pass leaves the path in place, unreported.
   */
  lemma BuildPathSurvives(m: Machine, start: set<Path>, b: Bundle, p: Path, n: string)
    requires n != "" && '/' !in n && (n == p.name || OnlyNested(start, n))
    requires Consistent(start, b) && Justified(m, start, b) && Done(b, p, "/opt/" + n)
    ensures var e := (p.name, "/opt/" + n);
      e !in b.report.rewritten && e !in b.report.unresolved && e !in b.report.warnings
  {
    hide *;
    OptPath(n);
    AbsoluteSurvivesExactly(m, start, b, p, "/opt/" + n);
  }

  /** A copy never lands on a file that was there, and no library is copied twice. */
  lemma CopiesAreNew(start: set<Path>, b: Bundle)
    requires Consistent(start, b)
    ensures forall n :: n in b.report.copied ==> Path([], n) !in start && Path([], n) in b.files
    ensures |b.files| == |start| + |b.report.copied|
  {
    forall n | n in b.report.copied ensures Path([], n) !in start && Path([], n) in b.files {
      assert forall p :: p in start ==> p.name in Names(start);
      assert Path([], n) in AtRoot(b.report.copied);
    }
    DistinctCount(b.report.copied);
    assert start !! AtRoot(b.report.copied);
  }

  lemma {:induction false} DistinctCount(names: seq<string>)
    requires Distinct(names)
    ensures |AtRoot(names)| == |names|
  {
    if names == [] {
      assert AtRoot(names) == {};
    } else {
      var n := |names| - 1;
      DistinctCount(names[..n]);
      assert forall x :: x in names[..n] ==> x != names[n];
      assert names == names[..n] + [names[n]];
      assert AtRoot(names) == AtRoot(names[..n]) + {Path([], names[n])};
    }
  }

  /** A leaf reference names its library by its whole tail. */
  lemma LeafNamesItsTail(r: string)
    requires IsLeafReference(r)
    ensures Basename(r) == ReferenceTail(r)
  {
    var t := ReferenceTail(r);
    var n := |r| - |t|;
    assert r == r[..n] + t;
    assert n > 0 ==> r[n - 1] == '/' by {
      if n == 7 { assert r[6] == "@rpath/"[6]; }
      if n == 13 { assert r[12] == "@loader_path/"[12]; }
      if n == 17 { assert r[16] == "@executable_path/"[16]; }
    }
    BasenameIs(r, n);
  }

  /** The reference is the plain name `n`, alone or behind one of the three loader prefixes. */
  predicate Spells(r: string, n: string) {
    n != "" && '/' !in n && (r == n || r == "@rpath/" + n || r == "@loader_path/" + n || r == "@executable_path/" + n)
  }

  lemma LeafIs(r: string)
    ensures IsLeafReference(r) <==> exists n :: Spells(r, n)
  {
    var t := ReferenceTail(r);
    if IsLeafReference(r) {
      assert r == r[..|r| - |t|] + t;
      assert Spells(r, t);
    }
    if exists n :: Spells(r, n) {
      var n :| Spells(r, n);
      TailIs(r, n);
    }
  }

  lemma NoPrefix(r: string, prefix: string, i: nat)
    requires i < |prefix| && prefix[i] !in r
    ensures !StartsWith(r, prefix)
  {
  }

  lemma OtherPrefix(r: string, prefix: string, i: nat)
    requires i < |prefix| && i < |r| && prefix[i] != r[i]
    ensures !StartsWith(r, prefix)
  {
  }

  lemma TailIs(r: string, n: string)
    requires Spells(r, n)
    ensures ReferenceTail(r) == n && !IsAbsolute(r)
  {
    var rpath, loader, executable := "@rpath/", "@loader_path/", "@executable_path/";
    assert rpath[6] == '/' && loader[12] == '/' && executable[16] == '/';
    assert rpath[1] == 'r' && loader[1] == 'l' && executable[1] == 'e' && rpath[0] == '@';
    if r == n {
      assert r[0] in n;
      NoPrefix(r, rpath, 6);
      NoPrefix(r, loader, 12);
      NoPrefix(r, executable, 16);
    } else if r == rpath + n {
      assert r[7..] == n;
    } else if r == loader + n {
      assert r[0] == '@' && r[1] == 'l' && r[13..] == n;
      OtherPrefix(r, rpath, 1);
    } else {
      assert r[0] == '@' && r[1] == 'e' && r[17..] == n;
      OtherPrefix(r, rpath, 1);
      OtherPrefix(r, loader, 1);
    }
  }

  lemma {:induction false} BasenameIs(r: string, n: nat)
    requires n <= |r| && '/' !in r[n..] && (n > 0 ==> r[n - 1] == '/')
    ensures Basename(r) == r[n..]
  {
    hide Basename;
    var b := Basename(r);
    var k := |r| - |b|;
    assert forall i :: k <= i < |r| ==> r[i] == b[i - k];
    assert forall i :: n <= i < |r| ==> r[i] == r[n..][i - n];
  }
}
