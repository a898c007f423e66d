/** Saving the remote authorized_keys over SFTP: every request may fail, and the link may drop anywhere. */
module AtomicSave {

  /** The files a save touches, and all the others. */
  datatype Path = Keys | Temp | Backup(stamp: nat) | Elsewhere(name: string)

  type Files = map<Path, string>

  // ---------------------------------------------------------------- the server

  /** How a request ends for the caller: normally, with an operating-system error, or with a dead link. */
  datatype Kind = Done | OsError | Broken

  /**
   * What the server and the network make of one request: how it ends, whether
   * the server carried it out, and how much of a written text reached the disk.
   */
  datatype Outcome = Outcome(kind: Kind, applied: bool, kept: nat)

  datatype Op =
    | Harmless
    | Need(path: Path)
    | Open(path: Path)
    | Write(path: Path, text: string)
    | Close(path: Path, text: string)
    | Abandon(path: Path, text: string)
    | Move(path: Path, target: Path)
    | Remove(path: Path)

  function Prefix(text: string, n: nat): string { if n < |text| then text[..n] else text }

  predicate Possible(op: Op, files: Files) {
    op.Need? || op.Move? || op.Remove? ==> op.path in files
  }

  /** A request about a missing file is refused; a request that succeeds was carried out. */
  function Answer(op: Op, files: Files, o: Outcome): Outcome {
    if !Possible(op, files) then Outcome(if o.kind == Broken then Broken else OsError, false, 0)
    else if o.kind == Done then o.(applied := true)
    else o
  }

  /** The files after a request: only a close that succeeds promises the whole text. */
  function Effect(op: Op, files: Files, a: Outcome): Files
    requires a.applied ==> Possible(op, files)
  {
    match op
    case Harmless => files
    case Need(_) => files
    case Write(p, text) => files[p := Prefix(text, a.kept)]
    case Abandon(p, text) => files[p := Prefix(text, a.kept)]
    case Close(p, text) => files[p := if a.kind == Done then text else Prefix(text, a.kept)]
    case Open(p) => if a.applied then files[p := ""] else files
    case Remove(p) => if a.applied then files - {p} else files
    case Move(p, q) => if a.applied then (files - {p})[q := files[p]] else files
  }

  // ---------------------------------------------------------------- the save

  datatype Point =
    | Resolve | MakeDir | ChmodDir
    | StatKeys | ReadKeys | OpenBackup | WriteBackup | CloseBackup | AbandonBackup | ChmodBackup
    | OpenTemp | ChmodTemp | WriteTemp | CloseTemp | AbandonTemp
    | Swap | RemoveKeys | RenameTemp | ChmodKeys
    | Returned | Raised

  /** A save under way: where it is, the files, and what it has read and copied. */
  datatype Save = Save(
    point: Point, files: Files, payload: string, backup: bool, stamp: nat, existing: string, copied: bool)

  function Start(files: Files, payload: string, backup: bool, stamp: nat): Save {
    Save(Resolve, files, payload, backup, stamp, "", false)
  }

  predicate Over(s: Save) { s.point == Returned || s.point == Raised }

  function Request(s: Save): Op {
    match s.point
    case StatKeys => Need(Keys)
    case ReadKeys => Need(Keys)
    case OpenBackup => Open(Backup(s.stamp))
    case WriteBackup => Write(Backup(s.stamp), s.existing)
    case CloseBackup => Close(Backup(s.stamp), s.existing)
    case AbandonBackup => Abandon(Backup(s.stamp), s.existing)
    case OpenTemp => Open(Temp)
    case WriteTemp => Write(Temp, s.payload)
    case CloseTemp => Close(Temp, s.payload)
    case AbandonTemp => Abandon(Temp, s.payload)
    case Swap => Move(Temp, Keys)
    case RemoveKeys => Remove(Keys)
    case RenameTemp => Move(Temp, Keys)
    case _ => Harmless
  }

  function NextPoint(s: Save, kind: Kind): Point {
    match s.point
    case Resolve => if kind == Done then MakeDir else Raised
    case MakeDir => if kind == Broken then Raised else ChmodDir
    case ChmodDir => if kind == Broken then Raised else if s.backup then StatKeys else OpenTemp
    case StatKeys => if kind == Broken then Raised else if kind == Done then ReadKeys else OpenTemp
    case ReadKeys => if kind == Done then OpenBackup else Raised
    case OpenBackup => if kind == Done then WriteBackup else Raised
    case WriteBackup => if kind == Done then CloseBackup else AbandonBackup
    case CloseBackup => if kind == Done then ChmodBackup else Raised
    case AbandonBackup => Raised
    case ChmodBackup => if kind == Broken then Raised else OpenTemp
    case OpenTemp => if kind == Done then ChmodTemp else Raised
    case ChmodTemp => if kind == Broken then AbandonTemp else WriteTemp
    case WriteTemp => if kind == Done then CloseTemp else AbandonTemp
    case CloseTemp => if kind == Done then Swap else Raised
    case AbandonTemp => Raised
    case Swap => if kind == Done then Returned else if kind == OsError then RemoveKeys else Raised
    case RemoveKeys => if kind == Broken then Raised else RenameTemp
    case RenameTemp => if kind == Done then ChmodKeys else Raised
    case ChmodKeys => if kind == Broken then Raised else Returned
    case Returned => Returned
    case Raised => Raised
  }

  function Step(s: Save, o: Outcome): Save {
    if Over(s) then s
    else
      var a := Answer(Request(s), s.files, o);
      s.(point := NextPoint(s, a.kind),
         files := Effect(Request(s), s.files, a),
         existing := if s.point == ReadKeys && a.kind == Done then s.files[Keys] else s.existing,
         copied := s.copied || (s.point == CloseBackup && a.kind == Done))
  }

  /** The state after the given outcomes: an interruption is a run that stops here. */
  function After(s: Save, os: seq<Outcome>): Save {
    if os == [] then s else Step(After(s, os[..|os| - 1]), os[|os| - 1])
  }

  // ---------------------------------------------------------------- what every step keeps

  ghost predicate SameKeys(files0: Files, files: Files) {
    (Keys in files <==> Keys in files0) && (Keys in files0 ==> files[Keys] == files0[Keys])
  }

  ghost predicate Holds(files: Files, p: Path, text: string) { p in files && files[p] == text }

  /** The new text sits in the temporary file, and the old one in place or removed. */
  ghost predicate Ready(files0: Files, s: Save) {
    Holds(s.files, Temp, s.payload) && (SameKeys(files0, s.files) || Keys !in s.files)
  }

  /** The new text has been moved out of the temporary file. */
  ghost predicate Moved(s: Save) { Temp !in s.files && (Keys !in s.files || Holds(s.files, Keys, s.payload)) }

  ghost predicate Installed(s: Save) { Temp !in s.files && Holds(s.files, Keys, s.payload) }

  ghost predicate KeepsOthers(files0: Files, files: Files, stamp: nat) {
    forall p :: p != Keys && p != Temp && p != Backup(stamp) ==>
      (p in files <==> p in files0) && (p in files0 ==> files[p] == files0[p])
  }

  /** Where the keys are, point by point. */
  ghost predicate PointInv(files0: Files, s: Save) {
    match s.point
    case Swap => SameKeys(files0, s.files) && Holds(s.files, Temp, s.payload)
    case RemoveKeys => (SameKeys(files0, s.files) && Holds(s.files, Temp, s.payload)) || Installed(s)
    case RenameTemp => Ready(files0, s) || Moved(s)
    case ChmodKeys => Installed(s)
    case Returned => Installed(s)
    case Raised => SameKeys(files0, s.files) || Ready(files0, s) || Moved(s)
    case _ => SameKeys(files0, s.files)
  }

  predicate Copying(p: Point) {
    p.StatKeys? || p.ReadKeys? || p.OpenBackup? || p.WriteBackup? || p.CloseBackup? || p.AbandonBackup?
  }

  ghost predicate CopyInv(files0: Files, s: Save) {
    && (Copying(s.point) && s.point != StatKeys && s.point != ReadKeys ==> Holds(files0, Keys, s.existing))
    && (s.point == ChmodBackup ==> s.copied)
    && (Copying(s.point) ==> s.backup)
    && (s.copied ==>
          && Keys in files0 && s.backup
          && Holds(s.files, Backup(s.stamp), files0[Keys])
          && !Copying(s.point) && s.point != Resolve && s.point != MakeDir && s.point != ChmodDir)
  }

  ghost predicate Inv(files0: Files, s: Save) {
    PointInv(files0, s) && CopyInv(files0, s) && KeepsOthers(files0, s.files, s.stamp)
  }

  predicate Installing(p: Point) {
    p.CloseTemp? || p.Swap? || p.RemoveKeys? || p.RenameTemp? || p.ChmodKeys? || p.Returned? || p.Raised?
  }

  /** Before the swap no request touches the keys. */
  lemma EarlyStep(files0: Files, s: Save, o: Outcome)
    requires !Installing(s.point) && SameKeys(files0, s.files)
    ensures SameKeys(files0, Step(s, o).files)
    ensures var p := Step(s, o).point; !Installing(p) || p == CloseTemp || p == Raised
  {
    assert Request(s).Harmless? || Request(s).Need? || Request(s).path != Keys;
    assert !Request(s).Move?;
  }

  lemma SwapStep(files0: Files, s: Save, o: Outcome)
    requires (s.point == CloseTemp || s.point == Swap) && PointInv(files0, s)
    ensures PointInv(files0, Step(s, o))
  {
    var op := Request(s);
    assert op == if s.point == CloseTemp then Close(Temp, s.payload) else Move(Temp, Keys);
    hide Request;
  }

  lemma FallbackStep(files0: Files, s: Save, o: Outcome)
    requires (s.point == RemoveKeys || s.point == RenameTemp) && PointInv(files0, s)
    ensures PointInv(files0, Step(s, o))
  {
    var op := Request(s);
    assert op == if s.point == RemoveKeys then Remove(Keys) else Move(Temp, Keys);
    hide Request;
  }

  lemma LastStep(files0: Files, s: Save, o: Outcome)
    requires (s.point == ChmodKeys || Over(s)) && PointInv(files0, s)
    ensures PointInv(files0, Step(s, o))
  {
    assert s.point == ChmodKeys ==> Request(s) == Harmless;
  }

  lemma StepKeepsPoint(files0: Files, s: Save, o: Outcome)
    requires PointInv(files0, s)
    ensures PointInv(files0, Step(s, o))
  {
    hide Step, SameKeys;
    if !Installing(s.point) {
      EarlyStep(files0, s, o);
    } else if s.point == CloseTemp || s.point == Swap {
      SwapStep(files0, s, o);
    } else if s.point == RemoveKeys || s.point == RenameTemp {
      FallbackStep(files0, s, o);
    } else {
      LastStep(files0, s, o);
    }
  }

  /** The backup is written only while it is being made. */
  lemma CopyStays(s: Save, o: Outcome, text: string)
    requires Holds(s.files, Backup(s.stamp), text) && !Copying(s.point)
    ensures Holds(Step(s, o).files, Backup(s.stamp), text) && Step(s, o).existing == s.existing
      && Step(s, o).copied == s.copied
  {
    var op := Request(s);
    assert op.Harmless? || op.path == Temp || op.path == Keys;
    assert op.Move? ==> op.target == Keys;
  }

  lemma PointOrder(s: Save, kind: Kind)
    ensures var p := NextPoint(s, kind);
      && (Copying(p) && !p.StatKeys? ==> Copying(s.point))
      && (p.StatKeys? ==> s.backup && s.point.ChmodDir?)
      && !p.Resolve? && (p.MakeDir? ==> s.point.Resolve?) && (p.ChmodDir? ==> s.point.MakeDir?)
      && (p.ChmodBackup? ==> s.point.CloseBackup? && kind == Done)
  {
  }

  lemma StepKeepsCopy(files0: Files, s: Save, o: Outcome)
    requires CopyInv(files0, s) && PointInv(files0, s)
    ensures CopyInv(files0, Step(s, o))
  {
    if Copying(s.point) {
      assert SameKeys(files0, s.files);
      assert !s.copied;
    } else if !Over(s) {
      PointOrder(s, Answer(Request(s), s.files, o).kind);
      hide NextPoint, Effect, Answer;
      if s.copied { CopyStays(s, o, files0[Keys]); }
    }
  }

  lemma StepKeepsOthers(files0: Files, s: Save, o: Outcome)
    requires KeepsOthers(files0, s.files, s.stamp)
    ensures KeepsOthers(files0, Step(s, o).files, s.stamp)
  {
  }

  /** In every state of every run, whatever fails. */
  lemma {:induction false} RunKeepsInv(files0: Files, payload: string, backup: bool, stamp: nat, os: seq<Outcome>)
    ensures Inv(files0, After(Start(files0, payload, backup, stamp), os))
  {
    hide PointInv, CopyInv, KeepsOthers, Step;
    var s0 := Start(files0, payload, backup, stamp);
    if os == [] {
      StartInv(files0, payload, backup, stamp);
    } else {
      var front, last := os[..|os| - 1], os[|os| - 1];
      RunKeepsInv(files0, payload, backup, stamp, front);
      var s := After(s0, front);
      StepKeepsPoint(files0, s, last);
      StepKeepsCopy(files0, s, last);
      StepKeepsOthers(files0, s, last);
      StepKeepsRequest(s, last);
    }
  }

  lemma StepKeepsRequest(s: Save, o: Outcome)
    ensures Step(s, o).payload == s.payload && Step(s, o).backup == s.backup && Step(s, o).stamp == s.stamp
  {
  }

  lemma StartInv(files0: Files, payload: string, backup: bool, stamp: nat)
    ensures Inv(files0, Start(files0, payload, backup, stamp))
  {
  }

  // ---------------------------------------------------------------- crash safety

  /**
   * A complete old or complete new file is in place; or, while the fallback has
   * removed the old one, the temporary file is the complete new one, and a
   * backup that was made is the complete old one.
   */
  ghost predicate CrashSafe(files0: Files, s: Save)
    requires Keys in files0
  {
    || Holds(s.files, Keys, files0[Keys])
    || Holds(s.files, Keys, s.payload)
    || (&& Keys !in s.files && Holds(s.files, Temp, s.payload)
        && (s.point == RenameTemp || s.point == Raised)
        && (s.copied ==> Holds(s.files, Backup(s.stamp), files0[Keys])))
  }

  /** Neither the file nor its replacement is left. */
  ghost predicate Lost(s: Save) { Keys !in s.files && Temp !in s.files }

  /** The atomic rename is carried out, reported as an error, and the removal that follows is carried out too. */
  ghost predicate VanishesAt(s: Save, os: seq<Outcome>, i: nat) {
    && i + 1 < |os|
    && After(s, os[..i]).point == Swap
    && os[i].kind == OsError && os[i].applied
    && (os[i + 1].applied || os[i + 1].kind == Done)
  }

  ghost predicate Vanishes(s: Save, os: seq<Outcome>) { exists i: nat :: VanishesAt(s, os, i) }

  lemma LossIsUnsafe(files0: Files, s: Save)
    requires Inv(files0, s) && Keys in files0
    ensures CrashSafe(files0, s) <==> !Lost(s)
  {
    hide KeepsOthers;
  }

  /** How a step can lose both files. */
  lemma LossyStep(files0: Files, s: Save, o: Outcome)
    requires Inv(files0, s) && Keys in files0
    ensures Lost(Step(s, o)) <==>
      Lost(s) || (s.point == RemoveKeys && Temp !in s.files && (o.applied || o.kind == Done))
  {
    hide KeepsOthers;
  }

  /** How the fallback can start with the new text already in place. */
  lemma SlippedStep(files0: Files, s: Save, o: Outcome)
    requires Inv(files0, s)
    ensures Step(s, o).point == RemoveKeys && Temp !in Step(s, o).files <==>
      s.point == Swap && o.kind == OsError && o.applied
  {
    hide KeepsOthers;
  }

  lemma AfterSnoc(s: Save, os: seq<Outcome>, o: Outcome)
    ensures After(s, os + [o]) == Step(After(s, os), o)
  {
    assert (os + [o])[..|os|] == os;
  }

  lemma VanishesSnoc(s: Save, os: seq<Outcome>, o: Outcome)
    ensures Vanishes(s, os + [o]) <==> Vanishes(s, os) || (|os| > 0 && VanishesAt(s, os + [o], |os| - 1))
  {
    var all := os + [o];
    forall i: nat | i + 1 < |os| ensures VanishesAt(s, all, i) <==> VanishesAt(s, os, i) {
      assert all[..i] == os[..i];
    }
    if Vanishes(s, all) {
      var i: nat :| VanishesAt(s, all, i);
      assert i + 1 < |os| ==> VanishesAt(s, os, i);
    }
    if Vanishes(s, os) {
      var i: nat :| VanishesAt(s, os, i);
      assert VanishesAt(s, all, i);
    }
  }

  lemma {:induction false} LostExactlyWhen(files0: Files, payload: string, backup: bool, stamp: nat, os: seq<Outcome>)
    requires Keys in files0
    ensures var s0 := Start(files0, payload, backup, stamp);
      Lost(After(s0, os)) <==> Vanishes(s0, os)
  {
    hide Inv, Step, Vanishes;
    var s0 := Start(files0, payload, backup, stamp);
    if os == [] {
      NothingVanishesYet(s0);
    } else {
      var front, last := os[..|os| - 1], os[|os| - 1];
      assert os == front + [last];
      LostExactlyWhen(files0, payload, backup, stamp, front);
      RunKeepsInv(files0, payload, backup, stamp, front);
      LossyStep(files0, After(s0, front), last);
      VanishesSnoc(s0, front, last);
      if front == [] {
        assert After(s0, front) == s0;
      } else {
        var before, previous := front[..|front| - 1], front[|front| - 1];
        RunKeepsInv(files0, payload, backup, stamp, before);
        SlippedStep(files0, After(s0, before), previous);
        assert os[..|front| - 1] == before && os[|front| - 1] == previous;
      }
    }
  }

  lemma NothingVanishesYet(s: Save)
    ensures !Vanishes(s, [])
  {
  }

  /**
   * For every interruption point and every pattern of failures: the save is
   * crash safe exactly when no atomic rename that took effect was reported as an
   * ordinary error and followed by a removal that took effect.
   */
  lemma SaveIsCrashSafe(files0: Files, payload: string, backup: bool, stamp: nat, os: seq<Outcome>)
    requires Keys in files0
    ensures var s0 := Start(files0, payload, backup, stamp);
      CrashSafe(files0, After(s0, os)) <==> !Vanishes(s0, os)
  {
    hide *;
    LostExactlyWhen(files0, payload, backup, stamp, os);
    RunKeepsInv(files0, payload, backup, stamp, os);
    LossIsUnsafe(files0, After(Start(files0, payload, backup, stamp), os));
  }

  /** A server that reports errors only for requests it did not carry out never loses the keys. */
  lemma HonestServerIsSafe(files0: Files, payload: string, backup: bool, stamp: nat, os: seq<Outcome>)
    requires Keys in files0 && forall o :: o in os && o.kind == OsError ==> !o.applied
    ensures CrashSafe(files0, After(Start(files0, payload, backup, stamp), os))
  {
    hide CrashSafe, After;
    var s0 := Start(files0, payload, backup, stamp);
    SaveIsCrashSafe(files0, payload, backup, stamp, os);
    forall i: nat ensures !VanishesAt(s0, os, i) {
      assert i < |os| ==> os[i] in os;
    }
  }

  /** A backup that was made is the complete old file, in every later state of every run. */
  lemma BackupIsKept(files0: Files, payload: string, backup: bool, stamp: nat, os: seq<Outcome>)
    ensures var s := After(Start(files0, payload, backup, stamp), os);
      s.copied ==> Keys in files0 && Holds(s.files, Backup(stamp), files0[Keys])
  {
    hide PointInv, KeepsOthers, Step;
    RunKeepsInv(files0, payload, backup, stamp, os);
    AfterKeepsRequest(Start(files0, payload, backup, stamp), os);
  }

  lemma {:induction false} AfterKeepsRequest(s: Save, os: seq<Outcome>)
    ensures After(s, os).payload == s.payload && After(s, os).backup == s.backup && After(s, os).stamp == s.stamp
  {
    hide Step;
    if os != [] {
      AfterKeepsRequest(s, os[..|os| - 1]);
      StepKeepsRequest(After(s, os[..|os| - 1]), os[|os| - 1]);
    }
  }

  /** A save that returns has installed the new text and left no temporary file; no other file changed. */
  lemma ReturnedMeansInstalled(files0: Files, payload: string, backup: bool, stamp: nat, os: seq<Outcome>)
    ensures var s := After(Start(files0, payload, backup, stamp), os);
      && KeepsOthers(files0, s.files, stamp)
      && (s.point == Returned ==> Holds(s.files, Keys, payload) && Temp !in s.files)
  {
    hide CopyInv, KeepsOthers, Step;
    RunKeepsInv(files0, payload, backup, stamp, os);
    AfterKeepsRequest(Start(files0, payload, backup, stamp), os);
  }

  // ---------------------------------------------------------------- every save ends

  function Remaining(p: Point): nat {
    match p
    case Resolve => 17 case MakeDir => 16 case ChmodDir => 15 case StatKeys => 14 case ReadKeys => 13
    case OpenBackup => 12 case WriteBackup => 11 case CloseBackup => 10 case AbandonBackup => 10 case ChmodBackup => 9
    case OpenTemp => 8 case ChmodTemp => 7 case WriteTemp => 6 case CloseTemp => 5 case AbandonTemp => 5
    case Swap => 4 case RemoveKeys => 3 case RenameTemp => 2 case ChmodKeys => 1
    case Returned => 0 case Raised => 0
  }

  lemma StepShrinks(s: Save, o: Outcome)
    ensures if Over(s) then Over(Step(s, o)) else Remaining(Step(s, o).point) < Remaining(s.point)
  {
    hide Effect, Answer, Request;
  }

  /** No run asks the server for more than seventeen things. */
  lemma {:induction false} SaveEnds(s: Save, os: seq<Outcome>)
    ensures Remaining(After(s, os).point) <= if |os| <= 17 then 17 - |os| else 0
  {
    hide Step;
    if os != [] {
      SaveEnds(s, os[..|os| - 1]);
      StepShrinks(After(s, os[..|os| - 1]), os[|os| - 1]);
    }
  }

  function Smooth(k: nat): seq<Outcome> { if k == 0 then [] else Smooth(k - 1) + [Outcome(Done, true, 0)] }

  /** Where a save without a backup stands after some requests that all succeeded. */
  function SmoothPoint(k: nat): Point {
    match k
    case 0 => Resolve case 1 => MakeDir case 2 => ChmodDir case 3 => OpenTemp
    case 4 => ChmodTemp case 5 => WriteTemp case 6 => CloseTemp case _ => Swap
  }

  lemma SmoothStep(s: Save, k: nat)
    requires k < 7 && s.point == SmoothPoint(k) && !s.backup
    ensures Step(s, Outcome(Done, true, 0)).point == SmoothPoint(k + 1)
  {
    hide Effect;
  }

  lemma SmoothStart(files0: Files, payload: string, stamp: nat)
    ensures After(Start(files0, payload, false, stamp), Smooth(0)).point == SmoothPoint(0)
  {
  }

  lemma {:induction false} SmoothRun(files0: Files, payload: string, stamp: nat, k: nat)
    requires k <= 7
    ensures After(Start(files0, payload, false, stamp), Smooth(k)).point == SmoothPoint(k)
  {
    hide Step, After, SmoothPoint;
    if k == 0 {
      SmoothStart(files0, payload, stamp);
    } else {
      SmoothRun(files0, payload, stamp, k - 1);
      var s0 := Start(files0, payload, false, stamp);
      AfterSnoc(s0, Smooth(k - 1), Outcome(Done, true, 0));
      AfterKeepsRequest(s0, Smooth(k - 1));
      SmoothStep(After(s0, Smooth(k - 1)), k - 1);
    }
  }

  /**
   * The remaining hole, with a link that answers late: the rename took effect,
   * its error starts the fallback, and the fallback removes the new file.
   */
  lemma LateErrorLosesKeys(files0: Files, payload: string, stamp: nat)
    requires Keys in files0
    ensures Lost(After(
      Start(files0, payload, false, stamp),
      Smooth(7) + [Outcome(OsError, true, 0)] + [Outcome(Done, true, 0)]))
  {
    var s0 := Start(files0, payload, false, stamp);
    var late, ok := Outcome(OsError, true, 0), Outcome(Done, true, 0);
    var s := After(s0, Smooth(7));
    SmoothRun(files0, payload, stamp, 7);
    RunKeepsInv(files0, payload, false, stamp, Smooth(7));
    SlippedStep(files0, s, late);
    AfterSnoc(s0, Smooth(7), late);
    RunKeepsInv(files0, payload, false, stamp, Smooth(7) + [late]);
    AfterSnoc(s0, Smooth(7) + [late], ok);
    hide Step, After, Inv;
    LossyStep(files0, Step(s, late), ok);
  }
}
