/** When a save makes its backup, and when it returns: told by how its requests were answered. */
module AtomicSaveBackup {
  import opened AtomicSave

  // ---------------------------------------------------------------- the backup

  /** Answer `i` is the one to the question whether there is a file to back up. */
  ghost predicate StatAt(s0: Save, os: seq<Outcome>, i: nat) {
    i < |os| && After(s0, os[..i]).point == StatKeys
  }

  /** The save asked whether there is a file to back up. */
  ghost predicate Asked(s0: Save, os: seq<Outcome>) { exists i: nat :: StatAt(s0, os, i) }

  /** And was told that there is. */
  ghost predicate Found(s0: Save, os: seq<Outcome>) {
    Keys in s0.files && exists i: nat :: StatAt(s0, os, i) && os[i].kind == Done
  }

  lemma StatSnoc(s0: Save, os: seq<Outcome>, o: Outcome, i: nat)
    ensures StatAt(s0, os + [o], i)
      <==> if i < |os| then StatAt(s0, os, i) else i == |os| && After(s0, os).point == StatKeys
  {
    hide After;
    var all := os + [o];
    if i < |os| { assert all[..i] == os[..i]; } else if i == |os| { assert all[..i] == os; }
  }

  lemma AskedSnoc(s0: Save, os: seq<Outcome>, o: Outcome)
    ensures Asked(s0, os + [o]) <==> Asked(s0, os) || After(s0, os).point == StatKeys
    ensures Found(s0, os + [o])
      <==> Found(s0, os) || (Keys in s0.files && After(s0, os).point == StatKeys && o.kind == Done)
  {
    hide After, StatAt;
    var all := os + [o];
    forall i: nat ensures StatAt(s0, all, i)
      <==> if i < |os| then StatAt(s0, os, i) else i == |os| && After(s0, os).point == StatKeys
    {
      StatSnoc(s0, os, o, i);
    }
    assert forall i: nat :: StatAt(s0, os, i) ==> i < |os| by { StatBelow(s0, os); }
    assert all[|os|] == o && forall i :: 0 <= i < |os| ==> all[i] == os[i];
    if After(s0, os).point == StatKeys { assert StatAt(s0, all, |os|); }
    forall i: nat | StatAt(s0, os, i) ensures StatAt(s0, all, i) {}
  }

  lemma StatBelow(s0: Save, os: seq<Outcome>)
    ensures forall i: nat :: StatAt(s0, os, i) ==> i < |os|
  {
  }

  predicate NotYetAsked(p: Point) { p.Resolve? || p.MakeDir? || p.ChmodDir? || p.StatKeys? }

  /** Between the answer that there is a file and the copy of it. */
  predicate CopyPending(p: Point) { Copying(p) && !p.StatKeys? }

  /** What is known of the backup, point by point. */
  ghost predicate BackupInv(s: Save, asked: bool, found: bool) {
    && (found ==> asked) && (asked ==> s.backup) && (asked ==> !NotYetAsked(s.point))
    && (s.backup && !asked ==> NotYetAsked(s.point) || s.point == Raised)
    && (s.copied || CopyPending(s.point) ==> found)
    && (found ==> s.copied || CopyPending(s.point) || s.point == Raised)
    && (s.point.StatKeys? ==> s.backup)
  }

  lemma StepKeepsBackup(s: Save, o: Outcome, asked: bool, found: bool, there: bool)
    requires BackupInv(s, asked, found) && (s.point == StatKeys ==> (Keys in s.files <==> there))
    ensures BackupInv(
      Step(s, o), asked || s.point == StatKeys, found || (there && s.point == StatKeys && o.kind == Done))
  {
    hide Effect;
  }

  lemma StatSeesKeys(files0: Files, s: Save)
    requires Inv(files0, s) && s.point == StatKeys
    ensures Keys in s.files <==> Keys in files0
  {
    hide KeepsOthers, CopyInv;
  }

  lemma {:induction false} RunKeepsBackup(
    files0: Files, payload: string, backup: bool, stamp: nat, os: seq<Outcome>)
    ensures var s0 := Start(files0, payload, backup, stamp); BackupInv(After(s0, os), Asked(s0, os), Found(s0, os))
  {
    hide BackupInv, Asked, Found, Step;
    var s0 := Start(files0, payload, backup, stamp);
    if os == [] {
      NothingAsked(s0);
      StartBackup(files0, payload, backup, stamp);
    } else {
      var front, last := os[..|os| - 1], os[|os| - 1];
      assert os == front + [last];
      RunKeepsBackup(files0, payload, backup, stamp, front);
      RunKeepsInv(files0, payload, backup, stamp, front);
      var s := After(s0, front);
      if s.point == StatKeys { StatSeesKeys(files0, s); }
      StepKeepsBackup(s, last, Asked(s0, front), Found(s0, front), Keys in files0);
      AskedSnoc(s0, front, last);
    }
  }

  lemma NothingAsked(s0: Save)
    ensures !Asked(s0, []) && !Found(s0, [])
  {
  }

  lemma StartBackup(files0: Files, payload: string, backup: bool, stamp: nat)
    ensures BackupInv(Start(files0, payload, backup, stamp), false, false)
  {
  }

  /**
   * A save that returns asked whether there is a file to back up exactly when a backup was wanted, made
   * one exactly when it was told that there is, and then the backup is the complete old file.
   */
  lemma BackupExactly(files0: Files, payload: string, backup: bool, stamp: nat, os: seq<Outcome>)
    ensures var s0 := Start(files0, payload, backup, stamp);
      var s := After(s0, os);
      s.point == Returned ==>
        && (Asked(s0, os) <==> backup) && (s.copied <==> Found(s0, os))
        && (Found(s0, os) ==> Holds(s.files, Backup(stamp), files0[Keys]))
  {
    hide Asked, Found, Step, After;
    RunKeepsBackup(files0, payload, backup, stamp, os);
    BackupIsKept(files0, payload, backup, stamp, os);
    AfterKeepsRequest(Start(files0, payload, backup, stamp), os);
  }

  // ---------------------------------------------------------------- which failures end a save

  /** The requests whose ordinary errors a save does not survive. */
  predicate Essential(p: Point) {
    || p.Resolve? || p.ReadKeys? || p.OpenBackup? || p.WriteBackup? || p.CloseBackup?
    || p.OpenTemp? || p.WriteTemp? || p.CloseTemp? || p.RenameTemp?
  }

  /** The link is dead, or an essential request fails. */
  predicate Fatal(s: Save, o: Outcome) {
    && !Over(s)
    && var kind := Answer(Request(s), s.files, o).kind;
       kind == Broken || (kind == OsError && Essential(s.point))
  }

  ghost predicate FatalAt(s0: Save, os: seq<Outcome>, i: nat) { i < |os| && Fatal(After(s0, os[..i]), os[i]) }

  /** The save is lost, although a handle may still have to be closed. */
  predicate Doomed(p: Point) { p.Raised? || p.AbandonBackup? || p.AbandonTemp? }

  lemma FatalStep(s: Save, o: Outcome)
    ensures Doomed(Step(s, o).point) <==> Doomed(s.point) || Fatal(s, o)
  {
    hide Effect, Answer, Request;
  }

  lemma {:induction false} DoomedExactly(s0: Save, os: seq<Outcome>)
    requires !Doomed(s0.point)
    ensures Doomed(After(s0, os).point) <==> exists i: nat :: FatalAt(s0, os, i)
  {
    hide Step, Fatal, Doomed;
    if os == [] {
    } else {
      var front, last := os[..|os| - 1], os[|os| - 1];
      DoomedExactly(s0, front);
      FatalStep(After(s0, front), last);
      forall i: nat | i < |front| ensures FatalAt(s0, os, i) <==> FatalAt(s0, front, i) {
        assert os[..i] == front[..i] && os[i] == front[i];
      }
      assert FatalAt(s0, os, |front|) <==> Fatal(After(s0, front), last);
      if exists i: nat :: FatalAt(s0, front, i) {
        var i: nat :| FatalAt(s0, front, i);
        assert FatalAt(s0, os, i);
      }
      if exists i: nat :: FatalAt(s0, os, i) {
        var i: nat :| FatalAt(s0, os, i);
        assert i < |front| ==> FatalAt(s0, front, i);
      }
    }
  }

  /**
   * A save that is run to its end returns if and only if the link holds and no essential request fails:
   * making the directory, the changes of mode, looking for a file to back up, the atomic rename and the
   * removal may all be refused.
   */
  lemma ReturnsExactly(files0: Files, payload: string, backup: bool, stamp: nat, os: seq<Outcome>)
    requires |os| >= 17
    ensures var s0 := Start(files0, payload, backup, stamp);
      After(s0, os).point == Returned <==> !exists i: nat :: FatalAt(s0, os, i)
  {
    hide Step, After, Fatal;
    var s0 := Start(files0, payload, backup, stamp);
    SaveEnds(s0, os);
    DoomedExactly(s0, os);
  }

  /** Only a refused rename leads into the fallback. */
  predicate InFallback(p: Point) { p.RemoveKeys? || p.RenameTemp? || p.ChmodKeys? }

  lemma QuietStep(files0: Files, s: Save, o: Outcome)
    requires Inv(files0, s) && Keys in files0 && !InFallback(s.point) && o.kind == Done
    ensures !Fatal(s, o) && !InFallback(Step(s, o).point)
  {
    hide CopyInv, KeepsOthers, Effect;
  }

  lemma {:induction false} QuietRun(files0: Files, payload: string, backup: bool, stamp: nat, os: seq<Outcome>)
    requires Keys in files0 && forall o :: o in os ==> o.kind == Done
    ensures !InFallback(After(Start(files0, payload, backup, stamp), os).point)
  {
    hide Step, InFallback, Inv;
    var s0 := Start(files0, payload, backup, stamp);
    if os == [] {
      StartsOutside(s0);
    } else {
      var front, last := os[..|os| - 1], os[|os| - 1];
      QuietRun(files0, payload, backup, stamp, front);
      RunKeepsInv(files0, payload, backup, stamp, front);
      QuietStep(files0, After(s0, front), last);
    }
  }

  lemma StartsOutside(s: Save)
    requires s.point == Resolve
    ensures !InFallback(s.point)
  {
  }

  /** With a server that carries out every request, a save returns, and backs up what is there if it is to. */
  lemma QuietSaveBacksUp(files0: Files, payload: string, backup: bool, stamp: nat, os: seq<Outcome>)
    requires |os| >= 17 && Keys in files0 && forall o :: o in os ==> o.kind == Done
    ensures var s := After(Start(files0, payload, backup, stamp), os);
      && s.point == Returned && s.copied == backup
      && (backup ==> Holds(s.files, Backup(stamp), files0[Keys]))
  {
    hide After, Fatal, Inv;
    var s0 := Start(files0, payload, backup, stamp);
    forall i: nat | i < |os| ensures !FatalAt(s0, os, i) {
      var front := os[..i];
      QuietRun(files0, payload, backup, stamp, front);
      RunKeepsInv(files0, payload, backup, stamp, front);
      assert os[i] in os;
      QuietStep(files0, After(s0, front), os[i]);
    }
    ReturnsExactly(files0, payload, backup, stamp, os);
    BackupExactly(files0, payload, backup, stamp, os);
    if backup {
      var i: nat :| StatAt(s0, os, i);
      assert os[i] in os;
    }
  }
}
