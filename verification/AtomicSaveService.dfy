/** The service that runs the save, request by request, with its exception fallbacks. */
module AtomicSaveService {
  import opened AtomicSave
  import opened AtomicSaveBackup

  /**
   * The SFTP session. `answers` is whatever the server and the network will do.
   * The ghost fields follow the save protocol alongside: `run` is its state, and
   * `log` the outcomes that led there from `start`.
   */
  class Session {
    var files: Files
    var asked: nat
    const answers: nat -> Outcome
    ghost var start: Save
    ghost var run: Save
    ghost var log: seq<Outcome>

    ghost predicate Valid()
      reads this
    {
      run == After(start, log) && run.files == files
    }

    /** At a point of the protocol, with the request's own parameters. */
    ghost predicate At(point: Point)
      reads this
    {
      Valid() && run.point == point
    }

    /** The next request goes to the server; the caller sees only how it ended. */
    method Perform(op: Op) returns (kind: Kind)
      requires Valid() && op == Request(run) && !Over(run)
      modifies this
      ensures Valid() && start == old(start)
      ensures run.point == NextPoint(old(run), kind)
      ensures run.payload == old(run.payload) && run.backup == old(run.backup) && run.stamp == old(run.stamp)
      ensures old(run.point) != ReadKeys ==> run.existing == old(run.existing)
      ensures old(run.point) == ReadKeys && kind == Done ==> Keys in old(files) && run.existing == old(files)[Keys]
    {
      hide After;
      var a := Answer(op, files, answers(asked));
      kind := a.kind;
      ghost var before := run;
      AfterSnoc(start, log, answers(asked));
      StepKeepsRequest(run, answers(asked));
      log := log + [answers(asked)];
      run := Step(run, answers(asked));
      files := Effect(op, files, a);
      asked := asked + 1;
    }

    /** A whole file, read in one request. */
    method Read() returns (kind: Kind, text: string)
      requires At(ReadKeys)
      modifies this
      ensures Valid() && start == old(start)
      ensures run.payload == old(run.payload) && run.backup == old(run.backup) && run.stamp == old(run.stamp)
      ensures run.point == NextPoint(old(run), kind)
      ensures kind == Done ==> text == run.existing
    {
      text := if Keys in files then files[Keys] else "";
      kind := Perform(Need(Keys));
    }
  }

  class AuthorizedKeysService {
    const session: Session
    var backupDone: bool

    constructor (session: Session)
      ensures this.session == session && !backupDone
    {
      this.session := session;
      backupDone := false;
    }

    /** The protocol goes on for the same save. */
    twostate predicate SameSave()
      reads session
    {
      && session.Valid() && session.start == old(session.start)
      && session.run.payload == old(session.run.payload)
      && session.run.backup == old(session.run.backup)
      && session.run.stamp == old(session.run.stamp)
    }

    method EnsureDirectory() returns (ok: bool)
      requires session.At(Resolve)
      modifies session
      ensures SameSave()
      ensures session.run.point == if !ok then Raised else if session.run.backup then StatKeys else OpenTemp
    {
      hide After, Step, Answer, Effect;
      var kind := session.Perform(Harmless);
      if kind != Done { return false; }
      kind := session.Perform(Harmless);
      if kind == Broken { return false; }
      kind := session.Perform(Harmless);
      ok := kind != Broken;
    }

    /** Copies the existing file aside; a missing one needs no copy. */
    method BackUp(stamp: nat) returns (ok: bool)
      requires session.At(StatKeys) && session.run.stamp == stamp
      modifies session
      ensures SameSave()
      ensures session.run.point == if ok then OpenTemp else Raised
    {
      hide After, Step, Answer, Effect;
      var kind := session.Perform(Need(Keys));
      if kind != Done { return kind == OsError; }
      var existing;
      kind, existing := session.Read();
      if kind != Done { return false; }
      ok := WriteBackupFile(stamp, existing);
    }

    method WriteBackupFile(stamp: nat, existing: string) returns (ok: bool)
      requires session.At(OpenBackup) && session.run.stamp == stamp && session.run.existing == existing
      modifies session
      ensures SameSave()
      ensures session.run.point == if ok then OpenTemp else Raised
    {
      hide After, Step, Answer, Effect;
      var kind := session.Perform(Open(Backup(stamp)));
      if kind != Done { return false; }
      kind := session.Perform(Write(Backup(stamp), existing));
      if kind != Done {
        kind := session.Perform(Abandon(Backup(stamp), existing));
        return false;
      }
      kind := session.Perform(Close(Backup(stamp), existing));
      if kind != Done { return false; }
      kind := session.Perform(Harmless);
      ok := kind != Broken;
    }

    /** Restrictive mode first, then the whole text; the handle is closed on every way out. */
    method WriteTempFile(payload: string) returns (ok: bool)
      requires session.At(OpenTemp) && session.run.payload == payload
      modifies session
      ensures SameSave()
      ensures session.run.point == if ok then Swap else Raised
    {
      hide After, Step, Answer, Effect;
      var kind := session.Perform(Open(Temp));
      if kind != Done { return false; }
      kind := session.Perform(Harmless);
      if kind != Broken {
        ok := FillTempFile(payload);
      } else {
        kind := session.Perform(Abandon(Temp, payload));
        ok := false;
      }
    }

    method FillTempFile(payload: string) returns (ok: bool)
      requires session.At(WriteTemp) && session.run.payload == payload
      modifies session
      ensures SameSave()
      ensures session.run.point == if ok then Swap else Raised
    {
      hide After, Step, Answer, Effect;
      var kind := session.Perform(Write(Temp, payload));
      if kind == Done {
        kind := session.Perform(Close(Temp, payload));
        ok := kind == Done;
      } else {
        kind := session.Perform(Abandon(Temp, payload));
        ok := false;
      }
    }

    /** The atomic rename, or remove-then-rename when the server has none. */
    method InstallAtomic() returns (ok: bool)
      requires session.At(Swap)
      modifies session
      ensures SameSave()
      ensures session.run.point == if ok then Returned else Raised
    {
      hide After, Step, Answer, Effect;
      var kind := session.Perform(Move(Temp, Keys));
      if kind != OsError { return kind == Done; }
      ok := RemoveThenRename();
    }

    method RemoveThenRename() returns (ok: bool)
      requires session.At(RemoveKeys)
      modifies session
      ensures SameSave()
      ensures session.run.point == if ok then Returned else Raised
    {
      hide After, Step, Answer, Effect;
      var kind := session.Perform(Remove(Keys));
      if kind == Broken { return false; }
      kind := session.Perform(Move(Temp, Keys));
      if kind != Done { return false; }
      kind := session.Perform(Harmless);
      ok := kind != Broken;
    }

    /**
     * A save follows the protocol to its end, so everything proved of its runs
     * holds of it; the session is marked as backed up by a save that succeeds.
     */
    method SaveKeys(payload: string, makeBackup: bool, stamp: nat) returns (ok: bool)
      modifies this, session
      ensures session.start == Start(old(session.files), payload, makeBackup && !old(backupDone), stamp)
      ensures session.Valid() && session.run.point == if ok then Returned else Raised
      ensures backupDone == (old(backupDone) || (ok && makeBackup))
      ensures KeepsOthers(old(session.files), session.files, stamp)
      ensures ok ==> Holds(session.files, Keys, payload) && Temp !in session.files
      ensures ok ==> (Asked(session.start, session.log) <==> makeBackup && !old(backupDone))
      ensures ok && Found(session.start, session.log) ==>
                Keys in old(session.files) && Holds(session.files, Backup(stamp), old(session.files)[Keys])
      ensures Keys in old(session.files) ==>
                (CrashSafe(old(session.files), session.run) <==> !Vanishes(session.start, session.log))
    {
      var doBackup := makeBackup && !backupDone;
      ghost var files0 := session.files;
      session.start := Start(session.files, payload, doBackup, stamp);
      session.run := session.start;
      session.log := [];
      assert session.At(Resolve);
      hide After, KeepsOthers, CrashSafe, Vanishes, Holds, Asked;
      ok := RunSave(payload, doBackup, stamp);
      if ok && doBackup { backupDone := true; }
      ReturnedMeansInstalled(files0, payload, doBackup, stamp, session.log);
      BackupExactly(files0, payload, doBackup, stamp, session.log);
      if Keys in files0 { SaveIsCrashSafe(files0, payload, doBackup, stamp, session.log); }
    }

    method RunSave(payload: string, doBackup: bool, stamp: nat) returns (ok: bool)
      requires session.At(Resolve)
      requires session.run.payload == payload && session.run.backup == doBackup && session.run.stamp == stamp
      modifies session
      ensures session.Valid() && session.start == old(session.start)
      ensures session.run.point == if ok then Returned else Raised
    {
      hide After, Step, Answer, Effect;
      ok := EnsureDirectory();
      if !ok { return; }
      if doBackup {
        ok := BackUp(stamp);
        if !ok { return; }
      }
      ok := WriteTempFile(payload);
      if !ok { return; }
      ok := InstallAtomic();
    }
  }
}
