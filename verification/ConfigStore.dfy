/** The in-memory settings cache as the program runs it, over a file other processes also write. */
module ConfigStore {
  import opened Text
  import opened Config
  import opened ConfigProtocol

  /** The settings file. Every access happens under the transaction lock. */
  class SettingsFile {
    var content: File

    constructor (f: File)
      ensures content == f
    {
      content := f;
    }
  }

  class SettingsCache {
    const file: SettingsFile
    var configData: Json
    var snapshot: Option<Json>

    constructor (f: SettingsFile, data: Json)
      ensures file == f && configData == data && snapshot == Some(data)
    {
      file := f;
      configData := data;
      snapshot := Some(data);
    }

    /** The edits since the snapshot, patched onto the file. */
    method MergeWithDisk(current: Json) returns (tree: Json)
      ensures tree == TreeToWrite(snapshot, current, file.content)
    {
      if snapshot.None? || !snapshot.value.Object? || file.content.Missing? {
        return current;
      }
      match file.content
      case Unreadable =>
        tree := current;
      case Readable(latest) =>
        if !latest.Object? {
          return current;
        }
        tree := MergeInPlace(snapshot.value, current, latest);
    }

    /** `writable` says whether the atomic replacement of the file succeeds. */
    method SaveJsonConfig(explicit: Option<Json>, writable: bool) returns (ok: bool)
      modifies this`configData, this`snapshot, file
      ensures ok == writable
      ensures !ok ==> configData == old(configData) && snapshot == old(snapshot) && file.content == old(file.content)
      ensures ok ==> file.content == Readable(configData) && snapshot == Some(configData)
      ensures ok ==> configData == if explicit.Some? then explicit.value
                                   else TreeToWrite(old(snapshot), old(configData), old(file.content))
    {
      var data := configData;
      if explicit.Some? {
        data := explicit.value;
      } else {
        data := MergeWithDisk(data);
      }
      if !writable {
        return false;
      }
      file.content := Readable(data);
      configData := data;
      snapshot := Some(data);
      ok := true;
    }

    /** Refuses a file that is not an object and then leaves the cache alone. */
    method ReloadStrict(defaults: Json, fill: Json -> Json) returns (ok: bool)
      modifies this`configData, this`snapshot
      ensures ok <==> file.content.Missing? || (file.content.Readable? && file.content.tree.Object?)
      ensures ok ==> configData == (if file.content.Missing? then defaults else fill(file.content.tree))
      ensures ok ==> snapshot == Some(configData)
      ensures !ok ==> configData == old(configData) && snapshot == old(snapshot)
    {
      var loaded;
      match file.content {
        case Missing => loaded := defaults;
        case Unreadable => return false;
        case Readable(tree) =>
          if !tree.Object? {
            return false;
          }
          loaded := fill(tree);
      }
      configData := loaded;
      snapshot := Some(loaded);
      ok := true;
    }

    method GetSetting(q: Path, default: Json) returns (value: Json)
      ensures value == match Lookup(configData, q) case Some(v) => v case None => default
    {
      value := configData;
      assert q[0..] == q;
      for i := 0 to |q|
        invariant Lookup(configData, q) == Lookup(value, q[i..])
      {
        assert q[i..][1..] == q[i + 1..];
        if value.Object? && q[i] in value.fields {
          value := value.fields[q[i]];
        } else {
          return default;
        }
      }
      assert q[|q|..] == [];
    }

    /**
     * After a failed save the value is in memory; after a successful one it is there, and in the
     * file, exactly when it survives the merge with the file.
     */
    method SetSetting(q: Path, value: Json, writable: bool)
      requires q != [] && configData.Object?
      modifies this`configData, this`snapshot, file
      ensures var edited := SetPath(old(configData), q, value);
              if writable then
                && configData == TreeToWrite(old(snapshot), edited, old(file.content))
                && snapshot == Some(configData) && file.content == Readable(configData)
              else configData == edited && snapshot == old(snapshot) && file.content == old(file.content)
      ensures Lookup(configData, q) == Some(value) <==>
                (writable && Merges(old(snapshot), old(file.content)) ==>
                   Survives(old(snapshot).value, old(file.content).tree, q, value))
    {
      hide Merge, Lookup, SetPath, Survives;
      LookupSetSame(configData, q, value);
      if Merges(snapshot, file.content) { SetThenSave(snapshot.value, configData, file.content.tree, q, value); }
      configData := SetPath(configData, q, value);
      var _ := SaveJsonConfig(None, writable);
    }

    /** One cache and the file it shares take exactly the steps of the protocol. */
    ghost predicate Shows(s: System, p: Pid)
      reads this, file
    {
      && p in s.procs && s.procs[p] == Process(configData, Baseline())
      && snapshot.Some? && file.content == Readable(s.disk)
    }

    ghost function Baseline(): Json
      reads this
    {
      if snapshot.Some? then snapshot.value else Null
    }

    method SaveStep(ghost own: map<Path, Pid>, ghost s: System, ghost p: Pid, writable: bool) returns (ghost s': System)
      requires Shows(s, p)
      modifies this`configData, this`snapshot, file
      ensures s' == Next(own, s, if writable then Save(p) else FailedSave(p))
      ensures Shows(s', p)
    {
      s' := Next(own, s, if writable then Save(p) else FailedSave(p));
      var _ := SaveJsonConfig(None, writable);
    }

    /** An explicitly given tree, as the loader writes when it filled in defaults. */
    method ReplaceStep(ghost own: map<Path, Pid>, ghost s: System, ghost p: Pid, tree: Json) returns (ghost s': System)
      requires Shows(s, p) && tree.Object?
      modifies this`configData, this`snapshot, file
      ensures s' == Next(own, s, Replace(p, tree)) && Shows(s', p)
    {
      s' := Next(own, s, Replace(p, tree));
      var _ := SaveJsonConfig(Some(tree), true);
    }
  }
}
