/** Settings paths, the save protocol of one process, and runs of many processes on one file. */
module ConfigProtocol {
  import opened Text
  import opened Config

  /** A dotted setting name, split. */
  type Path = seq<string>

  /** `get_setting` without its default. */
  function Lookup(t: Json, q: Path): Option<Json> {
    if q == [] then Some(t)
    else if t.Object? && q[0] in t.fields then Lookup(t.fields[q[0]], q[1..])
    else None
  }

  /** The tree `set_setting` leaves: missing or non-object sections on the way become objects. */
  function SetPath(t: Json, q: Path, v: Json): (r: Json)
    requires t.Object? && q != []
    ensures r.Object?
    decreases |q|
  {
    if |q| == 1 then Object(t.fields[q[0] := v])
    else
      var child := if q[0] in t.fields && t.fields[q[0]].Object? then t.fields[q[0]] else EMPTY;
      Object(t.fields[q[0] := SetPath(child, q[1..], v)])
  }

  /** Neither setting contains the other. */
  predicate Apart(q: Path, r: Path) {
    !(q <= r) && !(r <= q)
  }

  lemma {:induction false} LookupSetSame(t: Json, q: Path, v: Json)
    requires t.Object? && q != []
    ensures Lookup(SetPath(t, q, v), q) == Some(v)
    decreases |q|
  {
    if |q| > 1 {
      var child := if q[0] in t.fields && t.fields[q[0]].Object? then t.fields[q[0]] else EMPTY;
      LookupSetSame(child, q[1..], v);
    } else {
      assert q[1..] == [];
    }
  }

  lemma ApartTail(q: Path, r: Path)
    requires Apart(q, r)
    ensures q != [] && r != []
    ensures q[0] == r[0] ==> |q| > 1 && |r| > 1 && Apart(q[1..], r[1..])
  {
    assert [] <= q && [] <= r;
    if q[0] == r[0] {
      assert q[1..] <= r[1..] ==> q <= r;
      assert r[1..] <= q[1..] ==> r <= q;
      assert [] <= q[1..] && [] <= r[1..];
    }
  }

  lemma {:induction false} LookupSetOther(t: Json, q: Path, v: Json, r: Path)
    requires t.Object? && Apart(q, r) && q != []
    ensures Lookup(SetPath(t, q, v), r) == Lookup(t, r)
    decreases |q|
  {
    ApartTail(q, r);
    if q[0] == r[0] {
      var child := if q[0] in t.fields && t.fields[q[0]].Object? then t.fields[q[0]] else EMPTY;
      LookupSetOther(child, q[1..], v, r[1..]);
    }
  }

  // ---------------------------------------------------------------- merging, seen at one path

  lemma LookupOne(t: Json, q: Path)
    requires t.Object? && |q| == 1
    ensures Lookup(t, q) == Get(t.fields, q[0])
  {
    assert q[1..] == [];
  }

  /** Looking below a section that is missing or no object finds what an empty section has. */
  lemma LookupChild(t: Json, q: Path)
    requires t.Object? && |q| > 1
    ensures Lookup(t, q) == Lookup(if q[0] in t.fields && t.fields[q[0]].Object? then t.fields[q[0]] else EMPTY, q[1..])
  {
  }

  /**
   * The merge descends all the way to `q`: no section on the way was created, removed or turned
   * into something else by the edit.
   */
  predicate Patched(b: Json, c: Json, q: Path)
    requires b.Object? && c.Object? && q != []
    decreases |q|
  {
    |q| > 1 && Get(b.fields, q[0]) != Get(c.fields, q[0]) ==>
      && q[0] in b.fields && b.fields[q[0]].Object?
      && q[0] in c.fields && c.fields[q[0]].Object?
      && Patched(b.fields[q[0]], c.fields[q[0]], q[1..])
  }

  predicate BothObjects(x: Option<Json>, y: Option<Json>) {
    x.Some? && y.Some? && x.value.Object? && y.value.Object?
  }

  /** What a merge leaves at one setting, for all trees and all settings. */
  lemma {:induction false} MergeAtPath(b: Json, c: Json, t: Json, q: Path)
    requires b.Object? && c.Object? && t.Object? && q != []
    ensures var x, y := Lookup(b, q), Lookup(c, q);
            Lookup(Merge(b, c, t), q) ==
            if !Patched(b, c, q) then y
            else if x == y then Lookup(t, q)
            else if BothObjects(x, y) then Some(Merge(x.value, y.value, ObjectAt(Lookup(t, q))))
            else y
    decreases |q|
  {
    var k := q[0];
    MergeAt(b, c, t, k);
    if |q| == 1 {
      LookupOne(b, q);
      LookupOne(c, q);
      LookupOne(t, q);
      LookupOne(Merge(b, c, t), q);
    } else {
      LookupChild(t, q);
      if Patched(b, c, q) && Get(b.fields, k) != Get(c.fields, k) {
        MergeAtPath(b.fields[k], c.fields[k], ObjectAt(Get(t.fields, k)), q[1..]);
      } else if k in b.fields && k in c.fields && b.fields[k].Object? && c.fields[k].Object?
        && b.fields[k] != c.fields[k] {
        MergeAtPath(b.fields[k], c.fields[k], ObjectAt(Get(t.fields, k)), q[1..]);
      }
    }
  }

  /** A setting this process did not touch keeps what the file has, unless a section above it was replaced. */
  lemma MergeKeepsUntouched(b: Json, c: Json, t: Json, q: Path)
    requires b.Object? && c.Object? && t.Object? && q != [] && Lookup(b, q) == Lookup(c, q)
    ensures Lookup(Merge(b, c, t), q) == Lookup(t, q) <==> Patched(b, c, q) || Lookup(t, q) == Lookup(c, q)
  {
    hide Merge, Lookup, Patched;
    MergeAtPath(b, c, t, q);
  }

  /** A setting this process did change is written as it stands, unless an object is written in part. */
  lemma MergeWritesChange(b: Json, c: Json, t: Json, q: Path)
    requires b.Object? && c.Object? && t.Object? && q != [] && Lookup(b, q) != Lookup(c, q)
    ensures Lookup(Merge(b, c, t), q) == Lookup(c, q)
            <==> (Patched(b, c, q) && BothObjects(Lookup(b, q), Lookup(c, q)) ==>
                    Written(Lookup(b, q).value, Lookup(c, q).value, ObjectAt(Lookup(t, q))))
  {
    hide Merge, Lookup, Patched, Written;
    MergeAtPath(b, c, t, q);
    if BothObjects(Lookup(b, q), Lookup(c, q)) {
      WrittenExactly(Lookup(b, q).value, Lookup(c, q).value, ObjectAt(Lookup(t, q)));
    }
  }

  /** What the save should leave at `q`: the process's value if it changed it, else the file's. */
  function Intended(b: Json, c: Json, t: Json, q: Path): Option<Json> {
    if Lookup(b, q) == Lookup(c, q) then Lookup(t, q) else Lookup(c, q)
  }

  /** What a caller can check before saving `c`, loaded as `b`, onto `t`. */
  predicate SavesWell(b: Json, c: Json, t: Json, q: Path)
    requires b.Object? && c.Object? && q != []
  {
    if Lookup(b, q) == Lookup(c, q) then Patched(b, c, q) || Lookup(t, q) == Lookup(c, q)
    else Patched(b, c, q) && BothObjects(Lookup(b, q), Lookup(c, q)) ==>
      Written(Lookup(b, q).value, Lookup(c, q).value, ObjectAt(Lookup(t, q)))
  }

  lemma SaveAtPath(b: Json, c: Json, t: Json, q: Path)
    requires b.Object? && c.Object? && t.Object? && q != []
    ensures Lookup(Merge(b, c, t), q) == Intended(b, c, t, q) <==> SavesWell(b, c, t, q)
  {
    hide Merge, Lookup, Patched, Written;
    if Lookup(b, q) == Lookup(c, q) { MergeKeepsUntouched(b, c, t, q); } else { MergeWritesChange(b, c, t, q); }
  }

  // ---------------------------------------------------------------- setting one value

  /** Setting a path makes objects of everything above it. */
  lemma {:induction false} SetPathSections(b: Json, d: Json, q: Path, v: Json)
    requires b.Object? && d.Object? && q != []
    ensures !Patched(b, SetPath(d, q, v), q) ==> Lookup(b, q) == None
    decreases |q|
  {
    var c := SetPath(d, q, v);
    if |q| > 1 {
      var child := if q[0] in d.fields && d.fields[q[0]].Object? then d.fields[q[0]] else EMPTY;
      assert c.fields[q[0]] == SetPath(child, q[1..], v);
      LookupChild(b, q);
      if q[0] in b.fields && b.fields[q[0]].Object? { SetPathSections(b.fields[q[0]], child, q[1..], v); }
    }
  }

  /** When a value that was set is still there after the save. */
  predicate Survives(b: Json, t: Json, q: Path, v: Json) {
    match Lookup(b, q)
    case None => true
    case Some(x) =>
      if x == v then Lookup(t, q) == Some(v) else x.Object? && v.Object? ==> Written(x, v, ObjectAt(Lookup(t, q)))
  }

  /**
   * A value set in memory and saved is there afterwards exactly when the snapshot does not already
   * hold it (unless the file does too), and an object is not written in part.
   */
  lemma SetThenSave(b: Json, d: Json, t: Json, q: Path, v: Json)
    requires b.Object? && d.Object? && t.Object? && q != []
    ensures Lookup(Merge(b, SetPath(d, q, v), t), q) == Some(v) <==> Survives(b, t, q, v)
  {
    hide Merge, Lookup, Patched, Written, SetPath;
    var c := SetPath(d, q, v);
    LookupSetSame(d, q, v);
    SetPathSections(b, d, q, v);
    if Lookup(b, q) == Some(v) { MergeAtPath(b, c, t, q); } else { MergeWritesChange(b, c, t, q); }
  }

  /** Setting a value back to what was loaded, after another process changed it: the write is dropped. */
  lemma RestoredValueIsDropped(b: Json, t: Json, q: Path, v: Json)
    requires b.Object? && t.Object? && q != [] && Lookup(b, q) == Some(v) && Lookup(t, q) != Some(v)
    ensures Lookup(Merge(b, SetPath(b, q, v), t), q) == Lookup(t, q)
  {
    hide Merge, Lookup, Patched, SetPath;
    LookupSetSame(b, q, v);
    SetPathSections(b, b, q, v);
    MergeAtPath(b, SetPath(b, q, v), t, q);
  }

  // ---------------------------------------------------------------- one save against another process

  /** The sections that `q` and `r` share exist in `b`. */
  predicate SharedSections(b: Json, q: Path, r: Path)
    requires Apart(q, r)
    decreases |q|
  {
    ApartTail(q, r);
    q[0] == r[0] ==>
      b.Object? && q[0] in b.fields && b.fields[q[0]].Object? && SharedSections(b.fields[q[0]], q[1..], r[1..])
  }

  /** A section the process had to create replaces whatever the file has there. */
  lemma CreatedSectionReplaces(b: Json, t: Json, q: Path, v: Json, r: Path)
    requires b.Object? && t.Object? && Apart(q, r) && q != [] && r != [] && q[0] == r[0]
    requires !(q[0] in b.fields && b.fields[q[0]].Object?)
    ensures Lookup(Merge(b, SetPath(b, q, v), t), r) == None
  {
    ApartTail(q, r);
    MergeAt(b, SetPath(b, q, v), t, r[0]);
    LookupSetOther(EMPTY, q[1..], v, r[1..]);
  }

  /** A section the process had loaded is patched. */
  lemma LoadedSectionIsPatched(b: Json, t: Json, q: Path, v: Json, r: Path)
    requires b.Object? && t.Object? && Apart(q, r) && q != [] && r != [] && q[0] == r[0]
    requires q[0] in b.fields && b.fields[q[0]].Object?
    ensures |q| > 1 && |r| > 1
    ensures var child := if r[0] in t.fields && t.fields[r[0]].Object? then t.fields[r[0]] else EMPTY;
            && Lookup(t, r) == Lookup(child, r[1..])
            && (Lookup(Merge(b, SetPath(b, q, v), t), r) == Lookup(t, r)
                <==>
                Lookup(Merge(b.fields[q[0]], SetPath(b.fields[q[0]], q[1..], v), child), r[1..])
                == Lookup(child, r[1..]))
  {
    ApartTail(q, r);
    LookupChild(t, r);
    MergeAt(b, SetPath(b, q, v), t, r[0]);
    var x := b.fields[q[0]];
    var child := if r[0] in t.fields && t.fields[r[0]].Object? then t.fields[r[0]] else EMPTY;
    if SetPath(x, q[1..], v) == x { NoChangeIsIdentity(x, child); }
  }

  /**
   * A process that loaded `b`, set `q` and saves onto `t` keeps another process's setting `r`
   * exactly when the sections common to both settings were there when it loaded, or the file has
   * no `r` to lose.
   */
  lemma {:induction false} SaveKeepsOther(b: Json, t: Json, q: Path, v: Json, r: Path)
    requires b.Object? && t.Object? && Apart(q, r) && q != []
    ensures Lookup(Merge(b, SetPath(b, q, v), t), r) == Lookup(t, r)
            <==> SharedSections(b, q, r) || Lookup(t, r) == None
    decreases |q|
  {
    hide Merge, SetPath, Lookup;
    ApartTail(q, r);
    var k := r[0];
    if q[0] != r[0] {
      SaveKeepsOtherKey(b, t, q, v, r);
    } else if k in b.fields && b.fields[k].Object? {
      LoadedSectionIsPatched(b, t, q, v, r);
      var child := if k in t.fields && t.fields[k].Object? then t.fields[k] else EMPTY;
      SaveKeepsOther(b.fields[k], child, q[1..], v, r[1..]);
    } else {
      CreatedSectionReplaces(b, t, q, v, r);
    }
  }

  lemma SaveKeepsOtherKey(b: Json, t: Json, q: Path, v: Json, r: Path)
    requires b.Object? && t.Object? && q != [] && r != [] && q[0] != r[0]
    ensures Lookup(Merge(b, SetPath(b, q, v), t), r) == Lookup(t, r)
  {
    MergeAt(b, SetPath(b, q, v), t, r[0]);
  }

  /** Two processes that each create the same section: the second save discards the first setting. */
  lemma ConcurrentSectionIsLost()
    ensures var start := EMPTY;
            var first := Merge(start, SetPath(start, ["ui", "a"], Bool(true)), start);
            var second := Merge(start, SetPath(start, ["ui", "b"], Bool(true)), first);
            Lookup(first, ["ui", "a"]) == Some(Bool(true)) && Lookup(second, ["ui", "a"]) == None
  {
    var start := EMPTY;
    var c := SetPath(start, ["ui", "a"], Bool(true));
    MergeOntoBase(start, c);
    LookupSetSame(start, ["ui", "a"], Bool(true));
    var d := SetPath(start, ["ui", "b"], Bool(true));
    assert Apart(["ui", "b"], ["ui", "a"]);
    SaveKeepsOther(start, c, ["ui", "b"], Bool(true), ["ui", "a"]);
    MergeAt(start, d, c, "ui");
    LookupSetOther(start, ["ui", "b"], Bool(true), ["ui", "a"]);
  }

  /** A value the file lacks is written whole exactly when the edit leaves nothing of the loaded one in place. */
  predicate Fresh(x: Json, y: Json)
    decreases x
  {
    x.Object? && y.Object? ==>
      forall k | k in x.fields.Keys && k in y.fields.Keys ::
        x.fields[k] != y.fields[k] && (x.fields[k].Object? && y.fields[k].Object? ==> Fresh(x.fields[k], y.fields[k]))
  }

  /** An object filled in by default, edited and saved to a file that lacks it. */
  lemma {:induction false} FilledObjectIsWrittenInPart(x: Json, y: Json)
    ensures Merge(x, y, EMPTY) == y <==> Fresh(x, y)
    decreases x
  {
    WrittenExactly(x, y, EMPTY);
    if x.Object? && y.Object? {
      forall k ensures k in x.fields && k in y.fields ==>
        (KeyWritten(x, y, EMPTY, k)
         <==>
         x.fields[k] != y.fields[k]
         && (x.fields[k].Object? && y.fields[k].Object? ==> Fresh(x.fields[k], y.fields[k])))
      {
        if k in x.fields && k in y.fields {
          FilledObjectIsWrittenInPart(x.fields[k], y.fields[k]);
          WrittenExactly(x.fields[k], y.fields[k], EMPTY);
        }
      }
      forall k | k in x.fields.Keys + y.fields.Keys && !(k in x.fields && k in y.fields)
        ensures KeyWritten(x, y, EMPTY, k) { }
    }
  }

  // ---------------------------------------------------------------- the protocol

  /** What the settings file holds. */
  datatype File = Missing | Unreadable | Readable(tree: Json)

  /** There is a baseline, and the file is one to patch. */
  predicate Merges(snapshot: Option<Json>, file: File) {
    snapshot.Some? && snapshot.value.Object? && file.Readable? && file.tree.Object?
  }

  /** The tree a save writes: the edits since the snapshot patched onto a readable file. */
  function TreeToWrite(snapshot: Option<Json>, data: Json, file: File): Json {
    if Merges(snapshot, file) then Merge(snapshot.value, data, file.tree)
    else data
  }

  datatype Process = Process(data: Json, snapshot: Json)

  type Pid = nat

  /** The file, the processes, and for each owned setting what its owner last wrote. */
  datatype System = System(disk: Json, procs: map<Pid, Process>, saved: map<Path, Option<Json>>)

  datatype Step =
    | Edit(p: Pid, data: Json)
    | Save(p: Pid)
    | FailedSave(p: Pid)
    | Replace(p: Pid, tree: Json)
    | Reload(p: Pid, loaded: Json)

  /** An edit in memory touches only settings the process owns. */
  predicate OwnEdit(own: map<Path, Pid>, p: Pid, before: Json, after: Json) {
    after.Object? && forall q :: q in own && own[q] != p ==> Lookup(after, q) == Lookup(before, q)
  }

  /** A load may fill in any defaults it likes, and a given tree may be anything; both are objects. */
  predicate Enabled(own: map<Path, Pid>, s: System, a: Step) {
    && a.p in s.procs
    && (a.Edit? ==> OwnEdit(own, a.p, s.procs[a.p].data, a.data))
    && (a.Reload? ==> a.loaded.Object?)
    && (a.Replace? ==> a.tree.Object?)
  }

  /** Settings of `p` that differ from its snapshot count as saved; the rest stay as they were. */
  function Recorded(own: map<Path, Pid>, s: System, p: Pid): map<Path, Option<Json>>
    requires p in s.procs
  {
    var Process(data, snapshot) := s.procs[p];
    map q | q in s.saved ::
      if q in own && own[q] == p && Lookup(data, q) != Lookup(snapshot, q) then Lookup(data, q) else s.saved[q]
  }

  /** After an explicitly given tree is written, every setting of `p` counts as saved. */
  function Rewritten(own: map<Path, Pid>, s: System, p: Pid, tree: Json): map<Path, Option<Json>> {
    map q | q in s.saved :: if q in own && own[q] == p then Lookup(tree, q) else s.saved[q]
  }

  function Next(own: map<Path, Pid>, s: System, a: Step): System
    requires Enabled(own, s, a)
  {
    match a
    case Edit(p, data) => s.(procs := s.procs[p := s.procs[p].(data := data)])
    case FailedSave(p) => s
    case Reload(p, loaded) => s.(procs := s.procs[p := Process(loaded, loaded)])
    case Replace(p, tree) => System(tree, s.procs[p := Process(tree, tree)], Rewritten(own, s, p, tree))
    case Save(p) =>
      var tree := TreeToWrite(Some(s.procs[p].snapshot), s.procs[p].data, Readable(s.disk));
      System(tree, s.procs[p := Process(tree, tree)], Recorded(own, s, p))
  }

  /** A run: every step enabled where it happens. */
  predicate IsRun(own: map<Path, Pid>, s: System, steps: seq<Step>)
    decreases |steps|
  {
    steps == [] || (Enabled(own, s, steps[0]) && IsRun(own, Next(own, s, steps[0]), steps[1..]))
  }

  function After(own: map<Path, Pid>, s: System, steps: seq<Step>): System
    requires IsRun(own, s, steps)
    decreases |steps|
  {
    if steps == [] then s else After(own, Next(own, s, steps[0]), steps[1..])
  }

  /** Trees are objects, and no process holds an edit of a setting it does not own. */
  predicate Inv(own: map<Path, Pid>, s: System) {
    && s.saved.Keys == own.Keys && s.disk.Object?
    && (forall p :: p in s.procs ==> s.procs[p].data.Object? && s.procs[p].snapshot.Object?)
    && (forall p, q :: p in s.procs && q in own && own[q] != p ==> OnlyRead(s.procs[p], q))
  }

  predicate OnlyRead(proc: Process, q: Path) { Lookup(proc.data, q) == Lookup(proc.snapshot, q) }

  /** Every process has just loaded something, and the record is what the file holds. */
  predicate Start(own: map<Path, Pid>, s: System) {
    && s.disk.Object? && s.saved.Keys == own.Keys && NothingLost(own, s)
    && (forall p :: p in s.procs ==> s.procs[p].data.Object? && s.procs[p].data == s.procs[p].snapshot)
  }

  /** The file holds, for every setting, its owner's last saved value. */
  predicate NothingLost(own: map<Path, Pid>, s: System) {
    s.saved.Keys == own.Keys && forall q :: q in own ==> Lookup(s.disk, q) == s.saved[q]
  }

  lemma StepKeepsInv(own: map<Path, Pid>, s: System, a: Step)
    requires Inv(own, s) && Enabled(own, s, a)
    ensures Inv(own, Next(own, s, a))
  {
    hide Lookup, Merge;
    if a.Save? { MergeIsObject(s.procs[a.p].snapshot, s.procs[a.p].data, s.disk); }
    var s' := Next(own, s, a);
    forall p, q | p in s'.procs && q in own && own[q] != p ensures OnlyRead(s'.procs[p], q) {
      assert p in s.procs && OnlyRead(s.procs[p], q);
    }
  }

  lemma MergeIsObject(b: Json, c: Json, t: Json)
    requires b.Object? && c.Object? && t.Object?
    ensures Merge(b, c, t).Object?
  {
  }

  /** Every owned setting comes through this save. */
  predicate SafeSave(own: map<Path, Pid>, s: System, p: Pid)
    requires Inv(own, s) && p in s.procs && [] !in own
  {
    forall q :: q in own ==> SavesWell(s.procs[p].snapshot, s.procs[p].data, s.disk, q)
  }

  /** A given tree has the file's value for every setting of the others. */
  predicate SafeReplace(own: map<Path, Pid>, s: System, p: Pid, tree: Json) {
    forall q :: q in own && own[q] != p ==> Lookup(tree, q) == Lookup(s.disk, q)
  }

  /** Every save of the run comes at a moment when it is safe. */
  predicate SafeRun(own: map<Path, Pid>, s: System, steps: seq<Step>)
    requires Inv(own, s) && IsRun(own, s, steps) && [] !in own
    decreases |steps|
  {
    steps == [] ||
    (&& (steps[0].Save? ==> SafeSave(own, s, steps[0].p))
     && (steps[0].Replace? ==> SafeReplace(own, s, steps[0].p, steps[0].tree))
     && (StepKeepsInv(own, s, steps[0]); SafeRun(own, Next(own, s, steps[0]), steps[1..])))
  }

  /** At no moment of the run is anything lost. */
  predicate LosesNothing(own: map<Path, Pid>, s: System, steps: seq<Step>)
    requires IsRun(own, s, steps)
    decreases |steps|
  {
    NothingLost(own, s) && (steps != [] ==> LosesNothing(own, Next(own, s, steps[0]), steps[1..]))
  }

  /** One save loses nothing exactly when it is safe. */
  lemma SaveLosesNothing(own: map<Path, Pid>, s: System, p: Pid)
    requires Inv(own, s) && NothingLost(own, s) && p in s.procs && [] !in own
    ensures NothingLost(own, Next(own, s, Save(p))) <==> SafeSave(own, s, p)
  {
    hide Lookup, Merge, SavesWell;
    var Process(data, snapshot) := s.procs[p];
    var s' := Next(own, s, Save(p));
    forall q | q in own ensures Lookup(s'.disk, q) == s'.saved[q] <==> SavesWell(snapshot, data, s.disk, q) {
      SaveAtPath(snapshot, data, s.disk, q);
      assert own[q] != p ==> OnlyRead(s.procs[p], q);
    }
  }

  lemma ReplaceLosesNothing(own: map<Path, Pid>, s: System, p: Pid, tree: Json)
    requires Enabled(own, s, Replace(p, tree)) && NothingLost(own, s)
    ensures NothingLost(own, Next(own, s, Replace(p, tree))) <==> SafeReplace(own, s, p, tree)
  {
    hide Lookup;
    var s' := Next(own, s, Replace(p, tree));
    forall q | q in own
      ensures Lookup(s'.disk, q) == s'.saved[q] <==> own[q] == p || Lookup(tree, q) == Lookup(s.disk, q) { }
  }

  lemma QuietStep(own: map<Path, Pid>, s: System, a: Step)
    requires Enabled(own, s, a) && NothingLost(own, s) && !a.Save? && !a.Replace?
    ensures NothingLost(own, Next(own, s, a))
  {
  }

  lemma StartInv(own: map<Path, Pid>, s: System)
    requires Start(own, s)
    ensures Inv(own, s) && NothingLost(own, s)
  {
    hide Lookup;
    forall p, q | p in s.procs && q in own && own[q] != p ensures OnlyRead(s.procs[p], q) { }
  }

  lemma {:induction false} RunLosesNothing(own: map<Path, Pid>, s: System, steps: seq<Step>)
    requires Inv(own, s) && NothingLost(own, s) && IsRun(own, s, steps) && [] !in own
    ensures LosesNothing(own, s, steps) <==> SafeRun(own, s, steps)
    decreases |steps|
  {
    hide NothingLost, SafeSave, SafeReplace, Next, OwnEdit, Inv;
    if steps != [] {
      var a := steps[0];
      StepKeepsInv(own, s, a);
      if a.Save? { SaveLosesNothing(own, s, a.p); }
      else if a.Replace? { ReplaceLosesNothing(own, s, a.p, a.tree); }
      else { QuietStep(own, s, a); }
      var s' := Next(own, s, a);
      if NothingLost(own, s') { RunLosesNothing(own, s', steps[1..]); } else { LostIsLost(own, s', steps[1..]); }
    }
  }

  /**
   * No lost updates: over any interleaving of edits, saves, failed saves, loads and writes of a given tree by
   * processes that edit only settings they own, the file holds at every moment each owner's last saved value if
   * and only if every save is safe when it happens.
   */
  lemma NoLostUpdates(own: map<Path, Pid>, s: System, steps: seq<Step>)
    requires Start(own, s) && IsRun(own, s, steps) && [] !in own
    ensures Inv(own, s)
    ensures LosesNothing(own, s, steps) <==> SafeRun(own, s, steps)
  {
    hide *;
    StartInv(own, s);
    RunLosesNothing(own, s, steps);
  }

  lemma LostIsLost(own: map<Path, Pid>, s: System, steps: seq<Step>)
    requires IsRun(own, s, steps) && !NothingLost(own, s)
    ensures !LosesNothing(own, s, steps)
  {
  }

  // ---------------------------------------------------------------- pending edits

  /** Steps after which the unsaved edits of `p` are still pending: no edit, load or save of its own. */
  predicate LeavesPending(p: Pid, steps: seq<Step>) {
    forall a :: a in steps && a.p == p ==> a.FailedSave?
  }

  lemma {:induction false} PendingStays(own: map<Path, Pid>, s: System, steps: seq<Step>, p: Pid)
    requires IsRun(own, s, steps) && p in s.procs && LeavesPending(p, steps)
    ensures p in After(own, s, steps).procs && After(own, s, steps).procs[p] == s.procs[p]
    decreases |steps|
  {
    hide TreeToWrite, Recorded, OwnEdit;
    if steps != [] {
      PendingStays(own, Next(own, s, steps[0]), steps[1..], p);
    }
  }

  lemma {:induction false} RunKeepsInv(own: map<Path, Pid>, s: System, steps: seq<Step>)
    requires Inv(own, s) && IsRun(own, s, steps)
    ensures Inv(own, After(own, s, steps))
    decreases |steps|
  {
    hide Next, Enabled, Inv;
    if steps != [] {
      StepKeepsInv(own, s, steps[0]);
      RunKeepsInv(own, Next(own, s, steps[0]), steps[1..]);
    }
  }

  /**
   * A pending edit survives failed saves and everything other processes do, and the next
   * successful save of its process writes it if and only if that save is safe for it.
   */
  lemma FailedSaveKeepsEdit(own: map<Path, Pid>, s: System, steps: seq<Step>, p: Pid, q: Path)
    requires Inv(own, s) && IsRun(own, s, steps) && p in s.procs && q != [] && LeavesPending(p, steps)
    requires Lookup(s.procs[p].data, q) != Lookup(s.procs[p].snapshot, q)
    ensures var end := After(own, s, steps);
            && p in end.procs && end.procs[p] == s.procs[p] && s.procs[p].snapshot.Object? && s.procs[p].data.Object?
            && (Lookup(Next(own, end, Save(p)).disk, q) == Lookup(s.procs[p].data, q)
                <==> SavesWell(s.procs[p].snapshot, s.procs[p].data, end.disk, q))
  {
    hide Lookup, IsRun, After, LeavesPending, SavesWell, Merge;
    PendingStays(own, s, steps, p);
    RunKeepsInv(own, s, steps);
    SaveAtPath(s.procs[p].snapshot, s.procs[p].data, After(own, s, steps).disk, q);
  }

  // ---------------------------------------------------------------- when every save is safe

  /** Every section on the way to `q` is an object. */
  predicate Sectioned(t: Json, q: Path) {
    t.Object? && (|q| > 1 ==> q[0] in t.fields && Sectioned(t.fields[q[0]], q[1..]))
  }

  /** The file has the baseline's value at `q`, or lacks a value the reader filled in as a leaf. */
  predicate InSync(b: Json, t: Json, q: Path) {
    || Lookup(t, q) == Lookup(b, q)
    || (Lookup(t, q) == None && Lookup(b, q).Some? && !Lookup(b, q).value.Object?)
  }

  lemma {:induction false} SectionedIsPatched(b: Json, c: Json, q: Path)
    requires q != [] && Sectioned(b, q) && Sectioned(c, q)
    ensures Patched(b, c, q)
    decreases |q|
  {
    if |q| > 1 { SectionedIsPatched(b.fields[q[0]], c.fields[q[0]], q[1..]); }
  }

  /** Between trees that have the sections, a save of a setting in sync is safe. */
  lemma InSyncSavesWell(b: Json, c: Json, t: Json, q: Path)
    requires q != [] && Sectioned(b, q) && Sectioned(c, q) && t.Object?
    requires Lookup(b, q) == Lookup(c, q) || InSync(b, t, q)
    ensures b.Object? && c.Object? && SavesWell(b, c, t, q)
  {
    hide Lookup, Patched, Written;
    SectionedIsPatched(b, c, q);
    if Lookup(b, q) != Lookup(c, q) && BothObjects(Lookup(b, q), Lookup(c, q)) {
      MergeOntoBase(Lookup(b, q).value, Lookup(c, q).value);
      WrittenExactly(Lookup(b, q).value, Lookup(c, q).value, Lookup(b, q).value);
    }
  }

  lemma {:induction false} MergeKeepsSections(b: Json, c: Json, t: Json, q: Path)
    requires Sectioned(b, q) && Sectioned(c, q) && Sectioned(t, q)
    ensures Sectioned(Merge(b, c, t), q)
    decreases |q|
  {
    if |q| > 1 {
      MergeAt(b, c, t, q[0]);
      MergeKeepsSections(b.fields[q[0]], c.fields[q[0]], t.fields[q[0]], q[1..]);
    }
  }

  /** All sections exist, and each owner's snapshot is in sync with the file. */
  predicate Steady(own: map<Path, Pid>, s: System) {
    forall q :: q in own ==> SteadyAt(own[q], s, q)
  }

  predicate SteadyAt(owner: Pid, s: System, q: Path) {
    && Sectioned(s.disk, q)
    && (forall p :: p in s.procs ==> Sectioned(s.procs[p].data, q) && Sectioned(s.procs[p].snapshot, q))
    && (owner in s.procs ==> InSync(s.procs[owner].snapshot, s.disk, q))
  }

  /** Edits keep the sections; loads return the file, with missing leaves filled in; given trees leave others alone. */
  predicate SteadyStep(own: map<Path, Pid>, s: System, a: Step) {
    forall q :: q in own ==>
      && (a.Edit? ==> Sectioned(a.data, q))
      && (a.Reload? ==> Sectioned(a.loaded, q) && InSync(a.loaded, s.disk, q))
      && (a.Replace? ==> Sectioned(a.tree, q) && (own[q] != a.p ==> Lookup(a.tree, q) == Lookup(s.disk, q)))
  }

  predicate SteadyRun(own: map<Path, Pid>, s: System, steps: seq<Step>)
    requires IsRun(own, s, steps)
    decreases |steps|
  {
    steps == [] || (SteadyStep(own, s, steps[0]) && SteadyRun(own, Next(own, s, steps[0]), steps[1..]))
  }

  lemma SteadySaveIsSafe(own: map<Path, Pid>, s: System, p: Pid)
    requires Inv(own, s) && Steady(own, s) && p in s.procs && [] !in own
    ensures SafeSave(own, s, p)
  {
    hide Lookup, Sectioned, InSync, SavesWell;
    forall q | q in own ensures SavesWell(s.procs[p].snapshot, s.procs[p].data, s.disk, q) {
      assert SteadyAt(own[q], s, q);
      assert own[q] != p ==> OnlyRead(s.procs[p], q);
      InSyncSavesWell(s.procs[p].snapshot, s.procs[p].data, s.disk, q);
    }
  }

  lemma SteadySaveStays(own: map<Path, Pid>, s: System, p: Pid, q: Path)
    requires Inv(own, s) && Steady(own, s) && p in s.procs && q in own && [] !in own
    ensures SteadyAt(own[q], Next(own, s, Save(p)), q)
  {
    hide Lookup, Sectioned, Merge, SavesWell;
    assert SteadyAt(own[q], s, q);
    var Process(data, snapshot) := s.procs[p];
    var s' := Next(own, s, Save(p));
    MergeKeepsSections(snapshot, data, s.disk, q);
    if own[q] != p && own[q] in s.procs {
      SteadySaveIsSafe(own, s, p);
      SaveAtPath(snapshot, data, s.disk, q);
      assert OnlyRead(s.procs[p], q);
      assert Lookup(s'.disk, q) == Lookup(s.disk, q);
    }
  }

  lemma SteadyStays(own: map<Path, Pid>, s: System, a: Step)
    requires Inv(own, s) && Steady(own, s) && Enabled(own, s, a) && SteadyStep(own, s, a) && [] !in own
    ensures Steady(own, Next(own, s, a))
  {
    hide Lookup, Sectioned, InSync, Merge;
    forall q | q in own ensures SteadyAt(own[q], Next(own, s, a), q) {
      assert SteadyAt(own[q], s, q);
      if a.Save? { SteadySaveStays(own, s, a.p, q); }
      if a.Replace? { SteadyReplaceStays(own, s, a.p, a.tree, q); }
    }
  }

  lemma SteadyReplaceStays(own: map<Path, Pid>, s: System, p: Pid, tree: Json, q: Path)
    requires Enabled(own, s, Replace(p, tree)) && q in own && SteadyAt(own[q], s, q)
    requires Sectioned(tree, q) && (own[q] != p ==> Lookup(tree, q) == Lookup(s.disk, q))
    ensures SteadyAt(own[q], Next(own, s, Replace(p, tree)), q)
  {
    hide Lookup, Sectioned;
  }

  lemma SteadyReplaceIsSafe(own: map<Path, Pid>, s: System, p: Pid, tree: Json)
    requires SteadyStep(own, s, Replace(p, tree))
    ensures SafeReplace(own, s, p, tree)
  {
    hide Lookup, Sectioned;
  }

  /** With the sections in place and only leaves filled in, every save of every run is safe. */
  lemma {:induction false} SteadyRunIsSafe(own: map<Path, Pid>, s: System, steps: seq<Step>)
    requires Inv(own, s) && Steady(own, s) && IsRun(own, s, steps) && SteadyRun(own, s, steps) && [] !in own
    ensures SafeRun(own, s, steps)
    decreases |steps|
  {
    hide Inv, Steady, Next, SafeSave, SafeReplace, SteadyStep, OwnEdit;
    if steps != [] {
      var a := steps[0];
      StepKeepsInv(own, s, a);
      SteadyStays(own, s, a);
      if a.Save? { SteadySaveIsSafe(own, s, a.p); }
      if a.Replace? { SteadyReplaceIsSafe(own, s, a.p, a.tree); }
      SteadyRunIsSafe(own, Next(own, s, a), steps[1..]);
    }
  }

  /** Neither setting of two owners contains the other. */
  predicate ValidOwners(own: map<Path, Pid>) {
    && (forall q :: q in own ==> q != [])
    && (forall q, r :: q in own && r in own && q != r ==> Apart(q, r))
  }

  /** Setting a value of one's own through its path is an edit the protocol allows, and keeps the sections. */
  lemma SetPathIsOwnEdit(own: map<Path, Pid>, p: Pid, data: Json, q: Path, v: Json)
    requires ValidOwners(own) && q in own && own[q] == p && data.Object?
    ensures OwnEdit(own, p, data, SetPath(data, q, v))
    ensures forall r :: r in own && Sectioned(data, r) ==> Sectioned(SetPath(data, q, v), r)
  {
    forall r | r in own
      ensures Sectioned(data, r) ==> Sectioned(SetPath(data, q, v), r)
      ensures own[r] != p ==> Lookup(SetPath(data, q, v), r) == Lookup(data, r)
    {
      if Sectioned(data, r) { SetPathKeepsSections(data, q, v, r); }
      if own[r] != p { LookupSetOther(data, q, v, r); }
    }
  }

  lemma {:induction false} SetPathKeepsSections(t: Json, q: Path, v: Json, r: Path)
    requires t.Object? && q != [] && Sectioned(t, r) && (q == r || Apart(q, r))
    ensures Sectioned(SetPath(t, q, v), r)
    decreases |q|
  {
    if |r| > 1 && q[0] == r[0] {
      if q != r { ApartTail(q, r); }
      SetPathKeepsSections(t.fields[q[0]], q[1..], v, r[1..]);
    }
  }
}
