/**
  What electron/main.js does with a migration's leftovers when the app
  starts: `removeTemp` sweeps the staging folders and locks out of the
  parent folder recorded under `tempMigratePath`, and `removeLastDir`
  deletes the data folder recorded under `lastCustomPath`, the one a
  finished migration moved away from. Both run at the start of
  `app.whenReady`, before the migration handler is registered.
*/
module Startup {
  import opened Paths
  import opened FileSystem
  import opened Copy
  import opened AppStore
  import opened MigrateFolder

  const MigratingMarker := ".argo.migrating"
  const LockMarker := ".argo.lock"

  /** `file.endsWith('.argo.migrating') || file.endsWith('.argo.lock')`. */
  predicate IsMarker(name: Name) {
    EndsWith(name, MigratingMarker) || EndsWith(name, LockMarker)
  }

  /** The staging folder and the lock of an attempt carry marker names; the data folder does not. */
  lemma AttemptLeavesMarkers(parent: Path)
    ensures IsMarker(StagingDir(parent)[|parent|]) && IsMarker(LockFile(parent)[|parent|])
    ensures !IsMarker(NewDir(parent)[|parent|])
  {
  }

  /** `q` is a marker entry directly inside `dir`, or lies beneath one. */
  predicate UnderMarker(dir: Path, q: Path) {
    IsStrictPrefix(dir, q) && IsMarker(q[|dir|])
  }

  /** The disk with every marker entry of `dir` removed together with its contents. */
  function Swept(fs: Fs, dir: Path): Fs {
    map q | q in fs && !UnderMarker(dir, q) :: fs[q]
  }

  /** The sweep once the entries of `dir` named in `done` have been visited. */
  function SweptAmong(fs: Fs, dir: Path, done: set<Name>): Fs {
    map q | q in fs && !(UnderMarker(dir, q) && q[|dir|] in done) :: fs[q]
  }

  /** `dir + [n]` is an ancestor of `q` exactly when `q` lies beneath `dir` in the entry `n`. */
  lemma InChild(dir: Path, n: Name, q: Path)
    ensures IsPrefix(dir + [n], q) <==> IsStrictPrefix(dir, q) && q[|dir|] == n
  {
    if IsStrictPrefix(dir, q) && q[|dir|] == n {
      assert q[..|dir| + 1] == q[..|dir|] + [q[|dir|]];
    }
  }

  lemma SweptAmongNone(fs: Fs, dir: Path)
    ensures SweptAmong(fs, dir, {}) == fs
  {
  }

  /** Visiting one more entry removes its tree when, and only when, its name is a marker. */
  lemma SweptAmongStep(fs: Fs, dir: Path, done: set<Name>, n: Name)
    ensures SweptAmong(fs, dir, done + {n}) ==
      if IsMarker(n) then RemoveTree(SweptAmong(fs, dir, done), dir + [n]) else SweptAmong(fs, dir, done)
  {
  }

  /** On a real tree, everything beneath `dir` lies in one of the entries `readdir` lists. */
  lemma SweptAmongChildren(fs: Fs, dir: Path)
    requires WellFormed(fs)
    ensures SweptAmong(fs, dir, Children(fs, dir)) == Swept(fs, dir)
  {
    forall q | q in fs && UnderMarker(dir, q) ensures q[|dir|] in Children(fs, dir) {
      ChildOnTheWay(fs, dir, q);
    }
  }

  /**
    The `forEach` over the names `readdir(dir)` returns, in the order it
    returns them: each marker entry is removed with everything in it.
  */
  method SweepMarkers(fs: Fs, dir: Path) returns (fs': Fs)
    requires WellFormed(fs)
    ensures fs' == Swept(fs, dir)
  {
    var files := Children(fs, dir);
    var todo := files;
    fs' := fs;
    SweptAmongNone(fs, dir);
    while todo != {}
      invariant todo <= files
      invariant fs' == SweptAmong(fs, dir, files - todo)
      decreases |todo|
    {
      var file :| file in todo;
      SweptAmongStep(fs, dir, files - todo, file);
      if IsMarker(file) {
        fs' := RemoveTree(fs', dir + [file]);
      }
      assert files - (todo - {file}) == (files - todo) + {file};
      todo := todo - {file};
    }
    SweptAmongChildren(fs, dir);
  }

  /**
    What `removeTemp` leaves, given the recorded `tempMigratePath` and
    whether `readdir` can list it: nothing changes when the value is `''`,
    names nothing, names a regular file (`ENOTDIR`) or cannot be read.
  */
  function TempSwept(fs: Fs, tempDir: string, readable: bool): Fs
    requires IsFolderOrUnset(tempDir)
  {
    if tempDir == "" then fs
    else
      var dir := Parse(tempDir).value;
      if dir in fs && fs[dir].Dir? && readable then Swept(fs, dir) else fs
  }

  /** `removeTemp`: the guards on the recorded value, then the sweep. */
  method RemoveTemp(fs: Fs, tempDir: string, readable: bool) returns (fs': Fs)
    requires WellFormed(fs) && IsFolderOrUnset(tempDir)
    ensures fs' == TempSwept(fs, tempDir, readable)
    ensures WellFormed(fs')
  {
    if tempDir == "" {
      return fs;
    }
    var dir := Parse(tempDir).value;
    if dir !in fs {
      return fs;
    }
    if fs[dir].File? || !readable {
      return fs;
    }
    fs' := SweepMarkers(fs, dir);
    SweptKeepsWellFormed(fs, dir);
  }

  /** `removeTemp` touches nothing when the recorded value is unset, missing, a file or unreadable. */
  lemma TempSweptNoEffect(fs: Fs, tempDir: string, readable: bool)
    requires IsFolderOrUnset(tempDir)
    requires tempDir == "" || Parse(tempDir).value !in fs || fs[Parse(tempDir).value].File? || !readable
    ensures TempSwept(fs, tempDir, readable) == fs
  {
  }

  /**
    On a readable folder, `removeTemp` removes exactly the marker entries
    directly inside it, each with its contents, and keeps every other
    entry, inside the folder or elsewhere, unchanged.
  */
  lemma TempSweptExact(fs: Fs, tempDir: string, readable: bool, n: Name, q: Path)
    requires WellFormed(fs) && tempDir != "" && IsFolderOrUnset(tempDir) && readable
    requires Parse(tempDir).value in fs && fs[Parse(tempDir).value].Dir?
    ensures var dir := Parse(tempDir).value;
      n in Children(fs, dir) ==> (dir + [n] in TempSwept(fs, tempDir, readable) <==> !IsMarker(n))
    ensures var dir := Parse(tempDir).value;
      IsMarker(n) && IsPrefix(dir + [n], q) ==> q !in TempSwept(fs, tempDir, readable)
    ensures var dir := Parse(tempDir).value;
      q in fs && !UnderMarker(dir, q) ==> q in TempSwept(fs, tempDir, readable) && TempSwept(fs, tempDir, readable)[q] == fs[q]
    ensures forall p :: p in TempSwept(fs, tempDir, readable) ==> p in fs && TempSwept(fs, tempDir, readable)[p] == fs[p]
  {
    var dir := Parse(tempDir).value;
    InChild(dir, n, q);
    assert (dir + [n])[|dir|] == n && IsStrictPrefix(dir, dir + [n]);
  }

  /** The sweep leaves a well-formed disk. */
  lemma SweptKeepsWellFormed(fs: Fs, dir: Path)
    requires WellFormed(fs)
    ensures WellFormed(Swept(fs, dir))
  {
  }

  /** Sweeping twice is sweeping once. */
  lemma SweptIsIdempotent(fs: Fs, dir: Path)
    ensures Swept(Swept(fs, dir), dir) == Swept(fs, dir)
  {
  }

  /**
    `removeLastDir`: `fsExtra.remove(lastDir)` when the recorded value is
    not `''` and exists; the folder goes with everything beneath it, and
    nothing else changes.
  */
  function RemoveLastDir(fs: Fs, lastDir: string): (r: Fs)
    requires IsDataDirOrUnset(lastDir)
    ensures lastDir == "" || DataDir(lastDir) !in fs ==> r == fs
    ensures lastDir != "" && DataDir(lastDir) in fs ==>
      forall q :: q in r <==> q in fs && !IsPrefix(DataDir(lastDir), q)
    ensures forall q :: q in r ==> q in fs && r[q] == fs[q]
    ensures WellFormed(fs) ==> WellFormed(r)
  {
    if lastDir == "" || DataDir(lastDir) !in fs then fs
    else
      RemoveTreeKeepsWellFormedIf(fs, DataDir(lastDir));
      RemoveTree(fs, DataDir(lastDir))
  }

  lemma RemoveTreeKeepsWellFormedIf(fs: Fs, p: Path)
    requires p != []
    ensures WellFormed(fs) ==> WellFormed(RemoveTree(fs, p))
  {
  }

  /** The disk once both start-up clean-ups have run over the settings `d`. */
  function Relaunched(fs: Fs, d: map<Key, string>, readable: bool): Fs
    requires ValidData(d)
  {
    RemoveLastDir(TempSwept(fs, d[TempMigratePathKey], readable), d[LastCustomPathKey])
  }

  /**
    The clean-ups are asynchronous and may finish in either order: the
    sweep and the removal of the previous folder commute.
  */
  lemma SweepCommutesWithRemoval(fs: Fs, dir: Path, last: Path)
    ensures Swept(RemoveTree(fs, last), dir) == RemoveTree(Swept(fs, dir), last)
  {
  }

  /**
    The first steps of `app.whenReady`: open the store over the saved
    settings, run `removeTemp`, then `removeLastDir`. The migration handler
    is registered afterwards, over the store and disk this returns.
  */
  method WhenReady(home: Path, saved: map<Key, string>, fs: Fs, readable: bool)
    returns (store: Store, fs': Fs)
    requires ValidPath(home) && ValidSaved(saved) && WellFormed(fs)
    ensures fresh(store) && store.Valid() && store.data == Defaults(home) + saved
    ensures WellFormed(fs') && fs' == Relaunched(fs, store.data, readable)
  {
    store := new Store(home, saved);
    var swept := RemoveTemp(fs, store.Get(TempMigratePathKey), readable);
    fs' := RemoveLastDir(swept, store.Get(LastCustomPathKey));
  }

  /**
    After an attempt that failed once the lock was written, the next
    start-up's sweep of the recorded parent folder takes away everything the
    attempt added: the result is what the same sweep makes of the disk the
    attempt started from.
  */
  lemma FailedAttemptSweptAway(fs: Fs, parent: Path, fs': Fs)
    requires WellFormed(fs) && ValidPath(parent)
    requires WriteFile(fs, LockFile(parent), LockText).Ok?
    requires Extends(Locked(fs, parent), fs', StagingDir(parent))
    ensures Swept(fs', parent) == Swept(fs, parent)
  {
    var locked := Locked(fs, parent);
    ParentPathsValid(parent);
    AttemptLeavesMarkers(parent);
    assert parent in fs && fs[parent].Dir?;
    forall q ensures q in Swept(fs', parent) <==> q in Swept(fs, parent) {
      MarkerOrOutside(fs, parent, fs', q);
    }
    forall q | q in Swept(fs, parent) ensures Swept(fs', parent)[q] == fs[q] {
      MarkerOrOutside(fs, parent, fs', q);
    }
  }

  /** Each entry the attempt added or changed lies in its staging folder or is its lock. */
  lemma MarkerOrOutside(fs: Fs, parent: Path, fs': Fs, q: Path)
    requires WellFormed(fs) && ValidPath(parent) && parent in fs
    requires WriteFile(fs, LockFile(parent), LockText).Ok?
    requires Extends(Locked(fs, parent), fs', StagingDir(parent))
    requires IsMarker(StagingDir(parent)[|parent|]) && IsMarker(LockFile(parent)[|parent|])
    ensures q in fs && !UnderMarker(parent, q) ==> q in fs' && fs'[q] == fs[q]
    ensures q in fs' && !UnderMarker(parent, q) ==> q in fs
  {
    var temp, lock := StagingDir(parent), LockFile(parent);
    if IsPrefix(temp, q) || q == lock {
      InChild(parent, temp[|parent|], q);
      assert UnderMarker(parent, q);
    } else if q in fs' && !UnderMarker(parent, q) {
      assert !IsStrictPrefix(temp, q);
      if q !in Locked(fs, parent) {
        ExtendedPrefix(q, parent, temp[|parent|]);
        assert IsPrefix(q, parent);
        if q != parent {
          AncestorOfEntry(fs, parent, q);
        }
      }
    }
  }

  /** Every ancestor of an entry of a well-formed tree is itself an entry. */
  lemma AncestorOfEntry(fs: Fs, p: Path, q: Path)
    requires WellFormed(fs) && p in fs && IsStrictPrefix(q, p)
    ensures q in fs
  {
    AncestorIsDir(fs, p, |q|);
  }

  /**
    Whatever the settings and the disk, nothing of the recorded previous
    data folder is left once both clean-ups have run: `removeLastDir`
    deletes it, or the sweep already took it, or it was not there.
  */
  lemma PreviousFolderGone(done: Fs, d: map<Key, string>, readable: bool, q: Path)
    requires WellFormed(done) && ValidData(d) && d[LastCustomPathKey] != ""
    requires IsPrefix(DataDir(d[LastCustomPathKey]), q)
    ensures q !in Relaunched(done, d, readable)
  {
    var last := DataDir(d[LastCustomPathKey]);
    var tempDir := d[TempMigratePathKey];
    var swept := TempSwept(done, tempDir, readable);
    if q in Relaunched(done, d, readable) {
      assert q in swept && q in done;
      assert last !in swept;
      if last !in done && q != last {
        AncestorOfEntry(done, q, last);
      }
    }
  }

  /** An entry that is neither a marker of the recorded parent folder nor inside the previous folder survives start-up. */
  lemma EntrySurvivesStartup(done: Fs, d: map<Key, string>, readable: bool, t: Path)
    requires ValidData(d) && t in done
    requires d[LastCustomPathKey] != "" ==> !IsPrefix(DataDir(d[LastCustomPathKey]), t)
    requires d[TempMigratePathKey] != "" ==> !UnderMarker(Parse(d[TempMigratePathKey]).value, t)
    ensures t in Relaunched(done, d, readable) && Relaunched(done, d, readable)[t] == done[t]
  {
  }

  /**
    A migration that went through, followed by the relaunch it schedules,
    over the settings the handler saved (`d`): the next start-up deletes
    the folder the data was moved from, entry for entry.
  */
  lemma RelaunchRemovesOldFolder(fs: Fs, currentPath: string, parent: Path, faults: set<Path>,
                                 d: map<Key, string>, readable: bool, q: Path)
    requires WellFormed(fs) && IsDataDir(currentPath) && ValidPath(parent)
    requires Committable(fs, DataDir(currentPath), parent, faults)
    requires ValidData(d) && d[LastCustomPathKey] == currentPath
    requires IsPrefix(DataDir(currentPath), q)
    ensures q !in Relaunched(Committed(fs, DataDir(currentPath), parent, faults), d, readable)
  {
    CommitGoesThrough(fs, DataDir(currentPath), parent, faults);
    PreviousFolderGone(Committed(fs, DataDir(currentPath), parent, faults), d, readable, q);
  }

  /**
    The same relaunch keeps the new folder, and in it every entry the walk
    copied, with the bytes it had in the old folder.
  */
  lemma RelaunchKeepsNewFolder(fs: Fs, currentPath: string, parent: Path, exeDir: string,
                               faults: set<Path>, d: map<Key, string>, readable: bool, r: Path)
    requires WellFormed(fs) && IsDataDir(currentPath) && ValidPath(parent)
    requires !Rejected(fs, currentPath, parent, exeDir) && Committable(fs, DataDir(currentPath), parent, faults)
    requires ValidData(d) && d[LastCustomPathKey] == currentPath && d[TempMigratePathKey] == Render(parent)
    requires r != [] && DataDir(currentPath) + r in fs && Kept(r)
    ensures var after := Relaunched(Committed(fs, DataDir(currentPath), parent, faults), d, readable);
      && NewDir(parent) in after && after[NewDir(parent)].Dir?
      && NewDir(parent) + r in after && after[NewDir(parent) + r] == fs[DataDir(currentPath) + r]
  {
    var cur := DataDir(currentPath);
    AcceptedDestination(fs, cur, parent, exeDir);
    CommitPlacesMirror(fs, cur, parent, faults, r);
    NewFolderSurvives(fs, cur, parent, exeDir, Committed(fs, cur, parent, faults), d, readable, r);
  }

  /** The new folder and an entry of it, wherever they came from, survive the start-up after the migration. */
  lemma NewFolderSurvives(fs: Fs, cur: Path, parent: Path, exeDir: string, done: Fs,
                          d: map<Key, string>, readable: bool, r: Path)
    requires WellFormed(fs) && ValidPath(parent) && cur + r in fs && r != []
    requires !Rejected(fs, Render(cur), parent, exeDir)
    requires ValidData(d) && d[LastCustomPathKey] == Render(cur) && d[TempMigratePathKey] == Render(parent)
    requires NewDir(parent) in done && NewDir(parent) + r in done
    ensures var after := Relaunched(done, d, readable);
      && NewDir(parent) in after && after[NewDir(parent)] == done[NewDir(parent)]
      && NewDir(parent) + r in after && after[NewDir(parent) + r] == done[NewDir(parent) + r]
  {
    ParseRender(parent);
    assert Parse(d[TempMigratePathKey]).value == parent;
    assert cur in fs by {
      assert IsStrictPrefix(cur, cur + r);
      NothingBeneath(fs, cur, cur + r);
    }
    ParseRender(cur);
    NewFolderOutsideOld(fs, cur, parent, exeDir, []);
    assert NewDir(parent) + [] == NewDir(parent);
    EntrySurvivesStartup(done, d, readable, NewDir(parent));
    NewFolderOutsideOld(fs, cur, parent, exeDir, r);
    EntrySurvivesStartup(done, d, readable, NewDir(parent) + r);
  }

  /** An entry of the new folder is not a marker of the parent (its name is `.argo`) nor inside the old folder. */
  lemma NewFolderOutsideOld(fs: Fs, cur: Path, parent: Path, exeDir: string, r: Path)
    requires WellFormed(fs) && ValidPath(parent) && cur in fs
    requires !Rejected(fs, Render(cur), parent, exeDir)
    ensures !UnderMarker(parent, NewDir(parent) + r) && !IsPrefix(cur, NewDir(parent) + r)
  {
    var t := NewDir(parent) + r;
    AttemptLeavesMarkers(parent);
    AcceptedDestination(fs, cur, parent, exeDir);
    assert t[|parent|] == NewDir(parent)[|parent|];
    if IsPrefix(cur, t) {
      assert IsPrefix(NewDir(parent), t);
      PrefixesComparable(cur, NewDir(parent), t);
      NothingBeneathMissing(fs, NewDir(parent), cur);
    }
  }
}
