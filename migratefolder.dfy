/**
  The `migrate-folder` handler of electron/migrateFolder.js: the user picks a
  parent folder; the current data folder (`customPath`) is copied into
  `parent/.argo.migrating` under a lock file `parent/.argo.lock`, the staging
  folder is renamed to `parent/.argo`, the store is pointed at it, the lock
  is removed and the app relaunches. The previous folder stays on disk until
  the next start (see the Startup module).

  The disk is a value threaded through the handler; the store and the
  process-level state (exit listeners, progress messages sent to the
  window, the relaunch timer) are objects it updates.
*/
module MigrateFolder {
  import opened Wrappers
  import opened Paths
  import opened FileSystem
  import opened Progress
  import opened TreeSize
  import opened Copy
  import opened AppStore

  // ----- checkAvailableSpace -----

  /** What `checkDiskSpace(parent)` reports: the free bytes, or the error it throws. */
  datatype DiskSpace = Free(bytes: nat) | ProbeFailed(message: string)

  const InsufficientSpace := "Insufficient space on target disk"

  /** `checkAvailableSpace(parent, required)`: true when enough is free; otherwise the error it throws. */
  function CheckAvailableSpace(probe: DiskSpace, required: nat): (r: Result<bool, string>)
    ensures r.Ok? <==> probe.Free? && required <= probe.bytes
    ensures r.Ok? ==> r.value
    ensures probe.Free? && probe.bytes < required ==> r == Err(InsufficientSpace)
    ensures probe.ProbeFailed? ==> r == Err(probe.message)
  {
    match probe
    case ProbeFailed(msg) => Err(msg)
    case Free(free) => if free < required then Err(InsufficientSpace) else Ok(true)
  }

  // ----- the three paths derived from the chosen parent -----

  const StagingSuffix := ".migrating"

  /** `newPath = path.join(parent, '.argo')`. */
  function NewDir(parent: Path): Path {
    parent + [DataDirName]
  }

  /** `tempPath = newPath + '.migrating'`. */
  function StagingDir(parent: Path): Path {
    parent + [DataDirName + StagingSuffix]
  }

  /** The lock file `newPath + '.lock'`. */
  function LockFile(parent: Path): Path {
    parent + [DataDirName + LockSuffix]
  }

  /** The staging folder and the lock are named by appending to `newPath`'s string, as the handler does. */
  lemma DerivedPathStrings(parent: Path)
    ensures Render(StagingDir(parent)) == Render(NewDir(parent)) + StagingSuffix
    ensures Render(LockFile(parent)) == Render(NewDir(parent)) + LockSuffix
  {
    RenderSuffix(parent, DataDirName, StagingSuffix);
    RenderSuffix(parent, DataDirName, LockSuffix);
  }

  /** `'migration in progress'`, the lock file's contents, one byte per character. */
  function AsciiBytes(s: string): seq<byte> {
    seq(|s|, i requires 0 <= i < |s| => (s[i] as int % 256) as byte)
  }

  const LockText: seq<byte> := AsciiBytes("migration in progress")

  // ----- results and process-level state -----

  const SelectAnother := "Please select another folder"
  const Completed := "Data migration is completed"

  /** What the handler resolves to: `null`, `{success: false, message}` or `{success: true, message, oldPath, newPath}`. */
  datatype Response =
    | Cancelled
    | Failure(message: string)
    | Success(message: string, oldPath: string, newPath: string)

  datatype ExitEvent = WillQuit | UncaughtException | Sigterm

  /** A `cleanupOnExit` closure registered for `event`, bound to the staging folder and lock of one attempt. */
  datatype Listener = OnExit(event: ExitEvent, temp: Path, lock: Path)

  /** The three registrations of one `cleanupOnExit` closure. */
  function ExitListeners(temp: Path, lock: Path): multiset<Listener> {
    multiset{OnExit(WillQuit, temp, lock), OnExit(UncaughtException, temp, lock), OnExit(Sigterm, temp, lock)}
  }

  /** The registrations one attempt makes. */
  function AttemptListeners(parent: Path): multiset<Listener> {
    ExitListeners(StagingDir(parent), LockFile(parent))
  }

  lemma RegisterThenRemove(ls: multiset<Listener>, added: multiset<Listener>)
    ensures ls + added - added == ls
  {
  }

  /** Progress sent in three batches arrives as one sequence. */
  lemma SentInOrder(sent: seq<Progress>, first: seq<Progress>, events: seq<Progress>, last: seq<Progress>)
    ensures sent + first + events + last == sent + (first + events + last)
  {
  }

  /** The `app` and `process` emitters, the main window's `migration-progress` channel and the relaunch timer. */
  class Host {
    var listeners: multiset<Listener>
    var sent: seq<Progress>
    var relaunchScheduled: bool

    constructor ()
      ensures listeners == multiset{} && sent == [] && !relaunchScheduled
    {
      listeners := multiset{};
      sent := [];
      relaunchScheduled := false;
    }

    /**
      `app.on('will-quit', cleanupOnExit)`, `process.on('uncaughtException', cleanupOnExit)`
      and `process.on('SIGTERM', cleanupOnExit)`.
    */
    method ListenForExit(temp: Path, lock: Path)
      modifies this
      ensures listeners == old(listeners) + ExitListeners(temp, lock)
      ensures sent == old(sent) && relaunchScheduled == old(relaunchScheduled)
    {
      listeners := listeners + ExitListeners(temp, lock);
    }

    /** The three matching `removeListener` calls: each drops one registration, if there is one. */
    method StopListeningForExit(temp: Path, lock: Path)
      modifies this
      ensures listeners == old(listeners) - ExitListeners(temp, lock)
      ensures sent == old(sent) && relaunchScheduled == old(relaunchScheduled)
    {
      listeners := listeners - ExitListeners(temp, lock);
    }

    /** `sendProgress(percent, mainWin)`. */
    method Send(ps: seq<Progress>)
      modifies this
      ensures sent == old(sent) + ps
      ensures listeners == old(listeners) && relaunchScheduled == old(relaunchScheduled)
    {
      sent := sent + ps;
    }

    /** The `setTimeout` that relaunches and exits the app. */
    method ScheduleRelaunch()
      modifies this
      ensures relaunchScheduled
      ensures listeners == old(listeners) && sent == old(sent)
    {
      relaunchScheduled := true;
    }
  }

  // ----- cleanupOnExit -----

  /**
    `cleanupOnExit`: remove the staging folder if it exists, then unlink the
    lock if it exists; a failing unlink (the lock is a directory) is
    swallowed. Exactly those two entries go, and only when present.
  */
  function CleanupOnExit(fs: Fs, temp: Path, lock: Path): (r: Fs)
    ensures forall q :: q in r <==> q in fs && !(temp in fs && IsPrefix(temp, q)) && !(q == lock && fs[q].File?)
    ensures forall q :: q in r ==> r[q] == fs[q]
  {
    var swept := if temp in fs then RemoveTree(fs, temp) else fs;
    if lock in swept then
      match Unlink(swept, lock)
      case Ok(fs') => fs'
      case Err(_) => swept
    else swept
  }

  /** Every exit event runs the closure again: a second run changes nothing. */
  lemma CleanupIsIdempotent(fs: Fs, temp: Path, lock: Path)
    ensures CleanupOnExit(CleanupOnExit(fs, temp, lock), temp, lock) == CleanupOnExit(fs, temp, lock)
  {
    var once := CleanupOnExit(fs, temp, lock);
    var twice := CleanupOnExit(once, temp, lock);
    assert forall q :: q in twice <==> q in once;
  }

  /** The clean-up leaves a well-formed disk. */
  lemma CleanupKeepsWellFormed(fs: Fs, temp: Path, lock: Path)
    requires WellFormed(fs) && temp != []
    ensures WellFormed(CleanupOnExit(fs, temp, lock))
  {
    var r := CleanupOnExit(fs, temp, lock);
    forall q | q in r && q != [] ensures Parent(q) in r && r[Parent(q)].Dir? {
      assert Parent(q) in fs && fs[Parent(q)].Dir?;
      assert !(temp in fs && IsPrefix(temp, Parent(q))) by {
        if IsPrefix(temp, Parent(q)) { PrefixTransitive(temp, Parent(q), q); }
      }
    }
  }

  // ----- the destination check -----

  /**
    The check at the top of the `try`: the new folder already exists, or its
    string starts with the current folder's string or with the install
    directory's string. These are raw string tests.
  */
  predicate Rejected(fs: Fs, currentPath: string, parent: Path, exeDir: string) {
    NewDir(parent) in fs || StartsWith(Render(NewDir(parent)), currentPath) || StartsWith(Render(NewDir(parent)), exeDir)
  }

  /** A destination at or inside the current data folder is always turned away. */
  lemma RejectsNestedDestination(fs: Fs, cur: Path, parent: Path, exeDir: string)
    requires IsPrefix(cur, parent)
    ensures Rejected(fs, Render(cur), parent, exeDir)
  {
    PrefixTransitive(cur, parent, NewDir(parent));
    PrefixRendersAsStartsWith(cur, NewDir(parent));
  }

  /**
    The string test also turns away folders that are not inside the current
    one: a sibling whose name merely starts with the current folder's name,
    such as `/d/.argo2` next to `/d/.argo`.
  */
  lemma RejectsSiblingWithSharedPrefix(fs: Fs, up: Path, extra: string, exeDir: string)
    requires ValidPath(up) && |extra| > 0 && '/' !in extra
    ensures var cur := up + [DataDirName]; var parent := up + [DataDirName + extra];
      !IsPrefix(cur, parent) && Rejected(fs, Render(cur), parent, exeDir)
  {
    var cur := up + [DataDirName];
    var parent := up + [DataDirName + extra];
    assert parent[|up|] != cur[|up|] by {
      assert |DataDirName + extra| > |DataDirName|;
    }
    RenderSuffix(up, DataDirName, extra);
    RenderSegmentsAppend(parent, [DataDirName]);
    assert Render(NewDir(parent)) == Render(cur) + extra + RenderSegments([DataDirName]);
  }

  /** What an accepted destination rules out: the new folder, the staging folder and the lock lie outside the current folder. */
  lemma AcceptedDestination(fs: Fs, cur: Path, parent: Path, exeDir: string)
    requires !Rejected(fs, Render(cur), parent, exeDir)
    ensures NewDir(parent) !in fs && !IsPrefix(cur, parent)
    ensures !IsPrefix(cur, NewDir(parent))
    ensures IsPrefix(cur, StagingDir(parent)) ==> cur == StagingDir(parent)
    ensures IsPrefix(cur, LockFile(parent)) ==> cur == LockFile(parent)
  {
    if IsPrefix(cur, NewDir(parent)) {
      PrefixRendersAsStartsWith(cur, NewDir(parent));
    }
    if IsPrefix(cur, parent) {
      RejectsNestedDestination(fs, cur, parent, exeDir);
    }
    if IsPrefix(cur, StagingDir(parent)) {
      ExtendedPrefix(cur, parent, DataDirName + StagingSuffix);
    }
    if IsPrefix(cur, LockFile(parent)) {
      ExtendedPrefix(cur, parent, DataDirName + LockSuffix);
    }
  }

  lemma ExtendedPrefix(p: Path, up: Path, n: Name)
    requires IsPrefix(p, up + [n])
    ensures p == up + [n] || IsPrefix(p, up)
  {
    if |p| <= |up| {
      assert (up + [n])[..|p|] == up[..|p|];
    }
  }

  // ----- what a successful run computes -----

  /** The disk once the lock is written. */
  function Locked(fs: Fs, parent: Path): Fs
    requires WriteFile(fs, LockFile(parent), LockText).Ok?
  {
    WriteFile(fs, LockFile(parent), LockText).value
  }

  /**
    Everything after validation goes through: the lock can be written, the
    current folder can be sized, the space suffices and the copy into the
    staging folder hits no error.
  */
  ghost predicate Proceeds(fs: Fs, cur: Path, parent: Path, space: DiskSpace, faults: set<Path>) {
    && WriteFile(fs, LockFile(parent), LockText).Ok?
    && DirectorySize(Locked(fs, parent), cur).Ok?
    && CheckAvailableSpace(space, DirectorySize(Locked(fs, parent), cur).value).Ok?
    && CopySucceeds(Locked(fs, parent), cur, Locked(fs, parent), StagingDir(parent), faults)
  }

  /** The preconditions under which the commit steps are defined. */
  ghost predicate Committable(fs: Fs, cur: Path, parent: Path, faults: set<Path>) {
    && WellFormed(fs) && ValidPath(parent) && NewDir(parent) !in fs
    && WriteFile(fs, LockFile(parent), LockText).Ok?
    && CopySucceeds(Locked(fs, parent), cur, Locked(fs, parent), StagingDir(parent), faults)
  }

  /** The staging folder after the copy: created, holding the mirror of the current folder. */
  ghost function Staged(fs: Fs, cur: Path, parent: Path, faults: set<Path>): Fs
    requires Committable(fs, cur, parent, faults)
  {
    EnsureDir(Locked(fs, parent), StagingDir(parent)).value + Mirror(Locked(fs, parent), cur, StagingDir(parent))
  }

  lemma ParentPathsValid(parent: Path)
    requires ValidPath(parent)
    ensures ValidPath(NewDir(parent)) && ValidPath(StagingDir(parent)) && ValidPath(LockFile(parent))
    ensures Parent(NewDir(parent)) == parent && Parent(StagingDir(parent)) == parent && Parent(LockFile(parent)) == parent
    ensures NewDir(parent) != StagingDir(parent) && NewDir(parent) != LockFile(parent) && StagingDir(parent) != LockFile(parent)
  {
    assert forall i :: 0 <= i < |parent| ==> NewDir(parent)[i] == parent[i] && StagingDir(parent)[i] == parent[i] && LockFile(parent)[i] == parent[i];
    assert NewDir(parent)[|parent|] != StagingDir(parent)[|parent|];
    assert NewDir(parent)[|parent|] != LockFile(parent)[|parent|];
    assert StagingDir(parent)[|parent|] != LockFile(parent)[|parent|];
  }

  /** Two siblings are never prefixes of each other's paths. */
  lemma SiblingsApart(parent: Path, a: Name, b: Name, q: Path)
    requires a != b && IsPrefix(parent + [a], q)
    ensures !IsPrefix(parent + [b], q)
  {
    assert q[|parent|] == (parent + [a])[|parent|];
  }

  /** The rename of `temp` onto `dst` and the unlink of the lock both succeed on `staged`. */
  ghost predicate Renamable(staged: Fs, parent: Path) {
    && ValidPath(parent) && WellFormed(staged)
    && Parent(NewDir(parent)) in staged
    && Move(staged, StagingDir(parent), NewDir(parent)).Ok?
    && Unlink(Move(staged, StagingDir(parent), NewDir(parent)).value, LockFile(parent)).Ok?
  }

  /** `staged` after the rename and the unlink. */
  ghost function Renamed(staged: Fs, parent: Path): Fs
    requires Renamable(staged, parent)
  {
    Unlink(Move(staged, StagingDir(parent), NewDir(parent)).value, LockFile(parent)).value
  }

  /** Once the copy went through, the rename and the unlink cannot fail. */
  lemma CommitGoesThrough(fs: Fs, cur: Path, parent: Path, faults: set<Path>)
    requires Committable(fs, cur, parent, faults)
    ensures Renamable(Staged(fs, cur, parent, faults), parent)
    ensures WellFormed(Renamed(Staged(fs, cur, parent, faults), parent))
  {
    var lock, temp, dst := LockFile(parent), StagingDir(parent), NewDir(parent);
    ParentPathsValid(parent);
    WriteFileKeepsWellFormed(fs, lock, LockText);
    var fs1 := Locked(fs, parent);
    MirrorIsWellFormed(fs1, cur, fs1, temp, faults);
    var staged := Staged(fs, cur, parent, faults);
    assert temp in staged;
    assert !IsPrefix(temp, dst);
    assert dst !in staged by {
      assert dst !in fs1;
      assert !IsStrictPrefix(temp, dst);
    }
    assert parent in staged && staged[parent].Dir? by {
      assert parent in fs1 && fs1[parent].Dir?;
      assert !IsStrictPrefix(temp, parent);
    }
    assert EnsureDir(staged, Parent(dst)) == Ok(staged);
    assert Move(staged, temp, dst).Ok?;
    MoveKeepsWellFormed(staged, temp, dst);
    assert lock in staged && staged[lock].File? by {
      assert !IsStrictPrefix(temp, lock);
    }
    MoveFrame(staged, temp, dst, lock);
    UnlinkKeepsWellFormed(Move(staged, temp, dst).value, lock);
  }

  /** The disk after a successful run: staged copy renamed into place, lock removed. */
  ghost function Committed(fs: Fs, cur: Path, parent: Path, faults: set<Path>): Fs
    requires Committable(fs, cur, parent, faults)
  {
    CommitGoesThrough(fs, cur, parent, faults);
    Renamed(Staged(fs, cur, parent, faults), parent)
  }

  /** The staging folder at `r`: the mirrored entry when `cur + r` is kept, else whatever already stood there. */
  lemma StagedAt(fs: Fs, cur: Path, parent: Path, faults: set<Path>, r: Path)
    requires Committable(fs, cur, parent, faults) && !IsPrefix(cur, parent) && r != []
    ensures StagingDir(parent) + r in Staged(fs, cur, parent, faults) <==>
      (cur + r in fs && Kept(r)) || StagingDir(parent) + r in fs
    ensures cur + r in fs && Kept(r) ==> Staged(fs, cur, parent, faults)[StagingDir(parent) + r] == fs[cur + r]
  {
    var lock, temp := LockFile(parent), StagingDir(parent);
    var fs1 := Locked(fs, parent);
    WriteFileKeepsWellFormed(fs, lock, LockText);
    MirrorAt(fs1, cur, temp, r);
    assert cur + r != lock;
    assert temp + r in EnsureDir(fs1, temp).value ==> temp + r in fs1 by {
      assert !IsPrefix(temp + r, temp);
    }
    assert temp + r != lock by {
      assert (temp + r)[|parent|] == temp[|parent|];
    }
  }

  /** Outside the staging folder and the lock, the staged disk is the disk the handler started with. */
  lemma StagedFrame(fs: Fs, cur: Path, parent: Path, faults: set<Path>, q: Path)
    requires Committable(fs, cur, parent, faults)
    requires !IsPrefix(StagingDir(parent), q) && q != LockFile(parent)
    ensures q in Staged(fs, cur, parent, faults) <==> q in fs
    ensures q in fs ==> Staged(fs, cur, parent, faults)[q] == fs[q]
  {
    var lock, temp := LockFile(parent), StagingDir(parent);
    var fs1 := Locked(fs, parent);
    WriteFileKeepsWellFormed(fs, lock, LockText);
    if q in Mirror(fs1, cur, temp) {
      MirrorBeneath(fs1, cur, temp, q);
    }
    if q in EnsureDir(fs1, temp).value && q !in fs1 {
      assert IsPrefix(q, temp) && q != temp;
      assert IsPrefix(q, parent) by {
        assert |q| <= |parent|;
        assert q == temp[..|q|];
      }
      NothingBeneath(fs1, q, lock);
    }
  }

  /** The new folder at `r` after the rename and the unlink is the staging folder at `r`. */
  lemma RenamedAt(staged: Fs, parent: Path, r: Path)
    requires Renamable(staged, parent)
    ensures NewDir(parent) + r in Renamed(staged, parent) <==> StagingDir(parent) + r in staged
    ensures StagingDir(parent) + r in staged ==> Renamed(staged, parent)[NewDir(parent) + r] == staged[StagingDir(parent) + r]
  {
    ParentPathsValid(parent);
    assert (NewDir(parent) + r)[|parent|] == NewDir(parent)[|parent|];
    MoveAt(staged, StagingDir(parent), NewDir(parent), r);
  }

  /** The new folder itself after the rename and the unlink is the staging folder. */
  lemma RenamedRoot(staged: Fs, parent: Path)
    requires Renamable(staged, parent)
    ensures NewDir(parent) in Renamed(staged, parent) <==> StagingDir(parent) in staged
    ensures StagingDir(parent) in staged ==> Renamed(staged, parent)[NewDir(parent)] == staged[StagingDir(parent)]
  {
    RenamedAt(staged, parent, []);
    assert NewDir(parent) + [] == NewDir(parent);
    assert StagingDir(parent) + [] == StagingDir(parent);
  }

  /** The staging folder exists as a folder once the copy went through. */
  lemma StagingDirCreated(fs: Fs, cur: Path, parent: Path, faults: set<Path>)
    requires Committable(fs, cur, parent, faults)
    ensures StagingDir(parent) in Staged(fs, cur, parent, faults) && Staged(fs, cur, parent, faults)[StagingDir(parent)].Dir?
  {
    assert !IsStrictPrefix(StagingDir(parent), StagingDir(parent));
  }

  /** Outside the new folder, the staging folder and the lock, the rename and the unlink change nothing. */
  lemma RenamedFrame(staged: Fs, parent: Path, q: Path)
    requires Renamable(staged, parent)
    requires !IsPrefix(NewDir(parent), q) && !IsPrefix(StagingDir(parent), q) && q != LockFile(parent)
    ensures q in Renamed(staged, parent) <==> q in staged
    ensures q in staged ==> Renamed(staged, parent)[q] == staged[q]
  {
    ParentPathsValid(parent);
    var temp, dst := StagingDir(parent), NewDir(parent);
    MoveFrame(staged, temp, dst, q);
    if IsStrictPrefix(q, Parent(dst)) {
      NothingBeneath(staged, q, Parent(dst));
    }
  }

  /** The rename and the unlink leave neither the staging folder, nor anything in it, nor the lock. */
  lemma RenamedClearsMarkers(staged: Fs, parent: Path, q: Path)
    requires Renamable(staged, parent)
    ensures IsPrefix(StagingDir(parent), q) ==> q !in Renamed(staged, parent)
    ensures LockFile(parent) !in Renamed(staged, parent)
  {
    ParentPathsValid(parent);
    MoveFrame(staged, StagingDir(parent), NewDir(parent), q);
  }

  /**
    After a successful run the new folder holds every kept entry of the
    current folder at the same relative path with the same contents, and
    nothing else except what an earlier staging folder already held.
  */
  lemma CommitPlacesMirror(fs: Fs, cur: Path, parent: Path, faults: set<Path>, r: Path)
    requires Committable(fs, cur, parent, faults) && !IsPrefix(cur, parent) && r != []
    ensures NewDir(parent) in Committed(fs, cur, parent, faults) && Committed(fs, cur, parent, faults)[NewDir(parent)].Dir?
    ensures cur + r in fs && Kept(r) ==>
      NewDir(parent) + r in Committed(fs, cur, parent, faults) && Committed(fs, cur, parent, faults)[NewDir(parent) + r] == fs[cur + r]
    ensures NewDir(parent) + r in Committed(fs, cur, parent, faults) ==>
      (cur + r in fs && Kept(r)) || StagingDir(parent) + r in fs
  {
    CommitGoesThrough(fs, cur, parent, faults);
    var staged := Staged(fs, cur, parent, faults);
    assert Committed(fs, cur, parent, faults) == Renamed(staged, parent);
    StagingDirCreated(fs, cur, parent, faults);
    RenamedRoot(staged, parent);
    RenamedAt(staged, parent, r);
    StagedAt(fs, cur, parent, faults, r);
  }

  /** Two prefixes of one path are prefixes of each other. */
  lemma PrefixesComparable(a: Path, b: Path, q: Path)
    requires IsPrefix(a, q) && IsPrefix(b, q)
    ensures IsPrefix(a, b) || IsPrefix(b, a)
  {
    if |a| <= |b| { assert b[..|a|] == q[..|a|]; } else { assert a[..|b|] == q[..|b|]; }
  }

  /** A successful run touches nothing but the new folder, the staging folder and the lock. */
  lemma CommitFrame(fs: Fs, cur: Path, parent: Path, faults: set<Path>, q: Path)
    requires Committable(fs, cur, parent, faults)
    requires !IsPrefix(NewDir(parent), q) && !IsPrefix(StagingDir(parent), q) && q != LockFile(parent)
    ensures q in Committed(fs, cur, parent, faults) <==> q in fs
    ensures q in fs ==> Committed(fs, cur, parent, faults)[q] == fs[q]
  {
    CommitGoesThrough(fs, cur, parent, faults);
    RenamedFrame(Staged(fs, cur, parent, faults), parent, q);
    StagedFrame(fs, cur, parent, faults, q);
  }

  /** A successful run leaves neither the staging folder, nor anything in it, nor the lock. */
  lemma CommitClearsMarkers(fs: Fs, cur: Path, parent: Path, faults: set<Path>, q: Path)
    requires Committable(fs, cur, parent, faults)
    ensures IsPrefix(StagingDir(parent), q) ==> q !in Committed(fs, cur, parent, faults)
    ensures LockFile(parent) !in Committed(fs, cur, parent, faults)
  {
    CommitGoesThrough(fs, cur, parent, faults);
    RenamedClearsMarkers(Staged(fs, cur, parent, faults), parent, q);
  }

  /**
    The handler does not delete the current folder: after a successful run
    every entry in it is still there, unchanged, provided the current folder
    does not sit inside the staging folder (CommitMovesSourceInsideStaging
    shows what happens when it does).
  */
  lemma CommitKeepsSource(fs: Fs, cur: Path, parent: Path, faults: set<Path>, exeDir: string, q: Path)
    requires Committable(fs, cur, parent, faults)
    requires !Rejected(fs, Render(cur), parent, exeDir) && !IsPrefix(StagingDir(parent), cur)
    requires IsPrefix(cur, q)
    ensures q in Committed(fs, cur, parent, faults) <==> q in fs
    ensures q in fs ==> Committed(fs, cur, parent, faults)[q] == fs[q]
  {
    AcceptedDestination(fs, cur, parent, exeDir);
    ParentPathsValid(parent);
    var fs1 := Locked(fs, parent);
    assert cur in fs1 && fs1[cur].Dir?;
    assert cur != LockFile(parent);
    assert cur in fs;
    if IsPrefix(NewDir(parent), q) {
      PrefixesComparable(cur, NewDir(parent), q);
      NothingBeneathMissing(fs, NewDir(parent), cur);
    }
    if IsPrefix(StagingDir(parent), q) {
      PrefixesComparable(cur, StagingDir(parent), q);
    }
    CommitFrame(fs, cur, parent, faults, q);
  }

  /**
    A current folder inside `<parent>/.argo.migrating` (a folder the user may
    have picked as the parent of an earlier migration) is never turned away
    by the current-folder test: `<parent>/.argo` does not start with it.
  */
  lemma StagingNestedPassesCurrentFolderTest(cur: Path, parent: Path)
    requires IsPrefix(StagingDir(parent), cur)
    ensures !StartsWith(Render(NewDir(parent)), Render(cur))
  {
    DerivedPathStrings(parent);
    var rest := cur[|StagingDir(parent)|..];
    assert cur == StagingDir(parent) + rest;
    RenderSegmentsAppend(StagingDir(parent), rest);
    assert |Render(cur)| >= |Render(StagingDir(parent))| > |Render(NewDir(parent))|;
  }

  /**
    The case CommitKeepsSource leaves out. When the current folder lies
    inside `<parent>/.argo.migrating`, the current-folder test lets it
    through (StagingNestedPassesCurrentFolderTest); when the new folder is
    also absent and outside the install directory, the run goes through, and
    the rename carries the current folder away with the staging folder:
    after success it is gone from its path and sits under the new folder.
  */
  lemma CommitMovesSourceInsideStaging(fs: Fs, cur: Path, parent: Path, faults: set<Path>, exeDir: string)
    requires Committable(fs, cur, parent, faults)
    requires !Rejected(fs, Render(cur), parent, exeDir) && IsPrefix(StagingDir(parent), cur) && cur in fs
    ensures cur !in Committed(fs, cur, parent, faults)
    ensures NewDir(parent) + cur[|StagingDir(parent)|..] in Committed(fs, cur, parent, faults)
  {
    CommitClearsMarkers(fs, cur, parent, faults, cur);
    CommitGoesThrough(fs, cur, parent, faults);
    var staged := Staged(fs, cur, parent, faults);
    var r := cur[|StagingDir(parent)|..];
    assert StagingDir(parent) + r == cur;
    if r == [] {
      StagingDirCreated(fs, cur, parent, faults);
      RenamedRoot(staged, parent);
      assert NewDir(parent) + r == NewDir(parent);
    } else {
      assert !IsPrefix(cur, parent);
      StagedAt(fs, cur, parent, faults, r);
      RenamedAt(staged, parent, r);
    }
  }

  // ----- the handler -----

  /** The parent folder the dialog returned. */
  function ChosenParent(picked: seq<string>): (p: Path)
    requires |picked| > 0 && Parse(picked[0]).Some?
    ensures ValidPath(p) && Render(p) == picked[0]
  {
    RenderParse(picked[0], Parse(picked[0]).value);
    Parse(picked[0]).value
  }

  /**
    What the staging steps leave: the lock and the staging folder on top of
    the disk, and the error of the first step that throws. The copy's
    percentages stay at or below 99 and, when the transfers report
    non-decreasing counts over a non-empty folder, never go down.
  */
  ghost predicate StageResult(fs: Fs, cur: Path, parent: Path, space: DiskSpace, faults: set<Path>,
                              reports: Path -> seq<nat>, fs': Fs, err: Option<string>, events: seq<Progress>)
    requires WellFormed(fs) && ValidPath(parent) && NewDir(parent) !in fs
  {
    && WellFormed(fs')
    && (forall k :: 0 <= k < |events| && events[k].Percent? ==> events[k].value <= 99)
    && (MonotoneReports(reports) && WriteFile(fs, LockFile(parent), LockText).Ok? &&
        DirectorySize(Locked(fs, parent), cur).Ok? && DirectorySize(Locked(fs, parent), cur).value > 0 ==>
          Rising(events))
    && (err.None? <==> Proceeds(fs, cur, parent, space, faults))
    && (err.None? ==> Committable(fs, cur, parent, faults) && fs' == Staged(fs, cur, parent, faults))
    && (WriteFile(fs, LockFile(parent), LockText).Err? ==>
          err == Some(Message(WriteFile(fs, LockFile(parent), LockText).error)) && fs' == fs && events == [])
    && (WriteFile(fs, LockFile(parent), LockText).Ok? ==>
          LockFile(parent) in fs' && fs'[LockFile(parent)].File? && Extends(Locked(fs, parent), fs', StagingDir(parent)))
    && (WriteFile(fs, LockFile(parent), LockText).Ok? && DirectorySize(Locked(fs, parent), cur).Err? ==>
          err == Some(Message(DirectorySize(Locked(fs, parent), cur).error)) && fs' == Locked(fs, parent) && events == [])
    && (WriteFile(fs, LockFile(parent), LockText).Ok? && DirectorySize(Locked(fs, parent), cur).Ok? &&
        CheckAvailableSpace(space, DirectorySize(Locked(fs, parent), cur).value).Err? ==>
          err == Some(CheckAvailableSpace(space, DirectorySize(Locked(fs, parent), cur).value).error) &&
          fs' == Locked(fs, parent) && events == [])
  }

  /**
    The part of the `try` between the destination check and the rename:
    write the lock, size the current folder, check the space and copy it
    into the staging folder. `err` is the message of the error thrown, if
    any; `events` are the percentages the copy sends.
  */
  method Stage(fs: Fs, cur: Path, parent: Path, space: DiskSpace, faults: set<Path>, reports: Path -> seq<nat>)
    returns (fs': Fs, err: Option<string>, events: seq<Progress>)
    requires WellFormed(fs) && ValidPath(parent) && NewDir(parent) !in fs
    ensures StageResult(fs, cur, parent, space, faults, reports, fs', err, events)
  {
    ParentPathsValid(parent);
    var lockPath, tempPath := LockFile(parent), StagingDir(parent);
    var locked := WriteFile(fs, lockPath, LockText);
    if locked.Err? {
      return fs, Some(Message(locked.error)), [];
    }
    fs' := locked.value;
    WriteFileKeepsWellFormed(fs, lockPath, LockText);

    var totalBytes := GetDirectorySize(fs', cur);
    if totalBytes.Err? {
      return fs', Some(Message(totalBytes.error)), [];
    }
    var enough := CheckAvailableSpace(space, totalBytes.value);
    if enough.Err? {
      return fs', Some(enough.error), [];
    }

    var copied, copyErr, deltas;
    copied, events, copyErr, deltas := CopyWithProgress(fs', cur, fs', tempPath, faults, reports);
    CopyStaged(fs, cur, parent, space, faults, reports, copied, events, copyErr);
    fs' := copied;
    err := if copyErr.Some? then Some(Message(copyErr.value)) else None;
  }

  /** What the copy into the staging folder, once the lock and the space check pass, leaves to the handler. */
  lemma CopyStaged(fs: Fs, cur: Path, parent: Path, space: DiskSpace, faults: set<Path>, reports: Path -> seq<nat>,
                   copied: Fs, events: seq<Progress>, copyErr: Option<IoError>)
    requires WellFormed(fs) && ValidPath(parent) && NewDir(parent) !in fs
    requires WriteFile(fs, LockFile(parent), LockText).Ok? && WellFormed(Locked(fs, parent))
    requires DirectorySize(Locked(fs, parent), cur).Ok?
    requires CheckAvailableSpace(space, DirectorySize(Locked(fs, parent), cur).value).Ok?
    requires WellFormed(copied) && Extends(Locked(fs, parent), copied, StagingDir(parent))
    requires copyErr.None? <==> CopySucceeds(Locked(fs, parent), cur, Locked(fs, parent), StagingDir(parent), faults)
    requires copyErr.None? ==>
      copied == EnsureDir(Locked(fs, parent), StagingDir(parent)).value + Mirror(Locked(fs, parent), cur, StagingDir(parent))
    requires forall k :: 0 <= k < |events| ==> events[k].Percent? ==> events[k].value <= 99
    requires MonotoneReports(reports) && DirectorySize(Locked(fs, parent), cur).value > 0 ==> Rising(events)
    ensures StageResult(fs, cur, parent, space, faults, reports, copied,
                        if copyErr.Some? then Some(Message(copyErr.value)) else None, events)
  {
    ParentPathsValid(parent);
    LockSurvivesCopy(Locked(fs, parent), copied, parent);
    var err := if copyErr.Some? then Some(Message(copyErr.value)) else None;
    assert err.None? <==> Proceeds(fs, cur, parent, space, faults);
    assert err.None? ==> Committable(fs, cur, parent, faults) && copied == Staged(fs, cur, parent, faults);
  }

  /** Every report is a percentage from 0 up, and no report is below an earlier one. */
  predicate Rising(ps: seq<Progress>) {
    && (forall k :: 0 <= k < |ps| ==> ps[k].Percent? && 0 <= ps[k].value)
    && (forall i, j :: 0 <= i < j < |ps| ==> ps[i].value <= ps[j].value)
  }

  /** The copy never touches the lock, which sits next to the staging folder. */
  lemma LockSurvivesCopy(fs1: Fs, copied: Fs, parent: Path)
    requires Extends(fs1, copied, StagingDir(parent))
    requires LockFile(parent) in fs1 && fs1[LockFile(parent)].File?
    ensures LockFile(parent) in copied && copied[LockFile(parent)].File?
  {
    assert !IsStrictPrefix(StagingDir(parent), LockFile(parent)) by {
      assert |LockFile(parent)| == |StagingDir(parent)|;
    }
  }

  /** `fs.move(tempPath, newPath, {overwrite: false})` on the staged disk. */
  method MoveIntoPlace(staged: Fs, fs: Fs, cur: Path, parent: Path, faults: set<Path>) returns (moved: Fs)
    requires Committable(fs, cur, parent, faults) && staged == Staged(fs, cur, parent, faults)
    ensures Move(staged, StagingDir(parent), NewDir(parent)).Ok? && moved == Move(staged, StagingDir(parent), NewDir(parent)).value
    ensures LockFile(parent) in moved && moved[LockFile(parent)].File?
  {
    ParentPathsValid(parent);
    // Once the copy went through, the rename cannot throw.
    CommitGoesThrough(fs, cur, parent, faults);
    moved := Move(staged, StagingDir(parent), NewDir(parent)).value;
  }

  /** `fs.promises.unlink(lockPath)` after the rename. */
  method UnlinkLock(moved: Fs, fs: Fs, cur: Path, parent: Path, faults: set<Path>) returns (fs': Fs)
    requires Committable(fs, cur, parent, faults)
    requires Move(Staged(fs, cur, parent, faults), StagingDir(parent), NewDir(parent)).Ok?
    requires moved == Move(Staged(fs, cur, parent, faults), StagingDir(parent), NewDir(parent)).value
    ensures WellFormed(fs') && fs' == Committed(fs, cur, parent, faults)
  {
    ParentPathsValid(parent);
    // The lock is still there, so the unlink cannot throw either.
    CommitGoesThrough(fs, cur, parent, faults);
    fs' := Unlink(moved, LockFile(parent)).value;
  }

  /** The new folder's string is a data-folder string. */
  lemma StoredDataDir(parent: Path)
    requires ValidPath(parent)
    ensures IsDataDir(Render(NewDir(parent)))
  {
    ParentPathsValid(parent);
    ParseRender(NewDir(parent));
  }

  /**
    What an attempt that got past the dialog answers and leaves on disk,
    given the data folder `currentPath` in use and the chosen `parent`.
  */
  ghost predicate Outcome(fs: Fs, currentPath: string, parent: Path, exeDir: string, space: DiskSpace,
                          faults: set<Path>, reports: Path -> seq<nat>, resp: Response, fs': Fs, progress: seq<Progress>)
    requires WellFormed(fs) && IsDataDir(currentPath) && ValidPath(parent)
  {
    var cur := DataDir(currentPath);
    && WellFormed(fs')
    && resp != Cancelled
    && (forall k :: 0 <= k < |progress| && progress[k].Percent? ==> progress[k].value <= 99)
    && (resp.Success? <==> !Rejected(fs, currentPath, parent, exeDir) && Proceeds(fs, cur, parent, space, faults))
    && (Rejected(fs, currentPath, parent, exeDir) ==> resp == Failure(SelectAnother) && fs' == fs && progress == [])
    && (resp.Success? ==>
          && resp == Success(Completed, currentPath, Render(NewDir(parent)))
          && Committable(fs, cur, parent, faults)
          && fs' == Committed(fs, cur, parent, faults))
    && (!Rejected(fs, currentPath, parent, exeDir) && MonotoneReports(reports) &&
        WriteFile(fs, LockFile(parent), LockText).Ok? &&
        DirectorySize(Locked(fs, parent), cur).Ok? && DirectorySize(Locked(fs, parent), cur).value > 0 ==>
          Rising(progress))
    && (resp.Failure? && !Rejected(fs, currentPath, parent, exeDir) ==>
          if WriteFile(fs, LockFile(parent), LockText).Err? then
            resp == Failure(Message(WriteFile(fs, LockFile(parent), LockText).error)) && fs' == fs
          else
            LockFile(parent) in fs' && fs'[LockFile(parent)].File? && Extends(Locked(fs, parent), fs', StagingDir(parent)))
  }

  /** A rejected destination answers "Please select another folder" and touches nothing. */
  lemma RejectionOutcome(fs: Fs, currentPath: string, parent: Path, exeDir: string, space: DiskSpace,
                         faults: set<Path>, reports: Path -> seq<nat>)
    requires WellFormed(fs) && IsDataDir(currentPath) && ValidPath(parent)
    requires Rejected(fs, currentPath, parent, exeDir)
    ensures Outcome(fs, currentPath, parent, exeDir, space, faults, reports, Failure(SelectAnother), fs, [])
  {
  }

  /** A staging step that throws answers with its message and leaves the staged disk. */
  lemma FailureOutcome(fs: Fs, currentPath: string, parent: Path, exeDir: string, space: DiskSpace,
                       faults: set<Path>, reports: Path -> seq<nat>, fs': Fs, err: Option<string>, events: seq<Progress>)
    requires WellFormed(fs) && IsDataDir(currentPath) && ValidPath(parent)
    requires !Rejected(fs, currentPath, parent, exeDir)
    requires StageResult(fs, DataDir(currentPath), parent, space, faults, reports, fs', err, events) && err.Some?
    ensures Outcome(fs, currentPath, parent, exeDir, space, faults, reports, Failure(err.value), fs', events)
  {
  }

  /** A staging that goes through ends, after the rename and the unlink, in the committed disk. */
  lemma SuccessOutcome(fs: Fs, currentPath: string, parent: Path, exeDir: string, space: DiskSpace,
                       faults: set<Path>, reports: Path -> seq<nat>, staged: Fs, events: seq<Progress>, fs': Fs)
    requires WellFormed(fs) && IsDataDir(currentPath) && ValidPath(parent)
    requires !Rejected(fs, currentPath, parent, exeDir)
    requires StageResult(fs, DataDir(currentPath), parent, space, faults, reports, staged, None, events)
    requires Committable(fs, DataDir(currentPath), parent, faults) && WellFormed(fs')
    requires fs' == Committed(fs, DataDir(currentPath), parent, faults)
    ensures Outcome(fs, currentPath, parent, exeDir, space, faults, reports,
                    Success(Completed, currentPath, Render(NewDir(parent))), fs', events)
  {
  }

  /**
    The disk side of the `try` once the destination is accepted: stage,
    rename, unlink. A step that throws ends the attempt with its message.
  */
  method Transfer(fs: Fs, currentPath: string, parent: Path, exeDir: string, space: DiskSpace,
                  faults: set<Path>, reports: Path -> seq<nat>)
    returns (resp: Response, fs': Fs, events: seq<Progress>)
    requires WellFormed(fs) && IsDataDir(currentPath) && ValidPath(parent)
    requires !Rejected(fs, currentPath, parent, exeDir)
    ensures Outcome(fs, currentPath, parent, exeDir, space, faults, reports, resp, fs', events)
  {
    var cur := DataDir(currentPath);
    var err: Option<string>;
    fs', err, events := Stage(fs, cur, parent, space, faults, reports);
    if err.Some? {
      FailureOutcome(fs, currentPath, parent, exeDir, space, faults, reports, fs', err, events);
      return Failure(err.value), fs', events;
    }
    var staged := fs';
    var moved := MoveIntoPlace(staged, fs, cur, parent, faults);
    fs' := UnlinkLock(moved, fs, cur, parent, faults);
    SuccessOutcome(fs, currentPath, parent, exeDir, space, faults, reports, staged, events, fs');
    resp := Success(Completed, currentPath, Render(NewDir(parent)));
  }

  /**
    The `migrate-folder` handler. `picked` is the dialog's `filePaths`,
    `exeDir` is `path.dirname(app.getPath('exe'))`, `space` is what
    `checkDiskSpace` reports for the chosen parent, and `faults` and
    `reports` describe the file transfers (see the Copy module). `progress`
    are the percentages the copy sent.
  */
  method HandleMigrate(store: Store, host: Host, fs: Fs, picked: seq<string>, exeDir: string,
                       space: DiskSpace, faults: set<Path>, reports: Path -> seq<nat>)
    returns (resp: Response, fs': Fs, ghost progress: seq<Progress>)
    requires store.Valid() && WellFormed(fs)
    requires |picked| > 0 ==> Parse(picked[0]).Some?
    modifies store, host
    ensures store.Valid() && WellFormed(fs')
    ensures host.relaunchScheduled <==> old(host.relaunchScheduled) || resp.Success?
    ensures |picked| == 0 ==>
      resp == Cancelled && fs' == fs && store.data == old(store.data) &&
      host.listeners == old(host.listeners) && host.sent == old(host.sent)
    ensures |picked| > 0 ==>
      Outcome(fs, old(store.data)[CustomPathKey], ChosenParent(picked), exeDir, space, faults, reports, resp, fs', progress)
    ensures |picked| > 0 ==>
      host.listeners == old(host.listeners) + (if resp.Success? then multiset{} else AttemptListeners(ChosenParent(picked)))
    ensures |picked| > 0 ==>
      store.data == if resp.Success? then
        old(store.data)[TempMigratePathKey := picked[0]]
          [CustomPathKey := Render(NewDir(ChosenParent(picked)))][LastCustomPathKey := old(store.data)[CustomPathKey]]
      else old(store.data)[TempMigratePathKey := picked[0]]
    ensures |picked| > 0 ==>
      host.sent == old(host.sent) +
        (if Rejected(fs, old(store.data)[CustomPathKey], ChosenParent(picked), exeDir) then []
         else [Percent(0)] + progress + (if resp.Success? then [Percent(100)] else []))
  {
    var currentPath := store.Get(CustomPathKey);
    if |picked| == 0 {
      return Cancelled, fs, [];
    }
    var newParentDir := picked[0];
    var parent := ChosenParent(picked);
    ParentPathsValid(parent);
    var newPath, tempPath, lockPath := NewDir(parent), StagingDir(parent), LockFile(parent);
    store.Set(TempMigratePathKey, newParentDir);

    ghost var before := host.listeners;
    host.ListenForExit(tempPath, lockPath);

    if newPath in fs || StartsWith(Render(newPath), currentPath) || StartsWith(Render(newPath), exeDir) {
      RejectionOutcome(fs, currentPath, parent, exeDir, space, faults, reports);
      return Failure(SelectAnother), fs, [];
    }
    ghost var sentBefore := host.sent;
    host.Send([Percent(0)]);

    var events: seq<Progress>;
    resp, fs', events := Transfer(fs, currentPath, parent, exeDir, space, faults, reports);
    progress := events;
    host.Send(events);
    if resp.Failure? {
      SentInOrder(sentBefore, [Percent(0)], events, []);
      return;
    }

    StoredDataDir(parent);
    store.Set(CustomPathKey, Render(newPath));
    store.Set(LastCustomPathKey, currentPath);
    host.Send([Percent(100)]);
    SentInOrder(sentBefore, [Percent(0)], events, [Percent(100)]);
    host.ScheduleRelaunch();

    host.StopListeningForExit(tempPath, lockPath);
    RegisterThenRemove(before, AttemptListeners(parent));
  }
}
