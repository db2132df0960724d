/**
  The disk as the migration engine sees it through `fs` / `fs-extra`: a map
  from path to entry, where an entry is a regular file with its bytes or a
  directory. Operations are the calls the engine makes (`existsSync`,
  `writeFile`, `unlink`, `ensureDir`, `remove`, `move`), each returning the
  new disk or the error the call throws.
*/
module FileSystem {
  import opened Wrappers
  import opened Paths

  newtype byte = b: int | 0 <= b < 256

  datatype Node = File(data: seq<byte>) | Dir

  type Fs = map<Path, Node>

  /** The errors the calls can throw, named after the errno codes Node reports. */
  datatype IoError =
    | NoEntry(path: Path)          // ENOENT
    | NotADirectory(path: Path)    // ENOTDIR
    | EntryExists(path: Path)      // EEXIST
    | IsADirectory(path: Path)     // EISDIR
    | TransferFailed(path: Path)   // any other read or write failure while streaming a file
    | DestExists                   // fs-extra move with overwrite: false onto an existing path
    | MoveIntoItself(src: Path, dst: Path)

  /**
    The `message` text of the thrown error, approximated: the errno code, its
    description and the path, without the system-call name Node also puts in it.
  */
  function Message(e: IoError): string {
    match e
    case NoEntry(p) => "ENOENT: no such file or directory, '" + Render(p) + "'"
    case NotADirectory(p) => "ENOTDIR: not a directory, '" + Render(p) + "'"
    case EntryExists(p) => "EEXIST: file already exists, '" + Render(p) + "'"
    case IsADirectory(p) => "EISDIR: illegal operation on a directory, '" + Render(p) + "'"
    case TransferFailed(p) => "EIO: i/o error, '" + Render(p) + "'"
    case DestExists => "dest already exists."
    case MoveIntoItself(s, d) => "Cannot move '" + Render(s) + "' to a subdirectory of itself, '" + Render(d) + "'."
  }

  /**
    What every real directory tree satisfies: the root is a directory, every
    path is made of valid segments, and every other entry sits in a directory.
  */
  ghost predicate WellFormed(fs: Fs) {
    && [] in fs && fs[[]].Dir?
    && (forall q :: q in fs ==> ValidPath(q))
    && (forall q {:trigger Parent(q)} :: q in fs && q != [] ==> Parent(q) in fs && fs[Parent(q)].Dir?)
  }

  /** `fs.readdir(dir)` as a set: the names of the entries directly inside `dir`. */
  function Children(fs: Fs, dir: Path): (names: set<Name>)
    ensures forall n :: n in names <==> dir + [n] in fs
  {
    var names := set q | q in fs && |q| == |dir| + 1 && q[..|dir|] == dir :: q[|dir|];
    assert forall q :: q in fs && |q| == |dir| + 1 && q[..|dir|] == dir ==> q == dir + [q[|dir|]];
    assert forall n :: dir + [n] in fs ==> (dir + [n])[|dir|] == n && (dir + [n])[..|dir|] == dir;
    names
  }

  /** Every entry strictly beneath `p`. */
  function Below(fs: Fs, p: Path): set<Path> {
    set q | q in fs && IsStrictPrefix(p, q)
  }

  /** `p` and every entry beneath it. */
  function Subtree(fs: Fs, p: Path): Fs {
    map q | q in fs && IsPrefix(p, q) :: fs[q]
  }

  /** `fs.remove(p)` (`rm -rf`): `p` and everything beneath it disappear. */
  function RemoveTree(fs: Fs, p: Path): Fs {
    map q | q in fs && !IsPrefix(p, q) :: fs[q]
  }

  /** `fs.ensureDir(p)` (`mkdir -p`). */
  function EnsureDir(fs: Fs, p: Path): (r: Result<Fs, IoError>)
    ensures r.Ok? ==> p in r.value && r.value[p].Dir?
    ensures r.Ok? ==> forall q :: q in fs ==> q in r.value && r.value[q] == fs[q]
    ensures r.Ok? ==> forall q :: q in r.value && q !in fs ==> IsPrefix(q, p) && r.value[q].Dir?
    ensures r.Err? ==> exists k :: 0 <= k <= |p| && p[..k] in fs && fs[p[..k]].File?
    decreases |p|
  {
    if p in fs then
      if fs[p].Dir? then Ok(fs) else assert p[..|p|] == p; Err(EntryExists(p))
    else if p == [] then Ok(fs[p := Dir])
    else match EnsureDir(fs, Parent(p))
      case Err(e) =>
        assert forall k :: 0 <= k <= |p| - 1 ==> Parent(p)[..k] == p[..k];
        Err(e)
      case Ok(fs1) =>
        assert forall q :: IsPrefix(q, Parent(p)) ==> IsPrefix(q, p);
        Ok(fs1[p := Dir])
  }

  /** `fs.promises.writeFile(p, data)`: creates or truncates a regular file. */
  function WriteFile(fs: Fs, p: Path, data: seq<byte>): (r: Result<Fs, IoError>)
    ensures r.Ok? <==> p != [] && Parent(p) in fs && fs[Parent(p)].Dir? && !(p in fs && fs[p].Dir?)
    ensures r.Ok? ==> r.value == fs[p := File(data)]
  {
    if p == [] then Err(IsADirectory(p))
    else if Parent(p) !in fs then Err(NoEntry(p))
    else if fs[Parent(p)].File? then Err(NotADirectory(p))
    else if p in fs && fs[p].Dir? then Err(IsADirectory(p))
    else Ok(fs[p := File(data)])
  }

  /** `fs.promises.unlink(p)`: removes a regular file. */
  function Unlink(fs: Fs, p: Path): (r: Result<Fs, IoError>)
    ensures r.Ok? <==> p in fs && fs[p].File?
    ensures r.Ok? ==> r.value == fs - {p}
  {
    if p !in fs then Err(NoEntry(p))
    else if fs[p].Dir? then Err(IsADirectory(p))
    else Ok(fs - {p})
  }

  /** The paths the tree at `src` occupies once placed under `dst`. */
  function Targets(fs: Fs, src: Path, dst: Path): set<Path> {
    set q | q in fs && IsPrefix(src, q) :: dst + q[|src|..]
  }

  /** The entries of the tree at `src`, placed at the same relative paths under `dst`. */
  function Relocate(fs: Fs, src: Path, dst: Path): Fs {
    assert forall t | t in Targets(fs, src, dst) :: IsPrefix(dst, t) && src + t[|dst|..] in fs by {
      forall t | t in Targets(fs, src, dst) ensures IsPrefix(dst, t) && src + t[|dst|..] in fs {
        var q :| q in fs && IsPrefix(src, q) && t == dst + q[|src|..];
        assert t[|dst|..] == q[|src|..];
        assert q == src + q[|src|..];
      }
    }
    map t | t in Targets(fs, src, dst) :: fs[src + t[|dst|..]]
  }

  /** The rename at the heart of a move: the tree at `src` now lives at `dst`. */
  function Rename(fs: Fs, src: Path, dst: Path): Fs {
    RemoveTree(fs, src) + Relocate(fs, src, dst)
  }

  /**
    `fs.move(src, dst, {overwrite: false})` from fs-extra: refuses to move a
    tree into itself, refuses an existing destination, creates the
    destination's parent, then renames. fs-extra's path checks distinguish
    more cases (a directory onto a file, `src == dst`, the subdirectory test
    only for directories) with messages of their own; the handler never
    reaches them, since validation and the copy rule them out
    (CommitGoesThrough), so they are folded into the two errors here.
  */
  function Move(fs: Fs, src: Path, dst: Path): (r: Result<Fs, IoError>)
    ensures r.Ok? ==> src in fs && dst !in fs && !IsPrefix(src, dst)
  {
    if src !in fs then Err(NoEntry(src))
    else if IsPrefix(src, dst) then Err(MoveIntoItself(src, dst))
    else if dst in fs || dst == [] then Err(DestExists)
    else match EnsureDir(fs, Parent(dst))
      case Err(e) => Err(e)
      case Ok(fs1) => Ok(Rename(fs1, src, dst))
  }

  /** Every ancestor of an entry of a well-formed tree is a directory on disk. */
  lemma {:induction false} AncestorIsDir(fs: Fs, q: Path, k: nat)
    requires WellFormed(fs) && q in fs && k < |q|
    ensures q[..k] in fs && fs[q[..k]].Dir?
    decreases |q| - k
  {
    var up := Parent(q);
    assert up in fs && fs[up].Dir?;
    if k < |q| - 1 {
      AncestorIsDir(fs, up, k);
      assert up[..k] == q[..k];
    }
  }

  /** Nothing lies beneath a regular file, or beneath a path that does not exist. */
  lemma NothingBeneath(fs: Fs, p: Path, q: Path)
    requires WellFormed(fs) && q in fs && IsStrictPrefix(p, q)
    ensures p in fs && fs[p].Dir?
  {
    AncestorIsDir(fs, q, |p|);
  }

  /** The first step of a walk below `dir` lands on one of its children. */
  lemma ChildOnTheWay(fs: Fs, dir: Path, q: Path)
    requires WellFormed(fs) && q in fs && IsStrictPrefix(dir, q)
    ensures q[|dir|] in Children(fs, dir)
  {
    if |dir| + 1 < |q| {
      AncestorIsDir(fs, q, |dir| + 1);
    }
    assert q[..|dir| + 1] == dir + [q[|dir|]];
  }

  /** Descending into a child strictly shrinks what lies below: the walk terminates. */
  lemma BelowShrinks(fs: Fs, dir: Path, n: Name)
    requires dir + [n] in fs
    ensures Below(fs, dir + [n]) < Below(fs, dir)
  {
    var c := dir + [n];
    forall q | q in Below(fs, c) ensures q in Below(fs, dir) {
      assert q[..|dir|] == c[..|c|][..|dir|];
    }
    assert c in Below(fs, dir);
    assert c !in Below(fs, c);
  }

  /** What `Relocate` produces: exactly the entries of `src`'s tree, at the same relative paths under `dst`. */
  lemma RelocateAt(fs: Fs, src: Path, dst: Path, r: Path)
    ensures dst + r in Relocate(fs, src, dst) <==> src + r in fs
    ensures src + r in fs ==> Relocate(fs, src, dst)[dst + r] == fs[src + r]
  {
    var q := src + r;
    assert q[|src|..] == r;
    assert (dst + r)[|dst|..] == r;
    if q in fs {
      assert IsPrefix(src, q);
      assert dst + r in Targets(fs, src, dst);
    }
    if dst + r in Targets(fs, src, dst) {
      RelocateKeys(fs, src, dst, dst + r);
    }
  }

  /** Every key of `Relocate` lies under `dst` and comes from `src`'s tree. */
  lemma RelocateKeys(fs: Fs, src: Path, dst: Path, t: Path)
    requires t in Relocate(fs, src, dst)
    ensures IsPrefix(dst, t) && src + t[|dst|..] in fs
  {
    var q :| q in fs && IsPrefix(src, q) && t == dst + q[|src|..];
    assert t[|dst|..] == q[|src|..];
    assert q == src + q[|src|..];
  }

  lemma WriteFileKeepsWellFormed(fs: Fs, p: Path, data: seq<byte>)
    requires WellFormed(fs) && ValidPath(p) && WriteFile(fs, p, data).Ok?
    ensures WellFormed(WriteFile(fs, p, data).value)
  {
    var fs' := WriteFile(fs, p, data).value;
    forall q | q in fs' && q != [] ensures Parent(q) in fs' && fs'[Parent(q)].Dir? {
      if q != p && Parent(q) == p {
        NothingBeneath(fs, p, q);
      }
    }
  }

  lemma UnlinkKeepsWellFormed(fs: Fs, p: Path)
    requires WellFormed(fs) && Unlink(fs, p).Ok?
    ensures WellFormed(Unlink(fs, p).value)
  {
    var fs' := Unlink(fs, p).value;
    forall q | q in fs' && q != [] ensures Parent(q) in fs' && fs'[Parent(q)].Dir? {
      assert Parent(q) in fs && fs[Parent(q)].Dir?;
    }
  }

  lemma RemoveTreeKeepsWellFormed(fs: Fs, p: Path)
    requires WellFormed(fs) && p != []
    ensures WellFormed(RemoveTree(fs, p))
  {
    var fs' := RemoveTree(fs, p);
    forall q | q in fs' && q != [] ensures Parent(q) in fs' && fs'[Parent(q)].Dir? {
      assert !IsPrefix(p, Parent(q));
    }
  }

  lemma {:induction false} EnsureDirKeepsWellFormed(fs: Fs, p: Path)
    requires WellFormed(fs) && ValidPath(p) && EnsureDir(fs, p).Ok?
    ensures WellFormed(EnsureDir(fs, p).value)
    decreases |p|
  {
    if p !in fs {
      var up := Parent(p);
      assert ValidPath(up) by { assert forall i :: 0 <= i < |up| ==> up[i] == p[i]; }
      EnsureDirKeepsWellFormed(fs, up);
      var fs1 := EnsureDir(fs, up).value;
      var fs' := fs1[p := Dir];
      assert fs' == EnsureDir(fs, p).value;
      forall q | q in fs' && q != [] ensures Parent(q) in fs' && fs'[Parent(q)].Dir? {
        if q != p && Parent(q) == p {
          assert q !in fs by {
            if q in fs { NothingBeneath(fs, p, q); }
          }
          assert IsPrefix(q, up);
        }
      }
    }
  }

  /** On a well-formed tree, `ensureDir` fails exactly when a regular file stands on the way. */
  lemma {:induction false} EnsureDirFails(fs: Fs, p: Path, k: nat)
    requires WellFormed(fs)
    requires k <= |p| && p[..k] in fs && fs[p[..k]].File?
    ensures EnsureDir(fs, p).Err?
    decreases |p|
  {
    if p in fs {
      if k < |p| {
        AncestorIsDir(fs, p, k);
      }
    } else {
      assert p[..|p|] == p;
      assert Parent(p)[..k] == p[..k];
      EnsureDirFails(fs, Parent(p), k);
    }
  }

  lemma NothingBeneathMissing(fs: Fs, p: Path, q: Path)
    requires WellFormed(fs) && p !in fs && q in fs
    ensures !IsPrefix(p, q)
  {
    if IsPrefix(p, q) && p != q {
      NothingBeneath(fs, p, q);
    }
  }

  /** The tree after creating the destination's parent, and what it does not contain. */
  lemma MoveStaging(fs: Fs, src: Path, dst: Path)
    requires WellFormed(fs) && ValidPath(dst) && Move(fs, src, dst).Ok?
    ensures EnsureDir(fs, Parent(dst)).Ok?
    ensures WellFormed(EnsureDir(fs, Parent(dst)).value)
    ensures forall q :: q in EnsureDir(fs, Parent(dst)).value ==> !IsPrefix(dst, q)
    ensures Move(fs, src, dst).value == Rename(EnsureDir(fs, Parent(dst)).value, src, dst)
    ensures forall q :: IsPrefix(src, q) && q in EnsureDir(fs, Parent(dst)).value ==> q in fs
  {
    var up := Parent(dst);
    assert ValidPath(up) by { assert forall i :: 0 <= i < |up| ==> up[i] == dst[i]; }
    EnsureDirKeepsWellFormed(fs, up);
    var fs1 := EnsureDir(fs, up).value;
    forall q | q in fs1 ensures !IsPrefix(dst, q) {
      if q in fs { NothingBeneathMissing(fs, dst, q); }
    }
    forall q | IsPrefix(src, q) && q in fs1 ensures q in fs {
      if q !in fs {
        PrefixTransitive(src, q, up);
        PrefixTransitive(src, up, dst);
      }
    }
  }

  lemma PrefixTransitive(a: Path, b: Path, c: Path)
    requires IsPrefix(a, b) && IsPrefix(b, c)
    ensures IsPrefix(a, c)
  {
    assert c[..|a|] == c[..|b|][..|a|];
  }

  /** After a successful move, the tree that was at `src` is found under `dst`, entry for entry. */
  lemma MoveAt(fs: Fs, src: Path, dst: Path, r: Path)
    requires WellFormed(fs) && ValidPath(dst) && Move(fs, src, dst).Ok?
    ensures dst + r in Move(fs, src, dst).value <==> src + r in fs
    ensures src + r in fs ==> Move(fs, src, dst).value[dst + r] == fs[src + r]
  {
    MoveStaging(fs, src, dst);
    var fs1 := EnsureDir(fs, Parent(dst)).value;
    RelocateAt(fs1, src, dst, r);
    assert IsPrefix(dst, dst + r);
    assert IsPrefix(src, src + r);
  }

  /** A successful move touches nothing outside the two trees, except to create `dst`'s parent. */
  lemma MoveFrame(fs: Fs, src: Path, dst: Path, q: Path)
    requires WellFormed(fs) && ValidPath(dst) && Move(fs, src, dst).Ok?
    ensures q in fs && !IsPrefix(src, q) ==> q in Move(fs, src, dst).value && Move(fs, src, dst).value[q] == fs[q]
    ensures q in Move(fs, src, dst).value ==> !IsPrefix(src, q)
    ensures q in Move(fs, src, dst).value && q !in fs ==> IsPrefix(dst, q) || IsPrefix(q, Parent(dst))
  {
    MoveStaging(fs, src, dst);
    var fs1 := EnsureDir(fs, Parent(dst)).value;
    var fs' := Move(fs, src, dst).value;
    if q in fs && !IsPrefix(src, q) {
      assert q !in Relocate(fs1, src, dst) by {
        if q in Relocate(fs1, src, dst) { RelocateKeys(fs1, src, dst, q); }
      }
    }
    if q in fs' && q !in fs && !IsPrefix(dst, q) {
      assert q !in Relocate(fs1, src, dst) by {
        if q in Relocate(fs1, src, dst) { RelocateKeys(fs1, src, dst, q); }
      }
      assert q in fs1;
    }
  }

  lemma RebasedPathValid(src: Path, dst: Path, r: Path)
    requires ValidPath(src + r) && ValidPath(dst)
    ensures ValidPath(dst + r)
  {
    assert forall i :: 0 <= i < |r| ==> r[i] == (src + r)[|src| + i];
  }

  lemma MovedEntryPlaced(fs1: Fs, src: Path, dst: Path, q: Path)
    requires WellFormed(fs1) && ValidPath(dst) && dst != [] && q in Relocate(fs1, src, dst)
    requires Parent(dst) in Rename(fs1, src, dst) && Rename(fs1, src, dst)[Parent(dst)].Dir?
    requires forall q :: q in fs1 ==> !IsPrefix(dst, q)
    ensures ValidPath(q) && Parent(q) in Rename(fs1, src, dst) && Rename(fs1, src, dst)[Parent(q)].Dir?
  {
    RelocateKeys(fs1, src, dst, q);
    var r := q[|dst|..];
    assert q == dst + r;
    RebasedPathValid(src, dst, r);
    if r == [] {
      assert Parent(q) == Parent(dst);
    } else {
      MovedInnerPlaced(fs1, src, dst, r);
    }
  }

  lemma MovedRootPlaced(fs: Fs, src: Path, dst: Path)
    requires WellFormed(fs) && ValidPath(dst) && Move(fs, src, dst).Ok?
    ensures Parent(dst) in Move(fs, src, dst).value && Move(fs, src, dst).value[Parent(dst)].Dir?
  {
    MoveStaging(fs, src, dst);
    var up := Parent(dst);
    var fs1 := EnsureDir(fs, up).value;
    assert !IsPrefix(src, up) by {
      if IsPrefix(src, up) { PrefixTransitive(src, up, dst); }
    }
    assert up !in Relocate(fs1, src, dst) by {
      if up in Relocate(fs1, src, dst) { RelocateKeys(fs1, src, dst, up); }
    }
  }

  lemma MovedInnerPlaced(fs1: Fs, src: Path, dst: Path, r: Path)
    requires WellFormed(fs1) && r != [] && src + r in fs1
    requires forall q :: q in fs1 ==> !IsPrefix(dst, q)
    ensures Parent(dst + r) in Rename(fs1, src, dst) && Rename(fs1, src, dst)[Parent(dst + r)].Dir?
  {
    var pr := r[..|r| - 1];
    assert Parent(dst + r) == dst + pr;
    assert Parent(src + r) == src + pr;
    RelocateAt(fs1, src, dst, pr);
  }

  lemma KeptEntryPlaced(fs: Fs, src: Path, dst: Path, q: Path)
    requires WellFormed(fs) && ValidPath(dst) && Move(fs, src, dst).Ok?
    requires q in RemoveTree(EnsureDir(fs, Parent(dst)).value, src) && q != []
    ensures Parent(q) in Move(fs, src, dst).value && Move(fs, src, dst).value[Parent(q)].Dir?
  {
    MoveStaging(fs, src, dst);
    var fs1 := EnsureDir(fs, Parent(dst)).value;
    assert Parent(q) !in Relocate(fs1, src, dst) by {
      if Parent(q) in Relocate(fs1, src, dst) {
        RelocateKeys(fs1, src, dst, Parent(q));
      }
    }
  }

  lemma MoveKeepsWellFormed(fs: Fs, src: Path, dst: Path)
    requires WellFormed(fs) && ValidPath(dst) && Move(fs, src, dst).Ok?
    ensures WellFormed(Move(fs, src, dst).value)
  {
    MoveStaging(fs, src, dst);
    var fs1 := EnsureDir(fs, Parent(dst)).value;
    var fs' := Move(fs, src, dst).value;
    assert [] in RemoveTree(fs1, src);
    assert [] !in Relocate(fs1, src, dst) by {
      if [] in Relocate(fs1, src, dst) { RelocateKeys(fs1, src, dst, []); }
    }
    forall q | q in fs' ensures ValidPath(q) && (q != [] ==> Parent(q) in fs' && fs'[Parent(q)].Dir?) {
      if q in Relocate(fs1, src, dst) {
        MovedRootPlaced(fs, src, dst);
        MovedEntryPlaced(fs1, src, dst, q);
      } else if q != [] {
        KeptEntryPlaced(fs, src, dst, q);
      }
    }
  }

  /** The two clean-ups at start-up can run in either order: removals commute. */
  lemma RemoveTreeCommutes(fs: Fs, a: Path, b: Path)
    ensures RemoveTree(RemoveTree(fs, a), b) == RemoveTree(RemoveTree(fs, b), a)
  {
  }
}
