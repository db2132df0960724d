/**
  `getDirectorySize` (electron/migrateFolder.js): the recursive size of a
  data directory, summed child by child, with subdirectories contributing
  their own recursive size. Nothing is excluded. The `Promise.all` fan-out of
  the source is summed sequentially here: the result is a sum, so the
  completion order of the children does not matter, which
  `SumChildrenPickAny` proves.
*/
module TreeSize {
  import opened Wrappers
  import opened Paths
  import opened FileSystem

  ghost function Pick<T>(s: set<T>): T
    requires s != {}
  {
    var x :| x in s; x
  }

  /** What an entry adds to the sum: a file its size, a directory the sum of its children. */
  ghost function EntrySize(fs: Fs, p: Path): nat
    requires p in fs
    decreases Below(fs, p), 1, 0
  {
    match fs[p]
    case File(data) => |data|
    case Dir => SumChildren(fs, p, Children(fs, p))
  }

  /** The `reduce` over the sizes of the named children of `dir`. */
  ghost function SumChildren(fs: Fs, dir: Path, names: set<Name>): nat
    requires forall n :: n in names ==> dir + [n] in fs
    decreases Below(fs, dir), 0, |names|
  {
    if names == {} then 0
    else
      var n := Pick(names);
      BelowShrinks(fs, dir, n);
      EntrySize(fs, dir + [n]) + SumChildren(fs, dir, names - {n})
  }

  /** What `getDirectorySize(dir)` resolves to, or the error `readdir` rejects with. */
  ghost function DirectorySize(fs: Fs, dir: Path): Result<nat, IoError> {
    if dir !in fs then Err(NoEntry(dir))
    else if fs[dir].File? then Err(NotADirectory(dir))
    else Ok(EntrySize(fs, dir))
  }

  /** The sum does not depend on the order the children are visited in. */
  lemma {:induction false} SumChildrenPickAny(fs: Fs, dir: Path, names: set<Name>, m: Name)
    requires forall n :: n in names ==> dir + [n] in fs
    requires m in names
    ensures SumChildren(fs, dir, names) == EntrySize(fs, dir + [m]) + SumChildren(fs, dir, names - {m})
    decreases |names|
  {
    var n := Pick(names);
    if n != m {
      SumChildrenPickAny(fs, dir, names - {n}, m);
      SumChildrenPickAny(fs, dir, names - {m}, n);
      assert names - {n} - {m} == names - {m} - {n};
    }
  }

  /** The bytes a single entry holds on its own: a file's size, nothing for a directory. */
  function FileBytes(fs: Fs, q: Path): nat {
    if q in fs && fs[q].File? then |fs[q].data| else 0
  }

  /** The total size of the regular files in a set of paths. */
  ghost function SumFiles(fs: Fs, s: set<Path>): nat
    decreases s
  {
    if s == {} then 0 else var q := Pick(s); FileBytes(fs, q) + SumFiles(fs, s - {q})
  }

  lemma {:induction false} SumFilesPickAny(fs: Fs, s: set<Path>, m: Path)
    requires m in s
    ensures SumFiles(fs, s) == FileBytes(fs, m) + SumFiles(fs, s - {m})
    decreases s
  {
    var q := Pick(s);
    if q != m {
      SumFilesPickAny(fs, s - {q}, m);
      SumFilesPickAny(fs, s - {m}, q);
      assert s - {q} - {m} == s - {m} - {q};
    }
  }

  lemma {:induction false} SumFilesDisjointUnion(fs: Fs, a: set<Path>, b: set<Path>)
    requires a !! b
    ensures SumFiles(fs, a + b) == SumFiles(fs, a) + SumFiles(fs, b)
    decreases a
  {
    if a == {} {
      assert a + b == b;
    } else {
      var q := Pick(a);
      SumFilesPickAny(fs, a + b, q);
      assert (a + b) - {q} == (a - {q}) + b;
      SumFilesDisjointUnion(fs, a - {q}, b);
    }
  }

  /** The entries below `dir` that lie under one of the named children. */
  function UnderChildren(fs: Fs, dir: Path, names: set<Name>): set<Path> {
    set q | q in Below(fs, dir) && q[|dir|] in names
  }

  /**
    The recursive size of an entry is its own bytes plus the bytes of every
    regular file anywhere beneath it.
  */
  lemma {:induction false} EntrySizeIsSumOfFiles(fs: Fs, p: Path)
    requires WellFormed(fs) && p in fs
    ensures EntrySize(fs, p) == FileBytes(fs, p) + SumFiles(fs, Below(fs, p))
    decreases Below(fs, p), 1, 0
  {
    if fs[p].File? {
      forall q | q in fs ensures !IsStrictPrefix(p, q) {
        if IsStrictPrefix(p, q) { NothingBeneath(fs, p, q); }
      }
      assert Below(fs, p) == {};
    } else {
      SumChildrenIsSumOfFiles(fs, p, Children(fs, p));
      forall q | q in Below(fs, p) ensures q[|p|] in Children(fs, p) {
        ChildOnTheWay(fs, p, q);
      }
      assert UnderChildren(fs, p, Children(fs, p)) == Below(fs, p);
    }
  }

  lemma UnderChildrenSplit(fs: Fs, dir: Path, names: set<Name>, n: Name)
    requires n in names && dir + [n] in fs
    ensures UnderChildren(fs, dir, names)
         == UnderChildren(fs, dir, names - {n}) + ({dir + [n]} + Below(fs, dir + [n]))
    ensures UnderChildren(fs, dir, names - {n}) !! ({dir + [n]} + Below(fs, dir + [n]))
  {
    var c := dir + [n];
    var mine := {c} + Below(fs, c);
    forall q | q in UnderChildren(fs, dir, names) && q[|dir|] == n ensures q in mine {
      assert q[..|c|] == q[..|dir|] + [q[|dir|]];
      if |q| == |c| { assert q == q[..|c|]; }
    }
    forall q | q in mine ensures q in UnderChildren(fs, dir, names) && q[|dir|] == n {
      assert q[..|dir|] == q[..|c|][..|dir|];
    }
  }

  lemma {:induction false} SumChildrenIsSumOfFiles(fs: Fs, dir: Path, names: set<Name>)
    requires WellFormed(fs)
    requires forall n :: n in names ==> dir + [n] in fs
    ensures SumChildren(fs, dir, names) == SumFiles(fs, UnderChildren(fs, dir, names))
    decreases Below(fs, dir), 0, |names|
  {
    if names == {} {
      assert UnderChildren(fs, dir, names) == {};
    } else {
      var n := Pick(names);
      var c := dir + [n];
      BelowShrinks(fs, dir, n);
      EntrySizeIsSumOfFiles(fs, c);
      SumChildrenIsSumOfFiles(fs, dir, names - {n});
      var rest := UnderChildren(fs, dir, names - {n});
      var mine := {c} + Below(fs, c);
      UnderChildrenSplit(fs, dir, names, n);
      SumFilesDisjointUnion(fs, rest, mine);
      SumFilesPickAny(fs, mine, c);
      assert mine - {c} == Below(fs, c);
    }
  }

  /** `getDirectorySize`: the size of `dir` is the total size of every regular file beneath it. */
  lemma DirectorySizeIsSumOfFiles(fs: Fs, dir: Path)
    requires WellFormed(fs)
    ensures DirectorySize(fs, dir).Ok? <==> dir in fs && fs[dir].Dir?
    ensures DirectorySize(fs, dir).Ok? ==> DirectorySize(fs, dir).value == SumFiles(fs, Below(fs, dir))
  {
    if dir in fs { EntrySizeIsSumOfFiles(fs, dir); }
  }

  /** An empty directory has size 0. */
  lemma EmptyDirectoryHasSizeZero(fs: Fs, dir: Path)
    requires dir in fs && fs[dir].Dir? && Children(fs, dir) == {}
    ensures DirectorySize(fs, dir) == Ok(0)
  {
    assert EntrySize(fs, dir) == SumChildren(fs, dir, {});
  }

  /**
    `getDirectorySize(dir)`: read the directory, size every child (recursing
    into subdirectories), and add the sizes up.
  */
  method GetDirectorySize(fs: Fs, dir: Path) returns (r: Result<nat, IoError>)
    ensures r == DirectorySize(fs, dir)
    decreases Below(fs, dir)
  {
    if dir !in fs {
      return Err(NoEntry(dir));
    }
    if fs[dir].File? {
      return Err(NotADirectory(dir));
    }
    var pending := Children(fs, dir);
    var sum := 0;
    while pending != {}
      invariant pending <= Children(fs, dir)
      invariant sum + SumChildren(fs, dir, pending) == EntrySize(fs, dir)
      decreases pending
    {
      var n :| n in pending;
      var child := dir + [n];
      var size: nat;
      if fs[child].Dir? {
        BelowShrinks(fs, dir, n);
        var sub := GetDirectorySize(fs, child);
        size := sub.value;
      } else {
        size := |fs[child].data|;
      }
      SumChildrenPickAny(fs, dir, pending, n);
      sum := sum + size;
      pending := pending - {n};
    }
    return Ok(sum);
  }
}
