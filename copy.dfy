/**
  The copy step of the migration (electron/migrateFolder.js,
  `processDirectory`, `processFile` and `copyWithProgress`): the source tree
  is walked child by child, every entry whose name ends in `.lock` is
  skipped together with everything beneath it, directories are created
  with `ensureDir` and regular files are streamed to the same relative path
  under the destination.

  The walk reads the source from `snap`, the disk as it was when the copy
  started, and writes into `out`. When source and destination are disjoint
  trees, as they are in the migration unless the current folder lies inside
  the staging folder, the two coincide.
*/
module Copy {
  import opened Wrappers
  import opened Paths
  import opened FileSystem
  import opened Progress
  import opened TreeSize

  const LockSuffix := ".lock"

  /** A name the walk does not copy (`srcPath.endsWith('.lock')`). */
  predicate Skipped(n: Name) {
    EndsWith(n, LockSuffix)
  }

  /** A relative path none of whose segments is skipped: the walk reaches it. */
  predicate Kept(r: Path) {
    forall i :: 0 <= i < |r| ==> !Skipped(r[i])
  }

  /** The entries beneath `src` that the walk copies when it visits the children in `done`. */
  function Copied(snap: Fs, src: Path, done: set<Name>): Fs {
    map q {:trigger q in snap} | q in snap && IsStrictPrefix(src, q) && q[|src|] in done && Kept(q[|src|..]) :: snap[q]
  }

  /** What the walk adds under `dst` for the children in `done` of `src`. */
  function MirrorPart(snap: Fs, src: Path, dst: Path, done: set<Name>): Fs {
    Relocate(Copied(snap, src, done), src, dst)
  }

  /** The whole mirror of `src` under `dst`: every kept entry, at its relative path. */
  function Mirror(snap: Fs, src: Path, dst: Path): Fs {
    MirrorPart(snap, src, dst, Children(snap, src))
  }

  /**
    Writing `node` at `target` fails: a directory where a file must go
    (EISDIR), a file where a directory must go (`ensureDir` refuses), or a
    file whose transfer fails.
  */
  predicate Hazard(base: Fs, target: Path, node: Node, faulty: bool) {
    (target in base && base[target].Dir? != node.Dir?) || (node.File? && faulty)
  }

  /** Some entry of `c`, written to its place under `dst`, fails. */
  ghost predicate BlockedIn(c: Fs, src: Path, base: Fs, dst: Path, faults: set<Path>) {
    exists q {:trigger q in c} :: q in c && IsPrefix(src, q) && Hazard(base, dst + q[|src|..], c[q], q in faults)
  }

  /** The copy of `src` into `dst` goes through: `ensureDir` succeeds, `src` is a directory and no entry fails. */
  ghost predicate CopySucceeds(snap: Fs, src: Path, out: Fs, dst: Path, faults: set<Path>) {
    && EnsureDir(out, dst).Ok?
    && src in snap && snap[src].Dir?
    && !BlockedIn(Copied(snap, src, Children(snap, src)), src, EnsureDir(out, dst).value, dst, faults)
  }

  /**
    `b` is `a` with only additions and changes strictly beneath `d`, plus
    directories created on the way to `d`.
  */
  ghost predicate Extends(a: Fs, b: Fs, d: Path) {
    && (forall q :: q in a ==> q in b)
    && (forall q :: q in a && !IsStrictPrefix(d, q) ==> b[q] == a[q])
    && (forall q :: q in b && q !in a && !IsStrictPrefix(d, q) ==> IsPrefix(q, d) && b[q].Dir?)
  }

  /** Every progress stream the transfers produce is non-decreasing. */
  ghost predicate MonotoneReports(reports: Path -> seq<nat>) {
    forall q :: Nondecreasing(reports(q))
  }

  /**
    The state of `processDirectory`'s reduce once the children in `done`
    have been handled: the destination holds exactly their mirror on top of
    what was there, none of them hit a hazard, and every delta so far is
    non-negative when the reports are.
  */
  ghost predicate Walked(snap: Fs, src: Path, out1: Fs, dst: Path, faults: set<Path>, reports: Path -> seq<nat>,
                         done: set<Name>, cur: Fs, deltas: seq<int>)
  {
    && WellFormed(cur) && Extends(out1, cur, dst) && dst in cur && cur[dst].Dir?
    && cur == out1 + MirrorPart(snap, src, dst, done)
    && !BlockedIn(Copied(snap, src, done), src, out1, dst, faults)
    && (MonotoneReports(reports) ==> NonNegative(deltas))
  }

  // ----- facts about relocation -----

  lemma RelocateUnion(a: Fs, b: Fs, src: Path, dst: Path)
    ensures Relocate(a + b, src, dst) == Relocate(a, src, dst) + Relocate(b, src, dst)
  {
    var m, ma, mb := Relocate(a + b, src, dst), Relocate(a, src, dst), Relocate(b, src, dst);
    forall t | t in m || t in ma || t in mb
      ensures (t in m <==> t in ma + mb) && (t in m ==> m[t] == (ma + mb)[t])
    {
      if t in m { RelocateKeys(a + b, src, dst, t); }
      else if t in ma { RelocateKeys(a, src, dst, t); }
      else { RelocateKeys(b, src, dst, t); }
      var r := t[|dst|..];
      assert t == dst + r;
      RelocateAt(a + b, src, dst, r);
      RelocateAt(a, src, dst, r);
      RelocateAt(b, src, dst, r);
    }
  }

  lemma RelocateSingle(src: Path, dst: Path, r: Path, v: Node)
    ensures Relocate(map[src + r := v], src, dst) == map[dst + r := v]
  {
    var m := Relocate(map[src + r := v], src, dst);
    RelocateAt(map[src + r := v], src, dst, r);
    forall t | t in m ensures t == dst + r {
      RelocateKeys(map[src + r := v], src, dst, t);
      assert src + t[|dst|..] == src + r;
      assert t[|dst|..] == r;
      assert t == dst + t[|dst|..];
    }
  }

  lemma RelocateEmpty(src: Path, dst: Path)
    ensures Relocate(map[], src, dst) == map[]
  {
  }

  /** Relocating a tree that lies under `src + [n]` from `src` is relocating it from `src + [n]` one level down. */
  lemma RelocateNested(c: Fs, src: Path, dst: Path, n: Name)
    requires forall q :: q in c ==> IsPrefix(src + [n], q)
    ensures Relocate(c, src + [n], dst + [n]) == Relocate(c, src, dst)
  {
    var m1, m2 := Relocate(c, src + [n], dst + [n]), Relocate(c, src, dst);
    forall t | t in m1 ensures t in m2 && m1[t] == m2[t] {
      NestedKey(c, src, dst, n, t);
    }
    forall t | t in m2 ensures t in m1 {
      OuterKey(c, src, dst, n, t);
    }
  }

  lemma NestedKey(c: Fs, src: Path, dst: Path, n: Name, t: Path)
    requires t in Relocate(c, src + [n], dst + [n])
    ensures t in Relocate(c, src, dst) && Relocate(c, src + [n], dst + [n])[t] == Relocate(c, src, dst)[t]
  {
    RelocateKeys(c, src + [n], dst + [n], t);
    var r := t[|dst| + 1..];
    assert t == dst + [n] + r;
    RelocateAt(c, src + [n], dst + [n], r);
    assert src + [n] + r == src + ([n] + r) && dst + [n] + r == dst + ([n] + r);
    RelocateAt(c, src, dst, [n] + r);
  }

  lemma OuterKey(c: Fs, src: Path, dst: Path, n: Name, t: Path)
    requires forall q :: q in c ==> IsPrefix(src + [n], q)
    requires t in Relocate(c, src, dst)
    ensures t in Relocate(c, src + [n], dst + [n])
  {
    RelocateKeys(c, src, dst, t);
    var r := t[|dst|..];
    assert IsPrefix(src + [n], src + r);
    assert (src + r)[|src|] == r[0] == n;
    assert src + [n] + r[1..] == src + r && dst + [n] + r[1..] == t;
    RelocateAt(c, src + [n], dst + [n], r[1..]);
  }

  // ----- facts about the copied entries -----

  lemma CopiedUnion(snap: Fs, src: Path, d: set<Name>, e: set<Name>)
    ensures Copied(snap, src, d + e) == Copied(snap, src, d) + Copied(snap, src, e)
    ensures d !! e ==> Copied(snap, src, d).Keys !! Copied(snap, src, e).Keys
  {
  }

  lemma KeptCons(n: Name, r: Path)
    ensures Kept([n] + r) <==> !Skipped(n) && Kept(r)
  {
    if !Skipped(n) && Kept(r) {
      forall i | 0 <= i < |[n] + r| ensures !Skipped(([n] + r)[i]) {
        if i > 0 { assert ([n] + r)[i] == r[i - 1]; }
      }
    }
    if Kept([n] + r) {
      assert ([n] + r)[0] == n;
      forall i | 0 <= i < |r| ensures !Skipped(r[i]) {
        assert ([n] + r)[i + 1] == r[i];
      }
    }
  }

  /** Visiting a child whose name is skipped copies nothing. */
  lemma CopiedSkipped(snap: Fs, src: Path, n: Name)
    requires Skipped(n)
    ensures Copied(snap, src, {n}) == map[]
  {
  }

  /** Visiting any other child copies the child itself and its own kept tree. */
  lemma CopiedKept(snap: Fs, src: Path, n: Name)
    requires WellFormed(snap) && src + [n] in snap && !Skipped(n)
    ensures Copied(snap, src, {n}) == map[src + [n] := snap[src + [n]]] + Copied(snap, src + [n], Children(snap, src + [n]))
  {
    var c := src + [n];
    var lhs := Copied(snap, src, {n});
    var rhs := map[c := snap[c]] + Copied(snap, c, Children(snap, c));
    KeptCons(n, []);
    assert c[|src|..] == [n] + [];
    assert c in lhs;
    forall q | q in lhs || q in rhs ensures q in lhs && q in rhs && lhs[q] == rhs[q] {
      if q in lhs {
        CopiedEntryKey(snap, src, n, q);
      } else if q != c {
        SubEntryKey(snap, src, n, q);
      }
    }
  }

  lemma CopiedEntryKey(snap: Fs, src: Path, n: Name, q: Path)
    requires WellFormed(snap) && q in Copied(snap, src, {n})
    ensures q == src + [n] || q in Copied(snap, src + [n], Children(snap, src + [n]))
  {
    var c := src + [n];
    assert q[..|c|] == c;
    assert q[|src|..] == [n] + q[|c|..];
    KeptCons(n, q[|c|..]);
    if q != c {
      ChildOnTheWay(snap, c, q);
    }
  }

  lemma SubEntryKey(snap: Fs, src: Path, n: Name, q: Path)
    requires !Skipped(n) && q in Copied(snap, src + [n], Children(snap, src + [n]))
    ensures q in Copied(snap, src, {n})
  {
    var c := src + [n];
    assert q[..|src|] == src;
    assert q[|src|..] == [n] + q[|c|..];
    KeptCons(n, q[|c|..]);
  }

  /** Nothing lies beneath a regular file. */
  lemma CopiedBelowFile(snap: Fs, p: Path)
    requires WellFormed(snap) && p in snap && snap[p].File?
    ensures Copied(snap, p, Children(snap, p)) == map[]
  {
    forall q | q in snap && IsStrictPrefix(p, q) ensures false {
      NothingBeneath(snap, p, q);
    }
  }

  // ----- facts about failing entries -----

  lemma BlockedInUnion(a: Fs, b: Fs, src: Path, base: Fs, dst: Path, faults: set<Path>)
    requires a.Keys !! b.Keys
    ensures BlockedIn(a + b, src, base, dst, faults) <==> BlockedIn(a, src, base, dst, faults) || BlockedIn(b, src, base, dst, faults)
  {
    if BlockedIn(a + b, src, base, dst, faults) {
      var q :| q in a + b && IsPrefix(src, q) && Hazard(base, dst + q[|src|..], (a + b)[q], q in faults);
      if q in b { assert BlockedIn(b, src, base, dst, faults); } else { assert BlockedIn(a, src, base, dst, faults); }
    }
    if BlockedIn(a, src, base, dst, faults) {
      var q :| q in a && IsPrefix(src, q) && Hazard(base, dst + q[|src|..], a[q], q in faults);
      assert q in a + b && (a + b)[q] == a[q];
    }
    if BlockedIn(b, src, base, dst, faults) {
      var q :| q in b && IsPrefix(src, q) && Hazard(base, dst + q[|src|..], b[q], q in faults);
      assert q in a + b && (a + b)[q] == b[q];
    }
  }

  lemma BlockedInSingle(k: Path, v: Node, src: Path, base: Fs, dst: Path, faults: set<Path>)
    requires IsPrefix(src, k)
    ensures BlockedIn(map[k := v], src, base, dst, faults) <==> Hazard(base, dst + k[|src|..], v, k in faults)
  {
    if Hazard(base, dst + k[|src|..], v, k in faults) {
      assert k in map[k := v];
    }
  }

  lemma BlockedInEmpty(src: Path, base: Fs, dst: Path, faults: set<Path>)
    ensures !BlockedIn(map[], src, base, dst, faults)
  {
  }

  lemma BlockedInNested(c: Fs, src: Path, base: Fs, dst: Path, n: Name, faults: set<Path>)
    requires forall q :: q in c ==> IsPrefix(src + [n], q)
    ensures BlockedIn(c, src + [n], base, dst + [n], faults) <==> BlockedIn(c, src, base, dst, faults)
  {
    forall q | q in c ensures IsPrefix(src, q) && dst + q[|src|..] == dst + [n] + q[|src| + 1..] {
      assert q[..|src| + 1] == src + [n];
      assert q[..|src|] == src;
      assert q[|src|..] == [n] + q[|src| + 1..];
    }
    if BlockedIn(c, src, base, dst, faults) {
      var q :| q in c && IsPrefix(src, q) && Hazard(base, dst + q[|src|..], c[q], q in faults);
      assert Hazard(base, dst + [n] + q[|src + [n]|..], c[q], q in faults);
    }
  }

  /** Only the targets of the entries matter: adding entries elsewhere to the base changes nothing. */
  lemma BlockedInFrame(c: Fs, src: Path, base: Fs, m: Fs, dst: Path, faults: set<Path>)
    requires forall q :: q in c && IsPrefix(src, q) ==> dst + q[|src|..] !in m
    ensures BlockedIn(c, src, base + m, dst, faults) <==> BlockedIn(c, src, base, dst, faults)
  {
    if BlockedIn(c, src, base + m, dst, faults) {
      var q :| q in c && IsPrefix(src, q) && Hazard(base + m, dst + q[|src|..], c[q], q in faults);
      assert Hazard(base, dst + q[|src|..], c[q], q in faults);
    }
    if BlockedIn(c, src, base, dst, faults) {
      var q :| q in c && IsPrefix(src, q) && Hazard(base, dst + q[|src|..], c[q], q in faults);
      assert Hazard(base + m, dst + q[|src|..], c[q], q in faults);
    }
  }

  // ----- facts about the destination -----

  lemma UpdateIsUnion(m: Fs, k: Path, v: Node)
    ensures m[k := v] == m + map[k := v]
  {
  }

  lemma UnionAssociates(a: Fs, b: Fs, c: Fs)
    ensures a + (b + c) == (a + b) + c
  {
  }

  /** Inside an existing directory, `ensureDir` of a child fails only on a file and otherwise leaves a directory there. */
  lemma EnsureChildDir(cur: Fs, dst: Path, n: Name)
    requires dst in cur && cur[dst].Dir?
    ensures EnsureDir(cur, dst + [n]).Ok? <==> !(dst + [n] in cur && cur[dst + [n]].File?)
    ensures EnsureDir(cur, dst + [n]).Ok? ==> EnsureDir(cur, dst + [n]).value == cur[dst + [n] := Dir]
  {
    var c := dst + [n];
    assert Parent(c) == dst;
    assert EnsureDir(cur, dst) == Ok(cur);
    if c in cur && cur[c].Dir? {
      assert cur[c := Dir] == cur;
    }
  }

  lemma WriteChildExtends(cur: Fs, dst: Path, n: Name, v: Node)
    ensures Extends(cur, cur[dst + [n] := v], dst)
  {
  }

  lemma EnsureDirExtends(out: Fs, dst: Path)
    requires EnsureDir(out, dst).Ok?
    ensures Extends(out, EnsureDir(out, dst).value, dst)
  {
  }

  lemma ExtendsTrans(a: Fs, b: Fs, c: Fs, d: Path)
    requires Extends(a, b, d) && Extends(b, c, d)
    ensures Extends(a, c, d)
  {
  }

  lemma ExtendsWiden(a: Fs, b: Fs, d: Path, n: Name)
    requires Extends(a, b, d + [n])
    ensures Extends(a, b, d)
  {
    forall q | q in a && !IsStrictPrefix(d, q) ensures b[q] == a[q] {
      assert !IsStrictPrefix(d + [n], q);
    }
    forall q | q in b && q !in a && !IsStrictPrefix(d, q) ensures IsPrefix(q, d) && b[q].Dir? {
      assert !IsStrictPrefix(d + [n], q);
      assert IsPrefix(q, d + [n]);
      assert q != d + [n];
      assert q == (d + [n])[..|q|];
    }
  }

  /** The entries of child `n` aim at paths the earlier children's copies never touch. */
  lemma EntryTargetsFresh(snap: Fs, src: Path, dst: Path, done: set<Name>, n: Name)
    requires n !in done
    ensures forall q :: q in Copied(snap, src, {n}) && IsPrefix(src, q) ==> dst + q[|src|..] !in MirrorPart(snap, src, dst, done)
  {
    forall q | q in Copied(snap, src, {n}) && IsPrefix(src, q) ensures dst + q[|src|..] !in MirrorPart(snap, src, dst, done) {
      RelocateAt(Copied(snap, src, done), src, dst, q[|src|..]);
      assert src + q[|src|..] == q;
    }
  }

  lemma ValidChild(snap: Fs, src: Path, n: Name, dst: Path)
    requires WellFormed(snap) && src + [n] in snap && ValidPath(dst)
    ensures ValidName(n) && ValidPath(dst + [n])
  {
    assert (src + [n])[|src|] == n;
  }

  /** The parts a kept subdirectory contributes to its parent's walk: itself and its kept tree. */
  lemma DirEntryParts(snap: Fs, src: Path, n: Name, dst: Path)
    requires WellFormed(snap) && src + [n] in snap && snap[src + [n]].Dir? && !Skipped(n)
    ensures Copied(snap, src, {n}) == map[src + [n] := Dir] + Copied(snap, src + [n], Children(snap, src + [n]))
    ensures Copied(snap, src + [n], Children(snap, src + [n])).Keys !! {src + [n]}
    ensures forall q :: q in Copied(snap, src + [n], Children(snap, src + [n])) ==> IsPrefix(src + [n], q)
    ensures MirrorPart(snap, src, dst, {n}) == map[dst + [n] := Dir] + Mirror(snap, src + [n], dst + [n])
  {
    var srcPath := src + [n];
    CopiedKept(snap, src, n);
    var sub := Copied(snap, srcPath, Children(snap, srcPath));
    var top := map[srcPath := Dir];
    assert srcPath[|src|..] == [n];
    RelocateUnion(top, sub, src, dst);
    RelocateSingle(src, dst, [n], Dir);
    RelocateNested(sub, src, dst, n);
  }

  /** A kept subdirectory's copy fails exactly when some entry of it, in the parent's terms, fails. */
  lemma DirEntryBlocked(snap: Fs, src: Path, n: Name, cur: Fs, dst: Path, faults: set<Path>)
    requires WellFormed(snap) && src + [n] in snap && snap[src + [n]].Dir? && !Skipped(n)
    requires dst in cur && cur[dst].Dir?
    ensures CopySucceeds(snap, src + [n], cur, dst + [n], faults) <==> !BlockedIn(Copied(snap, src, {n}), src, cur, dst, faults)
  {
    var srcPath, destPath := src + [n], dst + [n];
    DirEntryParts(snap, src, n, dst);
    var sub := Copied(snap, srcPath, Children(snap, srcPath));
    var top := map[srcPath := Dir];
    assert srcPath[|src|..] == [n];
    BlockedInUnion(top, sub, src, cur, dst, faults);
    BlockedInSingle(srcPath, Dir, src, cur, dst, faults);
    EnsureChildDir(cur, dst, n);
    if EnsureDir(cur, destPath).Ok? {
      var cur' := cur[destPath := Dir];
      UpdateIsUnion(cur, destPath, Dir);
      BlockedInFrame(sub, src, cur, map[destPath := Dir], dst, faults);
      BlockedInNested(sub, src, cur', dst, n, faults);
    }
  }

  /** On success the subdirectory's walk leaves exactly what the parent's walk adds for it. */
  lemma DirEntryResult(snap: Fs, src: Path, n: Name, cur: Fs, dst: Path)
    requires WellFormed(snap) && src + [n] in snap && snap[src + [n]].Dir? && !Skipped(n)
    requires dst in cur && cur[dst].Dir?
    requires EnsureDir(cur, dst + [n]).Ok?
    ensures EnsureDir(cur, dst + [n]).value + Mirror(snap, src + [n], dst + [n]) == cur + MirrorPart(snap, src, dst, {n})
  {
    DirEntryParts(snap, src, n, dst);
    EnsureChildDir(cur, dst, n);
    UpdateIsUnion(cur, dst + [n], Dir);
    UnionAssociates(cur, map[dst + [n] := Dir], Mirror(snap, src + [n], dst + [n]));
  }

  /** What visiting a kept regular file amounts to. */
  lemma FileEntry(snap: Fs, src: Path, n: Name, cur: Fs, dst: Path, faults: set<Path>)
    requires WellFormed(snap) && src + [n] in snap && snap[src + [n]].File? && !Skipped(n)
    ensures BlockedIn(Copied(snap, src, {n}), src, cur, dst, faults) <==>
      src + [n] in faults || (dst + [n] in cur && cur[dst + [n]].Dir?)
    ensures MirrorPart(snap, src, dst, {n}) == map[dst + [n] := snap[src + [n]]]
  {
    var srcPath := src + [n];
    CopiedKept(snap, src, n);
    CopiedBelowFile(snap, srcPath);
    assert Copied(snap, src, {n}) == map[srcPath := snap[srcPath]];
    assert srcPath[|src|..] == [n];
    BlockedInSingle(srcPath, snap[srcPath], src, cur, dst, faults);
    RelocateSingle(src, dst, [n], snap[srcPath]);
  }

  /** What visiting a skipped child amounts to: nothing. */
  lemma SkippedEntry(snap: Fs, src: Path, n: Name, cur: Fs, dst: Path, faults: set<Path>)
    requires Skipped(n)
    ensures !BlockedIn(Copied(snap, src, {n}), src, cur, dst, faults)
    ensures cur + MirrorPart(snap, src, dst, {n}) == cur
  {
    CopiedSkipped(snap, src, n);
    RelocateEmpty(src, dst);
    BlockedInEmpty(src, cur, dst, faults);
    assert cur + map[] == cur;
  }

  /** Adding child `n` to the visited ones, against the state the earlier children left behind. */
  lemma WalkStep(snap: Fs, src: Path, dst: Path, out1: Fs, done: set<Name>, n: Name, faults: set<Path>)
    requires n !in done
    ensures BlockedIn(Copied(snap, src, done + {n}), src, out1, dst, faults) <==>
      BlockedIn(Copied(snap, src, done), src, out1, dst, faults) ||
      BlockedIn(Copied(snap, src, {n}), src, out1 + MirrorPart(snap, src, dst, done), dst, faults)
    ensures MirrorPart(snap, src, dst, done + {n}) == MirrorPart(snap, src, dst, done) + MirrorPart(snap, src, dst, {n})
  {
    CopiedUnion(snap, src, done, {n});
    EntryTargetsFresh(snap, src, dst, done, n);
    BlockedInFrame(Copied(snap, src, {n}), src, out1, MirrorPart(snap, src, dst, done), dst, faults);
    BlockedInUnion(Copied(snap, src, done), Copied(snap, src, {n}), src, out1, dst, faults);
    RelocateUnion(Copied(snap, src, done), Copied(snap, src, {n}), src, dst);
  }

  /** A failure among some children is a failure of the whole walk. */
  lemma BlockedGrows(snap: Fs, src: Path, base: Fs, dst: Path, faults: set<Path>, d: set<Name>, e: set<Name>)
    requires BlockedIn(Copied(snap, src, d), src, base, dst, faults)
    ensures BlockedIn(Copied(snap, src, d + e), src, base, dst, faults)
  {
    var q :| q in Copied(snap, src, d) && IsPrefix(src, q) && Hazard(base, dst + q[|src|..], Copied(snap, src, d)[q], q in faults);
    assert q in Copied(snap, src, d + e);
  }

  /** A hazard among some of the children is a hazard among all of them. */
  lemma BlockedWithin(snap: Fs, src: Path, base: Fs, dst: Path, faults: set<Path>, d: set<Name>, names: set<Name>)
    requires d <= names && BlockedIn(Copied(snap, src, d), src, base, dst, faults)
    ensures BlockedIn(Copied(snap, src, names), src, base, dst, faults)
  {
    BlockedGrows(snap, src, base, dst, faults, d, names - d);
    assert names == d + (names - d);
  }

  /** Moving one name from `pending` to `done` keeps the two a partition of `names`. */
  lemma TakeOne(names: set<Name>, done: set<Name>, pending: set<Name>, n: Name)
    requires names == done + pending && done !! pending && n in pending
    ensures names == (done + {n}) + (pending - {n}) && (done + {n}) !! (pending - {n})
    ensures n !in done && done + {n} <= names && |pending - {n}| < |pending|
  {
  }

  /** Before the first child, the walk has changed nothing. */
  lemma WalkStart(snap: Fs, src: Path, out1: Fs, dst: Path, faults: set<Path>, reports: Path -> seq<nat>)
    requires WellFormed(out1) && dst in out1 && out1[dst].Dir?
    ensures Walked(snap, src, out1, dst, faults, reports, {}, out1, [])
  {
    assert Copied(snap, src, {}) == map[];
    RelocateEmpty(src, dst);
    assert out1 + map[] == out1;
    BlockedInEmpty(src, out1, dst, faults);
  }

  // ----- the walk -----

  /**
    One step of `processDirectory`'s reduce: the child `n` of `src` is
    skipped when its path ends in `.lock`, copied recursively when it is a
    directory, and streamed to `dst + [n]` otherwise.
  */
  method ProcessEntry(snap: Fs, src: Path, n: Name, cur: Fs, dst: Path, faults: set<Path>, reports: Path -> seq<nat>)
    returns (res: Fs, deltas: seq<int>, err: Option<IoError>)
    requires WellFormed(snap) && WellFormed(cur) && ValidPath(dst)
    requires src + [n] in snap && dst in cur && cur[dst].Dir?
    ensures WellFormed(res) && Extends(cur, res, dst)
    ensures err.None? <==> !BlockedIn(Copied(snap, src, {n}), src, cur, dst, faults)
    ensures err.None? ==> res == cur + MirrorPart(snap, src, dst, {n})
    ensures MonotoneReports(reports) ==> NonNegative(deltas)
    decreases Below(snap, src), 0
  {
    var srcPath, destPath := src + [n], dst + [n];
    ValidChild(snap, src, n, dst);
    EndsWithOnLastSegment(src, n, LockSuffix);
    if EndsWith(Render(srcPath), LockSuffix) {
      SkippedEntry(snap, src, n, cur, dst, faults);
      return cur, [], None;
    }
    if snap[srcPath].Dir? {
      BelowShrinks(snap, src, n);
      DirEntryBlocked(snap, src, n, cur, dst, faults);
      res, deltas, err := ProcessDirectory(snap, srcPath, cur, destPath, faults, reports);
      ExtendsWiden(cur, res, dst, n);
      if err.None? {
        DirEntryResult(snap, src, n, cur, dst);
      }
      return;
    }
    FileEntry(snap, src, n, cur, dst, faults);
    assert Parent(destPath) == dst;
    res, deltas, err := ProcessFile(snap, srcPath, cur, destPath, faults, reports);
    DeltaStreamTotals(reports(srcPath), deltas);
    if err.None? {
      WriteFileKeepsWellFormed(cur, destPath, snap[srcPath].data);
      WriteChildExtends(cur, dst, n, snap[srcPath]);
      UpdateIsUnion(cur, destPath, snap[srcPath]);
    }
  }

  /**
    `processFile(srcPath, destPath, size, updateProgress)`: stream the file's
    bytes to `destPath` (creating or truncating it) and pass on the
    progress deltas; a failing stream or a directory at `destPath` rejects.
  */
  method ProcessFile(snap: Fs, srcPath: Path, cur: Fs, destPath: Path, faults: set<Path>, reports: Path -> seq<nat>)
    returns (res: Fs, deltas: seq<int>, err: Option<IoError>)
    requires srcPath in snap && snap[srcPath].File?
    ensures err.None? <==> srcPath !in faults && WriteFile(cur, destPath, snap[srcPath].data).Ok?
    ensures err.None? ==> res == cur[destPath := snap[srcPath]]
    ensures err.Some? ==> res == cur
    ensures IsDeltaStream(reports(srcPath), deltas)
  {
    deltas := StreamDeltas(reports(srcPath));
    if srcPath in faults {
      return cur, deltas, Some(TransferFailed(srcPath));
    }
    var written := WriteFile(cur, destPath, snap[srcPath].data);
    if written.Err? {
      return cur, deltas, Some(written.error);
    }
    return written.value, deltas, None;
  }

  /**
    `processDirectory(src, dst)`: create `dst`, read `src`, and process its
    children one after another, stopping at the first failure.
  */
  method ProcessDirectory(snap: Fs, src: Path, out: Fs, dst: Path, faults: set<Path>, reports: Path -> seq<nat>)
    returns (res: Fs, deltas: seq<int>, err: Option<IoError>)
    requires WellFormed(snap) && WellFormed(out) && ValidPath(dst)
    ensures WellFormed(res) && Extends(out, res, dst)
    ensures err.None? <==> CopySucceeds(snap, src, out, dst, faults)
    ensures err.None? ==> res == EnsureDir(out, dst).value + Mirror(snap, src, dst)
    ensures MonotoneReports(reports) ==> NonNegative(deltas)
    decreases Below(snap, src), 4
  {
    var made := EnsureDir(out, dst);
    if made.Err? {
      return out, [], Some(made.error);
    }
    var out1 := made.value;
    EnsureDirKeepsWellFormed(out, dst);
    EnsureDirExtends(out, dst);
    if src !in snap {
      return out1, [], Some(NoEntry(src));
    }
    if snap[src].File? {
      return out1, [], Some(NotADirectory(src));
    }
    res, deltas, err := ProcessChildren(snap, src, out1, dst, faults, reports);
    ExtendsTrans(out, out1, res, dst);
  }

  /** The reduce over `readdir(src)` in `processDirectory`, once `dst` exists. */
  method ProcessChildren(snap: Fs, src: Path, out1: Fs, dst: Path, faults: set<Path>, reports: Path -> seq<nat>)
    returns (res: Fs, deltas: seq<int>, err: Option<IoError>)
    requires WellFormed(snap) && WellFormed(out1) && ValidPath(dst)
    requires src in snap && snap[src].Dir? && dst in out1 && out1[dst].Dir?
    ensures WellFormed(res) && Extends(out1, res, dst)
    ensures MonotoneReports(reports) ==> NonNegative(deltas)
    ensures err.Some? ==> BlockedIn(Copied(snap, src, Children(snap, src)), src, out1, dst, faults)
    ensures err.None? ==> Walked(snap, src, out1, dst, faults, reports, Children(snap, src), res, deltas)
    decreases Below(snap, src), 3
  {
    var pending := Children(snap, src);
    ghost var done: set<Name> := {};
    res, deltas, err := out1, [], None;
    WalkStart(snap, src, out1, dst, faults, reports);
    while pending != {}
      invariant Children(snap, src) == done + pending && done !! pending
      invariant Walked(snap, src, out1, dst, faults, reports, done, res, deltas)
      invariant err.None?
      decreases |pending|
    {
      res, deltas, err, done, pending := NextChild(snap, src, out1, dst, done, pending, res, deltas, faults, reports);
      if err.Some? {
        return;
      }
    }
  }

  /** One turn of the reduce: take the next entry of `readdir` and visit it. */
  method NextChild(snap: Fs, src: Path, out1: Fs, dst: Path, ghost done: set<Name>, pending: set<Name>, cur: Fs, deltas: seq<int>,
                   faults: set<Path>, reports: Path -> seq<nat>)
    returns (res: Fs, deltas': seq<int>, err: Option<IoError>, ghost done': set<Name>, pending': set<Name>)
    requires WellFormed(snap) && ValidPath(dst) && src in snap
    requires pending != {} && Children(snap, src) == done + pending && done !! pending
    requires Walked(snap, src, out1, dst, faults, reports, done, cur, deltas)
    ensures Children(snap, src) == done' + pending' && done' !! pending' && |pending'| < |pending|
    ensures WellFormed(res) && Extends(out1, res, dst)
    ensures MonotoneReports(reports) ==> NonNegative(deltas')
    ensures err.Some? ==> BlockedIn(Copied(snap, src, Children(snap, src)), src, out1, dst, faults)
    ensures err.None? ==> Walked(snap, src, out1, dst, faults, reports, done', res, deltas')
    decreases Below(snap, src), 2
  {
    var n :| n in pending;
    TakeOne(Children(snap, src), done, pending, n);
    res, deltas', err := VisitChild(snap, src, out1, dst, done, n, cur, deltas, faults, reports);
    if err.Some? {
      BlockedWithin(snap, src, out1, dst, faults, done + {n}, Children(snap, src));
    }
    done', pending' := done + {n}, pending - {n};
  }

  /** Visiting one child, checked against everything the earlier ones did. */
  method VisitChild(snap: Fs, src: Path, out1: Fs, dst: Path, ghost done: set<Name>, n: Name, cur: Fs, deltas: seq<int>,
                    faults: set<Path>, reports: Path -> seq<nat>)
    returns (res: Fs, deltas': seq<int>, err: Option<IoError>)
    requires WellFormed(snap) && ValidPath(dst) && src + [n] in snap && n !in done
    requires Walked(snap, src, out1, dst, faults, reports, done, cur, deltas)
    ensures WellFormed(res) && Extends(out1, res, dst)
    ensures MonotoneReports(reports) ==> NonNegative(deltas')
    ensures err.Some? ==> BlockedIn(Copied(snap, src, done + {n}), src, out1, dst, faults)
    ensures err.None? ==> Walked(snap, src, out1, dst, faults, reports, done + {n}, res, deltas')
    decreases Below(snap, src), 1
  {
    var d: seq<int>;
    res, d, err := ProcessEntry(snap, src, n, cur, dst, faults, reports);
    WalkStep(snap, src, dst, out1, done, n, faults);
    ExtendsTrans(out1, cur, res, dst);
    if err.None? {
      UnionAssociates(out1, MirrorPart(snap, src, dst, done), MirrorPart(snap, src, dst, {n}));
    }
    if MonotoneReports(reports) {
      NonNegativeConcat(deltas, d);
    }
    deltas' := deltas + d;
  }

  // ----- the whole copy -----

  /**
    `copyWithProgress(src, dst)`: size the source tree, then copy it,
    turning every byte delta into the percentage `sendProgress` receives.
    `events` are those percentages in order; `deltas` are the byte deltas
    `updateProgress` received, one per event.
  */
  method CopyWithProgress(snap: Fs, src: Path, out: Fs, dst: Path, faults: set<Path>, reports: Path -> seq<nat>)
    returns (res: Fs, events: seq<Progress>, err: Option<IoError>, deltas: seq<int>)
    requires WellFormed(snap) && WellFormed(out) && ValidPath(dst)
    ensures WellFormed(res) && Extends(out, res, dst)
    ensures DirectorySize(snap, src).Err? ==> res == out && events == [] && err == Some(DirectorySize(snap, src).error)
    ensures err.None? <==> DirectorySize(snap, src).Ok? && CopySucceeds(snap, src, out, dst, faults)
    ensures err.None? ==> res == EnsureDir(out, dst).value + Mirror(snap, src, dst)
    ensures |events| == |deltas|
    ensures DirectorySize(snap, src).Ok? ==>
      forall k :: 0 <= k < |events| ==> events[k] == Reported(Sum(deltas[..k + 1]), DirectorySize(snap, src).value)
    ensures MonotoneReports(reports) ==> NonNegative(deltas)
    ensures forall k :: 0 <= k < |events| ==> events[k].Percent? ==> events[k].value <= 99
    ensures MonotoneReports(reports) && DirectorySize(snap, src).Ok? && DirectorySize(snap, src).value > 0 ==>
      (forall k :: 0 <= k < |events| ==> events[k].Percent? && 0 <= events[k].value <= 99) &&
      (forall i, j :: 0 <= i < j < |events| ==> events[i].value <= events[j].value)
  {
    var total := GetDirectorySize(snap, src);
    if total.Err? {
      return out, [], Some(total.error), [];
    }
    var copied: int;
    res, deltas, err := ProcessDirectory(snap, src, out, dst, faults, reports);
    events, copied := ForwardProgress(deltas, total.value);
    if MonotoneReports(reports) && total.value > 0 {
      ForwardedProgressIsMonotone(deltas, total.value, events);
    }
  }

  // ----- the mirror as a whole -----

  /** What the mirror holds at `dst + r`: the source entry at `src + r`, exactly when every segment of `r` is kept. */
  lemma MirrorAt(snap: Fs, src: Path, dst: Path, r: Path)
    requires WellFormed(snap) && r != []
    ensures dst + r in Mirror(snap, src, dst) <==> src + r in snap && Kept(r)
    ensures dst + r in Mirror(snap, src, dst) ==> Mirror(snap, src, dst)[dst + r] == snap[src + r]
  {
    var q := src + r;
    assert q[|src|..] == r;
    RelocateAt(Copied(snap, src, Children(snap, src)), src, dst, r);
    if q in snap && Kept(r) {
      ChildOnTheWay(snap, src, q);
    }
  }

  /** Every entry of the mirror lies strictly beneath `dst`. */
  lemma MirrorBeneath(snap: Fs, src: Path, dst: Path, t: Path)
    requires t in Mirror(snap, src, dst)
    ensures IsStrictPrefix(dst, t) && src + t[|dst|..] in Copied(snap, src, Children(snap, src))
  {
    RelocateKeys(Copied(snap, src, Children(snap, src)), src, dst, t);
  }

  /**
    A copy that goes through leaves a well-formed tree that extends the
    destination disk: the mirror's parents are directories of the mirror
    or `dst` itself, and no entry already there loses its directory.
  */
  lemma MirrorIsWellFormed(snap: Fs, src: Path, out: Fs, dst: Path, faults: set<Path>)
    requires WellFormed(snap) && WellFormed(out) && ValidPath(dst)
    requires CopySucceeds(snap, src, out, dst, faults)
    ensures WellFormed(EnsureDir(out, dst).value + Mirror(snap, src, dst))
    ensures Extends(out, EnsureDir(out, dst).value + Mirror(snap, src, dst), dst)
  {
    var base := EnsureDir(out, dst).value;
    var m := Mirror(snap, src, dst);
    var c := Copied(snap, src, Children(snap, src));
    var res := base + m;
    EnsureDirKeepsWellFormed(out, dst);
    EnsureDirExtends(out, dst);
    assert [] !in m by {
      if [] in m { MirrorBeneath(snap, src, dst, []); }
    }
    forall t | t in m ensures ValidPath(t) && Parent(t) in res && res[Parent(t)].Dir? {
      MirrorBeneath(snap, src, dst, t);
      var r := t[|dst|..];
      assert t == dst + r;
      var q := src + r;
      assert q[|src|..] == r;
      RebasedPathValid(src, dst, r);
      if |r| == 1 {
        assert Parent(t) == dst;
        assert dst !in m by {
          if dst in m { MirrorBeneath(snap, src, dst, dst); }
        }
      } else {
        var r' := r[..|r| - 1];
        assert Parent(t) == dst + r';
        assert Parent(q) == src + r';
        assert (src + r')[|src|] == q[|src|];
        assert (src + r')[|src|..] == r';
        assert src + r' in c;
        MirrorAt(snap, src, dst, r');
      }
    }
    forall t | t in base && t !in m && t != [] ensures Parent(t) in res && res[Parent(t)].Dir? {
      var p := Parent(t);
      if p in m {
        MirrorBeneath(snap, src, dst, p);
        var k := src + p[|dst|..];
        assert dst + k[|src|..] == p;
        assert !Hazard(base, dst + k[|src|..], c[k], k in faults);
        MirrorAt(snap, src, dst, p[|dst|..]);
      }
    }
    forall t | t in m ensures !IsStrictPrefix(dst, t) ==> false {
      MirrorBeneath(snap, src, dst, t);
    }
  }
}
