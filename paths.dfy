/**
  Paths as the model sees them: a path is the sequence of its segments, and
  the strings that the store keeps and that the destination checks compare
  are the rendered forms `/seg1/seg2/...` of those sequences (`/` for the
  root). `Render` and `Parse` translate between the two; `path.join(dir, n)`
  on a normalised directory is `dir + [n]`.
*/
module Paths {
  import opened Wrappers

  type Name = string
  type Path = seq<Name>

  /** A single path segment: non-empty, no separator, not `.` or `..`. */
  predicate ValidName(n: string) {
    |n| > 0 && '/' !in n && n != "." && n != ".."
  }

  predicate ValidPath(p: Path) {
    forall i :: 0 <= i < |p| ==> ValidName(p[i])
  }

  /** JavaScript's `String.prototype.startsWith`. */
  predicate StartsWith(s: string, prefix: string) {
    |prefix| <= |s| && s[..|prefix|] == prefix
  }

  /** JavaScript's `String.prototype.endsWith`. */
  predicate EndsWith(s: string, suffix: string) {
    |suffix| <= |s| && s[|s| - |suffix|..] == suffix
  }

  /** `p` is `q` or one of its ancestors. */
  predicate IsPrefix(p: Path, q: Path) {
    |p| <= |q| && q[..|p|] == p
  }

  /** `q` lies strictly beneath `p`. */
  predicate IsStrictPrefix(p: Path, q: Path) {
    |p| < |q| && q[..|p|] == p
  }

  function Parent(p: Path): Path
    requires p != []
  {
    p[..|p| - 1]
  }

  function RenderSegments(p: Path): string {
    if p == [] then "" else "/" + p[0] + RenderSegments(p[1..])
  }

  /** The absolute path string of `p`. */
  function Render(p: Path): (s: string)
    ensures |s| > 0 && s[0] == '/'
  {
    if p == [] then "/" else RenderSegments(p)
  }

  /** Index of the first `/` in `s`, or `|s|` when there is none. */
  function FirstSlash(s: string): (i: nat)
    ensures i <= |s|
    ensures forall j :: 0 <= j < i ==> s[j] != '/'
    ensures i < |s| ==> s[i] == '/'
  {
    if s == [] then 0 else if s[0] == '/' then 0 else 1 + FirstSlash(s[1..])
  }

  function ParseSegments(s: string): Option<Path>
    decreases |s|
  {
    var i := FirstSlash(s);
    var name := s[..i];
    if !ValidName(name) then None
    else if i == |s| then Some([name])
    else match ParseSegments(s[i + 1..])
      case None => None
      case Some(rest) => Some([name] + rest)
  }

  /** The path an absolute, normalised path string names; `None` for any other string. */
  function Parse(s: string): Option<Path> {
    if s == "/" then Some([])
    else if |s| > 0 && s[0] == '/' then ParseSegments(s[1..])
    else None
  }

  lemma {:induction false} RenderSegmentsAppend(p: Path, q: Path)
    ensures RenderSegments(p + q) == RenderSegments(p) + RenderSegments(q)
    decreases |p|
  {
    if p == [] {
      assert p + q == q;
    } else {
      assert (p + q)[1..] == p[1..] + q;
      RenderSegmentsAppend(p[1..], q);
    }
  }

  /** `path.join(dir, n)` renders as the directory's string, a separator and `n`. */
  lemma RenderJoin(p: Path, n: Name)
    ensures Render(p + [n]) == RenderSegments(p) + "/" + n
  {
    RenderSegmentsAppend(p, [n]);
    assert RenderSegments([n]) == "/" + n + RenderSegments([]);
  }

  /** Appending a suffix to the rendered string of `p + [n]` renames its last segment. */
  lemma RenderSuffix(p: Path, n: Name, suffix: string)
    ensures Render(p + [n]) + suffix == Render(p + [n + suffix])
  {
    RenderJoin(p, n);
    RenderJoin(p, n + suffix);
  }

  lemma {:induction false} FirstSlashAfterName(name: string, rest: string)
    requires '/' !in name
    requires rest == [] || rest[0] == '/'
    ensures FirstSlash(name + rest) == |name|
    decreases |name|
  {
    if name == [] {
      assert name + rest == rest;
    } else {
      assert (name + rest)[0] == name[0];
      assert (name + rest)[1..] == name[1..] + rest;
      assert name[0] in name;
      FirstSlashAfterName(name[1..], rest);
    }
  }

  lemma ValidPathTail(p: Path)
    requires p != [] && ValidPath(p)
    ensures ValidName(p[0]) && ValidPath(p[1..])
  {
    assert forall i :: 0 <= i < |p[1..]| ==> p[1..][i] == p[i + 1];
  }

  /** Parsing a single valid name. */
  lemma ParseLastSegment(name: string)
    requires ValidName(name)
    ensures ParseSegments(name) == Some([name])
  {
    FirstSlashAfterName(name, []);
    assert name + [] == name;
  }

  /** Parsing a valid name followed by a separator and more segments. */
  lemma ParseFirstSegment(name: string, tail: string, rest: Path)
    requires ValidName(name) && tail != [] && tail[0] == '/' && ParseSegments(tail[1..]) == Some(rest)
    ensures ParseSegments(name + tail) == Some([name] + rest)
  {
    var s := name + tail;
    FirstSlashAfterName(name, tail);
    assert s[..|name|] == name;
    assert s[|name| + 1..] == tail[1..];
  }

  /** Parsing the rendering of `[name] + rest`, given that of `rest`. */
  lemma ParseRenderCons(name: Name, rest: Path)
    requires ValidName(name) && rest != [] && ParseSegments(RenderSegments(rest)[1..]) == Some(rest)
    ensures ParseSegments(RenderSegments([name] + rest)[1..]) == Some([name] + rest)
  {
    var tail := RenderSegments(rest);
    RenderSegmentsCons(name, rest);
    assert RenderSegments([name] + rest)[1..] == name + tail;
    RenderSegmentsNonEmpty(rest);
    ParseFirstSegment(name, tail, rest);
  }

  lemma {:induction false} ParseRenderSegments(p: Path)
    requires p != [] && ValidPath(p)
    ensures ParseSegments(RenderSegments(p)[1..]) == Some(p)
    decreases |p|
  {
    ValidPathTail(p);
    if p[1..] == [] {
      assert p == [p[0]];
      assert RenderSegments(p)[1..] == p[0] by {
        assert RenderSegments(p) == "/" + p[0] + RenderSegments([]);
      }
      ParseLastSegment(p[0]);
    } else {
      ParseRenderSegments(p[1..]);
      ParseRenderCons(p[0], p[1..]);
      assert p == [p[0]] + p[1..];
    }
  }

  /** Parsing the rendered form of a valid path gives the path back. */
  lemma ParseRender(p: Path)
    requires ValidPath(p)
    ensures Parse(Render(p)) == Some(p)
  {
    if p != [] {
      ValidPathTail(p);
      var s := RenderSegments(p);
      assert s == "/" + p[0] + RenderSegments(p[1..]);
      assert |s| >= 2;
      ParseRenderSegments(p);
    }
  }

  lemma ValidPathCons(name: Name, rest: Path)
    requires ValidName(name) && ValidPath(rest)
    ensures ValidPath([name] + rest)
  {
    assert forall j :: 0 < j < |[name] + rest| ==> ([name] + rest)[j] == rest[j - 1];
  }

  lemma RenderSegmentsCons(name: Name, rest: Path)
    ensures RenderSegments([name] + rest) == "/" + name + RenderSegments(rest)
  {
    assert ([name] + rest)[1..] == rest;
  }

  /** A string with a separator at `i` is the part before it, the separator and the part after. */
  lemma SplitAtSlash(s: string, i: nat)
    requires i < |s| && s[i] == '/'
    ensures s == s[..i] + ("/" + s[i + 1..])
  {
    assert s == s[..i] + s[i..];
    assert s[i..] == [s[i]] + s[i + 1..];
  }

  /** The rendered form of a non-empty path is a separator followed by the rest. */
  lemma RenderSegmentsNonEmpty(p: Path)
    requires p != []
    ensures RenderSegments(p) == "/" + RenderSegments(p)[1..]
  {
    var r := RenderSegments(p);
    assert r[0] == '/';
    assert r == [r[0]] + r[1..];
  }

  /** One step of `ParseSegments`: a valid first name, then either the end or a separator and more. */
  lemma ParseSegmentsCases(s: string, p: Path)
    requires ParseSegments(s) == Some(p)
    ensures FirstSlash(s) <= |s| && ValidName(s[..FirstSlash(s)])
    ensures FirstSlash(s) == |s| ==> p == [s[..FirstSlash(s)]]
    ensures FirstSlash(s) < |s| ==>
      (s[FirstSlash(s)] == '/' && ParseSegments(s[FirstSlash(s) + 1..]).Some? &&
       p == [s[..FirstSlash(s)]] + ParseSegments(s[FirstSlash(s) + 1..]).value)
  {
  }

  /** Rendering a name in front of a path whose rendering matches the rest of `s` after a separator. */
  lemma RenderInFront(s: string, i: nat, rest: Path)
    requires i < |s| && s[i] == '/' && rest != [] && RenderSegments(rest)[1..] == s[i + 1..]
    ensures RenderSegments([s[..i]] + rest)[1..] == s
  {
    RenderSegmentsCons(s[..i], rest);
    RenderSegmentsNonEmpty(rest);
    SplitAtSlash(s, i);
    assert RenderSegments([s[..i]] + rest) == "/" + (s[..i] + RenderSegments(rest));
  }

  lemma {:induction false} RenderParseSegments(s: string, p: Path)
    requires ParseSegments(s) == Some(p)
    ensures p != [] && ValidPath(p) && RenderSegments(p)[1..] == s
    decreases |s|
  {
    ParseSegmentsCases(s, p);
    var i := FirstSlash(s);
    var name := s[..i];
    if i == |s| {
      assert p == [name] + [];
      RenderSegmentsCons(name, []);
      ValidPathCons(name, []);
    } else {
      var rest := ParseSegments(s[i + 1..]).value;
      RenderParseSegments(s[i + 1..], rest);
      ValidPathCons(name, rest);
      RenderInFront(s, i, rest);
    }
  }

  /** A string that parses is exactly the rendered form of what it parses to. */
  lemma RenderParse(s: string, p: Path)
    requires Parse(s) == Some(p)
    ensures ValidPath(p) && Render(p) == s
  {
    if s != "/" {
      RenderParseSegments(s[1..], p);
      assert s == [s[0]] + s[1..];
    }
  }

  /** The raw string test catches every destination at or beneath a directory. */
  lemma PrefixRendersAsStartsWith(p: Path, q: Path)
    requires IsPrefix(p, q)
    ensures StartsWith(Render(q), Render(p))
  {
    if p != [] {
      assert q == p + q[|p|..];
      RenderSegmentsAppend(p, q[|p|..]);
    }
  }

  /** The last `k` characters of `a + b`, when `b` has at least `k`, are those of `b`. */
  lemma ShortSuffixOfAppend(a: string, b: string, k: nat)
    requires k <= |b|
    ensures (a + b)[|a + b| - k..] == b[|b| - k..]
  {
  }

  /** The last `k` characters of `a + b`, when `k` exceeds `|b|`, include the last character of `a`. */
  lemma LongSuffixOfAppend(a: string, b: string, k: nat)
    requires |b| < k <= |a + b|
    ensures a[|a| - 1] in (a + b)[|a + b| - k..]
  {
    var tail := (a + b)[|a + b| - k..];
    assert tail[k - |b| - 1] == a[|a| - 1];
  }

  /** `srcPath.endsWith('.lock')` on a joined path is the same test on its last segment. */
  lemma EndsWithOnLastSegment(p: Path, n: Name, suffix: string)
    requires ValidName(n) && '/' !in suffix
    ensures EndsWith(Render(p + [n]), suffix) <==> EndsWith(n, suffix)
  {
    RenderJoin(p, n);
    var pre := RenderSegments(p) + "/";
    assert Render(p + [n]) == pre + n;
    if |suffix| <= |n| {
      ShortSuffixOfAppend(pre, n, |suffix|);
    } else if |suffix| <= |pre + n| {
      LongSuffixOfAppend(pre, n, |suffix|);
    }
  }
}
