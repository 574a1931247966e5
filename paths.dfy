/** Absolute filesystem paths as sequences of segments below "/", the `pathlib`
    operations the resolver uses on them (`/`, `resolve`, `parent`, `name`,
    `suffix`, `stem`, `with_suffix`, `is_relative_to`, `relative_to`,
    `as_posix`) and `posixpath.join`.

    Canonicalisation (`Path.resolve`, i.e. `os.path.realpath`) is modelled as
    normalisation of `.`, `..` and empty segments; the model has no symbolic links. */
module Paths {
  import opened Strings

  /** The segments of an absolute path: `[]` is "/", `["srv", "www"]` is "/srv/www". */
  type Path = seq<string>

  /** A path as `resolve()` returns it: no empty, `.` or `..` segment, no `/` inside a segment. */
  predicate IsCanonical(p: Path) {
    forall i :: 0 <= i < |p| ==> p[i] != "" && p[i] != "." && p[i] != ".." && '/' !in p[i]
  }

  /** `child.is_relative_to(base)` for canonical paths: `base` is a leading run of segments of `child`. */
  predicate IsPrefix(base: Path, child: Path) {
    |base| <= |child| && child[..|base|] == base
  }

  /** One step of canonicalisation: an empty or `.` segment is dropped, `..` goes
      up one level (staying at "/" when already there), any other name goes down. */
  function Step(acc: Path, segment: string): Path {
    if segment == "" || segment == "." then acc
    else if segment == ".." then (if acc == [] then [] else acc[..|acc| - 1])
    else acc + [segment]
  }

  function NormalizeFrom(acc: Path, segments: seq<string>): Path
    decreases |segments|
  {
    if segments == [] then acc else NormalizeFrom(Step(acc, segments[0]), segments[1..])
  }

  /** `Path.resolve()` of the path spelled by `segments`, read from "/". */
  function Normalize(segments: seq<string>): Path {
    NormalizeFrom([], segments)
  }

  /** Canonicalising a concatenation is canonicalising the rest from where the first part ended. */
  lemma {:induction false} NormalizeAppend(acc: Path, a: seq<string>, b: seq<string>)
    ensures NormalizeFrom(acc, a + b) == NormalizeFrom(NormalizeFrom(acc, a), b)
    decreases |a|
  {
    if a == [] {
      assert a + b == b;
    } else {
      assert (a + b)[0] == a[0] && (a + b)[1..] == a[1..] + b;
      NormalizeAppend(Step(acc, a[0]), a[1..], b);
    }
  }

  /** A canonical path is its own canonical form, wherever it is appended. */
  lemma {:induction false} NormalizeCanonical(acc: Path, c: seq<string>)
    requires IsCanonical(c)
    ensures NormalizeFrom(acc, c) == acc + c
    decreases |c|
  {
    if c != [] {
      NormalizeCanonical(acc + [c[0]], c[1..]);
      assert acc + [c[0]] + c[1..] == acc + c;
    }
  }

  /** Canonicalisation yields a canonical path when it starts from one and no
      segment holds a `/`. */
  lemma {:induction false} NormalizeIsCanonical(acc: Path, segments: seq<string>)
    requires IsCanonical(acc)
    requires forall i :: 0 <= i < |segments| ==> '/' !in segments[i]
    ensures IsCanonical(NormalizeFrom(acc, segments))
    decreases |segments|
  {
    if segments != [] {
      NormalizeIsCanonical(Step(acc, segments[0]), segments[1..]);
    }
  }

  /** Without a `..` segment, canonicalisation never climbs above its starting point. */
  lemma {:induction false} NoParentSegmentStaysBelow(acc: Path, segments: seq<string>)
    requires forall i :: 0 <= i < |segments| ==> segments[i] != ".."
    ensures IsPrefix(acc, NormalizeFrom(acc, segments))
    decreases |segments|
  {
    if segments != [] {
      var next := Step(acc, segments[0]);
      NoParentSegmentStaysBelow(next, segments[1..]);
      var r := NormalizeFrom(next, segments[1..]);
      assert r[..|acc|] == r[..|next|][..|acc|];
    }
  }

  /** `root / rel` followed by `resolve()`: the relative URL path is split on `/`. */
  function JoinRel(root: Path, rel: string): Path {
    Normalize(root + Split(rel, '/'))
  }

  /** Seen from a canonical root, joining is canonicalising the relative part from the root. */
  lemma JoinRelFromRoot(root: Path, rel: string)
    requires IsCanonical(root)
    ensures JoinRel(root, rel) == NormalizeFrom(root, Split(rel, '/'))
  {
    NormalizeAppend([], root, Split(rel, '/'));
    NormalizeCanonical([], root);
    assert [] + root == root;
  }

  /** The joined path is canonical, and a relative path without `..` segments
      stays below a canonical root. */
  lemma JoinRelBelowRoot(root: Path, rel: string)
    requires IsCanonical(root)
    ensures IsCanonical(JoinRel(root, rel))
    ensures (forall i :: 0 <= i < |Split(rel, '/')| ==> Split(rel, '/')[i] != "..")
            ==> IsPrefix(root, JoinRel(root, rel))
  {
    JoinRelFromRoot(root, rel);
    NormalizeIsCanonical(root, Split(rel, '/'));
    if forall i :: 0 <= i < |Split(rel, '/')| ==> Split(rel, '/')[i] != ".." {
      NoParentSegmentStaysBelow(root, Split(rel, '/'));
    }
  }

  /** A trailing `/` does not change which path a relative URL path names. */
  lemma JoinRelTrailingSlash(root: Path, rel: string)
    ensures JoinRel(root, rel + "/") == JoinRel(root, rel)
  {
    SplitAppendSep(rel, '/');
    assert root + Split(rel + "/", '/') == (root + Split(rel, '/')) + [""];
    NormalizeAppend([], root + Split(rel, '/'), [""]);
  }

  /** `p.parent`; the parent of "/" is "/". */
  function Parent(p: Path): Path {
    if p == [] then [] else p[..|p| - 1]
  }

  /** `p.name`; the name of "/" is empty. */
  function Name(p: Path): string {
    if p == [] then "" else p[|p| - 1]
  }

  /** `name.rfind('.')`: the index of the last `.`, or -1. */
  function LastDot(name: string): (i: int)
    ensures -1 <= i < |name|
    ensures i >= 0 ==> name[i] == '.'
    ensures forall j :: i < j < |name| ==> name[j] != '.'
  {
    if name == [] then -1
    else if name[|name| - 1] == '.' then |name| - 1
    else LastDot(name[..|name| - 1])
  }

  /** `PurePath.suffix`: from the last `.` on, provided that dot is neither the
      first nor the last character of the name; otherwise empty. */
  function Suffix(name: string): (r: string)
    ensures r == [] || (2 <= |r| < |name| && r[0] == '.' && EndsWith(name, r) && '.' !in r[1..])
  {
    var i := LastDot(name);
    if 0 < i < |name| - 1 then name[i..] else ""
  }

  /** What a non-empty `suffix` looks like: a dot, then at least one character, none of them a dot. */
  predicate IsSuffixShaped(ext: string) {
    |ext| >= 2 && ext[0] == '.' && '.' !in ext[1..]
  }

  /** A name made of a non-empty stem and a suffix-shaped extension has that extension as its suffix. */
  lemma SuffixOfExtension(stem: string, ext: string)
    requires stem != [] && IsSuffixShaped(ext)
    ensures Suffix(stem + ext) == ext
  {
    var name := stem + ext;
    var i := LastDot(name);
    assert name[|stem|] == '.';
    forall j | |stem| < j < |name|
      ensures name[j] != '.'
    {
      assert name[j] == ext[1..][j - |stem| - 1];
    }
    assert i == |stem|;
    assert name[i..] == ext;
  }

  /** `PurePath.stem`: the name without its suffix. */
  function Stem(name: string): (r: string)
    ensures r + Suffix(name) == name
  {
    name[..|name| - |Suffix(name)|]
  }

  /** `p.with_suffix(suffix)`: the last suffix of the name is replaced (or
      `suffix` appended when there is none); the parent is unchanged. */
  function WithSuffix(p: Path, suffix: string): (q: Path)
    requires p != []
    ensures Parent(q) == Parent(p) && q != []
    ensures Name(q) == Stem(Name(p)) + suffix
  {
    Parent(p) + [Stem(Name(p)) + suffix]
  }

  /** `child.relative_to(base).as_posix()` for a child strictly below `base`. */
  function RelativePosix(base: Path, child: Path): string
    requires IsPrefix(base, child) && |base| < |child|
  {
    Join(child[|base|..], '/')
  }

  /** `posixpath.join(a, b)`: an absolute `b` replaces `a`; otherwise a `/` is
      inserted unless `a` is empty or already ends in one. */
  function PosixJoin(a: string, b: string): (r: string)
    ensures StartsWith(a, "/") ==> StartsWith(r, "/")
    ensures StartsWith(b, "/") ==> r == b
    ensures !StartsWith(b, "/") && (a == [] || EndsWith(a, "/")) ==> r == a + b
    ensures !StartsWith(b, "/") && a != [] && !EndsWith(a, "/") ==> r == a + "/" + b
    ensures !StartsWith(b, "/") ==> StartsWith(r, a) && EndsWith(r, b) && EndsWith(r[..|r| - |b|], "/") == (a != [])
  {
    if StartsWith(b, "/") then b
    else if a == [] || EndsWith(a, "/") then a + b
    else a + "/" + b
  }
}
