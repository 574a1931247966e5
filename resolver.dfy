/** `StaticDir.resolve_path` (webserver/staticdir.py:97-130): from the URL path
    relative to the mount point to an existing path below the root, trying the
    implicit extensions when the exact path is missing. */
module Resolver {
  import opened Wrappers
  import opened Strings
  import opened Paths
  import opened FileSystem
  import opened Config

  /** `(None, None)`, or the resolved path and the kind its `lstat` reports. */
  datatype Resolution = Unresolved | Resolved(path: Path, kind: Kind)

  /** A child the glob `<base>.*` yields and the suffix filter keeps. */
  predicate IsImplicitMatch(child: string, base: string, exts: seq<string>) {
    StartsWith(child, base + ".") && Suffix(child) in exts
  }

  /** A child named the requested name plus a listed, suffix-shaped extension is accepted by the glob loop. */
  lemma ExtensionChildMatches(base: string, ext: string, exts: seq<string>)
    requires base != "" && ext in exts && IsSuffixShaped(ext)
    ensures IsImplicitMatch(base + ext, base, exts)
  {
    SuffixOfExtension(base, ext);
    assert (base + ext)[..|base + "."|] == base + ".";
  }

  /** The index of the first child, in enumeration order, that the glob loop accepts. */
  function FirstImplicitMatch(children: seq<string>, base: string, exts: seq<string>): (r: Option<nat>)
    ensures r.Some? ==>
      && r.value < |children|
      && IsImplicitMatch(children[r.value], base, exts)
      && forall j :: 0 <= j < r.value ==> !IsImplicitMatch(children[j], base, exts)
    ensures r.None? ==> forall j :: 0 <= j < |children| ==> !IsImplicitMatch(children[j], base, exts)
  {
    if children == [] then None
    else if IsImplicitMatch(children[0], base, exts) then Some(0)
    else
      match FirstImplicitMatch(children[1..], base, exts)
      case None => None
      case Some(k) => Some(k + 1)
  }

  /** The glob loop's answer: the index where it stops is the first match. */
  lemma FirstImplicitMatchAt(children: seq<string>, base: string, exts: seq<string>, i: nat)
    requires i < |children| && IsImplicitMatch(children[i], base, exts)
    requires forall j :: 0 <= j < i ==> !IsImplicitMatch(children[j], base, exts)
    ensures FirstImplicitMatch(children, base, exts) == Some(i)
  {
  }

  /** The implicit-extension block for a missing `p`: `None` when the parent
      is not a directory; otherwise `p.html` if it is a file, else `p.htm` if it
      is a file, else the first accepted glob match, else `p` unchanged. */
  function ImplicitTarget(cfg: StaticDir, fs: Snapshot, p: Path): Option<Path>
    requires !Exists(fs, p)
  {
    var parentDir := Parent(p);
    if !IsDir(fs, parentDir) then None
    else if IsFile(fs, WithSuffix(p, ".html")) then Some(WithSuffix(p, ".html"))
    else if IsFile(fs, WithSuffix(p, ".htm")) then Some(WithSuffix(p, ".htm"))
    else
      var children := Children(fs, parentDir);
      match FirstImplicitMatch(children, Name(p), cfg.implicitExts)
      case Some(i) => Some(parentDir + [children[i]])
      case None => Some(p)
  }

  /** `resolve_path(rel_path)` as a function of the snapshot. Whatever it
      resolves exists, has the kind it reports, and lies below the root. */
  function Resolve(cfg: StaticDir, fs: Snapshot, relPath: string): (r: Resolution)
    ensures r.Resolved? ==>
      && IsPrefix(cfg.rootDir, r.path)
      && r.path in fs.entries && fs.entries[r.path] == r.kind
  {
    if StartsWith(relPath, "/") then Unresolved
    else
      var p := JoinRel(cfg.rootDir, relPath);
      var chosen := if !Exists(fs, p) && !EndsWith(relPath, "/") then ImplicitTarget(cfg, fs, p) else Some(p);
      match chosen
      case None => Unresolved
      case Some(q) =>
        if !Exists(fs, q) then Unresolved
        else if !IsPrefix(cfg.rootDir, q) then Unresolved
        else Resolved(q, fs.entries[q])
  }

  /** `resolve_path` step by step, with the glob loop and its `break`. */
  method ResolvePath(cfg: StaticDir, fs: Snapshot, relPath: string) returns (r: Resolution)
    ensures r == Resolve(cfg, fs, relPath)
  {
    if StartsWith(relPath, "/") {
      return Unresolved;
    }
    var path := JoinRel(cfg.rootDir, relPath);
    ghost var named := path;
    if !Exists(fs, path) && !EndsWith(relPath, "/") {
      var parentDir := Parent(path);
      if !IsDir(fs, parentDir) {
        return Unresolved;
      }
      if IsFile(fs, WithSuffix(path, ".html")) {
        path := WithSuffix(path, ".html");
      } else if IsFile(fs, WithSuffix(path, ".htm")) {
        path := WithSuffix(path, ".htm");
      } else {
        var baseName := Name(path);
        var candidates := Children(fs, parentDir);
        var i := 0;
        while i < |candidates|
          invariant 0 <= i <= |candidates|
          invariant path == named
          invariant forall j :: 0 <= j < i ==> !IsImplicitMatch(candidates[j], baseName, cfg.implicitExts)
        {
          if IsImplicitMatch(candidates[i], baseName, cfg.implicitExts) {
            FirstImplicitMatchAt(candidates, baseName, cfg.implicitExts, i);
            path := parentDir + [candidates[i]];
            break;
          }
          i := i + 1;
        }
      }
      assert ImplicitTarget(cfg, fs, named) == Some(path);
    }
    if !Exists(fs, path) {
      return Unresolved;
    }
    if !IsPrefix(cfg.rootDir, path) {
      return Unresolved;
    }
    return Resolved(path, fs.entries[path]);
  }

  /** A path starting with `/` (a request such as `GET //`) never resolves. */
  lemma LeadingSlashUnresolved(cfg: StaticDir, fs: Snapshot, relPath: string)
    requires StartsWith(relPath, "/")
    ensures Resolve(cfg, fs, relPath) == Unresolved
  {
  }

  /** An existing path below the root is served as it is: the implicit
      extensions are tried only for a missing path. */
  lemma ExactMatchWins(cfg: StaticDir, fs: Snapshot, relPath: string)
    requires !StartsWith(relPath, "/")
    requires Exists(fs, JoinRel(cfg.rootDir, relPath))
    ensures Resolve(cfg, fs, relPath) ==
      var p := JoinRel(cfg.rootDir, relPath);
      if IsPrefix(cfg.rootDir, p) then Resolved(p, fs.entries[p]) else Unresolved
  {
  }

  /** A missing path written with a trailing `/` is not looked up with extensions. */
  lemma TrailingSlashNoImplicitLookup(cfg: StaticDir, fs: Snapshot, relPath: string)
    requires EndsWith(relPath, "/")
    requires !Exists(fs, JoinRel(cfg.rootDir, relPath))
    ensures Resolve(cfg, fs, relPath) == Unresolved
  {
  }

  /** A missing path whose parent is not a directory does not resolve. */
  lemma MissingParentUnresolved(cfg: StaticDir, fs: Snapshot, relPath: string)
    requires !Exists(fs, JoinRel(cfg.rootDir, relPath))
    requires !IsDir(fs, Parent(JoinRel(cfg.rootDir, relPath)))
    ensures Resolve(cfg, fs, relPath) == Unresolved
  {
  }

  /** The order of the implicit lookup for a missing path `p` under a directory:
      `.html` first; then `.htm`; then the first accepted `<name>.*` child;
      and with none of them nothing resolves. */
  lemma ImplicitLookupOrder(cfg: StaticDir, fs: Snapshot, relPath: string)
    requires !StartsWith(relPath, "/") && !EndsWith(relPath, "/")
    requires var p := JoinRel(cfg.rootDir, relPath); !Exists(fs, p) && IsDir(fs, Parent(p))
    ensures var p := JoinRel(cfg.rootDir, relPath);
      var html, htm := WithSuffix(p, ".html"), WithSuffix(p, ".htm");
      var children := Children(fs, Parent(p));
      var first := FirstImplicitMatch(children, Name(p), cfg.implicitExts);
      var r := Resolve(cfg, fs, relPath);
      && (IsFile(fs, html) ==> r == (if IsPrefix(cfg.rootDir, html) then Resolved(html, File) else Unresolved))
      && (!IsFile(fs, html) && IsFile(fs, htm) ==>
            r == (if IsPrefix(cfg.rootDir, htm) then Resolved(htm, File) else Unresolved))
      && (!IsFile(fs, html) && !IsFile(fs, htm) && first.Some? ==>
            var q := Parent(p) + [children[first.value]];
            r == (if Exists(fs, q) && IsPrefix(cfg.rootDir, q) then Resolved(q, fs.entries[q]) else Unresolved))
      && (!IsFile(fs, html) && !IsFile(fs, htm) && first.None? ==> r == Unresolved)
  {
  }

  /** Below a valid root, a relative path with no `..` segment is never
      rejected as a traversal: if the path it names exists, it resolves to it. */
  lemma NoParentSegmentResolves(cfg: StaticDir, fs: Snapshot, relPath: string)
    requires Valid(cfg, fs)
    requires !StartsWith(relPath, "/")
    requires forall i :: 0 <= i < |Split(relPath, '/')| ==> Split(relPath, '/')[i] != ".."
    requires Exists(fs, JoinRel(cfg.rootDir, relPath))
    ensures Resolve(cfg, fs, relPath) == Resolved(JoinRel(cfg.rootDir, relPath), fs.entries[JoinRel(cfg.rootDir, relPath)])
  {
    JoinRelBelowRoot(cfg.rootDir, relPath);
  }

  /** The empty relative path names the root itself. */
  lemma EmptyPathIsRoot(cfg: StaticDir, fs: Snapshot)
    requires Valid(cfg, fs)
    ensures Resolve(cfg, fs, "") == Resolved(cfg.rootDir, Dir)
  {
    JoinRelFromRoot(cfg.rootDir, "");
    assert Split("", '/') == [""];
    assert NormalizeFrom(cfg.rootDir, [""]) == NormalizeFrom(cfg.rootDir, []);
  }

  /** Appending `/` to a non-empty relative path that names an existing path
      resolves to the same path: this is what the directory redirect relies on. */
  lemma TrailingSlashSameTarget(cfg: StaticDir, fs: Snapshot, relPath: string)
    requires relPath != "" && !StartsWith(relPath, "/")
    requires Exists(fs, JoinRel(cfg.rootDir, relPath))
    ensures Resolve(cfg, fs, relPath + "/") == Resolve(cfg, fs, relPath)
  {
    JoinRelTrailingSlash(cfg.rootDir, relPath);
    assert (relPath + "/")[..1] == relPath[..1];
  }
}
