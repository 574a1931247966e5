/** Request handling: `StaticDir.convert_path`, `handle_request`,
    `get_response_file`, `get_response_dir`, `get_response_404` and
    `push_asset_dir` (webserver/staticdir.py:86-95, 132-218). Each request is
    answered by an `Outcome`, which names the response the engine builds; the
    bodies of those responses (file contents, rendered Markdown, the rendered
    listing template) are not modelled. */
module Dispatch {
  import opened Wrappers
  import opened Strings
  import opened Paths
  import opened FileSystem
  import opened Config
  import opened Conditional
  import opened Resolver
  import opened Listing

  /** What the engine reads of the ASGI scope and of the `Request`. */
  datatype Request = Request(
    httpMethod: string,
    path: string,
    rootPath: string,
    query: string,
    headers: Headers,
    extensions: set<string>)

  /** What the engine takes from code outside the model: the headers
      `FileResponse` would send for a file (`ETag`, `Last-Modified`), and
      `email.utils.parsedate`. */
  datatype Env = Env(fileHeaders: Path -> Headers, parseDate: string -> Option<DateTuple>)

  datatype Outcome =
    | MethodNotAllowed                         // HTTPException(405)
    | NotFound                                 // HTTPException(404)
    | NotFoundPage(page: Path)                 // the root's 404.html, sent with status 404
    | Redirect(location: string, query: string) // RedirectResponse to the same URL with `/` appended
    | Markdown(file: Path)                     // HTMLResponse of the rendered Markdown file
    | NotModified(file: Path)                  // NotModifiedResponse (304)
    | ServeFile(file: Path, pushes: seq<string>) // FileResponse, after the listed push promises
    | DirectoryListing(title: string, files: seq<Row>) // the listing template
    | InternalError                            // RuntimeError for an entry neither file nor directory

  /** The outcomes that send the contents (or the validators) of one file. */
  predicate SendsFile(o: Outcome) {
    o.Markdown? || o.NotModified? || o.ServeFile?
  }

  /** The mount point with a trailing `/`. */
  function RootPrefix(rootPath: string): (r: string)
    ensures EndsWith(r, "/")
    ensures StartsWith(r, rootPath) && |r| <= |rootPath| + 1
  {
    if EndsWith(rootPath, "/") then rootPath else rootPath + "/"
  }

  /** `convert_path(scope)`: the request path relative to the mount point. The
      source asserts the path lies under the mount point. */
  function ConvertPath(path: string, rootPath: string): (rel: string)
    requires StartsWith(path, RootPrefix(rootPath))
    ensures RootPrefix(rootPath) + rel == path
  {
    path[|RootPrefix(rootPath)|..]
  }

  /** The relative path of `path + "/"` is the relative path of `path` with `/` appended. */
  lemma ConvertPathTrailingSlash(path: string, rootPath: string)
    requires StartsWith(path, RootPrefix(rootPath))
    ensures StartsWith(path + "/", RootPrefix(rootPath))
    ensures ConvertPath(path + "/", rootPath) == ConvertPath(path, rootPath) + "/"
  {
    var prefix := RootPrefix(rootPath);
    assert (path + "/")[..|prefix|] == path[..|prefix|];
    assert (path + "/")[|prefix|..] == path[|prefix|..] + "/";
  }

  /** The empty relative path comes only from a request path ending in `/`:
      the mount point itself always reaches `handle_request` with its trailing slash. */
  lemma EmptyRelativePathEndsInSlash(path: string, rootPath: string)
    requires StartsWith(path, RootPrefix(rootPath))
    requires ConvertPath(path, rootPath) == ""
    ensures path == RootPrefix(rootPath) && EndsWith(path, "/")
  {
    assert RootPrefix(rootPath) + "" == RootPrefix(rootPath);
  }

  /** `get_response_404()`: the root's `404.html` when it is a regular file,
      a bare 404 otherwise. */
  function Response404(cfg: StaticDir, fs: Snapshot): (r: Outcome)
    ensures r.NotFoundPage? <==> IsFile(fs, cfg.rootDir + ["404.html"])
    ensures r.NotFoundPage? ==> r.page == cfg.rootDir + ["404.html"] && IsPrefix(cfg.rootDir, r.page)
    ensures r.NotFound? || r.NotFoundPage?
  {
    var page := cfg.rootDir + ["404.html"];
    assert page[..|cfg.rootDir|] == cfg.rootDir;
    if IsFile(fs, page) then NotFoundPage(page) else NotFound
  }

  /** `path.parent / (path.stem + '_files')`: the directory of assets that belongs to a file. */
  function AssetsDir(file: Path): (d: Path)
    ensures Parent(d) == Parent(file) && d != []
    ensures Name(d) == Stem(Name(file)) + "_files"
  {
    Parent(file) + [Stem(Name(file)) + "_files"]
  }

  function PushAll(base: string, items: seq<string>): (paths: seq<string>)
    ensures |paths| == |items|
    ensures forall i :: 0 <= i < |items| ==> paths[i] == base + "/" + items[i]
  {
    if items == [] then [] else PushAll(base, items[..|items| - 1]) + [base + "/" + items[|items| - 1]]
  }

  /** `push_asset_dir(dir_path, request)`: without the `http.response.push`
      extension nothing is pushed; otherwise one path per entry of the
      directory, each the mount point joined with the directory's path
      relative to the root, then `/` and the entry's name. */
  function PushPaths(cfg: StaticDir, fs: Snapshot, req: Request, assets: Path): (paths: seq<string>)
    requires IsPrefix(cfg.rootDir, assets) && |cfg.rootDir| < |assets|
    ensures "http.response.push" !in req.extensions ==> paths == []
    ensures "http.response.push" in req.extensions ==>
      var base := PosixJoin(PosixJoin("/", req.rootPath), RelativePosix(cfg.rootDir, assets));
      && StartsWith(base, "/")
      && |paths| == |Children(fs, assets)|
      && forall i :: 0 <= i < |paths| ==> paths[i] == base + "/" + Children(fs, assets)[i]
  {
    if "http.response.push" !in req.extensions then []
    else
      var base := PosixJoin(PosixJoin("/", req.rootPath), RelativePosix(cfg.rootDir, assets));
      PushAll(base, Children(fs, assets))
  }

  /** `get_response_file(path, stat_result, request)` for a regular file
      strictly below the root. */
  function ResponseFile(cfg: StaticDir, fs: Snapshot, env: Env, req: Request, file: Path): (r: Outcome)
    requires IsPrefix(cfg.rootDir, file) && |cfg.rootDir| < |file|
    ensures SendsFile(r) && r.file == file
    ensures r.Markdown? <==> Suffix(Name(file)) == ".md"
    ensures r.NotModified? <==>
      Suffix(Name(file)) != ".md" && IsNotModified(req.headers, env.fileHeaders(file), env.parseDate)
    ensures IsPrefix(cfg.rootDir, AssetsDir(file)) && |cfg.rootDir| < |AssetsDir(file)|
    ensures r.ServeFile? ==>
      r.pushes == if IsDir(fs, AssetsDir(file)) then PushPaths(cfg, fs, req, AssetsDir(file)) else []
  {
    if Suffix(Name(file)) == ".md" then Markdown(file)
    else if IsNotModified(req.headers, env.fileHeaders(file), env.parseDate) then NotModified(file)
    else
      var assets := AssetsDir(file);
      assert assets[..|cfg.rootDir|] == file[..|cfg.rootDir|];
      ServeFile(file, if IsDir(fs, assets) then PushPaths(cfg, fs, req, assets) else [])
  }

  /** `get_response_dir(path, rel_path, request)`: the directory's `index.html`
      when it is a regular file, its listing otherwise. */
  function ResponseDir(cfg: StaticDir, fs: Snapshot, env: Env, req: Request, dir: Path, relPath: string): (r: Outcome)
    requires IsPrefix(cfg.rootDir, dir)
    ensures SendsFile(r) <==> IsFile(fs, dir + ["index.html"])
    ensures SendsFile(r) ==> r.file == dir + ["index.html"] && IsPrefix(cfg.rootDir, r.file)
    ensures IsFile(fs, dir + ["index.html"]) ==>
      |cfg.rootDir| < |dir + ["index.html"]| && r == ResponseFile(cfg, fs, env, req, dir + ["index.html"])
    ensures !SendsFile(r) ==> r.DirectoryListing?
  {
    var index := dir + ["index.html"];
    assert index[..|cfg.rootDir|] == dir[..|cfg.rootDir|];
    if IsFile(fs, index) then ResponseFile(cfg, fs, env, req, index)
    else DirectoryListing(Title(relPath), ListingOf(cfg, fs, dir))
  }

  /** `handle_request(rel_path, request)`. Whatever file it sends is a regular
      file at or below the root. */
  function HandleRequest(cfg: StaticDir, fs: Snapshot, env: Env, req: Request, relPath: string): (r: Outcome)
    requires Valid(cfg, fs)
    ensures SendsFile(r) ==> IsPrefix(cfg.rootDir, r.file) && IsFile(fs, r.file)
    ensures r.NotFoundPage? ==> IsPrefix(cfg.rootDir, r.page) && IsFile(fs, r.page)
  {
    if req.httpMethod != "GET" && req.httpMethod != "HEAD" then MethodNotAllowed
    else
      match Resolve(cfg, fs, relPath)
      case Unresolved => Response404(cfg, fs)
      case Resolved(path, kind) =>
        match kind
        case File =>
          assert IsPrefix(cfg.rootDir, path) && IsFile(fs, path) && path != cfg.rootDir;
          ResponseFile(cfg, fs, env, req, path)
        case Dir =>
          if !cfg.listDirs then Response404(cfg, fs)
          else if relPath != "" && !EndsWith(relPath, "/") then Redirect(req.path + "/", req.query)
          else ResponseDir(cfg, fs, env, req, path, relPath)
        case Other => InternalError
  }

  /** `__call__(scope, receive, send)`: the relative path, then `handle_request`. */
  function Serve(cfg: StaticDir, fs: Snapshot, env: Env, req: Request): Outcome
    requires Valid(cfg, fs)
    requires StartsWith(req.path, RootPrefix(req.rootPath))
  {
    HandleRequest(cfg, fs, env, req, ConvertPath(req.path, req.rootPath))
  }

  /** Only GET and HEAD are served: every other method, and only those, gets 405. */
  lemma OnlyGetAndHead(cfg: StaticDir, fs: Snapshot, env: Env, req: Request, relPath: string)
    requires Valid(cfg, fs)
    ensures HandleRequest(cfg, fs, env, req, relPath) == MethodNotAllowed <==>
      req.httpMethod != "GET" && req.httpMethod != "HEAD"
  {
  }

  /** A GET or HEAD of a path that resolves to a regular file is answered by
      `get_response_file` for that file. */
  lemma ResolvedFileIsServed(cfg: StaticDir, fs: Snapshot, env: Env, req: Request, relPath: string, file: Path)
    requires Valid(cfg, fs)
    requires req.httpMethod == "GET" || req.httpMethod == "HEAD"
    requires Resolve(cfg, fs, relPath) == Resolved(file, File)
    ensures IsPrefix(cfg.rootDir, file) && |cfg.rootDir| < |file|
    ensures HandleRequest(cfg, fs, env, req, relPath) == ResponseFile(cfg, fs, env, req, file)
  {
    assert file != cfg.rootDir;
  }

  /** With listings on, a directory named by the empty relative path (the
      mount point) or by one ending in `/` is answered by `get_response_dir`. */
  lemma ResolvedDirectoryIsAnswered(cfg: StaticDir, fs: Snapshot, env: Env, req: Request, relPath: string, dir: Path)
    requires Valid(cfg, fs) && cfg.listDirs
    requires req.httpMethod == "GET" || req.httpMethod == "HEAD"
    requires Resolve(cfg, fs, relPath) == Resolved(dir, Dir)
    requires relPath == "" || EndsWith(relPath, "/")
    ensures IsPrefix(cfg.rootDir, dir)
    ensures HandleRequest(cfg, fs, env, req, relPath) == ResponseDir(cfg, fs, env, req, dir, relPath)
  {
  }

  /** A GET or HEAD of an entry that is neither a regular file nor a directory
      raises, which the server turns into a 500. */
  lemma IrregularEntryIsInternalError(cfg: StaticDir, fs: Snapshot, env: Env, req: Request, relPath: string, p: Path)
    requires Valid(cfg, fs)
    requires req.httpMethod == "GET" || req.httpMethod == "HEAD"
    requires Resolve(cfg, fs, relPath) == Resolved(p, Other)
    ensures HandleRequest(cfg, fs, env, req, relPath) == InternalError
  {
  }

  /** A path that does not resolve gets the 404 response, which sends the
      root's `404.html` exactly when that is a regular file. */
  lemma UnresolvedIsNotFound(cfg: StaticDir, fs: Snapshot, env: Env, req: Request, relPath: string)
    requires Valid(cfg, fs)
    requires req.httpMethod == "GET" || req.httpMethod == "HEAD"
    requires Resolve(cfg, fs, relPath) == Unresolved
    ensures HandleRequest(cfg, fs, env, req, relPath) ==
      if IsFile(fs, cfg.rootDir + ["404.html"]) then NotFoundPage(cfg.rootDir + ["404.html"]) else NotFound
  {
  }

  /** With listings turned off, a directory is answered as if it did not exist. */
  lemma ListingDisabledHidesDirectories(cfg: StaticDir, fs: Snapshot, env: Env, req: Request, relPath: string)
    requires Valid(cfg, fs) && !cfg.listDirs
    requires req.httpMethod == "GET" || req.httpMethod == "HEAD"
    requires Resolve(cfg, fs, relPath).Resolved? && Resolve(cfg, fs, relPath).kind == Dir
    ensures HandleRequest(cfg, fs, env, req, relPath) == Response404(cfg, fs)
    ensures !HandleRequest(cfg, fs, env, req, relPath).DirectoryListing?
  {
  }

  /** A directory named without its trailing `/` is redirected to the same URL
      with `/` appended and the query kept; the root (empty relative path) is
      never redirected. */
  lemma DirectoryRedirect(cfg: StaticDir, fs: Snapshot, env: Env, req: Request, relPath: string)
    requires Valid(cfg, fs) && cfg.listDirs
    requires req.httpMethod == "GET" || req.httpMethod == "HEAD"
    requires Resolve(cfg, fs, relPath).Resolved? && Resolve(cfg, fs, relPath).kind == Dir
    ensures HandleRequest(cfg, fs, env, req, relPath).Redirect? <==> relPath != "" && !EndsWith(relPath, "/")
    ensures HandleRequest(cfg, fs, env, req, relPath).Redirect? ==>
      HandleRequest(cfg, fs, env, req, relPath) == Redirect(req.path + "/", req.query)
  {
  }

  /** A listing is produced only for a resolved directory, with listings on
      and no regular `index.html` in it; then it is that directory's listing. */
  lemma ListingOnlyForDirectories(cfg: StaticDir, fs: Snapshot, env: Env, req: Request, relPath: string)
    requires Valid(cfg, fs)
    requires HandleRequest(cfg, fs, env, req, relPath).DirectoryListing?
    ensures var res := Resolve(cfg, fs, relPath);
      && res.Resolved? && res.kind == Dir && cfg.listDirs
      && !IsFile(fs, res.path + ["index.html"])
      && HandleRequest(cfg, fs, env, req, relPath) == DirectoryListing(Title(relPath), ListingOf(cfg, fs, res.path))
  {
  }

  /** A directory with a regular `index.html` sends that file instead of a
      listing, through `get_response_file`: the conditional test and the
      pushes of `index_files` apply to it as to any other file. */
  lemma IndexReplacesListing(cfg: StaticDir, fs: Snapshot, env: Env, req: Request, dir: Path, relPath: string)
    requires IsPrefix(cfg.rootDir, dir)
    requires IsFile(fs, dir + ["index.html"])
    ensures SendsFile(ResponseDir(cfg, fs, env, req, dir, relPath))
    ensures ResponseDir(cfg, fs, env, req, dir, relPath).file == dir + ["index.html"]
    ensures |cfg.rootDir| < |dir + ["index.html"]|
    ensures ResponseDir(cfg, fs, env, req, dir, relPath) == ResponseFile(cfg, fs, env, req, dir + ["index.html"])
  {
  }

  /** Markdown is rendered whatever the conditional headers say. */
  lemma MarkdownIgnoresConditionalHeaders(cfg: StaticDir, fs: Snapshot, env: Env, req: Request, file: Path)
    requires IsPrefix(cfg.rootDir, file) && |cfg.rootDir| < |file|
    requires Suffix(Name(file)) == ".md"
    ensures ResponseFile(cfg, fs, env, req, file) == Markdown(file)
  {
  }

  /** A 304 answer is decided before any push: a not-modified file pushes nothing. */
  lemma NotModifiedPushesNothing(cfg: StaticDir, fs: Snapshot, env: Env, req: Request, file: Path)
    requires IsPrefix(cfg.rootDir, file) && |cfg.rootDir| < |file|
    requires Suffix(Name(file)) != ".md"
    requires IsNotModified(req.headers, env.fileHeaders(file), env.parseDate)
    ensures ResponseFile(cfg, fs, env, req, file) == NotModified(file)
  {
  }

  /** Each pushed path is a URL below the mount point that names the asset it
      was made from: converted back to a relative path and joined onto the
      root, it is the asset directory's entry, and when that entry exists a
      request for the pushed path resolves to it. ASGI mount points are empty
      or start with `/`. */
  lemma PushPathsRoundTrip(cfg: StaticDir, fs: Snapshot, req: Request, assets: Path, i: int)
    requires IsCanonical(assets) && IsPrefix(cfg.rootDir, assets) && |cfg.rootDir| < |assets|
    requires ListsSegments(fs)
    requires "http.response.push" in req.extensions
    requires req.rootPath == "" || StartsWith(req.rootPath, "/")
    requires 0 <= i < |Children(fs, assets)|
    ensures var pushed := PushPaths(cfg, fs, req, assets)[i];
      && StartsWith(pushed, RootPrefix(req.rootPath))
      && JoinRel(cfg.rootDir, ConvertPath(pushed, req.rootPath)) == assets + [Children(fs, assets)[i]]
      && (Exists(fs, assets + [Children(fs, assets)[i]]) ==>
            Resolve(cfg, fs, ConvertPath(pushed, req.rootPath)) ==
              Resolved(assets + [Children(fs, assets)[i]], fs.entries[assets + [Children(fs, assets)[i]]]))
  {
    var item := Children(fs, assets)[i];
    assert assets in fs.listings && fs.listings[assets][i] == item;
    var base := PosixJoin(PosixJoin("/", req.rootPath), RelativePosix(cfg.rootDir, assets));
    assert PushPaths(cfg, fs, req, assets)[i] == base + "/" + item;
    PushedPathRoundTrip(cfg, fs, req.rootPath, assets, item);
  }

  /** The round trip for one pushed path `<mount>/<assets relative to root>/<item>`. */
  lemma PushedPathRoundTrip(cfg: StaticDir, fs: Snapshot, rootPath: string, assets: Path, item: string)
    requires IsCanonical(assets) && IsPrefix(cfg.rootDir, assets) && |cfg.rootDir| < |assets|
    requires item != "" && item != "." && item != ".." && '/' !in item
    requires rootPath == "" || StartsWith(rootPath, "/")
    ensures var pushed := PosixJoin(PosixJoin("/", rootPath), RelativePosix(cfg.rootDir, assets)) + "/" + item;
      && StartsWith(pushed, RootPrefix(rootPath))
      && JoinRel(cfg.rootDir, ConvertPath(pushed, rootPath)) == assets + [item]
      && (Exists(fs, assets + [item]) ==>
            Resolve(cfg, fs, ConvertPath(pushed, rootPath)) == Resolved(assets + [item], fs.entries[assets + [item]]))
  {
    var rel := RelativePosix(cfg.rootDir, assets);
    var tail := rel + "/" + item;
    RelativeRoundTrip(cfg.rootDir, assets, item);
    assert tail != "" && tail[0] != '/' && JoinRel(cfg.rootDir, tail) == assets + [item];
    MountedBase(rootPath, rel);
    var pushed := PosixJoin(PosixJoin("/", rootPath), rel) + "/" + item;
    assert pushed == RootPrefix(rootPath) + tail;
    ConvertPrefixed(rootPath, tail);
    assert ConvertPath(pushed, rootPath) == tail;
    if Exists(fs, assets + [item]) {
      EntryBelowResolves(cfg, fs, tail, assets, item);
    }
  }

  /** A relative path without a leading `/` that joins onto the root to name
      an existing entry of a directory below the root resolves to that entry. */
  lemma EntryBelowResolves(cfg: StaticDir, fs: Snapshot, rel: string, assets: Path, item: string)
    requires rel != "" && rel[0] != '/'
    requires IsPrefix(cfg.rootDir, assets)
    requires JoinRel(cfg.rootDir, rel) == assets + [item]
    requires Exists(fs, assets + [item])
    ensures Resolve(cfg, fs, rel) == Resolved(assets + [item], fs.entries[assets + [item]])
  {
    assert !StartsWith(rel, "/");
    ExactMatchWins(cfg, fs, rel);
    assert (assets + [item])[..|cfg.rootDir|] == assets[..|cfg.rootDir|];
  }

  /** Converting a path that starts with the mount point's prefix gives back what follows it. */
  lemma ConvertPrefixed(rootPath: string, rest: string)
    ensures StartsWith(RootPrefix(rootPath) + rest, RootPrefix(rootPath))
    ensures ConvertPath(RootPrefix(rootPath) + rest, rootPath) == rest
  {
    var prefix := RootPrefix(rootPath);
    assert (prefix + rest)[..|prefix|] == prefix;
  }

  /** `posixpath.join('/', root_path, rel)` for a mount point that is empty or
      absolute and a relative `rel` is the mount point, a `/`, then `rel`. */
  lemma MountedBase(rootPath: string, rel: string)
    requires rootPath == "" || StartsWith(rootPath, "/")
    requires rel != "" && rel[0] != '/'
    ensures PosixJoin(PosixJoin("/", rootPath), rel) == RootPrefix(rootPath) + rel
  {
    assert !StartsWith(rel, "/");
    var mount := PosixJoin("/", rootPath);
    assert mount == if rootPath == "" then "/" else rootPath;
  }

  /** The path of an entry of `assets` relative to the root, as pushed, names
      that entry again when joined onto the root; it does not start with `/`. */
  lemma RelativeRoundTrip(root: Path, assets: Path, item: string)
    requires IsCanonical(assets) && IsPrefix(root, assets) && |root| < |assets|
    requires item != "" && item != "." && item != ".." && '/' !in item
    ensures var rel := RelativePosix(root, assets) + "/" + item;
      rel != "" && rel[0] != '/' && JoinRel(root, rel) == assets + [item]
  {
    var segs := assets[|root|..];
    var rel := Join(segs, '/');
    assert segs[0] == assets[|root|];
    JoinStartsWithFirst(segs, '/');
    assert rel[0] == segs[0][0];
    JoinAppend(segs, item, '/');
    assert forall k :: 0 <= k < |segs| ==> segs[k] == assets[|root| + k];
    SplitJoin(segs + [item], '/');
    assert root + (segs + [item]) == assets + [item];
    assert IsCanonical(assets + [item]) by {
      forall k | 0 <= k < |assets| + 1
        ensures (assets + [item])[k] != "" && (assets + [item])[k] != "." && (assets + [item])[k] != ".." && '/' !in (assets + [item])[k]
      {
        if k < |assets| {
          assert (assets + [item])[k] == assets[k];
        }
      }
    }
    NormalizeCanonical([], assets + [item]);
    assert [] + (assets + [item]) == assets + [item];
  }

  /** A file sent in full pushes nothing when its assets directory is missing
      or the server lacks push; otherwise one path per entry of that
      directory, in `listdir` order, each naming that entry below the mount point. */
  lemma ServedFilePushes(cfg: StaticDir, fs: Snapshot, env: Env, req: Request, file: Path)
    requires IsCanonical(file) && IsPrefix(cfg.rootDir, file) && |cfg.rootDir| < |file|
    requires ListsSegments(fs)
    requires req.rootPath == "" || StartsWith(req.rootPath, "/")
    requires ResponseFile(cfg, fs, env, req, file).ServeFile?
    ensures var pushes := ResponseFile(cfg, fs, env, req, file).pushes;
      var assets := AssetsDir(file);
      && (!IsDir(fs, assets) || "http.response.push" !in req.extensions ==> pushes == [])
      && (IsDir(fs, assets) && "http.response.push" in req.extensions ==>
            && |pushes| == |Children(fs, assets)|
            && forall i :: 0 <= i < |pushes| ==>
                 && StartsWith(pushes[i], RootPrefix(req.rootPath))
                 && JoinRel(cfg.rootDir, ConvertPath(pushes[i], req.rootPath)) == assets + [Children(fs, assets)[i]])
  {
    var assets := AssetsDir(file);
    var pushes := ResponseFile(cfg, fs, env, req, file).pushes;
    if IsDir(fs, assets) && "http.response.push" in req.extensions {
      AssetsDirCanonical(file);
      forall i | 0 <= i < |pushes|
        ensures StartsWith(pushes[i], RootPrefix(req.rootPath))
        ensures JoinRel(cfg.rootDir, ConvertPath(pushes[i], req.rootPath)) == assets + [Children(fs, assets)[i]]
      {
        PushPathsRoundTrip(cfg, fs, req, assets, i);
      }
    }
  }

  /** The assets directory of a file at a canonical path has a canonical path too. */
  lemma AssetsDirCanonical(file: Path)
    requires IsCanonical(file) && file != []
    ensures IsCanonical(AssetsDir(file))
  {
    var name := file[|file| - 1];
    assert '/' !in name;
    var stem := Stem(name);
    assert stem == name[..|stem|];
    var last := stem + "_files";
    NoSlashInPrefixed(name, stem);
    assert AssetsDir(file) == file[..|file| - 1] + [last];
    forall k | 0 <= k < |file| - 1
      ensures file[..|file| - 1][k] == file[k]
    {
    }
  }

  /** A prefix of a name without `/`, followed by `_files`, is a segment that is not `.` or `..`. */
  lemma NoSlashInPrefixed(name: string, stem: string)
    requires '/' !in name && |stem| <= |name| && stem == name[..|stem|]
    ensures '/' !in stem + "_files" && stem + "_files" != "" && stem + "_files" != "." && stem + "_files" != ".."
  {
    var last := stem + "_files";
    forall j | 0 <= j < |last|
      ensures last[j] != '/'
    {
      if j < |stem| {
        assert last[j] == name[j];
      }
    }
    assert |last| >= 6;
  }


  /** The redirect of a directory found as it was named leads to that same
      directory, which the second request lists (or answers with its
      `index.html`) instead of redirecting again. */
  lemma RedirectReachesDirectory(cfg: StaticDir, fs: Snapshot, env: Env, req: Request)
    requires Valid(cfg, fs) && cfg.listDirs
    requires req.httpMethod == "GET" || req.httpMethod == "HEAD"
    requires StartsWith(req.path, RootPrefix(req.rootPath))
    requires var relPath := ConvertPath(req.path, req.rootPath);
      !StartsWith(relPath, "/") && IsDir(fs, JoinRel(cfg.rootDir, relPath))
    requires Serve(cfg, fs, env, req).Redirect?
    ensures StartsWith(req.path + "/", RootPrefix(req.rootPath))
    ensures var relPath := ConvertPath(req.path, req.rootPath);
      var dir := JoinRel(cfg.rootDir, relPath);
      IsPrefix(cfg.rootDir, dir) &&
      Serve(cfg, fs, env, req.(path := req.path + "/")) == ResponseDir(cfg, fs, env, req.(path := req.path + "/"), dir, relPath + "/")
  {
    var relPath := ConvertPath(req.path, req.rootPath);
    ConvertPathTrailingSlash(req.path, req.rootPath);
    TrailingSlashSameTarget(cfg, fs, relPath);
  }

  /** A directory that resolves only through an implicit extension (say the
      directory `docs.zip` requested as `docs`) is redirected to a URL whose
      relative path ends in `/`, which skips the implicit lookup and so does
      not resolve: the redirect leads to the 404 response. */
  lemma ImplicitDirectoryRedirectsToNotFound(cfg: StaticDir, fs: Snapshot, env: Env, req: Request, relPath: string)
    requires Valid(cfg, fs) && cfg.listDirs
    requires req.httpMethod == "GET" || req.httpMethod == "HEAD"
    requires relPath != "" && !StartsWith(relPath, "/") && !EndsWith(relPath, "/")
    requires !Exists(fs, JoinRel(cfg.rootDir, relPath))
    requires Resolve(cfg, fs, relPath).Resolved? && Resolve(cfg, fs, relPath).kind == Dir
    ensures HandleRequest(cfg, fs, env, req, relPath) == Redirect(req.path + "/", req.query)
    ensures HandleRequest(cfg, fs, env, req.(path := req.path + "/"), relPath + "/") == Response404(cfg, fs)
  {
    JoinRelTrailingSlash(cfg.rootDir, relPath);
    assert EndsWith(relPath + "/", "/");
    TrailingSlashNoImplicitLookup(cfg, fs, relPath + "/");
  }
}
