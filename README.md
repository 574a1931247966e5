# StaticDir: a verified model of the static-resource engine

`StaticDir` (webserver/staticdir.py) is a mountable ASGI app that serves a
directory tree over HTTP. On top of plain file serving it:

- resolves extension-free URLs: `/report` may be served by `report.html`,
  `report.htm` or the first `report.*` whose extension is in an allow-list;
- lists directories that have no `index.html`, hiding entries through a
  predicate;
- answers conditional requests (`If-None-Match`, `If-Modified-Since`) with 304;
- pushes the `<stem>_files/` asset directory that belongs to a file, when the
  server supports HTTP/2 push.

This project models that engine in Dafny and proves properties of the model.

## How the model is laid out

- `Paths`: absolute paths are sequences of segments below `/`. The
  `Path.resolve()` call is modelled as normalisation of `.`, `..` and empty
  segments. `is_relative_to` is a segment-prefix test.
- `Paths` also holds Python 3.12's `suffix`, `stem`, `with_suffix`,
  `relative_to(...).as_posix()` and `posixpath.join`.
- `FileSystem`: a snapshot of the filesystem. It records which paths exist,
  their kind (regular file, directory, anything else), and each directory's
  entries in enumeration order.
- `Visibility`: the entry record the hidden predicate receives, and the
  default predicate.
- `Config`: the instance fields set by `__init__`. They are only read
  afterwards, so the configuration is a value.
- `Resolver`: `resolve_path`. It is a function `Resolve` plus a method
  `ResolvePath`. The method runs the glob loop with its `break` and is proved
  equal to the function.
- `Listing`: the directory listing. It is a function `ListingOf` plus the
  `os.scandir` loop `BuildListing`, which is proved equal to it.
- `Conditional`: `is_not_modified`. `email.utils.parsedate` is a parameter.
- `Quoting`: `urllib.parse.quote` with its default safe character `/`. It
  UTF-8 encodes and escapes with upper-case `%XX`. Its inverse is proved.
- `Dispatch`: `convert_path`, `handle_request`, `get_response_file`,
  `get_response_dir`, `get_response_404` and `push_asset_dir`. Each request
  maps to an `Outcome` that names the response the engine builds.

The glob loop and the listing loop update variables step by step in the
source, so they are methods with loop invariants. The other operations only
compute a value and are functions.

## Behaviours of the code that stand out

The model follows the code in each case.

- Conditional requests depart from section 3.3 of RFC 7232 in two ways.
  That section lets `If-Modified-Since` alone yield 304, and it requires a
  server to ignore `If-Modified-Since` when `If-None-Match` is present. Here
  `is_not_modified` returns false whenever `If-None-Match` is absent or the
  response has no `ETag`, so `If-Modified-Since` alone never yields 304. The
  dates are compared only when `If-None-Match` is present and none of its
  tags matches. `Conditional.IfModifiedSinceAloneNeverNotModified` and
  `Conditional.NoETagMatchDatesDecide` state these rules.
- Only the root's `404.html` is used as the 404 page, never `404.htm`.
- Only `index.html` replaces a listing, never `index.htm`.
- The mount point itself is not redirected. Its relative path is empty, and
  `convert_path` yields the empty relative path only for a request path
  that already ends in `/` (`Dispatch.EmptyRelativePathEndsInSlash`).
- Push is tried for any served file that is not Markdown, not only for HTML
  files. The pushed paths are not percent-encoded. The request's conditional
  headers (`If-None-Match`, `If-Modified-Since`) are not forwarded with the
  push promises.
- An entry that is neither a regular file nor a directory makes
  `handle_request` raise `RuntimeError`. This is the `InternalError` outcome.
- A directory's redirect never leads to a second redirect, but it can lead
  to a 404. Take a directory reached only through an implicit extension,
  such as the directory `docs.zip` requested as `docs`. It is redirected to
  `docs/`, whose relative path ends in `/`. Such a path skips the implicit
  lookup, so it does not resolve.
  `Dispatch.ImplicitDirectoryRedirectsToNotFound` proves this.
  `Dispatch.RedirectReachesDirectory` proves the redirect works for a
  directory named as it is.

## Model

| member | source | states |
|---|---|---|
| `Visibility.EntryOf` | webserver/staticdir.py:54-58 | A scanned entry is never both a file and a directory. Its `is_file`/`is_dir` agree with the kind of the child path. It records a `.nolist` iff `<child>/.nolist` is a regular file. |
| `Visibility.DefaultHiddenRules` | webserver/staticdir.py:51-60 | Each rule of the default predicate, and that nothing else is hidden. Irregular entries are hidden. Dotted names are hidden, except a directory named `.well-known`. Directories ending in `_files` or holding `.nolist` are hidden. Every other entry is shown, including a regular file named `x_files`. |
| `Config.WithDefaults` | webserver/staticdir.py:62-84 | A `StaticDir` built with default keyword arguments lists directories, allows the 61 well-formed default extensions (`.html`, `.htm` and `.md` among them) and hides with the default predicate. |
| `Config.DefaultImplicitExtsWellFormed` | webserver/staticdir.py:34-49 | The default allow-list has 61 extensions. Each has the shape of a `suffix`, so each can be matched. `.html`, `.htm` and `.md` are among them. |
| `Paths.JoinRelBelowRoot` | webserver/staticdir.py:105-107 | `root / rel` followed by `resolve()` gives a canonical path. Without a `..` segment it stays below the root. |
| `Paths.JoinRelTrailingSlash` | webserver/staticdir.py:105-107 | A trailing `/` on the relative path names the same resolved path. |
| `Paths.NormalizeAppend` | webserver/staticdir.py:105-107 | Resolving a concatenation is resolving the second part from where the first ended. |
| `Paths.NoParentSegmentStaysBelow` | webserver/staticdir.py:105-107 | Without `..` segments, resolution never climbs above its starting point. |
| `Paths.Suffix` | webserver/staticdir.py:121 | `suffix` is empty, or a dot-led tail of the name with no other dot that is shorter than the name. |
| `Paths.SuffixOfExtension` | webserver/staticdir.py:121 | A name made of a non-empty stem and a suffix-shaped extension has exactly that extension as its suffix. |
| `Paths.Stem` | webserver/staticdir.py:165 | `stem` followed by `suffix` is the name. |
| `Paths.WithSuffix` | webserver/staticdir.py:114-117 | `with_suffix` keeps the parent and renames the file to its stem plus the new suffix. |
| `Paths.PosixJoin` | webserver/staticdir.py:215 | An absolute second argument replaces the first. A relative one is appended after a `/`, which is inserted unless the first argument is empty or already ends in `/`. Joining onto an absolute path gives an absolute path. |
| `Resolver.FirstImplicitMatch` | webserver/staticdir.py:119-123 | Either the first child, in enumeration order, that starts with `<name>.` and whose suffix is allowed, or none when no child qualifies. |
| `Resolver.ExtensionChildMatches` | webserver/staticdir.py:120-121 | A child named `<name><ext>` with `ext` allowed and suffix-shaped is accepted by the glob loop. |
| `Resolver.Resolve` | webserver/staticdir.py:97-130 | Whatever resolves exists, has the kind reported, and lies at or below the root. |
| `Resolver.ResolvePath` | webserver/staticdir.py:97-130 | The step-by-step resolution, glob loop and `break` included, returns exactly `Resolve`. |
| `Resolver.LeadingSlashUnresolved` | webserver/staticdir.py:103-104 | A relative path starting with `/` never resolves. |
| `Resolver.ExactMatchWins` | webserver/staticdir.py:105-109 | An existing path is served as named. Implicit extensions are not consulted. It is rejected only when it leaves the root. |
| `Resolver.TrailingSlashNoImplicitLookup` | webserver/staticdir.py:109 | A missing path written with a trailing `/` does not resolve. |
| `Resolver.MissingParentUnresolved` | webserver/staticdir.py:110-112 | A missing path whose parent is not a directory does not resolve. |
| `Resolver.ImplicitLookupOrder` | webserver/staticdir.py:109-126 | For a missing path, `.html` wins, then `.htm`, then the first accepted glob match. The path must still exist and lie below the root. With no candidate nothing resolves. |
| `Resolver.NoParentSegmentResolves` | webserver/staticdir.py:105-130 | Below a valid root, an existing path reached without `..` segments is never rejected as traversal. |
| `Resolver.EmptyPathIsRoot` | webserver/staticdir.py:105-107 | The empty relative path resolves to the root directory. |
| `Resolver.TrailingSlashSameTarget` | webserver/staticdir.py:103-109 | For a non-empty relative path naming an existing path, adding `/` resolves to the same thing. |
| `Listing.BuildListing` | webserver/staticdir.py:175-187 | The scandir loop returns exactly `ListingOf` for the directory. |
| `Listing.EntryRow` | webserver/staticdir.py:181-187 | One shown entry's row is its label (directories get `/`, other entries lose `.html` then `.htm`) with the label's percent-encoding as link. |
| `Listing.VisibleEntriesIff` | webserver/staticdir.py:178-180 | An entry is listed iff some enumerated name produced it and the predicate does not hide it. |
| `Listing.VisibleEntriesAppend` | webserver/staticdir.py:178-187 | Filtering keeps enumeration order: the entries of a concatenation are the entries of each part in turn. |
| `Listing.ListingShape` | webserver/staticdir.py:177-187 | The listing is the `('../', '../')` row followed by one row per visible entry, in order. Each row's link is the percent-encoding of its label. |
| `Listing.ListingLinksDecode` | webserver/staticdir.py:186-187 | Every link in the listing decodes back to the label beside it. |
| `Listing.LabelRecoversName` | webserver/staticdir.py:181-185 | A directory's label is its name plus `/`. Any other label is the name, or the name minus `.html`, `.htm` or `.htm.html`. |
| `Listing.DefaultListingHides` | webserver/staticdir.py:54-59 | Under the default predicate, a listed label starting with `.` can only be `.well-known/`. No listed label is a `_files` directory. |
| `Listing.DefaultListingSkips` | webserver/staticdir.py:54-59 | Under the default predicate, every listed entry is an enumerated child that is a regular file or a directory. No listed directory holds a regular `.nolist` file or has a name ending in `_files`. A listed dotted name is the `.well-known` directory. |
| `Listing.Title` | webserver/staticdir.py:193 | The title is `Things in ` followed by the relative path. |
| `Quoting.QuoteRoundTrip` | webserver/staticdir.py:186 | Percent-decoding and UTF-8 decoding `quote(s)` gives back `s`. |
| `Quoting.QuoteInjective` | webserver/staticdir.py:186 | Distinct labels get distinct links. |
| `Quoting.QuoteSafeIsIdentity` | webserver/staticdir.py:186 | A string of unreserved characters and `/` is left unchanged. |
| `Quoting.QuoteBytesAlphabet` | webserver/staticdir.py:186 | A quoted string contains only safe characters, `%` and upper-case hex digits. |
| `Quoting.QuoteAppend` | webserver/staticdir.py:186 | Quoting distributes over concatenation. |
| `Conditional.NotModifiedIff` | webserver/staticdir.py:220-238 | The full decision. With both `If-None-Match` and `ETag` present, it is 304 iff some trimmed, comma-separated candidate equals the trimmed ETag, or both dates parse and If-Modified-Since is at or after Last-Modified. Without them it is never 304. |
| `Conditional.IfModifiedSinceAloneNeverNotModified` | webserver/staticdir.py:223-224 | Without `If-None-Match`, the answer is never "not modified", whatever the dates. |
| `Conditional.ETagMatchDecides` | webserver/staticdir.py:227-230 | A matching candidate gives "not modified" regardless of dates. |
| `Conditional.NoETagMatchDatesDecide` | webserver/staticdir.py:232-238 | Without a matching candidate, the date comparison alone decides. |
| `Conditional.AnyEqualsIff` | webserver/staticdir.py:229 | `any(tag == etag ...)` holds iff some candidate equals the ETag. |
| `Conditional.WeakPrefixDroppedFromFirstCandidate` | webserver/staticdir.py:228 | `W/` before the first tag is stripped: `W/<tag>` gives the single candidate `<tag>`. |
| `Conditional.WeakPrefixKeptOnLaterCandidate` | webserver/staticdir.py:228 | `W/` before a later tag is kept, so `<a>, W/<b>` gives `<a>` and `W/<b>`. |
| `Conditional.TupleGeTotal` | webserver/staticdir.py:235 | Any two parsed dates are comparable with `>=`. |
| `Conditional.TupleGeAntisymmetric` | webserver/staticdir.py:235 | Two dates each `>=` the other are equal. |
| `Conditional.TupleGeTransitive` | webserver/staticdir.py:235 | `>=` on parsed dates is transitive. |
| `Strings.SplitJoin` | webserver/staticdir.py:228 | Splitting on `,` undoes joining separator-free parts. |
| `Strings.LStrip` | webserver/staticdir.py:228 | `lstrip(chars)` drops exactly the leading run of those characters. |
| `Dispatch.ConvertPath` | webserver/staticdir.py:86-95 | The mount point with a trailing `/`, followed by the relative path, is the request path. |
| `Dispatch.ConvertPathTrailingSlash` | webserver/staticdir.py:86-95 | Appending `/` to the request path appends `/` to the relative path. |
| `Dispatch.EmptyRelativePathEndsInSlash` | webserver/staticdir.py:86-95 | The relative path is empty only when the request path is the mount point followed by `/`, so it ends in `/`. |
| `Dispatch.Response404` | webserver/staticdir.py:198-207 | The 404 response sends the root's `404.html` iff it is a regular file. Otherwise it is a bare 404. |
| `Dispatch.AssetsDir` | webserver/staticdir.py:165 | The assets directory is the file's sibling named `<stem>_files`. |
| `Dispatch.PushPaths` | webserver/staticdir.py:209-218 | Without the push extension nothing is pushed. Otherwise there is one path per entry of the directory: an absolute base, then `/`, then the entry's name. |
| `Dispatch.PushPathsRoundTrip` | webserver/staticdir.py:209-218 | For a mount point that is empty or absolute, each pushed path lies under the mount point. Converted back to a relative path and joined onto the root, it names the directory entry it was made from. When that entry exists, a request for the pushed path resolves to it. |
| `Dispatch.ResponseFile` | webserver/staticdir.py:158-167 | Serving a file always sends that file. It is rendered Markdown iff its suffix is `.md`, and a 304 iff it is not Markdown and `is_not_modified` holds. Otherwise it is sent in full with the pushes of its `<stem>_files` directory when that is a directory, and with no pushes otherwise. |
| `Dispatch.ResponseDir` | webserver/staticdir.py:169-196 | A directory with a regular `index.html` is answered exactly as `get_response_file` answers that file, with its conditional test and its `index_files` pushes. Otherwise it gets a listing. |
| `Dispatch.HandleRequest` | webserver/staticdir.py:138-156 | Every file sent, including the 404 page, is a regular file at or below the root. |
| `Dispatch.ResolvedFileIsServed` | webserver/staticdir.py:144-146 | A GET or HEAD of a path that resolves to a regular file is answered by `get_response_file` for that file, which lies strictly below the root. |
| `Dispatch.ResolvedDirectoryIsAnswered` | webserver/staticdir.py:147-154 | With listings on, a directory named by the empty relative path or by one ending in `/` is answered by `get_response_dir`. |
| `Dispatch.IrregularEntryIsInternalError` | webserver/staticdir.py:155-156 | An entry that is neither a regular file nor a directory gets the internal-error outcome. |
| `Dispatch.OnlyGetAndHead` | webserver/staticdir.py:139-140 | The answer is 405 iff the method is neither GET nor HEAD. |
| `Dispatch.UnresolvedIsNotFound` | webserver/staticdir.py:141-143 | An unresolved path gets the 404 response. |
| `Dispatch.ListingDisabledHidesDirectories` | webserver/staticdir.py:147-149 | With listings off, a directory gets the 404 response, never a listing. |
| `Dispatch.DirectoryRedirect` | webserver/staticdir.py:147-153 | A directory redirects iff its relative path is non-empty and lacks a trailing `/`. The target is the request path plus `/`, with the query kept. |
| `Dispatch.ListingOnlyForDirectories` | webserver/staticdir.py:147-196 | A listing comes only from a resolved directory, with listings on and no regular `index.html`. It is then that directory's listing with title `Things in <rel>`. |
| `Dispatch.IndexReplacesListing` | webserver/staticdir.py:170-173 | A directory with a regular `index.html` sends that file instead of a listing, through `get_response_file` for it. |
| `Dispatch.MarkdownIgnoresConditionalHeaders` | webserver/staticdir.py:159-161 | A `.md` file is always rendered. Conditional headers are not consulted. |
| `Dispatch.NotModifiedPushesNothing` | webserver/staticdir.py:162-164 | A not-modified file gets a 304 and pushes nothing. |
| `Dispatch.ServedFilePushes` | webserver/staticdir.py:165-166 | A file sent in full pushes nothing when its assets directory is missing or push is unsupported. Otherwise it pushes one path per entry of that directory, in `listdir` order. Each path lies under the mount point and, converted back and joined onto the root, names that entry. |
| `Dispatch.RedirectReachesDirectory` | webserver/staticdir.py:150-154 | After the redirect of a directory named as it is, the second request answers with that directory's index or listing and does not redirect again. |
| `Dispatch.ImplicitDirectoryRedirectsToNotFound` | webserver/staticdir.py:109-153 | A directory reached only through an implicit extension is redirected, and the redirect target gets the 404 response. |

## Left out

- The files other than webserver/staticdir.py are not part of this model: `run.py`, `util.py`, `main.py`, the middleware and the other bootstrap files. They parse arguments, start the server and wire up TLS and redirects.
- Response bodies are not modelled: Jinja template rendering, Markdown rendering (mistletoe), and how `FileResponse`, `RedirectResponse` and `NotModifiedResponse` build their headers and bodies. The headers `FileResponse` would send are a parameter (`Dispatch.Env.fileHeaders`).
- `email.utils.parsedate` is a parameter. Its date grammar is not modelled.
- The concurrency of the push promises (`asyncio.gather`) is left out. The model lists the paths that would be pushed, in order.
- The headers sent with each push promise are left out. Starlette's `send_push_promise` copies the request's `accept`, `accept-encoding`, `accept-language`, `cache-control` and `user-agent` headers into each promise. `Dispatch.PushPaths` gives only the paths.
- File names that are not valid UTF-8 are left out. `os.scandir` returns them with surrogate escapes, and `urllib.parse.quote` then raises `UnicodeEncodeError`, so the listing request fails. A Dafny `char` cannot hold a surrogate, so `Quoting.Quote` always succeeds and the model lists such a name.
- A custom hidden predicate sees only what `Visibility.DirEntry` records: the name, `is_file()`, `is_dir()` and whether a regular `.nolist` file is inside. A predicate that reads other `os.DirEntry` attributes (`path`, `is_symlink()`, `stat()`, `inode()`) cannot be expressed.
- Symbolic links are left out. `realpath` and `resolve()` are modelled as normalisation of `.`, `..` and empty segments.
- Permission errors and other `OSError`s from `exists`, `lstat` and `stat` are left out. So are those from `os.scandir` (line 178) and `os.listdir` (line 216) on an unreadable directory. Nothing catches these, so the listing or the file response that was pushing would fail. `FileSystem.Children` always succeeds. So are `ValueError`s (a NUL byte in a path) and any reading of file contents.
- Glob metacharacters (`*`, `?`, `[`) inside the requested name are left out. The model matches the name literally. pathlib would treat them as a pattern.
- The constructor's checks of the template directory and template file are left out. `Config.Valid` keeps what it establishes about the root: the root is canonical and is a directory.
- `Dispatch.ConvertPath` requires the request path to lie under the mount point, which the source asserts. The `AssertionError` path is not modelled.
- The redirect target is the request's scope path plus `/`. Starlette's URL rebuilding (scheme, host) is left out.
- `Listing.DefaultListingHides`, `Dispatch.PushPathsRoundTrip` and `Dispatch.ServedFilePushes` assume every enumerated name is one path segment: non-empty, neither `.` nor `..`, and without `/` (`FileSystem.ListsSegments`). Real directory entries always are. The last two also assume the ASGI `root_path` is empty or starts with `/`.
- `__call__` is modelled as `Dispatch.Serve`, without a contract of its own. It only composes `convert_path` and `handle_request`.
