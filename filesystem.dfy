/** A point-in-time snapshot of the served filesystem: which paths exist, of
    what kind, and in what order `os.scandir`/`os.listdir` enumerate each
    directory. Queries on it stand for `exists`, `lstat`, `is_file`, `is_dir`. */
module FileSystem {
  import opened Paths

  /** `S_ISREG`, `S_ISDIR`, or anything else (device, socket, fifo). */
  datatype Kind = File | Dir | Other

  datatype Snapshot = Snapshot(entries: map<Path, Kind>, listings: map<Path, seq<string>>)

  /** `path.exists()`, and whether `lstat` succeeds. */
  predicate Exists(fs: Snapshot, p: Path) {
    p in fs.entries
  }

  /** `os.path.isfile(p)` / `p.is_file()` */
  predicate IsFile(fs: Snapshot, p: Path) {
    p in fs.entries && fs.entries[p] == File
  }

  /** `p.is_dir()` */
  predicate IsDir(fs: Snapshot, p: Path) {
    p in fs.entries && fs.entries[p] == Dir
  }

  /** The names of the direct children of `dir`, in enumeration order. */
  function Children(fs: Snapshot, dir: Path): seq<string> {
    if dir in fs.listings then fs.listings[dir] else []
  }

  /** Every name a directory enumerates is a single path segment naming a
      child: non-empty, neither `.` nor `..`, and without a `/`. */
  predicate ListsSegments(fs: Snapshot) {
    forall d, k :: d in fs.listings && 0 <= k < |fs.listings[d]| ==>
      fs.listings[d][k] != "" && fs.listings[d][k] != "." && fs.listings[d][k] != ".." && '/' !in fs.listings[d][k]
  }
}
