/** Which directory entries a listing shows: the record the hidden predicate
    receives and `StaticDir._default_hidden_predicate`
    (webserver/staticdir.py:51-60). */
module Visibility {
  import opened Strings
  import opened Paths
  import opened FileSystem

  /** What the predicate reads of an `os.DirEntry`: its name, `is_file()`,
      `is_dir()`, and whether a regular file `.nolist` sits inside it. */
  datatype DirEntry = DirEntry(name: string, isFile: bool, isDir: bool, hasNoList: bool)

  /** The entry `os.scandir(dir)` yields for the child `name`. */
  function EntryOf(fs: Snapshot, dir: Path, name: string): (e: DirEntry)
    ensures e.name == name && !(e.isFile && e.isDir)
    ensures e.isDir <==> IsDir(fs, dir + [name])
    ensures e.isFile <==> IsFile(fs, dir + [name])
    ensures e.hasNoList <==> IsFile(fs, dir + [name, ".nolist"])
  {
    DirEntry(name, IsFile(fs, dir + [name]), IsDir(fs, dir + [name]), IsFile(fs, dir + [name, ".nolist"]))
  }

  /** `StaticDir._default_hidden_predicate(item)`: true means "leave out of the listing". */
  predicate DefaultHidden(e: DirEntry) {
    if !(e.isFile || e.isDir) then true
    else if StartsWith(e.name, ".") && !(e.isDir && e.name == ".well-known") then true
    else if e.isDir && (EndsWith(e.name, "_files") || e.hasNoList) then true
    else false
  }

  /** The rules one by one: entries that are neither file nor directory are
      hidden; dotted names are hidden except a directory named `.well-known`;
      directories ending in `_files` or holding `.nolist` are hidden; and every
      other entry is shown, so a regular file named `x_files` is listed. */
  lemma DefaultHiddenRules(e: DirEntry)
    ensures !(e.isFile || e.isDir) ==> DefaultHidden(e)
    ensures StartsWith(e.name, ".") && !(e.isDir && e.name == ".well-known") ==> DefaultHidden(e)
    ensures e.isDir && (EndsWith(e.name, "_files") || e.hasNoList) ==> DefaultHidden(e)
    ensures DefaultHidden(e) ==>
      || !(e.isFile || e.isDir)
      || (StartsWith(e.name, ".") && !(e.isDir && e.name == ".well-known"))
      || (e.isDir && (EndsWith(e.name, "_files") || e.hasNoList))
    ensures e.isFile && !e.isDir && !StartsWith(e.name, ".") ==> !DefaultHidden(e)
    ensures e.isDir && e.name == ".well-known" && !e.hasNoList ==> !DefaultHidden(e)
  {
  }
}
