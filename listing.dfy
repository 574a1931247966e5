/** The directory listing of `StaticDir.get_response_dir`
    (webserver/staticdir.py:169-196): a link to the parent directory, then one
    `(link, label)` row per entry the hidden predicate lets through, in
    enumeration order. */
module Listing {
  import opened Wrappers
  import opened Strings
  import opened Paths
  import opened FileSystem
  import opened Visibility
  import opened Quoting
  import opened Config

  /** A listing row: the percent-encoded link and the displayed name. */
  datatype Row = Row(link: string, display: string)

  /** The row that always comes first. */
  const ParentRow: Row := Row("../", "../")

  /** The displayed name: a directory gets a trailing `/`; anything else loses
      a trailing `.html`, then a trailing `.htm`. */
  function Label(e: DirEntry): string {
    if e.isDir then e.name + "/"
    else RemoveSuffix(RemoveSuffix(e.name, ".html"), ".htm")
  }

  function RowOf(e: DirEntry): Row {
    Row(Quote(Label(e)), Label(e))
  }

  /** The entries of `names` (children of `dir`) that `shouldHide` lets through, in order. */
  function VisibleEntries(shouldHide: DirEntry -> bool, fs: Snapshot, dir: Path, names: seq<string>): seq<DirEntry>
    decreases |names|
  {
    if names == [] then []
    else
      var rest := VisibleEntries(shouldHide, fs, dir, names[..|names| - 1]);
      var e := EntryOf(fs, dir, names[|names| - 1]);
      if shouldHide(e) then rest else rest + [e]
  }

  function Rows(es: seq<DirEntry>): (rows: seq<Row>)
    ensures |rows| == |es|
  {
    if es == [] then [] else Rows(es[..|es| - 1]) + [RowOf(es[|es| - 1])]
  }

  /** Row `i` is the row of entry `i`. */
  lemma {:induction false} RowsAt(es: seq<DirEntry>, i: int)
    requires 0 <= i < |es|
    ensures Rows(es)[i] == RowOf(es[i])
    decreases |es|
  {
    if i < |es| - 1 {
      RowsAt(es[..|es| - 1], i);
    }
  }

  /** The `files` the listing template receives for `dir`. */
  function ListingOf(cfg: StaticDir, fs: Snapshot, dir: Path): seq<Row> {
    [ParentRow] + Rows(VisibleEntries(cfg.shouldHide, fs, dir, Children(fs, dir)))
  }

  /** The `title` the listing template receives. */
  function Title(relPath: string): (t: string)
    ensures StartsWith(t, "Things in ") && t[|"Things in "|..] == relPath
  {
    "Things in " + relPath
  }

  /** The `os.scandir` loop, appending one row per shown entry. */
  method BuildListing(cfg: StaticDir, fs: Snapshot, dir: Path) returns (listing: seq<Row>)
    ensures listing == ListingOf(cfg, fs, dir)
  {
    listing := [ParentRow];
    var names := Children(fs, dir);
    for i := 0 to |names|
      invariant listing == [ParentRow] + Rows(VisibleEntries(cfg.shouldHide, fs, dir, names[..i]))
    {
      ghost var shown := VisibleEntries(cfg.shouldHide, fs, dir, names[..i]);
      VisibleEntriesStep(cfg.shouldHide, fs, dir, names, i);
      var item := EntryOf(fs, dir, names[i]);
      if cfg.shouldHide(item) {
        continue;
      }
      var row := EntryRow(item);
      RowsAppend(shown, item);
      listing := listing + [row];
    }
    assert names[..|names|] == names;
  }

  /** The row of one shown entry: its label, and the label percent-encoded. */
  method EntryRow(item: DirEntry) returns (row: Row)
    ensures row == RowOf(item)
  {
    var fileName := item.name;
    if item.isDir {
      fileName := fileName + "/";
    } else {
      fileName := RemoveSuffix(RemoveSuffix(fileName, ".html"), ".htm");
    }
    var fileUrl := Quote(fileName);
    row := Row(fileUrl, fileName);
  }

  lemma VisibleEntriesStep(shouldHide: DirEntry -> bool, fs: Snapshot, dir: Path, names: seq<string>, i: int)
    requires 0 <= i < |names|
    ensures VisibleEntries(shouldHide, fs, dir, names[..i + 1]) ==
      var e := EntryOf(fs, dir, names[i]);
      if shouldHide(e) then VisibleEntries(shouldHide, fs, dir, names[..i])
      else VisibleEntries(shouldHide, fs, dir, names[..i]) + [e]
  {
    assert names[..i + 1][..i] == names[..i];
  }

  lemma RowsAppend(es: seq<DirEntry>, e: DirEntry)
    ensures Rows(es + [e]) == Rows(es) + [RowOf(e)]
  {
    assert (es + [e])[..|es|] == es;
  }

  /** An entry is listed exactly when it is the entry of some enumerated name
      and the predicate does not hide it. */
  lemma {:induction false} VisibleEntriesIff(shouldHide: DirEntry -> bool, fs: Snapshot, dir: Path, names: seq<string>, e: DirEntry)
    ensures e in VisibleEntries(shouldHide, fs, dir, names) <==>
      exists k :: 0 <= k < |names| && e == EntryOf(fs, dir, names[k]) && !shouldHide(e)
    decreases |names|
  {
    if names != [] {
      var init := names[..|names| - 1];
      VisibleEntriesIff(shouldHide, fs, dir, init, e);
      if exists k :: 0 <= k < |names| && e == EntryOf(fs, dir, names[k]) && !shouldHide(e) {
        var k :| 0 <= k < |names| && e == EntryOf(fs, dir, names[k]) && !shouldHide(e);
        if k < |names| - 1 {
          assert init[k] == names[k];
        }
      }
      if e in VisibleEntries(shouldHide, fs, dir, init) {
        var k :| 0 <= k < |init| && e == EntryOf(fs, dir, init[k]) && !shouldHide(e);
        assert names[k] == init[k];
      }
    }
  }

  /** Filtering keeps enumeration order: the entries of a concatenation are the
      entries of each part, one after the other. */
  lemma {:induction false} VisibleEntriesAppend(shouldHide: DirEntry -> bool, fs: Snapshot, dir: Path, a: seq<string>, b: seq<string>)
    ensures VisibleEntries(shouldHide, fs, dir, a + b) == VisibleEntries(shouldHide, fs, dir, a) + VisibleEntries(shouldHide, fs, dir, b)
    decreases |b|
  {
    if b == [] {
      assert a + b == a;
    } else {
      var b' := b[..|b| - 1];
      assert (a + b)[..|a + b| - 1] == a + b';
      VisibleEntriesAppend(shouldHide, fs, dir, a, b');
    }
  }

  /** The listing starts with the parent link and then has one row per visible
      entry, in order, whose link is the percent-encoding of its label. */
  lemma ListingShape(cfg: StaticDir, fs: Snapshot, dir: Path)
    ensures var listing, es := ListingOf(cfg, fs, dir), VisibleEntries(cfg.shouldHide, fs, dir, Children(fs, dir));
      && |listing| == 1 + |es|
      && listing[0] == ParentRow
      && forall i :: 0 <= i < |es| ==> listing[i + 1] == Row(Quote(Label(es[i])), Label(es[i]))
  {
    var es := VisibleEntries(cfg.shouldHide, fs, dir, Children(fs, dir));
    var rows := Rows(es);
    var listing := [ParentRow] + rows;
    assert ListingOf(cfg, fs, dir) == listing;
    forall i | 0 <= i < |es|
      ensures listing[i + 1] == Row(Quote(Label(es[i])), Label(es[i]))
    {
      assert listing[i + 1] == rows[i];
      RowsAt(es, i);
    }
  }

  /** Every link decodes back to the label shown beside it. */
  lemma ListingLinksDecode(cfg: StaticDir, fs: Snapshot, dir: Path)
    ensures var listing := ListingOf(cfg, fs, dir);
      forall i :: 0 <= i < |listing| ==> Unquote(listing[i].link) == Some(listing[i].display)
  {
    var listing := ListingOf(cfg, fs, dir);
    forall i | 0 <= i < |listing|
      ensures Unquote(listing[i].link) == Some(listing[i].display)
    {
      if i == 0 {
        QuoteSafeIsIdentity("../");
        QuoteRoundTrip("../");
      } else {
        var es := VisibleEntries(cfg.shouldHide, fs, dir, Children(fs, dir));
        assert listing[i] == Rows(es)[i - 1];
        RowsAt(es, i - 1);
        RowLinkDecodes(es[i - 1]);
      }
    }
  }

  lemma RowLinkDecodes(e: DirEntry)
    ensures Unquote(RowOf(e).link) == Some(RowOf(e).display)
  {
    QuoteRoundTrip(Label(e));
  }

  /** A directory's label is its name and a `/`; any other entry's label is its
      name with `.html`, `.htm` or `.htm.html` taken off, or the name itself. */
  lemma LabelRecoversName(e: DirEntry)
    ensures e.isDir ==> Label(e) == e.name + "/"
    ensures !e.isDir ==>
      || Label(e) == e.name
      || Label(e) + ".html" == e.name
      || Label(e) + ".htm" == e.name
      || Label(e) + ".htm.html" == e.name
    ensures !e.isDir ==> StartsWith(e.name, Label(e))
  {
    if !e.isDir {
      var once := RemoveSuffix(e.name, ".html");
      if EndsWith(e.name, ".html") && EndsWith(once, ".htm") {
        assert Label(e) + ".htm" + ".html" == e.name;
        assert Label(e) + ".htm" + ".html" == Label(e) + ".htm.html";
      }
    }
  }

  /** What the default predicate lets through, seen in the label: a dotted
      label is the `.well-known/` directory, and no label names a `_files` directory. */
  lemma DefaultShownLabel(e: DirEntry)
    requires !DefaultHidden(e) && '/' !in e.name
    ensures StartsWith(Label(e), ".") ==> Label(e) == ".well-known/"
    ensures !EndsWith(Label(e), "_files/")
  {
    if e.isDir {
      ShownDirectoryLabel(e);
    } else {
      ShownFileLabel(e);
    }
  }

  lemma ShownDirectoryLabel(e: DirEntry)
    requires !DefaultHidden(e) && e.isDir
    ensures StartsWith(Label(e), ".") ==> Label(e) == ".well-known/"
    ensures !EndsWith(Label(e), "_files/")
  {
    var shown := e.name + "/";
    assert e.name != [] ==> e.name[..1] == [e.name[0]] && shown[0] == e.name[0];
    assert e.name == [] ==> shown[0] == '/';
    assert |e.name| >= 6 ==> e.name[|e.name| - 6..] == shown[|shown| - 7..|shown| - 1];
  }

  lemma ShownFileLabel(e: DirEntry)
    requires !DefaultHidden(e) && !e.isDir && '/' !in e.name
    ensures !StartsWith(Label(e), ".")
    ensures !EndsWith(Label(e), "_files/")
  {
    var shown := Label(e);
    LabelRecoversName(e);
    assert e.name[..|shown|] == shown;
    assert shown != [] ==> e.name[..1] == e.name[..|shown|][..1];
    assert shown != [] ==> e.name[|shown| - 1] == shown[|shown| - 1];
    assert |shown| >= 7 ==> shown[|shown| - 7..][6] == shown[|shown| - 1];
  }

  /** With the default predicate, no listed label is that of a dotted entry other
      than the `.well-known/` directory, and none is that of a `_files` directory. */
  lemma DefaultListingHides(cfg: StaticDir, fs: Snapshot, dir: Path)
    requires forall e :: cfg.shouldHide(e) == DefaultHidden(e)
    requires ListsSegments(fs)
    ensures var listing := ListingOf(cfg, fs, dir);
      forall i :: 1 <= i < |listing| ==>
        && (StartsWith(listing[i].display, ".") ==> listing[i].display == ".well-known/")
        && !EndsWith(listing[i].display, "_files/")
  {
    var names := Children(fs, dir);
    var es := VisibleEntries(cfg.shouldHide, fs, dir, names);
    var listing := ListingOf(cfg, fs, dir);
    forall i | 1 <= i < |listing|
      ensures StartsWith(listing[i].display, ".") ==> listing[i].display == ".well-known/"
      ensures !EndsWith(listing[i].display, "_files/")
    {
      var e := es[i - 1];
      RowsAt(es, i - 1);
      assert e in es;
      VisibleEntriesIff(cfg.shouldHide, fs, dir, names, e);
      var k :| 0 <= k < |names| && e == EntryOf(fs, dir, names[k]) && !cfg.shouldHide(e);
      assert dir in fs.listings;
      DefaultShownLabel(e);
    }
  }

  /** With the default predicate, every listed entry is a regular file or a
      directory of `dir`; no listed directory holds a regular file `.nolist`
      or has a name ending in `_files`; and a listed dotted name is the
      directory `.well-known`. */
  lemma DefaultListingSkips(cfg: StaticDir, fs: Snapshot, dir: Path)
    requires forall e :: cfg.shouldHide(e) == DefaultHidden(e)
    ensures forall e :: e in VisibleEntries(cfg.shouldHide, fs, dir, Children(fs, dir)) ==>
      && e.name in Children(fs, dir)
      && (IsFile(fs, dir + [e.name]) || IsDir(fs, dir + [e.name]))
      && !(IsDir(fs, dir + [e.name]) && IsFile(fs, dir + [e.name, ".nolist"]))
      && !(IsDir(fs, dir + [e.name]) && EndsWith(e.name, "_files"))
      && (StartsWith(e.name, ".") ==> e.name == ".well-known" && IsDir(fs, dir + [e.name]))
  {
    var names := Children(fs, dir);
    forall e | e in VisibleEntries(cfg.shouldHide, fs, dir, names)
      ensures e.name in names
      ensures IsFile(fs, dir + [e.name]) || IsDir(fs, dir + [e.name])
      ensures !(IsDir(fs, dir + [e.name]) && IsFile(fs, dir + [e.name, ".nolist"]))
      ensures !(IsDir(fs, dir + [e.name]) && EndsWith(e.name, "_files"))
      ensures StartsWith(e.name, ".") ==> e.name == ".well-known" && IsDir(fs, dir + [e.name])
    {
      VisibleEntriesIff(cfg.shouldHide, fs, dir, names, e);
      var k :| 0 <= k < |names| && e == EntryOf(fs, dir, names[k]) && !cfg.shouldHide(e);
      assert !DefaultHidden(e);
    }
  }
}
