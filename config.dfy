/** The configuration a `StaticDir` keeps in its instance fields
    (webserver/staticdir.py:79-84). The fields are written once by `__init__`
    and only read afterwards, so the configuration is a value. */
module Config {
  import opened Paths
  import opened FileSystem
  import opened Visibility

  datatype StaticDir = StaticDir(
    rootDir: Path,
    listDirs: bool,
    implicitExts: seq<string>,
    shouldHide: DirEntry -> bool)

  /** `StaticDir._DEFAULT_IMPLICIT_EXTS`, group by group. */
  const TextExts: seq<string> := [".html", ".htm", ".txt", ".md"]
  const OfficeExts: seq<string> := [".doc", ".docx", ".xls", ".xlsx", ".ppt", ".pptx"]
  const DocumentExts: seq<string> := [".pdf", ".csv", ".json", ".xml", ".yaml", ".yml"]
  const ImageExts: seq<string> :=
    [".jpg", ".jpeg", ".png", ".gif", ".svg", ".ico", ".bmp", ".webp", ".tif", ".tiff", ".dng"]
  const AudioExts: seq<string> := [".mp3", ".wav", ".ogg", ".flac", ".aac", ".wma", ".m4a", ".aiff", ".ape", ".alac"]
  const VideoExts: seq<string> :=
    [".mp4", ".mkv", ".avi", ".mov", ".wmv", ".flv", ".webm", ".vob", ".ogv", ".3gp", ".3g2", ".m4v"]
  const ArchiveExts: seq<string> :=
    [".zip", ".rar", ".7z", ".tar", ".gz", ".bz2", ".xz", ".lz", ".lzma", ".lzo", ".zst", ".zstd"]

  const DefaultImplicitExts: seq<string> :=
    TextExts + OfficeExts + DocumentExts + ImageExts + AudioExts + VideoExts + ArchiveExts

  predicate AllSuffixShaped(exts: seq<string>) {
    forall i :: 0 <= i < |exts| ==> IsSuffixShaped(exts[i])
  }

  lemma AllSuffixShapedAppend(a: seq<string>, b: seq<string>)
    requires AllSuffixShaped(a) && AllSuffixShaped(b)
    ensures AllSuffixShaped(a + b)
  {
    forall i | 0 <= i < |a + b|
      ensures IsSuffixShaped((a + b)[i])
    {
      if i >= |a| {
        assert (a + b)[i] == b[i - |a|];
      }
    }
  }

  lemma DocumentGroupsShaped()
    ensures AllSuffixShaped(TextExts) && AllSuffixShaped(OfficeExts) && AllSuffixShaped(DocumentExts)
  {
  }

  lemma MediaGroupsShaped()
    ensures AllSuffixShaped(ImageExts) && AllSuffixShaped(AudioExts) && AllSuffixShaped(VideoExts)
  {
  }

  lemma ArchiveGroupShaped()
    ensures AllSuffixShaped(ArchiveExts)
  {
  }

  /** There are 61 default extensions, each one a possible `suffix` (so each
      can be matched), among them `.html`, `.htm` and `.md`. */
  lemma DefaultImplicitExtsWellFormed()
    ensures |DefaultImplicitExts| == 61
    ensures forall ext :: ext in DefaultImplicitExts ==> IsSuffixShaped(ext)
    ensures ".html" in DefaultImplicitExts && ".htm" in DefaultImplicitExts && ".md" in DefaultImplicitExts
  {
    DocumentGroupsShaped();
    MediaGroupsShaped();
    ArchiveGroupShaped();
    var exts := TextExts;
    AllSuffixShapedAppend(exts, OfficeExts);
    exts := exts + OfficeExts;
    AllSuffixShapedAppend(exts, DocumentExts);
    exts := exts + DocumentExts;
    AllSuffixShapedAppend(exts, ImageExts);
    exts := exts + ImageExts;
    AllSuffixShapedAppend(exts, AudioExts);
    exts := exts + AudioExts;
    AllSuffixShapedAppend(exts, VideoExts);
    exts := exts + VideoExts;
    AllSuffixShapedAppend(exts, ArchiveExts);
    exts := exts + ArchiveExts;
    assert exts == DefaultImplicitExts;
    assert DefaultImplicitExts[..4] == TextExts;
    assert TextExts[0] == ".html" && TextExts[1] == ".htm" && TextExts[3] == ".md";
  }

  /** A `StaticDir(directory)` built with every keyword argument left at its
      default: listings on, the 61 default extensions (each a well-formed
      suffix, `.html`, `.htm` and `.md` among them) and the default hidden predicate. */
  function WithDefaults(rootDir: Path): (cfg: StaticDir)
    ensures cfg.rootDir == rootDir && cfg.listDirs
    ensures |cfg.implicitExts| == 61 && AllSuffixShaped(cfg.implicitExts)
    ensures ".html" in cfg.implicitExts && ".htm" in cfg.implicitExts && ".md" in cfg.implicitExts
    ensures forall e :: cfg.shouldHide(e) == DefaultHidden(e)
  {
    DefaultImplicitExtsWellFormed();
    StaticDir(rootDir, true, DefaultImplicitExts, DefaultHidden)
  }

  /** What `__init__` establishes about the root: it is the `realpath` of the
      given directory, and that directory exists. */
  predicate Valid(cfg: StaticDir, fs: Snapshot) {
    IsCanonical(cfg.rootDir) && IsDir(fs, cfg.rootDir)
  }
}
