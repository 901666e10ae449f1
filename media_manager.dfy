/**
 * The media manager: the library of scanned media files and its summary.
 * The directory walk is an input: one entry per directory `os.walk`
 * visits, in the order it visits them.
 */
module Library {
  import opened Paths
  import opened MediaFiles

  /** One triple `(root, dirs, files)` produced by `os.walk`. */
  datatype WalkEntry = WalkEntry(root: string, dirs: seq<string>, files: seq<string>)

  /** The suffixes `scan_files` admits; `.avi` and `.mkv` are not among them. */
  const SupportedExtensions: seq<string> := [".jpg", ".jpeg", ".png", ".mp4", ".mov", ".gif"]

  /** `any(file.lower().endswith(ext) for ext in supported_extensions)`. */
  predicate Supported(name: string)
  {
    exists ext | ext in SupportedExtensions :: EndsWith(Lower(name), ext)
  }

  /** The paths the inner loop appends for one directory, in its file order. */
  function ScannedIn(root: string, files: seq<string>): seq<string>
  {
    if files == [] then []
    else
      var n := |files| - 1;
      ScannedIn(root, files[..n]) + (if Supported(files[n]) then [Join(root, files[n])] else [])
  }

  /** The paths both loops append for a whole walk, in traversal order. */
  function ScannedPaths(walk: seq<WalkEntry>): seq<string>
  {
    if walk == [] then []
    else
      var n := |walk| - 1;
      ScannedPaths(walk[..n]) + ScannedIn(walk[n].root, walk[n].files)
  }

  /** Every path appended for a directory comes from one of its supported file names. */
  lemma {:induction false} ScannedInSource(root: string, files: seq<string>, p: string) returns (j: nat)
    requires p in ScannedIn(root, files)
    ensures j < |files| && Supported(files[j]) && p == Join(root, files[j])
    decreases |files|
  {
    var n := |files| - 1;
    if p in ScannedIn(root, files[..n]) {
      j := ScannedInSource(root, files[..n], p);
      assert files[..n][j] == files[j];
    } else {
      j := n;
    }
  }

  /** Every supported file name of a directory has its joined path appended. */
  lemma {:induction false} ScannedInCovers(root: string, files: seq<string>, j: nat)
    requires j < |files| && Supported(files[j])
    ensures Join(root, files[j]) in ScannedIn(root, files)
    decreases |files|
  {
    var n := |files| - 1;
    if j < n {
      assert files[..n][j] == files[j];
      ScannedInCovers(root, files[..n], j);
    }
  }

  /** Every path a walk appends comes from a supported file name of one of its directories. */
  lemma {:induction false} ScannedPathsSource(walk: seq<WalkEntry>, p: string) returns (i: nat, j: nat)
    requires p in ScannedPaths(walk)
    ensures i < |walk| && j < |walk[i].files|
    ensures Supported(walk[i].files[j]) && p == Join(walk[i].root, walk[i].files[j])
    decreases |walk|
  {
    var n := |walk| - 1;
    if p in ScannedPaths(walk[..n]) {
      i, j := ScannedPathsSource(walk[..n], p);
      assert walk[..n][i] == walk[i];
    } else {
      i := n;
      j := ScannedInSource(walk[n].root, walk[n].files, p);
    }
  }

  /** Every supported file name of every directory of a walk has its joined path appended. */
  lemma {:induction false} ScannedPathsCover(walk: seq<WalkEntry>, i: nat, j: nat)
    requires i < |walk| && j < |walk[i].files| && Supported(walk[i].files[j])
    ensures Join(walk[i].root, walk[i].files[j]) in ScannedPaths(walk)
    decreases |walk|
  {
    var n := |walk| - 1;
    if i < n {
      assert walk[..n][i] == walk[i];
      ScannedPathsCover(walk[..n], i, j);
    } else {
      ScannedInCovers(walk[i].root, walk[i].files, j);
    }
  }

  /**
   * `scan_files` appends exactly the joined paths of the supported file
   * names of the walk: nothing else and none of them left out.
   */
  lemma ScannedPathsMembers(walk: seq<WalkEntry>, p: string)
    ensures p in ScannedPaths(walk) <==>
            exists i, j :: 0 <= i < |walk| && 0 <= j < |walk[i].files|
                        && Supported(walk[i].files[j]) && p == Join(walk[i].root, walk[i].files[j])
  {
    if p in ScannedPaths(walk) {
      var i, j := ScannedPathsSource(walk, p);
    }
    if exists i, j :: 0 <= i < |walk| && 0 <= j < |walk[i].files|
                   && Supported(walk[i].files[j]) && p == Join(walk[i].root, walk[i].files[j]) {
      var i, j :| 0 <= i < |walk| && 0 <= j < |walk[i].files|
               && Supported(walk[i].files[j]) && p == Join(walk[i].root, walk[i].files[j]);
      ScannedPathsCover(walk, i, j);
    }
  }

  /** Two suffixes whose last two characters differ cannot both end the same string. */
  lemma SuffixesDiffer(s: string, a: string, b: string)
    requires EndsWith(s, a) && |a| >= 2 && |b| >= 2
    requires a[|a| - 2..] != b[|b| - 2..]
    ensures !EndsWith(s, b)
  {
    assert s[|s| - 2..] == a[|a| - 2..];
  }

  /** Names ending in `.avi` or `.mkv` are videos to `is_video` but are never scanned. */
  lemma VideoOnlyExtensionsNotScanned(name: string)
    requires EndsWith(Lower(name), ".avi") || EndsWith(Lower(name), ".mkv")
    ensures !Supported(name)
  {
    var l := Lower(name);
    var tail := if EndsWith(l, ".avi") then ".avi" else ".mkv";
    forall ext | ext in SupportedExtensions
      ensures !EndsWith(l, ext)
    {
      SuffixesDiffer(l, tail, ext);
    }
  }

  /** `splitext` gives a name made of a dot and letters no extension. */
  lemma DotFileHasNoExtension()
    ensures Extension(".jpg") == []
  {
    LastIndexIs(".jpg", '/', -1);
    LastIndexIs(".jpg", '.', 0);
  }

  /** `splitext` gives `clip.avi` the extension `.avi`. */
  lemma AviExtension()
    ensures Extension("clip.avi") == ".avi"
  {
    LastIndexIs("clip.avi", '/', -1);
    LastIndexIs("clip.avi", '.', 4);
    assert "clip.avi"[0] != '.';
  }

  /**
   * The scan filter and the classification disagree: a file named `.jpg`
   * is scanned, yet `splitext` gives it no extension, so it is neither an
   * image nor a video.
   */
  lemma DotFileScannedButUnclassified(root: string)
    ensures Supported(".jpg")
    ensures !IsImage(Join(root, ".jpg")) && !IsVideo(Join(root, ".jpg"))
  {
    assert EndsWith(Lower(".jpg"), SupportedExtensions[0]);
    ExtensionOfJoin(root, ".jpg");
    DotFileHasNoExtension();
  }

  /** `clip.avi` is never admitted by the scan filter. */
  lemma AviNotSupported()
    ensures !Supported("clip.avi")
  {
    assert Lower("clip.avi") == "clip.avi";
    VideoOnlyExtensionsNotScanned("clip.avi");
  }

  /** `clip.avi` is a video that the scan never admits, wherever it lies. */
  lemma AviVideoNotScanned(root: string)
    ensures !Supported("clip.avi") && IsVideo(Join(root, "clip.avi"))
  {
    AviNotSupported();
    ExtensionOfJoin(root, "clip.avi");
    AviExtension();
    var e := Extension(Join(root, "clip.avi"));
    assert e == ".avi";
    assert Lower(e) == ".avi";
  }

  /**
   * Every file name whose path `is_image` accepts, or `is_video` accepts
   * with an extension other than `.avi` and `.mkv`, passes the scan filter.
   */
  lemma ClassifiedIsScanned(root: string, name: string)
    requires '/' !in name
    requires IsImage(Join(root, name)) || (IsVideo(Join(root, name)) && Lower(Extension(name)) !in [".avi", ".mkv"])
    ensures Supported(name)
  {
    ExtensionOfJoin(root, name);
    SplitExtParts(name);
    var e := Extension(name);
    var prefix := name[..|name| - |e|];
    assert name == prefix + e;
    LowerAppend(prefix, e);
    assert EndsWith(Lower(name), Lower(e));
    assert Lower(e) in SupportedExtensions;
  }

  /** The library's paths, in library order. */
  function PathsOf(lib: seq<MediaFile>): (ps: seq<string>)
    ensures |ps| == |lib|
  {
    seq(|lib|, i requires 0 <= i < |lib| => lib[i].filePath)
  }

  /** `sum(1 for x in xs if p(x))`. */
  function CountIf<T>(xs: seq<T>, p: T -> bool): nat
  {
    if xs == [] then 0
    else CountIf(xs[..|xs| - 1], p) + (if p(xs[|xs| - 1]) then 1 else 0)
  }

  /** The indices of the entries satisfying `p`. */
  function IndicesWhere<T>(xs: seq<T>, p: T -> bool): set<nat>
  {
    set i: nat | i < |xs| && p(xs[i])
  }

  /** The count is the number of entries that satisfy the predicate. */
  lemma {:induction false} CountIfCountsEntries<T>(xs: seq<T>, p: T -> bool)
    ensures CountIf(xs, p) == |IndicesWhere(xs, p)|
    decreases |xs|
  {
    if xs != [] {
      var n := |xs| - 1;
      CountIfCountsEntries(xs[..n], p);
      var before := IndicesWhere(xs[..n], p);
      if p(xs[n]) {
        assert IndicesWhere(xs, p) == before + {n};
      } else {
        assert IndicesWhere(xs, p) == before;
      }
    }
  }

  /** Counts of two predicates that never hold together add up to at most the length. */
  lemma {:induction false} DisjointCountsBounded<T>(xs: seq<T>, p: T -> bool, q: T -> bool)
    requires forall x :: !(p(x) && q(x))
    ensures CountIf(xs, p) + CountIf(xs, q) <= |xs|
    decreases |xs|
  {
    if xs != [] {
      DisjointCountsBounded(xs[..|xs| - 1], p, q);
    }
  }

  /** Counting over two parts of a sequence counts each part. */
  lemma {:induction false} CountIfAppend<T>(a: seq<T>, b: seq<T>, p: T -> bool)
    ensures CountIf(a + b, p) == CountIf(a, p) + CountIf(b, p)
    decreases |b|
  {
    if b == [] {
      assert a + b == a;
    } else {
      var n := |b| - 1;
      assert (a + b)[..|a + b| - 1] == a + b[..n];
      CountIfAppend(a, b[..n], p);
    }
  }

  /** The metadata of `f` is what extraction gives for its path. */
  predicate Extracted(f: MediaFile, exif: string -> Metadata)
    reads f
  {
    f.metadata == ExtractMetadata(f.filePath, exif(f.filePath))
  }

  lemma PathsOfAppend(a: seq<MediaFile>, b: seq<MediaFile>)
    ensures PathsOf(a + b) == PathsOf(a) + PathsOf(b)
  {
  }

  lemma PathsOfSnoc(lib: seq<MediaFile>, f: MediaFile)
    ensures PathsOf(lib + [f]) == PathsOf(lib) + [f.filePath]
  {
  }

  lemma ScannedInStep(root: string, files: seq<string>, k: nat)
    requires k < |files|
    ensures ScannedIn(root, files[..k + 1])
         == ScannedIn(root, files[..k]) + (if Supported(files[k]) then [Join(root, files[k])] else [])
  {
    assert files[..k + 1][..k] == files[..k];
  }

  lemma ScannedPathsStep(walk: seq<WalkEntry>, w: nat)
    requires w < |walk|
    ensures ScannedPaths(walk[..w + 1]) == ScannedPaths(walk[..w]) + ScannedIn(walk[w].root, walk[w].files)
  {
    assert walk[..w + 1][..w] == walk[..w];
  }

  /** The summary `get_library_summary` returns. */
  datatype LibrarySummary = LibrarySummary(totalFiles: nat, imageFiles: nat, videoFiles: nat)

  class MediaManager {
    const libraryPath: string
    var library: seq<MediaFile>

    /** `MediaManager(library_path)` starts with an empty library. */
    constructor (libraryPath: string)
      ensures this.libraryPath == libraryPath
      ensures library == []
    {
      this.libraryPath := libraryPath;
      library := [];
    }

    /**
     * `scan_files`: walks the tree and appends a new `MediaFile` for every
     * supported name, after whatever the library already held. `exif`
     * stands for the EXIF reader applied to a path.
     */
    method ScanFiles(walk: seq<WalkEntry>, exif: string -> Metadata)
      modifies this
      ensures |library| >= |old(library)|
      ensures library[..|old(library)|] == old(library)
      ensures PathsOf(library) == PathsOf(old(library)) + ScannedPaths(walk)
      ensures forall j :: |old(library)| <= j < |library| ==> fresh(library[j]) && Extracted(library[j], exif)
    {
      var w := 0;
      while w < |walk|
        invariant 0 <= w <= |walk|
        invariant |library| >= |old(library)|
        invariant library[..|old(library)|] == old(library)
        invariant PathsOf(library) == PathsOf(old(library)) + ScannedPaths(walk[..w])
        invariant forall j :: |old(library)| <= j < |library| ==> fresh(library[j]) && Extracted(library[j], exif)
      {
        ScanDirectory(walk[w].root, walk[w].files, exif);
        ScannedPathsStep(walk, w);
        w := w + 1;
      }
      assert walk[..w] == walk;
    }

    /** The inner loop of `scan_files`: the file names of one directory, in order. */
    method ScanDirectory(root: string, files: seq<string>, exif: string -> Metadata)
      modifies this
      ensures |library| >= |old(library)|
      ensures library[..|old(library)|] == old(library)
      ensures PathsOf(library) == PathsOf(old(library)) + ScannedIn(root, files)
      ensures forall j :: |old(library)| <= j < |library| ==> fresh(library[j]) && Extracted(library[j], exif)
    {
      ghost var added: seq<MediaFile> := [];
      var k := 0;
      while k < |files|
        invariant 0 <= k <= |files|
        invariant library == old(library) + added
        invariant PathsOf(added) == ScannedIn(root, files[..k])
        invariant forall j :: 0 <= j < |added| ==> fresh(added[j]) && Extracted(added[j], exif)
      {
        var name := files[k];
        ScannedInStep(root, files, k);
        if Supported(name) {
          var mediaFile := NewFile(Join(root, name), exif);
          PathsOfSnoc(added, mediaFile);
          library := library + [mediaFile];
          added := added + [mediaFile];
        }
        k := k + 1;
      }
      assert files[..k] == files;
      PathsOfAppend(old(library), added);
    }

    /** `MediaFile(file_path)` for a path the scan admits. */
    static method NewFile(path: string, exif: string -> Metadata) returns (f: MediaFile)
      ensures fresh(f) && f.filePath == path && Extracted(f, exif)
    {
      f := new MediaFile(path, exif(path));
    }

    /**
     * `get_library_summary`: the number of files, and how many of them
     * `is_image` and `is_video` accept.
     */
    function GetLibrarySummary(): (s: LibrarySummary)
      reads this
      ensures s.totalFiles == |library|
      ensures s.imageFiles == |IndicesWhere(PathsOf(library), IsImage)|
      ensures s.videoFiles == |IndicesWhere(PathsOf(library), IsVideo)|
      ensures s.imageFiles + s.videoFiles <= s.totalFiles
    {
      var paths := PathsOf(library);
      CountIfCountsEntries(paths, IsImage);
      CountIfCountsEntries(paths, IsVideo);
      forall p ensures !(IsImage(p) && IsVideo(p)) {
        ImageAndVideoExclusive(p);
      }
      DisjointCountsBounded(paths, IsImage, IsVideo);
      LibrarySummary(|library|, CountIf(paths, IsImage), CountIf(paths, IsVideo))
    }
  }

  /** Scanning grows each count of the summary by the count among the scanned paths. */
  lemma SummaryAfterScan(before: seq<string>, walk: seq<WalkEntry>)
    ensures CountIf(before + ScannedPaths(walk), IsImage) == CountIf(before, IsImage) + CountIf(ScannedPaths(walk), IsImage)
    ensures CountIf(before + ScannedPaths(walk), IsVideo) == CountIf(before, IsVideo) + CountIf(ScannedPaths(walk), IsVideo)
  {
    CountIfAppend(before, ScannedPaths(walk), IsImage);
    CountIfAppend(before, ScannedPaths(walk), IsVideo);
  }
}
