/** Reference helpers of the OCR service (ocr_service/ocr_vl/io_utils.py):
    recognising URLs, scanning a directory for images, and turning a
    reference into a local path. The filesystem and the network are oracles. */
module IoUtils {
  import opened Wrappers
  import opened Text
  import opened Ordering
  import opened Paths
  import opened Paddle
  import Config

  /** One requested image: an optional id and a local path or URL. */
  datatype ImageInput = ImageInput(id: Option<string>, path: string)

  /** The filesystem as the core observes it:
      - `dirs`: for every directory, its entry names in the order the
        operating system lists them;
      - `files`: the regular files;
      - `statErrors`: paths whose `stat` fails with an error other than "does
        not exist" (a `PermissionError` from an unsearchable parent, say),
        which `is_dir()` and `is_file()` raise again;
      - `listErrors`: directories whose listing raises (a `PermissionError`
        for a directory that cannot be read, say). */
  datatype FileSystem = FileSystem(
    dirs: map<PurePath, seq<Part>>,
    files: set<PurePath>,
    statErrors: map<PurePath, PyError>,
    listErrors: map<PurePath, PyError>)

  /** The network and temporary-file oracles behind `download_to_local`:
      - `fetch`: whether `requests.get(url)` followed by `raise_for_status()`
        succeeds;
      - `store`: whether `mkstemp` with the URL's suffix and the write of the
        body succeed (a suffix too long for a file name raises `OSError` here);
      - the temporary directory, and the random part `mkstemp` picks. */
  datatype Network = Network(fetch: string -> Outcome<PyError>, store: string -> Outcome<PyError>, tempDir: string, tempName: string -> string)

  /** `is_http_url` */
  predicate IsHttpUrl(path: string) {
    StartsWith(path, "http://") || StartsWith(path, "https://")
  }

  /** A reference is a URL exactly when it is one of the two schemes followed
      by anything; the comparison is case-sensitive. */
  lemma IsHttpUrlSpec(path: string)
    ensures IsHttpUrl(path) <==> exists rest :: path == "http://" + rest || path == "https://" + rest
  {
    if StartsWith(path, "http://") {
      assert path == "http://" + path[7..];
    } else if StartsWith(path, "https://") {
      assert path == "https://" + path[8..];
    }
    if exists rest :: path == "http://" + rest || path == "https://" + rest {
      var rest :| path == "http://" + rest || path == "https://" + rest;
      if path == "http://" + rest {
        assert path[..7] == "http://";
      } else {
        assert path[..8] == "https://";
      }
    }
  }

  /** The scheme is compared case-sensitively: a reference whose first four
      characters are not exactly `http`, such as `HTTP://…`, is local. */
  lemma SchemeIsCaseSensitive(path: string)
    ensures IsHttpUrl(path) ==> |path| >= 7 && path[..4] == "http"
  {
    if StartsWith(path, "http://") {
      assert path[..4] == path[..7][..4];
    } else if StartsWith(path, "https://") {
      assert path[..4] == path[..8][..4];
    }
  }

  /** `f.is_file() and f.suffix.lower() in IMAGE_EXTS` */
  predicate IsImageFile(fs: FileSystem, f: PurePath) {
    f in fs.files && Lower(Suffix(Name(f))) in Config.IMAGE_EXTS
  }

  /** Every configured extension is already lower case, so the lower-cased
      suffix of a file name is compared against exactly these strings. */
  lemma ImageExtsAreLower()
    ensures forall e :: e in Config.IMAGE_EXTS ==> Lower(e) == e
  {
    forall e | e in Config.IMAGE_EXTS ensures Lower(e) == e {
      LowerOfLowerCase(e);
    }
  }

  /** `p.iterdir()` for a directory listed with `names`: one entry per name,
      each a path directly inside `p` whose `name` is that entry's name, so
      distinct names give distinct paths. */
  function Children(p: PurePath, names: seq<Part>): (r: seq<PurePath>)
    ensures |r| == |names|
    ensures forall i :: 0 <= i < |names| ==> r[i] == Child(p, names[i])
    ensures forall i :: 0 <= i < |r| ==>
      r[i].absolute == p.absolute && |r[i].parts| == |p.parts| + 1 && r[i].parts[..|p.parts|] == p.parts
    ensures forall i :: 0 <= i < |r| ==> Name(r[i]) == names[i]
    ensures forall i, j :: 0 <= i < |r| && 0 <= j < |r| && names[i] != names[j] ==> r[i] != r[j]
  {
    seq(|names|, i requires 0 <= i < |names| => Child(p, names[i]))
  }

  /** The image files among `paths`, in their original order. */
  function KeepImageFiles(paths: seq<PurePath>, fs: FileSystem): (r: seq<PurePath>)
    ensures forall f :: f in r <==> f in paths && IsImageFile(fs, f)
    decreases |paths|
  {
    if |paths| == 0 then []
    else
      var rest := KeepImageFiles(paths[1..], fs);
      assert paths == [paths[0]] + paths[1..];
      if IsImageFile(fs, paths[0]) then [paths[0]] + rest else rest
  }

  /** Filtering keeps every image file as often as it occurs and drops every
      other path. */
  lemma {:induction false} KeepImageFilesCounts(paths: seq<PurePath>, fs: FileSystem)
    ensures forall f :: multiset(KeepImageFiles(paths, fs))[f] == if IsImageFile(fs, f) then multiset(paths)[f] else 0
    decreases |paths|
  {
    if |paths| > 0 {
      KeepImageFilesCounts(paths[1..], fs);
      assert paths == [paths[0]] + paths[1..];
      assert multiset(paths) == multiset{paths[0]} + multiset(paths[1..]);
    }
  }

  /** Filtering keeps the order of what it keeps. */
  lemma {:induction false} KeepImageFilesSorted(paths: seq<PurePath>, fs: FileSystem)
    requires Sorted(paths, PathLess)
    ensures Sorted(KeepImageFiles(paths, fs), PathLess)
    decreases |paths|
  {
    if |paths| > 0 {
      KeepImageFilesSorted(paths[1..], fs);
      var rest := KeepImageFiles(paths[1..], fs);
      forall j | 0 <= j < |rest| ensures !PathLess(rest[j], paths[0]) {
        assert rest[j] in rest;
        var k :| 0 <= k < |paths| - 1 && paths[1..][k] == rest[j];
        assert paths[k + 1] == rest[j];
      }
    }
  }

  /** The entry `list_images_in_dir` produces for an image file. */
  function ImageInputOf(f: PurePath): ImageInput {
    ImageInput(Some(Stem(Name(f))), Render(f))
  }

  function ImageInputs(files: seq<PurePath>): (r: seq<ImageInput>)
    ensures |r| == |files|
    ensures forall i :: 0 <= i < |files| ==> r[i] == ImageInputOf(files[i])
    ensures forall i :: 0 <= i < |files| ==> Parse(r[i].path) == files[i]
  {
    forall f: PurePath ensures Parse(Render(f)) == f {
      ParseRender(f);
    }
    seq(|files|, i requires 0 <= i < |files| => ImageInputOf(files[i]))
  }

  /** The directory entries in `sorted(p.iterdir())` order: a permutation of
      the listing. */
  function SortedEntries(p: PurePath, fs: FileSystem): (r: seq<PurePath>)
    requires p in fs.dirs
    ensures Sorted(r, PathLess)
    ensures multiset(r) == multiset(Children(p, fs.dirs[p]))
    ensures forall f :: f in r <==> f in Children(p, fs.dirs[p])
  {
    PathLessIsStrictTotal();
    Sort(Children(p, fs.dirs[p]), PathLess)
  }

  /** The entries `list_images_in_dir` returns for an existing directory. */
  function DirImages(p: PurePath, fs: FileSystem): (r: seq<ImageInput>)
    requires p in fs.dirs
    ensures forall i :: 0 <= i < |r| ==> r[i].id == Some(PathStem(r[i].path))
  {
    ImageInputs(KeepImageFiles(SortedEntries(p, fs), fs))
  }

  /** Every listed entry is an image file of the directory. */
  lemma DirImagesSound(p: PurePath, fs: FileSystem)
    requires p in fs.dirs
    ensures forall i :: 0 <= i < |DirImages(p, fs)| ==>
      Parse(DirImages(p, fs)[i].path) in Children(p, fs.dirs[p]) && IsImageFile(fs, Parse(DirImages(p, fs)[i].path))
  {
    var files := KeepImageFiles(SortedEntries(p, fs), fs);
    assert forall i :: 0 <= i < |files| ==> files[i] in files;
  }

  /** Every image file of the directory is listed. */
  lemma DirImagesComplete(p: PurePath, fs: FileSystem)
    requires p in fs.dirs
    ensures forall n :: n in fs.dirs[p] && IsImageFile(fs, Child(p, n)) ==> ImageInputOf(Child(p, n)) in DirImages(p, fs)
  {
    var files := KeepImageFiles(SortedEntries(p, fs), fs);
    var images := DirImages(p, fs);
    forall n | n in fs.dirs[p] && IsImageFile(fs, Child(p, n)) ensures ImageInputOf(Child(p, n)) in images {
      var k :| 0 <= k < |fs.dirs[p]| && fs.dirs[p][k] == n;
      assert Children(p, fs.dirs[p])[k] == Child(p, n);
      assert Child(p, n) in files;
      var m :| 0 <= m < |files| && files[m] == Child(p, n);
      assert images[m] == ImageInputOf(Child(p, n));
    }
  }

  /** The listing follows sorted path order. */
  lemma DirImagesSorted(p: PurePath, fs: FileSystem)
    requires p in fs.dirs
    ensures forall i, j :: 0 <= i < j < |DirImages(p, fs)| ==>
      !PathLess(Parse(DirImages(p, fs)[j].path), Parse(DirImages(p, fs)[i].path))
  {
    KeepImageFilesSorted(SortedEntries(p, fs), fs);
  }

  /** A listing with distinct names, as an operating system gives, yields
      image files in strictly increasing path order: no file twice. */
  lemma DirImagesStrictlySorted(p: PurePath, fs: FileSystem)
    requires p in fs.dirs
    requires Distinct(fs.dirs[p])
    ensures forall i, j :: 0 <= i < j < |DirImages(p, fs)| ==>
      PathLess(Parse(DirImages(p, fs)[i].path), Parse(DirImages(p, fs)[j].path))
  {
    var children := Children(p, fs.dirs[p]);
    assert Distinct(children);
    DistinctIffSingleCounts(children);
    var entries := SortedEntries(p, fs);
    assert forall x :: multiset(entries)[x] <= 1;
    DistinctIffSingleCounts(entries);
    var files := KeepImageFiles(entries, fs);
    KeepImageFilesCounts(entries, fs);
    assert Distinct(files) by {
      forall x ensures multiset(files)[x] <= 1 {
        assert multiset(files)[x] <= multiset(entries)[x];
      }
      DistinctIffSingleCounts(files);
    }
    KeepImageFilesSorted(entries, fs);
    PathLessIsStrictTotal();
    SortedDistinctIsStrict(files, PathLess);
    assert DirImages(p, fs) == ImageInputs(files);
  }

  /** The index of the first of `paths` whose `is_file()` raises, or `|paths|`. */
  function FirstStatError(paths: seq<PurePath>, fs: FileSystem): (i: nat)
    ensures i <= |paths|
    ensures forall k :: 0 <= k < i ==> paths[k] !in fs.statErrors
    ensures i < |paths| ==> paths[i] in fs.statErrors
    decreases |paths|
  {
    if |paths| == 0 || paths[0] in fs.statErrors then 0
    else
      var i := FirstStatError(paths[1..], fs);
      assert forall k :: 1 <= k < |paths| ==> paths[k] == paths[1..][k - 1];
      1 + i
  }

  /** Whether `is_file()` can be asked of every entry of directory `p`. */
  predicate EntriesStatable(p: PurePath, fs: FileSystem)
    requires p in fs.dirs
  {
    forall n :: n in fs.dirs[p] ==> Child(p, n) !in fs.statErrors
  }

  /** The scan of an existing, readable directory: `is_file()` is asked of
      every entry in sorted order, and the first one that raises ends it. */
  function ScanDir(p: PurePath, fs: FileSystem): (r: Result<seq<ImageInput>, PyError>)
    requires p in fs.dirs
    ensures r.Success? <==> EntriesStatable(p, fs)
    ensures r.Success? ==> r.value == DirImages(p, fs)
    ensures r.Failure? ==> exists n :: n in fs.dirs[p] && Child(p, n) in fs.statErrors && r.error == fs.statErrors[Child(p, n)]
  {
    var entries := SortedEntries(p, fs);
    var k := FirstStatError(entries, fs);
    if k < |entries| then
      assert entries[k] in Children(p, fs.dirs[p]);
      Failure(fs.statErrors[entries[k]])
    else
      assert forall f :: f in entries ==> f !in fs.statErrors;
      assert EntriesStatable(p, fs) by {
        forall n | n in fs.dirs[p] ensures Child(p, n) !in fs.statErrors {
          var m :| 0 <= m < |fs.dirs[p]| && fs.dirs[p][m] == n;
          assert Children(p, fs.dirs[p])[m] == Child(p, n);
        }
      }
      Success(DirImages(p, fs))
  }

  /** `list_images_in_dir`: the image files directly inside `dirPath`, in
      sorted path order, each with its stem as id and its rendered path; a
      path that is not a directory raises `FileNotFoundError`, and a failing
      `is_dir()`, listing or `is_file()` raises its own error. */
  function ListImagesInDir(dirPath: string, fs: FileSystem): (r: Result<seq<ImageInput>, PyError>)
    ensures r.Success? <==>
      && Parse(dirPath) !in fs.statErrors && Parse(dirPath) in fs.dirs && Parse(dirPath) !in fs.listErrors
      && EntriesStatable(Parse(dirPath), fs)
    ensures Parse(dirPath) in fs.statErrors ==> r == Failure(fs.statErrors[Parse(dirPath)])
    ensures Parse(dirPath) !in fs.statErrors && Parse(dirPath) !in fs.dirs ==>
      r == Failure(PyError(FileNotFoundError, "dir_path is not a directory: " + dirPath))
    ensures Parse(dirPath) !in fs.statErrors && Parse(dirPath) in fs.dirs && Parse(dirPath) in fs.listErrors ==>
      r == Failure(fs.listErrors[Parse(dirPath)])
    ensures r.Failure? && Parse(dirPath) !in fs.statErrors && Parse(dirPath) in fs.dirs && Parse(dirPath) !in fs.listErrors ==>
      exists n :: n in fs.dirs[Parse(dirPath)] && Child(Parse(dirPath), n) in fs.statErrors &&
        r.error == fs.statErrors[Child(Parse(dirPath), n)]
    ensures r.Success? ==> forall i :: 0 <= i < |r.value| ==>
      && r.value[i].id == Some(PathStem(r.value[i].path))
      && Parse(r.value[i].path) in Children(Parse(dirPath), fs.dirs[Parse(dirPath)])
      && IsImageFile(fs, Parse(r.value[i].path))
    ensures r.Success? ==> forall n :: n in fs.dirs[Parse(dirPath)] && IsImageFile(fs, Child(Parse(dirPath), n)) ==>
      ImageInputOf(Child(Parse(dirPath), n)) in r.value
    ensures r.Success? ==> forall i, j :: 0 <= i < j < |r.value| ==>
      !PathLess(Parse(r.value[j].path), Parse(r.value[i].path))
    ensures r.Success? && Distinct(fs.dirs[Parse(dirPath)]) ==> forall i, j :: 0 <= i < j < |r.value| ==>
      PathLess(Parse(r.value[i].path), Parse(r.value[j].path))
  {
    var p := Parse(dirPath);
    if p in fs.statErrors then Failure(fs.statErrors[p])
    else if p !in fs.dirs then
      Failure(PyError(FileNotFoundError, "dir_path is not a directory: " + dirPath))
    else if p in fs.listErrors then Failure(fs.listErrors[p])
    else
      DirImagesSound(p, fs);
      DirImagesComplete(p, fs);
      DirImagesSorted(p, fs);
      assert Distinct(fs.dirs[p]) ==> forall i, j :: 0 <= i < j < |DirImages(p, fs)| ==>
        PathLess(Parse(DirImages(p, fs)[i].path), Parse(DirImages(p, fs)[j].path)) by {
        if Distinct(fs.dirs[p]) {
          DirImagesStrictlySorted(p, fs);
        }
      }
      ScanDir(p, fs)
  }

  /** The suffix `download_to_local` gives its temporary file: the URL's own
      suffix, or ".png" when the URL has none. */
  function DownloadSuffix(url: string): (r: string)
    ensures |r| >= 2 && r[0] == '.'
    ensures PathSuffix(url) != "" ==> r == PathSuffix(url)
    ensures PathSuffix(url) == "" ==> r == ".png"
  {
    var s := PathSuffix(url);
    if s != "" then s else ".png"
  }

  /** `download_to_local`: fetch `url` and store the body in a fresh temporary
      file, returning that file's path; a failed fetch propagates, and so does
      a failure to create or write the file, which is only attempted after a
      successful fetch. */
  function DownloadToLocal(url: string, net: Network): (r: Result<string, PyError>)
    ensures r.Failure? <==> net.fetch(url).Fail? || net.store(url).Fail?
    ensures net.fetch(url).Fail? ==> r == Failure(net.fetch(url).error)
    ensures net.fetch(url).Pass? && net.store(url).Fail? ==> r == Failure(net.store(url).error)
    ensures r.Success? ==> StartsWith(r.value, net.tempDir + "/" + Config.TMP_PREFIX)
    ensures r.Success? ==>
      |r.value| >= |DownloadSuffix(url)| && r.value[|r.value| - |DownloadSuffix(url)|..] == DownloadSuffix(url)
  {
    match net.fetch(url)
    case Fail(e) => Failure(e)
    case Pass =>
      if net.store(url).Fail? then Failure(net.store(url).error) else
      var head := net.tempDir + "/" + Config.TMP_PREFIX;
      var suffix := DownloadSuffix(url);
      var path := head + net.tempName(url) + suffix;
      assert path[..|head|] == head;
      assert path[|path| - |suffix|..] == suffix;
      Success(path)
  }

  /** `ensure_local_path`: a URL is downloaded, anything else is already a
      local path and is returned as it is. */
  function EnsureLocalPath(path: string, net: Network): (r: Result<string, PyError>)
    ensures !IsHttpUrl(path) ==> r == Success(path)
    ensures IsHttpUrl(path) ==> r == DownloadToLocal(path, net)
  {
    if IsHttpUrl(path) then DownloadToLocal(path, net) else Success(path)
  }

  /** A local path never touches the network: its resolution is the same
      whatever the network would do. */
  lemma EnsureLocalPathOffline(path: string, net1: Network, net2: Network)
    requires !IsHttpUrl(path)
    ensures EnsureLocalPath(path, net1) == EnsureLocalPath(path, net2) == Success(path)
  {
  }
}
