/**
 * `run_api`: checks both roots, gathers the unique and the common files, turns the common
 * files into paths relative to the left root, runs the comparison pass and decides whether
 * a difference was found.
 */
module CompareDir {
  import opened Order
  import opened Paths
  import opened Tree
  import opened Hashing
  import opened Dedup

  /** `[filename[len(dir1)+1:] for filename in commonFiles]`, built by appending. */
  method RelativePaths(dir1: Path, commonFiles: seq<Path>) returns (rels: seq<Path>)
    ensures |rels| == |commonFiles|
    ensures forall i :: 0 <= i < |rels| && Under(dir1, commonFiles[i]) ==> Join(dir1, rels[i]) == commonFiles[i]
    ensures forall i :: 0 <= i < |rels| ==> rels[i] == Strip(dir1, commonFiles[i])
  {
    rels := [];
    var i := 0;
    while i < |commonFiles|
      invariant 0 <= i <= |commonFiles|
      invariant |rels| == i
      invariant forall j :: 0 <= j < i ==> rels[j] == Strip(dir1, commonFiles[j])
      invariant forall j :: 0 <= j < i && Under(dir1, commonFiles[j]) ==> Join(dir1, rels[j]) == commonFiles[j]
      decreases |commonFiles| - i
    {
      var filename := commonFiles[i];
      if Under(dir1, filename) {
        JoinStrip(dir1, filename);
      }
      rels := rels + [Strip(dir1, filename)];
      i := i + 1;
    }
  }

  /** The test before "NO DIFFERENCE FOUND": the three lists have no element between them. */
  function NoDifference(different: seq<Pair>, uniqueLeft: seq<Path>, uniqueRight: seq<Path>): (none: bool)
    ensures none <==> different == [] && uniqueLeft == [] && uniqueRight == []
  {
    |different| + |uniqueLeft| + |uniqueRight| == 0
  }

  /** What a completed run reports. */
  datatype Report = Report(
    uniqueLeft: seq<Path>,
    uniqueRight: seq<Path>,
    different: seq<Pair>,
    noDifference: bool)

  /** How a run ends: a root that is not a directory, a file that could not be read, or a report. */
  datatype ApiResult = NotADirectory(dir: Path) | Stopped(missing: Path) | Finished(report: Report)

  /**
   * `run_api(dir1, dir2)` on the comparison tree `dcmp` that `dircmp` builds for the two
   * roots. `isDir` answers `os.path.isdir`. The unique lists are sorted and hold exactly
   * the unique paths of that tree; `common` is the sorted list of common files of the tree
   * rebuilt with `+ "/" +`, and `rels` their paths relative to `dir1`, from which the left
   * paths are rebuilt exactly; the pass and the files left behind are those of `DiffRun`,
   * and "no difference" is reported exactly when all three lists are empty.
   */
  method RunApi(fs: FileSystem, dir1: Path, dir2: Path, isDir: Path -> bool, dcmp: DirCmp, digest: Bytes -> Fingerprint)
    returns (result: ApiResult, ghost common: seq<Path>, ghost rels: seq<Path>)
    requires Stored(dcmp) && dcmp.left == dir1 && dcmp.right == dir2
    modifies fs
    ensures !isDir(dir1) ==> result == NotADirectory(dir1) && fs.files == old(fs.files)
    ensures isDir(dir1) && !isDir(dir2) ==> result == NotADirectory(dir2) && fs.files == old(fs.files)
    ensures isDir(dir1) && isDir(dir2) ==>
      && Sorted(common) && multiset(common) == Flattened(Rebuild(dcmp, dir1, dir2), CommonFiles)
      && Sorted(rels) && |rels| == |common|
      && (forall i :: 0 <= i < |rels| ==> Join(dir1, rels[i]) == common[i])
      && match DiffRun(old(fs.files), dir1, dir2, rels, digest)
         case Run(Aborted(m), after) => result == Stopped(m) && fs.files == after
         case Run(Done(ps), after) =>
           && result.Finished? && fs.files == after
           && result.report.different == ps
           && Sorted(result.report.uniqueLeft) && multiset(result.report.uniqueLeft) == Flattened(dcmp, LeftOnly)
           && Sorted(result.report.uniqueRight) && multiset(result.report.uniqueRight) == Flattened(dcmp, RightOnly)
           && (result.report.noDifference
               <==> ps == [] && result.report.uniqueLeft == [] && result.report.uniqueRight == [])
  {
    common, rels := [], [];
    if !isDir(dir1) {
      return NotADirectory(dir1), common, rels;
    }
    if !isDir(dir2) {
      return NotADirectory(dir2), common, rels;
    }
    var uniqueLeft, uniqueRight := FindUniqueFiles(dcmp);
    var rebuilt := Rebuild(dcmp, dir1, dir2);
    RebuildValid(dcmp, dir1, dir2);
    var commonFiles := BuildCommonFiles(rebuilt);
    common := commonFiles;
    forall i | 0 <= i < |commonFiles| ensures Under(dir1, commonFiles[i]) {
      assert commonFiles[i] in multiset(commonFiles);
      CommonFilesUnderLeft(rebuilt, commonFiles[i]);
    }
    var relativePaths := RelativePaths(dir1, commonFiles);
    rels := relativePaths;
    StripSorted(dir1, commonFiles);
    assert relativePaths == seq(|commonFiles|, i requires 0 <= i < |commonFiles| => Strip(dir1, commonFiles[i]));
    var outcome := DiffPass(fs, dir1, dir2, relativePaths, digest);
    match outcome
    case Aborted(m) =>
      result := Stopped(m);
    case Done(filesDifferent) =>
      var none := NoDifference(filesDifferent, uniqueLeft, uniqueRight);
      result := Finished(Report(uniqueLeft, uniqueRight, filesDifferent, none));
  }
}
