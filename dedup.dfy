/**
 * The comparison pass of `run_api`: for each common relative path, hash the left and the
 * right copy; record the pair when the digests differ, remove the left copy otherwise.
 * The filesystem is a map from paths to file contents.
 */
module Dedup {
  import opened Paths
  import opened Hashing

  type Files = map<Path, Bytes>

  /** The files on disk; `os.remove` is the only change the program makes to them. */
  class FileSystem {
    var files: Files

    constructor (files: Files)
      ensures this.files == files
    {
      this.files := files;
    }

    /** `os.remove(path)` on a file that exists. */
    method Remove(path: Path)
      requires path in files
      modifies this
      ensures files == old(files) - {path}
    {
      files := files - {path};
    }
  }

  /** `hash_file(path)`: `None` when the file cannot be opened, which aborts the run. */
  method HashPath(fs: FileSystem, path: Path, digest: Bytes -> Fingerprint) returns (h: Option<Fingerprint>)
    ensures path in fs.files <==> h.Some?
    ensures h.Some? ==> h.value == digest(fs.files[path])
  {
    if path !in fs.files {
      return None;
    }
    var d, _, _ := HashFile(fs.files[path], digest);
    h := Some(d);
  }

  datatype Option<T> = None | Some(value: T)

  /** `[filepathLeft, filepathRight]` */
  datatype Pair = Pair(left: Path, right: Path)

  /** How the pass ends: every path compared, or stopped at a file that cannot be read. */
  datatype Outcome = Done(different: seq<Pair>) | Aborted(missing: Path)

  /** The outcome of the pass and the files left behind. */
  datatype Run = Run(outcome: Outcome, files: Files)

  function Prepend(p: Pair, o: Outcome): Outcome {
    match o
    case Done(ps) => Done([p] + ps)
    case Aborted(m) => o
  }

  /** The pass on `rels` in order, each step seeing the files the earlier steps left. */
  function DiffRun(files: Files, dir1: Path, dir2: Path, rels: seq<Path>, digest: Bytes -> Fingerprint): Run
    decreases |rels|
  {
    if rels == [] then Run(Done([]), files)
    else
      var left, right := Join(dir1, rels[0]), Join(dir2, rels[0]);
      if left !in files then Run(Aborted(left), files)
      else if right !in files then Run(Aborted(right), files)
      else if digest(files[left]) != digest(files[right]) then
        var rest := DiffRun(files, dir1, dir2, rels[1..], digest);
        Run(Prepend(Pair(left, right), rest.outcome), rest.files)
      else
        DiffRun(files - {left}, dir1, dir2, rels[1..], digest)
  }

  /**
   * Whatever the paths, the pass only ever removes files, only left copies of the paths it
   * visits, never changes a file it keeps, and reports at most one pair per path.
   */
  lemma {:induction false} DiffRunFrame(files: Files, dir1: Path, dir2: Path, rels: seq<Path>, digest: Bytes -> Fingerprint)
    ensures var run := DiffRun(files, dir1, dir2, rels, digest);
      && run.files.Keys <= files.Keys
      && (forall p :: p in run.files ==> run.files[p] == files[p])
      && (forall p :: p in files && p !in run.files ==> exists r :: r in rels && p == Join(dir1, r))
      && (run.outcome.Done? ==> |run.outcome.different| <= |rels|)
    decreases |rels|
  {
    if rels != [] {
      var left, right := Join(dir1, rels[0]), Join(dir2, rels[0]);
      if left in files && right in files {
        var next := if digest(files[left]) != digest(files[right]) then files else files - {left};
        DiffRunFrame(next, dir1, dir2, rels[1..], digest);
        assert forall r :: r in rels[1..] ==> r in rels;
        assert rels[0] in rels;
      }
    }
  }

  /** The pairs found so far, put in front of what the rest of the pass finds. */
  function Resume(found: seq<Pair>, rest: Run): Run {
    match rest.outcome
    case Done(ps) => Run(Done(found + ps), rest.files)
    case Aborted(m) => rest
  }

  /**
   * The loop of `run_api` over `relativePathsCommonFiles`: what it returns and what it
   * leaves on disk are those of `DiffRun` on the files it started with.
   */
  method DiffPass(fs: FileSystem, dir1: Path, dir2: Path, rels: seq<Path>, digest: Bytes -> Fingerprint)
    returns (outcome: Outcome)
    modifies fs
    ensures Run(outcome, fs.files) == DiffRun(old(fs.files), dir1, dir2, rels, digest)
  {
    var filesDifferent: seq<Pair> := [];
    var i := 0;
    while i < |rels|
      invariant 0 <= i <= |rels|
      invariant DiffRun(old(fs.files), dir1, dir2, rels, digest)
             == Resume(filesDifferent, DiffRun(fs.files, dir1, dir2, rels[i..], digest))
      decreases |rels| - i
    {
      var filepath := rels[i];
      assert rels[i..][0] == filepath && rels[i..][1..] == rels[i + 1..];
      var filepathLeft := Join(dir1, filepath);
      var hashLeft := HashPath(fs, filepathLeft, digest);
      if hashLeft.None? {
        return Aborted(filepathLeft);
      }
      var filepathRight := Join(dir2, filepath);
      var hashRight := HashPath(fs, filepathRight, digest);
      if hashRight.None? {
        return Aborted(filepathRight);
      }
      if hashLeft.value != hashRight.value {
        filesDifferent := filesDifferent + [Pair(filepathLeft, filepathRight)];
      } else {
        fs.Remove(filepathLeft);
      }
      i := i + 1;
    }
    assert rels[i..] == [];
    outcome := Done(filesDifferent);
  }

  // ---------------------------------------------------------------------------
  // What the pass does, stated against the files it started with.

  /** No relative path twice, and no left path that is also a right path. */
  ghost predicate Separated(dir1: Path, dir2: Path, rels: seq<Path>) {
    && (forall i, j :: 0 <= i < j < |rels| ==> rels[i] != rels[j])
    && (forall i, j :: 0 <= i < |rels| && 0 <= j < |rels| ==> Join(dir1, rels[i]) != Join(dir2, rels[j]))
  }

  /** Both copies of every relative path exist. */
  ghost predicate AllPresent(files: Files, dir1: Path, dir2: Path, rels: seq<Path>) {
    forall r :: r in rels ==> Join(dir1, r) in files && Join(dir2, r) in files
  }

  ghost predicate Same(files: Files, dir1: Path, dir2: Path, r: Path, digest: Bytes -> Fingerprint)
    requires Join(dir1, r) in files && Join(dir2, r) in files
  {
    digest(files[Join(dir1, r)]) == digest(files[Join(dir2, r)])
  }

  /**
   * `[[dir1 + "/" + r, dir2 + "/" + r] for r in rels if digests differ]` on the files as
   * they were before the pass.
   */
  ghost function Differing(files: Files, dir1: Path, dir2: Path, rels: seq<Path>, digest: Bytes -> Fingerprint): (ps: seq<Pair>)
    requires AllPresent(files, dir1, dir2, rels)
    ensures |ps| <= |rels|
    ensures ps == [] <==> forall r :: r in rels ==> Same(files, dir1, dir2, r, digest)
    ensures forall p :: p in ps <==>
      exists r :: r in rels && p == Pair(Join(dir1, r), Join(dir2, r)) && !Same(files, dir1, dir2, r, digest)
    decreases |rels|
  {
    if rels == [] then []
    else
      var here := if Same(files, dir1, dir2, rels[0], digest) then []
                  else [Pair(Join(dir1, rels[0]), Join(dir2, rels[0]))];
      assert forall r :: r in rels <==> r == rels[0] || r in rels[1..];
      here + Differing(files, dir1, dir2, rels[1..], digest)
  }

  /** The left copies whose digests equal those of their right copies. */
  ghost function Duplicates(files: Files, dir1: Path, dir2: Path, rels: seq<Path>, digest: Bytes -> Fingerprint): (ds: set<Path>)
    requires AllPresent(files, dir1, dir2, rels)
    ensures forall p :: p in ds <==>
      exists r :: r in rels && p == Join(dir1, r) && Same(files, dir1, dir2, r, digest)
    decreases |rels|
  {
    if rels == [] then {}
    else
      var here := if Same(files, dir1, dir2, rels[0], digest) then {Join(dir1, rels[0])} else {};
      assert forall r :: r in rels <==> r == rels[0] || r in rels[1..];
      here + Duplicates(files, dir1, dir2, rels[1..], digest)
  }

  /** `path` is missing from both maps or holds the same contents in both. */
  ghost predicate SameAt(files: Files, other: Files, path: Path) {
    (path in files <==> path in other) && (path in files ==> files[path] == other[path])
  }

  /** Two file maps agree on both copies of every relative path. */
  ghost predicate Agree(files: Files, other: Files, dir1: Path, dir2: Path, rels: seq<Path>) {
    forall r :: r in rels ==> SameAt(files, other, Join(dir1, r)) && SameAt(files, other, Join(dir2, r))
  }

  /** The reference lists read the files only at the copies of the relative paths. */
  lemma {:induction false} AgreeSameResults(files: Files, other: Files, dir1: Path, dir2: Path, rels: seq<Path>, digest: Bytes -> Fingerprint)
    requires AllPresent(files, dir1, dir2, rels) && Agree(files, other, dir1, dir2, rels)
    ensures AllPresent(other, dir1, dir2, rels)
    ensures Differing(other, dir1, dir2, rels, digest) == Differing(files, dir1, dir2, rels, digest)
    ensures Duplicates(other, dir1, dir2, rels, digest) == Duplicates(files, dir1, dir2, rels, digest)
    decreases |rels|
  {
    assert AllPresent(other, dir1, dir2, rels) by {
      forall r | r in rels ensures Join(dir1, r) in other && Join(dir2, r) in other {
        assert SameAt(files, other, Join(dir1, r)) && SameAt(files, other, Join(dir2, r));
      }
    }
    if rels != [] {
      var r0 := rels[0];
      assert r0 in rels;
      assert SameAt(files, other, Join(dir1, r0)) && SameAt(files, other, Join(dir2, r0));
      assert Same(other, dir1, dir2, r0, digest) == Same(files, dir1, dir2, r0, digest);
      assert Agree(files, other, dir1, dir2, rels[1..]) by {
        forall r | r in rels[1..] ensures SameAt(files, other, Join(dir1, r)) && SameAt(files, other, Join(dir2, r)) {
          assert r in rels;
        }
      }
      assert AllPresent(files, dir1, dir2, rels[1..]) by {
        forall r | r in rels[1..] ensures Join(dir1, r) in files && Join(dir2, r) in files {
          assert r in rels;
        }
      }
      AgreeSameResults(files, other, dir1, dir2, rels[1..], digest);
    }
  }

  lemma SeparatedTail(dir1: Path, dir2: Path, rels: seq<Path>)
    requires rels != [] && Separated(dir1, dir2, rels)
    ensures Separated(dir1, dir2, rels[1..])
    ensures rels[0] !in rels[1..]
    ensures forall r :: r in rels[1..] ==> Join(dir1, r) != Join(dir1, rels[0]) && Join(dir2, r) != Join(dir1, rels[0])
  {
    var tail := rels[1..];
    forall r | r in tail ensures Join(dir1, r) != Join(dir1, rels[0]) && Join(dir2, r) != Join(dir1, rels[0]) {
      var j :| 0 <= j < |tail| && tail[j] == r;
      assert rels[j + 1] == r;
      if Join(dir1, r) == Join(dir1, rels[0]) {
        JoinInjective(dir1, r, rels[0]);
      }
    }
  }

  /** Both copies of every path exist exactly when those of the first and of the rest do. */
  lemma PresentSplit(files: Files, dir1: Path, dir2: Path, rels: seq<Path>)
    requires rels != []
    ensures AllPresent(files, dir1, dir2, rels)
        <==> Join(dir1, rels[0]) in files && Join(dir2, rels[0]) in files && AllPresent(files, dir1, dir2, rels[1..])
  {
    assert forall r :: r in rels <==> r == rels[0] || r in rels[1..];
  }

  /** Removing the first left copy leaves every copy the rest of the pass looks at alone. */
  lemma RemoveFirstLeft(files: Files, dir1: Path, dir2: Path, rels: seq<Path>)
    requires rels != [] && Separated(dir1, dir2, rels)
    ensures Agree(files, files - {Join(dir1, rels[0])}, dir1, dir2, rels[1..])
    ensures AllPresent(files - {Join(dir1, rels[0])}, dir1, dir2, rels[1..]) <==> AllPresent(files, dir1, dir2, rels[1..])
  {
    SeparatedTail(dir1, dir2, rels);
  }

  /** The first path differs: its pair goes in front of what the rest reports. */
  lemma DifferStep(files: Files, dir1: Path, dir2: Path, rels: seq<Path>, digest: Bytes -> Fingerprint)
    requires rels != [] && AllPresent(files, dir1, dir2, rels) && AllPresent(files, dir1, dir2, rels[1..])
    requires !Same(files, dir1, dir2, rels[0], digest)
    requires DiffRun(files, dir1, dir2, rels[1..], digest)
          == Run(Done(Differing(files, dir1, dir2, rels[1..], digest)), files - Duplicates(files, dir1, dir2, rels[1..], digest))
    ensures DiffRun(files, dir1, dir2, rels, digest)
         == Run(Done(Differing(files, dir1, dir2, rels, digest)), files - Duplicates(files, dir1, dir2, rels, digest))
  {
  }

  /** The first path is the same on both sides: its left copy goes, the rest runs on what is left. */
  lemma SameStep(files: Files, dir1: Path, dir2: Path, rels: seq<Path>, digest: Bytes -> Fingerprint)
    requires rels != [] && AllPresent(files, dir1, dir2, rels) && AllPresent(files, dir1, dir2, rels[1..])
    requires Same(files, dir1, dir2, rels[0], digest)
    requires var files' := files - {Join(dir1, rels[0])};
      && AllPresent(files', dir1, dir2, rels[1..])
      && Differing(files', dir1, dir2, rels[1..], digest) == Differing(files, dir1, dir2, rels[1..], digest)
      && Duplicates(files', dir1, dir2, rels[1..], digest) == Duplicates(files, dir1, dir2, rels[1..], digest)
      && DiffRun(files', dir1, dir2, rels[1..], digest)
         == Run(Done(Differing(files', dir1, dir2, rels[1..], digest)), files' - Duplicates(files', dir1, dir2, rels[1..], digest))
    ensures DiffRun(files, dir1, dir2, rels, digest)
         == Run(Done(Differing(files, dir1, dir2, rels, digest)), files - Duplicates(files, dir1, dir2, rels, digest))
  {
    var left := Join(dir1, rels[0]);
    var files' := files - {left};
    var dups := Duplicates(files, dir1, dir2, rels[1..], digest);
    assert Differing(files, dir1, dir2, rels, digest) == Differing(files, dir1, dir2, rels[1..], digest);
    assert Duplicates(files, dir1, dir2, rels, digest) == {left} + dups;
    assert files' - dups == files - ({left} + dups);
  }

  /**
   * With distinct relative paths and no left path doubling as a right path, the pass
   * completes exactly when both copies of every path exist.
   */
  lemma {:induction false} DiffRunCompletes(files: Files, dir1: Path, dir2: Path, rels: seq<Path>, digest: Bytes -> Fingerprint)
    requires Separated(dir1, dir2, rels)
    ensures DiffRun(files, dir1, dir2, rels, digest).outcome.Done? <==> AllPresent(files, dir1, dir2, rels)
    decreases |rels|
  {
    if rels != [] {
      var left, right := Join(dir1, rels[0]), Join(dir2, rels[0]);
      SeparatedTail(dir1, dir2, rels);
      PresentSplit(files, dir1, dir2, rels);
      if left in files && right in files {
        if digest(files[left]) != digest(files[right]) {
          DiffRunCompletes(files, dir1, dir2, rels[1..], digest);
        } else {
          DiffRunCompletes(files - {left}, dir1, dir2, rels[1..], digest);
          RemoveFirstLeft(files, dir1, dir2, rels);
        }
      }
    }
  }

  /**
   * When both copies of every path exist, the pass reports the pairs that differ on the
   * original files, in the order of `rels`, and leaves the files minus the left copies of
   * the pairs that were the same.
   */
  lemma {:induction false} DiffRunResult(files: Files, dir1: Path, dir2: Path, rels: seq<Path>, digest: Bytes -> Fingerprint)
    requires Separated(dir1, dir2, rels) && AllPresent(files, dir1, dir2, rels)
    ensures DiffRun(files, dir1, dir2, rels, digest)
         == Run(Done(Differing(files, dir1, dir2, rels, digest)), files - Duplicates(files, dir1, dir2, rels, digest))
    decreases |rels|
  {
    if rels != [] {
      var tail := rels[1..];
      SeparatedTail(dir1, dir2, rels);
      PresentSplit(files, dir1, dir2, rels);
      if !Same(files, dir1, dir2, rels[0], digest) {
        DiffRunResult(files, dir1, dir2, tail, digest);
        DifferStep(files, dir1, dir2, rels, digest);
      } else {
        var files' := files - {Join(dir1, rels[0])};
        RemoveFirstLeft(files, dir1, dir2, rels);
        AgreeSameResults(files, files', dir1, dir2, tail, digest);
        DiffRunResult(files', dir1, dir2, tail, digest);
        SameStep(files, dir1, dir2, rels, digest);
      }
    }
  }

  /**
   * After a completed pass, the left copy of a common path is gone exactly when the two
   * copies had equal digests; its right copy and every other file are as they were.
   */
  lemma PassEffect(files: Files, dir1: Path, dir2: Path, rels: seq<Path>, digest: Bytes -> Fingerprint)
    requires Separated(dir1, dir2, rels) && AllPresent(files, dir1, dir2, rels)
    ensures DiffRun(files, dir1, dir2, rels, digest).outcome.Done?
    ensures var after := DiffRun(files, dir1, dir2, rels, digest).files;
      && (forall r :: r in rels ==> (Join(dir1, r) !in after <==> Same(files, dir1, dir2, r, digest)))
      && (forall r :: r in rels ==> Join(dir2, r) in after && after[Join(dir2, r)] == files[Join(dir2, r)])
      && (forall p :: p in files && (forall r :: r in rels ==> p != Join(dir1, r)) ==> p in after && after[p] == files[p])
      && after.Keys <= files.Keys
  {
    DiffRunResult(files, dir1, dir2, rels, digest);
    var dups := Duplicates(files, dir1, dir2, rels, digest);
    forall r | r in rels ensures Join(dir1, r) !in files - dups <==> Same(files, dir1, dir2, r, digest) {
      if Join(dir1, r) in dups {
        var r' :| r' in rels && Join(dir1, r) == Join(dir1, r') && Same(files, dir1, dir2, r', digest);
        JoinInjective(dir1, r, r');
      }
    }
  }

  /** When every common pair has equal contents, the pass reports nothing. */
  lemma IdenticalCopiesNoPairs(files: Files, dir1: Path, dir2: Path, rels: seq<Path>, digest: Bytes -> Fingerprint)
    requires Separated(dir1, dir2, rels) && AllPresent(files, dir1, dir2, rels)
    requires forall r :: r in rels ==> files[Join(dir1, r)] == files[Join(dir2, r)]
    ensures DiffRun(files, dir1, dir2, rels, digest).outcome == Done([])
  {
    DiffRunResult(files, dir1, dir2, rels, digest);

  }

  /**
   * Without the separation, the right copy is not safe: with the same directory on both
   * sides, every common file is its own "duplicate" and is removed.
   */
  lemma SameRootRemovesRightCopy(digest: Bytes -> Fingerprint)
    ensures var run := DiffRun(map["d/f" := [7]], "d", "d", ["f"], digest);
      run.outcome == Done([]) && "d/f" !in run.files
  {
    assert Join("d", "f") == "d/f";
    assert ["f"][1..] == [];
  }
}
