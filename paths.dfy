/** Paths as the program builds them: by string concatenation with "/". */
module Paths {
  import opened Order

  type Path = string

  /** `dir + "/" + name`, how every path in the program is built. */
  function Join(dir: Path, name: string): Path {
    dir + "/" + name
  }

  /**
   * `os.path.join(a, b)` on POSIX, how `dircmp` names the directories of its child
   * nodes: an absolute `b` replaces `a`, and no separator is added after an empty `a` or
   * one that already ends with "/".
   */
  function OsJoin(a: Path, b: string): Path {
    if |b| > 0 && b[0] == '/' then b
    else if a == [] || a[|a| - 1] == '/' then a + b
    else a + "/" + b
  }

  /** For a root without a trailing "/" and a relative name, both joins agree. */
  lemma OsJoinPlain(a: Path, b: string)
    requires a != [] && a[|a| - 1] != '/' && (b == [] || b[0] != '/')
    ensures OsJoin(a, b) == Join(a, b)
  {
  }

  /** For a root with a trailing "/" they do not: `os.path.join` adds no second separator. */
  lemma OsJoinTrailing()
    ensures OsJoin("a/", "s") == "a/s"
    ensures Join("a/", "s") == "a//s"
  {
    assert "a/"[1] == '/';
  }

  /** Python's `s[k:]`: the suffix from `k`, empty once `k` passes the end. */
  function Drop(s: string, k: nat): (r: string)
    ensures k <= |s| ==> |r| == |s| - k && s == s[..k] + r
    ensures k > |s| ==> r == []
  {
    if k <= |s| then s[k..] else []
  }

  /** `filename[len(dir1)+1:]`: removes the root and the separator after it. */
  function Strip(dir: Path, path: Path): Path {
    Drop(path, |dir| + 1)
  }

  /** `path` lies below `dir`: it starts with `dir + "/"`. */
  predicate Under(dir: Path, path: Path) {
    |dir| + 1 <= |path| && path[..|dir| + 1] == dir + "/"
  }

  lemma StripJoin(dir: Path, rel: Path)
    ensures Under(dir, Join(dir, rel))
    ensures Strip(dir, Join(dir, rel)) == rel
  {
    var p := Join(dir, rel);
    assert p[..|dir| + 1] == dir + "/";
    assert p[|dir| + 1..] == rel;
  }

  lemma JoinStrip(dir: Path, path: Path)
    requires Under(dir, path)
    ensures Join(dir, Strip(dir, path)) == path
  {
    assert path == path[..|dir| + 1] + path[|dir| + 1..];
  }

  lemma JoinInjective(dir: Path, a: string, b: string)
    requires Join(dir, a) == Join(dir, b)
    ensures a == b
  {
    StripJoin(dir, a);
    StripJoin(dir, b);
  }

  /** A path below `dir + "/" + name` is below `dir`. */
  lemma UnderJoin(dir: Path, name: string, path: Path)
    requires Under(Join(dir, name), path)
    ensures Under(dir, path)
  {
    var n := |dir| + 1;
    assert path[..n] == path[..|Join(dir, name)| + 1][..n];
    assert (Join(dir, name) + "/")[..n] == dir + "/";
  }

  /** Stripping the root from paths that all lie below it keeps them sorted. */
  lemma StripSorted(dir: Path, paths: seq<Path>)
    requires Sorted(paths)
    requires forall i :: 0 <= i < |paths| ==> Under(dir, paths[i])
    ensures Sorted(seq(|paths|, i requires 0 <= i < |paths| => Strip(dir, paths[i])))
  {
    var stripped := seq(|paths|, i requires 0 <= i < |paths| => Strip(dir, paths[i]));
    forall i, j | 0 <= i < j < |paths| ensures LexLeq(stripped[i], stripped[j]) {
      JoinStrip(dir, paths[i]);
      JoinStrip(dir, paths[j]);
      assert paths[i] == (dir + "/") + stripped[i];
      assert paths[j] == (dir + "/") + stripped[j];
      SortedAt(paths, i, j);
      LexLeqSharedPrefix(dir + "/", stripped[i], stripped[j]);
    }
    PairwiseSorted(stripped);
  }
}
