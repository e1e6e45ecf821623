/**
 * The directory-comparison tree (one `dircmp` node per directory level) and the two
 * walks over it: `find_unique_files` and `build_common_files`.
 */
module Tree {
  import opened Order
  import opened Paths

  /**
   * One level of the comparison: the two directories and how the names directly under
   * them were classified, with one child node per common subdirectory.
   */
  datatype DirCmp = DirCmp(
    left: Path,
    right: Path,
    leftOnly: set<string>,
    rightOnly: set<string>,
    commonFiles: set<string>,
    commonDirs: set<string>,
    subdirs: map<string, DirCmp>)

  /**
   * What the comparison guarantees of one node: a name is in at most one class, and
   * there is a child for exactly the common subdirectories.
   */
  ghost predicate Classified(node: DirCmp) {
    && node.leftOnly !! node.rightOnly
    && node.leftOnly !! node.commonFiles
    && node.leftOnly !! node.commonDirs
    && node.rightOnly !! node.commonFiles
    && node.rightOnly !! node.commonDirs
    && node.commonFiles !! node.commonDirs
    && node.subdirs.Keys == node.commonDirs
  }

  /**
   * The tree `dircmp` builds: every node classified, and the child for `k` compares
   * `os.path.join(left, k)` with `os.path.join(right, k)`.
   */
  ghost predicate Stored(node: DirCmp)
    decreases node
  {
    && Classified(node)
    && forall k :: k in node.subdirs ==>
         && node.subdirs[k].left == OsJoin(node.left, k)
         && node.subdirs[k].right == OsJoin(node.right, k)
         && Stored(node.subdirs[k])
  }

  /**
   * The tree `build_common_files` walks: every node classified, and the child for `k`
   * compares `left + "/" + k` with `right + "/" + k`, as the node rebuilt on each common
   * subdirectory does.
   */
  ghost predicate Valid(node: DirCmp)
    decreases node
  {
    && Classified(node)
    && forall k :: k in node.subdirs ==>
         && node.subdirs[k].left == Join(node.left, k)
         && node.subdirs[k].right == Join(node.right, k)
         && Valid(node.subdirs[k])
  }

  /**
   * `dircmp(left, right)` rebuilt level by level with `+ "/" +`: the same names as the
   * stored node, since both compare the same directories, under the rebuilt paths.
   */
  function Rebuild(node: DirCmp, left: Path, right: Path): DirCmp
    decreases node
  {
    DirCmp(left, right, node.leftOnly, node.rightOnly, node.commonFiles, node.commonDirs,
      map k | k in node.subdirs :: Rebuild(node.subdirs[k], Join(left, k), Join(right, k)))
  }

  /** Rebuilding a stored tree from any two roots gives a tree `build_common_files` can walk. */
  lemma {:induction false} RebuildValid(node: DirCmp, left: Path, right: Path)
    requires Stored(node)
    ensures Valid(Rebuild(node, left, right))
    decreases node
  {
    var r := Rebuild(node, left, right);
    forall k | k in r.subdirs
      ensures r.subdirs[k].left == Join(left, k) && r.subdirs[k].right == Join(right, k)
      ensures Valid(r.subdirs[k])
    {
      RebuildValid(node.subdirs[k], Join(left, k), Join(right, k));
    }
  }

  /** Every subdirectory name is a plain name, as `os.listdir` returns them: non-empty, no "/". */
  ghost predicate PlainNames(node: DirCmp)
    decreases node
  {
    forall k :: k in node.subdirs ==> k != [] && '/' !in k && PlainNames(node.subdirs[k])
  }

  /** A path that is non-empty and does not end with "/". */
  predicate NoTrailingSlash(p: Path) {
    p != [] && p[|p| - 1] != '/'
  }

  /**
   * With roots without a trailing "/" and plain names, rebuilding changes nothing: both
   * walks see the same tree. Otherwise the paths below the roots differ.
   */
  lemma {:induction false} RebuildStored(node: DirCmp)
    requires Stored(node) && PlainNames(node)
    requires NoTrailingSlash(node.left) && NoTrailingSlash(node.right)
    ensures Rebuild(node, node.left, node.right) == node
    decreases node
  {
    var r := Rebuild(node, node.left, node.right);
    forall k | k in node.subdirs ensures r.subdirs[k] == node.subdirs[k] {
      var c := node.subdirs[k];
      assert k[0] != '/' && k[|k| - 1] != '/' by {
        assert k[0] in k && k[|k| - 1] in k;
      }
      OsJoinPlain(node.left, k);
      OsJoinPlain(node.right, k);
      RebuildStored(c);
    }
    assert r.subdirs == node.subdirs;
  }

  /** The three lists the program gathers from a tree. */
  datatype Listing = LeftOnly | RightOnly | CommonFiles

  /** `{dir + "/" + n | n in names}` */
  ghost function Prefixed(dir: Path, names: set<string>): set<Path> {
    set n | n in names :: Join(dir, n)
  }

  /** The paths one node contributes to a listing. */
  ghost function Local(node: DirCmp, what: Listing): set<Path> {
    match what
    case LeftOnly => Prefixed(node.left, node.leftOnly)
    case RightOnly => Prefixed(node.right, node.rightOnly)
    case CommonFiles => Prefixed(node.left, node.commonFiles)
  }

  /** Everything a listing holds for the whole tree below `node`, with multiplicity. */
  ghost function Flattened(node: DirCmp, what: Listing): multiset<Path>
    decreases node, 1
  {
    multiset(Local(node, what)) + FlattenedUnder(node, what, node.subdirs.Keys)
  }

  /** Some element of a non-empty set of names, always the same one for the same set. */
  ghost function Pick(keys: set<string>): (k: string)
    requires keys != {}
    ensures k in keys
  {
    var k :| k in keys; k
  }

  /** The listing's paths for the children of `node` named in `keys`. */
  ghost function FlattenedUnder(node: DirCmp, what: Listing, keys: set<string>): multiset<Path>
    requires keys <= node.subdirs.Keys
    decreases node, 0, keys
  {
    if keys == {} then multiset{}
    else
      var k := Pick(keys);
      Flattened(node.subdirs[k], what) + FlattenedUnder(node, what, keys - {k})
  }

  /** The order in which the children are visited does not matter. */
  lemma {:induction false} FlattenedUnderPick(node: DirCmp, what: Listing, keys: set<string>, k: string)
    requires keys <= node.subdirs.Keys && k in keys
    ensures FlattenedUnder(node, what, keys)
         == Flattened(node.subdirs[k], what) + FlattenedUnder(node, what, keys - {k})
    decreases keys
  {
    var j := Pick(keys);
    if j != k {
      FlattenedUnderPick(node, what, keys - {j}, k);
      FlattenedUnderPick(node, what, keys - {k}, j);
      assert keys - {j} - {k} == keys - {k} - {j};
    }
  }

  /** Before any child is visited: the node's own paths. */
  lemma GatherStart(node: DirCmp, what: Listing, acc: seq<Path>)
    requires multiset(acc) == multiset(Local(node, what))
    ensures multiset(acc) + FlattenedUnder(node, what, node.subdirs.Keys) == Flattened(node, what)
  {
  }

  /** After every child is visited: the whole listing. */
  lemma GatherDone(node: DirCmp, what: Listing, acc: seq<Path>)
    requires multiset(acc) + FlattenedUnder(node, what, {}) == Flattened(node, what)
    ensures multiset(acc) == Flattened(node, what)
  {
  }

  /** One more child visited: its listing joins what has been gathered so far. */
  lemma GatherChild(node: DirCmp, what: Listing, rest: set<string>, k: string, acc: seq<Path>, sub: seq<Path>)
    requires rest <= node.subdirs.Keys && k in rest
    requires multiset(acc) + FlattenedUnder(node, what, rest) == Flattened(node, what)
    requires multiset(sub) == Flattened(node.subdirs[k], what)
    ensures multiset(acc + sub) + FlattenedUnder(node, what, rest - {k}) == Flattened(node, what)
  {
    FlattenedUnderPick(node, what, rest, k);
  }

  /** Adding one name adds exactly one path: the join with a fixed directory is injective. */
  lemma PrefixedAdd(dir: Path, names: set<string>, n: string)
    requires n !in names
    ensures multiset(Prefixed(dir, names + {n})) == multiset(Prefixed(dir, names)) + multiset{Join(dir, n)}
  {
    assert Prefixed(dir, names + {n}) == Prefixed(dir, names) + {Join(dir, n)};
    if Join(dir, n) in Prefixed(dir, names) {
      var m :| m in names && Join(dir, m) == Join(dir, n);
      JoinInjective(dir, m, n);
    }
  }

  /** `for n in names: acc.append(dir + "/" + n)`, the names taken in any order. */
  method AppendPrefixed(acc: seq<Path>, dir: Path, names: set<string>) returns (r: seq<Path>)
    ensures multiset(r) == multiset(acc) + multiset(Prefixed(dir, names))
  {
    r := acc;
    var rest := names;
    assert Prefixed(dir, names - rest) == {};
    while rest != {}
      invariant rest <= names
      invariant multiset(r) == multiset(acc) + multiset(Prefixed(dir, names - rest))
      decreases rest
    {
      var n :| n in rest;
      PrefixedAdd(dir, names - rest, n);
      assert names - (rest - {n}) == (names - rest) + {n};
      r := r + [Join(dir, n)];
      rest := rest - {n};
    }
  }

  /**
   * `find_unique_files`: the left-only and right-only paths of the whole tree, each list
   * sorted and holding exactly the paths the nodes contribute.
   */
  method FindUniqueFiles(node: DirCmp) returns (left: seq<Path>, right: seq<Path>)
    ensures Sorted(left) && multiset(left) == Flattened(node, LeftOnly)
    ensures Sorted(right) && multiset(right) == Flattened(node, RightOnly)
    decreases node
  {
    left, right := [], [];
    if |node.leftOnly| != 0 {
      left := AppendPrefixed(left, node.left, node.leftOnly);
    }
    if |node.rightOnly| != 0 {
      right := AppendPrefixed(right, node.right, node.rightOnly);
    }
    GatherStart(node, LeftOnly, left);
    GatherStart(node, RightOnly, right);
    var rest := node.subdirs.Keys;
    while rest != {}
      invariant rest <= node.subdirs.Keys
      invariant multiset(left) + FlattenedUnder(node, LeftOnly, rest) == Flattened(node, LeftOnly)
      invariant multiset(right) + FlattenedUnder(node, RightOnly, rest) == Flattened(node, RightOnly)
      decreases rest
    {
      var k :| k in rest;
      var subLeft, subRight := FindUniqueFiles(node.subdirs[k]);
      GatherChild(node, LeftOnly, rest, k, left, subLeft);
      GatherChild(node, RightOnly, rest, k, right, subRight);
      left := left + subLeft;
      right := right + subRight;
      rest := rest - {k};
    }
    GatherDone(node, LeftOnly, left);
    GatherDone(node, RightOnly, right);
    var sortedLeft, sortedRight := Sort(left), Sort(right);
    left, right := sortedLeft, sortedRight;
  }

  /**
   * `build_common_files`: the left-side paths of the common files of the whole tree,
   * sorted, holding exactly the paths the nodes contribute.
   */
  method BuildCommonFiles(node: DirCmp) returns (files: seq<Path>)
    requires Valid(node)
    ensures Sorted(files) && multiset(files) == Flattened(node, CommonFiles)
    decreases node
  {
    files := AppendPrefixed([], node.left, node.commonFiles);
    GatherStart(node, CommonFiles, files);
    var rest := node.commonDirs;
    while rest != {}
      invariant rest <= node.commonDirs
      invariant multiset(files) + FlattenedUnder(node, CommonFiles, rest) == Flattened(node, CommonFiles)
      decreases rest
    {
      var k :| k in rest;
      var subFiles := BuildCommonFiles(node.subdirs[k]);
      GatherChild(node, CommonFiles, rest, k, files, subFiles);
      files := files + subFiles;
      rest := rest - {k};
    }
    GatherDone(node, CommonFiles, files);
    var sorted := Sort(files);
    files := sorted;
  }

  /** `m` is `node` or a node below it. */
  ghost predicate Reaches(node: DirCmp, m: DirCmp)
    decreases node
  {
    node == m || exists k :: k in node.subdirs && Reaches(node.subdirs[k], m)
  }

  lemma {:induction false} FlattenedUnderMember(node: DirCmp, what: Listing, keys: set<string>, p: Path)
    requires keys <= node.subdirs.Keys
    ensures p in FlattenedUnder(node, what, keys)
        <==> exists k :: k in keys && p in Flattened(node.subdirs[k], what)
    decreases keys
  {
    if keys != {} {
      var k :| k in keys;
      FlattenedUnderPick(node, what, keys, k);
      FlattenedUnderMember(node, what, keys - {k}, p);
    }
  }

  /** A path is in a listing exactly when some node of the tree contributes it. */
  lemma {:induction false} FlattenedMember(node: DirCmp, what: Listing, p: Path)
    ensures p in Flattened(node, what) <==> exists m :: Reaches(node, m) && p in Local(m, what)
    decreases node
  {
    FlattenedUnderMember(node, what, node.subdirs.Keys, p);
    if p in Flattened(node, what) {
      if p !in Local(node, what) {
        var k :| k in node.subdirs && p in Flattened(node.subdirs[k], what);
        FlattenedMember(node.subdirs[k], what, p);
        var m :| Reaches(node.subdirs[k], m) && p in Local(m, what);
        assert Reaches(node, m);
      }
    } else {
      forall m | Reaches(node, m) ensures p !in Local(m, what) {
        if m != node {
          var k :| k in node.subdirs && Reaches(node.subdirs[k], m);
          FlattenedMember(node.subdirs[k], what, p);
        }
      }
    }
  }

  /** Every common file of a valid tree lies below the tree's left root. */
  lemma {:induction false} CommonFilesUnderLeft(node: DirCmp, p: Path)
    requires Valid(node) && p in Flattened(node, CommonFiles)
    ensures Under(node.left, p)
    decreases node
  {
    if p in Local(node, CommonFiles) {
      var n :| n in node.commonFiles && p == Join(node.left, n);
      StripJoin(node.left, n);
    } else {
      FlattenedUnderMember(node, CommonFiles, node.subdirs.Keys, p);
      var k :| k in node.subdirs && p in Flattened(node.subdirs[k], CommonFiles);
      CommonFilesUnderLeft(node.subdirs[k], p);
      UnderJoin(node.left, k, p);
    }
  }
}
