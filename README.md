# files_compare: a verified model of `compare_dir.py`

`compare_dir.py` compares two directory trees. It lists the files that exist on only one
side. For every file present on both sides at the same relative path, it hashes the two
copies with SHA-1. If the digests differ it reports the pair; if they are equal it
deletes the left copy. When nothing was unique and nothing differed, it prints
"NO DIFFERENCE FOUND".

This project models that logic in Dafny and proves properties of the model:

- `order.dfy` (module `Order`) defines Python's `<=` on strings and a sort function. The
  sort function stands for `list.sort()` and is proved to return a sorted permutation of
  its input. It also proves that a sorted list is fixed by its elements.
- `paths.dfy` (module `Paths`) holds path building `dir + "/" + name` and the slice
  `filename[len(dir1)+1:]`, plus their round trip.
- `tree.dfy` (module `Tree`) holds the comparison tree, one `dircmp` node per directory
  level. It has the two recursive walks `find_unique_files` and `build_common_files` as
  methods with loops. Each is proved to return a sorted list holding exactly the paths
  the tree's nodes contribute, with multiplicity.
- `hashing.dfy` (module `Hashing`) models `hash_file`. It uses a `Reader` class (an open
  file with a cursor) and a `Hasher` class (the digest accumulator). The `while True`
  loop feeds the file's chunks. The proofs show the chunks are non-empty, at most
  0x100000 bytes, and concatenate to the file. The loop stops at the first empty read.
- `dedup.dfy` (module `Dedup`) holds the filesystem, a `FileSystem` class over a map
  from paths to contents, and the diff/delete loop of `run_api`. The loop is proved equal
  to a recursive reference `DiffRun` over the changing file map. Lemmas state, against
  the files as they were before the pass:
  - which pairs are reported, and in what order;
  - which left copies are removed;
  - that right copies and all other files are kept.
- `compare_dir.dfy` (module `CompareDir`) chains the steps the way `run_api` does. It
  checks both roots, gathers the unique and common lists, makes the relative paths, runs
  the pass, and computes the "no difference" condition.

The digest (SHA-1 in the program) is a parameter `digest: Bytes -> Fingerprint` of every
operation. Nothing assumes that equal digests mean equal contents. `os.path.isdir` is
also a parameter. The comparison tree that `dircmp` computes is an input, described by
`Tree.Stored`:
- the name classes of each node are pairwise disjoint, and there is a child node for
  exactly the common subdirectories (`Tree.Classified`);
- the child for `k` compares `os.path.join(left, k)` with `os.path.join(right, k)`, which
  `Paths.OsJoin` models.

`find_unique_files` walks that stored tree. `build_common_files` does not: at line 38 it
builds a fresh `dircmp` on `left + "/" + k` and `right + "/" + k`. The model gives it
`Tree.Rebuild` of the stored tree, with the same names at every level under the
rebuilt paths, because both compare the same directories. `Tree.Valid` describes such a
rebuilt tree. The two trees are equal when the roots are non-empty and have no trailing
"/" and the subdirectory names are plain, non-empty and without "/" (`Tree.RebuildStored`). For a root such as `a/`, a left-only `x` in the common
subdirectory `s` is listed as `a/s/x`, while a common file `y` there is listed as
`a//s/y`. The disjointness of the name classes is carried as part of the description,
but no proof needs it; the proofs use only the child keys and the child paths.

The lemmas about the pass assume `Dedup.Separated`. It means no relative path is listed
twice and no left path string `dir1 + "/" + r` equals a right path string
`dir2 + "/" + s`. The lemma `Dedup.SameRootRemovesRightCopy` shows why the assumption is
needed. When both roots are spelled the same, each common file counts as equal to
itself and the pass deletes it. So no copy survives. The file map keys each file by one
spelling of its path. `Separated` compares spellings only, so it does not exclude two
spellings of one directory, such as `a` and `a/`, or `a` and a symbolic link to it. On
such roots the program deletes the only copy as well, and the model does not see it.

The duplicate top-level script at the end of `compare_dir.py` repeats `run_api`. It is
modelled once, by `CompareDir.RunApi`.

## Model

| member | source | states |
|---|---|---|
| Order.LexLeq | compare_dir.py:25-26 | Defined as Python's `<=` on `str`, the order `list.sort()` uses here and at line 41: character by character by code point, a proper prefix first |
| Order.Sort | compare_dir.py:25-26 | `list.sort()` returns a list sorted by Python's string order that is a permutation of its input |
| Order.Insert | compare_dir.py:41 | Inserting into a sorted list keeps it sorted and adds exactly the one element |
| Order.SortedUnique | compare_dir.py:41 | Two sorted lists with the same elements are equal, so a sorted listing does not depend on the order the sets were walked in |
| Order.LexLeqTotal | compare_dir.py:25-26 | Any two strings are comparable under the order the sort uses |
| Order.LexLeqTransitive | compare_dir.py:25-26 | The sort's order is transitive |
| Order.LexLeqAntisymmetric | compare_dir.py:25-26 | Strings that compare both ways are equal |
| Order.LexLeqSharedPrefix | compare_dir.py:91 | Removing a common prefix does not change how two strings compare |
| Paths.Join | compare_dir.py:15-19 | Defined as `dir + "/" + name`, the concatenation every path in the program is built with (lines 15, 19, 35, 38, 95, 97) |
| Paths.Strip | compare_dir.py:91 | Defined as Python's `filename[len(dir1)+1:]`, by `Drop` |
| Paths.OsJoin | compare_dir.py:21 | Defined as POSIX `os.path.join(a, b)`: `b` when absolute, `a + b` after an empty `a` or one ending in "/", `a + "/" + b` otherwise; `dircmp` names its stored children so |
| Paths.OsJoinPlain | compare_dir.py:21 | For a non-empty root without a trailing "/" and a relative name, `os.path.join` and `+ "/" +` agree |
| Paths.OsJoinTrailing | compare_dir.py:21-38 | For the root `a/` they do not: `os.path.join` gives `a/s`, the concatenation of line 38 gives `a//s` |
| Paths.Drop | compare_dir.py:91 | Python's `s[k:]` has length `len(s) - k` and is the suffix after the first `k` characters, or empty when `k` passes the end |
| Paths.StripJoin | compare_dir.py:89-95 | `dir + "/" + rel` lies below `dir`, and stripping `len(dir)+1` characters gives back `rel` |
| Paths.JoinStrip | compare_dir.py:89-95 | For a path below `dir`, rebuilding `dir + "/" + stripped` gives back the path |
| Paths.JoinInjective | compare_dir.py:15 | Joining with a fixed directory never maps two names to one path |
| Paths.UnderJoin | compare_dir.py:38 | A path below `dir + "/" + name` is below `dir` |
| Paths.StripSorted | compare_dir.py:89-91 | Stripping the root from a sorted list of paths below it leaves the list sorted |
| Tree.Classified | compare_dir.py:85 | Defined as what `dircmp` guarantees of one node: the left-only, right-only, common-file and common-directory names are pairwise disjoint, and the child keys are exactly the common directories |
| Tree.Stored | compare_dir.py:21 | Defined as the tree `dircmp` builds and line 21 walks: every node classified, and the child for `k` compares `os.path.join(left, k)` with `os.path.join(right, k)` |
| Tree.Valid | compare_dir.py:38 | Defined as the tree line 38 rebuilds: every node classified, and the child for `k` compares `left + "/" + k` with `right + "/" + k` |
| Tree.AppendPrefixed | compare_dir.py:14-15 | Appending `dir + "/" + n` for every name of a set adds exactly those paths, each once |
| Tree.FindUniqueFiles | compare_dir.py:9-27 | The left and right lists are sorted and hold exactly the left-only (right-only) paths of every node of the tree, with multiplicity |
| Tree.Rebuild | compare_dir.py:38 | Defined as the tree of `dircmp` nodes rebuilt level by level on `left + "/" + k`, `right + "/" + k`, with the stored node's names at every level |
| Tree.RebuildValid | compare_dir.py:38 | Rebuilding a stored tree from any two roots gives a tree whose children are linked by `+ "/" +`, so `build_common_files` can walk it |
| Tree.RebuildStored | compare_dir.py:21-38 | With roots without a trailing "/" and plain subdirectory names, the rebuilt tree is the stored tree, so both walks see the same paths |
| Tree.BuildCommonFiles | compare_dir.py:31-42 | The list is sorted and holds exactly the left-side paths of the common files of every node reached through common subdirectories |
| Tree.FlattenedUnderPick | compare_dir.py:21-24 | Gathering children's lists in any order gives the same multiset |
| Tree.FlattenedMember | compare_dir.py:13-24 | A path is in a listing if and only if some node of the tree contributes it |
| Tree.CommonFilesUnderLeft | compare_dir.py:33-42 | Every common file of a valid tree lies below the left root, so the slice of line 91 removes exactly that root |
| Hashing.Chunks | compare_dir.py:50 | Defined as what successive `f.read(0x100000)` calls return: a full chunk while at least 0x100000 bytes remain, then what is left, nothing for an empty file |
| Hashing.ChunksConcat | compare_dir.py:49-53 | The chunks fed to the hasher, concatenated in order, are the file's bytes |
| Hashing.ChunksBounded | compare_dir.py:50-53 | Every chunk fed is non-empty and at most 0x100000 bytes, and every chunk but the last is full |
| Hashing.ConcatAppend | compare_dir.py:53 | Feeding one more chunk appends its bytes to those fed so far |
| Hashing.Reader.constructor | compare_dir.py:48 | `open(filepath, 'rb')`: a reader over the file's bytes, positioned at the start |
| Hashing.Hasher.constructor | compare_dir.py:47 | `hashlib.sha1()`: an accumulator that has been fed nothing |
| Hashing.Reader.Read | compare_dir.py:50 | `f.read(size)` returns the next `min(size, remaining)` bytes and moves the cursor past them |
| Hashing.Hasher.Update | compare_dir.py:53 | `update` appends its argument to what the accumulator was fed |
| Hashing.Hasher.HexDigest | compare_dir.py:54 | Defined as the digest of the concatenation of everything fed so far |
| Hashing.HashFile | compare_dir.py:46-54 | The result is the digest of the whole file; the reads return the file's chunks, then one empty read, at which the loop stops; the chunks fed to `update` are exactly the file's chunks and concatenate to the file |
| Dedup.FileSystem.Remove | compare_dir.py:106 | `os.remove` takes exactly that one path out of the filesystem |
| Dedup.HashPath | compare_dir.py:96-98 | Hashing a path gives the digest of its contents, and fails exactly when the file does not exist |
| Dedup.DiffRun | compare_dir.py:94-106 | Defined as the pass over `rels` in order: stop at the first missing left or right copy, put the pair in front of the rest's result when the digests differ, otherwise continue on the files without the left copy |
| Dedup.DiffRunFrame | compare_dir.py:94-106 | On any paths, the pass only removes files, removes only left copies of visited paths, never changes a file it keeps, and reports at most one pair per path |
| Dedup.DiffPass | compare_dir.py:94-106 | The loop's outcome and the files it leaves are those of the reference pass `DiffRun` on the files it started with, including stopping at the first missing copy |
| Dedup.Differing | compare_dir.py:99-102 | The reported pairs are `[dir1+"/"+r, dir2+"/"+r]` for exactly those `r` whose digests differ, at most one per path, and none exactly when all digests agree |
| Dedup.Duplicates | compare_dir.py:105-106 | The deleted paths are exactly the left copies whose digests equal their right copies' |
| Dedup.AgreeSameResults | compare_dir.py:94-106 | The reported pairs and deletions depend only on the two copies of each common path |
| Dedup.DiffRunCompletes | compare_dir.py:94-98 | With separated paths, the pass completes if and only if both copies of every common path exist |
| Dedup.DiffRunResult | compare_dir.py:94-106 | With separated paths all present, the pass reports the differing pairs in the order of the relative paths and removes exactly the duplicate left copies |
| Dedup.PassEffect | compare_dir.py:94-106 | With separated paths all present, after the pass a left copy is gone if and only if its digests were equal; right copies and every file outside the common left paths are unchanged; no file is added |
| Dedup.IdenticalCopiesNoPairs | compare_dir.py:99-106 | With separated paths all present, when each pair of copies has equal contents, nothing is reported |
| Dedup.SameRootRemovesRightCopy | compare_dir.py:95-106 | With the same root on both sides, the pass deletes the only copy of a common file |
| CompareDir.RelativePaths | compare_dir.py:89-91 | Each relative path is the common path minus `len(dir1)+1` characters, and `dir1 + "/"` before it gives back the common path when the path lies below `dir1` |
| CompareDir.NoDifference | compare_dir.py:109-110 | "NO DIFFERENCE FOUND" holds if and only if the differing pairs and both unique lists are empty |
| CompareDir.RunApi | compare_dir.py:76-110 | A root that is not a directory stops the run with nothing changed. Otherwise the unique lists are sorted and exact for the stored tree, the common list is sorted and exact for the rebuilt tree, the relative paths are sorted and rebuild the common paths, the pass is `DiffRun` on the original files, and "no difference" holds exactly when all three lists are empty |

## Left out

- `filecmp.dircmp` is not modelled. The comparison tree is an input, and `Tree.Stored` states what is used of it. Its classification of entries against the OS, `common_funny` and symlink handling are OS behaviour.
- SHA-1 is not modelled. The digest is a function parameter, so collisions are neither assumed nor excluded.
- `open`, `read` and `os.remove` become the `Reader` and `FileSystem` classes over a map from paths to bytes. `os.path.getsize` and `os.path.isdir` are left out or become parameters. A failed `open` raises in the program and is modelled as the run stopping at that path. Other I/O failures, such as permissions or a failing `os.remove`, are not modelled.
- `get_sizeInNiceString` is left out. It formats a size for display with floating-point division and `%.1f`, and its result is only printed.
- `print_unique_files` and every `print` are left out, including the trailing "/" added to directories in the unique listing. They only render output.
- `argparse`, the duplicate top-level script and `exit(-1)` are not modelled separately. The directory checks of `run_api` become the `NotADirectory` result.
- The program's own joins are string concatenations, and the model does the same. A root given with a trailing "/" therefore doubles the separator in the common files, in the pass and at the top level of the unique lists. The unique lists below the top level use the `os.path.join` names of the stored tree, as the program does.
- Names are Dafny strings of Unicode scalar values. A file name that `os.listdir` returns with surrogate escapes, for bytes that are not valid UTF-8, cannot be represented, and neither can its place in the sort.
- Order.Sort: models `list.sort()` by its result only, a sorted permutation. It does not model the algorithm (Timsort) or its in-place update. By `Order.SortedUnique`, the result is the same.
- Tree.FindUniqueFiles: `dircmp` keeps its names in the order of its sorted listing, but the program does not depend on that order, because it sorts the lists afterwards. The model holds the names in sets and walks them in any order, with the same sorted result.
- Dedup.DiffRunResult: the theorems about the pass against the original files assume `Separated`. The model does not derive it from the tree. It fails, for instance, when one root lies inside the other or both are spelled the same, and `Dedup.SameRootRemovesRightCopy` shows the effect.
- Dedup.PassEffect: the file map identifies a file by one spelling of its path, so `Separated` does not exclude two spellings of one root (`a` and `a/`, `./a`, a symbolic link). On such roots the program deletes the only copy of each identical common file, while the model promises that the right copy survives.
- Dedup.Pair: a reported pair holds only the two paths, as `filesDifferent` does. The digests and sizes printed beside them are left out.
