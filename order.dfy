/** Python's ordering of `str` values and the `list.sort()` the listings end with. */
module Order {

  /** `a <= b` on Python strings: character by character, a proper prefix first. */
  predicate LexLeq(a: string, b: string)
    decreases |a|
  {
    a == [] || (b != [] && (a[0] < b[0] || (a[0] == b[0] && LexLeq(a[1..], b[1..]))))
  }

  lemma {:induction false} LexLeqReflexive(a: string)
    ensures LexLeq(a, a)
    decreases |a|
  {
    if a != [] {
      LexLeqReflexive(a[1..]);
    }
  }

  lemma {:induction false} LexLeqAntisymmetric(a: string, b: string)
    requires LexLeq(a, b) && LexLeq(b, a)
    ensures a == b
    decreases |a|
  {
    if a != [] {
      assert b != [] && a[0] == b[0];
      LexLeqAntisymmetric(a[1..], b[1..]);
      assert a == [a[0]] + a[1..] && b == [b[0]] + b[1..];
    }
  }

  lemma {:induction false} LexLeqTransitive(a: string, b: string, c: string)
    requires LexLeq(a, b) && LexLeq(b, c)
    ensures LexLeq(a, c)
    decreases |a|
  {
    if a != [] && a[0] == b[0] && b[0] == c[0] {
      LexLeqTransitive(a[1..], b[1..], c[1..]);
    }
  }

  lemma {:induction false} LexLeqTotal(a: string, b: string)
    ensures LexLeq(a, b) || LexLeq(b, a)
    decreases |a|
  {
    if a != [] && b != [] && a[0] == b[0] {
      LexLeqTotal(a[1..], b[1..]);
    }
  }

  /** A shared prefix does not change how two strings compare. */
  lemma {:induction false} LexLeqSharedPrefix(q: string, a: string, b: string)
    ensures LexLeq(q + a, q + b) <==> LexLeq(a, b)
    decreases |q|
  {
    if q == [] {
      assert q + a == a && q + b == b;
    } else {
      assert (q + a)[1..] == q[1..] + a && (q + b)[1..] == q[1..] + b;
      LexLeqSharedPrefix(q[1..], a, b);
    }
  }

  /** Sorted ascending, as `list.sort()` leaves a list of strings. */
  ghost predicate Sorted(s: seq<string>)
    decreases |s|
  {
    |s| < 2 || (LexLeq(s[0], s[1]) && Sorted(s[1..]))
  }

  /** In a sorted list every element is at most every later one. */
  lemma {:induction false} SortedAt(s: seq<string>, i: nat, j: nat)
    requires Sorted(s) && i < j < |s|
    ensures LexLeq(s[i], s[j])
    decreases |s|
  {
    if i > 0 {
      SortedAt(s[1..], i - 1, j - 1);
    } else if j > 1 {
      SortedAt(s[1..], 0, j - 1);
      LexLeqTransitive(s[0], s[1], s[j]);
    }
  }

  /** A list whose elements are pairwise in order is sorted. */
  lemma {:induction false} PairwiseSorted(s: seq<string>)
    requires forall i, j :: 0 <= i < j < |s| ==> LexLeq(s[i], s[j])
    ensures Sorted(s)
    decreases |s|
  {
    if |s| >= 2 {
      assert LexLeq(s[0], s[1]);
      forall i, j | 0 <= i < j < |s[1..]| ensures LexLeq(s[1..][i], s[1..][j]) {
        assert s[1..][i] == s[i + 1] && s[1..][j] == s[j + 1];
      }
      PairwiseSorted(s[1..]);
    }
  }

  lemma SortedCons(x: string, s: seq<string>)
    requires Sorted(s) && (s == [] || LexLeq(x, s[0]))
    ensures Sorted([x] + s)
  {
    assert ([x] + s)[1..] == s;
  }

  /** Putting the smaller head back in front of the insertion into the tail. */
  lemma InsertBehind(x: string, s: seq<string>, rest: seq<string>)
    requires Sorted(s) && s != [] && !LexLeq(x, s[0])
    requires Sorted(rest) && multiset(rest) == multiset(s[1..]) + multiset{x}
    ensures Sorted([s[0]] + rest) && multiset([s[0]] + rest) == multiset(s) + multiset{x}
  {
    LexLeqTotal(x, s[0]);
    assert s == [s[0]] + s[1..];
    assert rest != [] by {
      assert x in multiset(rest);
    }
    assert LexLeq(s[0], rest[0]) by {
      assert rest[0] in multiset(s[1..]) + multiset{x};
      if rest[0] != x {
        assert rest[0] in s[1..];
        var j :| 0 <= j < |s[1..]| && s[1..][j] == rest[0];
        SortedAt(s, 0, j + 1);
      }
    }
    assert ([s[0]] + rest)[1..] == rest;
  }

  /** Inserts `x` into a sorted list, keeping it sorted. */
  function Insert(x: string, s: seq<string>): (r: seq<string>)
    requires Sorted(s)
    ensures Sorted(r) && multiset(r) == multiset(s) + multiset{x}
    decreases |s|
  {
    if s == [] || LexLeq(x, s[0]) then
      SortedCons(x, s);
      [x] + s
    else
      var rest := Insert(x, s[1..]);
      InsertBehind(x, s, rest);
      [s[0]] + rest
  }

  /** The model of `list.sort()`: a sorted permutation of its input. */
  function Sort(s: seq<string>): (r: seq<string>)
    ensures Sorted(r) && multiset(r) == multiset(s)
    decreases |s|
  {
    if s == [] then []
    else
      assert s == [s[0]] + s[1..];
      Insert(s[0], Sort(s[1..]))
  }

  lemma SortedHeads(a: seq<string>, b: seq<string>)
    requires Sorted(a) && Sorted(b) && multiset(a) == multiset(b) && a != []
    ensures b != [] && a[0] == b[0]
  {
    assert |multiset(b)| == |a|;
    assert a[0] in multiset(b) && b[0] in multiset(a);
    var j :| 0 <= j < |b| && b[j] == a[0];
    var k :| 0 <= k < |a| && a[k] == b[0];
    if j == 0 { LexLeqReflexive(a[0]); } else { SortedAt(b, 0, j); }
    if k == 0 { LexLeqReflexive(b[0]); } else { SortedAt(a, 0, k); }
    LexLeqAntisymmetric(a[0], b[0]);
  }

  lemma SameTails(a: seq<string>, b: seq<string>)
    requires a != [] && b != [] && a[0] == b[0] && multiset(a) == multiset(b)
    ensures multiset(a[1..]) == multiset(b[1..])
  {
    assert a == [a[0]] + a[1..] && b == [b[0]] + b[1..];
    assert multiset(a) == multiset{a[0]} + multiset(a[1..]);
    assert multiset(b) == multiset{b[0]} + multiset(b[1..]);
    forall x ensures multiset(a[1..])[x] == multiset(b[1..])[x] {
      assert multiset(a)[x] == multiset(b)[x];
    }
  }

  /** A sorted list is determined by its elements: the order in which they were gathered is lost. */
  lemma {:induction false} SortedUnique(a: seq<string>, b: seq<string>)
    requires Sorted(a) && Sorted(b) && multiset(a) == multiset(b)
    ensures a == b
    decreases |a|
  {
    if a == [] {
      assert |multiset(b)| == 0;
    } else {
      SortedHeads(a, b);
      SameTails(a, b);
      SortedUnique(a[1..], b[1..]);
      assert a == [a[0]] + a[1..] && b == [b[0]] + b[1..];
    }
  }
}
