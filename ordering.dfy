/**
 * Python's ordering of strings (code point by code point, a proper prefix
 * first) and the two uses of `sorted` in the analyzer: sorting the
 * elements of a set, and sorting a list of file names.
 */
module StringOrder {

  /** `a < b` on Python strings. */
  predicate Less(a: string, b: string)
    decreases |a|
  {
    if a == [] then b != []
    else if b == [] then false
    else if a[0] != b[0] then a[0] < b[0]
    else Less(a[1..], b[1..])
  }

  lemma {:induction false} LessIrreflexive(a: string)
    ensures !Less(a, a)
    decreases |a|
  {
    if a != [] {
      LessIrreflexive(a[1..]);
    }
  }

  lemma {:induction false} LessAsymmetric(a: string, b: string)
    requires Less(a, b)
    ensures !Less(b, a)
    decreases |a|
  {
    if a != [] && b != [] && a[0] == b[0] {
      LessAsymmetric(a[1..], b[1..]);
    }
  }

  lemma {:induction false} LessTransitive(a: string, b: string, c: string)
    requires Less(a, b) && Less(b, c)
    ensures Less(a, c)
    decreases |a|
  {
    if a != [] && a[0] == b[0] && b[0] == c[0] {
      LessTransitive(a[1..], b[1..], c[1..]);
    }
  }

  /** Any two different strings are ordered one way or the other. */
  lemma {:induction false} LessTotal(a: string, b: string)
    requires a != b
    ensures Less(a, b) || Less(b, a)
    decreases |a|
  {
    if a != [] && b != [] && a[0] == b[0] {
      assert a == [a[0]] + a[1..] && b == [b[0]] + b[1..];
      LessTotal(a[1..], b[1..]);
    }
  }

  /** Putting the same directory in front of two names does not change their order. */
  lemma {:induction false} LessCommonPrefix(p: string, a: string, b: string)
    ensures Less(p + a, p + b) <==> Less(a, b)
    decreases |p|
  {
    if p != [] {
      assert (p + a)[0] == p[0] == (p + b)[0];
      assert (p + a)[1..] == p[1..] + a && (p + b)[1..] == p[1..] + b;
      LessCommonPrefix(p[1..], a, b);
    } else {
      assert p + a == a && p + b == b;
    }
  }

  /** `a <= b` on Python strings. */
  predicate LessEq(a: string, b: string)
  {
    a == b || Less(a, b)
  }

  lemma NotLessIsLessEq(a: string, b: string)
    ensures !Less(b, a) <==> LessEq(a, b)
  {
    if a == b {
      LessIrreflexive(a);
    } else if Less(a, b) {
      LessAsymmetric(a, b);
    } else {
      LessTotal(a, b);
    }
  }

  // ----- sorted(set) -----

  predicate IsLeast(m: string, s: set<string>)
  {
    m in s && forall y | y in s :: LessEq(m, y)
  }

  lemma {:induction false} LeastExists(s: set<string>)
    requires s != {}
    ensures exists m :: IsLeast(m, s)
    decreases s
  {
    var x :| x in s;
    if s == {x} {
      assert IsLeast(x, s);
    } else {
      LeastExists(s - {x});
      var m :| IsLeast(m, s - {x});
      if Less(x, m) {
        forall y | y in s ensures LessEq(x, y) {
          if y != x && y != m {
            assert y in s - {x};
            LessTransitive(x, m, y);
          }
        }
        assert IsLeast(x, s);
      } else {
        if x != m {
          LessTotal(x, m);
        }
        assert IsLeast(m, s);
      }
    }
  }

  lemma LeastUnique(s: set<string>, m: string, n: string)
    requires IsLeast(m, s) && IsLeast(n, s)
    ensures m == n
  {
    if m != n {
      LessAsymmetric(m, n);
    }
  }

  /** The smallest element of a non-empty set. */
  function Least(s: set<string>): (m: string)
    requires s != {}
    ensures IsLeast(m, s)
  {
    LeastExists(s);
    assert forall m, n | IsLeast(m, s) && IsLeast(n, s) :: m == n by {
      forall m, n | IsLeast(m, s) && IsLeast(n, s) ensures m == n {
        LeastUnique(s, m, n);
      }
    }
    var m :| IsLeast(m, s);
    m
  }

  predicate StrictlySorted(r: seq<string>)
  {
    forall i, j | 0 <= i < j < |r| :: Less(r[i], r[j])
  }

  /** `sorted(s)` for a set `s`: its elements, each once, in increasing order. */
  function SortedElements(s: set<string>): (r: seq<string>)
    ensures StrictlySorted(r)
    ensures forall x :: x in r <==> x in s
    ensures |r| == |s|
    decreases s
  {
    if s == {} then []
    else
      var m := Least(s);
      var rest := SortedElements(s - {m});
      assert forall j | 0 <= j < |rest| :: Less(m, rest[j]) by {
        forall j | 0 <= j < |rest| ensures Less(m, rest[j]) {
          assert rest[j] in s - {m};
        }
      }
      [m] + rest
  }

  // ----- sorted(list) -----

  predicate Sorted(r: seq<string>)
  {
    forall i, j | 0 <= i < j < |r| :: LessEq(r[i], r[j])
  }

  /** Inserts `x` before the first element that is not smaller than it. */
  function Insert(x: string, r: seq<string>): (r': seq<string>)
    requires Sorted(r)
    ensures Sorted(r')
    ensures multiset(r') == multiset(r) + multiset{x}
  {
    if r == [] then [x]
    else if !Less(r[0], x) then
      ConsSorted(x, r);
      [x] + r
    else
      var rest := Insert(x, r[1..]);
      MultisetOfTail(r);
      HeadBelowInsertion(x, r, rest);
      ConsSorted(r[0], rest);
      [r[0]] + rest
  }

  lemma HeadBelowInsertion(x: string, r: seq<string>, rest: seq<string>)
    requires Sorted(r) && r != [] && Less(r[0], x)
    requires multiset(rest) == multiset(r[1..]) + multiset{x}
    ensures forall y | y in multiset(rest) :: LessEq(r[0], y)
  {
    forall y | y in multiset(rest) ensures LessEq(r[0], y) {
      if y != x {
        assert y in multiset(r[1..]);
        var k :| 0 <= k < |r[1..]| && r[1..][k] == y;
        assert r[k + 1] == y;
      }
    }
  }

  /** Putting an element that is at most every element in front of a sorted list keeps it sorted. */
  lemma ConsSorted(x: string, r: seq<string>)
    requires Sorted(r)
    requires (r != [] && !Less(r[0], x)) || (forall y | y in multiset(r) :: LessEq(x, y))
    ensures Sorted([x] + r)
  {
    if r != [] && !Less(r[0], x) {
      NotLessIsLessEq(x, r[0]);
      forall j | 0 <= j < |r| ensures LessEq(x, r[j]) {
        if x != r[0] && r[0] != r[j] {
          LessTransitive(x, r[0], r[j]);
        }
      }
    } else {
      forall j | 0 <= j < |r| ensures LessEq(x, r[j]) {
        assert r[j] in multiset(r);
      }
    }
    forall i, j | 0 <= i < j < |[x] + r| ensures LessEq(([x] + r)[i], ([x] + r)[j]) {
      if i > 0 {
        assert ([x] + r)[i] == r[i - 1] && ([x] + r)[j] == r[j - 1];
      }
    }
  }

  /** `sorted(names)` for a list: the same names, with repetitions, in increasing order. */
  function Sort(names: seq<string>): (r: seq<string>)
    ensures Sorted(r)
    ensures multiset(r) == multiset(names)
  {
    if names == [] then []
    else
      assert names == [names[0]] + names[1..];
      Insert(names[0], Sort(names[1..]))
  }

  /** A sorted list is determined by its elements: `sorted` has exactly one possible result. */
  lemma {:induction false} SortedUnique(a: seq<string>, b: seq<string>)
    requires Sorted(a) && Sorted(b)
    requires multiset(a) == multiset(b)
    ensures a == b
  {
    if a == [] {
      assert |b| == |multiset(b)| == 0;
    } else {
      assert b != [] by { assert a[0] in multiset(b); }
      SortedFirstIsLeast(a, b[0]);
      SortedFirstIsLeast(b, a[0]);
      LessAntisymmetric(a[0], b[0]);
      MultisetOfTail(a);
      MultisetOfTail(b);
      assert multiset(a[1..]) == multiset(b[1..]);
      SortedTail(a);
      SortedTail(b);
      SortedUnique(a[1..], b[1..]);
      assert a == [a[0]] + a[1..];
      assert b == [b[0]] + b[1..];
    }
  }

  lemma SortedFirstIsLeast(a: seq<string>, y: string)
    requires Sorted(a) && y in multiset(a)
    ensures LessEq(a[0], y)
  {
    var k :| 0 <= k < |a| && a[k] == y;
    if k > 0 {
      assert LessEq(a[0], a[k]);
    }
  }

  lemma LessAntisymmetric(x: string, y: string)
    requires LessEq(x, y) && LessEq(y, x)
    ensures x == y
  {
    if x != y {
      LessAsymmetric(x, y);
    }
  }

  lemma SortedTail(a: seq<string>)
    requires Sorted(a) && a != []
    ensures Sorted(a[1..])
  {
    forall i, j | 0 <= i < j < |a| - 1 ensures LessEq(a[1..][i], a[1..][j]) {
      assert a[1..][i] == a[i + 1] && a[1..][j] == a[j + 1];
    }
  }

  lemma MultisetOfTail(a: seq<string>)
    requires a != []
    ensures multiset(a[1..]) == multiset(a) - multiset{a[0]}
  {
    assert a == [a[0]] + a[1..];
  }

  // ----- sorting names that share a directory prefix -----

  /** `[p + x for x in xs]`: every name with the same directory in front. */
  function Prefixed(p: string, xs: seq<string>): (r: seq<string>)
    ensures |r| == |xs|
  {
    seq(|xs|, i requires 0 <= i < |xs| => p + xs[i])
  }

  /** A string occurs in the prefixed list as often as its remainder after `p` occurs in the list. */
  lemma {:induction false} PrefixedCounts(p: string, xs: seq<string>, y: string)
    ensures multiset(Prefixed(p, xs))[y] ==
            if |p| <= |y| && y[..|p|] == p then multiset(xs)[y[|p|..]] else 0
  {
    if xs != [] {
      PrefixedCounts(p, xs[1..], y);
      assert Prefixed(p, xs) == [p + xs[0]] + Prefixed(p, xs[1..]);
      assert xs == [xs[0]] + xs[1..];
      PrefixedElement(p, xs[0], y);
    }
  }

  /** `y == p + x` exactly when `y` starts with `p` and continues with `x`. */
  lemma PrefixedElement(p: string, x: string, y: string)
    ensures y == p + x <==> |p| <= |y| && y[..|p|] == p && y[|p|..] == x
  {
    if |p| <= |y| && y[..|p|] == p && y[|p|..] == x {
      assert y == y[..|p|] + y[|p|..];
    }
  }

  /** Prefixing keeps a list sorted. */
  lemma PrefixedSorted(p: string, xs: seq<string>)
    requires Sorted(xs)
    ensures Sorted(Prefixed(p, xs))
  {
    var r := Prefixed(p, xs);
    forall i, j | 0 <= i < j < |r| ensures LessEq(r[i], r[j]) {
      LessCommonPrefix(p, xs[i], xs[j]);
    }
  }

  /**
   * Sorting the names with a common directory in front gives the sorted
   * names with that directory in front: the order is decided by the names.
   */
  lemma SortPrefixed(p: string, xs: seq<string>)
    ensures Sort(Prefixed(p, xs)) == Prefixed(p, Sort(xs))
  {
    var a, b := Sort(Prefixed(p, xs)), Prefixed(p, Sort(xs));
    PrefixedSorted(p, Sort(xs));
    forall y ensures multiset(a)[y] == multiset(b)[y] {
      PrefixedCounts(p, xs, y);
      PrefixedCounts(p, Sort(xs), y);
    }
    assert multiset(a) == multiset(b);
    SortedUnique(a, b);
  }
}
