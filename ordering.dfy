/** Strict total orders, the sorted-distinct enumeration that pandas'
    `groupby` produces for its keys, and Python's ordering of strings. */
module Ordering {

  ghost predicate StrictTotalOrder<T(!new)>(lt: (T, T) -> bool) {
    && (forall a :: !lt(a, a))
    && (forall a, b, c :: lt(a, b) && lt(b, c) ==> lt(a, c))
    && (forall a, b :: a == b || lt(a, b) || lt(b, a))
  }

  predicate StrictlyIncreasing<T>(lt: (T, T) -> bool, s: seq<T>) {
    forall i, j :: 0 <= i < j < |s| ==> lt(s[i], s[j])
  }

  /** Adds `x` to a strictly increasing sequence, keeping it strictly
      increasing and free of duplicates. */
  function Insert<T(==,!new)>(lt: (T, T) -> bool, x: T, s: seq<T>): (r: seq<T>)
    requires StrictTotalOrder(lt) && StrictlyIncreasing(lt, s)
    ensures StrictlyIncreasing(lt, r)
    ensures forall y :: y in r <==> y == x || y in s
  {
    if s == [] then [x]
    else if x == s[0] then s
    else if lt(x, s[0]) then [x] + s
    else
      var rest := Insert(lt, x, s[1..]);
      assert forall y :: y in rest ==> lt(s[0], y) by {
        forall y | y in rest ensures lt(s[0], y) {
          if y != x {
            var k :| 1 <= k < |s| && s[k] == y;
          }
        }
      }
      [s[0]] + rest
  }

  /** The distinct elements of `xs` in ascending order: the key order of a
      pandas `groupby` with its default `sort=True`. */
  function SortedDistinct<T(==,!new)>(lt: (T, T) -> bool, xs: seq<T>): (r: seq<T>)
    requires StrictTotalOrder(lt)
    ensures StrictlyIncreasing(lt, r)
    ensures forall y :: y in r <==> y in xs
  {
    if xs == [] then []
    else Insert(lt, xs[0], SortedDistinct(lt, xs[1..]))
  }

  /** A strictly increasing sequence has no repeated element, so it has as
      many elements as its set. */
  lemma {:induction false} StrictlyIncreasingCardinality<T(!new)>(lt: (T, T) -> bool, s: seq<T>)
    requires StrictTotalOrder(lt) && StrictlyIncreasing(lt, s)
    ensures |set x | x in s| == |s|
  {
    if s != [] {
      var tail := s[1..];
      StrictlyIncreasingCardinality(lt, tail);
      assert (set x | x in s) == (set x | x in tail) + {s[0]};
      assert s[0] !in tail;
    }
  }

  /** There is only one strictly increasing enumeration of a set: the order
      of the input rows does not change the order of the groups. */
  lemma {:induction false} StrictlyIncreasingUnique<T(!new)>(lt: (T, T) -> bool, s: seq<T>, t: seq<T>)
    requires StrictTotalOrder(lt) && StrictlyIncreasing(lt, s) && StrictlyIncreasing(lt, t)
    requires forall x :: x in s <==> x in t
    ensures s == t
  {
    if s != [] { assert s[0] in t; }
    if t != [] { assert t[0] in s; }
    if s != [] && t != [] {
      assert s[0] == t[0];
      forall x ensures x in s[1..] <==> x in t[1..] {
        if x in s[1..] {
          var k :| 0 <= k < |s| - 1 && s[k + 1] == x;
          assert lt(s[0], x);
          assert x in t && x != t[0];
        }
        if x in t[1..] {
          var k :| 0 <= k < |t| - 1 && t[k + 1] == x;
          assert lt(t[0], x);
          assert x in s && x != s[0];
        }
      }
      StrictlyIncreasingUnique(lt, s[1..], t[1..]);
      assert s == [s[0]] + s[1..] && t == [t[0]] + t[1..];
    }
  }

  function IntLess(a: int, b: int): bool {
    a < b
  }

  lemma IntLessIsStrictTotalOrder()
    ensures StrictTotalOrder(IntLess)
  {
  }

  /** The one strictly increasing enumeration of a set of two integers
      `lo < hi`. */
  lemma IncreasingPair(s: seq<int>, elements: set<int>, lo: int, hi: int)
    requires StrictlyIncreasing(IntLess, s) && lo < hi && elements == {lo, hi}
    requires forall t :: t in s <==> t in elements
    ensures s == [lo, hi]
  {
    IntLessIsStrictTotalOrder();
    assert forall t :: t in [lo, hi] <==> t in elements;
    StrictlyIncreasingUnique(IntLess, s, [lo, hi]);
  }

  /** Python's `<` on `str`: lexicographic by code point, a proper prefix
      coming first. */
  function StringLess(a: string, b: string): bool {
    if |a| == 0 then |b| > 0
    else if |b| == 0 then false
    else if a[0] != b[0] then a[0] < b[0]
    else StringLess(a[1..], b[1..])
  }

  lemma {:induction false} StringLessIrreflexive(a: string)
    ensures !StringLess(a, a)
  {
    if |a| > 0 {
      StringLessIrreflexive(a[1..]);
    }
  }

  lemma {:induction false} StringLessTransitive(a: string, b: string, c: string)
    requires StringLess(a, b) && StringLess(b, c)
    ensures StringLess(a, c)
  {
    if |a| > 0 && |b| > 0 && |c| > 0 && a[0] == b[0] && b[0] == c[0] {
      StringLessTransitive(a[1..], b[1..], c[1..]);
    }
  }

  lemma {:induction false} StringLessTotal(a: string, b: string)
    requires a != b
    ensures StringLess(a, b) || StringLess(b, a)
  {
    if |a| > 0 && |b| > 0 && a[0] == b[0] {
      assert a == [a[0]] + a[1..] && b == [b[0]] + b[1..];
      StringLessTotal(a[1..], b[1..]);
    }
  }

  lemma StringLessIsStrictTotalOrder()
    ensures StrictTotalOrder(StringLess)
  {
    forall a ensures !StringLess(a, a) {
      StringLessIrreflexive(a);
    }
    forall a, b, c | StringLess(a, b) && StringLess(b, c) ensures StringLess(a, c) {
      StringLessTransitive(a, b, c);
    }
    forall a, b | a != b ensures StringLess(a, b) || StringLess(b, a) {
      StringLessTotal(a, b);
    }
  }
}
