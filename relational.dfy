/** The two kinds of pandas `merge` the analyser uses, over sequences of
    rows: an inner join and a left join on one key column each side. Row
    order is pandas' order: the left rows in their order and, for each of
    them, its matching right rows in their order (for inner merges, the order
    of pandas 2.2 and later). */
module Relational {
  import opened Wrappers

  /** The right rows whose key is `key`, in their order (a filter). */
  function MatchingRows<B(==,!new), K(==)>(right: seq<B>, rk: B -> K, key: K): (m: seq<B>)
    ensures forall b :: multiset(m)[b] == if rk(b) == key then multiset(right)[b] else 0
    ensures forall b :: b in m <==> b in right && rk(b) == key
  {
    if right == [] then []
    else
      assert right == [right[0]] + right[1..];
      (if rk(right[0]) == key then [right[0]] else []) + MatchingRows(right[1..], rk, key)
  }

  function Pairs<A, B>(a: A, bs: seq<B>): seq<(A, B)> {
    seq(|bs|, i requires 0 <= i < |bs| => (a, bs[i]))
  }

  /** `left.merge(right, left_on=..., right_on=...)` with the default
      `how="inner"`: one row per matching pair. */
  function InnerJoin<A(==,!new), B(==,!new), K(==)>(left: seq<A>, right: seq<B>, lk: A -> K, rk: B -> K): (j: seq<(A, B)>)
    ensures forall p :: p in j <==> p.0 in left && p.1 in right && lk(p.0) == rk(p.1)
  {
    if left == [] then []
    else
      var here := Pairs(left[0], MatchingRows(right, rk, lk(left[0])));
      var rest := InnerJoin(left[1..], right, lk, rk);
      assert forall p: (A, B) :: p in here <==> p.0 == left[0] && p.1 in right && lk(p.0) == rk(p.1) by {
        forall p: (A, B) | p.0 == left[0] && p.1 in right && lk(p.0) == rk(p.1) ensures p in here {
          var m := MatchingRows(right, rk, lk(left[0]));
          var k :| 0 <= k < |m| && m[k] == p.1;
          assert here[k] == p;
        }
      }
      assert forall a :: a in left <==> a == left[0] || a in left[1..];
      here + rest
  }

  /** An inner join is the first left row's block, then the join of the rest. */
  lemma InnerJoinCons<A(!new), B(!new), K>(left: seq<A>, right: seq<B>, lk: A -> K, rk: B -> K)
    requires left != []
    ensures InnerJoin(left, right, lk, rk)
         == Pairs(left[0], MatchingRows(right, rk, lk(left[0]))) + InnerJoin(left[1..], right, lk, rk)
  {
  }

  /** The left-join rows that one left row produces: one per matching right
      row or, when there is none, a single row with no right part. */
  function LeftRows<A, B>(a: A, matches: seq<B>): seq<(A, Option<B>)> {
    if matches == [] then [(a, None)]
    else seq(|matches|, i requires 0 <= i < |matches| => (a, Some(matches[i])))
  }

  lemma LeftRowsShape<A, B>(a: A, matches: seq<B>)
    ensures |LeftRows(a, matches)| > 0 && LeftRows(a, matches)[0].0 == a
    ensures forall p :: p in LeftRows(a, matches) ==>
      && p.0 == a
      && (p.1.Some? ==> p.1.value in matches)
      && (p.1.None? ==> matches == [])
    ensures forall b :: b in matches ==> (a, Some(b)) in LeftRows(a, matches)
  {
    if matches != [] {
      forall p | p in LeftRows(a, matches) ensures p.0 == a && p.1.Some? && p.1.value in matches {
        var k :| 0 <= k < |matches| && LeftRows(a, matches)[k] == p;
      }
      forall b | b in matches ensures (a, Some(b)) in LeftRows(a, matches) {
        var k :| 0 <= k < |matches| && matches[k] == b;
        assert LeftRows(a, matches)[k] == (a, Some(b));
      }
    }
  }

  /** `left.merge(right, left_on=..., right_on=..., how="left")`. */
  function LeftJoin<A(==,!new), B(==,!new), K(==)>(left: seq<A>, right: seq<B>, lk: A -> K, rk: B -> K): (j: seq<(A, Option<B>)>)
    ensures forall p :: p in j ==> p.0 in left
    ensures forall p :: p in j && p.1.Some? ==> p.1.value in right && rk(p.1.value) == lk(p.0)
    ensures forall p :: p in j && p.1.None? ==> forall b :: b in right ==> rk(b) != lk(p.0)
    ensures forall a :: a in left ==> exists o :: (a, o) in j
    ensures forall a, b :: a in left && b in right && rk(b) == lk(a) ==> (a, Some(b)) in j
  {
    if left == [] then []
    else
      var m := MatchingRows(right, rk, lk(left[0]));
      var here := LeftRows(left[0], m);
      var rest := LeftJoin(left[1..], right, lk, rk);
      LeftRowsShape(left[0], m);
      assert forall a :: a in left <==> a == left[0] || a in left[1..];
      here + rest
  }

  /** A left row appears in the left merge, at the returned position. */
  lemma LeftJoinPosition<A(!new), B(!new), K>(left: seq<A>, right: seq<B>, lk: A -> K, rk: B -> K, a: A) returns (i: int)
    requires a in left
    ensures 0 <= i < |LeftJoin(left, right, lk, rk)| && LeftJoin(left, right, lk, rk)[i].0 == a
  {
    var j := LeftJoin(left, right, lk, rk);
    var o :| (a, o) in j;
    i :| 0 <= i < |j| && j[i] == (a, o);
  }

  /** No two right rows share a key (a primary key). */
  predicate UniqueKeys<B, K(==)>(right: seq<B>, rk: B -> K) {
    forall i, j :: 0 <= i < |right| && 0 <= j < |right| && rk(right[i]) == rk(right[j]) ==> i == j
  }

  /** On a primary key a lookup finds at most one row. */
  lemma {:induction false} MatchingRowsOnUniqueKeys<B(!new), K>(right: seq<B>, rk: B -> K, key: K)
    requires UniqueKeys(right, rk)
    ensures |MatchingRows(right, rk, key)| <= 1
    ensures (exists b :: b in right && rk(b) == key) <==> |MatchingRows(right, rk, key)| == 1
  {
    var m := MatchingRows(right, rk, key);
    if right != [] {
      var tail := right[1..];
      assert UniqueKeys(tail, rk) by {
        forall i, j | 0 <= i < |tail| && 0 <= j < |tail| && rk(tail[i]) == rk(tail[j]) ensures i == j {
          assert rk(right[i + 1]) == rk(right[j + 1]);
        }
      }
      MatchingRowsOnUniqueKeys(tail, rk, key);
      if rk(right[0]) == key {
        assert MatchingRows(tail, rk, key) == [];
      }
      if |m| == 1 {
        assert m[0] in m;
      }
      assert forall b :: b in right <==> b == right[0] || b in tail;
    }
  }

  /** On a primary key a row occurs at most once. */
  lemma UniqueKeysOccurrence<B(!new), K>(right: seq<B>, rk: B -> K, b: B)
    requires UniqueKeys(right, rk) && b in right
    ensures multiset(right)[b] == 1
  {
    var m := MatchingRows(right, rk, rk(b));
    MatchingRowsOnUniqueKeys(right, rk, rk(b));
    assert m == [m[0]];
  }

  /** The rows ascend under `f` applied to their left part. */
  predicate LeftAscending<A, B>(ps: seq<(A, B)>, f: A -> int) {
    forall i, j :: 0 <= i < j < |ps| ==> f(ps[i].0) <= f(ps[j].0)
  }

  predicate LeftStrictlyAscending<A, B>(ps: seq<(A, B)>, f: A -> int) {
    forall i, j :: 0 <= i < j < |ps| ==> f(ps[i].0) < f(ps[j].0)
  }

  /** A block of rows whose left parts all map to `x`, followed by
      ascending rows at or above `x`, ascends. */
  lemma ConcatAscending<A, B>(here: seq<(A, B)>, rest: seq<(A, B)>, f: A -> int, x: int)
    requires forall i :: 0 <= i < |here| ==> f(here[i].0) == x
    requires forall j :: 0 <= j < |rest| ==> x <= f(rest[j].0)
    requires LeftAscending(rest, f)
    ensures LeftAscending(here + rest, f)
  {
    var jn := here + rest;
    forall i, j | 0 <= i < j < |jn| ensures f(jn[i].0) <= f(jn[j].0) {
      if j < |here| {
        assert jn[i] == here[i] && jn[j] == here[j];
      } else if i < |here| {
        assert jn[i] == here[i] && jn[j] == rest[j - |here|];
      } else {
        assert jn[i] == rest[i - |here|] && jn[j] == rest[j - |here|];
      }
    }
  }

  /** At most one row mapping to `x`, followed by strictly ascending rows
      above `x`, strictly ascends. */
  lemma ConcatStrictlyAscending<A, B>(here: seq<(A, B)>, rest: seq<(A, B)>, f: A -> int, x: int)
    requires |here| <= 1
    requires forall i :: 0 <= i < |here| ==> f(here[i].0) == x
    requires forall j :: 0 <= j < |rest| ==> x < f(rest[j].0)
    requires LeftStrictlyAscending(rest, f)
    ensures LeftStrictlyAscending(here + rest, f)
  {
    var jn := here + rest;
    forall i, j | 0 <= i < j < |jn| ensures f(jn[i].0) < f(jn[j].0) {
      if i < |here| {
        assert jn[i] == here[i] && jn[j] == rest[j - |here|];
      } else {
        assert jn[i] == rest[i - |here|] && jn[j] == rest[j - |here|];
      }
    }
  }

  /** A join keeps the order of its left rows: when the left rows ascend
      under `f`, so do the join rows under `f` of their left part. */
  lemma {:induction false} InnerJoinKeepsLeftOrder<A(!new), B(!new), K>(left: seq<A>, right: seq<B>, lk: A -> K, rk: B -> K, f: A -> int)
    requires forall i, j :: 0 <= i < j < |left| ==> f(left[i]) <= f(left[j])
    ensures LeftAscending(InnerJoin(left, right, lk, rk), f)
  {
    if left != [] {
      var tail := left[1..];
      var here := Pairs(left[0], MatchingRows(right, rk, lk(left[0])));
      var rest := InnerJoin(tail, right, lk, rk);
      assert InnerJoin(left, right, lk, rk) == here + rest;
      assert LeftAscending(rest, f) by {
        InnerJoinKeepsLeftOrder(tail, right, lk, rk, f);
      }
      forall j | 0 <= j < |rest| ensures f(left[0]) <= f(rest[j].0) {
        assert rest[j] in rest;
        var k :| 0 <= k < |tail| && tail[k] == rest[j].0;
        assert tail[k] == left[k + 1];
      }
      ConcatAscending(here, rest, f, f(left[0]));
    }
  }

  /** With a primary key on the right, a join keeps a strict left order. */
  lemma {:induction false} InnerJoinKeepsStrictLeftOrder<A(!new), B(!new), K>(left: seq<A>, right: seq<B>, lk: A -> K, rk: B -> K, f: A -> int)
    requires UniqueKeys(right, rk)
    requires forall i, j :: 0 <= i < j < |left| ==> f(left[i]) < f(left[j])
    ensures LeftStrictlyAscending(InnerJoin(left, right, lk, rk), f)
  {
    if left != [] {
      var tail := left[1..];
      var here := Pairs(left[0], MatchingRows(right, rk, lk(left[0])));
      var rest := InnerJoin(tail, right, lk, rk);
      assert InnerJoin(left, right, lk, rk) == here + rest;
      assert |here| <= 1 by {
        MatchingRowsOnUniqueKeys(right, rk, lk(left[0]));
      }
      assert LeftStrictlyAscending(rest, f) by {
        InnerJoinKeepsStrictLeftOrder(tail, right, lk, rk, f);
      }
      forall j | 0 <= j < |rest| ensures f(left[0]) < f(rest[j].0) {
        assert rest[j] in rest;
        var k :| 0 <= k < |tail| && tail[k] == rest[j].0;
        assert tail[k] == left[k + 1];
      }
      ConcatStrictlyAscending(here, rest, f, f(left[0]));
    }
  }

  /** A left join keeps the order of its left rows too. */
  lemma {:induction false} LeftJoinKeepsLeftOrder<A(!new), B(!new), K>(left: seq<A>, right: seq<B>, lk: A -> K, rk: B -> K, f: A -> int)
    requires forall i, j :: 0 <= i < j < |left| ==> f(left[i]) <= f(left[j])
    ensures LeftAscending(LeftJoin(left, right, lk, rk), f)
  {
    if left != [] {
      var tail := left[1..];
      var here := LeftRows(left[0], MatchingRows(right, rk, lk(left[0])));
      var rest := LeftJoin(tail, right, lk, rk);
      assert LeftJoin(left, right, lk, rk) == here + rest;
      assert LeftAscending(rest, f) by {
        LeftJoinKeepsLeftOrder(tail, right, lk, rk, f);
      }
      forall j | 0 <= j < |rest| ensures f(left[0]) <= f(rest[j].0) {
        assert rest[j] in rest;
        var k :| 0 <= k < |tail| && tail[k] == rest[j].0;
        assert tail[k] == left[k + 1];
      }
      assert forall i :: 0 <= i < |here| ==> here[i].0 == left[0] by {
        LeftRowsShape(left[0], MatchingRows(right, rk, lk(left[0])));
      }
      ConcatAscending(here, rest, f, f(left[0]));
    }
  }

  /** A left join with a primary key on the right is a lookup: exactly one
      row per left row, in the left order. */
  lemma {:induction false} LeftJoinOnUniqueKeys<A(!new), B(!new), K>(left: seq<A>, right: seq<B>, lk: A -> K, rk: B -> K)
    requires UniqueKeys(right, rk)
    ensures var jn := LeftJoin(left, right, lk, rk);
      |jn| == |left| && forall i :: 0 <= i < |left| ==> jn[i].0 == left[i]
  {
    if left != [] {
      var m := MatchingRows(right, rk, lk(left[0]));
      var here := LeftRows(left[0], m);
      var rest := LeftJoin(left[1..], right, lk, rk);
      assert LeftJoin(left, right, lk, rk) == here + rest;
      assert |here| == 1 && here[0].0 == left[0] by {
        MatchingRowsOnUniqueKeys(right, rk, lk(left[0]));
        LeftRowsShape(left[0], m);
      }
      assert |rest| == |left| - 1 && forall i :: 0 <= i < |rest| ==> rest[i].0 == left[i + 1] by {
        LeftJoinOnUniqueKeys(left[1..], right, lk, rk);
      }
      var jn := here + rest;
      forall i | 0 <= i < |left| ensures jn[i].0 == left[i] {
        if i > 0 {
          assert jn[i] == rest[i - 1];
        }
      }
    }
  }
}
