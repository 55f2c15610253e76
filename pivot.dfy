/** `groupby([...]).size().unstack(fill_value=0).reset_index()`: count the
    rows of each (key, vote type) group and spread the vote types into
    columns, one row per key, with 0 for a group that has no rows. */
module Pivot {
  import opened Ordering

  /** Assigning `DataFrame.columns` a list whose length is not the number
      of columns raises a length-mismatch error. */
  datatype FrameError = LengthMismatch(expected: nat, given: nat)

  datatype UnstackedRow<K> = UnstackedRow(key: K, counts: seq<nat>)

  /** `columns` are the vote types in ascending order; `rows` hold one
      count per column, in that order. */
  datatype Unstacked<K> = Unstacked(columns: seq<int>, rows: seq<UnstackedRow<K>>)

  /** The size of the group (key, voteType). */
  function Size<K(==)>(observations: seq<(K, int)>, key: K, voteType: int): (n: nat)
    ensures n > 0 <==> (key, voteType) in observations
  {
    multiset(observations)[(key, voteType)]
  }

  function RowKeys<K>(rows: seq<UnstackedRow<K>>): seq<K> {
    seq(|rows|, i requires 0 <= i < |rows| => rows[i].key)
  }

  function GroupKeys<K>(observations: seq<(K, int)>): seq<K> {
    seq(|observations|, i requires 0 <= i < |observations| => observations[i].0)
  }

  function VoteTypes<K>(observations: seq<(K, int)>): seq<int> {
    seq(|observations|, i requires 0 <= i < |observations| => observations[i].1)
  }

  /** Each observation is (group key, vote type). Keys come out ascending
      under `lt`, vote-type columns ascending, and every (key, column) cell
      holds the size of that group, which is 0 when the group is empty. */
  function GroupSizeUnstack<K(==,!new)>(lt: (K, K) -> bool, observations: seq<(K, int)>): (u: Unstacked<K>)
    requires StrictTotalOrder(lt)
    ensures StrictlyIncreasing(IntLess, u.columns)
    ensures forall t :: t in u.columns <==> exists k :: (k, t) in observations
    ensures StrictlyIncreasing(lt, RowKeys(u.rows))
    ensures forall k :: k in RowKeys(u.rows) <==> exists t :: (k, t) in observations
    ensures forall i :: 0 <= i < |u.rows| ==> |u.rows[i].counts| == |u.columns|
    ensures forall i, j :: 0 <= i < |u.rows| && 0 <= j < |u.columns| ==>
              u.rows[i].counts[j] == Size(observations, u.rows[i].key, u.columns[j])
  {
    IntLessIsStrictTotalOrder();
    var columns := SortedDistinct(IntLess, VoteTypes(observations));
    var keys := SortedDistinct(lt, GroupKeys(observations));
    assert forall t :: t in VoteTypes(observations) <==> exists k :: (k, t) in observations by {
      forall t ensures t in VoteTypes(observations) <==> exists k :: (k, t) in observations {
        if t in VoteTypes(observations) {
          var i :| 0 <= i < |observations| && observations[i].1 == t;
          assert (observations[i].0, t) in observations;
        }
        if exists k :: (k, t) in observations {
          var k :| (k, t) in observations;
          var i :| 0 <= i < |observations| && observations[i] == (k, t);
          assert VoteTypes(observations)[i] == t;
        }
      }
    }
    assert forall k :: k in GroupKeys(observations) <==> exists t :: (k, t) in observations by {
      forall k ensures k in GroupKeys(observations) <==> exists t :: (k, t) in observations {
        if k in GroupKeys(observations) {
          var i :| 0 <= i < |observations| && observations[i].0 == k;
          assert (k, observations[i].1) in observations;
        }
        if exists t :: (k, t) in observations {
          var t :| (k, t) in observations;
          var i :| 0 <= i < |observations| && observations[i] == (k, t);
          assert GroupKeys(observations)[i] == k;
        }
      }
    }
    var rows := seq(|keys|, i requires 0 <= i < |keys| =>
      UnstackedRow(keys[i], seq(|columns|, j requires 0 <= j < |columns| => Size(observations, keys[i], columns[j]))));
    assert RowKeys(rows) == keys;
    Unstacked(columns, rows)
  }
}
