/** `calculate_legislator_votes`: how many vote results of each of the two
    vote types every legislator cast. */
module LegislatorVotes {
  import opened Wrappers
  import opened Ordering
  import opened Relational
  import opened Pivot
  import opened Tables

  /** A row of legislators-support-oppose-count.csv. */
  datatype LegislatorSummary = LegislatorSummary(id: int, name: string, numSupportedBills: nat, numOpposedBills: nat)

  /** The inner merge of vote results with legislators on
      `legislator_id = id`. */
  function Merged(legislators: seq<Legislator>, voteResults: seq<VoteResult>): seq<(VoteResult, Legislator)> {
    InnerJoin(voteResults, legislators, ResultLegislatorId, LegislatorId)
  }

  /** Each merged row as (group key, vote type). The group key
      (legislator_id, name) is the matched legislator row, because the
      merge makes `legislator_id` equal to its `id`. */
  function Observations(merged: seq<(VoteResult, Legislator)>): seq<(Legislator, int)> {
    seq(|merged|, i requires 0 <= i < |merged| => (merged[i].1, merged[i].0.voteType))
  }

  /** The merged rows grouped by (legislator_id, name, vote_type), counted
      and unstacked with zero fill. */
  function Counts(legislators: seq<Legislator>, voteResults: seq<VoteResult>): Unstacked<Legislator> {
    LegislatorLessIsStrictTotalOrder();
    GroupSizeUnstack(LegislatorLess, Observations(Merged(legislators, voteResults)))
  }

  /** The whole function: the unstacked frame gets the four column names
      `id, name, num_supported_bills, num_opposed_bills` by position, which
      fails unless exactly two vote types survive the merge. */
  function CalculateLegislatorVotes(legislators: seq<Legislator>, voteResults: seq<VoteResult>): (r: Result<seq<LegislatorSummary>, FrameError>)
    ensures r.Err? ==> r.error.given == 4 && r.error.expected != 4
  {
    var u := Counts(legislators, voteResults);
    if |u.columns| != 2 then Err(LengthMismatch(2 + |u.columns|, 4))
    else
      Ok(seq(|u.rows|, i requires 0 <= i < |u.rows| =>
        LegislatorSummary(u.rows[i].key.id, u.rows[i].key.name, u.rows[i].counts[0], u.rows[i].counts[1])))
  }

  // ---------------------------------------------------------------------
  // Reference definitions over the input tables

  predicate HasLegislator(legislators: seq<Legislator>, id: int) {
    exists l :: l in legislators && l.id == id
  }

  /** The vote types of the vote results whose legislator is known. */
  ghost function MatchedVoteTypes(legislators: seq<Legislator>, voteResults: seq<VoteResult>): set<int> {
    set r | r in voteResults && HasLegislator(legislators, r.legislatorId) :: r.voteType
  }

  /** Number of vote results of type `voteType` cast by legislator `id`. */
  function VotesCast(voteResults: seq<VoteResult>, id: int, voteType: int): nat {
    if voteResults == [] then 0
    else
      (if voteResults[0].legislatorId == id && voteResults[0].voteType == voteType then 1 else 0)
      + VotesCast(voteResults[1..], id, voteType)
  }

  /** Number of vote results cast by legislator `id`, of any type. */
  function VotesCastBy(voteResults: seq<VoteResult>, id: int): nat {
    if voteResults == [] then 0
    else (if voteResults[0].legislatorId == id then 1 else 0) + VotesCastBy(voteResults[1..], id)
  }

  // ---------------------------------------------------------------------
  // Lemmas

  /** A (key, vote type) observation exists exactly when that legislator
      is in the table and cast a vote result of that type. */
  lemma ObservationsOfMerged(legislators: seq<Legislator>, voteResults: seq<VoteResult>, l: Legislator, t: int)
    ensures (l, t) in Observations(Merged(legislators, voteResults))
        <==> l in legislators && exists r :: r in voteResults && r.legislatorId == l.id && r.voteType == t
  {
    var merged := Merged(legislators, voteResults);
    var obs := Observations(merged);
    if (l, t) in obs {
      var i :| 0 <= i < |obs| && obs[i] == (l, t);
      assert merged[i] in merged;
    }
    if l in legislators && exists r :: r in voteResults && r.legislatorId == l.id && r.voteType == t {
      var r :| r in voteResults && r.legislatorId == l.id && r.voteType == t;
      assert (r, l) in merged;
      var i :| 0 <= i < |merged| && merged[i] == (r, l);
      assert obs[i] == (l, t);
    }
  }

  /** The vote-type columns are exactly the vote types of the results whose
      legislator is known. */
  lemma CountsColumns(legislators: seq<Legislator>, voteResults: seq<VoteResult>)
    ensures forall t :: t in Counts(legislators, voteResults).columns <==> t in MatchedVoteTypes(legislators, voteResults)
  {
    var obs := Observations(Merged(legislators, voteResults));
    forall t ensures t in Counts(legislators, voteResults).columns <==> t in MatchedVoteTypes(legislators, voteResults) {
      if t in Counts(legislators, voteResults).columns {
        var l :| (l, t) in obs;
        ObservationsOfMerged(legislators, voteResults, l, t);
        var r :| r in voteResults && r.legislatorId == l.id && r.voteType == t;
        assert HasLegislator(legislators, r.legislatorId);
      }
      if t in MatchedVoteTypes(legislators, voteResults) {
        var r :| r in voteResults && HasLegislator(legislators, r.legislatorId) && r.voteType == t;
        var l :| l in legislators && l.id == r.legislatorId;
        ObservationsOfMerged(legislators, voteResults, l, t);
      }
    }
  }

  /** The relabelling at the end succeeds exactly when the vote results
      whose legislator is known carry exactly two distinct vote types. */
  lemma LegislatorReportSucceedsIffTwoVoteTypes(legislators: seq<Legislator>, voteResults: seq<VoteResult>)
    ensures CalculateLegislatorVotes(legislators, voteResults).Ok?
        <==> |MatchedVoteTypes(legislators, voteResults)| == 2
    ensures |MatchedVoteTypes(legislators, voteResults)| != 2 ==>
      CalculateLegislatorVotes(legislators, voteResults) == Err(LengthMismatch(2 + |MatchedVoteTypes(legislators, voteResults)|, 4))
  {
    var columns := Counts(legislators, voteResults).columns;
    IntLessIsStrictTotalOrder();
    StrictlyIncreasingCardinality(IntLess, columns);
    CountsColumns(legislators, voteResults);
    assert (set x | x in columns) == MatchedVoteTypes(legislators, voteResults);
  }

  lemma {:induction false} ObservationsOfPairs(r: VoteResult, matches: seq<Legislator>, l: Legislator, t: int)
    ensures multiset(Observations(Pairs(r, matches)))[(l, t)] == if r.voteType == t then multiset(matches)[l] else 0
  {
    if matches != [] {
      ObservationsOfPairs(r, matches[1..], l, t);
      assert Observations(Pairs(r, matches)) == [(matches[0], r.voteType)] + Observations(Pairs(r, matches[1..]));
      assert matches == [matches[0]] + matches[1..];
    }
  }

  /** What the first vote result contributes to the merge. */
  lemma MergedHead(legislators: seq<Legislator>, voteResults: seq<VoteResult>, l: Legislator, t: int)
    requires voteResults != []
    ensures multiset(Observations(Merged(legislators, voteResults)))[(l, t)]
         == (if voteResults[0].legislatorId == l.id && voteResults[0].voteType == t then multiset(legislators)[l] else 0)
          + multiset(Observations(Merged(legislators, voteResults[1..])))[(l, t)]
  {
    var r := voteResults[0];
    var matches := MatchingRows(legislators, LegislatorId, r.legislatorId);
    var here := Pairs(r, matches);
    var rest := Merged(legislators, voteResults[1..]);
    assert Observations(Merged(legislators, voteResults)) == Observations(here) + Observations(rest) by {
      InnerJoinCons(voteResults, legislators, ResultLegislatorId, LegislatorId);
      assert ResultLegislatorId(r) == r.legislatorId;
      assert Merged(legislators, voteResults) == here + rest;
      assert Observations(here + rest) == Observations(here) + Observations(rest);
    }
    var mh, mr := multiset(Observations(here)), multiset(Observations(rest));
    assert multiset(Observations(Merged(legislators, voteResults)))[(l, t)] == mh[(l, t)] + mr[(l, t)];
    assert mh[(l, t)] == if r.legislatorId == l.id && r.voteType == t then multiset(legislators)[l] else 0 by {
      ObservationsOfPairs(r, matches, l, t);
      assert multiset(matches)[l] == if l.id == r.legislatorId then multiset(legislators)[l] else 0;
    }
  }

  /** Every cell of the unstacked frame counts the legislator's vote
      results of that type, once per copy of the legislator row (the merge
      multiplies rows when the table repeats a legislator). */
  lemma {:induction false} MergedSize(legislators: seq<Legislator>, voteResults: seq<VoteResult>, l: Legislator, t: int)
    ensures Size(Observations(Merged(legislators, voteResults)), l, t)
         == VotesCast(voteResults, l.id, t) * multiset(legislators)[l]
  {
    if voteResults == [] {
      assert Observations(Merged(legislators, voteResults)) == [];
    } else {
      var n, v := multiset(legislators)[l], VotesCast(voteResults[1..], l.id, t);
      var c := if voteResults[0].legislatorId == l.id && voteResults[0].voteType == t then 1 else 0;
      var total := VotesCast(voteResults, l.id, t);
      assert total == c + v;
      calc {
        Size(Observations(Merged(legislators, voteResults)), l, t);
        multiset(Observations(Merged(legislators, voteResults)))[(l, t)];
        { MergedHead(legislators, voteResults, l, t); }
        c * n + multiset(Observations(Merged(legislators, voteResults[1..])))[(l, t)];
        { MergedSize(legislators, voteResults[1..], l, t); }
        c * n + v * n;
        (c + v) * n;
        total * n;
      }
    }
  }

  /** The unstacked frame has a row for a legislator exactly when that
      legislator row exists and cast at least one vote result. */
  lemma CountsKeys(legislators: seq<Legislator>, voteResults: seq<VoteResult>, l: Legislator)
    ensures l in RowKeys(Counts(legislators, voteResults).rows)
        <==> l in legislators && exists r :: r in voteResults && r.legislatorId == l.id
  {
    var obs := Observations(Merged(legislators, voteResults));
    if l in RowKeys(Counts(legislators, voteResults).rows) {
      var t :| (l, t) in obs;
      ObservationsOfMerged(legislators, voteResults, l, t);
    }
    if l in legislators && exists r :: r in voteResults && r.legislatorId == l.id {
      var r :| r in voteResults && r.legislatorId == l.id;
      ObservationsOfMerged(legislators, voteResults, l, r.voteType);
    }
  }

  /** Row i of the report is row i of the unstacked frame, relabelled. */
  lemma ReportRowsAreCountsRows(legislators: seq<Legislator>, voteResults: seq<VoteResult>)
    requires CalculateLegislatorVotes(legislators, voteResults).Ok?
    ensures var u := Counts(legislators, voteResults);
      var rows := CalculateLegislatorVotes(legislators, voteResults).value;
      && |u.columns| == 2
      && |rows| == |u.rows|
      && forall i :: 0 <= i < |rows| ==>
           && Legislator(rows[i].id, rows[i].name) == RowKeys(u.rows)[i]
           && rows[i].numSupportedBills == Size(Observations(Merged(legislators, voteResults)), RowKeys(u.rows)[i], u.columns[0])
           && rows[i].numOpposedBills == Size(Observations(Merged(legislators, voteResults)), RowKeys(u.rows)[i], u.columns[1])
  {
  }

  /** The report has a row (id, name) exactly for each legislator row that
      cast at least one vote result: results of unknown legislators are
      dropped and legislators who never voted are absent. */
  lemma LegislatorReportRowsAreVotingLegislators(legislators: seq<Legislator>, voteResults: seq<VoteResult>, l: Legislator)
    requires CalculateLegislatorVotes(legislators, voteResults).Ok?
    ensures var rows := CalculateLegislatorVotes(legislators, voteResults).value;
      (exists i :: 0 <= i < |rows| && rows[i].id == l.id && rows[i].name == l.name)
      <==> l in legislators && exists r :: r in voteResults && r.legislatorId == l.id
  {
    var keys := RowKeys(Counts(legislators, voteResults).rows);
    var rows := CalculateLegislatorVotes(legislators, voteResults).value;
    ReportRowsAreCountsRows(legislators, voteResults);
    CountsKeys(legislators, voteResults, l);
    if l in keys {
      var i :| 0 <= i < |keys| && keys[i] == l;
      assert rows[i].id == l.id && rows[i].name == l.name;
    }
    if exists i :: 0 <= i < |rows| && rows[i].id == l.id && rows[i].name == l.name {
      var i :| 0 <= i < |rows| && rows[i].id == l.id && rows[i].name == l.name;
      assert keys[i] == l;
    }
  }

  /** With the two vote types `lo < hi`, the smaller one feeds
      `num_supported_bills` and the larger `num_opposed_bills`; each counts
      the legislator's results of that type (0 when there are none), times
      the number of copies of the legislator row. */
  lemma LegislatorReportCounts(legislators: seq<Legislator>, voteResults: seq<VoteResult>, lo: int, hi: int)
    requires lo < hi && MatchedVoteTypes(legislators, voteResults) == {lo, hi}
    ensures CalculateLegislatorVotes(legislators, voteResults).Ok?
    ensures var rows := CalculateLegislatorVotes(legislators, voteResults).value;
      forall i :: 0 <= i < |rows| ==>
        var l := Legislator(rows[i].id, rows[i].name);
        && rows[i].numSupportedBills == VotesCast(voteResults, rows[i].id, lo) * multiset(legislators)[l]
        && rows[i].numOpposedBills == VotesCast(voteResults, rows[i].id, hi) * multiset(legislators)[l]
  {
    LegislatorReportSucceedsIffTwoVoteTypes(legislators, voteResults);
    var rows := CalculateLegislatorVotes(legislators, voteResults).value;
    forall i | 0 <= i < |rows|
      ensures var l := Legislator(rows[i].id, rows[i].name);
        && rows[i].numSupportedBills == VotesCast(voteResults, rows[i].id, lo) * multiset(legislators)[l]
        && rows[i].numOpposedBills == VotesCast(voteResults, rows[i].id, hi) * multiset(legislators)[l]
    {
      RowCounts(legislators, voteResults, lo, hi, i);
    }
  }

  /** With vote types `lo < hi` only, the pivot columns are `[lo, hi]`. */
  lemma ColumnsArePair(legislators: seq<Legislator>, voteResults: seq<VoteResult>, lo: int, hi: int)
    requires lo < hi && MatchedVoteTypes(legislators, voteResults) == {lo, hi}
    ensures Counts(legislators, voteResults).columns == [lo, hi]
  {
    CountsColumns(legislators, voteResults);
    IncreasingPair(Counts(legislators, voteResults).columns, MatchedVoteTypes(legislators, voteResults), lo, hi);
  }

  /** One row of the report: its counts are its legislator's results of the
      two types, times the copies of the legislator row. */
  lemma RowCounts(legislators: seq<Legislator>, voteResults: seq<VoteResult>, lo: int, hi: int, i: int)
    requires lo < hi && MatchedVoteTypes(legislators, voteResults) == {lo, hi}
    requires CalculateLegislatorVotes(legislators, voteResults).Ok?
    requires 0 <= i < |CalculateLegislatorVotes(legislators, voteResults).value|
    ensures var row := CalculateLegislatorVotes(legislators, voteResults).value[i];
      var l := Legislator(row.id, row.name);
      && row.numSupportedBills == VotesCast(voteResults, row.id, lo) * multiset(legislators)[l]
      && row.numOpposedBills == VotesCast(voteResults, row.id, hi) * multiset(legislators)[l]
  {
    var u := Counts(legislators, voteResults);
    var obs := Observations(Merged(legislators, voteResults));
    ColumnsArePair(legislators, voteResults, lo, hi);
    var row := CalculateLegislatorVotes(legislators, voteResults).value[i];
    var l := Legislator(row.id, row.name);
    assert row.numSupportedBills == Size(obs, l, lo) && row.numOpposedBills == Size(obs, l, hi) by {
      ReportRowsAreCountsRows(legislators, voteResults);
    }
    MergedSize(legislators, voteResults, l, lo);
    MergedSize(legislators, voteResults, l, hi);
  }

  lemma {:induction false} VotesCastSplits(voteResults: seq<VoteResult>, id: int, lo: int, hi: int)
    requires lo != hi
    requires forall r :: r in voteResults && r.legislatorId == id ==> r.voteType == lo || r.voteType == hi
    ensures VotesCast(voteResults, id, lo) + VotesCast(voteResults, id, hi) == VotesCastBy(voteResults, id)
  {
    if voteResults != [] {
      assert voteResults[0] in voteResults;
      VotesCastSplits(voteResults[1..], id, lo, hi);
    }
  }

  /** A successful report was built on exactly two vote types: the smaller
      feeds the supported column and the larger the opposed one. */
  lemma ReportColumns(legislators: seq<Legislator>, voteResults: seq<VoteResult>)
    requires CalculateLegislatorVotes(legislators, voteResults).Ok?
    ensures var columns := Counts(legislators, voteResults).columns;
      && |columns| == 2
      && columns[0] < columns[1]
      && MatchedVoteTypes(legislators, voteResults) == {columns[0], columns[1]}
  {
    CountsColumns(legislators, voteResults);
    var columns := Counts(legislators, voteResults).columns;
    assert IntLess(columns[0], columns[1]);
    assert columns == [columns[0], columns[1]];
    assert (set x | x in columns) == MatchedVoteTypes(legislators, voteResults);
  }

  /** One row of the report: with unique legislator ids its two counts add
      up to the vote results cast by that legislator. */
  lemma RowTotal(legislators: seq<Legislator>, voteResults: seq<VoteResult>, lo: int, hi: int, i: int)
    requires UniqueKeys(legislators, LegislatorId)
    requires lo < hi && MatchedVoteTypes(legislators, voteResults) == {lo, hi}
    requires CalculateLegislatorVotes(legislators, voteResults).Ok?
    requires 0 <= i < |CalculateLegislatorVotes(legislators, voteResults).value|
    ensures var row := CalculateLegislatorVotes(legislators, voteResults).value[i];
      row.numSupportedBills + row.numOpposedBills == VotesCastBy(voteResults, row.id)
  {
    var rows := CalculateLegislatorVotes(legislators, voteResults).value;
    var l := Legislator(rows[i].id, rows[i].name);
    assert l in legislators by {
      LegislatorReportRowsAreVotingLegislators(legislators, voteResults, l);
    }
    assert multiset(legislators)[l] == 1 by {
      UniqueKeysOccurrence(legislators, LegislatorId, l);
    }
    assert rows[i].numSupportedBills + rows[i].numOpposedBills
        == VotesCast(voteResults, l.id, lo) + VotesCast(voteResults, l.id, hi) by {
      LegislatorReportCounts(legislators, voteResults, lo, hi);
    }
    forall r | r in voteResults && r.legislatorId == l.id ensures r.voteType == lo || r.voteType == hi {
      assert r.voteType in MatchedVoteTypes(legislators, voteResults);
    }
    VotesCastSplits(voteResults, l.id, lo, hi);
  }

  /** With unique legislator ids, every row's two counts add up to the
      number of vote results cast by that legislator. */
  lemma LegislatorReportTotals(legislators: seq<Legislator>, voteResults: seq<VoteResult>)
    requires UniqueKeys(legislators, LegislatorId)
    requires CalculateLegislatorVotes(legislators, voteResults).Ok?
    ensures var rows := CalculateLegislatorVotes(legislators, voteResults).value;
      forall i :: 0 <= i < |rows| ==>
        rows[i].numSupportedBills + rows[i].numOpposedBills == VotesCastBy(voteResults, rows[i].id)
  {
    ReportColumns(legislators, voteResults);
    var columns := Counts(legislators, voteResults).columns;
    var rows := CalculateLegislatorVotes(legislators, voteResults).value;
    forall i | 0 <= i < |rows|
      ensures rows[i].numSupportedBills + rows[i].numOpposedBills == VotesCastBy(voteResults, rows[i].id)
    {
      RowTotal(legislators, voteResults, columns[0], columns[1], i);
    }
  }

  /** Rows come out in ascending (id, name) order, hence with unique
      legislator ids in strictly ascending id order, one row per id. */
  lemma LegislatorReportOrder(legislators: seq<Legislator>, voteResults: seq<VoteResult>)
    requires CalculateLegislatorVotes(legislators, voteResults).Ok?
    ensures var rows := CalculateLegislatorVotes(legislators, voteResults).value;
      forall i, j :: 0 <= i < j < |rows| ==>
        rows[i].id < rows[j].id || (rows[i].id == rows[j].id && StringLess(rows[i].name, rows[j].name))
    ensures UniqueKeys(legislators, LegislatorId) ==>
      var rows := CalculateLegislatorVotes(legislators, voteResults).value;
      forall i, j :: 0 <= i < j < |rows| ==> rows[i].id < rows[j].id
  {
    var u := Counts(legislators, voteResults);
    var rows := CalculateLegislatorVotes(legislators, voteResults).value;
    assert forall i, j :: 0 <= i < j < |rows| ==> LegislatorLess(RowKeys(u.rows)[i], RowKeys(u.rows)[j]);
    if UniqueKeys(legislators, LegislatorId) {
      forall i, j | 0 <= i < j < |rows| ensures rows[i].id < rows[j].id {
        if rows[i].id == rows[j].id {
          var a, b := Legislator(rows[i].id, rows[i].name), Legislator(rows[j].id, rows[j].name);
          LegislatorReportRowsAreVotingLegislators(legislators, voteResults, a);
          LegislatorReportRowsAreVotingLegislators(legislators, voteResults, b);
          var x :| 0 <= x < |legislators| && legislators[x] == a;
          var y :| 0 <= y < |legislators| && legislators[y] == b;
          StringLessIrreflexive(a.name);
        }
      }
    }
  }

  /** When the vote results of known legislators carry one vote type
      only (say, one legislator with two results of the same type), the
      unstacked frame gets a single vote-type column, and relabelling three
      columns onto four names fails. */
  lemma SingleVoteTypeFails(legislators: seq<Legislator>, voteResults: seq<VoteResult>, t: int)
    requires MatchedVoteTypes(legislators, voteResults) == {t}
    ensures CalculateLegislatorVotes(legislators, voteResults) == Err(LengthMismatch(3, 4))
  {
    LegislatorReportSucceedsIffTwoVoteTypes(legislators, voteResults);
  }
}
