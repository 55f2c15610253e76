/** `calculate_bill_votes`: how many vote results of each of the two vote
    types every bill received, with its title and the name of its primary
    sponsor. */
module BillVotes {
  import opened Wrappers
  import opened Ordering
  import opened Relational
  import opened Pivot
  import opened Tables

  /** What `primary_sponsor` holds when the sponsor cannot be resolved. */
  const Unknown: string := "Desconhecido"

  /** A row of the relabelled count frame `id, supporter_count, opposer_count`. */
  datatype BillCount = BillCount(id: int, supporterCount: nat, opposerCount: nat)

  /** A row of bills.csv as the analyser writes it. */
  datatype BillSummary = BillSummary(id: int, title: string, supporterCount: nat, opposerCount: nat, primarySponsor: string)

  /** The inner merge of vote results with votes on `vote_id = id`. */
  function Merged(votes: seq<Vote>, voteResults: seq<VoteResult>): seq<(VoteResult, Vote)> {
    InnerJoin(voteResults, votes, ResultVoteId, VoteId)
  }

  /** Each merged row as (bill_id, vote_type). */
  function Observations(merged: seq<(VoteResult, Vote)>): seq<(int, int)> {
    seq(|merged|, i requires 0 <= i < |merged| => (merged[i].1.billId, merged[i].0.voteType))
  }

  /** The merged rows grouped by (bill_id, vote_type), counted and unstacked
      with zero fill. */
  function Counts(votes: seq<Vote>, voteResults: seq<VoteResult>): Unstacked<int> {
    IntLessIsStrictTotalOrder();
    GroupSizeUnstack(IntLess, Observations(Merged(votes, voteResults)))
  }

  /** The count frame relabelled `id, supporter_count, opposer_count` by
      position, which fails unless exactly two vote types survive the merge. */
  function BillCounts(votes: seq<Vote>, voteResults: seq<VoteResult>): (r: Result<seq<BillCount>, FrameError>)
    ensures r.Err? ==> r.error.given == 3 && r.error.expected != 3
  {
    var u := Counts(votes, voteResults);
    if |u.columns| != 2 then Err(LengthMismatch(1 + |u.columns|, 3))
    else
      Ok(seq(|u.rows|, i requires 0 <= i < |u.rows| =>
        BillCount(u.rows[i].key, u.rows[i].counts[0], u.rows[i].counts[1])))
  }

  function BillCountId(c: BillCount): int { c.id }

  /** The left key of the sponsor merge: the bill's `sponsor_id`. */
  function SponsorId(p: (BillCount, Bill)): Option<int> { p.1.sponsor }

  /** The right key of the sponsor merge: a legislator id is never empty. */
  function LegislatorKey(l: Legislator): Option<int> { Some(l.id) }

  /** The counts merged with bills on `id`, then left-merged with
      legislators on `sponsor_id = id`. */
  function Resolved(bills: seq<Bill>, legislators: seq<Legislator>, counts: seq<BillCount>): seq<((BillCount, Bill), Option<Legislator>)> {
    LeftJoin(InnerJoin(counts, bills, BillCountId, BillId), legislators, SponsorId, LegislatorKey)
  }

  /** The projected and relabelled row, with the missing sponsor name filled. */
  function Summary(row: ((BillCount, Bill), Option<Legislator>)): BillSummary {
    var (counted, sponsor) := row;
    BillSummary(counted.1.id, counted.1.title, counted.0.supporterCount, counted.0.opposerCount,
      match sponsor
      case None => Unknown
      case Some(l) => l.name)
  }

  /** The whole function. */
  function CalculateBillVotes(bills: seq<Bill>, legislators: seq<Legislator>, votes: seq<Vote>, voteResults: seq<VoteResult>): (r: Result<seq<BillSummary>, FrameError>)
    ensures r.Err? <==> BillCounts(votes, voteResults).Err?
    ensures r.Err? ==> r.error == BillCounts(votes, voteResults).error
    ensures r.Err? ==> r.error.given == 3 && r.error.expected != 3
  {
    match BillCounts(votes, voteResults)
    case Err(e) => Err(e)
    case Ok(counts) =>
      var resolved := Resolved(bills, legislators, counts);
      Ok(seq(|resolved|, i requires 0 <= i < |resolved| => Summary(resolved[i])))
  }

  // ---------------------------------------------------------------------
  // Reference definitions over the input tables

  predicate HasVote(votes: seq<Vote>, voteId: int) {
    exists v :: v in votes && v.id == voteId
  }

  /** A vote with this id is a vote on this bill. */
  predicate VoteOnBill(votes: seq<Vote>, voteId: int, billId: int) {
    exists v :: v in votes && v.id == voteId && v.billId == billId
  }

  /** The vote types of the vote results whose vote is known. */
  ghost function MatchedVoteTypes(votes: seq<Vote>, voteResults: seq<VoteResult>): set<int> {
    set r | r in voteResults && HasVote(votes, r.voteId) :: r.voteType
  }

  /** Number of vote results of type `voteType` on a vote on bill `billId`. */
  function BallotsOn(votes: seq<Vote>, voteResults: seq<VoteResult>, billId: int, voteType: int): nat {
    if voteResults == [] then 0
    else
      (if voteResults[0].voteType == voteType && VoteOnBill(votes, voteResults[0].voteId, billId) then 1 else 0)
      + BallotsOn(votes, voteResults[1..], billId, voteType)
  }

  /** Number of vote results, of any type, on a vote on bill `billId`. */
  function BallotsOnBill(votes: seq<Vote>, voteResults: seq<VoteResult>, billId: int): nat {
    if voteResults == [] then 0
    else
      (if VoteOnBill(votes, voteResults[0].voteId, billId) then 1 else 0)
      + BallotsOnBill(votes, voteResults[1..], billId)
  }

  /** How `primary_sponsor` relates to the legislators table: the name of a
      legislator whose id is the sponsor id, or Unknown when there is none
      (an empty sponsor id included). */
  predicate SponsorResolved(legislators: seq<Legislator>, sponsor: Option<int>, name: string) {
    if exists l :: l in legislators && Some(l.id) == sponsor
    then exists l :: l in legislators && Some(l.id) == sponsor && l.name == name
    else name == Unknown
  }

  // ---------------------------------------------------------------------
  // Lemmas: the count frame

  /** A (bill, vote type) observation exists exactly when some vote result
      of that type is on a vote on that bill. */
  lemma ObservationsOfMerged(votes: seq<Vote>, voteResults: seq<VoteResult>, b: int, t: int)
    ensures (b, t) in Observations(Merged(votes, voteResults))
        <==> exists r :: r in voteResults && r.voteType == t && VoteOnBill(votes, r.voteId, b)
  {
    var merged := Merged(votes, voteResults);
    var obs := Observations(merged);
    if (b, t) in obs {
      var i :| 0 <= i < |obs| && obs[i] == (b, t);
      assert merged[i] in merged;
    }
    if exists r :: r in voteResults && r.voteType == t && VoteOnBill(votes, r.voteId, b) {
      var r :| r in voteResults && r.voteType == t && VoteOnBill(votes, r.voteId, b);
      var v :| v in votes && v.id == r.voteId && v.billId == b;
      assert (r, v) in merged;
      var i :| 0 <= i < |merged| && merged[i] == (r, v);
      assert obs[i] == (b, t);
    }
  }

  /** The vote-type columns are exactly the vote types of the results whose
      vote is known. */
  lemma CountsColumns(votes: seq<Vote>, voteResults: seq<VoteResult>)
    ensures forall t :: t in Counts(votes, voteResults).columns <==> t in MatchedVoteTypes(votes, voteResults)
  {
    var obs := Observations(Merged(votes, voteResults));
    forall t ensures t in Counts(votes, voteResults).columns <==> t in MatchedVoteTypes(votes, voteResults) {
      if t in Counts(votes, voteResults).columns {
        var b :| (b, t) in obs;
        ObservationsOfMerged(votes, voteResults, b, t);
        var r :| r in voteResults && r.voteType == t && VoteOnBill(votes, r.voteId, b);
        assert HasVote(votes, r.voteId);
      }
      if t in MatchedVoteTypes(votes, voteResults) {
        var r :| r in voteResults && HasVote(votes, r.voteId) && r.voteType == t;
        var v :| v in votes && v.id == r.voteId;
        ObservationsOfMerged(votes, voteResults, v.billId, t);
      }
    }
  }

  /** The relabelling of the count frame, and with it the whole function,
      succeeds exactly when the vote results whose vote is known carry
      exactly two distinct vote types. */
  lemma BillReportSucceedsIffTwoVoteTypes(bills: seq<Bill>, legislators: seq<Legislator>, votes: seq<Vote>, voteResults: seq<VoteResult>)
    ensures CalculateBillVotes(bills, legislators, votes, voteResults).Ok?
        <==> |MatchedVoteTypes(votes, voteResults)| == 2
    ensures |MatchedVoteTypes(votes, voteResults)| != 2 ==>
      CalculateBillVotes(bills, legislators, votes, voteResults) == Err(LengthMismatch(1 + |MatchedVoteTypes(votes, voteResults)|, 3))
  {
    var columns := Counts(votes, voteResults).columns;
    IntLessIsStrictTotalOrder();
    StrictlyIncreasingCardinality(IntLess, columns);
    CountsColumns(votes, voteResults);
    assert (set x | x in columns) == MatchedVoteTypes(votes, voteResults);
  }

  /** With unique vote ids a vote result joins at most one vote. */
  lemma PairsObservation(votes: seq<Vote>, r: VoteResult, b: int, t: int)
    requires UniqueKeys(votes, VoteId)
    ensures multiset(Observations(Pairs(r, MatchingRows(votes, VoteId, r.voteId))))[(b, t)]
         == if r.voteType == t && VoteOnBill(votes, r.voteId, b) then 1 else 0
  {
    var matches := MatchingRows(votes, VoteId, r.voteId);
    MatchingRowsOnUniqueKeys(votes, VoteId, r.voteId);
    if matches == [] {
      assert Observations(Pairs(r, matches)) == [];
    } else {
      var v := matches[0];
      assert matches == [v];
      assert Observations(Pairs(r, matches)) == [(v.billId, r.voteType)];
      assert v in matches;
      if VoteOnBill(votes, r.voteId, b) {
        var w :| w in votes && w.id == r.voteId && w.billId == b;
        assert w in matches;
      }
    }
  }

  /** What the first vote result contributes to the merge. */
  lemma MergedHead(votes: seq<Vote>, voteResults: seq<VoteResult>, b: int, t: int)
    requires UniqueKeys(votes, VoteId)
    requires voteResults != []
    ensures multiset(Observations(Merged(votes, voteResults)))[(b, t)]
         == (if voteResults[0].voteType == t && VoteOnBill(votes, voteResults[0].voteId, b) then 1 else 0)
          + multiset(Observations(Merged(votes, voteResults[1..])))[(b, t)]
  {
    var r := voteResults[0];
    var here := Pairs(r, MatchingRows(votes, VoteId, r.voteId));
    var rest := Merged(votes, voteResults[1..]);
    assert Observations(Merged(votes, voteResults)) == Observations(here) + Observations(rest) by {
      InnerJoinCons(voteResults, votes, ResultVoteId, VoteId);
      assert ResultVoteId(r) == r.voteId;
      assert Merged(votes, voteResults) == here + rest;
      assert Observations(here + rest) == Observations(here) + Observations(rest);
    }
    var mh, mr := multiset(Observations(here)), multiset(Observations(rest));
    assert multiset(Observations(Merged(votes, voteResults))) == mh + mr;
    assert multiset(Observations(Merged(votes, voteResults)))[(b, t)] == mh[(b, t)] + mr[(b, t)];
    assert mh[(b, t)] == if r.voteType == t && VoteOnBill(votes, r.voteId, b) then 1 else 0 by {
      PairsObservation(votes, r, b, t);
    }
  }

  /** With unique vote ids every cell of the count frame is the number of
      vote results of that type on a vote on that bill. */
  lemma {:induction false} MergedSize(votes: seq<Vote>, voteResults: seq<VoteResult>, b: int, t: int)
    requires UniqueKeys(votes, VoteId)
    ensures Size(Observations(Merged(votes, voteResults)), b, t) == BallotsOn(votes, voteResults, b, t)
  {
    if voteResults == [] {
      assert Observations(Merged(votes, voteResults)) == [];
    } else {
      assert Size(Observations(Merged(votes, voteResults)), b, t)
          == (if voteResults[0].voteType == t && VoteOnBill(votes, voteResults[0].voteId, b) then 1 else 0)
           + BallotsOn(votes, voteResults[1..], b, t) by {
        MergedHead(votes, voteResults, b, t);
        MergedSize(votes, voteResults[1..], b, t);
      }
    }
  }

  /** The count frame has a row for a bill exactly when some vote result is
      on a vote on that bill. */
  lemma CountsKeys(votes: seq<Vote>, voteResults: seq<VoteResult>, b: int)
    ensures b in RowKeys(Counts(votes, voteResults).rows)
        <==> exists r :: r in voteResults && VoteOnBill(votes, r.voteId, b)
  {
    var obs := Observations(Merged(votes, voteResults));
    if b in RowKeys(Counts(votes, voteResults).rows) {
      var t :| (b, t) in obs;
      ObservationsOfMerged(votes, voteResults, b, t);
    }
    if exists r :: r in voteResults && VoteOnBill(votes, r.voteId, b) {
      var r :| r in voteResults && VoteOnBill(votes, r.voteId, b);
      ObservationsOfMerged(votes, voteResults, b, r.voteType);
    }
  }

  /** Row i of the relabelled count frame is row i of the unstacked frame. */
  lemma BillCountsAreCountsRows(votes: seq<Vote>, voteResults: seq<VoteResult>)
    requires BillCounts(votes, voteResults).Ok?
    ensures var u := Counts(votes, voteResults);
      var counts := BillCounts(votes, voteResults).value;
      && |u.columns| == 2
      && |counts| == |u.rows|
      && forall i :: 0 <= i < |counts| ==>
           && counts[i].id == RowKeys(u.rows)[i]
           && counts[i].supporterCount == Size(Observations(Merged(votes, voteResults)), counts[i].id, u.columns[0])
           && counts[i].opposerCount == Size(Observations(Merged(votes, voteResults)), counts[i].id, u.columns[1])
  {
  }

  /** A successful count frame was built on exactly two vote types. */
  lemma CountsColumnsOnSuccess(votes: seq<Vote>, voteResults: seq<VoteResult>)
    requires BillCounts(votes, voteResults).Ok?
    ensures var columns := Counts(votes, voteResults).columns;
      && |columns| == 2
      && columns[0] < columns[1]
      && MatchedVoteTypes(votes, voteResults) == {columns[0], columns[1]}
  {
    CountsColumns(votes, voteResults);
    var columns := Counts(votes, voteResults).columns;
    assert IntLess(columns[0], columns[1]);
    assert columns == [columns[0], columns[1]];
    assert (set x | x in columns) == MatchedVoteTypes(votes, voteResults);
  }

  /** The count frame has one row per bill with a counted vote result, in
      strictly ascending bill id order. */
  lemma BillCountsKeys(votes: seq<Vote>, voteResults: seq<VoteResult>, b: int)
    requires BillCounts(votes, voteResults).Ok?
    ensures var counts := BillCounts(votes, voteResults).value;
      && (forall i, j :: 0 <= i < j < |counts| ==> counts[i].id < counts[j].id)
      && ((exists i :: 0 <= i < |counts| && counts[i].id == b)
          <==> exists r :: r in voteResults && VoteOnBill(votes, r.voteId, b))
  {
    var keys := RowKeys(Counts(votes, voteResults).rows);
    var counts := BillCounts(votes, voteResults).value;
    BillCountsAreCountsRows(votes, voteResults);
    CountsKeys(votes, voteResults, b);
    assert forall i, j :: 0 <= i < j < |counts| ==> IntLess(keys[i], keys[j]);
    if b in keys {
      var i :| 0 <= i < |keys| && keys[i] == b;
      assert counts[i].id == b;
    }
  }

  /** With the two vote types `lo < hi` and unique vote ids, the smaller
      type feeds `supporter_count` and the larger `opposer_count`; each
      counts the bill's vote results of that type (0 when there are none). */
  lemma BillCountsCounts(votes: seq<Vote>, voteResults: seq<VoteResult>, lo: int, hi: int)
    requires UniqueKeys(votes, VoteId)
    requires lo < hi && MatchedVoteTypes(votes, voteResults) == {lo, hi}
    ensures BillCounts(votes, voteResults).Ok?
    ensures var counts := BillCounts(votes, voteResults).value;
      forall i :: 0 <= i < |counts| ==>
        && counts[i].supporterCount == BallotsOn(votes, voteResults, counts[i].id, lo)
        && counts[i].opposerCount == BallotsOn(votes, voteResults, counts[i].id, hi)
  {
    assert Counts(votes, voteResults).columns == [lo, hi] by {
      CountsColumns(votes, voteResults);
      IncreasingPair(Counts(votes, voteResults).columns, MatchedVoteTypes(votes, voteResults), lo, hi);
    }
    var counts := BillCounts(votes, voteResults).value;
    BillCountsAreCountsRows(votes, voteResults);
    forall i | 0 <= i < |counts|
      ensures counts[i].supporterCount == BallotsOn(votes, voteResults, counts[i].id, lo)
      ensures counts[i].opposerCount == BallotsOn(votes, voteResults, counts[i].id, hi)
    {
      MergedSize(votes, voteResults, counts[i].id, lo);
      MergedSize(votes, voteResults, counts[i].id, hi);
    }
  }

  lemma {:induction false} BallotsOnSplits(votes: seq<Vote>, voteResults: seq<VoteResult>, b: int, lo: int, hi: int)
    requires lo != hi
    requires forall r :: r in voteResults && VoteOnBill(votes, r.voteId, b) ==> r.voteType == lo || r.voteType == hi
    ensures BallotsOn(votes, voteResults, b, lo) + BallotsOn(votes, voteResults, b, hi) == BallotsOnBill(votes, voteResults, b)
  {
    if voteResults != [] {
      assert voteResults[0] in voteResults;
      BallotsOnSplits(votes, voteResults[1..], b, lo, hi);
    }
  }

  // ---------------------------------------------------------------------
  // Lemmas: the report

  /** Row i of the report is row i of the resolved merge, projected. */
  lemma ReportIsSummaries(bills: seq<Bill>, legislators: seq<Legislator>, votes: seq<Vote>, voteResults: seq<VoteResult>)
    requires CalculateBillVotes(bills, legislators, votes, voteResults).Ok?
    ensures var resolved := Resolved(bills, legislators, BillCounts(votes, voteResults).value);
      var rows := CalculateBillVotes(bills, legislators, votes, voteResults).value;
      |rows| == |resolved| && forall i :: 0 <= i < |rows| ==> rows[i] == Summary(resolved[i])
  {
  }

  /** A row of the resolved merge pairs a count row with a bill row of the
      same id, and its sponsor name is resolved from that bill's sponsor id. */
  lemma ResolvedRowOrigin(bills: seq<Bill>, legislators: seq<Legislator>, counts: seq<BillCount>, p: ((BillCount, Bill), Option<Legislator>))
    requires p in Resolved(bills, legislators, counts)
    ensures p.0.0 in counts && p.0.1 in bills && p.0.0.id == p.0.1.id
    ensures SponsorResolved(legislators, p.0.1.sponsor, Summary(p).primarySponsor)
  {
    var withBills := InnerJoin(counts, bills, BillCountId, BillId);
    assert p.0 in withBills;
    match p.1
    case None =>
      assert forall l :: l in legislators ==> Some(l.id) != p.0.1.sponsor;
    case Some(l) =>
      assert l in legislators && Some(l.id) == p.0.1.sponsor;
  }

  /** Every count row and bill row with the same id meet in the resolved
      merge, at the returned position. */
  lemma ResolvedCovers(bills: seq<Bill>, legislators: seq<Legislator>, counts: seq<BillCount>, c: BillCount, b: Bill) returns (i: int)
    requires c in counts && b in bills && c.id == b.id
    ensures 0 <= i < |Resolved(bills, legislators, counts)| && Resolved(bills, legislators, counts)[i].0 == (c, b)
  {
    var withBills := InnerJoin(counts, bills, BillCountId, BillId);
    var resolved := LeftJoin(withBills, legislators, SponsorId, LegislatorKey);
    assert resolved == Resolved(bills, legislators, counts);
    assert (c, b) in withBills by {
      assert BillCountId(c) == BillId(b);
    }
    i := LeftJoinPosition(withBills, legislators, SponsorId, LegislatorKey, (c, b));
  }

  /** Where a report row comes from: a count row and a bill row with the
      same id, and the legislator its sponsor id resolves to. */
  lemma ReportRowOrigin(bills: seq<Bill>, legislators: seq<Legislator>, votes: seq<Vote>, voteResults: seq<VoteResult>, i: int)
    requires CalculateBillVotes(bills, legislators, votes, voteResults).Ok?
    requires 0 <= i < |CalculateBillVotes(bills, legislators, votes, voteResults).value|
    ensures var row := CalculateBillVotes(bills, legislators, votes, voteResults).value[i];
      exists c, b :: c in BillCounts(votes, voteResults).value && b in bills && c.id == b.id
        && row.id == b.id && row.title == b.title
        && row.supporterCount == c.supporterCount && row.opposerCount == c.opposerCount
        && SponsorResolved(legislators, b.sponsor, row.primarySponsor)
  {
    var counts := BillCounts(votes, voteResults).value;
    var resolved := Resolved(bills, legislators, counts);
    ReportIsSummaries(bills, legislators, votes, voteResults);
    assert resolved[i] in resolved;
    ResolvedRowOrigin(bills, legislators, counts, resolved[i]);
    var c, b := resolved[i].0.0, resolved[i].0.1;
  }

  /** The bills table has a bill with this id and title. */
  predicate BillListed(bills: seq<Bill>, id: int, title: string) {
    exists b :: b in bills && b.id == id && b.title == title
  }

  /** Some vote result is on a vote on bill `id`. */
  predicate VotedOn(votes: seq<Vote>, voteResults: seq<VoteResult>, id: int) {
    exists r :: r in voteResults && VoteOnBill(votes, r.voteId, id)
  }

  /** The report rows carry this id and title somewhere. */
  predicate Reported(rows: seq<BillSummary>, id: int, title: string) {
    exists i :: 0 <= i < |rows| && rows[i].id == id && rows[i].title == title
  }

  lemma ReportedBillIsVoted(bills: seq<Bill>, legislators: seq<Legislator>, votes: seq<Vote>, voteResults: seq<VoteResult>, i: int)
    requires CalculateBillVotes(bills, legislators, votes, voteResults).Ok?
    requires 0 <= i < |CalculateBillVotes(bills, legislators, votes, voteResults).value|
    ensures var row := CalculateBillVotes(bills, legislators, votes, voteResults).value[i];
      BillListed(bills, row.id, row.title) && VotedOn(votes, voteResults, row.id)
  {
    var counts := BillCounts(votes, voteResults).value;
    var row := CalculateBillVotes(bills, legislators, votes, voteResults).value[i];
    var resolved := Resolved(bills, legislators, counts);
    assert row == Summary(resolved[i]) by {
      ReportIsSummaries(bills, legislators, votes, voteResults);
    }
    var c, b := resolved[i].0.0, resolved[i].0.1;
    assert c in counts && b in bills && c.id == b.id by {
      assert resolved[i] in resolved;
      ResolvedRowOrigin(bills, legislators, counts, resolved[i]);
    }
    assert BillListed(bills, row.id, row.title);
    assert VotedOn(votes, voteResults, row.id) by {
      var k :| 0 <= k < |counts| && counts[k] == c;
      BillCountsKeys(votes, voteResults, row.id);
    }
  }

  lemma VotedBillIsReported(bills: seq<Bill>, legislators: seq<Legislator>, votes: seq<Vote>, voteResults: seq<VoteResult>, b: Bill)
    requires CalculateBillVotes(bills, legislators, votes, voteResults).Ok?
    requires b in bills && VotedOn(votes, voteResults, b.id)
    ensures Reported(CalculateBillVotes(bills, legislators, votes, voteResults).value, b.id, b.title)
  {
    assert BillCounts(votes, voteResults).Ok?;
    var counts := BillCounts(votes, voteResults).value;
    var resolved := Resolved(bills, legislators, counts);
    var rows := CalculateBillVotes(bills, legislators, votes, voteResults).value;
    assert exists k :: 0 <= k < |counts| && counts[k].id == b.id by {
      BillCountsKeys(votes, voteResults, b.id);
    }
    var k :| 0 <= k < |counts| && counts[k].id == b.id;
    var i := ResolvedCovers(bills, legislators, counts, counts[k], b);
    assert i < |rows| && rows[i] == Summary(resolved[i]) by {
      ReportIsSummaries(bills, legislators, votes, voteResults);
    }
    assert rows[i].id == b.id && rows[i].title == b.title;
  }

  /** A bill (id, title) appears in the report exactly when the bills table
      has it and some vote result is on a vote on it: bills nobody voted on
      are absent, and results on unknown votes or bills are dropped. */
  lemma BillReportRowsAreVotedBills(bills: seq<Bill>, legislators: seq<Legislator>, votes: seq<Vote>, voteResults: seq<VoteResult>, id: int, title: string)
    requires CalculateBillVotes(bills, legislators, votes, voteResults).Ok?
    ensures Reported(CalculateBillVotes(bills, legislators, votes, voteResults).value, id, title)
        <==> BillListed(bills, id, title) && VotedOn(votes, voteResults, id)
  {
    var rows := CalculateBillVotes(bills, legislators, votes, voteResults).value;
    if Reported(rows, id, title) {
      var i :| 0 <= i < |rows| && rows[i].id == id && rows[i].title == title;
      ReportedBillIsVoted(bills, legislators, votes, voteResults, i);
    }
    if BillListed(bills, id, title) && VotedOn(votes, voteResults, id) {
      var b :| b in bills && b.id == id && b.title == title;
      VotedBillIsReported(bills, legislators, votes, voteResults, b);
    }
  }

  /** With unique legislator ids a resolved sponsor name is the name of
      the one legislator with the sponsor id. */
  lemma SponsorResolvedOnUniqueKeys(legislators: seq<Legislator>, sponsor: Option<int>, name: string, l: Legislator)
    requires UniqueKeys(legislators, LegislatorId)
    requires SponsorResolved(legislators, sponsor, name)
    requires l in legislators && Some(l.id) == sponsor
    ensures name == l.name
  {
    var l' :| l' in legislators && Some(l'.id) == sponsor && l'.name == name;
    var u :| 0 <= u < |legislators| && legislators[u] == l;
    var v :| 0 <= v < |legislators| && legislators[v] == l';
  }

  /** With unique bill and legislator ids, one row's sponsor is determined. */
  lemma RowSponsorOnUniqueKeys(bills: seq<Bill>, legislators: seq<Legislator>, votes: seq<Vote>, voteResults: seq<VoteResult>, i: int, b: Bill)
    requires UniqueKeys(bills, BillId) && UniqueKeys(legislators, LegislatorId)
    requires CalculateBillVotes(bills, legislators, votes, voteResults).Ok?
    requires 0 <= i < |CalculateBillVotes(bills, legislators, votes, voteResults).value|
    requires b in bills && b.id == CalculateBillVotes(bills, legislators, votes, voteResults).value[i].id
    ensures var row := CalculateBillVotes(bills, legislators, votes, voteResults).value[i];
      && (b.sponsor.None? ==> row.primarySponsor == Unknown)
      && forall l :: l in legislators && Some(l.id) == b.sponsor ==> row.primarySponsor == l.name
  {
    var name := CalculateBillVotes(bills, legislators, votes, voteResults).value[i].primarySponsor;
    assert SponsorResolved(legislators, b.sponsor, name) by {
      var row := CalculateBillVotes(bills, legislators, votes, voteResults).value[i];
      RowSponsor(bills, legislators, votes, voteResults, i);
      assert SponsorListed(bills, legislators, row);
      var b' :| b' in bills && b'.id == row.id && SponsorResolved(legislators, b'.sponsor, row.primarySponsor);
      var x :| 0 <= x < |bills| && bills[x] == b;
      var y :| 0 <= y < |bills| && bills[y] == b';
    }
    forall l | l in legislators && Some(l.id) == b.sponsor ensures name == l.name {
      SponsorResolvedOnUniqueKeys(legislators, b.sponsor, name, l);
    }
  }

  /** Some bill row has the report row's id and title, and its sponsor id
      resolves to the row's sponsor name. */
  predicate SponsorListed(bills: seq<Bill>, legislators: seq<Legislator>, row: BillSummary) {
    exists b :: b in bills && b.id == row.id && b.title == row.title
                && SponsorResolved(legislators, b.sponsor, row.primarySponsor)
  }

  /** One row of the report: its bill's sponsor id resolves to its sponsor name. */
  lemma RowSponsor(bills: seq<Bill>, legislators: seq<Legislator>, votes: seq<Vote>, voteResults: seq<VoteResult>, i: int)
    requires CalculateBillVotes(bills, legislators, votes, voteResults).Ok?
    requires 0 <= i < |CalculateBillVotes(bills, legislators, votes, voteResults).value|
    ensures SponsorListed(bills, legislators, CalculateBillVotes(bills, legislators, votes, voteResults).value[i])
  {
    var counts := BillCounts(votes, voteResults).value;
    var row := CalculateBillVotes(bills, legislators, votes, voteResults).value[i];
    var resolved := Resolved(bills, legislators, counts);
    assert row == Summary(resolved[i]) by {
      ReportIsSummaries(bills, legislators, votes, voteResults);
    }
    var b := resolved[i].0.1;
    assert b in bills && b.id == row.id && SponsorResolved(legislators, b.sponsor, row.primarySponsor) by {
      assert resolved[i] in resolved;
      ResolvedRowOrigin(bills, legislators, counts, resolved[i]);
    }
    assert b.title == row.title;
  }

  /** `primary_sponsor` is the name of a legislator whose id is the bill's
      sponsor id, and "Desconhecido" when the sponsor id is empty or no
      legislator has it. */
  lemma BillReportSponsor(bills: seq<Bill>, legislators: seq<Legislator>, votes: seq<Vote>, voteResults: seq<VoteResult>)
    requires CalculateBillVotes(bills, legislators, votes, voteResults).Ok?
    ensures var rows := CalculateBillVotes(bills, legislators, votes, voteResults).value;
      forall i :: 0 <= i < |rows| ==> SponsorListed(bills, legislators, rows[i])
  {
    var rows := CalculateBillVotes(bills, legislators, votes, voteResults).value;
    forall i | 0 <= i < |rows| ensures SponsorListed(bills, legislators, rows[i]) {
      RowSponsor(bills, legislators, votes, voteResults, i);
    }
  }

  /** With unique bill and legislator ids, `primary_sponsor` is the name of
      the one legislator whose id is the bill's sponsor id, and
      "Desconhecido" when the bill has no sponsor id. */
  lemma BillReportSponsorOnUniqueKeys(bills: seq<Bill>, legislators: seq<Legislator>, votes: seq<Vote>, voteResults: seq<VoteResult>)
    requires UniqueKeys(bills, BillId) && UniqueKeys(legislators, LegislatorId)
    requires CalculateBillVotes(bills, legislators, votes, voteResults).Ok?
    ensures var rows := CalculateBillVotes(bills, legislators, votes, voteResults).value;
      forall i, b :: 0 <= i < |rows| && b in bills && b.id == rows[i].id ==>
        && (b.sponsor.None? ==> rows[i].primarySponsor == Unknown)
        && forall l :: l in legislators && Some(l.id) == b.sponsor ==> rows[i].primarySponsor == l.name
  {
    var rows := CalculateBillVotes(bills, legislators, votes, voteResults).value;
    forall i, b | 0 <= i < |rows| && b in bills && b.id == rows[i].id
      ensures b.sponsor.None? ==> rows[i].primarySponsor == Unknown
      ensures forall l :: l in legislators && Some(l.id) == b.sponsor ==> rows[i].primarySponsor == l.name
    {
      RowSponsorOnUniqueKeys(bills, legislators, votes, voteResults, i, b);
    }
  }

  /** One row of the report: its counts are its bill's vote results of the
      two types. */
  lemma RowCounts(bills: seq<Bill>, legislators: seq<Legislator>, votes: seq<Vote>, voteResults: seq<VoteResult>, lo: int, hi: int, i: int)
    requires UniqueKeys(votes, VoteId)
    requires lo < hi && MatchedVoteTypes(votes, voteResults) == {lo, hi}
    requires CalculateBillVotes(bills, legislators, votes, voteResults).Ok?
    requires 0 <= i < |CalculateBillVotes(bills, legislators, votes, voteResults).value|
    ensures var row := CalculateBillVotes(bills, legislators, votes, voteResults).value[i];
      && row.supporterCount == BallotsOn(votes, voteResults, row.id, lo)
      && row.opposerCount == BallotsOn(votes, voteResults, row.id, hi)
  {
    var counts := BillCounts(votes, voteResults).value;
    var row := CalculateBillVotes(bills, legislators, votes, voteResults).value[i];
    ReportRowOrigin(bills, legislators, votes, voteResults, i);
    var c, b :| c in counts && b in bills && c.id == b.id && row.id == b.id
      && row.supporterCount == c.supporterCount && row.opposerCount == c.opposerCount;
    BillCountsCounts(votes, voteResults, lo, hi);
    var k :| 0 <= k < |counts| && counts[k] == c;
  }

  /** With the two vote types `lo < hi` and unique vote ids, the smaller
      type feeds `supporter_count` and the larger `opposer_count`; each is
      the number of the bill's vote results of that type, and 0 (not a
      missing row) when the bill has none of that type. */
  lemma BillReportCounts(bills: seq<Bill>, legislators: seq<Legislator>, votes: seq<Vote>, voteResults: seq<VoteResult>, lo: int, hi: int)
    requires UniqueKeys(votes, VoteId)
    requires lo < hi && MatchedVoteTypes(votes, voteResults) == {lo, hi}
    ensures CalculateBillVotes(bills, legislators, votes, voteResults).Ok?
    ensures var rows := CalculateBillVotes(bills, legislators, votes, voteResults).value;
      forall i :: 0 <= i < |rows| ==>
        && rows[i].supporterCount == BallotsOn(votes, voteResults, rows[i].id, lo)
        && rows[i].opposerCount == BallotsOn(votes, voteResults, rows[i].id, hi)
  {
    BillCountsCounts(votes, voteResults, lo, hi);
    var rows := CalculateBillVotes(bills, legislators, votes, voteResults).value;
    forall i | 0 <= i < |rows|
      ensures rows[i].supporterCount == BallotsOn(votes, voteResults, rows[i].id, lo)
      ensures rows[i].opposerCount == BallotsOn(votes, voteResults, rows[i].id, hi)
    {
      RowCounts(bills, legislators, votes, voteResults, lo, hi, i);
    }
  }

  /** With vote types `lo` and `hi` only, every result on a vote on a bill
      has one of them. */
  lemma BallotTypes(votes: seq<Vote>, voteResults: seq<VoteResult>, lo: int, hi: int, id: int)
    requires MatchedVoteTypes(votes, voteResults) == {lo, hi}
    ensures forall r :: r in voteResults && VoteOnBill(votes, r.voteId, id) ==> r.voteType == lo || r.voteType == hi
  {
    forall r | r in voteResults && VoteOnBill(votes, r.voteId, id) ensures r.voteType == lo || r.voteType == hi {
      assert HasVote(votes, r.voteId);
      assert r.voteType in MatchedVoteTypes(votes, voteResults);
    }
  }

  /** One row of the report: its two counts add up to its bill's vote results. */
  lemma RowTotal(bills: seq<Bill>, legislators: seq<Legislator>, votes: seq<Vote>, voteResults: seq<VoteResult>, lo: int, hi: int, i: int)
    requires UniqueKeys(votes, VoteId)
    requires lo < hi && MatchedVoteTypes(votes, voteResults) == {lo, hi}
    requires CalculateBillVotes(bills, legislators, votes, voteResults).Ok?
    requires 0 <= i < |CalculateBillVotes(bills, legislators, votes, voteResults).value|
    ensures var row := CalculateBillVotes(bills, legislators, votes, voteResults).value[i];
      row.supporterCount + row.opposerCount == BallotsOnBill(votes, voteResults, row.id)
  {
    var id := CalculateBillVotes(bills, legislators, votes, voteResults).value[i].id;
    RowCounts(bills, legislators, votes, voteResults, lo, hi, i);
    assert BallotsOn(votes, voteResults, id, lo) + BallotsOn(votes, voteResults, id, hi)
        == BallotsOnBill(votes, voteResults, id) by {
      BallotTypes(votes, voteResults, lo, hi, id);
      BallotsOnSplits(votes, voteResults, id, lo, hi);
    }
  }

  /** With unique vote ids, every row's two counts add up to the number of
      vote results on a vote on that bill. */
  lemma BillReportTotals(bills: seq<Bill>, legislators: seq<Legislator>, votes: seq<Vote>, voteResults: seq<VoteResult>)
    requires UniqueKeys(votes, VoteId)
    requires CalculateBillVotes(bills, legislators, votes, voteResults).Ok?
    ensures var rows := CalculateBillVotes(bills, legislators, votes, voteResults).value;
      forall i :: 0 <= i < |rows| ==>
        rows[i].supporterCount + rows[i].opposerCount == BallotsOnBill(votes, voteResults, rows[i].id)
  {
    CountsColumnsOnSuccess(votes, voteResults);
    var columns := Counts(votes, voteResults).columns;
    var rows := CalculateBillVotes(bills, legislators, votes, voteResults).value;
    forall i | 0 <= i < |rows|
      ensures rows[i].supporterCount + rows[i].opposerCount == BallotsOnBill(votes, voteResults, rows[i].id)
    {
      RowTotal(bills, legislators, votes, voteResults, columns[0], columns[1], i);
    }
  }

  /** The id a merged (count, bill) row is sorted by. */
  function CountedId(p: (BillCount, Bill)): int { p.0.id }

  /** The merges keep the bill id order of the count rows. */
  lemma ResolvedOrder(bills: seq<Bill>, legislators: seq<Legislator>, counts: seq<BillCount>)
    requires forall i, j :: 0 <= i < j < |counts| ==> counts[i].id < counts[j].id
    ensures LeftAscending(Resolved(bills, legislators, counts), CountedId)
  {
    var withBills := InnerJoin(counts, bills, BillCountId, BillId);
    assert LeftAscending(withBills, BillCountId) by {
      InnerJoinKeepsLeftOrder(counts, bills, BillCountId, BillId, BillCountId);
    }
    assert forall i, j :: 0 <= i < j < |withBills| ==> CountedId(withBills[i]) <= CountedId(withBills[j]);
    LeftJoinKeepsLeftOrder(withBills, legislators, SponsorId, LegislatorKey, CountedId);
  }

  /** With unique bill and legislator ids the merges keep a strict order. */
  lemma ResolvedStrictOrder(bills: seq<Bill>, legislators: seq<Legislator>, counts: seq<BillCount>)
    requires UniqueKeys(bills, BillId) && UniqueKeys(legislators, LegislatorId)
    requires forall i, j :: 0 <= i < j < |counts| ==> counts[i].id < counts[j].id
    ensures LeftStrictlyAscending(Resolved(bills, legislators, counts), CountedId)
  {
    var withBills := InnerJoin(counts, bills, BillCountId, BillId);
    var resolved := Resolved(bills, legislators, counts);
    assert LeftStrictlyAscending(withBills, BillCountId) by {
      InnerJoinKeepsStrictLeftOrder(counts, bills, BillCountId, BillId, BillCountId);
    }
    assert |resolved| == |withBills| && forall i :: 0 <= i < |resolved| ==> resolved[i].0 == withBills[i] by {
      assert UniqueKeys(legislators, LegislatorKey);
      LeftJoinOnUniqueKeys(withBills, legislators, SponsorId, LegislatorKey);
    }
    forall i, j | 0 <= i < j < |resolved| ensures CountedId(resolved[i].0) < CountedId(resolved[j].0) {
      assert resolved[i].0 == withBills[i] && resolved[j].0 == withBills[j];
    }
  }

  /** Rows come out in ascending bill id order, because the count frame is
      sorted by bill id and both merges keep the order of their left rows;
      with unique bill and legislator ids strictly ascending, so one row
      per bill. */
  lemma BillReportOrder(bills: seq<Bill>, legislators: seq<Legislator>, votes: seq<Vote>, voteResults: seq<VoteResult>)
    requires CalculateBillVotes(bills, legislators, votes, voteResults).Ok?
    ensures var rows := CalculateBillVotes(bills, legislators, votes, voteResults).value;
      forall i, j :: 0 <= i < j < |rows| ==> rows[i].id <= rows[j].id
    ensures UniqueKeys(bills, BillId) && UniqueKeys(legislators, LegislatorId) ==>
      var rows := CalculateBillVotes(bills, legislators, votes, voteResults).value;
      forall i, j :: 0 <= i < j < |rows| ==> rows[i].id < rows[j].id
  {
    var counts := BillCounts(votes, voteResults).value;
    var resolved := Resolved(bills, legislators, counts);
    var rows := CalculateBillVotes(bills, legislators, votes, voteResults).value;
    ReportIsSummaries(bills, legislators, votes, voteResults);
    forall i | 0 <= i < |rows| ensures rows[i].id == CountedId(resolved[i].0) {
      assert resolved[i] in resolved;
      ResolvedRowOrigin(bills, legislators, counts, resolved[i]);
    }
    assert forall i, j :: 0 <= i < j < |counts| ==> counts[i].id < counts[j].id by {
      BillCountsKeys(votes, voteResults, 0);
    }
    ResolvedOrder(bills, legislators, counts);
    if UniqueKeys(bills, BillId) && UniqueKeys(legislators, LegislatorId) {
      ResolvedStrictOrder(bills, legislators, counts);
    }
  }

  /** When the vote results on known votes carry one vote type only (say,
      one bill with a single result), the count frame gets a single
      vote-type column, and relabelling two columns onto three names
      fails. */
  lemma SingleVoteTypeFails(bills: seq<Bill>, legislators: seq<Legislator>, votes: seq<Vote>, voteResults: seq<VoteResult>, t: int)
    requires MatchedVoteTypes(votes, voteResults) == {t}
    ensures CalculateBillVotes(bills, legislators, votes, voteResults) == Err(LengthMismatch(2, 3))
  {
    BillReportSucceedsIffTwoVoteTypes(bills, legislators, votes, voteResults);
  }
}
