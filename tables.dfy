/** The four input tables of the analyser, one datatype per row, and the
    key columns the joins use. */
module Tables {
  import opened Wrappers
  import opened Ordering

  /** A row of legislators.csv. */
  datatype Legislator = Legislator(id: int, name: string)

  /** A row of bills.csv; `sponsor` is None where `sponsor_id` is empty. */
  datatype Bill = Bill(id: int, title: string, sponsor: Option<int>)

  /** A row of votes.csv. */
  datatype Vote = Vote(id: int, billId: int)

  /** A row of vote_results.csv; `voteType` is the categorical code of the
      stance (support or oppose). */
  datatype VoteResult = VoteResult(voteId: int, legislatorId: int, voteType: int)

  function LegislatorId(l: Legislator): int { l.id }

  function BillId(b: Bill): int { b.id }

  function VoteId(v: Vote): int { v.id }

  function ResultLegislatorId(r: VoteResult): int { r.legislatorId }

  function ResultVoteId(r: VoteResult): int { r.voteId }

  /** The order of the group key (legislator_id, name): by id, then by name. */
  function LegislatorLess(a: Legislator, b: Legislator): bool {
    a.id < b.id || (a.id == b.id && StringLess(a.name, b.name))
  }

  lemma LegislatorLessIsStrictTotalOrder()
    ensures StrictTotalOrder(LegislatorLess)
  {
    StringLessIsStrictTotalOrder();
  }
}
