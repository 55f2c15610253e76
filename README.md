# Legislative votes analyser — a Dafny model of its two reports

The analyser reads four tables: bills, legislators, votes and vote results.
From them it builds two reports, each a chain of relational steps: merges,
group-by-and-count, and a pivot of the vote type into two columns.

- **`calculate_legislator_votes`** gives one row per voting legislator. The row
  holds the number of supported bills and the number of opposed bills.
- **`calculate_bill_votes`** gives one row per voted bill. The row holds the
  supporter count, the opposer count and the name of the primary sponsor. The
  name is `"Desconhecido"` when the sponsor cannot be resolved.

The model is pure, like the code: each report is a function over sequences of
rows, and lemmas state what the reports mean in terms of the input tables.

- `wrappers.dfy`: `Option` and `Result`.
- `ordering.dfy`: strict total orders.
  - A sorted, duplicate-free listing (`SortedDistinct`), which is how `groupby`
    orders its keys.
  - Python's string order (`StringLess`: code-point lexicographic, a prefix first).
- `relational.dfy`: pandas merges over sequences with key functions.
  - `InnerJoin` and `LeftJoin`.
  - Rows come out in the left table's order. Within one left row, the matching
    right rows come in the right table's order. This is the order of pandas
    2.2 and later for inner merges, and of every version for left merges.
    Earlier pandas grouped inner-merge rows by key. That difference does not
    show in the reports: the merge at line 78 has unique, sorted left keys,
    and the merges at lines 30 and 66 feed a sorting `groupby`.
  - A left row with no match gives one row with no right part.
  - Duplicate keys multiply rows.
- `pivot.dfy`: `groupby(keys + [vote_type]).size().unstack(fill_value=0)`.
  - Rows: the group keys, sorted.
  - Columns: the vote types, sorted.
  - Cells: the group sizes, 0 where a group is empty.
- `tables.dfy`: the four row types and the join keys. A missing `sponsor_id`
  is `None`.
- `legislator_votes.dfy`: `calculate_legislator_votes` and its properties.
- `bill_votes.dfy`: `calculate_bill_votes` and its properties.

Pandas renames columns by position: `frame.columns = [...]`. This raises a
length-mismatch error unless the list has exactly as many names as the frame
has columns. After the pivot, that means exactly two distinct vote types must
survive the first merge. The model returns `Err(LengthMismatch(expected, given))`
in the other cases:

- legislator report: `expected` is 2 + the number of vote types, `given` is 4;
- bill report: `expected` is 1 + the number of vote types, `given` is 3.

When the rename succeeds, the smaller vote-type code feeds the supported or
supporter column and the larger code the opposed or opposer column.

Two consequences of the positional rename:

- A single vote type does not give a zero-filled column. The pivot then has
  one vote-type column, and the positional rename raises. For example, one
  legislator with two "support" results gives an error, not
  `num_opposed_bills = 0`. `LegislatorVotes.SingleVoteTypeFails` and
  `BillVotes.SingleVoteTypeFails` prove the error for every data set whose
  matched vote results carry a single vote type. The zero fill happens only
  for a legislator or bill that lacks one of two vote types present in the
  data.
- A third vote type is not dropped: the rename raises there too. The error
  shape in `LegislatorReportSucceedsIffTwoVoteTypes` and
  `BillReportSucceedsIffTwoVoteTypes` covers any number of vote types other
  than two.

The sentinel for an unresolved sponsor is the code's literal, `"Desconhecido"`.

## Model

| member | source | states |
|---|---|---|
| Relational.MatchingRows | scripts/legislatives_bills_analyser.py:30-35 | the right rows one left row joins with: each right row with that key, as often as it occurs, and no other |
| Relational.InnerJoin | scripts/legislatives_bills_analyser.py:30-35 | a pair is in the inner merge exactly when its left row is in the left table, its right row is in the right table, and the keys are equal |
| Relational.LeftJoin | scripts/legislatives_bills_analyser.py:80-86 | every left row appears; every right row with the left key appears paired with it; a matched right part is a right row with the left key; an empty right part means no right row has that key |
| Relational.LeftJoinPosition | scripts/legislatives_bills_analyser.py:80-86 | every left row appears in a left merge, at some position |
| Relational.MatchingRowsOnUniqueKeys | scripts/legislatives_bills_analyser.py:30-35 | with a primary key on the right, a left row joins at most one right row, and exactly one when that key exists |
| Relational.InnerJoinKeepsLeftOrder | scripts/legislatives_bills_analyser.py:78 | an inner merge keeps the order of its left rows |
| Relational.InnerJoinKeepsStrictLeftOrder | scripts/legislatives_bills_analyser.py:78 | with a primary key on the right, a strictly ordered left table stays strictly ordered after the merge |
| Relational.LeftJoinKeepsLeftOrder | scripts/legislatives_bills_analyser.py:80-86 | a left merge keeps the order of its left rows |
| Relational.LeftJoinOnUniqueKeys | scripts/legislatives_bills_analyser.py:80-86 | with a primary key on the right, a left merge is a lookup: one row per left row, in the same order |
| Ordering.Insert | scripts/legislatives_bills_analyser.py:38 | inserting into a strictly increasing key list keeps it strictly increasing and adds exactly the new key |
| Ordering.SortedDistinct | scripts/legislatives_bills_analyser.py:38 | the group keys come out strictly increasing, and they are exactly the keys that occur |
| Ordering.StrictlyIncreasingCardinality | scripts/legislatives_bills_analyser.py:40 | a strictly increasing list has no repeats, so the number of pivot columns is the number of distinct vote types |
| Ordering.StrictlyIncreasingUnique | scripts/legislatives_bills_analyser.py:38 | only one strictly increasing list has a given set of elements, so the sorted key list is unique |
| Ordering.IncreasingPair | scripts/legislatives_bills_analyser.py:40 | the sorted column list of the two vote types lo < hi is [lo, hi] |
| Ordering.StringLessIsStrictTotalOrder | scripts/legislatives_bills_analyser.py:38 | Python's string order on legislator names is irreflexive, transitive and total |
| Tables.LegislatorLessIsStrictTotalOrder | scripts/legislatives_bills_analyser.py:38 | the group key (legislator_id, name) is totally ordered: by id, then by name |
| Pivot.Size | scripts/legislatives_bills_analyser.py:39 | a group's size is positive exactly when that (key, vote type) occurs |
| Pivot.GroupSizeUnstack | scripts/legislatives_bills_analyser.py:37-42 | rows are the occurring keys in strictly increasing order; columns are the occurring vote types in increasing order; each cell is the group size, 0 for an empty group |
| LegislatorVotes.CalculateLegislatorVotes | scripts/legislatives_bills_analyser.py:43-48 | a failing rename reports 4 given names against a different number of columns |
| LegislatorVotes.ObservationsOfMerged | scripts/legislatives_bills_analyser.py:30-38 | (legislator, type) is grouped exactly when that legislator row exists and cast a result of that type |
| LegislatorVotes.CountsColumns | scripts/legislatives_bills_analyser.py:37-42 | the pivot columns are exactly the vote types of results whose legislator is known |
| LegislatorVotes.ColumnsArePair | scripts/legislatives_bills_analyser.py:37-42 | with vote types lo < hi only, the pivot columns are exactly [lo, hi], in that order |
| LegislatorVotes.LegislatorReportSucceedsIffTwoVoteTypes | scripts/legislatives_bills_analyser.py:43-48 | the report is produced if and only if those results carry exactly two distinct vote types; otherwise the error is a length mismatch of 2 + (number of types) columns against 4 names |
| LegislatorVotes.ReportColumns | scripts/legislatives_bills_analyser.py:43-48 | a produced report used exactly two vote types, the smaller first |
| LegislatorVotes.MergedSize | scripts/legislatives_bills_analyser.py:30-40 | each cell is the legislator's number of results of that type, times the number of copies of the legislator row |
| LegislatorVotes.CountsKeys | scripts/legislatives_bills_analyser.py:30-42 | the pivot has a row for a legislator exactly when that legislator row exists and has a vote result |
| LegislatorVotes.LegislatorReportRowsAreVotingLegislators | scripts/legislatives_bills_analyser.py:30-48 | (id, name) is a report row if and only if it is a legislator row with a vote result: results of unknown legislators are dropped, and legislators who never voted are absent |
| LegislatorVotes.LegislatorReportCounts | scripts/legislatives_bills_analyser.py:37-48 | with the two vote types lo < hi: supported = results of type lo and opposed = results of type hi (0 when there are none), times the copies of the legislator row |
| LegislatorVotes.RowCounts | scripts/legislatives_bills_analyser.py:37-48 | one report row: supported = its legislator's results of type lo and opposed = of type hi, times the copies of the legislator row |
| LegislatorVotes.LegislatorReportTotals | scripts/legislatives_bills_analyser.py:30-48 | with unique legislator ids: supported + opposed = all vote results cast by that legislator |
| LegislatorVotes.LegislatorReportOrder | scripts/legislatives_bills_analyser.py:37-42 | rows ascend by (id, name); with unique legislator ids they strictly ascend by id, one row per legislator |
| LegislatorVotes.SingleVoteTypeFails | scripts/legislatives_bills_analyser.py:37-48 | when the results of known legislators carry one vote type only (e.g. one legislator with two "support" results), the report fails with a length mismatch (3 columns, 4 names) instead of a zero column |
| BillVotes.BillCounts | scripts/legislatives_bills_analyser.py:70-76 | a failing rename reports 3 given names against a different number of columns |
| BillVotes.CalculateBillVotes | scripts/legislatives_bills_analyser.py:76-101 | the report fails exactly when the count frame's rename fails, and with the same error |
| BillVotes.ObservationsOfMerged | scripts/legislatives_bills_analyser.py:66-71 | (bill, type) is grouped exactly when some result of that type is on a vote on that bill |
| BillVotes.CountsColumns | scripts/legislatives_bills_analyser.py:70-75 | the pivot columns are exactly the vote types of results whose vote is known |
| BillVotes.BillReportSucceedsIffTwoVoteTypes | scripts/legislatives_bills_analyser.py:70-76 | the report is produced if and only if those results carry exactly two distinct vote types; otherwise the error is a length mismatch of 1 + (number of types) columns against 3 names |
| BillVotes.CountsColumnsOnSuccess | scripts/legislatives_bills_analyser.py:76 | a produced count frame used exactly two vote types, the smaller first |
| BillVotes.MergedSize | scripts/legislatives_bills_analyser.py:66-73 | with unique vote ids: each cell is the number of results of that type on a vote on that bill |
| BillVotes.CountsKeys | scripts/legislatives_bills_analyser.py:66-75 | the pivot has a row for a bill id exactly when some result is on a vote on it |
| BillVotes.BillCountsKeys | scripts/legislatives_bills_analyser.py:70-76 | the count frame is strictly ascending by bill id and has a row for exactly the bills that have a vote result |
| BillVotes.BillCountsCounts | scripts/legislatives_bills_analyser.py:70-76 | with unique vote ids and vote types lo < hi: supporter = results of type lo and opposer = results of type hi |
| BillVotes.ResolvedRowOrigin | scripts/legislatives_bills_analyser.py:78-90 | a merged row pairs a count row and a bill row of the same id, and its sponsor name is resolved from that bill's sponsor_id |
| BillVotes.ReportRowOrigin | scripts/legislatives_bills_analyser.py:78-99 | each report row joins a count row with a bill row of the same id; it carries the bill's title, the row's counts and the resolved sponsor |
| BillVotes.BillReportRowsAreVotedBills | scripts/legislatives_bills_analyser.py:66-90 | (id, title) is a report row if and only if it is a bill row with a vote result: bills nobody voted on, and results on unknown votes, are dropped |
| BillVotes.BillReportSponsor | scripts/legislatives_bills_analyser.py:80-99 | primary_sponsor is the name of a legislator whose id is the bill's sponsor_id, or "Desconhecido" when sponsor_id is empty or no legislator has it |
| BillVotes.RowSponsor | scripts/legislatives_bills_analyser.py:80-99 | one report row: some bill row with its id and title has a sponsor_id that resolves to the row's primary_sponsor |
| BillVotes.BillReportSponsorOnUniqueKeys | scripts/legislatives_bills_analyser.py:80-99 | with unique bill and legislator ids: primary_sponsor is the name of the one legislator with the bill's sponsor_id, and "Desconhecido" when sponsor_id is empty |
| BillVotes.SponsorResolvedOnUniqueKeys | scripts/legislatives_bills_analyser.py:80-86 | with unique legislator ids, the resolved name is that of the one legislator with the sponsor id |
| BillVotes.BillReportCounts | scripts/legislatives_bills_analyser.py:70-97 | with unique vote ids and vote types lo < hi: supporter_count = results of type lo and opposer_count = results of type hi on votes on the bill (0 when there are none) |
| BillVotes.BillReportTotals | scripts/legislatives_bills_analyser.py:66-97 | with unique vote ids: supporter_count + opposer_count = all results on votes on the bill |
| BillVotes.ResolvedOrder | scripts/legislatives_bills_analyser.py:78-86 | both merges keep the count frame's ascending bill id order |
| BillVotes.ResolvedStrictOrder | scripts/legislatives_bills_analyser.py:78-86 | with unique bill and legislator ids both merges keep a strictly ascending bill id order |
| BillVotes.BillReportOrder | scripts/legislatives_bills_analyser.py:71-90 | rows ascend by bill id; with unique bill and legislator ids they strictly ascend, one row per bill |
| BillVotes.SingleVoteTypeFails | scripts/legislatives_bills_analyser.py:70-76 | when the results on known votes carry one vote type only (e.g. a single "oppose" result), the report fails with a length mismatch (2 columns, 3 names) |

## Left out

- `load_dataframes` (CSV reading), `save_results` (CSV writing), `main` and the argparse block: file I/O and command-line handling. The model takes the tables as sequences of rows.
- `scripts/main.py` and `run.py`: orchestration over modules that are not part of this model.
- Empty cells other than `sponsor_id`. Names, titles, ids and vote types are taken to be present. A missing legislator name would drop that legislator's rows from the group-by. A missing legislator name in the sponsor merge would also become "Desconhecido".
- Column dtypes. `sponsor_id` becomes a float column when it has empty cells. Ids and vote types are integers here, and the vote type is an integer code. With string vote types, "the smaller code" would mean the first in string order.
- Column names, merge suffixes and the projection at lines 88-97. Rows are records with named fields.
- The in-place `fillna` on a selected column assumes that the selection writes through to the frame. It does so in pandas before copy-on-write became the default.
- LegislatorVotes.LegislatorReportTotals: stated for unique legislator ids. With a repeated legislator row the counts are multiplied; `LegislatorReportCounts` states that case.
- BillVotes.MergedSize: stated for unique vote ids. A repeated vote row makes its results count once per copy.
- BillVotes.BillCountsCounts: stated for unique vote ids, for the same reason.
- BillVotes.BillReportCounts: stated for unique vote ids, for the same reason.
- BillVotes.BillReportTotals: stated for unique vote ids, for the same reason.
