# Election-table transformations, modelled in Dafny

This project models the table-transformation core of an election-results
visualiser: `main.py` turns a table of vote counts (rows are geographic
units, columns are parties) into a small table of principal-component
scores for plotting. Three functions do this, and each one builds a new
table from its input without changing the input:

- `group_and_aggregate_data` keeps the numeric columns and assigns the
  grouping column onto them. It fails when fewer than two columns result.
  It then reduces every other column per distinct key value with `sum`,
  `mean` or `count`.
- `remove_sparse_columns` keeps the numeric columns whose total is strictly
  greater than a threshold, in their order, followed by every non-numeric
  column. It fails when fewer than two numeric columns are kept.
- `dimensionality_reduction` splits off the numeric columns that are not
  meta columns and requires two of them. It projects them (standardisation
  and SVD), labels the projected columns `PC1` … `PCk`, negates `PC2`, and
  joins the meta columns back on by row position.

The model is pure, like the source: datatypes, functions and lemmas.

- `Frames`: a table is a sequence of columns plus a row count. Each column
  is `NumCol(name, seq<real>)` or `CatCol(name, seq<string>)`; the tag
  stands for pandas' dtype inference. There are no missing values. Every
  exception the functions raise becomes an `Err` of the `Result` datatype.
- `SparseFilter`, `Aggregation`, `Reduction`: the three functions and the
  lemmas about them.
- `Decimal`: decimal numerals with their inverse. It is used to prove that
  the labels `PC1`, `PC2`, … are pairwise different.

Standardisation, the singular value decomposition and the projection
(main.py:63-70) are a function parameter `project`. It either fails, which
stands for numpy's `LinAlgError` (`ProjectionFailed`), or returns scores.
The reduction's lemmas assume only the shape the reduced SVD guarantees
(`ScoresShape`): p columns of n rows become min(n, p) score columns of n
rows. One lemma additionally assumes numpy's behaviour on NaN input
(`FailsOnConstant`): a constant column, whose standardisation divides by a
zero (or, with one row, undefined) standard deviation, makes the
decomposition fail.

The model follows the code in these details, some of which look
unintended:

- The guard in `group_and_aggregate_data` counts the grouping column after
  it is assigned. A non-numeric key therefore counts toward the minimum of
  two, and a numeric key overwrites its own column and adds nothing.
- With one component, reading `PC2` raises. The flip is not skipped.
- Asking for more components than the projection has (k > min(n, p)) makes
  the DataFrame constructor raise (`ShapeMismatch`).
- A meta column labelled like a component makes the join raise
  (`ColumnOverlap`).

## Model

| member | source | states |
|---|---|---|
| `Frames.Numeric` | main.py:35 | `select_dtypes(include=number)`: a column is selected iff it is numeric, and the selection keeps table order (a subsequence) |
| `Frames.NonNumeric` | main.py:46 | `select_dtypes(exclude=number)`: a column is selected iff it is not numeric, in table order |
| `Frames.TotalConcat` | main.py:36 | the column sum `sum()` (`Total`) is additive: the sum of two runs of rows put together is the sum of their sums |
| `Frames.Find` | main.py:24 | label lookup: the position of the first column with that label, or the table width when no column has it |
| `SparseFilter.Kept` | main.py:36-37 | the mask `column_sums > threshold` (`Survives`): a column is kept iff it is numeric and its total is strictly greater than the threshold; the kept columns are a subsequence of the numeric columns |
| `SparseFilter.TwoSurvivors` | main.py:37-39 | at least two columns are kept iff two different positions of the table hold columns that pass the mask |
| `SparseFilter.RemoveSparseColumns` | main.py:31-46 | fails, with the "not enough numeric columns" error, exactly when no two positions pass the mask; on success a numeric column is present iff it passed the mask, every non-numeric column is present, nothing else is, and the row count is unchanged |
| `SparseFilter.RemoveSparseColumnsOrder` | main.py:46 | the kept numeric columns come first in their original relative order, then all non-numeric columns in their original order |
| `SparseFilter.RemoveSparseColumnsPreserves` | main.py:46 | filtering keeps every column's cells and the row count (the result stays rectangular) and keeps labels unique |
| `SparseFilter.KeptAntitone` | main.py:37 | raising the threshold keeps a subsequence of what a lower threshold keeps |
| `SparseFilter.RemoveSparseColumnsAntitone` | main.py:37-46 | if filtering at a higher threshold succeeds, filtering at a lower one succeeds and its result contains the higher one's columns in the same order |
| `SparseFilter.ElectionAtTotal` | main.py:37-44 | three parties totalling 1110, 505 and 300: at threshold 505 the party whose total equals the threshold is dropped and the filter fails |
| `SparseFilter.ElectionBelowTotal` | main.py:37-46 | the same table at threshold 504 gives the two surviving parties followed by the city column |
| `Aggregation.Assign` | main.py:24 | `frame[key] = df[key]` puts the new column at the position of the first column with that label (same width) or appends it at the end (width plus one); every column with another label keeps its place, and no other column comes in |
| `Aggregation.KeyColumn` | main.py:24 | `df[group_by_column]` is a column of the table carrying the key label |
| `Aggregation.Without` | main.py:29 | `groupby(key)` reduces exactly the columns not labelled `key` |
| `Aggregation.Distinct` | main.py:29 | the group index holds every key value exactly once and nothing else |
| `Aggregation.GroupSize` | main.py:29 | a group's row count is positive iff the key value occurs, and at most the table's row count |
| `Aggregation.SumWhere` | main.py:29 | a group's sum is 0 for a key value that occurs in no row; `PartitionTotal` relates the group sums to the column total |
| `Aggregation.Aggregate` | main.py:29 | one aggregated cell: with `count` it is at least 1 (no empty group), and with `mean` it times the group size gives back the group's sum |
| `Aggregation.AggregateAll` | main.py:29 | one aggregated column: exactly one cell per group, in index order, each the reduction of that group's rows |
| `Aggregation.GroupAndAggregate` | main.py:19-30 | an unknown key raises; once the key exists, the guard fails iff the number of numeric columns plus one for a non-numeric key is below two; on success there is one aggregated column per numeric column other than the key |
| `Aggregation.AssignedWidth` | main.py:23-26 | assigning the key column adds a column exactly when the key column is not numeric |
| `Aggregation.MeasuredColumns` | main.py:23-29 | the reduced columns are the numeric columns other than the key, each with one cell per input row |
| `Aggregation.GroupAndAggregateRows` | main.py:29 | one output row per distinct key value; every aggregated column has that many cells; labels stay unique |
| `Aggregation.GroupAndAggregateColumns` | main.py:29 | column j carries the label of the j-th numeric non-key column, and its cell for a key is that column's sum, mean or count over the rows carrying the key |
| `Aggregation.PartitionTotal` | main.py:29 | groups that cover every key partition the rows: the per-group sums add up to the column total |
| `Aggregation.GroupedSumsAddUp` | main.py:29 | with `sum`, every aggregated column adds up to the total of the column it came from |
| `Aggregation.GroupedCountsAddUp` | main.py:29 | with `count`, every aggregated column adds up to the input's row count |
| `Aggregation.GroupedMeansWeighted` | main.py:29 | with `mean`, the cells weighted by their group sizes add up to the total of the column they came from |
| `Decimal.ValueOfNumeral` | main.py:73 | reading back the decimal numeral of a number gives the number |
| `Decimal.NumeralInjective` | main.py:73 | different numbers have different numerals |
| `Reduction.ComponentName` | main.py:73 | the label `PC{i + 1}`: "PC" followed by digits that read back as i + 1 |
| `Reduction.ComponentNameInjective` | main.py:73 | the labels `PC{i + 1}` of different positions are different |
| `Reduction.SecondLabel` | main.py:73-76 | position 1 (zero-based) is the only one labelled `PC2` |
| `Reduction.Drop` | main.py:54 | `drop(columns=meta)` keeps exactly the columns whose label is not a meta label, each once and in table order (a subsequence) |
| `Reduction.NumericData` | main.py:54 | `numeric_data` holds exactly the numeric columns whose label is not a meta label, each once and in table order (a subsequence) |
| `Reduction.Components` | main.py:73 | the labelled score frame has k columns, column i being score column i labelled `PC{i + 1}`, and its labels are unique |
| `Reduction.FlipSecond` | main.py:76 | reading `PC2` raises iff no column carries that label; otherwise the first `PC2` column is negated under the same label and every other column keeps its place and cells |
| `Reduction.MetaColumns` | main.py:78 | `df[meta_columns]`: one column per meta label, in meta order, each a column of the table carrying that label |
| `Reduction.FlipComponents` | main.py:73-76 | with fewer than two components the read of `PC2` raises; otherwise exactly the second component is replaced by its negation |
| `Reduction.ScoresOfData` | main.py:54-70 | the numeric data has one entry per input row, so its projection has min(n, p) score columns of n rows |
| `Reduction.DimensionalityReduction` | main.py:49-54 | an unknown meta label raises before anything else is checked |
| `Reduction.ReductionErrors` | main.py:54-78 | once the meta labels exist: fails with "not enough numeric columns" iff fewer than two numeric non-meta columns remain, whatever k is; then with the SVD's error iff the decomposition fails; then a shape error iff k > min(n, p); then a missing `PC2` iff k < 2; then a label clash (`Overlaps`) iff a meta label is a component label |
| `Reduction.ReductionSucceedsIff` | main.py:54-78 | succeeds iff every meta label exists, at least two numeric non-meta columns remain, the decomposition does not fail, 2 <= k <= min(n, p), and no meta label is a component label |
| `Reduction.ConstantColumnFails` | main.py:63-66 | if the SVD raises on NaN input, a constant numeric column or a single-row table makes the reduction fail at the decomposition, whatever k is |
| `Reduction.ReductionShape` | main.py:73-78 | on success: k + number-of-meta-labels columns, and every column has the input's row count |
| `Reduction.ReductionColumns` | main.py:73-78 | on success: columns labelled PC1..PCk; PC2 is the negated second projected column; every other component is its projected column; then the meta columns in meta order, row i of each being row i of the input column with that label |
| `Reduction.ReductionUniqueNames` | main.py:73-78 | on success the labels are unique whenever the meta labels are |

## Left out

- `load_data` (main.py:4-16): file reading and CSV/spreadsheet parsing are I/O.
- Standardisation, SVD and projection (main.py:63-70): floating-point numerics in a foreign library. They are the opaque parameter `project`, known only by the shape of its result when it succeeds. The values of the scores are not modelled, and neither is exactly when numpy's decomposition fails: only the constant-column case, as the assumption `FailsOnConstant`.
- The diagnostic `print` calls (main.py:40-42, 55, 59): console output only.
- pandas dtype inference and missing values (NaN): the column kind is an explicit tag and every cell is present.
- Aggregation.GroupAndAggregate: rows come out in the order in which key values first appear, whereas pandas' `groupby` sorts the keys by default. No property proved here depends on row order beyond the index and cells lining up.
- Aggregation.GroupAndAggregate: requires unique column labels. What pandas does with duplicated labels, for example a duplicated key label, is not modelled.
- SparseFilter.RemoveSparseColumns: selects columns by position, which is the same as pandas' selection by label when labels are unique. With duplicated labels, pandas' `df[labels]` would return every column with a repeated label.
- Reduction.DimensionalityReduction: `num_components` is a natural number. A negative count, which Python slicing would accept, is not modelled. The interface offers 1 to 10.
- Reduction.MetaColumns: takes, for each meta label, the first column carrying it. With a duplicated meta label, pandas' `df[meta_columns]` returns every column carrying it, so the result would have more than k + |meta| columns. Tables read from a file or re-indexed carry unique labels.
- Reduction.ConstantColumnFails: the assumption `FailsOnConstant` holds for exact arithmetic and for integer-valued columns such as vote counts. In floating point, a constant column of non-integers (0.1, 0.1, 0.1) can get a mean one unit in the last place off. Its standard deviation is then tiny but not zero, and the decomposition need not fail.
- Numbers are exact reals. Floating-point rounding in sums and means is not modelled. The integer type hint on `threshold` is widened to a real.
- The interactive application: widgets, the temporary upload file, the charts, and the transposed party-wise flow. That flow is only a caller-level composition of the same three functions on a transposed table.
