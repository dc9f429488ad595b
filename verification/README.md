# Teater Totters guild dashboard — data transformation model

The dashboard loads a table of guild activity records (`Name`, `Date`,
`Experience`), lets the user choose members and a date range, and then, on
every widget change, reruns one pipeline:

1. **filter** the rows to the chosen members and the inclusive date range;
2. **pivot** them into a wide table, one row per date (ascending), one column
   per member name that occurs, each cell the summed experience, missing
   combinations filled with 0;
3. **melt** the wide table back into `(Date, Name, gross)` points for the line
   chart;
4. compute the chart's **y-axis domain** (smallest value − 50000 to largest
   value + 50000) and draw the chart **only when some member is chosen**.

This project models that pipeline as pure Dafny functions over a sequence of
records and proves what the dashboard relies on.

| file | module | what it holds |
|---|---|---|
| `ordering.dfy` | `Ordering` | ascending date order, Python string order on names (proved a strict total order), sorted distinct keys, min and max |
| `records.dfy` | `Records` | `Record`, `Table`, and the reference sums `GroupSum` (experience of one date/name group) and `Total` |
| `selection.dfy` | `Selection` | the row mask and boolean indexing |
| `pivoting.dfy` | `Pivoting` | group-by accumulation, zero fill, the `Pivot` matrix, conservation and order independence |
| `melting.dfy` | `Melting` | the column-by-column melt and its round trip through the pivot |
| `presentation.dfy` | `Presentation` | the y-axis domain, the render guard and the whole rerun `Render` |
| `scenarios.dfy` | `Scenarios` | a worked example: two members over two weeks |

Dates are integer day ordinals and experience is an integer. The pivot is
computed the way the table library does it: a map keyed by `(date, name)`
accumulates the sums (`Aggregate`), and the matrix is read from it with
`fill_value=0` (`Fill`). The contracts are stated against an independent
reference, `GroupSum`: the plain sum of experience over the rows of one
group. Columns are ordered by Python's string comparison (first differing
code point; a prefix sorts first). That is the order the pivot uses for its
column labels.

The pivot creates columns only for names that occur in the filtered rows, so
a chosen member with no rows in range gets no column. `PivotTable` and
`Presentation.Shows` state exactly that.

Two member names collide with labels the script uses itself, and the model
turns them into the exceptions pandas raises:

- A chosen member named `Date` with a row in range gives the pivot a column
  labelled `Date` next to its `Date` index level. Sorting by `Date`
  (streamlit_app.py:45) is then ambiguous, and the rerun stops before
  anything is written (`AmbiguousDate`).
- A chosen member named `gross` with a row in range clashes with the melt's
  value column (streamlit_app.py:56-58). The rerun stops after the table has
  been written (`ValueNameClash`).

## Model

| member | source | states |
|---|---|---|
| `Ordering.StrLessIsOrder` | streamlit_app.py:42-43 | Python's string order on member names is irreflexive, transitive and total, so the column order is well defined |
| `Ordering.SortDistinct` | streamlit_app.py:42-45 | the key index is strictly ascending and holds exactly the values of the column, each once |
| `Ordering.SortedUnique` | streamlit_app.py:42-45 | two strictly ascending sequences with the same elements are equal: the key order depends only on which keys occur |
| `Ordering.MinOf` | streamlit_app.py:64 | the minimum is one of the values and no value is smaller |
| `Ordering.MaxOf` | streamlit_app.py:64 | the maximum is one of the values and no value is larger |
| `Selection.KeptPositions` | streamlit_app.py:41 | the kept positions ascend, are in range, and a position is kept exactly when its row's name is chosen and its date is between start and end inclusive |
| `Selection.Filter` | streamlit_app.py:41 | soundness: every kept row has a chosen name and a date within the inclusive range |
| `Selection.FilterCounts` | streamlit_app.py:41 | a row passing the mask is kept exactly as often as it occurs in the input; every other row is dropped |
| `Selection.FilterComplete` | streamlit_app.py:41 | completeness: every input row with a chosen name and an in-range date is kept |
| `Selection.FilterKeys` | streamlit_app.py:41 | the filtered rows carry exactly the dates, and exactly the names, of the input rows that pass the mask |
| `Selection.FilterIsKeptRowsInOrder` | streamlit_app.py:41 | the filtered table is the rows at the kept positions in their original order, an order-preserving subsequence |
| `Selection.NoMembersKeepsNothing` | streamlit_app.py:41 | an empty member choice keeps no row |
| `Selection.InvertedRangeKeepsNothing` | streamlit_app.py:41 | a range whose start is after its end keeps no row |
| `Selection.FilterKeepsEverySelectedTable` | streamlit_app.py:41 | when every row passes the mask the table is returned unchanged |
| `Selection.SliderDefaultsKeepAll` | streamlit_app.py:34-41 | with the slider at its defaults (earliest and latest date) and every member chosen, the filter keeps the whole table |
| `Selection.FilterPermutation` | streamlit_app.py:41 | reordering the input only reorders the kept rows |
| `Records.GroupSumAbsent` | streamlit_app.py:43 | a date/name combination no row has sums to 0 |
| `Records.GroupSumPermutation` | streamlit_app.py:42-44 | group sums depend only on the multiset of rows, not their order |
| `Pivoting.RowKeys` | streamlit_app.py:42-45 | the row index is strictly ascending and holds exactly the dates occurring in the rows |
| `Pivoting.ColumnKeys` | streamlit_app.py:42-43 | the column index is strictly ascending in string order and holds exactly the names occurring in the rows |
| `Pivoting.Aggregate` | streamlit_app.py:42-43 | the group-by map has a key exactly for each date/name combination that occurs, mapped to that group's reference sum |
| `Pivoting.FilledAggregateIsGroupSum` | streamlit_app.py:43 | reading the group-by with zero fill gives the reference group sum for every date and name, present or absent |
| `Pivoting.PivotTable` | streamlit_app.py:42-45 | the wide table is well formed (rectangular, sorted, distinct keys), its rows are exactly the occurring dates, its columns exactly the occurring names, and each cell is the sum of experience of its date and name |
| `Pivoting.AbsentCombinationIsZero` | streamlit_app.py:43 | a cell whose date and name never occur together is exactly 0 |
| `Pivoting.EmptyTablePivot` | streamlit_app.py:42-44 | no rows give a pivot with no rows, no columns and no cells |
| `Pivoting.Conservation` | streamlit_app.py:42-44 | the cells of the pivot add up to the total experience of its input rows |
| `Pivoting.PivotTablePermutation` | streamlit_app.py:42-45 | permuting the input rows does not change the pivot |
| `Melting.MeltAt` | streamlit_app.py:56-58 | every melted point names one of the pivot's dates and one of its members |
| `Melting.Melt` | streamlit_app.py:56-58 | the melt has one point per cell, rows × columns in all, each naming a date and a member of the pivot |
| `Melting.MeltCell` | streamlit_app.py:56-58 | the point of row `i`, column `j` sits at position `j × rows + i` and carries that date, that name and that cell's value |
| `Melting.MeltPointIsCell` | streamlit_app.py:56-58 | every melted point is the point of some cell |
| `Melting.MeltGroupIsOneCell` | streamlit_app.py:56-58 | in the melt of a well-formed pivot each date/name group is exactly one point, whose value is the cell |
| `Melting.MeltKeepsDates` | streamlit_app.py:56-58 | the melted points carry exactly the pivot's dates |
| `Melting.MeltKeepsNames` | streamlit_app.py:56-58 | the melted points carry exactly the pivot's member names |
| `Melting.MeltThenPivot` | streamlit_app.py:56-58 | pivoting the melted points again reproduces the pivot exactly |
| `Presentation.ChartDomain` | streamlit_app.py:64 | the domain exists exactly when there are points; its lower end is the smallest value minus 50000 and its upper end the largest value plus 50000 |
| `Presentation.ValuesInsideDomain` | streamlit_app.py:64 | every charted value lies strictly inside the domain |
| `Presentation.FilterKeepsShownGroups` | streamlit_app.py:41-43 | filtering drops whole groups only: a group of a chosen member with an in-range date keeps its full sum |
| `Presentation.FilteredPivotShows` | streamlit_app.py:41-45 | the pivot of the filtered rows is well formed, has a row for exactly the dates and a column for exactly the names of rows passing the mask, and each cell is that member's total on that date in the loaded table |
| `Presentation.ShowsIsUnique` | streamlit_app.py:41-45 | at most one table meets that description, so the loaded rows and the widget state determine the shown table |
| `Presentation.ShownKeysAreSelected` | streamlit_app.py:41-45 | the shown columns are chosen members and the shown dates lie in the range |
| `Presentation.Render` | streamlit_app.py:41-70 | the rerun fails exactly when a row passing the mask is named `Date` (at the sort, nothing written) or `gross` (at the melt, table already written); otherwise the table is the one `Shows` describes and conserves the filtered total, the chart is drawn exactly when some member is chosen, and its points are the melt of the table, pivot back to it, and set the y-domain |
| `Presentation.NoSelectionShowsNothing` | streamlit_app.py:41-69 | no member chosen gives an empty table and no chart |
| `Presentation.EmptyRangeShowsEmptyTable` | streamlit_app.py:41-69 | a range covering none of the dates gives an empty table, and with members chosen an empty chart with no usable domain |
| `Presentation.RenderPermutation` | streamlit_app.py:41-45 | reordering the loaded rows does not change the outcome of a rerun |
| `Scenarios.ScenarioPivot` | streamlit_app.py:42-45 | the example table pivots to `[[150, 0], [0, 200]]` |
| `Scenarios.TwoMembersOverTwoWeeks` | streamlit_app.py:41-45 | with both members chosen over days 0 to 7 the example completes and shows A's two records summed and zeros for the missing combinations |
| `Scenarios.MemberNamedDateFails` | streamlit_app.py:45 | a chosen member named `Date` with a row in range stops the rerun at the sort with nothing written |
| `Scenarios.MemberNamedGrossFails` | streamlit_app.py:49-58 | a chosen member named `gross` with a row in range stops the rerun at the melt after the table is written |

## Left out

- Loading the CSV and parsing the `Date` column (streamlit_app.py:19-20) are file I/O and a foreign date parser. The model starts from an already parsed table.
- The `@st.cache_data` memoisation of the loader (streamlit_app.py:17) has no effect on the values computed.
- Widget construction (streamlit_app.py:27-38), including the slider's one-week step, is UI. Its outputs enter as the parameters `members` and `start`/`end`. No precondition restricts them: a range whose start is after its end selects nothing, as `Series.between` does.
- Page configuration, title, table formatting, and the Altair mark, encodings and height (streamlit_app.py:7-13, 49-53, 59-63, 65-68, 70) are presentation only. The model keeps what the chart is drawn from and its y-domain.
- Real-valued experience and timestamp precision are left out. Experience is an `int` and dates are integer day ordinals, which avoids floating point and time zones.
- `Presentation.ChartDomain`: with no points, pandas gives NaN bounds and the chart library then gets an unusable domain. The model returns `None` instead of modelling NaN. This happens when members are chosen but none has a row in range.
- `Presentation.Render`: the source builds the chart object on every rerun and only the draw call is guarded. The model builds the chart only when it is drawn, which is the only observable difference.
- `Melting.Melt` requires a rectangular matrix (`Shaped`), which every data frame is.
- `Pivoting.PivotTable`: sums are unbounded integers. pandas sums `Experience` as 64-bit integers, which wrap around past 2^63 - 1, and the domain bounds `min - 50000` and `max + 50000` wrap the same way. The model does not reproduce the wrap-around, so it assumes guild totals stay far below that range.
