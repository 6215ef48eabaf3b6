# World population table: cleaning and aggregates

This project models the table logic of the two "Interactive Geographic Analysis of World
Population" scripts: the pandas script `tp_population_visualization.py` and the Polars + JAX
script `tp_population_visualization2.py`. Both scripts load a per-country population table and
normalise its column names. The Polars script then cleans the table:

- it fills missing densities as `2022_Population / Area`;
- it derives `Log_Density`;
- it merges Western Sahara (`ESH`) into Morocco (`MAR`);
- it derives `Log_Density` again.

Both scripts then compute the same kinds of views: the 2022 world total, the ten most populated
rows, the 2022 population per continent, and Morocco's population for each snapshot year. The
pandas script computes them on the raw table, the Polars script on the cleaned one, so its
Morocco series includes Western Sahara's populations.

Modules:

- `Records`: a row (`Country`) with name, continent, `CCA3` code, area, nullable density, log
  density, and eight whole-number populations. The populations are indexed by the snapshot
  years 1970, 1980, 1990, 2000, 2010, 2015, 2020 and 2022. A table is a `seq` of rows in file
  order.
- `Cells`: a nullable float cell. A cell is `Null`, `Finite(real)`, or `NonFinite` (an
  infinity or a NaN). The module also defines the two column expressions the cleaning uses:
  division and `(x + 1).log10()`.
- `Columns`: column-name normalisation.
- `Backfill`, `LogScale` and `TerritoryMerge`: the three cleaning steps. `Pipeline` chains them
  in the Polars script's order.
- `Sorting`: a descending sort and the first *n* elements of the sorted order.
- `Aggregates`: the world total, the top ten, and the per-continent groups. It also holds the
  32-bit JAX total described under Findings.
- `TimeSeries`: the case-study series of both scripts.
- `Seqs` (generic filter and sum) and `Outcomes` (a result type carrying the error a run
  aborts with) are helpers.

Three behaviours of the code are worth stating outright:

- **Merge errors.** The merge fails only when the summed `MAR`/`ESH` area is zero. That
  happens, for example, when neither row is present: Python's scalar division at line 61 then
  raises. A missing `MAR` or `ESH` row is not an error by itself. With an `ESH` row but no
  `MAR` row, the code drops `ESH` and its population is lost.
  `TerritoryMerge.MergedColumnTotal` states the result for every case.
- **Zero area in the backfill.** A zero area yields a non-finite density (`NonFinite`), not an
  error: the Polars column division produces an infinity or a NaN.
- **Tie order.** No contract relies on the order of rows with equal keys; neither library
  promises a stable sort.

## Model

| member | source | states |
|---|---|---|
| Columns.Normalize | tp_population_visualization2.py:20 | The new name has the original's length and contains no space. It differs from the original only where the original had a space, and has `_` there. |
| Columns.NormalizeFixesExactlySpaceFree | tp_population_visualization2.py:20 | A column name is left unchanged if and only if it contains no space. |
| Columns.NormalizeIdempotent | tp_population_visualization2.py:20 | Normalising an already normalised name changes nothing. |
| Columns.RenameColumns | tp_population_visualization.py:18 | Every column keeps its position and is replaced by its normalised name, so each space becomes `_` and every other character is kept. Names without spaces (`CCA3`, `Country`) survive unchanged. |
| Cells.Divide | tp_population_visualization2.py:25 | The column division is finite exactly when the area is non-zero. A finite result times the area gives back the population. |
| Cells.LogOf | tp_population_visualization2.py:32 | The log scale is null exactly when the density is null. It is finite exactly when the density is finite and above -1, and then it is `log` of density + 1. |
| Backfill.BackfillRow | tp_population_visualization2.py:23-28 | After the step a row always has a density. A present density is kept, with the row unchanged. A null one becomes 2022 population over area: finite with density × area = population when the area is non-zero, non-finite when it is zero. No other column changes. |
| Backfill.BackfillDensity | tp_population_visualization2.py:23-28 | Same rows in the same order, none with a null density afterwards. Rows that had a density are untouched. Null densities are replaced by the division. |
| Backfill.BackfillIdempotent | tp_population_visualization2.py:23-28 | Backfilling twice is backfilling once. |
| LogScale.DeriveLogDensity | tp_population_visualization2.py:70-72 | Same rows in the same order. Every `Log_Density` becomes the log scale of that row's current density, and no other column changes. |
| LogScale.DeriveLogFixpoint | tp_population_visualization2.py:70-72 | A table whose log densities already match its densities is left exactly as it is. |
| LogScale.DeriveLogIdempotent | tp_population_visualization2.py:70-72 | Re-applying the log-scale step changes nothing. |
| TerritoryMerge.CombinedTotals | tp_population_visualization2.py:36-44 | Each merge total, for every population column and for the area, is the column summed over the `MAR` rows plus the column summed over the `ESH` rows. |
| TerritoryMerge.MergeSumSplit | tp_population_visualization2.py:36-44 | Summing over the `MAR`-or-`ESH` selection is summing over the `MAR` rows plus summing over the `ESH` rows. |
| TerritoryMerge.AbsorbAll | tp_population_visualization2.py:47-64 | Each absorbing row keeps its name, continent, code and log density. It takes the totals' populations and area, and gets the density total 2022 population / total area. |
| TerritoryMerge.WriteTotals | tp_population_visualization2.py:47-64 | The column updates keep every row in place and keep every code. A `MAR` row becomes its merged form, and every other row is kept as it was. |
| TerritoryMerge.WriteTotalsKeepsUntouched | tp_population_visualization2.py:47-53 | Writing the totals leaves every row coded neither `MAR` nor `ESH` exactly as it was, in the same order. |
| TerritoryMerge.WriteTotalsKeepsAbsorbed | tp_population_visualization2.py:47-53 | Writing the totals leaves the `ESH` rows as they were. |
| TerritoryMerge.WriteTotalsAbsorbs | tp_population_visualization2.py:47-64 | After the totals are written, the `MAR` rows, in order, are the merged forms of the original `MAR` rows. |
| TerritoryMerge.FilterCommutesWithWrite | tp_population_visualization2.py:47-67 | Dropping the `ESH` rows after the column updates gives the same table as dropping them before the updates. |
| TerritoryMerge.Merged | tp_population_visualization2.py:47-67 | The updated table, after the `ESH` filter, is the non-`ESH` rows in their original order. Each `MAR` row is replaced in place by its merged form, and every other row is unchanged. |
| TerritoryMerge.MergedShape | tp_population_visualization2.py:47-67 | After the updates and the `ESH` filter, no `ESH` row remains. The row count drops by exactly the number of `ESH` rows. The untouched rows are the original ones in the original order. |
| TerritoryMerge.MergeTerritories | tp_population_visualization2.py:36-67 | The merge fails with a division by zero exactly when the summed area is zero. Otherwise: no `ESH` row remains and the count drops by the number of `ESH` rows. Other rows are unchanged and keep their order. There are as many `MAR` rows as before. Each `MAR` row holds, for every year and for the area, the column sum over all original `MAR` and `ESH` rows, and its density is summed 2022 population / summed area. |
| TerritoryMerge.MergeInPlace | tp_population_visualization2.py:47-67 | A successful merge updates rows in place. The result is the non-`ESH` rows in their original order, with each `MAR` row replaced by its merged form and every other row kept. |
| TerritoryMerge.MergedColumnTotal | tp_population_visualization2.py:36-67 | After the merge, each population column sums to its total over untouched rows plus one copy of the combined total per `MAR` row. So without a `MAR` row the `ESH` population is lost, and with two it is counted twice. |
| TerritoryMerge.MergePreservesColumnTotals | tp_population_visualization2.py:36-67 | With exactly one `MAR` row, every population column keeps its table-wide sum through the merge. |
| TerritoryMerge.OneEachTotals | tp_population_visualization2.py:36-44 | With one `MAR` row and one `ESH` row, the merge totals are their year-by-year population sums and their summed area. |
| TerritoryMerge.MergeOneEach | tp_population_visualization2.py:36-67 | With one `MAR` and one `ESH` row of positive combined area, the merge succeeds and drops exactly one row. The single `MAR` row holds the year-by-year sums, the summed area, and the density recomputed from the sums. |
| TerritoryMerge.MoroccoWesternSaharaExample | tp_population_visualization2.py:36-67 | Morocco (446550 km², 37 000 000) absorbing Western Sahara (266000 km², 600 000) leaves one row: 712550 km², 37 600 000 people, density 37600000/712550. |
| Pipeline.MergeKeepsDensities | tp_population_visualization2.py:59-64 | If no density was null before the merge, none is null after it. |
| Pipeline.UntouchedThroughBackfill | tp_population_visualization2.py:23-28 | Backfilling the table and then selecting the rows coded neither `MAR` nor `ESH` is the same as backfilling those rows alone. |
| Pipeline.UntouchedThroughLog | tp_population_visualization2.py:31-33 | Deriving `Log_Density` and then selecting the rows coded neither `MAR` nor `ESH` is the same as deriving it for those rows alone. |
| Pipeline.CleanKeepsUntouchedRows | tp_population_visualization2.py:23-72 | Through the whole cleaning, a row coded neither `MAR` nor `ESH` only has its density backfilled and its log density derived. |
| Pipeline.CleanMergedRowsHoldTotals | tp_population_visualization2.py:36-72 | After the whole cleaning, every `MAR` row holds the original table's combined totals and the density recomputed from them. |
| Pipeline.CleanRow | tp_population_visualization2.py:23-72 | A surviving row keeps its name, continent and code and ends with a density. A `MAR` row takes the merge totals, and every other row keeps its populations and area. |
| Pipeline.CleanInPlace | tp_population_visualization2.py:23-72 | A successful cleaning works row by row and in place. The result is the non-`ESH` rows in their original order, each backfilled, merged if it is a `MAR` row, and log-scaled. |
| Pipeline.CleanKeepsNames | tp_population_visualization2.py:23-72 | A successful cleaning keeps the name of every surviving row, in the original order. |
| Pipeline.Clean | tp_population_visualization2.py:23-72 | The cleaning fails exactly when the summed `MAR`/`ESH` area is zero. On success: the row count drops by the number of `ESH` rows, no row has a null density, no `ESH` row remains, and every `Log_Density` is the log scale of the row's final density. Every `MAR` row holds the original table's combined totals and the recomputed density. The rows coded neither `MAR` nor `ESH` are exactly those of the original table, backfilled and log-scaled, in their original order. |
| Pipeline.CleanKeepsColumnTotals | tp_population_visualization2.py:23-72 | With one `MAR` row, a successful cleaning keeps every population column's table-wide sum. |
| Pipeline.CleanOneEach | tp_population_visualization2.py:23-72 | With one `MAR` and one `ESH` row of positive combined area, cleaning succeeds, removes exactly one row, and keeps every population column's table-wide sum. |
| Sorting.Insert | tp_population_visualization2.py:93 | Inserting grows the sequence by one and puts either the new element or the old head first. |
| Sorting.InsertSorted | tp_population_visualization2.py:93 | Inserting into a descending sequence keeps it descending. |
| Sorting.InsertAddsElement | tp_population_visualization2.py:93 | The result has exactly the old elements plus the new one, and the key sum grows by the new key. |
| Sorting.SortDesc | tp_population_visualization2.py:93 | The sort returns a permutation of its input, in non-increasing key order, with the same key sum. |
| Sorting.PrefixHoldsLargest | tp_population_visualization2.py:93 | A prefix of a descending ordering of a sequence is descending, is drawn from the sequence, and every element it leaves out has a key no larger than any element in it. |
| Sorting.TopN | tp_population_visualization.py:35 | The result has min(n, length) elements in non-increasing key order, all drawn from the input. Every element left out ranks no higher than every element taken. |
| Aggregates.Top10 | tp_population_visualization2.py:93 | The top ten has min(10, rows) rows, all rows of the table, in non-increasing 2022 population. No row left out has more people than a row taken. |
| Aggregates.WorldTotal | tp_population_visualization.py:31 | The world total is the exact sum of the 2022 column over all rows, with no row exceeding it. |
| Aggregates.WorldTotalAppend | tp_population_visualization.py:31 | The world total of two tables laid end to end is the sum of their totals. |
| Aggregates.ContinentsOf | tp_population_visualization.py:40 | A continent is in the set if and only if some row has it. |
| Aggregates.AddTo | tp_population_visualization2.py:98-99 | Adding a row's population to the groups changes only its own continent's lookup, by that population. It opens a group only when the continent had none. The group totals grow by that population. |
| Aggregates.GroupByContinent | tp_population_visualization.py:40 | There is exactly one group per continent of the table and none for any other. Each group holds that continent's 2022 sum, and the groups sum to the world total. |
| Aggregates.PopulationByContinent | tp_population_visualization2.py:98-100 | The sorted aggregate is in non-increasing total order. It has exactly one group per continent, each holding that continent's 2022 sum, and the totals add up to the world total. |
| Aggregates.Wrap32 | tp_population_visualization2.py:88-89 | A 32-bit value lies in [-2^31, 2^31) and differs from the integer by a multiple of 2^32. It equals the integer when the integer is already in range. |
| Aggregates.Wrap32Add | tp_population_visualization2.py:88-89 | Narrowing both operands before a 32-bit addition gives the same value as narrowing the exact sum once. |
| Aggregates.JaxWorldTotal | tp_population_visualization2.py:87-90 | The JAX total, each value narrowed to 32 bits and summed with wrap-around, is the true world total reduced to 32-bit two's complement. |
| Aggregates.JaxWorldTotalExactBelowLimit | tp_population_visualization2.py:87-90 | Below 2^31 people, the JAX total is exact. |
| Aggregates.JaxWorldTotalOverflows | tp_population_visualization2.py:87-90 | Two rows of 1.5 billion give a JAX total of -1 294 967 296, while the world total is 3 000 000 000. |
| TimeSeries.Points | tp_population_visualization2.py:155-165 | The series has eight points, the k-th pairing snapshot year k with population k. Years strictly increase. |
| TimeSeries.SeriesOf | tp_population_visualization2.py:151-165 | The series fails (row 0 of an empty selection) exactly when no row has the name. Otherwise it is the eight year values of the first row with that name, in ascending year order. |
| TimeSeries.Concat | tp_population_visualization.py:94 | Flattening rows gives eight values per row. Value 8·j + k is the k-th year's population of row j. |
| TimeSeries.FlattenNamed | tp_population_visualization.py:84-94 | Flattening the year columns of the rows with that name equals selecting those rows first and then flattening them. So value 8·j + k is the k-th year's population of the j-th such row, in table order. |
| TimeSeries.NoneNamedFlattensEmpty | tp_population_visualization.py:84-94 | With no row of that name, the flattened selection is empty. |
| TimeSeries.VariantsAgreeOnSingleMatch | tp_population_visualization.py:84-94 | On the same table with exactly one row of that name, the pandas flatten and the Polars first-row read (tp_population_visualization2.py lines 156-165) give the same eight values, year by year. The Polars script applies its read to the merged table. |
| TimeSeries.SeriesOfFirst | tp_population_visualization2.py:151-165 | The series of a name is the eight year values of the first row with that name. |
| TimeSeries.CaseStudyAfterClean | tp_population_visualization2.py:151-165 | In the Polars script, when the first non-`ESH` row named `Morocco` is the `MAR` row, the Morocco series read from the cleaned table is the merge totals, so it includes Western Sahara year by year. |

## Left out

- Loading the CSV, printing, `df.info()`, and every chart and map: file I/O and rendering. This includes the fixed city table and its scatter map.
- The linear regression and the 2030 prediction: an external floating-point least-squares routine.
- The value of `log10`: `LogScale` takes it as a parameter `log`. Only where it is applied is modelled.
- Floating-point rounding and overflow of the density division: densities are exact `real` quotients.
- Null populations and null areas: every population and area is a whole number. `drop_nulls` before the JAX sum is therefore the identity, and nulls play no part in the sorts.
- Null `Country`, `Continent` and `CCA3` values: these columns are non-null strings. A null `CCA3` would change the merge, because Polars' `filter(CCA3 != "ESH")` also drops a row whose code is null. A null continent would change the grouping, because Polars keeps a null group while pandas drops it.
- TimeSeries.SeriesOf: assumes every population fits in 32 bits. `jnp.array` at lines 156-165 narrows Python integers to JAX's default 32-bit integers, which fails or wraps at 2^31. No single country reaches that value.
- Fractional areas: the area is a whole number of km², as in the dataset's integer column.
- Aggregates.GroupByContinent: lists groups in an order of its own. pandas orders its groups by continent name, and the Polars group-by order is unspecified until the sort.
- Sorting.SortDesc: makes no claim about ties. The insertion sort happens to be stable, but neither library promises stability, so no contract relies on tie order.
- Columns.RenameColumns: does not model the error Polars raises when two columns normalise to the same name.
- Aggregates.WorldTotal: unbounded. The 64-bit overflow of the pandas sum would need a total above 9.2 × 10^18.
- Uniqueness of `CCA3` is neither assumed nor enforced. The merge is modelled for any number of `MAR` and `ESH` rows.

## Findings

| source | as written | input that shows it | evidently intended | confidence | as-written member | corrected member |
|---|---|---|---|---|---|---|
| tp_population_visualization2.py:87-90 | `jnp.array` converts the 64-bit 2022 column to JAX's default 32-bit integers, and `jnp.sum` adds them with 32-bit wrap-around | any table whose 2022 total is 2^31 or more, e.g. two rows of 1 500 000 000 (total -1 294 967 296); the real world total of about 8 × 10^9 is also past that range | the exact world total, as the pandas script computes | not executed; medium (assumes JAX's default 32-bit integer mode) | Aggregates.JaxWorldTotalOverflows | Aggregates.WorldTotal |
