# Per-item demand forecasting, serial and distributed

This project models the core of a small demand-forecasting study. Monthly sales history is
split by item. For each item, `forecast_single` (in `analysis/parallel_funcs.py`) forecasts the
next 12 months, in one of two ways:

- an item with at most 60 months of history gets the mean of its sales for every month;
- any other item gets the output of an automatic model search.

In both cases the predictions are clipped at zero, rounded and stamped with the item.

The harness (`analysis/ray_pycaret_forecast_with_pandas.py`) applies a per-item function to
every group twice:

- serially, with `groupby(...).apply`;
- on a cluster, by submitting one remote task per group key, gathering the results and
  concatenating them.

It then sorts both tables by (`Item`, `YYYYMM`) and compares them. When they differ, it prints
the differing rows of both sides, outer-merged on the keys.

Modules, one file each:

| module | file | models |
|---|---|---|
| `Wrappers` | wrappers.dfy | `Option`, `Result` |
| `Periods` | periods.dfy | monthly periods (`freq="M"`), month arithmetic, calendar order |
| `Rounding` | rounding.dfy | `clip(lower=0)`, `round()` (half to even), `astype(int)` |
| `Frames` | frames.dfy | row types of the frames, string order, the (`Item`, `YYYYMM`) key order |
| `KeyedSort` | keyed_sort.dfy | `sort_values(["Item", "YYYYMM"])`, and `sort_values("YYYYMM")` through a key on the month alone |
| `ForecastPolicy` | forecast_policy.dfy | `forecast_single` |
| `Partitioning` | partitioning.dfy | `groupby("Item")`: group keys, `get_group` |
| `Sequences` | sequences.dfy | element-wise maps and permutations (a helper) |
| `Dispatch` | dispatch.dfy | serial apply; the dispatch loop; gathering and concatenation |
| `Reconciliation` | reconciliation.dfy | canonical order, the equality check, the mismatch mask, the outer merge |
| `Equivalence` | equivalence.dfy | serial and distributed runs agree; the harness run with `forecast_single` |

Modelling choices:

- **Model search.** The model-search branch is the parameter
  `engine: (seq<Observation>, nat) -> real`. Given the Sales series in month order, each sale
  under its month as the `YYYYMM` index of `set_index` puts it, and a horizon `h`, it returns
  the forecast `h` months ahead.
- **Per-item function.** The harness's per-item function is a parameter `f: Partition ->
  Result<Forecast, Failure>`. Its failures are the exceptions the function raises.
- **Arrival order.** The order in which remote results are gathered is a parameter `arrival`:
  any permutation of the group keys.
- **Numbers.** Values are exact reals and predictions are unbounded integers.
- **Months.** Each month is a `YearMonth` with its month in 1..12. Month arithmetic goes through
  ordinals `year * 12 + month - 1`.

## Model

| member | source | states |
|---|---|---|
| Periods.FromOrdinal | analysis/parallel_funcs.py:28 | every month ordinal is the ordinal of exactly the period built from it |
| Periods.OrdinalInjective | analysis/parallel_funcs.py:28 | two monthly periods with the same ordinal are the same period |
| Periods.AddMonths | analysis/parallel_funcs.py:39 | `period + n` lies exactly `n` months after `period` |
| Periods.NextMonthRollsOver | analysis/parallel_funcs.py:39 | adding one month moves to the next month and rolls December over to January of the next year |
| Periods.AddMonthsCompose | analysis/parallel_funcs.py:39 | adding `a` and then `b` months is adding `a + b` months |
| Periods.BeforeIsCalendarOrder | analysis/parallel_funcs.py:29 | the order `sort_values("YYYYMM")` uses is calendar order: by year, then by month |
| Rounding.Clip | analysis/parallel_funcs.py:60 | `clip(lower=0)` gives a non-negative value, not below its input, that is either the input itself or 0 |
| Rounding.RoundHalfEven | analysis/parallel_funcs.py:60 | `round()` gives an integer within 0.5 of the value, and an even one on a tie |
| Rounding.RoundHalfEvenUnique | analysis/parallel_funcs.py:60 | any integer within 0.5 that is even on a tie is the rounded value |
| Rounding.RoundHalfEvenOfInteger | analysis/parallel_funcs.py:60 | rounding leaves an integer unchanged |
| Rounding.PostProcess | analysis/parallel_funcs.py:60 | the published prediction is never negative, is 0 for a non-positive value, and is within 0.5 of a non-negative value |
| Rounding.PostProcessIdempotent | analysis/parallel_funcs.py:60 | clipping and rounding a published prediction again changes nothing |
| Rounding.PostProcessExamples | analysis/parallel_funcs.py:60 | 7.4 gives 7, 2.5 gives 2, 3.5 gives 4, -1.5 gives 0 |
| Frames.StrLessIrreflexive | analysis/ray_pycaret_forecast_with_pandas.py:12 | no item name sorts before itself |
| Frames.StrLessTransitive | analysis/ray_pycaret_forecast_with_pandas.py:12 | the item order is transitive |
| Frames.StrLessTotal | analysis/ray_pycaret_forecast_with_pandas.py:12 | any two distinct item names are ordered one way or the other |
| Frames.KeyLessIrreflexive | analysis/ray_pycaret_forecast_with_pandas.py:47-50 | no (`Item`, `YYYYMM`) key sorts before itself |
| Frames.KeyLessTransitive | analysis/ray_pycaret_forecast_with_pandas.py:47-50 | the key order is transitive |
| Frames.KeyLessTotal | analysis/ray_pycaret_forecast_with_pandas.py:47-50 | any two distinct keys are ordered one way or the other |
| Frames.KeyLessNegTransitive | analysis/ray_pycaret_forecast_with_pandas.py:47-50 | "not after" is transitive on keys |
| KeyedSort.Insert | analysis/ray_pycaret_forecast_with_pandas.py:49-50 | inserting a row into a key-sorted table keeps it sorted and adds exactly that row |
| KeyedSort.SortBy | analysis/ray_pycaret_forecast_with_pandas.py:49-50 | the sorted table is in key order and is a permutation of the input |
| KeyedSort.KeyFunctionalPermutation | analysis/ray_pycaret_forecast_with_pandas.py:49-50 | "the key determines the row" survives any reordering |
| KeyedSort.SortedPermutationsEqual | analysis/ray_pycaret_forecast_with_pandas.py:49-50 | when the key determines the row, any two key-sorted permutations of a table are the same table, so the sorting algorithm, stable or not, does not matter |
| ForecastPolicy.ItemColumn | analysis/parallel_funcs.py:21 | the `Item` column holds each row's item, position by position |
| ForecastPolicy.Unique | analysis/parallel_funcs.py:21 | `unique()` holds the same values as its input, without repeats, starting with its first value, and as many as the distinct values |
| ForecastPolicy.UniqueHasOneValue | analysis/parallel_funcs.py:21-22 | the item column has exactly one distinct value if and only if the partition is non-empty and all its rows share one item |
| ForecastPolicy.OneValueIsSingleItem | analysis/parallel_funcs.py:21-22 | when `assert len(item) == 1` holds, the partition is non-empty and all its rows share one item |
| ForecastPolicy.SingleItemHasOneValue | analysis/parallel_funcs.py:21-22 | a non-empty partition whose rows share one item passes `assert len(item) == 1` |
| ForecastPolicy.ItemOf | analysis/parallel_funcs.py:19-26 | without an `Item` column the item is None; with one, the assertion holds exactly for a single-item partition and the item is that item; otherwise it fails with an assertion error |
| ForecastPolicy.SortByPeriod | analysis/parallel_funcs.py:29 | `sort_values("YYYYMM")` gives the same rows in month order |
| ForecastPolicy.SortedByPeriodIsSortedByMonthKey | analysis/parallel_funcs.py:29 | month order is the key order on (no item, `YYYYMM`), so the results on key-sorted tables apply to it |
| ForecastPolicy.SortByPeriodCanonical | analysis/parallel_funcs.py:29 | when no two rows share a month, there is one month-sorted permutation of the rows, so any sorting algorithm gives the model's history |
| ForecastPolicy.LatestPeriodIsLatest | analysis/parallel_funcs.py:38-39 | `dates[-1]` is an observed month, and no observed month is later |
| ForecastPolicy.SalesSeries | analysis/parallel_funcs.py:45 | the series handed to the model search is the Sales column in month order, each sale under its own month |
| ForecastPolicy.TotalSalesPermutation | analysis/parallel_funcs.py:41 | total sales do not depend on the order of the rows |
| ForecastPolicy.MeanSales | analysis/parallel_funcs.py:41 | the mean times the number of months is the total sales |
| ForecastPolicy.FutureIndex | analysis/parallel_funcs.py:39 | the forecast index has FH = 12 months, the i-th being i + 1 months after the last observed one |
| ForecastPolicy.FutureIndexIsHorizon | analysis/parallel_funcs.py:39 | the forecast months start the month after the last observed one, are consecutive and strictly increasing, and all lie after it |
| ForecastPolicy.Fallback | analysis/parallel_funcs.py:37-41 | the fallback has FH = 12 rows; row i is for the month i + 1 months after the last observed one, and its value times the number of months is the total sales |
| ForecastPolicy.ModelBranch | analysis/parallel_funcs.py:42-58 | the model branch has 12 rows; row i is for the month i + 1 months after the last observed one, and its value is the engine's forecast i + 1 months ahead of the month-indexed Sales series in month order |
| ForecastPolicy.Finish | analysis/parallel_funcs.py:60-64 | post-processing keeps every row's month, stamps it with the item, and publishes a non-negative integer: 0 for a non-positive value, within 0.5 of a non-negative one |
| ForecastPolicy.ForecastSingle | analysis/parallel_funcs.py:5-65 | `forecast_single` fails exactly when the partition has an `Item` column that does not hold one single item, or is empty; on success it returns 12 rows (the lemmas below state the rest) |
| ForecastPolicy.ForecastSingleFailures | analysis/parallel_funcs.py:19-41 | `forecast_single` fails exactly when there is an `Item` column that does not hold one single item (assertion error), or when the partition is empty (`dates[-1]` out of range) |
| ForecastPolicy.ForecastSingleOk | analysis/parallel_funcs.py:37-64 | a successful forecast is the branch chosen by `len(data) <= 5 * FH`, post-processed and stamped with the partition's item |
| ForecastPolicy.ForecastSingleHorizon | analysis/parallel_funcs.py:37-64 | a forecast has exactly 12 rows, for the 12 consecutive months after the latest observed month, each after every observed month, each with a non-negative prediction and the partition's item |
| ForecastPolicy.ForecastSingleMonths | analysis/parallel_funcs.py:37-64 | a forecast has 12 rows; row i is for the i-th month of the forecast index, i + 1 months after the latest observed month, with a non-negative prediction and the partition's item |
| ForecastPolicy.ForecastSingleFallback | analysis/parallel_funcs.py:37-41 | with at most 60 months, every prediction is the clipped, rounded mean of all the item's sales |
| ForecastPolicy.ForecastSingleModelSearch | analysis/parallel_funcs.py:42-60 | with more than 60 months, prediction i is the clipped, rounded forecast i + 1 months ahead of the month-indexed Sales series in month order |
| Partitioning.InsertKey | analysis/ray_pycaret_forecast_with_pandas.py:12 | inserting a key into a strictly increasing key list keeps it strictly increasing and adds exactly that key |
| Partitioning.GroupKeys | analysis/ray_pycaret_forecast_with_pandas.py:12 | the group keys are strictly increasing and are exactly the items present in the data |
| Partitioning.GroupKeysDistinct | analysis/ray_pycaret_forecast_with_pandas.py:30 | the loop over the group keys visits no key twice |
| Partitioning.RowsOfItem | analysis/ray_pycaret_forecast_with_pandas.py:33 | a group holds exactly the data rows of its item, each as many times as the data holds it |
| Partitioning.Group | analysis/ray_pycaret_forecast_with_pandas.py:33 | `get_group(k)` keeps the `Item` column and holds each row of item k as many times as the data does, and no other row |
| Partitioning.GroupIsSingleItem | analysis/ray_pycaret_forecast_with_pandas.py:33 | the group of a key keeps its `Item` column, is non-empty and holds that item only |
| Partitioning.GroupsPartitionData | analysis/ray_pycaret_forecast_with_pandas.py:12 | every row's item is a group key, and a row lies in the group of its own item and in no other |
| Dispatch.Gather | analysis/ray_pycaret_forecast_with_pandas.py:36-39 | the frames one after another: this succeeds exactly when every task succeeded; otherwise the exception raised is one that a task raised |
| Dispatch.GatherRowCount | analysis/ray_pycaret_forecast_with_pandas.py:39 | the concatenation has as many rows as the task frames together |
| Dispatch.GatherMember | analysis/ray_pycaret_forecast_with_pandas.py:39 | every concatenated row comes from some task's frame |
| Dispatch.GatherPermutation | analysis/ray_pycaret_forecast_with_pandas.py:36-39 | gathering the same results in another order succeeds or fails alike and gives the same rows, reordered |
| Dispatch.TasksMember | analysis/ray_pycaret_forecast_with_pandas.py:30-36 | the task results are exactly the per-item function applied to the group of some key in the list |
| Dispatch.Concat | analysis/ray_pycaret_forecast_with_pandas.py:39 | `pd.concat` of a list raises `ValueError` when the list is empty; otherwise it succeeds exactly when every task did, raises an exception a task raised, and has as many rows as the frames together |
| Dispatch.ApplyByGroup | analysis/ray_pycaret_forecast_with_pandas.py:17 | `apply` succeeds exactly when the function succeeds on every group, and otherwise raises the exception of some group |
| Dispatch.DropKeyLevel | analysis/ray_pycaret_forecast_with_pandas.py:19 | `droplevel(level=0)` keeps every row, in order, without its group key |
| Dispatch.ResetIndex | analysis/ray_pycaret_forecast_with_pandas.py:20-21 | `reset_index` and `rename` keep every row, in order, with its period as `YYYYMM` and its item and prediction unchanged |
| Dispatch.RunSerial | analysis/ray_pycaret_forecast_with_pandas.py:17-21 | with no group the serial run raises what the function raises on the rows-free frame `data.iloc[:0]`, or else the `ValueError` of `droplevel`; otherwise it succeeds exactly when the function succeeds on every group, and raises the exception of some group when it fails |
| Dispatch.ApplyByGroupIsGather | analysis/ray_pycaret_forecast_with_pandas.py:17-19 | `apply` followed by `droplevel(0)` is the concatenation of the group frames in key order, and it raises the same exception as that concatenation |
| Dispatch.ApplyByGroupKeys | analysis/ray_pycaret_forecast_with_pandas.py:17 | every row of the applied frame is indexed by the key of the group whose frame holds it |
| Dispatch.DispatchTasks | analysis/ray_pycaret_forecast_with_pandas.py:29-35 | the loop submits exactly one task per group key, in key order, each on that key's group |
| Dispatch.ResultFor | analysis/ray_pycaret_forecast_with_pandas.py:36 | the result collected for a key is that of the task submitted for it |
| Dispatch.DistributedResult | analysis/ray_pycaret_forecast_with_pandas.py:36-41 | the distributed run raises `ValueError` when no result arrives; otherwise it succeeds exactly when every arriving task succeeded, raises the exception of one of them when it fails, and has as many rows as their frames |
| Dispatch.CollectedAreTasks | analysis/ray_pycaret_forecast_with_pandas.py:36 | looking up each arriving key's submitted result gives the task results in arrival order |
| Dispatch.RunDistributed | analysis/ray_pycaret_forecast_with_pandas.py:26-41 | submitting one task per key, collecting the results in arrival order, concatenating them and turning the period index into `YYYYMM` gives the distributed result: `ValueError` when there is no group, the concatenation otherwise |
| Reconciliation.Canonicalise | analysis/ray_pycaret_forecast_with_pandas.py:49-50 | the canonical table is key-sorted and has the same rows as its input |
| Reconciliation.CanonicaliseOrderInsensitive | analysis/ray_pycaret_forecast_with_pandas.py:49-50 | when the key determines the row, two tables with the same rows have the same canonical form |
| Reconciliation.Unmatched | analysis/ray_pycaret_forecast_with_pandas.py:54-56 | the masked rows are exactly the rows that differ from the other table's row at their position, each kept once per position where it differs; there are none exactly when the tables are equal |
| Reconciliation.JoinRow | analysis/ray_pycaret_forecast_with_pandas.py:57-62 | a row is joined with each row of the other side that has its key, once per such row, and with nothing else |
| Reconciliation.Inner | analysis/ray_pycaret_forecast_with_pandas.py:57-62 | the inner part of the merge joins every pair of rows with a common key, and only such pairs; a merged row appears once per pair of a left and a right row it joins |
| Reconciliation.LeftOnly | analysis/ray_pycaret_forecast_with_pandas.py:57-62 | a serial row whose key the other side lacks is kept, with the other value missing, as many times as the serial side holds it |
| Reconciliation.RightOnly | analysis/ray_pycaret_forecast_with_pandas.py:57-62 | a distributed row whose key the serial side lacks is kept, with the serial value missing, as many times as the distributed side holds it |
| Reconciliation.OuterMerge | analysis/ray_pycaret_forecast_with_pandas.py:57-62 | the outer merge is in key order. It joins every pair of rows with a common key and keeps each one-sided row with the other value missing. Every merged row comes from the side or sides that have a value, and a missing value means that side lacks the key. Each merged row appears once per pair of rows it joins, or once per occurrence of the one-sided row it keeps |
| Reconciliation.MergeCountParts | analysis/ray_pycaret_forecast_with_pandas.py:57-62 | the joined pairs and the one-sided rows of both sides together hold each merged row as many times as the outer merge reports it |
| Reconciliation.Reconcile | analysis/ray_pycaret_forecast_with_pandas.py:47-67 | the check reports a match exactly when the canonical tables are equal. The tables cannot be compared exactly when their row counts differ |
| Reconciliation.ReconcileAllMatchIff | analysis/ray_pycaret_forecast_with_pandas.py:47-52 | when the key determines the serial row, the check passes exactly when both runs produced the same rows, in whatever order |
| Reconciliation.ReconcileOrderInsensitive | analysis/ray_pycaret_forecast_with_pandas.py:47-67 | when the key determines the distributed row, the verdict does not depend on the order of the distributed rows |
| Reconciliation.ReconcileSerialOrderInsensitive | analysis/ray_pycaret_forecast_with_pandas.py:47-67 | when the key determines the serial row, the verdict does not depend on the order of the serial rows either |
| Reconciliation.ReportCoversDifferences | analysis/ray_pycaret_forecast_with_pandas.py:53-62 | the report shows a row of either side exactly when it differs from the other side's row at its position in canonical order |
| Reconciliation.MismatchReport | analysis/ray_pycaret_forecast_with_pandas.py:53-62 | on a mismatch the tables have the same length, differ, and the report is non-empty and is the outer merge of the masked rows of both sides |
| Equivalence.SerialIsGather | analysis/ray_pycaret_forecast_with_pandas.py:17-21 | the serial run succeeds exactly when there is a group and concatenating the tasks in key order succeeds, and is then that concatenation with `YYYYMM` as a column |
| Equivalence.DistributedIsGather | analysis/ray_pycaret_forecast_with_pandas.py:36-41 | the distributed run succeeds exactly when some result arrived and concatenating them in arrival order succeeds, and is then that concatenation with `YYYYMM` as a column |
| Equivalence.SubmissionOrderIdentical | analysis/ray_pycaret_forecast_with_pandas.py:17-41 | when there is a group and results are gathered in submission order, which is what `ray.get` of a list returns, the distributed run equals the serial run row for row, and on failure it raises an exception of the same type; with no group both runs fail |
| Equivalence.GatheredKeyFunctional | analysis/ray_pycaret_forecast_with_pandas.py:39-41 | when every frame carries its group's item and one row per month, the concatenated table has one row per (`Item`, `YYYYMM`) |
| Equivalence.StrategiesFailAlike | analysis/ray_pycaret_forecast_with_pandas.py:12-41 | for any per-item function and any completion order, the serial run succeeds exactly when the distributed run does; with no group the distributed run raises the `ValueError` of `pd.concat([])`, and the serial run what the function raises on `data.iloc[:0]`, or else the `ValueError` of `droplevel` |
| Equivalence.StrategyEquivalence | analysis/ray_pycaret_forecast_with_pandas.py:12-67 | in any completion order, when the serial run succeeds and every frame carries its group's item and one row per month, the distributed run succeeds and the check reports a match |
| ForecastPolicy.OneRowPerFutureMonth | analysis/parallel_funcs.py:39-40 | rows placed on the successive months of the forecast index have pairwise distinct months |
| Equivalence.ForecastOneRowPerMonth | analysis/parallel_funcs.py:39 | a successful forecast has one row per month |
| Equivalence.ForecastOnGroup | analysis/ray_pycaret_forecast_with_pandas.py:31-33 | `forecast_single` succeeds on every group and returns 12 rows stamped with the group's item, one per month |
| Equivalence.ForecastRowCount | analysis/ray_pycaret_forecast_with_pandas.py:30-35 | the tasks of `forecast_single` over n keys hold 12 n rows |
| Equivalence.ForecastHarnessAgrees | analysis/ray_pycaret_forecast_with_pandas.py:12-67 | with `forecast_single`, each run succeeds exactly when the data is non-empty; then the serial run has 12 rows per item and the check reports a match whatever the completion order; on empty data the serial run raises `forecast_single`'s `AssertionError` and the distributed run `ValueError` |

## Left out

- The model search itself (`TSForecastingExperiment`, `setup`, `compare_models` over ARIMA
  with 3 folds, no seasonal period and session 42, `finalize_model`, `predict_model`). It is
  the function parameter `engine`. The model assumes its forecast index is the 12 months after
  the last observed month, like the fallback's.
- Failures inside the model search are not modelled. `engine` is total.
- `print` calls, `check_stats`, `pull`, and the timing with `time.time()` only produce output.
- Reading `data/sample_data.csv`, and `ray.init`, `ray.remote` and the cluster's scheduling,
  are I/O and concurrency. A task is its per-item function applied to its group, and the
  order in which results are gathered is the parameter `arrival`.
- Parsing raw `YYYYMM` values with `pd.PeriodIndex(..., freq="M")` is not modelled. History
  rows carry a monthly period already, so an unparsable value cannot occur.
- Floating point is not modelled. Sales are exact reals and the mean is exact. Predictions are
  unbounded integers, so `astype(int)` cannot overflow. A NaN sale, and the way `mean()`
  skips it, is not modelled.
- `forecast_single_pmd` is not part of this model. `analysis/parallel_funcs.py` does not
  define it, although the harness imports and applies it. The harness is therefore modelled for any per-item function `f`, and
  `Equivalence.ForecastHarnessAgrees` instantiates it with `forecast_single`.
- Reconciliation.Reconcile: `DataFrame.equals` also compares index labels and column dtypes.
  After sorting, the index labels follow the order in which rows were concatenated, so the real
  check is insensitive to completion order only because `ray.get` returns results in
  submission order (see `Equivalence.SubmissionOrderIdentical`). The model compares the row
  sequences only.
- Reconciliation.Reconcile: `results_ray == results` raises on frames whose index labels
  differ. The model compares row by row whenever the row counts agree. It reports
  `NotComparable` only when they differ, which is the case where pandas raises whatever the
  labels.
- Reconciliation.Unmatched: the contract fixes which rows are kept and how many times each,
  not that they keep their relative order. The merge sorts the report by key, so only the
  order of masked rows that share a key could show.
- Reconciliation.Unmatched: pandas' `==` treats two missing items (None) as different. The
  model treats them as equal. In the harness every row carries its group's item, so no item
  is missing.
- Dispatch.Gather: on several failed tasks, which exception `ray.get` raises is not pinned
  down. The model raises the first in gathering order. `Equivalence.StrategiesFailAlike`
  claims only that both runs fail together, not that they fail with the same exception.
- Dispatch.RunSerial, Equivalence.StrategiesFailAlike, Equivalence.SubmissionOrderIdentical,
  Equivalence.ForecastHarnessAgrees: with no group, the model follows `groupby.apply` of
  pandas 1.x, which calls the function once on `data.iloc[:0]` and lets its exception
  through; for `forecast_single` that is the `AssertionError` of the item check. Only when
  that call succeeds does the serial run reach `droplevel` on an index with one level, whose
  `ValueError` the model writes `NothingToCombine`, the name it also gives the `ValueError`
  of `pd.concat([])` in the distributed run. pandas 2.1 and later make no such call, and
  there the serial run always raises `droplevel`'s `ValueError`; the model does not cover
  that version's behaviour on empty data.
- A failing remote task reaches the caller wrapped in Ray's `RayTaskError`, which is also an
  instance of the original exception's type. The model does not tell the two apart.
- The sort on (`Item`, `YYYYMM`) is stable in pandas, as the model's insertion sort is.
  `KeyedSort.SortedPermutationsEqual` shows moreover that the order of tied rows cannot
  matter when the key determines the row. For an arbitrary per-item function, such as
  `forecast_single_pmd`, that the key determines the row is the hypothesis
  `Equivalence.KeyStamping`, not a proved fact; it is proved for `forecast_single` only, in
  `Equivalence.ForecastOneRowPerMonth`.
- ForecastPolicy.SortByPeriod: `sort_values("YYYYMM")` on one column uses pandas' default
  quicksort, which is not stable. When an item has two rows for the same month, their order,
  and so the Sales series handed to the model search, is not pinned down. The model keeps
  their input order. `ForecastPolicy.SortByPeriodCanonical` shows that the order is unique
  when no two rows share a month.
- The outer merge's row order for duplicate keys and its column suffixes (`_x`, `_y`) are not
  modelled. A merged row names its two sides, and the rows are sorted by key.
- `set_index("YYYYMM")`, `droplevel`, `reset_index` and `rename` are modelled by their effect
  on the rows. A prediction carries its period, and the result tables carry it as `YYYYMM`.
