/** The per-item forecast policy, `forecast_single`: check the item column, order the
    history by month, then either extrapolate the mean of all sales (short histories) or
    forecast with the model found by a model search, and finally clip, round and stamp the
    item on every predicted row. */
module ForecastPolicy {
  import opened Wrappers
  import opened Periods
  import opened Rounding
  import opened Frames
  import opened Sequences
  import opened KeyedSort

  /** Forecast horizon: number of future months predicted. */
  const FH: nat := 12

  /** Histories of at most this many months take the constant-mean fallback. */
  const SufficiencyLimit: nat := 5 * FH

  /** One entry of the Sales series handed to the model search: a sale under its month,
      the series' index after `set_index("YYYYMM")`. */
  datatype Observation = Observation(period: Period, sales: real)

  /** The model-search branch (set up an experiment, compare models, finalize, predict),
      seen from outside: the prediction `h` months ahead from the month-indexed Sales
      series in month order. The engine sees the months, so it may use their calendar
      position and any gaps between them. */
  type Forecaster = (seq<Observation>, nat) -> real

  // ---------------------------------------------------------------------------------------
  // The item column

  /** `data["Item"]` */
  function ItemColumn(rows: seq<HistoryRow>): (col: seq<ItemId>)
    ensures |col| == |rows|
    ensures forall i :: 0 <= i < |rows| ==> col[i] == rows[i].item
  {
    if rows == [] then [] else [rows[0].item] + ItemColumn(rows[1..])
  }

  /** `Series.unique()`: the distinct values, in order of first appearance. */
  function Unique(s: seq<ItemId>): (u: seq<ItemId>)
    ensures forall x :: x in u <==> x in s
    ensures forall i, j :: 0 <= i < j < |u| ==> u[i] != u[j]
    ensures s != [] ==> u != [] && u[0] == s[0]
    ensures |u| == |set x | x in s|
  {
    if s == [] then []
    else
      var init, last := s[..|s| - 1], s[|s| - 1];
      var u := Unique(init);
      assert s == init + [last];
      ValuesOfSnoc(init, last);
      if last in u then
        u
      else
        u + [last]
  }

  /** The values of `s + [last]` are those of `s` and `last`. */
  lemma ValuesOfSnoc(s: seq<ItemId>, last: ItemId)
    ensures (set x | x in s + [last]) == (set x | x in s) + {last}
    ensures last in s ==> (set x | x in s + [last]) == (set x | x in s)
  {
  }

  /** A column with one distinct value belongs to a single-item partition. */
  lemma OneValueIsSingleItem(rows: seq<HistoryRow>)
    requires |Unique(ItemColumn(rows))| == 1
    ensures SingleItem(rows)
  {
    var col := ItemColumn(rows);
    var u := Unique(col);
    assert u == [u[0]];
    assert u[0] in col;
    forall r | r in rows
      ensures r.item == rows[0].item
    {
      var i :| 0 <= i < |rows| && rows[i] == r;
      assert col[i] in u && col[0] in u;
      assert col[i] == u[0] == col[0];
    }
  }

  /** The column of a single-item partition has one distinct value. */
  lemma SingleItemHasOneValue(rows: seq<HistoryRow>)
    requires SingleItem(rows)
    ensures |Unique(ItemColumn(rows))| == 1
  {
    var col := ItemColumn(rows);
    assert (set x | x in col) == {rows[0].item} by {
      forall x | x in col
        ensures x == rows[0].item
      {
        var i :| 0 <= i < |col| && col[i] == x;
        assert rows[i] in rows;
      }
      assert col[0] in col;
    }
  }

  /** A column has exactly one distinct value when it is non-empty and constant. */
  lemma {:induction false} UniqueHasOneValue(rows: seq<HistoryRow>)
    ensures |Unique(ItemColumn(rows))| == 1 <==> SingleItem(rows)
  {
    if |Unique(ItemColumn(rows))| == 1 {
      OneValueIsSingleItem(rows);
    }
    if SingleItem(rows) {
      SingleItemHasOneValue(rows);
    }
  }

  /** The item check of `forecast_single`: the item of the partition, `None` without an
      `Item` column, and a failed assertion unless the column holds exactly one distinct
      value. */
  function ItemOf(data: Partition): (r: Result<Option<ItemId>, Failure>)
    ensures !data.hasItemColumn ==> r == Ok(None)
    ensures data.hasItemColumn ==> (r.Ok? <==> SingleItem(data.rows))
    ensures data.hasItemColumn && r.Ok? ==> r.value == Some(data.rows[0].item)
    ensures r.Err? ==> r.error == AssertionFailed
  {
    if !data.hasItemColumn then Ok(None)
    else
      var items := Unique(ItemColumn(data.rows));
      UniqueHasOneValue(data.rows);
      if |items| == 1 then Ok(Some(items[0])) else Err(AssertionFailed)
  }

  // ---------------------------------------------------------------------------------------
  // Ordering the history by month

  ghost predicate SortedByPeriod(rows: seq<HistoryRow>)
  {
    forall i, j :: 0 <= i < j < |rows| ==> Ordinal(rows[i].period) <= Ordinal(rows[j].period)
  }

  /** The month as a canonical key, for reusing the key-order facts. */
  function MonthKey(r: HistoryRow): Key
  {
    Key(None, r.period)
  }

  /** Month order is the key order on (no item, month). */
  lemma SortedByPeriodIsSortedByMonthKey(rows: seq<HistoryRow>)
    ensures SortedByPeriod(rows) <==> SortedBy(rows, MonthKey)
  {
  }

  /** `sort_values("YYYYMM")`: the rows in ascending month order, rows of the same month in
      their input order. It is the keyed sort on the month alone. */
  function SortByPeriod(rows: seq<HistoryRow>): (r: seq<HistoryRow>)
    ensures SortedByPeriod(r)
    ensures multiset(r) == multiset(rows)
  {
    var r := SortBy(rows, MonthKey);
    SortedByPeriodIsSortedByMonthKey(r);
    r
  }

  /** No month occurs in two different rows of the history. */
  ghost predicate DistinctMonths(rows: seq<HistoryRow>)
  {
    forall x, y :: x in rows && y in rows && x.period == y.period ==> x == y
  }

  /** Without a repeated month the month order of a history is unique: every month-sorted
      permutation of it is the one the model chooses, whatever sorting algorithm produced it. */
  lemma SortByPeriodCanonical(rows: seq<HistoryRow>, t: seq<HistoryRow>)
    requires DistinctMonths(rows)
    requires SortedByPeriod(t)
    requires multiset(t) == multiset(rows)
    ensures t == SortByPeriod(rows)
  {
    var s := SortByPeriod(rows);
    SortedByPeriodIsSortedByMonthKey(t);
    SortedByPeriodIsSortedByMonthKey(s);
    assert KeyFunctional(rows, MonthKey);
    KeyFunctionalPermutation(rows, t, MonthKey);
    SortedPermutationsEqual(t, s, MonthKey);
  }

  /** `dates[-1]` after `index.sort_values()`: the last period of the sorted history. */
  function LatestPeriod(hist: seq<HistoryRow>): Period
    requires hist != []
  {
    hist[|hist| - 1].period
  }

  /** In a sorted history no month is later than the last one. */
  lemma SortedLastIsLatest(hist: seq<HistoryRow>)
    requires SortedByPeriod(hist) && hist != []
    ensures forall r :: r in hist ==> Ordinal(r.period) <= Ordinal(LatestPeriod(hist))
  {
    forall r | r in hist
      ensures Ordinal(r.period) <= Ordinal(LatestPeriod(hist))
    {
      var i :| 0 <= i < |hist| && hist[i] == r;
      if i < |hist| - 1 {
        assert Ordinal(hist[i].period) <= Ordinal(hist[|hist| - 1].period);
      }
    }
  }

  /** The last period of the sorted history is the latest month observed. */
  lemma LatestPeriodIsLatest(rows: seq<HistoryRow>)
    requires rows != []
    ensures SortByPeriod(rows) != []
    ensures exists r :: r in rows && r.period == LatestPeriod(SortByPeriod(rows))
    ensures forall r :: r in rows ==> Ordinal(r.period) <= Ordinal(LatestPeriod(SortByPeriod(rows)))
  {
    var hist := SortByPeriod(rows);
    assert |hist| == |multiset(hist)| == |multiset(rows)| == |rows|;
    SortedLastIsLatest(hist);
    var last := hist[|hist| - 1];
    assert last in multiset(rows);
    forall r | r in rows
      ensures r in hist
    {
      assert r in multiset(hist);
    }
  }

  // ---------------------------------------------------------------------------------------
  // Sales

  /** `data["Sales"]` of the month-indexed frame: each sale under its own month. */
  function SalesSeries(rows: seq<HistoryRow>): (s: seq<Observation>)
    ensures |s| == |rows|
    ensures forall i :: 0 <= i < |rows| ==>
              s[i].period == rows[i].period && s[i].sales == rows[i].sales
  {
    if rows == [] then [] else [Observation(rows[0].period, rows[0].sales)] + SalesSeries(rows[1..])
  }

  function TotalSales(rows: seq<HistoryRow>): real
  {
    if rows == [] then 0.0 else rows[0].sales + TotalSales(rows[1..])
  }

  lemma {:induction false} TotalSalesAppend(a: seq<HistoryRow>, b: seq<HistoryRow>)
    ensures TotalSales(a + b) == TotalSales(a) + TotalSales(b)
  {
    if a == [] {
      assert a + b == b;
    } else {
      assert (a + b)[0] == a[0];
      assert (a + b)[1..] == a[1..] + b;
      TotalSalesAppend(a[1..], b);
    }
  }

  /** Taking the row at `j` out of `b` lowers the total by its sales. */
  lemma TotalSalesRemove(b: seq<HistoryRow>, j: nat)
    requires j < |b|
    ensures TotalSales(b) == b[j].sales + TotalSales(b[..j] + b[j + 1..])
  {
    var pre, mid, post := b[..j], [b[j]] + b[j + 1..], b[j + 1..];
    assert b == pre + mid;
    assert mid[0] == b[j] && mid[1..] == post;
    var tb, tpre, tmid, tpost := TotalSales(b), TotalSales(pre), TotalSales(mid), TotalSales(post);
    assert tmid == b[j].sales + tpost;
    TotalSalesAppend(pre, mid);
    assert tb == tpre + tmid;
    TotalSalesAppend(pre, post);
  }

  /** The total does not depend on the order of the rows. */
  lemma {:induction false} TotalSalesPermutation(a: seq<HistoryRow>, b: seq<HistoryRow>)
    requires multiset(a) == multiset(b)
    ensures TotalSales(a) == TotalSales(b)
    decreases |a|
  {
    if a == [] {
      assert |b| == |multiset(b)| == 0;
    } else {
      assert a[0] in multiset(b);
      var j :| 0 <= j < |b| && b[j] == a[0];
      RemoveFromPermutation(a, b, j);
      TotalSalesPermutation(a[1..], b[..j] + b[j + 1..]);
      TotalSalesRemove(b, j);
    }
  }

  /** `data["Sales"].mean()`: the mean of all the sales of the history. */
  function MeanSales(rows: seq<HistoryRow>): (m: real)
    requires rows != []
    ensures m * |rows| as real == TotalSales(rows)
  {
    TotalSales(rows) / |rows| as real
  }

  // ---------------------------------------------------------------------------------------
  // The two branches

  datatype RawPrediction = RawPrediction(period: Period, value: real)

  /** `[dates[-1] + i for i in range(1, FH + 1)]`: the FH months following `last`. */
  function FutureIndex(last: Period): (idx: seq<Period>)
    ensures |idx| == FH
    ensures forall i :: 0 <= i < FH ==> Ordinal(idx[i]) == Ordinal(last) + i + 1
  {
    seq(FH, i => AddMonths(last, i + 1))
  }

  /** The future index is the horizon: consecutive months, increasing, all after `last`,
      starting with the month that follows it. */
  lemma FutureIndexIsHorizon(last: Period)
    ensures FutureIndex(last)[0] == AddMonths(last, 1)
    ensures forall i :: 0 < i < FH ==> FutureIndex(last)[i] == AddMonths(FutureIndex(last)[i - 1], 1)
    ensures forall i, j :: 0 <= i < j < FH ==> Before(FutureIndex(last)[i], FutureIndex(last)[j])
    ensures forall i :: 0 <= i < FH ==> Before(last, FutureIndex(last)[i])
  {
    var idx := FutureIndex(last);
    forall i | 0 < i < FH
      ensures idx[i] == AddMonths(idx[i - 1], 1)
    {
      OrdinalInjective(idx[i], AddMonths(idx[i - 1], 1));
    }
  }

  /** The override for items with minimal data: a short history predicts the mean of all its
      sales for each of the FH months after its last month. */
  function Fallback(hist: seq<HistoryRow>): (raw: seq<RawPrediction>)
    requires hist != []
    ensures |raw| == FH
    ensures forall i :: 0 <= i < FH ==>
              && Ordinal(raw[i].period) == Ordinal(LatestPeriod(hist)) + i + 1
              && raw[i].value * |hist| as real == TotalSales(hist)
  {
    var future := FutureIndex(LatestPeriod(hist));
    var mean := MeanSales(hist);
    seq(FH, i requires 0 <= i < FH => RawPrediction(future[i], mean))
  }

  /** The `TSForecastingExperiment` branch: a long history is forecast by the model search,
      `h` months ahead for the `h`-th month after its last month. */
  function ModelBranch(engine: Forecaster, hist: seq<HistoryRow>): (raw: seq<RawPrediction>)
    requires hist != []
    ensures |raw| == FH
    ensures forall i :: 0 <= i < FH ==>
              && Ordinal(raw[i].period) == Ordinal(LatestPeriod(hist)) + i + 1
              && raw[i].value == engine(SalesSeries(hist), i + 1)
  {
    var future := FutureIndex(LatestPeriod(hist));
    var series := SalesSeries(hist);
    seq(FH, i requires 0 <= i < FH => RawPrediction(future[i], engine(series, i + 1)))
  }

  /** `preds["y_pred"].clip(lower=0).round().astype(int)` and `preds["Item"] = item`: clip,
      round and cast `y_pred`, then set the `Item` column. */
  function Finish(raw: seq<RawPrediction>, item: Option<ItemId>): (preds: Forecast)
    ensures |preds| == |raw|
    ensures forall i :: 0 <= i < |raw| ==>
              && preds[i].period == raw[i].period
              && preds[i].item == item
              && preds[i].yPred >= 0
              && (raw[i].value <= 0.0 ==> preds[i].yPred == 0)
              && (raw[i].value >= 0.0 ==> -0.5 <= preds[i].yPred as real - raw[i].value <= 0.5)
  {
    seq(|raw|, i requires 0 <= i < |raw| =>
      Prediction(raw[i].period, PostProcess(raw[i].value), item))
  }

  /** `forecast_single(data)`: it fails exactly on an `Item` column that does not hold one
      single item, or on an empty partition; otherwise it returns FH rows. */
  function ForecastSingle(engine: Forecaster, data: Partition): (r: TaskResult)
    ensures r.Err? <==> (data.hasItemColumn && !SingleItem(data.rows)) || data.rows == []
    ensures r.Ok? ==> |r.value| == FH
  {
    match ItemOf(data)
    case Err(e) => Err(e)
    case Ok(item) =>
      var hist := SortByPeriod(data.rows);
      assert |hist| == |multiset(hist)| == |multiset(data.rows)| == |data.rows|;
      if |hist| <= SufficiencyLimit then
        if hist == [] then Err(IndexOutOfRange)
        else Ok(Finish(Fallback(hist), item))
      else
        Ok(Finish(ModelBranch(engine, hist), item))
  }

  // ---------------------------------------------------------------------------------------
  // Properties of forecast_single

  /** The item the partition is stamped with. */
  function StampedItem(data: Partition): Option<ItemId>
    requires data.rows != []
  {
    if data.hasItemColumn then Some(data.rows[0].item) else None
  }

  /** It fails exactly on a partition with an `Item` column that does not hold a single item
      (assertion) or on an empty partition without one (`dates[-1]`). */
  lemma ForecastSingleFailures(engine: Forecaster, data: Partition)
    ensures ForecastSingle(engine, data).Err? <==>
              (data.hasItemColumn && !SingleItem(data.rows)) || data.rows == []
    ensures data.hasItemColumn && !SingleItem(data.rows) ==>
              ForecastSingle(engine, data) == Err(AssertionFailed)
    ensures !data.hasItemColumn && data.rows == [] ==>
              ForecastSingle(engine, data) == Err(IndexOutOfRange)
  {
    var hist := SortByPeriod(data.rows);
    assert |hist| == |multiset(hist)| == |multiset(data.rows)| == |data.rows|;
  }

  /** A successful forecast is the post-processed output of the branch the history length
      selects, stamped with the partition's item. */
  lemma ForecastSingleOk(engine: Forecaster, data: Partition)
    requires ForecastSingle(engine, data).Ok?
    ensures data.rows != [] && SortByPeriod(data.rows) != []
    ensures |SortByPeriod(data.rows)| == |data.rows|
    ensures ForecastSingle(engine, data).value ==
              Finish(if |data.rows| <= SufficiencyLimit then Fallback(SortByPeriod(data.rows))
                     else ModelBranch(engine, SortByPeriod(data.rows)),
                     StampedItem(data))
  {
    var hist := SortByPeriod(data.rows);
    assert |hist| == |multiset(hist)| == |multiset(data.rows)| == |data.rows|;
  }

  /** A successful forecast has FH rows; row `i` is for the `i`-th month of the forecast index
      after the latest observed month, with a non-negative prediction and the partition's
      item. */
  lemma ForecastSingleMonths(engine: Forecaster, data: Partition)
    requires ForecastSingle(engine, data).Ok?
    ensures data.rows != []
    ensures var preds := ForecastSingle(engine, data).value;
      && |preds| == FH
      && (forall i :: 0 <= i < |preds| ==>
            preds[i].period == FutureIndex(LatestPeriod(SortByPeriod(data.rows)))[i])
      && (forall p :: p in preds ==> p.yPred >= 0 && p.item == StampedItem(data))
  {
    ForecastSingleOk(engine, data);
    var hist := SortByPeriod(data.rows);
    var raw := if |data.rows| <= SufficiencyLimit then Fallback(hist) else ModelBranch(engine, hist);
    assert forall i :: 0 <= i < FH ==> raw[i].period == FutureIndex(LatestPeriod(hist))[i];
  }

  /** Rows on the successive months of a forecast index have distinct months. */
  lemma OneRowPerFutureMonth(preds: Forecast, last: Period)
    requires |preds| == FH
    requires forall i :: 0 <= i < |preds| ==> preds[i].period == FutureIndex(last)[i]
    ensures forall p, q :: p in preds && q in preds && p.period == q.period ==> p == q
  {
    forall p, q | p in preds && q in preds && p.period == q.period
      ensures p == q
    {
      var i :| 0 <= i < |preds| && preds[i] == p;
      var j :| 0 <= j < |preds| && preds[j] == q;
      assert i == j;
    }
  }

  /** The horizon invariant: exactly FH rows, for the FH consecutive months that follow the
      latest observed month, each with a non-negative prediction and the partition's item. */
  lemma ForecastSingleHorizon(engine: Forecaster, data: Partition)
    requires ForecastSingle(engine, data).Ok?
    ensures data.rows != []
    ensures var preds := ForecastSingle(engine, data).value;
      && |preds| == FH
      && (exists r :: r in data.rows && preds[0].period == AddMonths(r.period, 1))
      && (forall r :: r in data.rows ==> Before(r.period, preds[0].period))
      && (forall i :: 0 < i < FH ==> preds[i].period == AddMonths(preds[i - 1].period, 1))
      && (forall i, j :: 0 <= i < j < FH ==> Before(preds[i].period, preds[j].period))
      && (forall p :: p in preds ==> p.yPred >= 0 && p.item == StampedItem(data))
  {
    ForecastSingleMonths(engine, data);
    var last := LatestPeriod(SortByPeriod(data.rows));
    var preds := ForecastSingle(engine, data).value;
    FutureIndexIsHorizon(last);
    LatestPeriodIsLatest(data.rows);
    var r :| r in data.rows && r.period == last;
    assert preds[0].period == AddMonths(r.period, 1);
  }

  /** The fallback is taken exactly for histories of at most 5 * FH months, and there every
      prediction is the post-processed mean of all the sales of the partition. */
  lemma ForecastSingleFallback(engine: Forecaster, data: Partition)
    requires ForecastSingle(engine, data).Ok?
    requires |data.rows| <= SufficiencyLimit
    ensures forall p :: p in ForecastSingle(engine, data).value ==>
              p.yPred == PostProcess(MeanSales(data.rows))
  {
    ForecastSingleOk(engine, data);
    var hist := SortByPeriod(data.rows);
    TotalSalesPermutation(hist, data.rows);
    assert MeanSales(hist) == MeanSales(data.rows);
  }

  /** Longer histories take the model-search branch: prediction `i` is the post-processed
      engine forecast `i + 1` months ahead of the month-indexed Sales series in month order. */
  lemma ForecastSingleModelSearch(engine: Forecaster, data: Partition)
    requires ForecastSingle(engine, data).Ok?
    requires |data.rows| > SufficiencyLimit
    ensures var preds := ForecastSingle(engine, data).value;
      forall i :: 0 <= i < |preds| ==>
        preds[i].yPred == PostProcess(engine(SalesSeries(SortByPeriod(data.rows)), i + 1))
  {
    ForecastSingleOk(engine, data);
    var hist := SortByPeriod(data.rows);
    var raw := ModelBranch(engine, hist);
    var preds := Finish(raw, StampedItem(data));
    var series := SalesSeries(hist);
    forall i | 0 <= i < |preds|
      ensures preds[i].yPred == PostProcess(engine(series, i + 1))
    {
      assert raw[i].value == engine(series, i + 1);
    }
  }
}
