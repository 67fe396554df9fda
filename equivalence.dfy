/** What the harness sets out to show: the serial run and the distributed run of the same
    per-item function produce the same canonical table, whatever order the remote tasks
    complete in, and the checks at the end then report a match. */
module Equivalence {
  import opened Wrappers
  import opened Frames
  import opened KeyedSort
  import opened Sequences
  import opened Partitioning
  import opened Dispatch
  import opened Reconciliation
  import opened ForecastPolicy

  /** A frame produced for group `k`: every row carries item `k`, and two rows for the same
      month are the same row. */
  ghost predicate StampsKey(frame: Forecast, k: ItemId)
  {
    && (forall p :: p in frame ==> p.item == Some(k))
    && (forall p, q :: p in frame && q in frame && p.period == q.period ==> p == q)
  }

  /** Every group's successful frame is stamped with the group's key. */
  ghost predicate KeyStamping(data: seq<HistoryRow>, f: PerItem)
  {
    forall k :: k in GroupKeys(data) && f(Group(data, k)).Ok? ==> StampsKey(f(Group(data, k)).value, k)
  }

  /** The serial run is the concatenation of the tasks' frames in key order, and it fails
      when there is no group. */
  lemma SerialIsGather(data: seq<HistoryRow>, f: PerItem)
    ensures RunSerial(data, f).Ok? <==>
              GroupKeys(data) != [] && Gather(Tasks(data, f, GroupKeys(data))).Ok?
    ensures RunSerial(data, f).Ok? ==>
              RunSerial(data, f).value == ResetIndex(Gather(Tasks(data, f, GroupKeys(data))).value)
  {
    ApplyByGroupIsGather(data, f, GroupKeys(data));
  }

  /** The distributed run is the concatenation of the tasks' frames in arrival order, and it
      fails when there is no task. */
  lemma DistributedIsGather(data: seq<HistoryRow>, f: PerItem, arrival: seq<ItemId>)
    ensures DistributedResult(data, f, arrival).Ok? <==>
              arrival != [] && Gather(Tasks(data, f, arrival)).Ok?
    ensures DistributedResult(data, f, arrival).Ok? ==>
              DistributedResult(data, f, arrival).value == ResetIndex(Gather(Tasks(data, f, arrival)).value)
  {
  }

  /** `ray.get` on the list of pending results returns them in submission order, which is the
      key order of the serial apply: then, when there is a group, the two runs give the same
      table, row for row, and fail with the same kind of exception. With no group both fail,
      the serial run possibly with the exception of the call on `data.iloc[:0]`. */
  lemma {:induction false} SubmissionOrderIdentical(data: seq<HistoryRow>, f: PerItem)
    ensures GroupKeys(data) != [] ==> RunSerial(data, f) == DistributedResult(data, f, GroupKeys(data))
    ensures GroupKeys(data) == [] ==>
              RunSerial(data, f).Err? && DistributedResult(data, f, GroupKeys(data)).Err?
  {
    ApplyByGroupIsGather(data, f, GroupKeys(data));
  }

  /** Whatever the per-item function and whatever order the remote tasks complete in, the
      serial run succeeds exactly when the distributed one does. With no group the distributed
      run raises the `ValueError` of an empty concatenation, and the serial run raises what the
      function raises on `data.iloc[:0]`, or else the `ValueError` of `droplevel`. */
  lemma StrategiesFailAlike(data: seq<HistoryRow>, f: PerItem, arrival: seq<ItemId>)
    requires multiset(arrival) == multiset(GroupKeys(data))
    ensures RunSerial(data, f).Ok? <==> DistributedResult(data, f, arrival).Ok?
    ensures GroupKeys(data) == [] ==> DistributedResult(data, f, arrival) == Err(NothingToCombine)
    ensures GroupKeys(data) == [] ==>
              RunSerial(data, f) == if f(NoRows).Err? then Err(f(NoRows).error) else Err(NothingToCombine)
  {
    var keys := GroupKeys(data);
    assert |arrival| == |multiset(arrival)| == |multiset(keys)| == |keys|;
    forall k
      ensures k in arrival <==> k in keys
    {
      assert k in arrival <==> k in multiset(arrival);
      assert k in keys <==> k in multiset(keys);
    }
  }

  /** The concatenated frames of key-stamping tasks hold, for each (item, month), one row. */
  lemma {:induction false} GatheredKeyFunctional(data: seq<HistoryRow>, f: PerItem, ks: seq<ItemId>)
    requires KeyStamping(data, f)
    requires forall k :: k in ks ==> k in GroupKeys(data)
    requires Gather(Tasks(data, f, ks)).Ok?
    ensures KeyFunctional(ResetIndex(Gather(Tasks(data, f, ks)).value), RowKey)
  {
    var tasks := Tasks(data, f, ks);
    var preds := Gather(tasks).value;
    var table := ResetIndex(preds);
    forall x, y | x in table && y in table && RowKey(x) == RowKey(y)
      ensures x == y
    {
      var i :| 0 <= i < |table| && table[i] == x;
      var j :| 0 <= j < |table| && table[j] == y;
      var p, q := preds[i], preds[j];
      GatherMember(tasks, p);
      GatherMember(tasks, q);
      var a :| 0 <= a < |tasks| && tasks[a].Ok? && p in tasks[a].value;
      var b :| 0 <= b < |tasks| && tasks[b].Ok? && q in tasks[b].value;
      assert tasks[a] == f(Group(data, ks[a])) && ks[a] in ks;
      assert tasks[b] == f(Group(data, ks[b])) && ks[b] in ks;
      assert p.item == Some(ks[a]) && q.item == Some(ks[b]);
      assert ks[a] == ks[b];
    }
  }

  /** The central property: whatever order the remote tasks complete in, when the serial run
      succeeds and every frame is stamped with its key, the distributed run succeeds too and
      the checks report that the results match. */
  lemma StrategyEquivalence(data: seq<HistoryRow>, f: PerItem, arrival: seq<ItemId>)
    requires multiset(arrival) == multiset(GroupKeys(data))
    requires KeyStamping(data, f)
    ensures RunSerial(data, f).Ok? ==>
              && DistributedResult(data, f, arrival).Ok?
              && Reconcile(RunSerial(data, f).value, DistributedResult(data, f, arrival).value) == AllMatch
  {
    var keys := GroupKeys(data);
    StrategiesFailAlike(data, f, arrival);
    SerialIsGather(data, f);
    DistributedIsGather(data, f, arrival);
    MapPermutation(TaskOf(data, f), keys, arrival);
    GatherPermutation(Tasks(data, f, keys), Tasks(data, f, arrival));
    if RunSerial(data, f).Ok? {
      var serial := Gather(Tasks(data, f, keys)).value;
      var ray := Gather(Tasks(data, f, arrival)).value;
      MapPermutation(Unindex, serial, ray);
      GatheredKeyFunctional(data, f, keys);
      ReconcileAllMatchIff(ResetIndex(serial), ResetIndex(ray));
    }
  }

  // ---------------------------------------------------------------------------------------
  // The harness run with forecast_single

  /** `forecast_single` with the given model-search engine, as the per-item function. */
  function ForecastTask(engine: Forecaster): PerItem
  {
    p => ForecastSingle(engine, p)
  }

  /** A successful forecast has one row per month. */
  lemma ForecastOneRowPerMonth(engine: Forecaster, data: Partition)
    requires ForecastSingle(engine, data).Ok?
    ensures var preds := ForecastSingle(engine, data).value;
      forall p, q :: p in preds && q in preds && p.period == q.period ==> p == q
  {
    ForecastSingleMonths(engine, data);
    var preds := ForecastSingle(engine, data).value;
    OneRowPerFutureMonth(preds, LatestPeriod(SortByPeriod(data.rows)));
  }

  /** On every group `forecast_single` succeeds, with FH rows stamped with the group's key. */
  lemma ForecastOnGroup(engine: Forecaster, data: seq<HistoryRow>, k: ItemId)
    requires k in GroupKeys(data)
    ensures ForecastSingle(engine, Group(data, k)).Ok?
    ensures |ForecastSingle(engine, Group(data, k)).value| == FH
    ensures StampsKey(ForecastSingle(engine, Group(data, k)).value, k)
  {
    var g := Group(data, k);
    GroupIsSingleItem(data, k);
    ForecastSingleMonths(engine, g);
    ForecastOneRowPerMonth(engine, g);
  }

  lemma {:induction false} ForecastRowCount(engine: Forecaster, data: seq<HistoryRow>, ks: seq<ItemId>)
    requires forall k :: k in ks ==> k in GroupKeys(data)
    ensures TotalRows(Tasks(data, ForecastTask(engine), ks)) == FH * |ks|
  {
    if ks != [] {
      var tasks := Tasks(data, ForecastTask(engine), ks);
      assert tasks[1..] == Tasks(data, ForecastTask(engine), ks[1..]);
      ForecastOnGroup(engine, data, ks[0]);
      ForecastRowCount(engine, data, ks[1..]);
    }
  }

  /** The harness as written, with `forecast_single` as the per-item function: on any
      non-empty data both runs succeed, each has FH rows per item, and the checks report a
      match whatever order the remote tasks complete in. On empty data the serial run raises the
      `AssertionError` of `forecast_single` on `data.iloc[:0]`, and the distributed run the
      `ValueError` of an empty concatenation. */
  lemma ForecastHarnessAgrees(engine: Forecaster, data: seq<HistoryRow>, arrival: seq<ItemId>)
    requires multiset(arrival) == multiset(GroupKeys(data))
    ensures RunSerial(data, ForecastTask(engine)).Ok? <==> data != []
    ensures DistributedResult(data, ForecastTask(engine), arrival).Ok? <==> data != []
    ensures data == [] ==> RunSerial(data, ForecastTask(engine)) == Err(AssertionFailed)
    ensures data == [] ==> DistributedResult(data, ForecastTask(engine), arrival) == Err(NothingToCombine)
    ensures data != [] ==> |RunSerial(data, ForecastTask(engine)).value| == FH * |GroupKeys(data)|
    ensures data != [] ==>
              Reconcile(RunSerial(data, ForecastTask(engine)).value,
                        DistributedResult(data, ForecastTask(engine), arrival).value) == AllMatch
  {
    var f := ForecastTask(engine);
    var keys := GroupKeys(data);
    if data != [] {
      assert data[0].item in ItemsOf(data);
    } else {
      ForecastSingleFailures(engine, NoRows);
    }
    assert keys != [] <==> data != [];
    forall k | k in keys
      ensures f(Group(data, k)).Ok? && StampsKey(f(Group(data, k)).value, k)
    {
      ForecastOnGroup(engine, data, k);
    }
    StrategiesFailAlike(data, f, arrival);
    if data != [] {
      var tasks := Tasks(data, f, keys);
      assert forall x :: x in tasks ==> x.Ok? by {
        TasksMember(data, f, keys);
      }
      SerialIsGather(data, f);
      GatherRowCount(tasks);
      ForecastRowCount(engine, data, keys);
      StrategyEquivalence(data, f, arrival);
    }
  }
}
