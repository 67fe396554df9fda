/** Applying one per-item function to every group, on the two paths of the harness:
    the serial `groupby(...).apply` and the loop that submits one remote task per group key,
    collects the task frames and concatenates them. */
module Dispatch {
  import opened Wrappers
  import opened Frames
  import opened Sequences
  import opened Partitioning

  /** The per-item function both paths apply. Being a function, it gives the same frame
      (or raises the same exception) whenever it is given the same partition. */
  type PerItem = Partition -> TaskResult

  /** The task of group `k`: the per-item function applied to that group. */
  function TaskOf(data: seq<HistoryRow>, f: PerItem): ItemId -> TaskResult
  {
    k => f(Group(data, k))
  }

  /** The tasks of the keys `ks`, in that order. */
  function Tasks(data: seq<HistoryRow>, f: PerItem, ks: seq<ItemId>): seq<TaskResult>
  {
    Map(TaskOf(data, f), ks)
  }

  // ---------------------------------------------------------------------------------------
  // Gathering task frames

  /** The frames in `rs`, one after another; when a task raised, the first such exception is
      raised instead, as collecting its result re-raises it. */
  function Gather(rs: seq<TaskResult>): (r: TaskResult)
    ensures r.Ok? <==> forall x :: x in rs ==> x.Ok?
    ensures r.Err? ==> Err(r.error) in rs
  {
    if rs == [] then Ok([])
    else
      assert rs == [rs[0]] + rs[1..];
      match rs[0]
      case Err(e) => Err(e)
      case Ok(frame) =>
        match Gather(rs[1..])
        case Err(e) => Err(e)
        case Ok(rest) => Ok(frame + rest)
  }

  /** Total number of rows of the frames in `rs`. */
  function TotalRows(rs: seq<TaskResult>): nat
  {
    if rs == [] then 0
    else (if rs[0].Ok? then |rs[0].value| else 0) + TotalRows(rs[1..])
  }

  /** The concatenation has as many rows as the frames together. */
  lemma {:induction false} GatherRowCount(rs: seq<TaskResult>)
    requires Gather(rs).Ok?
    ensures |Gather(rs).value| == TotalRows(rs)
  {
    if rs != [] {
      assert rs[0] in rs;
      GatherRowCount(rs[1..]);
    }
  }

  /** Every row of the concatenation comes from one of the frames. */
  lemma {:induction false} GatherMember(rs: seq<TaskResult>, p: Prediction)
    requires Gather(rs).Ok? && p in Gather(rs).value
    ensures exists i :: 0 <= i < |rs| && rs[i].Ok? && p in rs[i].value
  {
    assert rs != [];
    assert rs[0] in rs;
    if p !in rs[0].value {
      GatherMember(rs[1..], p);
      var i :| 0 <= i < |rs[1..]| && rs[1..][i].Ok? && p in rs[1..][i].value;
      assert rs[i + 1] == rs[1..][i];
    }
  }

  lemma {:induction false} GatherAppend(a: seq<TaskResult>, b: seq<TaskResult>)
    ensures Gather(a + b).Ok? <==> Gather(a).Ok? && Gather(b).Ok?
    ensures Gather(a + b).Ok? ==> Gather(a + b).value == Gather(a).value + Gather(b).value
  {
    if a == [] {
      assert a + b == b;
    } else {
      assert (a + b)[0] == a[0];
      assert (a + b)[1..] == a[1..] + b;
      GatherAppend(a[1..], b);
    }
  }

  /** Whatever the order of the frames, the concatenation holds the same rows. */
  lemma {:induction false} GatherPermutation(a: seq<TaskResult>, b: seq<TaskResult>)
    requires multiset(a) == multiset(b)
    ensures Gather(a).Ok? <==> Gather(b).Ok?
    ensures Gather(a).Ok? ==> multiset(Gather(a).value) == multiset(Gather(b).value)
    decreases |a|
  {
    assert forall x :: x in a <==> x in b by {
      forall x
        ensures x in a <==> x in b
      {
        assert x in a <==> x in multiset(a);
        assert x in b <==> x in multiset(b);
      }
    }
    if a != [] && Gather(a).Ok? {
      assert a[0] in multiset(b);
      var j :| 0 <= j < |b| && b[j] == a[0];
      var pre, post := b[..j], b[j + 1..];
      RemoveFromPermutation(a, b, j);
      GatherPermutation(a[1..], pre + post);
      SplitAt(b, j);
      GatherAppend(pre, [b[j]] + post);
      GatherAppend([b[j]], post);
      GatherAppend(pre, post);
      assert a == [a[0]] + a[1..];
      GatherAppend([a[0]], a[1..]);
    }
  }

  /** The results of the tasks of `ks` are those of the groups of `ks`. */
  lemma TasksMember(data: seq<HistoryRow>, f: PerItem, ks: seq<ItemId>)
    ensures forall k :: k in ks ==> f(Group(data, k)) in Tasks(data, f, ks)
    ensures forall x :: x in Tasks(data, f, ks) ==> exists k :: k in ks && x == f(Group(data, k))
  {
    var tasks := Tasks(data, f, ks);
    forall k | k in ks
      ensures f(Group(data, k)) in tasks
    {
      var i :| 0 <= i < |ks| && ks[i] == k;
      assert tasks[i] == f(Group(data, k));
    }
    forall x | x in tasks
      ensures exists k :: k in ks && x == f(Group(data, k))
    {
      var i :| 0 <= i < |tasks| && tasks[i] == x;
      assert ks[i] in ks && x == f(Group(data, ks[i]));
    }
  }

  /** `pd.concat(frames)` of the collected results: the frames one after another. A task's
      exception is re-raised when the results are collected, and `pd.concat` of no frames
      raises `ValueError`. */
  function Concat(rs: seq<TaskResult>): (r: TaskResult)
    ensures r.Ok? <==> rs != [] && forall x :: x in rs ==> x.Ok?
    ensures r.Err? ==> (rs == [] && r.error == NothingToCombine) || Err(r.error) in rs
    ensures r.Ok? ==> |r.value| == TotalRows(rs)
  {
    if rs == [] then Err(NothingToCombine)
    else
      var r := Gather(rs);
      if r.Ok? then GatherRowCount(rs); r else r
  }

  // ---------------------------------------------------------------------------------------
  // Serial path: `groupby("Item").apply(...)`, `droplevel`, `reset_index`

  /** A row of the frame `groupby(...).apply` returns: its index is (group key, period). */
  datatype KeyedPrediction = KeyedPrediction(key: ItemId, row: Prediction)

  function WithKey(k: ItemId, frame: Forecast): seq<KeyedPrediction>
  {
    seq(|frame|, i requires 0 <= i < |frame| => KeyedPrediction(k, frame[i]))
  }

  /** `grouped_data.apply(f)`: the groups' frames in key order, each row indexed by its group
      key; the first exception raised stops the apply. */
  function ApplyByGroup(data: seq<HistoryRow>, f: PerItem, ks: seq<ItemId>)
    : (r: Result<seq<KeyedPrediction>, Failure>)
    ensures r.Ok? <==> forall k :: k in ks ==> f(Group(data, k)).Ok?
    ensures r.Err? ==> exists k :: k in ks && f(Group(data, k)) == Err(r.error)
  {
    if ks == [] then Ok([])
    else
      assert forall k :: k in ks <==> k == ks[0] || k in ks[1..];
      match f(Group(data, ks[0]))
      case Err(e) => Err(e)
      case Ok(frame) =>
        match ApplyByGroup(data, f, ks[1..])
        case Err(e) => Err(e)
        case Ok(rest) => Ok(WithKey(ks[0], frame) + rest)
  }

  /** `droplevel(level=0)`: the group key leaves the index, and every row stays where it is. */
  function DropKeyLevel(rows: seq<KeyedPrediction>): (preds: Forecast)
    ensures |preds| == |rows|
    ensures forall i :: 0 <= i < |rows| ==> preds[i] == rows[i].row
  {
    seq(|rows|, i requires 0 <= i < |rows| => rows[i].row)
  }

  function Unindex(p: Prediction): ResultRow
  {
    ResultRow(p.item, p.period, p.yPred)
  }

  /** `reset_index()` and `rename(columns={"index": "YYYYMM"})`: the period index becomes the
      `YYYYMM` column, and every row keeps its place, its item and its prediction. */
  function ResetIndex(preds: Forecast): (t: Table)
    ensures |t| == |preds|
    ensures forall i :: 0 <= i < |preds| ==>
              t[i].yyyymm == preds[i].period && t[i].item == preds[i].item &&
              t[i].yPred == preds[i].yPred
  {
    Map(Unindex, preds)
  }

  /** `data.iloc[:0]`: the dataset's columns, `Item` among them, with no row. */
  const NoRows: Partition := Partition(true, [])

  /** The serial run (`results`). With no groups, `apply` (pandas 1.x) first calls the
      function once on `data.iloc[:0]` and lets its exception through; when that call
      succeeds, `apply` returns a frame with a single index level, which
      `droplevel(level=0)` cannot remove. */
  function RunSerial(data: seq<HistoryRow>, f: PerItem): (r: Result<Table, Failure>)
    ensures r.Ok? <==> GroupKeys(data) != [] && forall k :: k in GroupKeys(data) ==> f(Group(data, k)).Ok?
    ensures GroupKeys(data) == [] && f(NoRows).Err? ==> r == Err(f(NoRows).error)
    ensures GroupKeys(data) == [] && f(NoRows).Ok? ==> r == Err(NothingToCombine)
    ensures r.Err? && GroupKeys(data) != [] ==>
              exists k :: k in GroupKeys(data) && f(Group(data, k)) == Err(r.error)
  {
    if GroupKeys(data) == [] then
      match f(NoRows)
      case Err(e) => Err(e)
      case Ok(_) => Err(NothingToCombine)
    else
      match ApplyByGroup(data, f, GroupKeys(data))
      case Err(e) => Err(e)
      case Ok(rows) => Ok(ResetIndex(DropKeyLevel(rows)))
  }

  lemma DropKeyLevelWithKey(k: ItemId, frame: Forecast, rest: seq<KeyedPrediction>)
    ensures DropKeyLevel(WithKey(k, frame) + rest) == frame + DropKeyLevel(rest)
  {
  }

  /** Applying by group and dropping the key level is concatenating the tasks' frames in key
      order, and a failing apply raises the same exception as the concatenation. */
  lemma {:induction false} ApplyByGroupIsGather(data: seq<HistoryRow>, f: PerItem, ks: seq<ItemId>)
    ensures ApplyByGroup(data, f, ks).Ok? <==> Gather(Tasks(data, f, ks)).Ok?
    ensures ApplyByGroup(data, f, ks).Err? ==>
              ApplyByGroup(data, f, ks).error == Gather(Tasks(data, f, ks)).error
    ensures ApplyByGroup(data, f, ks).Ok? ==>
              DropKeyLevel(ApplyByGroup(data, f, ks).value) == Gather(Tasks(data, f, ks)).value
  {
    if ks != [] {
      var tasks := Tasks(data, f, ks);
      var first := f(Group(data, ks[0]));
      ApplyByGroupIsGather(data, f, ks[1..]);
      assert tasks[0] == first;
      assert tasks[1..] == Tasks(data, f, ks[1..]);
      if first.Ok? && ApplyByGroup(data, f, ks[1..]).Ok? {
        DropKeyLevelWithKey(ks[0], first.value, ApplyByGroup(data, f, ks[1..]).value);
      }
    }
  }

  /** Every row of the applied frame sits under the key of the group whose frame holds it. */
  lemma {:induction false} ApplyByGroupKeys(data: seq<HistoryRow>, f: PerItem, ks: seq<ItemId>,
                                            kp: KeyedPrediction)
    requires ApplyByGroup(data, f, ks).Ok? && kp in ApplyByGroup(data, f, ks).value
    ensures kp.key in ks && f(Group(data, kp.key)).Ok? && kp.row in f(Group(data, kp.key)).value
  {
    var frame := f(Group(data, ks[0])).value;
    var rest := ApplyByGroup(data, f, ks[1..]).value;
    var r := ApplyByGroup(data, f, ks).value;
    assert r == WithKey(ks[0], frame) + rest;
    if kp in rest {
      ApplyByGroupKeys(data, f, ks[1..], kp);
    } else {
      var i :| 0 <= i < |r| && r[i] == kp;
      assert i < |frame|;
      assert kp.row == frame[i];
    }
  }

  // ---------------------------------------------------------------------------------------
  // Distributed path: `ray.remote(...)`, `ray.get`, `pd.concat`

  /** The loop over `grouped_data.groups.keys()`: one task submitted per group key, in key
      order. */
  method DispatchTasks(data: seq<HistoryRow>, f: PerItem) returns (pending: seq<TaskResult>)
    ensures |pending| == |GroupKeys(data)|
    ensures forall i :: 0 <= i < |pending| ==> pending[i] == f(Group(data, GroupKeys(data)[i]))
  {
    var keys := GroupKeys(data);
    pending := [];
    for i := 0 to |keys|
      invariant |pending| == i
      invariant forall j :: 0 <= j < i ==> pending[j] == f(Group(data, keys[j]))
    {
      pending := pending + [f(Group(data, keys[i]))];
    }
  }

  /** The result of the task that was submitted for key `k`. */
  function ResultFor(ks: seq<ItemId>, pending: seq<TaskResult>, k: ItemId): (r: TaskResult)
    requires |ks| == |pending| && k in ks
    ensures exists i :: 0 <= i < |ks| && ks[i] == k && r == pending[i]
  {
    if ks[0] == k then pending[0]
    else
      var r := ResultFor(ks[1..], pending[1..], k);
      ghost var i :| 0 <= i < |ks[1..]| && ks[1..][i] == k && r == pending[1..][i];
      assert ks[i + 1] == k && r == pending[i + 1];
      r
  }

  /** Looking up the result of each arriving key among the submitted tasks gives the tasks of
      the arriving keys, in arrival order. */
  lemma CollectedAreTasks(data: seq<HistoryRow>, f: PerItem, pending: seq<TaskResult>,
                          arrival: seq<ItemId>, collected: seq<TaskResult>)
    requires |pending| == |GroupKeys(data)|
    requires forall i :: 0 <= i < |pending| ==> pending[i] == f(Group(data, GroupKeys(data)[i]))
    requires forall k :: k in arrival ==> k in GroupKeys(data)
    requires |collected| == |arrival|
    requires forall i :: 0 <= i < |arrival| ==> collected[i] == ResultFor(GroupKeys(data), pending, arrival[i])
    ensures collected == Tasks(data, f, arrival)
  {
    forall i | 0 <= i < |arrival|
      ensures collected[i] == f(Group(data, arrival[i]))
    {
      assert arrival[i] in arrival;
    }
  }

  /** The distributed run (`results_ray`) when the tasks' results come back in the order
      of the keys `arrival`. */
  function DistributedResult(data: seq<HistoryRow>, f: PerItem, arrival: seq<ItemId>)
    : (r: Result<Table, Failure>)
    ensures r.Ok? <==> arrival != [] && forall k :: k in arrival ==> f(Group(data, k)).Ok?
    ensures arrival == [] ==> r == Err(NothingToCombine)
    ensures r.Err? && arrival != [] ==> exists k :: k in arrival && f(Group(data, k)) == Err(r.error)
    ensures r.Ok? ==> |r.value| == TotalRows(Tasks(data, f, arrival))
  {
    TasksMember(data, f, arrival);
    match Concat(Tasks(data, f, arrival))
    case Err(e) => Err(e)
    case Ok(preds) => Ok(ResetIndex(preds))
  }

  /** The distributed run: submit one task per group key, collect the results in the order in
      which the tasks complete (any order of the keys), concatenate them and turn the period
      index into the `YYYYMM` column. */
  method RunDistributed(data: seq<HistoryRow>, f: PerItem, arrival: seq<ItemId>)
    returns (result: Result<Table, Failure>)
    requires multiset(arrival) == multiset(GroupKeys(data))
    ensures result == DistributedResult(data, f, arrival)
  {
    var keys := GroupKeys(data);
    var pending := DispatchTasks(data, f);
    ArrivingAreKeys(keys, arrival);
    var collected := seq(|arrival|, i requires 0 <= i < |arrival| => ResultFor(keys, pending, arrival[i]));
    CollectedAreTasks(data, f, pending, arrival, collected);
    var combined := Concat(collected);
    match combined
    case Err(e) =>
      result := Err(e);
    case Ok(preds) =>
      result := Ok(ResetIndex(preds));
  }

  /** Every key that arrives was submitted. */
  lemma ArrivingAreKeys(keys: seq<ItemId>, arrival: seq<ItemId>)
    requires multiset(arrival) == multiset(keys)
    ensures forall k :: k in arrival ==> k in keys
  {
    forall k | k in arrival
      ensures k in keys
    {
      assert k in multiset(arrival);
    }
  }
}
