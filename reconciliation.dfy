/** The checks at the end of the harness: both result tables are put in canonical order,
    compared, and on a difference the rows that differ are reported side by side. */
module Reconciliation {
  import opened Wrappers
  import opened Frames
  import opened Periods
  import opened KeyedSort

  function RowKey(r: ResultRow): Key
  {
    Key(r.item, r.yyyymm)
  }

  /** `sort_values(keys)[all_cols]`: sort by (`Item`, `YYYYMM`) and keep the columns `Item`,
      `YYYYMM` and `y_pred`. */
  function Canonicalise(t: Table): (c: Table)
    ensures SortedBy(c, RowKey)
    ensures multiset(c) == multiset(t)
    ensures |c| == |t|
  {
    var c := SortBy(t, RowKey);
    assert |c| == |multiset(c)| == |t|;
    c
  }

  /** When the key determines the row, canonical order forgets the order the rows came in. */
  lemma CanonicaliseOrderInsensitive(t: Table, u: Table)
    requires KeyFunctional(t, RowKey)
    requires multiset(t) == multiset(u)
    ensures Canonicalise(t) == Canonicalise(u)
  {
    KeyFunctionalPermutation(t, Canonicalise(t), RowKey);
    SortedPermutationsEqual(Canonicalise(t), Canonicalise(u), RowKey);
  }

  /** The positions at which `a` holds `r` and `b` holds another row. */
  ghost function MismatchPositions(a: Table, b: Table, r: ResultRow): set<nat>
    requires |a| == |b|
  {
    set i: nat | i < |a| && a[i] == r && a[i] != b[i]
  }

  /** Every position of `t` moved one place on. */
  ghost function Shift(t: set<nat>): set<nat>
  {
    set i | i in t :: i + 1
  }

  /** Shifting a set of positions by one keeps its size. */
  lemma {:induction false} ShiftedSize(t: set<nat>)
    ensures |Shift(t)| == |t|
    decreases t
  {
    if t != {} {
      var y :| y in t;
      var t' := t - {y};
      ShiftedSize(t');
      forall z
        ensures z in Shift(t) <==> z in Shift(t') + {y + 1}
      {
        if z in Shift(t) {
          var i :| i in t && z == i + 1;
          if i != y {
            assert i in t';
          }
        }
      }
      assert Shift(t) == Shift(t') + {y + 1};
      assert y + 1 !in Shift(t');
    }
  }

  /** The mismatches of `r` are the one at the head, if any, and those of the tails moved one
      place on. */
  lemma MismatchPositionsSplit(a: Table, b: Table, r: ResultRow)
    requires |a| == |b| && a != []
    ensures MismatchPositions(a, b, r) ==
              (if a[0] == r && a[0] != b[0] then {0} else {}) + Shift(MismatchPositions(a[1..], b[1..], r))
  {
    var t := MismatchPositions(a[1..], b[1..], r);
    var head: set<nat> := if a[0] == r && a[0] != b[0] then {0} else {};
    forall i: nat
      ensures i in MismatchPositions(a, b, r) <==> i in head + Shift(t)
    {
      if i > 0 && i < |a| {
        assert a[1..][i - 1] == a[i] && b[1..][i - 1] == b[i];
        assert i - 1 in t ==> i in Shift(t);
      }
      if i in Shift(t) {
        var k :| k in t && i == k + 1;
      }
    }
  }

  /** So their number is that of the head plus that of the tails. */
  lemma MismatchPositionsStep(a: Table, b: Table, r: ResultRow)
    requires |a| == |b| && a != []
    ensures |MismatchPositions(a, b, r)| ==
              (if a[0] == r && a[0] != b[0] then 1 else 0) + |MismatchPositions(a[1..], b[1..], r)|
  {
    var t := MismatchPositions(a[1..], b[1..], r);
    MismatchPositionsSplit(a, b, r);
    ShiftedSize(t);
    assert 0 !in Shift(t);
  }

  /** Keeping the head row when it is masked, in front of the masked rows of the tails, keeps
      each row once per masked position. */
  lemma UnmatchedCount(a: Table, b: Table, rest: Table)
    requires |a| == |b| && a != []
    requires forall r :: multiset(rest)[r] == |MismatchPositions(a[1..], b[1..], r)|
    ensures forall r :: multiset((if a[0] != b[0] then [a[0]] else []) + rest)[r] == |MismatchPositions(a, b, r)|
  {
    forall r
      ensures multiset((if a[0] != b[0] then [a[0]] else []) + rest)[r] == |MismatchPositions(a, b, r)|
    {
      MismatchPositionsStep(a, b, r);
    }
  }

  /** `results[~match]`: the rows of `a` at the positions where the mask
      `(results_ray == results).all(axis=1)` is false, in their order. Each row is kept as
      many times as it sits at a masked position. */
  function Unmatched(a: Table, b: Table): (u: Table)
    requires |a| == |b|
    ensures |u| <= |a|
    ensures forall r :: r in u <==> exists i :: 0 <= i < |a| && a[i] == r && a[i] != b[i]
    ensures forall r :: multiset(u)[r] == |MismatchPositions(a, b, r)|
    ensures u == [] <==> a == b
  {
    if a == [] then
      assert forall r :: MismatchPositions(a, b, r) == {};
      []
    else
      var rest := Unmatched(a[1..], b[1..]);
      assert a == [a[0]] + a[1..] && b == [b[0]] + b[1..];
      UnmatchedCount(a, b, rest);
      forall r | r in rest
        ensures exists i :: 0 <= i < |a| && a[i] == r && a[i] != b[i]
      {
        var i :| 0 <= i < |a[1..]| && a[1..][i] == r && a[1..][i] != b[1..][i];
        assert a[i + 1] == r && a[i + 1] != b[i + 1];
      }
      forall i | 0 <= i < |a| && a[i] != b[i]
        ensures a[i] in (if a[0] != b[0] then [a[0]] else []) + rest
      {
        if i > 0 {
          assert a[1..][i - 1] == a[i] && a[1..][i - 1] != b[1..][i - 1];
        }
      }
      (if a[0] != b[0] then [a[0]] else []) + rest
  }

  // ---------------------------------------------------------------------------------------
  // Outer merge on the keys: `pd.merge(..., how="outer", on=keys)`

  /** A row of the merged report: `y_pred_x` from the serial side and `y_pred_y` from the
      distributed side, either of them missing (NaN) when its side has no row with the key. */
  datatype MergedRow = MergedRow(item: Option<ItemId>, yyyymm: Period,
                                 yPredSerial: Option<int>, yPredRay: Option<int>)

  function MergedKey(m: MergedRow): Key
  {
    Key(m.item, m.yyyymm)
  }

  /** The serial row a merged row was made from, if any. */
  function SerialSide(m: MergedRow): Option<ResultRow>
  {
    if m.yPredSerial.Some? then Some(ResultRow(m.item, m.yyyymm, m.yPredSerial.value)) else None
  }

  /** The distributed row a merged row was made from, if any. */
  function RaySide(m: MergedRow): Option<ResultRow>
  {
    if m.yPredRay.Some? then Some(ResultRow(m.item, m.yyyymm, m.yPredRay.value)) else None
  }

  function KeysOf(t: Table): set<Key>
  {
    set r | r in t :: RowKey(r)
  }

  function Joined(l: ResultRow, r: ResultRow): MergedRow
  {
    MergedRow(l.item, l.yyyymm, Some(l.yPred), Some(r.yPred))
  }

  function LeftOnlyRow(l: ResultRow): MergedRow
  {
    MergedRow(l.item, l.yyyymm, Some(l.yPred), None)
  }

  function RightOnlyRow(r: ResultRow): MergedRow
  {
    MergedRow(r.item, r.yyyymm, None, Some(r.yPred))
  }

  /** A merged row is `l` joined with `r` exactly when its two sides are `l` and `r`. */
  lemma JoinedSides(l: ResultRow, r: ResultRow, x: MergedRow)
    ensures (RowKey(r) == RowKey(l) && x == Joined(l, r)) <==> (SerialSide(x) == Some(l) && RaySide(x) == Some(r))
  {
  }

  /** `l` joined with every row of `right` that has its key, once per such row. */
  function JoinRow(l: ResultRow, right: Table): (m: seq<MergedRow>)
    ensures forall x :: x in m ==>
              SerialSide(x) == Some(l) && RaySide(x).Some? && RaySide(x).value in right
    ensures forall r :: r in right && RowKey(r) == RowKey(l) ==> Joined(l, r) in m
    ensures forall x :: multiset(m)[x] ==
              if SerialSide(x) == Some(l) && RaySide(x).Some? then multiset(right)[RaySide(x).value] else 0
  {
    if right == [] then []
    else
      assert right == [right[0]] + right[1..];
      var head := if RowKey(right[0]) == RowKey(l) then [Joined(l, right[0])] else [];
      forall x
        ensures multiset(head)[x] == if SerialSide(x) == Some(l) && RaySide(x) == Some(right[0]) then 1 else 0
      {
        JoinedSides(l, right[0], x);
      }
      head + JoinRow(l, right[1..])
  }

  /** The number of pairs of one of `p` equal left rows with one of `q` equal right rows,
      counted left row by left row. */
  ghost function Pairs(p: nat, q: nat): nat
  {
    if p == 0 then 0 else q + Pairs(p - 1, q)
  }

  lemma {:induction false} PairsIsProduct(p: nat, q: nat)
    ensures Pairs(p, q) == p * q
  {
    if p > 0 {
      PairsIsProduct(p - 1, q);
    }
  }

  /** The pairs of the first left row followed by the pairs of the other left rows hold each
      merged row as many times as there are pairs of a left and a right row it joins. */
  lemma InnerStep(left: Table, right: Table, j: seq<MergedRow>, i: seq<MergedRow>)
    requires left != []
    requires forall x :: multiset(j)[x] ==
               if SerialSide(x) == Some(left[0]) && RaySide(x).Some? then multiset(right)[RaySide(x).value] else 0
    requires forall x :: multiset(i)[x] ==
               if SerialSide(x).Some? && RaySide(x).Some?
               then Pairs(multiset(left[1..])[SerialSide(x).value], multiset(right)[RaySide(x).value])
               else 0
    ensures forall x :: multiset(j + i)[x] ==
              if SerialSide(x).Some? && RaySide(x).Some?
              then Pairs(multiset(left)[SerialSide(x).value], multiset(right)[RaySide(x).value])
              else 0
  {
    assert left == [left[0]] + left[1..];
    forall x | SerialSide(x).Some? && RaySide(x).Some?
      ensures multiset(j + i)[x] == Pairs(multiset(left)[SerialSide(x).value], multiset(right)[RaySide(x).value])
    {
      var p := multiset(left[1..])[SerialSide(x).value];
      var q := multiset(right)[RaySide(x).value];
      assert multiset(left)[SerialSide(x).value] == if SerialSide(x) == Some(left[0]) then 1 + p else p;
      assert Pairs(1 + p, q) == q + Pairs(p, q);
    }
  }

  /** The rows whose key is on both sides: every pair of rows with the same key. */
  function Inner(left: Table, right: Table): (m: seq<MergedRow>)
    ensures forall x :: x in m ==>
              SerialSide(x).Some? && SerialSide(x).value in left &&
              RaySide(x).Some? && RaySide(x).value in right
    ensures forall l, r :: l in left && r in right && RowKey(l) == RowKey(r) ==> Joined(l, r) in m
    ensures forall x :: multiset(m)[x] ==
              if SerialSide(x).Some? && RaySide(x).Some?
              then Pairs(multiset(left)[SerialSide(x).value], multiset(right)[RaySide(x).value])
              else 0
  {
    if left == [] then []
    else
      assert left == [left[0]] + left[1..];
      var j := JoinRow(left[0], right);
      var i := Inner(left[1..], right);
      InnerStep(left, right, j, i);
      j + i
  }

  /** The rows of `left` whose key `right` lacks, with the right-hand value missing. */
  function LeftOnly(left: Table, right: Table): (m: seq<MergedRow>)
    ensures forall x :: x in m ==>
              SerialSide(x).Some? && SerialSide(x).value in left && RaySide(x).None? &&
              MergedKey(x) !in KeysOf(right)
    ensures forall l :: l in left && RowKey(l) !in KeysOf(right) ==> LeftOnlyRow(l) in m
    ensures forall x :: multiset(m)[x] ==
              if SerialSide(x).Some? && RaySide(x).None? && MergedKey(x) !in KeysOf(right)
              then multiset(left)[SerialSide(x).value]
              else 0
  {
    if left == [] then []
    else
      assert left == [left[0]] + left[1..];
      (if RowKey(left[0]) !in KeysOf(right) then [LeftOnlyRow(left[0])] else [])
        + LeftOnly(left[1..], right)
  }

  /** The rows of `right` whose key `left` lacks, with the left-hand value missing. */
  function RightOnly(left: Table, right: Table): (m: seq<MergedRow>)
    ensures forall x :: x in m ==>
              RaySide(x).Some? && RaySide(x).value in right && SerialSide(x).None? &&
              MergedKey(x) !in KeysOf(left)
    ensures forall r :: r in right && RowKey(r) !in KeysOf(left) ==> RightOnlyRow(r) in m
    ensures forall x :: multiset(m)[x] ==
              if RaySide(x).Some? && SerialSide(x).None? && MergedKey(x) !in KeysOf(left)
              then multiset(right)[RaySide(x).value]
              else 0
  {
    if right == [] then []
    else
      assert right == [right[0]] + right[1..];
      (if RowKey(right[0]) !in KeysOf(left) then [RightOnlyRow(right[0])] else [])
        + RightOnly(left, right[1..])
  }

  /** How many times the outer merge reports `x`: once for each pair of a left row and a right
      row that it joins, and once for each row of one side whose key the other side lacks. */
  ghost function MergeCount(left: Table, right: Table, x: MergedRow): nat
  {
    match (SerialSide(x), RaySide(x))
    case (Some(l), Some(r)) => multiset(left)[l] * multiset(right)[r]
    case (Some(l), None) => if MergedKey(x) in KeysOf(right) then 0 else multiset(left)[l]
    case (None, Some(r)) => if MergedKey(x) in KeysOf(left) then 0 else multiset(right)[r]
    case (None, None) => 0
  }

  /** The three parts of the merge together hold each merged row MergeCount times. */
  lemma MergeCountParts(left: Table, right: Table, x: MergedRow)
    ensures multiset(Inner(left, right) + LeftOnly(left, right) + RightOnly(left, right))[x] ==
              MergeCount(left, right, x)
  {
    var i, l, r := Inner(left, right), LeftOnly(left, right), RightOnly(left, right);
    assert multiset(i + l + r)[x] == multiset(i)[x] + multiset(l)[x] + multiset(r)[x];
    if SerialSide(x).Some? && RaySide(x).Some? {
      PairsIsProduct(multiset(left)[SerialSide(x).value], multiset(right)[RaySide(x).value]);
    }
  }

  /** `pd.merge(left, right, how="outer", on=keys)`: every pair of rows with a common key is
      joined, a row whose key the other side lacks is kept with the other value missing, and
      the result is in key order. Each merged row appears as many times as MergeCount says. */
  function OuterMerge(left: Table, right: Table): (m: seq<MergedRow>)
    ensures SortedBy(m, MergedKey)
    ensures forall x :: x in m ==> SerialSide(x).Some? || RaySide(x).Some?
    ensures forall x :: x in m ==>
              if SerialSide(x).Some? then SerialSide(x).value in left
              else MergedKey(x) !in KeysOf(left)
    ensures forall x :: x in m ==>
              if RaySide(x).Some? then RaySide(x).value in right
              else MergedKey(x) !in KeysOf(right)
    ensures forall l, r :: l in left && r in right && RowKey(l) == RowKey(r) ==> Joined(l, r) in m
    ensures forall l :: l in left && RowKey(l) !in KeysOf(right) ==> LeftOnlyRow(l) in m
    ensures forall r :: r in right && RowKey(r) !in KeysOf(left) ==> RightOnlyRow(r) in m
    ensures forall x :: multiset(m)[x] == MergeCount(left, right, x)
  {
    var all := Inner(left, right) + LeftOnly(left, right) + RightOnly(left, right);
    var m := SortBy(all, MergedKey);
    forall x
      ensures multiset(m)[x] == MergeCount(left, right, x)
    {
      MergeCountParts(left, right, x);
    }
    assert forall x :: x in m <==> x in all by {
      forall x
        ensures x in m <==> x in all
      {
        assert x in m <==> x in multiset(m);
        assert x in all <==> x in multiset(all);
      }
    }
    m
  }

  // ---------------------------------------------------------------------------------------
  // The verdict: `results_ray.equals(results)` and the mismatch report

  datatype Verdict =
    | AllMatch                            // "Ray Results match with Serial Python Run"
    | Mismatch(report: seq<MergedRow>)    // the merged table of the rows that differ
    | NotComparable                       // the tables cannot be compared row by row

  /** The checks: compare the canonical tables; when they differ and have the same number of
      rows, report the differing rows of both sides merged on the keys. */
  function Reconcile(serial: Table, ray: Table): (v: Verdict)
    ensures v.AllMatch? <==> Canonicalise(ray) == Canonicalise(serial)
    ensures v.NotComparable? <==> |serial| != |ray|
  {
    var a := Canonicalise(serial);
    var b := Canonicalise(ray);
    if b == a then AllMatch
    else if |a| != |b| then NotComparable
    else Mismatch(OuterMerge(Unmatched(a, b), Unmatched(b, a)))
  }

  /** When the key determines the serial row, the check passes exactly when the two runs
      produced the same rows, whatever order they were produced in. */
  lemma ReconcileAllMatchIff(serial: Table, ray: Table)
    requires KeyFunctional(serial, RowKey)
    ensures Reconcile(serial, ray).AllMatch? <==> multiset(serial) == multiset(ray)
  {
    if multiset(serial) == multiset(ray) {
      CanonicaliseOrderInsensitive(serial, ray);
    }
  }

  /** The order of the serial rows does not change the verdict either. */
  lemma ReconcileSerialOrderInsensitive(serial: Table, serial': Table, ray: Table)
    requires KeyFunctional(serial, RowKey)
    requires multiset(serial) == multiset(serial')
    ensures Reconcile(serial, ray) == Reconcile(serial', ray)
  {
    CanonicaliseOrderInsensitive(serial, serial');
  }

  /** The order in which the distributed rows arrive does not change the verdict. */
  lemma ReconcileOrderInsensitive(serial: Table, ray: Table, ray': Table)
    requires KeyFunctional(ray, RowKey)
    requires multiset(ray) == multiset(ray')
    ensures Reconcile(serial, ray) == Reconcile(serial, ray')
  {
    CanonicaliseOrderInsensitive(ray, ray');
  }

  /** The merged report of two canonical tables of the same length: it shows every row of
      either side that differs from the other side's row at its position, and no other row. */
  lemma {:induction false} ReportCoversDifferences(a: Table, b: Table)
    requires |a| == |b|
    ensures forall x :: x in OuterMerge(Unmatched(a, b), Unmatched(b, a)) && SerialSide(x).Some? ==>
              exists i :: 0 <= i < |a| && a[i] == SerialSide(x).value && a[i] != b[i]
    ensures forall x :: x in OuterMerge(Unmatched(a, b), Unmatched(b, a)) && RaySide(x).Some? ==>
              exists i :: 0 <= i < |b| && b[i] == RaySide(x).value && b[i] != a[i]
    ensures forall i :: 0 <= i < |a| && a[i] != b[i] ==>
              exists x :: x in OuterMerge(Unmatched(a, b), Unmatched(b, a)) && SerialSide(x) == Some(a[i])
    ensures forall i :: 0 <= i < |b| && b[i] != a[i] ==>
              exists x :: x in OuterMerge(Unmatched(a, b), Unmatched(b, a)) && RaySide(x) == Some(b[i])
  {
    var left, right := Unmatched(a, b), Unmatched(b, a);
    var m := OuterMerge(left, right);
    forall i | 0 <= i < |a| && a[i] != b[i]
      ensures exists x :: x in m && SerialSide(x) == Some(a[i])
    {
      assert a[i] in left;
      if RowKey(a[i]) in KeysOf(right) {
        var r :| r in right && RowKey(r) == RowKey(a[i]);
        assert SerialSide(Joined(a[i], r)) == Some(a[i]);
      } else {
        assert SerialSide(LeftOnlyRow(a[i])) == Some(a[i]);
      }
    }
    forall i | 0 <= i < |b| && b[i] != a[i]
      ensures exists x :: x in m && RaySide(x) == Some(b[i])
    {
      assert b[i] in right;
      if RowKey(b[i]) in KeysOf(left) {
        var l :| l in left && RowKey(l) == RowKey(b[i]);
        assert RaySide(Joined(l, b[i])) == Some(b[i]);
      } else {
        assert RaySide(RightOnlyRow(b[i])) == Some(b[i]);
      }
    }
  }

  /** On a mismatch the tables have the same length, the report is not empty, and it is the
      outer merge of the canonical rows that differ at their positions, so that
      ReportCoversDifferences says which rows it shows. */
  lemma MismatchReport(serial: Table, ray: Table)
    requires Reconcile(serial, ray).Mismatch?
    ensures |serial| == |ray|
    ensures Canonicalise(serial) != Canonicalise(ray)
    ensures Reconcile(serial, ray).report != []
    ensures Reconcile(serial, ray).report ==
              OuterMerge(Unmatched(Canonicalise(serial), Canonicalise(ray)),
                         Unmatched(Canonicalise(ray), Canonicalise(serial)))
  {
    var a, b := Canonicalise(serial), Canonicalise(ray);
    var left := Unmatched(a, b);
    assert left[0] in left;
    var m := Reconcile(serial, ray).report;
    if RowKey(left[0]) in KeysOf(Unmatched(b, a)) {
      var r :| r in Unmatched(b, a) && RowKey(r) == RowKey(left[0]);
      assert Joined(left[0], r) in m;
    } else {
      assert LeftOnlyRow(left[0]) in m;
    }
  }
}
