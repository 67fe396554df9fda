/** The tables the core passes around, as records.
    A history row has the input columns `Item`, `YYYYMM` and `Sales`; a prediction row is a
    row of the frame `forecast_single` returns (indexed by its period, with columns `y_pred`
    and `Item`); a result row is a row of a result table after its period index has been
    turned back into the `YYYYMM` column. */
module Frames {
  import opened Wrappers
  import opened Periods

  type ItemId = string

  datatype HistoryRow = HistoryRow(item: ItemId, period: Period, sales: real)

  /** One item's partition. Without an `Item` column the item fields of its rows are
      not part of the frame. */
  datatype Partition = Partition(hasItemColumn: bool, rows: seq<HistoryRow>)

  datatype Prediction = Prediction(period: Period, yPred: int, item: Option<ItemId>)

  type Forecast = seq<Prediction>

  /** The exceptions the core can raise: the failed `assert` on the item column and the
      `IndexError` of `dates[-1]` on an empty index, both inside `forecast_single`, and the
      `ValueError` the harness meets when there are no groups at all (`pd.concat` of no
      frames, or `droplevel(level=0)` on an index with a single level). */
  datatype Failure = AssertionFailed | IndexOutOfRange | NothingToCombine

  /** What one task returns: its frame, or the exception it raised. */
  type TaskResult = Result<Forecast, Failure>

  datatype ResultRow = ResultRow(item: Option<ItemId>, yyyymm: Period, yPred: int)

  type Table = seq<ResultRow>

  /** Every row of a non-empty history belongs to the same item. */
  predicate SingleItem(rows: seq<HistoryRow>)
  {
    rows != [] && forall r :: r in rows ==> r.item == rows[0].item
  }

  /** The items that occur in a sequence of history rows. */
  function ItemsOf(rows: seq<HistoryRow>): set<ItemId>
  {
    set r | r in rows :: r.item
  }

  // ---------------------------------------------------------------------------------------
  // Order of item identifiers: Python compares strings code point by code point.

  predicate StrLess(a: string, b: string)
  {
    if a == [] then b != []
    else if b == [] then false
    else a[0] < b[0] || (a[0] == b[0] && StrLess(a[1..], b[1..]))
  }

  lemma {:induction false} StrLessIrreflexive(a: string)
    ensures !StrLess(a, a)
  {
    if a != [] {
      StrLessIrreflexive(a[1..]);
    }
  }

  lemma {:induction false} StrLessTransitive(a: string, b: string, c: string)
    requires StrLess(a, b) && StrLess(b, c)
    ensures StrLess(a, c)
  {
    if a != [] && a[0] == b[0] && b[0] == c[0] {
      StrLessTransitive(a[1..], b[1..], c[1..]);
    }
  }

  lemma {:induction false} StrLessTotal(a: string, b: string)
    ensures a == b || StrLess(a, b) || StrLess(b, a)
  {
    if a != [] && b != [] && a[0] == b[0] {
      StrLessTotal(a[1..], b[1..]);
      if a[1..] == b[1..] {
        assert a == [a[0]] + a[1..] && b == [b[0]] + b[1..];
      }
    }
  }

  // ---------------------------------------------------------------------------------------
  // The canonical key (`Item`, `YYYYMM`) and its order. pandas puts a missing item last.

  datatype Key = Key(item: Option<ItemId>, yyyymm: Period)

  predicate ItemLess(a: Option<ItemId>, b: Option<ItemId>)
  {
    match (a, b)
    case (Some(x), Some(y)) => StrLess(x, y)
    case (Some(_), None) => true
    case (None, _) => false
  }

  predicate KeyLess(a: Key, b: Key)
  {
    ItemLess(a.item, b.item) || (a.item == b.item && Before(a.yyyymm, b.yyyymm))
  }

  lemma KeyLessIrreflexive(a: Key)
    ensures !KeyLess(a, a)
  {
    if a.item.Some? {
      StrLessIrreflexive(a.item.value);
    }
  }

  lemma KeyLessTransitive(a: Key, b: Key, c: Key)
    requires KeyLess(a, b) && KeyLess(b, c)
    ensures KeyLess(a, c)
  {
    if a.item.Some? && b.item.Some? && c.item.Some? {
      if StrLess(a.item.value, b.item.value) && StrLess(b.item.value, c.item.value) {
        StrLessTransitive(a.item.value, b.item.value, c.item.value);
      }
    }
  }

  /** Two keys are equal or one comes first. */
  lemma {:induction false} KeyLessTotal(a: Key, b: Key)
    ensures a == b || KeyLess(a, b) || KeyLess(b, a)
  {
    if a.item.Some? && b.item.Some? {
      StrLessTotal(a.item.value, b.item.value);
    }
    if a.item == b.item && a.yyyymm != b.yyyymm {
      if Ordinal(a.yyyymm) == Ordinal(b.yyyymm) {
        OrdinalInjective(a.yyyymm, b.yyyymm);
      }
    }
  }

  /** `!KeyLess(b, a)`: `a` may stand before `b`. */
  lemma KeyLessNegTransitive(a: Key, b: Key, c: Key)
    requires !KeyLess(b, a) && !KeyLess(c, b)
    ensures !KeyLess(c, a)
  {
    KeyLessTotal(a, b);
    KeyLessTotal(b, c);
    if KeyLess(c, a) {
      if KeyLess(a, b) {
        KeyLessTransitive(c, a, b);
      }
    }
  }
}
