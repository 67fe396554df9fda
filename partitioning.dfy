/** `data_subset.groupby("Item")`: the group keys, in ascending order as pandas sorts them,
    and the group of each key, holding that item's rows in their original order. */
module Partitioning {
  import opened Frames

  ghost predicate StrictlyIncreasing(ks: seq<ItemId>)
  {
    forall i, j :: 0 <= i < j < |ks| ==> StrLess(ks[i], ks[j])
  }

  /** Adds `k` to an ascending list of distinct keys. */
  function InsertKey(k: ItemId, ks: seq<ItemId>): (r: seq<ItemId>)
    requires StrictlyIncreasing(ks)
    ensures StrictlyIncreasing(r)
    ensures forall x :: x in r <==> x == k || x in ks
  {
    if ks == [] then [k]
    else if k == ks[0] then ks
    else if StrLess(k, ks[0]) then
      assert forall j :: 0 <= j < |ks| ==> StrLess(k, ks[j]) by {
        forall j | 0 < j < |ks|
          ensures StrLess(k, ks[j])
        {
          StrLessTransitive(k, ks[0], ks[j]);
        }
      }
      [k] + ks
    else
      StrLessTotal(k, ks[0]);
      var t := InsertKey(k, ks[1..]);
      assert forall x :: x in t ==> StrLess(ks[0], x);
      assert ks == [ks[0]] + ks[1..];
      [ks[0]] + t
  }

  /** `grouped_data.groups.keys()`: every item of the data once, in ascending order. */
  function GroupKeys(data: seq<HistoryRow>): (ks: seq<ItemId>)
    ensures StrictlyIncreasing(ks)
    ensures forall k :: k in ks <==> k in ItemsOf(data)
  {
    if data == [] then []
    else
      var init := data[..|data| - 1];
      assert data == init + [data[|data| - 1]];
      assert ItemsOf(data) == ItemsOf(init) + {data[|data| - 1].item};
      InsertKey(data[|data| - 1].item, GroupKeys(init))
  }

  /** The group keys are pairwise distinct. */
  lemma GroupKeysDistinct(data: seq<HistoryRow>)
    ensures forall i, j :: 0 <= i < j < |GroupKeys(data)| ==> GroupKeys(data)[i] != GroupKeys(data)[j]
  {
    var ks := GroupKeys(data);
    forall i, j | 0 <= i < j < |ks|
      ensures ks[i] != ks[j]
    {
      if ks[i] == ks[j] {
        StrLessIrreflexive(ks[i]);
      }
    }
  }

  /** The rows of item `k`, in their original order. */
  function RowsOfItem(data: seq<HistoryRow>, k: ItemId): (rows: seq<HistoryRow>)
    ensures forall r :: r in rows <==> r in data && r.item == k
    ensures forall r :: multiset(rows)[r] == if r.item == k then multiset(data)[r] else 0
  {
    if data == [] then []
    else
      assert data == [data[0]] + data[1..];
      (if data[0].item == k then [data[0]] else []) + RowsOfItem(data[1..], k)
  }

  /** `grouped_data.get_group(k)`: a frame with all the columns, `Item` included, holding
      each row of item `k` as many times as the data does, and no other row. */
  function Group(data: seq<HistoryRow>, k: ItemId): (g: Partition)
    ensures g.hasItemColumn
    ensures forall r :: multiset(g.rows)[r] == if r.item == k then multiset(data)[r] else 0
  {
    Partition(true, RowsOfItem(data, k))
  }

  /** The group of a key holds rows of that item only, and at least one. */
  lemma GroupIsSingleItem(data: seq<HistoryRow>, k: ItemId)
    requires k in GroupKeys(data)
    ensures Group(data, k).hasItemColumn
    ensures SingleItem(Group(data, k).rows)
    ensures Group(data, k).rows[0].item == k
  {
    var r :| r in data && r.item == k;
    assert r in RowsOfItem(data, k);
  }

  /** The groups partition the data: a row is in the group of its own item and in no other. */
  lemma GroupsPartitionData(data: seq<HistoryRow>, r: HistoryRow, k: ItemId)
    requires r in data
    ensures r.item in GroupKeys(data)
    ensures r in Group(data, k).rows <==> k == r.item
  {
  }
}
