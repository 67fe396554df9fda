/** `sort_values(["Item", "YYYYMM"])`: sorting rows by their canonical key.
    A sort on several columns is stable in pandas, and so is the insertion sort here;
    SortedPermutationsEqual shows moreover that, when the key determines the row, every
    sorted permutation of a table is the same table. */
module KeyedSort {
  import opened Frames

  /** No row is preceded by a row with a larger key. */
  ghost predicate SortedBy<T>(s: seq<T>, key: T -> Key)
  {
    forall i, j :: 0 <= i < j < |s| ==> !KeyLess(key(s[j]), key(s[i]))
  }

  /** Rows with the same key are the same row. */
  ghost predicate KeyFunctional<T>(s: seq<T>, key: T -> Key)
  {
    forall x, y :: x in s && y in s && key(x) == key(y) ==> x == y
  }

  lemma PrependSorted<T>(x: T, s: seq<T>, key: T -> Key)
    requires SortedBy(s, key)
    requires forall y :: y in s ==> !KeyLess(key(y), key(x))
    ensures SortedBy([x] + s, key)
  {
    var r := [x] + s;
    forall i, j | 0 <= i < j < |r|
      ensures !KeyLess(key(r[j]), key(r[i]))
    {
      if i > 0 {
        assert r[i] == s[i - 1] && r[j] == s[j - 1];
      } else {
        assert r[j] in s;
      }
    }
  }

  /** Inserts `x` before the first row whose key is not smaller than its own. */
  function Insert<T>(x: T, s: seq<T>, key: T -> Key): (r: seq<T>)
    requires SortedBy(s, key)
    ensures SortedBy(r, key)
    ensures multiset(r) == multiset(s) + multiset{x}
  {
    if s == [] || !KeyLess(key(s[0]), key(x)) then
      assert forall y :: y in s ==> !KeyLess(key(y), key(x)) by {
        forall y | y in s
          ensures !KeyLess(key(y), key(x))
        {
          var j :| 0 <= j < |s| && s[j] == y;
          if j > 0 {
            KeyLessNegTransitive(key(x), key(s[0]), key(y));
          }
        }
      }
      PrependSorted(x, s, key);
      [x] + s
    else
      var t := Insert(x, s[1..], key);
      assert forall y :: y in t ==> !KeyLess(key(y), key(s[0])) by {
        forall y | y in t
          ensures !KeyLess(key(y), key(s[0]))
        {
          assert y in multiset(t);
          if y == x {
            if KeyLess(key(x), key(s[0])) {
              KeyLessTransitive(key(s[0]), key(x), key(s[0]));
              KeyLessIrreflexive(key(s[0]));
            }
          } else {
            assert y in multiset(s[1..]);
            var j :| 0 <= j < |s[1..]| && s[1..][j] == y;
            assert s[j + 1] == y;
          }
        }
      }
      PrependSorted(s[0], t, key);
      assert s == [s[0]] + s[1..];
      [s[0]] + t
  }

  /** A sorted permutation of `s`. */
  function SortBy<T>(s: seq<T>, key: T -> Key): (r: seq<T>)
    ensures SortedBy(r, key)
    ensures multiset(r) == multiset(s)
  {
    if s == [] then []
    else
      assert s == [s[0]] + s[1..];
      Insert(s[0], SortBy(s[1..], key), key)
  }

  /** Reordering rows does not change whether the key determines the row. */
  lemma KeyFunctionalPermutation<T>(s: seq<T>, t: seq<T>, key: T -> Key)
    requires multiset(s) == multiset(t)
    requires KeyFunctional(s, key)
    ensures KeyFunctional(t, key)
  {
    forall x, y | x in t && y in t && key(x) == key(y)
      ensures x == y
    {
      assert x in multiset(t) && y in multiset(t);
      assert x in multiset(s) && y in multiset(s);
    }
  }

  lemma TailsPermutation<T>(s: seq<T>, t: seq<T>)
    requires s != [] && t != [] && s[0] == t[0]
    requires multiset(s) == multiset(t)
    ensures multiset(s[1..]) == multiset(t[1..])
  {
    assert s == [s[0]] + s[1..] && t == [t[0]] + t[1..];
    calc {
      multiset(s[1..]);
      multiset(s) - multiset{s[0]};
      multiset(t) - multiset{t[0]};
      multiset(t[1..]);
    }
  }

  /** The first rows of two sorted permutations have the same key. */
  lemma HeadKeysEqual<T>(s1: seq<T>, s2: seq<T>, key: T -> Key)
    requires SortedBy(s1, key) && SortedBy(s2, key)
    requires multiset(s1) == multiset(s2)
    requires s1 != [] && s2 != []
    ensures key(s1[0]) == key(s2[0])
  {
    var a, b := s1[0], s2[0];
    assert b in multiset(s1) && a in multiset(s2);
    var i :| 0 <= i < |s1| && s1[i] == b;
    var j :| 0 <= j < |s2| && s2[j] == a;
    assert !KeyLess(key(b), key(a)) by {
      if i == 0 {
        KeyLessIrreflexive(key(a));
      }
    }
    assert !KeyLess(key(a), key(b)) by {
      if j == 0 {
        KeyLessIrreflexive(key(b));
      }
    }
    KeyLessTotal(key(a), key(b));
  }

  /** When the key determines the row, two sorted permutations of the same rows are equal:
      sorting by the key fixes the order completely. */
  lemma {:induction false} SortedPermutationsEqual<T>(s1: seq<T>, s2: seq<T>, key: T -> Key)
    requires SortedBy(s1, key) && SortedBy(s2, key)
    requires multiset(s1) == multiset(s2)
    requires KeyFunctional(s1, key)
    ensures s1 == s2
    decreases |s1|
  {
    assert |s1| == |multiset(s1)| == |multiset(s2)| == |s2|;
    if s1 != [] {
      HeadKeysEqual(s1, s2, key);
      assert s2[0] in multiset(s1);
      assert s1[0] == s2[0];
      TailsPermutation(s1, s2);
      var t1, t2 := s1[1..], s2[1..];
      assert SortedBy(t1, key) && SortedBy(t2, key);
      forall x, y | x in t1 && y in t1 && key(x) == key(y)
        ensures x == y
      {
        assert x in s1 && y in s1;
      }
      SortedPermutationsEqual(t1, t2, key);
      assert s1 == [s1[0]] + t1 && s2 == [s2[0]] + t2;
    }
  }
}
