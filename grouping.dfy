/** `df.groupby(key).agg({col: 'sum', ...}).reset_index()`: one row per
    distinct key, keys in ascending order (pandas' default `sort=True`),
    each row holding the sums of the requested columns over its group. */
module Grouping {
  import opened Transactions

  /** `less` orders the keys strictly and totally, as `<` orders dates and
      strings. */
  ghost predicate StrictTotalOrder<K(!new)>(less: (K, K) -> bool) {
    && (forall a :: !less(a, a))
    && (forall a, b, c :: less(a, b) && less(b, c) ==> less(a, c))
    && (forall a, b :: a != b ==> less(a, b) || less(b, a))
  }

  ghost predicate StrictlyIncreasing<K>(ks: seq<K>, less: (K, K) -> bool) {
    forall i, j :: 0 <= i < j < |ks| ==> less(ks[i], ks[j])
  }

  ghost predicate Distinct<K>(ks: seq<K>) {
    forall i, j :: 0 <= i < j < |ks| ==> ks[i] != ks[j]
  }

  /** Adds `k` to an ascending list of keys, unless it is already there. */
  function InsertKey<K(==,!new)>(ks: seq<K>, k: K, less: (K, K) -> bool): (r: seq<K>)
    ensures forall x :: x in r <==> x in ks || x == k
  {
    if ks == [] then [k]
    else if k == ks[0] then ks
    else if less(k, ks[0]) then [k] + ks
    else
      var tail := InsertKey(ks[1..], k, less);
      assert forall x :: x in ks <==> x == ks[0] || x in ks[1..];
      [ks[0]] + tail
  }

  lemma {:induction false} InsertKeyIncreasing<K(!new)>(ks: seq<K>, k: K, less: (K, K) -> bool)
    requires StrictTotalOrder(less) && StrictlyIncreasing(ks, less)
    ensures StrictlyIncreasing(InsertKey(ks, k, less), less)
  {
    if ks != [] && k != ks[0] && !less(k, ks[0]) {
      InsertKeyIncreasing(ks[1..], k, less);
      var tail := InsertKey(ks[1..], k, less);
      forall x | x in tail ensures less(ks[0], x) {
        if x != k {
          var j :| 0 <= j < |ks[1..]| && ks[1..][j] == x;
          assert ks[j + 1] == x;
        }
      }
      var r := [ks[0]] + tail;
      forall i, j | 0 <= i < j < |r| ensures less(r[i], r[j]) {
        if i == 0 {
          assert r[j] == tail[j - 1] && r[j] in tail;
        } else {
          assert r[i] == tail[i - 1] && r[j] == tail[j - 1];
        }
      }
    }
  }

  /** The distinct keys of `view`, in ascending order. */
  function Keys<K(==,!new)>(view: seq<Record>, keyOf: Record -> K, less: (K, K) -> bool): (ks: seq<K>)
    ensures forall k :: k in ks <==> exists r :: r in view && keyOf(r) == k
  {
    if view == [] then []
    else
      var ks := Keys(view[1..], keyOf, less);
      assert forall r :: r in view <==> r == view[0] || r in view[1..];
      InsertKey(ks, keyOf(view[0]), less)
  }

  lemma {:induction false} KeysIncreasing<K(!new)>(view: seq<Record>, keyOf: Record -> K, less: (K, K) -> bool)
    requires StrictTotalOrder(less)
    ensures StrictlyIncreasing(Keys(view, keyOf, less), less)
  {
    if view != [] {
      KeysIncreasing(view[1..], keyOf, less);
      InsertKeyIncreasing(Keys(view[1..], keyOf, less), keyOf(view[0]), less);
    }
  }

  lemma IncreasingIsDistinct<K(!new)>(ks: seq<K>, less: (K, K) -> bool)
    requires StrictTotalOrder(less) && StrictlyIncreasing(ks, less)
    ensures Distinct(ks)
  {
    forall i, j | 0 <= i < j < |ks| ensures ks[i] != ks[j] {
      assert less(ks[i], ks[j]);
    }
  }

  /** The mask `df[key] == k`. */
  function KeyMask<K(==)>(view: seq<Record>, keyOf: Record -> K, k: K): (mask: seq<bool>)
    ensures |mask| == |view|
    ensures forall i :: 0 <= i < |view| ==> mask[i] == (keyOf(view[i]) == k)
  {
    seq(|view|, i requires 0 <= i < |view| => keyOf(view[i]) == k)
  }

  /** The rows of group `k`, in their original order, one per matching row
      of the view. */
  function Where<K(==,!new)>(view: seq<Record>, keyOf: Record -> K, k: K): (group: seq<Record>)
    ensures IsSubsequence(group, view)
    ensures |group| == CountTrue(KeyMask(view, keyOf, k))
    ensures forall r :: r in group <==> r in view && keyOf(r) == k
  {
    var mask := KeyMask(view, keyOf, k);
    CompressByPredicate(view, mask, r => keyOf(r) == k);
    Compress(view, mask)
  }

  lemma WhereCons<K(!new)>(r: Record, rest: seq<Record>, keyOf: Record -> K, k: K)
    ensures Where([r] + rest, keyOf, k)
         == (if keyOf(r) == k then [r] else []) + Where(rest, keyOf, k)
  {
    var view := [r] + rest;
    var mask := KeyMask(view, keyOf, k);
    assert view[1..] == rest;
    assert mask[1..] == KeyMask(rest, keyOf, k);
  }

  /** One output row: the group's key and one sum per requested column. */
  datatype Aggregate<K> = Aggregate(key: K, sums: seq<real>)

  function Sums(group: seq<Record>, cols: seq<Measure>): (sums: seq<real>)
    ensures |sums| == |cols|
    ensures forall j :: 0 <= j < |cols| ==> sums[j] == Total(group, cols[j])
  {
    seq(|cols|, j requires 0 <= j < |cols| => Total(group, cols[j]))
  }

  function AggregateKeys<K(==,!new)>(ks: seq<K>, view: seq<Record>, keyOf: Record -> K, cols: seq<Measure>)
    : (rows: seq<Aggregate<K>>)
    ensures |rows| == |ks|
    ensures forall i :: 0 <= i < |ks| ==>
      rows[i].key == ks[i] && rows[i].sums == Sums(Where(view, keyOf, ks[i]), cols)
  {
    if ks == [] then []
    else [Aggregate(ks[0], Sums(Where(view, keyOf, ks[0]), cols))] + AggregateKeys(ks[1..], view, keyOf, cols)
  }

  /** The grouped table. */
  function GroupBy<K(==,!new)>(view: seq<Record>, keyOf: Record -> K, less: (K, K) -> bool, cols: seq<Measure>)
    : (rows: seq<Aggregate<K>>)
    ensures |rows| == |Keys(view, keyOf, less)|
    ensures forall i :: 0 <= i < |rows| ==>
      rows[i].key == Keys(view, keyOf, less)[i] && |rows[i].sums| == |cols|
    ensures forall i, j :: 0 <= i < |rows| && 0 <= j < |cols| ==>
      rows[i].sums[j] == Total(Where(view, keyOf, rows[i].key), cols[j])
  {
    AggregateKeys(Keys(view, keyOf, less), view, keyOf, cols)
  }

  /** The sum of column `j` of a grouped table. */
  function ColumnSum<K>(rows: seq<Aggregate<K>>, j: nat): real
    requires forall i :: 0 <= i < |rows| ==> j < |rows[i].sums|
  {
    if rows == [] then 0.0 else rows[0].sums[j] + ColumnSum(rows[1..], j)
  }

  /** The sum of measure `m` over the groups `ks`. */
  function SumOverKeys<K(==,!new)>(ks: seq<K>, view: seq<Record>, keyOf: Record -> K, m: Measure): real {
    if ks == [] then 0.0 else Total(Where(view, keyOf, ks[0]), m) + SumOverKeys(ks[1..], view, keyOf, m)
  }

  lemma {:induction false} ColumnSumOfAggregate<K(!new)>(ks: seq<K>, view: seq<Record>, keyOf: Record -> K, cols: seq<Measure>, j: nat)
    requires j < |cols|
    ensures ColumnSum(AggregateKeys(ks, view, keyOf, cols), j) == SumOverKeys(ks, view, keyOf, cols[j])
  {
    if ks != [] {
      ColumnSumOfAggregate(ks[1..], view, keyOf, cols, j);
    }
  }

  lemma {:induction false} SumOverKeysOfEmpty<K(!new)>(ks: seq<K>, keyOf: Record -> K, m: Measure)
    ensures SumOverKeys(ks, [], keyOf, m) == 0.0
  {
    if ks != [] {
      SumOverKeysOfEmpty(ks[1..], keyOf, m);
    }
  }

  /** Adding one row to the view adds its amount to exactly one group's
      sum, when its key is among `ks`. */
  lemma {:induction false} SumOverKeysCons<K(!new)>(ks: seq<K>, r: Record, rest: seq<Record>, keyOf: Record -> K, m: Measure)
    requires Distinct(ks)
    ensures SumOverKeys(ks, [r] + rest, keyOf, m)
         == SumOverKeys(ks, rest, keyOf, m) + (if keyOf(r) in ks then Amount(r, m) else 0.0)
  {
    if ks != [] {
      assert Distinct(ks[1..]) by {
        forall i, j | 0 <= i < j < |ks[1..]| ensures ks[1..][i] != ks[1..][j] {
          assert ks[1..][i] == ks[i + 1] && ks[1..][j] == ks[j + 1];
        }
      }
      SumOverKeysCons(ks[1..], r, rest, keyOf, m);
      WhereCons(r, rest, keyOf, ks[0]);
      TotalAppend(if keyOf(r) == ks[0] then [r] else [], Where(rest, keyOf, ks[0]), m);
      if keyOf(r) == ks[0] {
        assert keyOf(r) !in ks[1..] by {
          forall j | 0 <= j < |ks[1..]| ensures ks[1..][j] != keyOf(r) {
            assert ks[1..][j] == ks[j + 1];
          }
        }
      }
      assert keyOf(r) in ks <==> keyOf(r) == ks[0] || keyOf(r) in ks[1..];
    }
  }

  /** Conservation: when the groups are distinct and cover every row, their
      sums add up to the view's total. */
  lemma {:induction false} SumOverKeysIsTotal<K(!new)>(ks: seq<K>, view: seq<Record>, keyOf: Record -> K, m: Measure)
    requires Distinct(ks)
    requires forall r :: r in view ==> keyOf(r) in ks
    ensures SumOverKeys(ks, view, keyOf, m) == Total(view, m)
  {
    if view == [] {
      SumOverKeysOfEmpty(ks, keyOf, m);
    } else {
      var r, rest := view[0], view[1..];
      assert view == [r] + rest;
      SumOverKeysIsTotal(ks, rest, keyOf, m);
      SumOverKeysCons(ks, r, rest, keyOf, m);
    }
  }

  /** Every column of the grouped table sums to the view's total of that
      column. */
  lemma GroupByConserves<K(!new)>(view: seq<Record>, keyOf: Record -> K, less: (K, K) -> bool, cols: seq<Measure>, j: nat)
    requires StrictTotalOrder(less)
    requires j < |cols|
    ensures ColumnSum(GroupBy(view, keyOf, less, cols), j) == Total(view, cols[j])
  {
    var ks := Keys(view, keyOf, less);
    KeysIncreasing(view, keyOf, less);
    IncreasingIsDistinct(ks, less);
    ColumnSumOfAggregate(ks, view, keyOf, cols, j);
    SumOverKeysIsTotal(ks, view, keyOf, cols[j]);
  }

  /** The shape of the grouped table: keys strictly ascending (so one row
      per key), exactly the keys present in the view, and no empty group. */
  lemma GroupByShape<K(!new)>(view: seq<Record>, keyOf: Record -> K, less: (K, K) -> bool, cols: seq<Measure>)
    requires StrictTotalOrder(less)
    ensures var rows := GroupBy(view, keyOf, less, cols);
      && (forall i, j :: 0 <= i < j < |rows| ==> less(rows[i].key, rows[j].key))
      && (forall r :: r in view ==> exists i :: 0 <= i < |rows| && rows[i].key == keyOf(r))
      && (forall i :: 0 <= i < |rows| ==> Where(view, keyOf, rows[i].key) != [])
  {
    var rows := GroupBy(view, keyOf, less, cols);
    var ks := Keys(view, keyOf, less);
    KeysIncreasing(view, keyOf, less);
    forall r | r in view ensures exists i :: 0 <= i < |rows| && rows[i].key == keyOf(r) {
      assert keyOf(r) in ks;
      var i :| 0 <= i < |ks| && ks[i] == keyOf(r);
      assert rows[i].key == keyOf(r);
    }
    forall i | 0 <= i < |rows| ensures Where(view, keyOf, rows[i].key) != [] {
      assert ks[i] in ks;
      var r :| r in view && keyOf(r) == ks[i];
      assert r in Where(view, keyOf, rows[i].key);
    }
  }

  lemma {:induction false} DistinctCardinality<K(!new)>(ks: seq<K>)
    requires Distinct(ks)
    ensures |set k | k in ks| == |ks|
  {
    if ks != [] {
      assert Distinct(ks[1..]) by {
        forall i, j | 0 <= i < j < |ks[1..]| ensures ks[1..][i] != ks[1..][j] {
          assert ks[1..][i] == ks[i + 1] && ks[1..][j] == ks[j + 1];
        }
      }
      DistinctCardinality(ks[1..]);
      assert ks[0] !in ks[1..] by {
        forall j | 0 <= j < |ks[1..]| ensures ks[1..][j] != ks[0] {
          assert ks[1..][j] == ks[j + 1];
        }
      }
      assert (set k | k in ks) == {ks[0]} + (set k | k in ks[1..]);
    }
  }

  /** The grouped table has exactly as many rows as the view has distinct
      keys. */
  lemma GroupCount<K(!new)>(view: seq<Record>, keyOf: Record -> K, less: (K, K) -> bool, cols: seq<Measure>)
    requires StrictTotalOrder(less)
    ensures |GroupBy(view, keyOf, less, cols)| == |set r | r in view :: keyOf(r)|
  {
    var ks := Keys(view, keyOf, less);
    KeysIncreasing(view, keyOf, less);
    IncreasingIsDistinct(ks, less);
    DistinctCardinality(ks);
    assert (set k | k in ks) == (set r | r in view :: keyOf(r));
  }
}
