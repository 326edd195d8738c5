/** The popular-products table: the filtered view grouped by product name
    with the sums of quantity, profit and total price, and its top ten rows
    by quantity. */
module ProductAggregation {
  import opened Transactions
  import opened Grouping

  /** Python's `<` on strings: lexicographic by code point, a proper prefix
      coming first. This is the order in which `groupby` emits the names. */
  predicate StrLess(a: string, b: string) {
    if a == [] then b != []
    else if b == [] then false
    else if a[0] != b[0] then a[0] < b[0]
    else StrLess(a[1..], b[1..])
  }

  lemma {:induction false} StrLessIrreflexive(a: string)
    ensures !StrLess(a, a)
  {
    if a != [] {
      StrLessIrreflexive(a[1..]);
    }
  }

  lemma {:induction false} StrLessTransitive(a: string, b: string, c: string)
    requires StrLess(a, b) && StrLess(b, c)
    ensures StrLess(a, c)
  {
    if a != [] && a[0] == b[0] && b[0] == c[0] {
      StrLessTransitive(a[1..], b[1..], c[1..]);
    }
  }

  lemma {:induction false} StrLessTotal(a: string, b: string)
    requires a != b
    ensures StrLess(a, b) || StrLess(b, a)
  {
    if a != [] && b != [] && a[0] == b[0] {
      assert a == [a[0]] + a[1..] && b == [b[0]] + b[1..];
      StrLessTotal(a[1..], b[1..]);
    }
  }

  lemma StrLessIsStrictTotalOrder()
    ensures StrictTotalOrder(StrLess)
  {
    forall a ensures !StrLess(a, a) {
      StrLessIrreflexive(a);
    }
    forall a, b, c | StrLess(a, b) && StrLess(b, c) ensures StrLess(a, c) {
      StrLessTransitive(a, b, c);
    }
    forall a, b | a != b ensures StrLess(a, b) || StrLess(b, a) {
      StrLessTotal(a, b);
    }
  }

  function ProductOf(r: Record): string {
    r.product
  }

  /** The aggregated columns, in the order the agg dictionary lists them. */
  const ProductColumns: seq<Measure> := [Quantity, Profit, TotalPrice]

  /** The rows of one product. */
  function OfProduct(view: seq<Record>, product: string): (rows: seq<Record>)
    ensures IsSubsequence(rows, view)
    ensures |rows| == CountTrue(KeyMask(view, ProductOf, product))
    ensures forall r :: r in rows <==> r in view && r.product == product
  {
    Where(view, ProductOf, product)
  }

  /** `product_analysis`: one row per product name present in the view,
      names ascending; each row's sums are those of that product's records. */
  function ProductAnalysis(view: seq<Record>): (rows: seq<Aggregate<string>>)
    ensures forall i :: 0 <= i < |rows| ==> |rows[i].sums| == |ProductColumns|
    ensures forall i, j :: 0 <= i < j < |rows| ==> StrLess(rows[i].key, rows[j].key)
    ensures forall i, j :: 0 <= i < j < |rows| ==> rows[i].key != rows[j].key
    ensures forall r :: r in view ==> exists i :: 0 <= i < |rows| && rows[i].key == r.product
    ensures forall i :: 0 <= i < |rows| ==>
      var group := OfProduct(view, rows[i].key);
      && group != []
      && rows[i].sums[0] == Total(group, Quantity)
      && rows[i].sums[1] == Total(group, Profit)
      && rows[i].sums[2] == Total(group, TotalPrice)
  {
    ProductShape(view);
    var rows := GroupBy(view, ProductOf, StrLess, ProductColumns);
    assert ProductColumns[0] == Quantity && ProductColumns[1] == Profit && ProductColumns[2] == TotalPrice;
    rows
  }

  lemma ProductShape(view: seq<Record>)
    ensures var rows := GroupBy(view, ProductOf, StrLess, ProductColumns);
      && (forall i, j :: 0 <= i < j < |rows| ==> StrLess(rows[i].key, rows[j].key))
      && (forall i, j :: 0 <= i < j < |rows| ==> rows[i].key != rows[j].key)
      && (forall r :: r in view ==> exists i :: 0 <= i < |rows| && rows[i].key == r.product)
      && (forall i :: 0 <= i < |rows| ==> OfProduct(view, rows[i].key) != [])
  {
    StrLessIsStrictTotalOrder();
    GroupByShape(view, ProductOf, StrLess, ProductColumns);
    var rows := GroupBy(view, ProductOf, StrLess, ProductColumns);
    forall i, j | 0 <= i < j < |rows| ensures rows[i].key != rows[j].key {
      StrLessIrreflexive(rows[i].key);
    }
  }

  /** Conservation: the per-product sums add up to the view's totals. */
  lemma ProductTotalsConserved(view: seq<Record>)
    ensures var rows := ProductAnalysis(view);
      && ColumnSum(rows, 0) == Total(view, Quantity)
      && ColumnSum(rows, 1) == Total(view, Profit)
      && ColumnSum(rows, 2) == Total(view, TotalPrice)
  {
    StrLessIsStrictTotalOrder();
    GroupByConserves(view, ProductOf, StrLess, ProductColumns, 0);
    GroupByConserves(view, ProductOf, StrLess, ProductColumns, 1);
    GroupByConserves(view, ProductOf, StrLess, ProductColumns, 2);
  }

  /** The table has exactly one row per distinct product name of the view. */
  lemma ProductRowCount(view: seq<Record>)
    ensures |ProductAnalysis(view)| == |set r | r in view :: r.product|
  {
    StrLessIsStrictTotalOrder();
    var keyOf: Record -> string := ProductOf;
    GroupCount(view, keyOf, StrLess, ProductColumns);
    var a := set r | r in view :: keyOf(r);
    var b := set r | r in view :: r.product;
    assert a == b by {
      forall p | p in a ensures p in b {
        var r :| r in view && keyOf(r) == p;
      }
      forall p | p in b ensures p in a {
        var r :| r in view && r.product == p;
        assert keyOf(r) == p;
      }
    }
  }

  /** A product row's quantity sum, its first column. */
  function QuantityOf(row: Aggregate<string>): real {
    if |row.sums| > 0 then row.sums[0] else 0.0
  }

  ghost predicate QuantityNonIncreasing(rows: seq<Aggregate<string>>) {
    forall i, j :: 0 <= i < j < |rows| ==> QuantityOf(rows[j]) <= QuantityOf(rows[i])
  }

  ghost predicate DistinctKeys(rows: seq<Aggregate<string>>) {
    forall i, j :: 0 <= i < j < |rows| ==> rows[i].key != rows[j].key
  }

  /** Places `row` in a list ordered by decreasing quantity, after every row
      of at least its quantity. */
  function InsertByQuantity(row: Aggregate<string>, rows: seq<Aggregate<string>>): (r: seq<Aggregate<string>>)
    requires QuantityNonIncreasing(rows)
    ensures QuantityNonIncreasing(r)
    ensures |r| == |rows| + 1 && multiset(r) == multiset(rows) + multiset{row}
    ensures forall x :: x in r <==> x in rows || x == row
  {
    if rows == [] then [row]
    else if QuantityOf(rows[0]) < QuantityOf(row) then [row] + rows
    else
      var tail := InsertByQuantity(row, rows[1..]);
      InsertByQuantityStep(row, rows, tail);
      [rows[0]] + tail
  }

  /** The recursive case of `InsertByQuantity`: the first row stays in
      front of the tail with `row` inserted. */
  lemma InsertByQuantityStep(row: Aggregate<string>, rows: seq<Aggregate<string>>, tail: seq<Aggregate<string>>)
    requires rows != [] && QuantityNonIncreasing(rows) && QuantityOf(row) <= QuantityOf(rows[0])
    requires QuantityNonIncreasing(tail) && |tail| == |rows|
    requires multiset(tail) == multiset(rows[1..]) + multiset{row}
    requires forall x :: x in tail <==> x in rows[1..] || x == row
    ensures QuantityNonIncreasing([rows[0]] + tail)
    ensures multiset([rows[0]] + tail) == multiset(rows) + multiset{row}
    ensures forall x :: x in [rows[0]] + tail <==> x in rows || x == row
  {
    assert rows == [rows[0]] + rows[1..];
    QuantityBoundOfInsert(rows[0], row, rows[1..], tail);
    var r := [rows[0]] + tail;
    forall i, j | 0 <= i < j < |r| ensures QuantityOf(r[j]) <= QuantityOf(r[i]) {
      assert r[j] == tail[j - 1];
      if i > 0 {
        assert r[i] == tail[i - 1];
      }
    }
  }

  /** Whatever bounds the quantities of `t` and of `row` bounds those of
      every permutation of `t` with `row` added. */
  lemma QuantityBoundOfInsert(top: Aggregate<string>, row: Aggregate<string>, t: seq<Aggregate<string>>, r: seq<Aggregate<string>>)
    requires multiset(r) == multiset(t) + multiset{row}
    requires QuantityOf(row) <= QuantityOf(top)
    requires forall k :: 0 <= k < |t| ==> QuantityOf(t[k]) <= QuantityOf(top)
    ensures forall k :: 0 <= k < |r| ==> QuantityOf(r[k]) <= QuantityOf(top)
  {
    forall k | 0 <= k < |r| ensures QuantityOf(r[k]) <= QuantityOf(top) {
      assert r[k] in multiset(r);
      if r[k] != row {
        assert r[k] in multiset(t);
        var j :| 0 <= j < |t| && t[j] == r[k];
      }
    }
  }

  lemma {:induction false} InsertKeepsKeysDistinct(row: Aggregate<string>, rows: seq<Aggregate<string>>)
    requires QuantityNonIncreasing(rows)
    requires DistinctKeys(rows) && forall x :: x in rows ==> x.key != row.key
    ensures DistinctKeys(InsertByQuantity(row, rows))
  {
    if rows == [] || QuantityOf(rows[0]) < QuantityOf(row) {
      ConsKeepsKeysDistinct(row, rows);
    } else {
      var rest := rows[1..];
      TailOfDistinct(rows);
      assert rows == [rows[0]] + rest;
      InsertKeepsKeysDistinct(row, rest);
      var tail := InsertByQuantity(row, rest);
      assert forall x :: x in tail ==> x in rest || x == row;
      ConsKeepsKeysDistinct(rows[0], tail);
    }
  }

  lemma ConsKeepsKeysDistinct(x: Aggregate<string>, t: seq<Aggregate<string>>)
    requires DistinctKeys(t) && forall y :: y in t ==> y.key != x.key
    ensures DistinctKeys([x] + t)
  {
    var r := [x] + t;
    forall i, j | 0 <= i < j < |r| ensures r[i].key != r[j].key {
      assert r[j] == t[j - 1] && t[j - 1] in t;
      if i > 0 {
        assert r[i] == t[i - 1];
      }
    }
  }

  /** Dropping the first row keeps the keys distinct and the quantities in
      order, and no later row shares the first row's key. */
  lemma TailOfDistinct(rows: seq<Aggregate<string>>)
    requires rows != [] && DistinctKeys(rows) && QuantityNonIncreasing(rows)
    ensures DistinctKeys(rows[1..]) && QuantityNonIncreasing(rows[1..])
    ensures forall x :: x in rows[1..] ==> x.key != rows[0].key
  {
    var rest := rows[1..];
    forall i, j | 0 <= i < j < |rest| ensures rest[i].key != rest[j].key && QuantityOf(rest[j]) <= QuantityOf(rest[i]) {
      assert rest[i] == rows[i + 1] && rest[j] == rows[j + 1];
    }
    forall x | x in rest ensures x.key != rows[0].key {
      var k :| 0 <= k < |rest| && rest[k] == x;
      assert rows[k + 1] == x;
    }
  }

  /** `sort_values('quantity', ascending=False)`. The order among rows of
      equal quantity is a choice of this model; see TopProducts. */
  function SortByQuantity(rows: seq<Aggregate<string>>): (sorted: seq<Aggregate<string>>)
    ensures QuantityNonIncreasing(sorted)
    ensures |sorted| == |rows| && multiset(sorted) == multiset(rows)
    ensures forall x :: x in sorted <==> x in rows
  {
    if rows == [] then []
    else
      var last := rows[|rows| - 1];
      var prefix := rows[..|rows| - 1];
      assert rows == prefix + [last];
      InsertByQuantity(last, SortByQuantity(prefix))
  }

  lemma {:induction false} SortKeepsKeysDistinct(rows: seq<Aggregate<string>>)
    requires DistinctKeys(rows)
    ensures DistinctKeys(SortByQuantity(rows))
  {
    if rows != [] {
      var last := rows[|rows| - 1];
      var prefix := rows[..|rows| - 1];
      assert rows == prefix + [last];
      SortKeepsKeysDistinct(prefix);
      var sortedPrefix := SortByQuantity(prefix);
      forall x | x in sortedPrefix ensures x.key != last.key {
        var k :| 0 <= k < |prefix| && prefix[k] == x;
      }
      InsertKeepsKeysDistinct(last, sortedPrefix);
    }
  }

  /** How many rows `head` keeps. */
  const TopCount: nat := 10

  /** `rows.sort_values('quantity', ascending=False).head(10)`. */
  function HeadByQuantity(rows: seq<Aggregate<string>>): (top: seq<Aggregate<string>>)
    requires DistinctKeys(rows)
    ensures |top| == (if |rows| < TopCount then |rows| else TopCount)
    ensures forall t :: t in top ==> t in rows
    ensures QuantityNonIncreasing(top) && DistinctKeys(top)
    ensures forall r, t :: r in rows && r !in top && t in top ==> QuantityOf(r) <= QuantityOf(t)
  {
    var sorted := SortByQuantity(rows);
    SortKeepsKeysDistinct(rows);
    var n := if |sorted| < TopCount then |sorted| else TopCount;
    HeadDominates(sorted, n);
    HeadKeepsOrder(sorted, n);
    sorted[..n]
  }

  /** In a list ordered by decreasing quantity, nothing after the first `n`
      rows exceeds any of them. */
  lemma HeadDominates(sorted: seq<Aggregate<string>>, n: nat)
    requires QuantityNonIncreasing(sorted) && n <= |sorted|
    ensures forall r, t :: r in sorted && r !in sorted[..n] && t in sorted[..n] ==> QuantityOf(r) <= QuantityOf(t)
  {
    forall r, t | r in sorted && r !in sorted[..n] && t in sorted[..n]
      ensures QuantityOf(r) <= QuantityOf(t)
    {
      var p :| 0 <= p < |sorted| && sorted[p] == r;
      var q :| 0 <= q < n && sorted[..n][q] == t;
      assert sorted[q] == t;
    }
  }

  /** The first `n` rows of a list ordered by decreasing quantity with
      distinct names are rows of it, in the same order, with distinct
      names. */
  lemma HeadKeepsOrder(sorted: seq<Aggregate<string>>, n: nat)
    requires QuantityNonIncreasing(sorted) && DistinctKeys(sorted) && n <= |sorted|
    ensures QuantityNonIncreasing(sorted[..n]) && DistinctKeys(sorted[..n])
    ensures forall t :: t in sorted[..n] ==> t in sorted
  {
    var top := sorted[..n];
    forall i, j | 0 <= i < j < |top|
      ensures QuantityOf(top[j]) <= QuantityOf(top[i]) && top[i].key != top[j].key
    {
      assert top[i] == sorted[i] && top[j] == sorted[j];
    }
    forall t | t in top ensures t in sorted {
      var k :| 0 <= k < |top| && top[k] == t;
      assert sorted[k] == t;
    }
  }

  /** `product_analysis.sort_values('quantity', ascending=False).head(10)`.
      pandas' default sort is not stable, so which of several rows of equal
      quantity lead is not fixed by the source; the contract says only what
      holds for every tie order: up to ten distinct product rows, quantities
      non-increasing, and no row left out has a larger quantity than any row
      kept. */
  function TopProducts(view: seq<Record>): (top: seq<Aggregate<string>>)
    ensures var rows := ProductAnalysis(view);
      && |top| == (if |rows| < TopCount then |rows| else TopCount)
      && (forall t :: t in top ==> t in rows)
      && QuantityNonIncreasing(top)
      && DistinctKeys(top)
      && (forall r, t :: r in rows && r !in top && t in top ==> QuantityOf(r) <= QuantityOf(t))
  {
    HeadByQuantity(ProductAnalysis(view))
  }
}
