/** The daily profit/loss table: the filtered view grouped by calendar
    date, with the sums of profit, total price and cost per date. */
module DailyAggregation {
  import opened Transactions
  import opened Grouping

  /** `transaction_date.dt.date`: the grouping key ignores the hour. */
  function DayOf(r: Record): int {
    r.timestamp.day
  }

  predicate DayBefore(a: int, b: int) {
    a < b
  }

  /** The aggregated columns, in the order the agg dictionary lists them. */
  const DailyColumns: seq<Measure> := [Profit, TotalPrice, Cost]

  lemma DayBeforeIsStrictTotalOrder()
    ensures StrictTotalOrder(DayBefore)
  {
  }

  /** The rows of one calendar date. */
  function OnDay(view: seq<Record>, day: int): (rows: seq<Record>)
    ensures IsSubsequence(rows, view)
    ensures |rows| == CountTrue(KeyMask(view, DayOf, day))
    ensures forall r :: r in rows <==> r in view && r.timestamp.day == day
  {
    Where(view, DayOf, day)
  }

  /** `daily_profits`: one row per date present in the view, dates strictly
      ascending; each row's sums are those of that date's records. */
  function DailyProfits(view: seq<Record>): (rows: seq<Aggregate<int>>)
    ensures forall i :: 0 <= i < |rows| ==> |rows[i].sums| == |DailyColumns|
    ensures forall i, j :: 0 <= i < j < |rows| ==> rows[i].key < rows[j].key
    ensures forall r :: r in view ==> exists i :: 0 <= i < |rows| && rows[i].key == r.timestamp.day
    ensures forall i :: 0 <= i < |rows| ==>
      var day := OnDay(view, rows[i].key);
      && day != []
      && rows[i].sums[0] == Total(day, Profit)
      && rows[i].sums[1] == Total(day, TotalPrice)
      && rows[i].sums[2] == Total(day, Cost)
  {
    DailyShape(view);
    var rows := GroupBy(view, DayOf, DayBefore, DailyColumns);
    assert DailyColumns[0] == Profit && DailyColumns[1] == TotalPrice && DailyColumns[2] == Cost;
    rows
  }

  lemma DailyShape(view: seq<Record>)
    ensures var rows := GroupBy(view, DayOf, DayBefore, DailyColumns);
      && (forall i, j :: 0 <= i < j < |rows| ==> rows[i].key < rows[j].key)
      && (forall r :: r in view ==> exists i :: 0 <= i < |rows| && rows[i].key == r.timestamp.day)
      && (forall i :: 0 <= i < |rows| ==> OnDay(view, rows[i].key) != [])
  {
    DayBeforeIsStrictTotalOrder();
    GroupByShape(view, DayOf, DayBefore, DailyColumns);
  }

  /** Conservation: the daily sums add up to the view's totals, column by
      column. */
  lemma DailyTotalsConserved(view: seq<Record>)
    ensures var rows := DailyProfits(view);
      && ColumnSum(rows, 0) == Total(view, Profit)
      && ColumnSum(rows, 1) == Total(view, TotalPrice)
      && ColumnSum(rows, 2) == Total(view, Cost)
  {
    DayBeforeIsStrictTotalOrder();
    GroupByConserves(view, DayOf, DayBefore, DailyColumns, 0);
    GroupByConserves(view, DayOf, DayBefore, DailyColumns, 1);
    GroupByConserves(view, DayOf, DayBefore, DailyColumns, 2);
  }

  /** The table has exactly one row per distinct date of the view. */
  lemma DailyRowCount(view: seq<Record>)
    ensures |DailyProfits(view)| == |set r | r in view :: r.timestamp.day|
  {
    DayBeforeIsStrictTotalOrder();
    var keyOf: Record -> int := DayOf;
    GroupCount(view, keyOf, DayBefore, DailyColumns);
    var a := set r | r in view :: keyOf(r);
    var b := set r | r in view :: r.timestamp.day;
    assert a == b by {
      forall d | d in a ensures d in b {
        var r :| r in view && keyOf(r) == d;
      }
      forall d | d in b ensures d in a {
        var r :| r in view && r.timestamp.day == d;
        assert keyOf(r) == d;
      }
    }
  }
}
