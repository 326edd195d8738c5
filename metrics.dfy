/** The three headline metrics under the charts. */
module Metrics {
  import opened Transactions
  import opened Grouping
  import opened DailyAggregation
  import opened ProductAggregation

  datatype Headline = Headline(revenue: real, profit: real, orders: nat)

  /** Total revenue (`total_price.sum()`), total profit (`profit.sum()`)
      and the order count (`len(filtered_df)`). The two sums agree with the
      daily table and with the product table, and an empty view shows
      zeros. */
  function HeadlineMetrics(view: seq<Record>): (m: Headline)
    ensures m.orders == |view|
    ensures view == [] ==> m == Headline(0.0, 0.0, 0)
    ensures m.revenue == ColumnSum(DailyProfits(view), 1) == ColumnSum(ProductAnalysis(view), 2)
    ensures m.profit == ColumnSum(DailyProfits(view), 0) == ColumnSum(ProductAnalysis(view), 1)
  {
    DailyTotalsConserved(view);
    ProductTotalsConserved(view);
    Headline(Total(view, TotalPrice), Total(view, Profit), |view|)
  }

  /** Revenue and profit add up over any split of the view into two parts,
      so the metrics of a view are the metrics of its parts combined. */
  lemma HeadlineAdditive(a: seq<Record>, b: seq<Record>)
    ensures var m := HeadlineMetrics(a + b);
      && m.revenue == HeadlineMetrics(a).revenue + HeadlineMetrics(b).revenue
      && m.profit == HeadlineMetrics(a).profit + HeadlineMetrics(b).profit
      && m.orders == HeadlineMetrics(a).orders + HeadlineMetrics(b).orders
  {
    TotalAppend(a, b, TotalPrice);
    TotalAppend(a, b, Profit);
  }
}
