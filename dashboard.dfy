/** One rendering of the dashboard: the table and the two widget values go
    in; the filtered view, the daily table, the product table and its top
    ten, the flagged orders with their warning, and the headline metrics
    come out. Drawing the charts is not modelled. */
module Dashboard {
  import opened Transactions
  import opened Grouping
  import opened Filtering
  import opened DailyAggregation
  import opened ProductAggregation
  import opened FraudDetection
  import opened Metrics

  /** Everything one rendering computes. */
  datatype Panels = Panels(
    view: seq<Record>,
    dailyProfits: seq<Aggregate<int>>,
    productAnalysis: seq<Aggregate<string>>,
    topProducts: seq<Aggregate<string>>,
    suspiciousOrders: seq<Record>,
    warning: Option<nat>,
    headline: Headline)

  /** The warning banner: shown, with the number of flagged orders, exactly
      when something is flagged. */
  function Warning(flagged: seq<Record>): (w: Option<nat>)
    ensures w.Some? <==> flagged != []
    ensures w.Some? ==> w.value == |flagged| && w.value > 0
  {
    if flagged == [] then None else Some(|flagged|)
  }

  /** How the panels of one rendering agree with each other and with the
      table: the view and the flagged orders are rows of the table in their
      original order, the warning counts the flagged orders, the top
      products are rows of the product table, and the headline sums equal
      the sums of the daily table and of the product table. */
  ghost predicate Coherent(df: seq<Record>, p: Panels)
    requires forall i :: 0 <= i < |p.dailyProfits| ==> |p.dailyProfits[i].sums| == 3
    requires forall i :: 0 <= i < |p.productAnalysis| ==> |p.productAnalysis[i].sums| == 3
  {
    && IsSubsequence(p.view, df)
    && IsSubsequence(p.suspiciousOrders, p.view)
    && IsSubsequence(p.suspiciousOrders, df)
    && (p.warning.Some? <==> p.suspiciousOrders != [])
    && (p.warning.Some? ==> p.warning.value == |p.suspiciousOrders| <= p.headline.orders)
    && p.headline.orders == |p.view|
    && (forall t :: t in p.topProducts ==> t in p.productAnalysis)
    && p.headline.revenue == ColumnSum(p.dailyProfits, 1) == ColumnSum(p.productAnalysis, 2)
    && p.headline.profit == ColumnSum(p.dailyProfits, 0) == ColumnSum(p.productAnalysis, 1)
  }

  /** Every panel computed from the filtered view: each panel is that
      view's own table, flag list or metric, and together they are
      coherent. */
  function Analyse(df: seq<Record>, view: seq<Record>): (p: Panels)
    requires IsSubsequence(view, df)
    ensures p.view == view
    ensures p.dailyProfits == DailyProfits(view) && p.productAnalysis == ProductAnalysis(view)
    ensures p.topProducts == TopProducts(view) && p.suspiciousOrders == SuspiciousOrders(view)
    ensures p.warning == Warning(SuspiciousOrders(view)) && p.headline == HeadlineMetrics(view)
    ensures forall i :: 0 <= i < |p.dailyProfits| ==> |p.dailyProfits[i].sums| == 3
    ensures forall i :: 0 <= i < |p.productAnalysis| ==> |p.productAnalysis[i].sums| == 3
    ensures Coherent(df, p)
  {
    var flagged := SuspiciousOrders(view);
    FlaggedAreTableRows(df, view);
    Panels(view, DailyProfits(view), ProductAnalysis(view), TopProducts(view),
           flagged, Warning(flagged), HeadlineMetrics(view))
  }

  /** The analysis steps of `create_dashboard`: the filter, which fails when
      the date widget holds fewer than two dates, then every panel. */
  function CreateDashboard(df: seq<Record>, dateRange: seq<int>, category: string)
    : (res: Result<Panels, FilterError>)
    ensures res.Failure? <==> |dateRange| < 2
    ensures res.Failure? ==> res.error == DateRangeIndexError(|dateRange|)
    ensures res.Success? ==>
      && (forall i :: 0 <= i < |res.value.dailyProfits| ==> |res.value.dailyProfits[i].sums| == 3)
      && (forall i :: 0 <= i < |res.value.productAnalysis| ==> |res.value.productAnalysis[i].sums| == 3)
      && Coherent(df, res.value)
  {
    var filtered := FilterByDateInput(df, dateRange, category);
    if filtered.Failure? then Failure(filtered.error)
    else
      Success(Analyse(df, filtered.value))
  }

  /** A successful rendering is the analysis of the filtered view: the
      panels are the daily table, the product table, its top ten, the
      flagged orders, the warning and the metrics of exactly that view. */
  lemma DashboardPanelsOfSelection(df: seq<Record>, dateRange: seq<int>, category: string)
    requires |dateRange| >= 2
    ensures var res := CreateDashboard(df, dateRange, category);
      var view := FilterView(df, dateRange[0], dateRange[1], category);
      && res.Success?
      && res.value.view == view
      && res.value.dailyProfits == DailyProfits(view)
      && res.value.productAnalysis == ProductAnalysis(view)
      && res.value.topProducts == TopProducts(view)
      && res.value.suspiciousOrders == SuspiciousOrders(view)
      && res.value.warning == Warning(SuspiciousOrders(view))
      && res.value.headline == HeadlineMetrics(view)
  {
    var view := FilterView(df, dateRange[0], dateRange[1], category);
    assert CreateDashboard(df, dateRange, category) == Success(Analyse(df, view));
  }

  /** The view holds exactly the rows of the table the sidebar selects. */
  lemma DashboardShowsSelection(df: seq<Record>, dateRange: seq<int>, category: string)
    requires |dateRange| >= 2
    ensures var res := CreateDashboard(df, dateRange, category);
      res.Success? && forall r :: r in res.value.view <==> r in df && Keeps(r, dateRange[0], dateRange[1], category)
  {
    var view := FilterView(df, dateRange[0], dateRange[1], category);
    assert CreateDashboard(df, dateRange, category).value.view == view;
  }

  /** The flagged orders of a view drawn from the table are themselves
      drawn from the table, in order, and are no more than the view. */
  lemma FlaggedAreTableRows(df: seq<Record>, view: seq<Record>)
    requires IsSubsequence(view, df)
    ensures IsSubsequence(SuspiciousOrders(view), df)
    ensures |SuspiciousOrders(view)| <= |view|
  {
    var flagged := SuspiciousOrders(view);
    SubsequenceTransitive(flagged, view, df);
    SubsequenceLength(flagged, view);
  }

  /** A late-night order (hour 1 to 4, as the generator plants them) that
      passes the sidebar filter is always among the flagged orders, so the
      warning is shown. */
  lemma NightOrderInSelectionIsFlagged(df: seq<Record>, dateRange: seq<int>, category: string, r: Record)
    requires |dateRange| >= 2
    requires r in df && Keeps(r, dateRange[0], dateRange[1], category)
    requires 1 <= r.timestamp.hour <= 4
    ensures var res := CreateDashboard(df, dateRange, category);
      res.Success? && r in res.value.suspiciousOrders && res.value.warning.Some?
  {
    var view := FilterByDateInput(df, dateRange, category).value;
    NightOrdersFlagged(view, r);
  }

  /** When no row passes the filter, every table is empty, no warning is
      shown and the metrics read zero. */
  lemma EmptySelectionShowsNothing(df: seq<Record>, dateRange: seq<int>, category: string)
    requires |dateRange| >= 2
    requires forall r :: r in df ==> !Keeps(r, dateRange[0], dateRange[1], category)
    ensures var res := CreateDashboard(df, dateRange, category);
      && res.Success?
      && res.value.view == []
      && res.value.dailyProfits == [] && res.value.productAnalysis == [] && res.value.topProducts == []
      && res.value.suspiciousOrders == [] && res.value.warning.None?
      && res.value.headline == Headline(0.0, 0.0, 0)
  {
    var view := FilterByDateInput(df, dateRange, category).value;
    assert view == [];
    DailyRowCount(view);
    ProductRowCount(view);
  }

  /** With the widget's initial range and `All`, the dashboard describes the
      whole table: every row is in the view, the daily table has a row per
      date of the table, and the metrics are the table's own totals. */
  lemma InitialDashboardCoversTable(df: seq<Record>)
    requires |df| > 0
    ensures var res := CreateDashboard(df, DefaultDateRange(df), AllCategories);
      && res.Success?
      && res.value.view == df
      && |res.value.dailyProfits| == |set r | r in df :: r.timestamp.day|
      && |res.value.productAnalysis| == |set r | r in df :: r.product|
      && res.value.headline == Headline(Total(df, TotalPrice), Total(df, Profit), |df|)
  {
    DefaultFilterKeepsEverything(df);
    DailyRowCount(df);
    ProductRowCount(df);
  }
}
