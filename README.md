# E-commerce analytics dashboard: the analysis core in Dafny

The Streamlit dashboard loads a table of e-commerce transactions and lets
the user pick a date range and a product category. It then shows:

- a daily profit/loss table;
- a popular-products table and its ten best sellers by quantity;
- a list of potentially fraudulent orders, with a warning banner;
- three headline metrics: revenue, profit and order count.

The analysis behind these panels is written twice, almost line for line:
once in `create_dashboard` (dashboard_app.py:28-80) and once in
`create_streamlit_app` (testing.py:136-195). One model covers both copies.

The model is pure: datatypes, functions and lemmas over a sequence of
transaction records. The modules follow the steps of the analysis.

| module | file | what it models |
|---|---|---|
| `Transactions` | transactions.dfy | the record; the summed columns; `Total` (a column's `sum()`); `Compress` (boolean-mask indexing `df[mask]`); order-preserving subsequences |
| `Filtering` | filtering.dfy | the sidebar filter; the date widget's default range; the category options |
| `Grouping` | grouping.dfy | `groupby(key).agg(sum)` for any key type: keys in ascending order, one row per key, per-group sums |
| `DailyAggregation` | daily.dfy | `daily_profits`: grouping by calendar date |
| `ProductAggregation` | products.dfy | `product_analysis`: grouping by product name, then `sort_values('quantity', ascending=False).head(10)` |
| `Quantiles` | quantiles.dfy | `Series.quantile(p)` with pandas' default linear interpolation (definition 7 of Hyndman and Fan, 1996) |
| `FraudDetection` | fraud.dfy | the suspicious-order mask |
| `Metrics` | metrics.dfy | revenue, profit and order count |
| `Dashboard` | dashboard.dfy | one whole rendering, and how its panels agree with each other |

Modelling choices:

- A timestamp is a calendar day (an `int`) and an hour in 0..23. The filter and the daily grouping compare only the day; the fraud mask looks only at the hour.
- Money is `real`. Quantity is an `int`; the grouped tables carry its sum as a `real`.
- The date widget's value is a sequence of days. `date_range[0]` and `date_range[1]` raise an IndexError when it holds fewer than two dates, so the filter and `CreateDashboard` then return `Failure(DateRangeIndexError(n))`.
- pandas returns NaN as the quantile of an empty column, and `x > NaN` is false. The model returns `None` there, and `Above(x, None)` is false.
- `groupby` emits its keys in ascending order. Product names are ordered as Python orders strings (`StrLess`: lexicographic by code point).

## Model

| member | source | states |
|---|---|---|
| Transactions.TotalAppend | dashboard_app.py:76-78 | the column sum of two concatenated tables is the sum of their column sums |
| Transactions.Compress | dashboard_app.py:31 | `df[mask]` has one row per true mask entry, duplicates included: the row at a true position i is the result's entry number (true entries before i); the result is an order-preserving subsequence of the table, every entry comes from a true position, and an all-true mask keeps the whole table |
| Transactions.CompressCount | dashboard_app.py:31 | when the mask is a predicate evaluated row by row, `df[mask]` holds every copy of each value satisfying it and no copy of any other value |
| Transactions.CompressByPredicate | dashboard_app.py:31 | when the mask is a predicate evaluated row by row, a value is in `df[mask]` exactly when it is a row of `df` satisfying the predicate |
| Filtering.FilterMask | dashboard_app.py:28-30 | entry i of the mask is true exactly when row i's calendar date lies within the range, both ends inclusive, and, unless the choice is `All`, its category equals the chosen one |
| Filtering.FilterView | dashboard_app.py:28-31 | the filtered view is an order-preserving subsequence of the table with one row per true mask entry; a row is in it exactly when its date is in range and it matches the chosen category; `All` imposes no category constraint |
| Filtering.FilterByDateInput | testing.py:136-139 | fails, with the number of dates given, exactly when the widget holds fewer than two dates; otherwise it is an order-preserving subsequence of the table with one row per true mask entry, holding exactly the rows dated within `date_range[0]..date_range[1]` of the chosen category |
| Filtering.FilterCounts | dashboard_app.py:28-31 | for every table, a row that passes the filter occurs in the view exactly as many times as in the table, and a row that does not pass occurs zero times |
| Filtering.FilterIdempotent | dashboard_app.py:28-31 | filtering an already filtered view with the same range and category returns it unchanged |
| Filtering.FilterInvertedRangeIsEmpty | dashboard_app.py:28 | a range whose start is after its end keeps nothing |
| Filtering.MinDay | dashboard_app.py:20 | `transaction_date.min()`: a date of the table that no row precedes |
| Filtering.MaxDay | dashboard_app.py:20 | `transaction_date.max()`: a date of the table that no row follows |
| Filtering.DefaultDateRange | dashboard_app.py:18-23 | the widget's initial value is the table's earliest and latest dates: two ordered dates that enclose every row, each the date of some row |
| Filtering.DefaultFilterKeepsEverything | testing.py:124-139 | with the initial range and `All`, the filter returns the whole table, in order |
| Filtering.FirstIndex | dashboard_app.py:25 | the position of the first row of a category: that row has the category and no earlier row does; the table's length when no row has it |
| Filtering.UniqueCategories | dashboard_app.py:25 | `category.unique()`: every category of the table exactly once, nothing else, in the order of first appearance |
| Filtering.CategoryOptions | dashboard_app.py:25 | the selectbox offers `All` first, then each category of the table once, in the order of first appearance |
| Filtering.DefaultRangeCategorySelection | testing.py:132-139 | with the initial range, choosing a category keeps exactly that category's rows, and choosing one of the offered categories keeps at least one row |
| Grouping.Keys | dashboard_app.py:45 | the group keys are exactly the keys that occur in the view |
| Grouping.KeysIncreasing | dashboard_app.py:45 | the group keys are strictly ascending under the key order |
| Grouping.KeyMask | dashboard_app.py:45 | entry i of the mask is true exactly when row i carries the key |
| Grouping.Where | dashboard_app.py:45 | a group is the order-preserving subsequence of the rows carrying its key, one entry per such row |
| Grouping.GroupBy | dashboard_app.py:45-49 | one aggregate row per key in the view; each row's sums are the column totals of that key's group |
| Grouping.GroupByShape | dashboard_app.py:45-49 | the rows' keys are strictly ascending; every record's key has a row; no row has an empty group |
| Grouping.GroupByConserves | dashboard_app.py:34-38 | for every aggregated column, the per-group sums add up to the total over the view |
| Grouping.GroupCount | dashboard_app.py:45 | the table has as many rows as the view has distinct keys |
| DailyAggregation.OnDay | dashboard_app.py:34 | the rows of one date are an order-preserving subsequence of the view with one entry per record dated that day, and they hold exactly those records |
| DailyAggregation.DailyProfits | dashboard_app.py:34-38 | `daily_profits` has dates strictly ascending, a row for every date in the view and none for a date without records; its columns are the sums of profit, total price and cost of that date's records |
| DailyAggregation.DailyTotalsConserved | testing.py:143-147 | the daily sums of profit, total price and cost add up to the view's totals |
| DailyAggregation.DailyRowCount | testing.py:143 | there is exactly one row per distinct date of the view |
| ProductAggregation.StrLessIsStrictTotalOrder | dashboard_app.py:45 | Python's string order, in which `groupby` emits product names, is irreflexive, transitive and total |
| ProductAggregation.OfProduct | dashboard_app.py:45 | the rows of one product are an order-preserving subsequence of the view with one entry per record of that name, and they hold exactly those records |
| ProductAggregation.ProductAnalysis | dashboard_app.py:45-49 | `product_analysis` has product names ascending and distinct, a row for every product in the view and none for a product without records; its columns are the sums of quantity, profit and total price of that product's records |
| ProductAggregation.ProductTotalsConserved | testing.py:155-159 | the per-product sums of quantity, profit and total price add up to the view's totals |
| ProductAggregation.ProductRowCount | testing.py:155 | there is exactly one row per distinct product name of the view |
| ProductAggregation.InsertByQuantity | dashboard_app.py:51 | inserting a row into a list ordered by decreasing quantity keeps that order and yields the list's rows plus the new one, as a multiset |
| ProductAggregation.InsertKeepsKeysDistinct | dashboard_app.py:51 | inserting a row with a new product name keeps the names distinct |
| ProductAggregation.SortByQuantity | dashboard_app.py:51 | `sort_values('quantity', ascending=False)` returns a permutation of the table whose quantities never increase |
| ProductAggregation.SortKeepsKeysDistinct | dashboard_app.py:51 | sorting keeps the product names distinct |
| ProductAggregation.HeadDominates | dashboard_app.py:51 | in a list ordered by decreasing quantity, no row after the first n has a larger quantity than any of them |
| ProductAggregation.HeadKeepsOrder | dashboard_app.py:51 | the first n rows of a list ordered by decreasing quantity with distinct names are still so ordered, still have distinct names, and are rows of the list |
| ProductAggregation.HeadByQuantity | dashboard_app.py:51 | `.head(10)` of the sorted table holds min(10, rows) distinct rows of the table, quantities never increasing, and no row left out sells more than a row kept |
| ProductAggregation.TopProducts | testing.py:161 | the top-products chart shows min(10, number of distinct products) rows of `product_analysis`, quantities non-increasing, distinct names, and no omitted product outsells a shown one, whatever order pandas gives to ties |
| Quantiles.InsertAscending | dashboard_app.py:58 | inserting into an ascending list keeps it ascending and adds exactly that value |
| Quantiles.SortAscending | dashboard_app.py:58 | the sorted column is ascending and a permutation of the column |
| Quantiles.Interpolate | dashboard_app.py:58 | the interpolated value at virtual index h lies between the order statistics at floor(h) and floor(h)+1 |
| Quantiles.VirtualIndex | dashboard_app.py:58 | the virtual index (n-1)·p lies between 0 and n-1 |
| Quantiles.VirtualIndexMonotone | dashboard_app.py:58 | the virtual index never decreases as p grows |
| Quantiles.SortedQuantile | dashboard_app.py:58 | the quantile of an ascending list lies between the order statistics at floor((n-1)p) and the next one, and equals the last element when there is no next one; so it lies between the first and last elements |
| Quantiles.Quantile | dashboard_app.py:58 | `quantile(p)` is undefined (NaN) exactly for an empty column; otherwise it lies between the order statistics of the sorted column at floor((n-1)p) and the next one, and between some value of the column and some other value |
| Quantiles.QuantileOfOneToTen | dashboard_app.py:58 | on the values 1 to 10 the 0.95 quantile is 9.55, pandas' linear interpolation between the ninth and tenth values |
| Quantiles.QuantileOfConstantColumn | dashboard_app.py:60 | every quantile of a column whose values are all equal is that value |
| Quantiles.InterpolateMonotone | dashboard_app.py:58 | interpolation never decreases as the virtual index grows |
| Quantiles.SortedQuantileMonotone | dashboard_app.py:58 | on an ascending list a higher level never gives a lower quantile |
| Quantiles.QuantileMonotone | dashboard_app.py:58 | a higher level never gives a lower quantile |
| FraudDetection.Threshold | dashboard_app.py:58 | the outlier threshold is taken over the filtered view; it is absent exactly when the view is empty, and otherwise lies between the order statistics of the view's sorted column at floor((n-1)p) and the next one, and between two of the view's values |
| FraudDetection.SuspiciousMask | dashboard_app.py:58-60 | entry i is the `or` of the three signals for row i, with both thresholds taken over the whole view |
| FraudDetection.SuspiciousOrdersAt | dashboard_app.py:57-61 | the flagged orders are an order-preserving subsequence of the view with one entry per row for which some signal fires, and they hold exactly those rows |
| FraudDetection.SuspiciousOrders | testing.py:170-174 | a row of the view is flagged exactly when its total price is strictly above the view's 0.95 quantile of total price, or its hour is in 1..4 inclusive, or its quantity is strictly above the view's 0.95 quantile of quantity; the flagged rows keep the view's order, one entry per flagged row of the view |
| FraudDetection.NightOrdersFlagged | testing.py:172 | every order placed in hours 1 to 4 is flagged, whatever its price and quantity |
| FraudDetection.EmptyViewFlagsNothing | dashboard_app.py:57-63 | an empty view flags nothing |
| FraudDetection.SmallDaytimeOrderNotFlagged | dashboard_app.py:58-60 | an order outside hours 1 to 4 with the view's smallest price and smallest quantity is never flagged |
| FraudDetection.ConstantColumnHasNoOutliers | dashboard_app.py:58 | when a column has one value throughout the view (a one-row view, for one), that column's signal flags nothing |
| FraudDetection.UniformViewFlagsOnlyNightOrders | dashboard_app.py:57-61 | when price and quantity are each constant over the view, exactly the orders of hours 1 to 4 are flagged |
| FraudDetection.HigherLevelFlagsFewer | dashboard_app.py:58-60 | raising the quantile level never flags an order that a lower level does not |
| Metrics.HeadlineMetrics | dashboard_app.py:76-80 | the order count is the view's length; revenue and profit equal the sums of the matching columns of both the daily table and the product table; an empty view shows 0, 0 and 0 |
| Metrics.HeadlineAdditive | testing.py:191-195 | revenue, profit and order count of a view split in two are the sums of those of the parts |
| Dashboard.Warning | dashboard_app.py:63-64 | the warning is shown exactly when some order is flagged, and it gives their number |
| Dashboard.FlaggedAreTableRows | dashboard_app.py:57-61 | the orders flagged in a filtered view are an order-preserving subsequence of the table and no more numerous than the view |
| Dashboard.Analyse | dashboard_app.py:33-80 | the panels are the view's daily table, product table, top ten, flagged orders, warning and metrics; and they agree with each other: the flagged orders come from the view and the table, the warning counts them, the top products are rows of the product table, and the headline sums equal the daily and product sums |
| Dashboard.CreateDashboard | dashboard_app.py:28-80 | a rendering fails exactly when the date widget holds fewer than two dates; otherwise its panels agree as `Analyse` states |
| Dashboard.DashboardPanelsOfSelection | dashboard_app.py:28-80 | with two dates given, the rendering succeeds, its view is the filtered table, and each panel is the result of its analysis step on that view |
| Dashboard.DashboardShowsSelection | testing.py:136-139 | the rendered view holds exactly the rows of the table that the sidebar selects |
| Dashboard.NightOrderInSelectionIsFlagged | testing.py:170-177 | a late-night order that passes the filter, like those planted by the generator at testing.py:73, is flagged, and the warning is shown |
| Dashboard.EmptySelectionShowsNothing | testing.py:170-195 | when no row passes the filter, every table is empty, nothing is flagged, no warning is shown and the metrics read 0, 0 and 0 |
| Dashboard.InitialDashboardCoversTable | testing.py:124-195 | with the initial date range and `All`, the view is the whole table; there is one daily row per date and one product row per product; the metrics are the table's totals |

## Left out

- Streamlit rendering calls: the title, the section headers, the Plotly charts and the table of flagged orders (dashboard_app.py:13, 16, 33, 40-42, 44, 51-54, 56, 65-72, 82-87; testing.py:113, 121, 142, 149-151, 154, 161-164, 167, 178-186). These are presentation only; the model keeps the data each of them is given.
- The metric cards (`st.columns`, `st.metric`, dashboard_app.py:74-80, testing.py:189-195) display revenue and profit rounded to cents with `:,.2f`; `Metrics.HeadlineMetrics` keeps the exact sums, and the rounding for display is not modelled.
- What the user does with the sidebar widgets (dashboard_app.py:18-26, testing.py:124-133). The date widget's initial value and the selectbox's options are modelled (`Filtering.DefaultDateRange`, `Filtering.CategoryOptions`). The user's choice enters the model as the parameters `dateRange` and `category`. The widget's `min_value`/`max_value` bounds on the dates are not modelled, so the model admits any dates.
- The file uploader and CSV loading with `pd.to_datetime` (dashboard_app.py:5-9, testing.py:100-109, 116-118). These are library I/O.
- Synthetic data generation (testing.py:43-98, data_generation.py). It is random and not part of the analysis. Only the hour its suspicious orders get (testing.py:73) is used, as a hypothesis of `Dashboard.NightOrderInSelectionIsFlagged`.
- Floating-point prices and pandas NaN: money is an exact `real`, and the NaN quantile of an empty column is `None`.
- Minutes and seconds of a timestamp: the analysis reads only its date and its hour.
- `Filtering.DefaultDateRange`: requires a non-empty table. On an empty table the widget's default is built from NaT values, and that path is not modelled.
- `ProductAggregation.SortByQuantity`: pandas' default sort is not stable, so the order of products with equal quantity is not fixed by the code. The model puts them in one particular order, and `ProductAggregation.TopProducts` states only what holds for every tie order.
- `ProductAggregation.QuantityOf`: a row's quantity sum is a `real`, where pandas keeps an integer column.
- `FraudDetection.SuspiciousOrdersAt`: the quantile level is a parameter so that `FraudDetection.HigherLevelFlagsFewer` can compare levels; the dashboard always uses 0.95.
- The tables' display columns and `reset_index()`: the model keeps each aggregate row as its key and its sums.
- The code has no error for an inverted range: it returns an empty view (`Filtering.FilterInvertedRangeIsEmpty`). The flagged orders are neither deduplicated nor sorted by price; they keep the view's order and repeated rows. Ties in the quantity sort are not broken stably (`ProductAggregation.SortByQuantity`). The night hours 1 to 4 are fixed in the code, not configurable. The model follows the code in each of these.
- Customer rollups, IP-frequency flags, week or month buckets, price, payment and shipping filters, and ratios against the unfiltered table: no code in dashboard_app.py or testing.py implements them.
- `save_dataframe`, `load_cached_data`, `create_time_comparison`, `plot_category_distribution` and `create_customer_insights` are imported by tests/test_dashboard_app.py but defined in no source file, so they are not part of this model.
