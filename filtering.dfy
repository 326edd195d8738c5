/** The sidebar filter: a date range compared against each record's
    calendar date, both ends inclusive, and an optional category. */
module Filtering {
  import opened Transactions

  /** The category option that imposes no constraint. */
  const AllCategories: string := "All"

  /** Why the filter could not be applied: the date widget returned fewer
      than the two dates that `date_range[0]` and `date_range[1]` read. */
  datatype FilterError = DateRangeIndexError(datesGiven: nat)

  /** The property a row must have to survive the filter. Only the calendar
      date is compared, never the hour. */
  predicate Keeps(r: Record, from: int, to: int, category: string) {
    from <= r.timestamp.day <= to && (category != AllCategories ==> r.category == category)
  }

  /** The boolean mask: first the two date comparisons, then, unless the
      selection is `All`, the category equality conjoined to it. */
  function FilterMask(df: seq<Record>, from: int, to: int, category: string): (mask: seq<bool>)
    ensures |mask| == |df|
    ensures forall i :: 0 <= i < |df| ==> mask[i] == Keeps(df[i], from, to, category)
  {
    var inRange := seq(|df|, i requires 0 <= i < |df| => from <= df[i].timestamp.day && df[i].timestamp.day <= to);
    if category != AllCategories then
      seq(|df|, i requires 0 <= i < |df| => inRange[i] && df[i].category == category)
    else
      inRange
  }

  /** `filtered_df = df[mask]`. */
  function FilterView(df: seq<Record>, from: int, to: int, category: string): (view: seq<Record>)
    ensures IsSubsequence(view, df)
    ensures |view| == CountTrue(FilterMask(df, from, to, category))
    ensures forall r :: r in view <==> r in df && Keeps(r, from, to, category)
    ensures forall r :: r in view ==> from <= r.timestamp.day <= to
    ensures category != AllCategories ==> forall r :: r in view ==> r.category == category
  {
    var mask := FilterMask(df, from, to, category);
    CompressByPredicate(df, mask, r => Keeps(r, from, to, category));
    Compress(df, mask)
  }

  /** The filter read off the date widget's tuple. Python raises an
      IndexError when the widget holds fewer than two dates. */
  function FilterByDateInput(df: seq<Record>, dateRange: seq<int>, category: string)
    : (res: Result<seq<Record>, FilterError>)
    ensures res.Failure? <==> |dateRange| < 2
    ensures res.Failure? ==> res.error == DateRangeIndexError(|dateRange|)
    ensures res.Success? ==> IsSubsequence(res.value, df)
    ensures res.Success? ==> |res.value| == CountTrue(FilterMask(df, dateRange[0], dateRange[1], category))
    ensures res.Success? ==>
      forall r :: r in res.value <==>
        (r in df && dateRange[0] <= r.timestamp.day <= dateRange[1]
         && (category != AllCategories ==> r.category == category))
  {
    if |dateRange| < 2 then Failure(DateRangeIndexError(|dateRange|))
    else Success(FilterView(df, dateRange[0], dateRange[1], category))
  }

  /** Filtering an already-filtered view with the same parameters changes
      nothing. */
  lemma FilterIdempotent(df: seq<Record>, from: int, to: int, category: string)
    ensures FilterView(FilterView(df, from, to, category), from, to, category)
         == FilterView(df, from, to, category)
  {
    var view := FilterView(df, from, to, category);
    var mask := FilterMask(view, from, to, category);
    forall i | 0 <= i < |view| ensures mask[i] {
      assert view[i] in view;
    }
  }

  /** The mask keeps repeated rows: a row the filter accepts occurs in the
      view as often as in the table, and a rejected row not at all. */
  lemma FilterCounts(df: seq<Record>, from: int, to: int, category: string, r: Record)
    ensures multiset(FilterView(df, from, to, category))[r]
         == if Keeps(r, from, to, category) then multiset(df)[r] else 0
  {
    CompressCount(df, FilterMask(df, from, to, category), x => Keeps(x, from, to, category), r);
  }

  /** A range whose start lies after its end keeps nothing. */
  lemma FilterInvertedRangeIsEmpty(df: seq<Record>, from: int, to: int, category: string)
    requires to < from
    ensures FilterView(df, from, to, category) == []
  {
  }

  /** The earliest calendar date in the table, `df['transaction_date'].min()`. */
  function MinDay(df: seq<Record>): (d: int)
    requires |df| > 0
    ensures exists i :: 0 <= i < |df| && df[i].timestamp.day == d
    ensures forall i :: 0 <= i < |df| ==> d <= df[i].timestamp.day
  {
    if |df| == 1 then df[0].timestamp.day
    else
      var m := MinDay(df[1..]);
      assert forall i :: 1 <= i < |df| ==> df[1..][i - 1] == df[i];
      if df[0].timestamp.day <= m then df[0].timestamp.day else m
  }

  /** The latest calendar date in the table, `df['transaction_date'].max()`. */
  function MaxDay(df: seq<Record>): (d: int)
    requires |df| > 0
    ensures exists i :: 0 <= i < |df| && df[i].timestamp.day == d
    ensures forall i :: 0 <= i < |df| ==> df[i].timestamp.day <= d
  {
    if |df| == 1 then df[0].timestamp.day
    else
      var m := MaxDay(df[1..]);
      assert forall i :: 1 <= i < |df| ==> df[1..][i - 1] == df[i];
      if df[0].timestamp.day >= m then df[0].timestamp.day else m
  }

  /** The value the date widget starts with: the first and last dates of
      the data. */
  function DefaultDateRange(df: seq<Record>): (range: seq<int>)
    requires |df| > 0
    ensures |range| == 2 && range[0] <= range[1]
    ensures forall r :: r in df ==> range[0] <= r.timestamp.day <= range[1]
    ensures exists r :: r in df && r.timestamp.day == range[0]
    ensures exists r :: r in df && r.timestamp.day == range[1]
  {
    var lo, hi := MinDay(df), MaxDay(df);
    var i :| 0 <= i < |df| && df[i].timestamp.day == lo;
    var j :| 0 <= j < |df| && df[j].timestamp.day == hi;
    assert df[i] in df && df[j] in df;
    [lo, hi]
  }

  /** With the widget's default range and `All`, the filter keeps the whole
      table, in order. */
  lemma DefaultFilterKeepsEverything(df: seq<Record>)
    requires |df| > 0
    ensures FilterByDateInput(df, DefaultDateRange(df), AllCategories) == Success(df)
  {
    var range := DefaultDateRange(df);
    var mask := FilterMask(df, range[0], range[1], AllCategories);
    forall i | 0 <= i < |df| ensures mask[i] {
      assert df[i] in df;
    }
  }

  /** The category selectbox options: `All` followed by the categories in
      the order in which they first appear (`Series.unique()`). */
  function CategoryOptions(df: seq<Record>): (options: seq<string>)
    ensures |options| > 0 && options[0] == AllCategories
    ensures forall c :: c in options[1..] <==> exists r :: r in df && r.category == c
    ensures forall i, j :: 1 <= i < j < |options| ==> options[i] != options[j]
    ensures forall i, j :: 1 <= i < j < |options| ==> FirstIndex(df, options[i]) < FirstIndex(df, options[j])
  {
    [AllCategories] + UniqueCategories(df)
  }

  /** The position of the first row of category `c`; `|df|` when there is
      none. */
  function FirstIndex(df: seq<Record>, c: string): (i: nat)
    ensures i <= |df|
    ensures i < |df| ==> df[i].category == c
    ensures forall k :: 0 <= k < i ==> df[k].category != c
  {
    if df == [] then 0
    else if df[0].category == c then 0
    else 1 + FirstIndex(df[1..], c)
  }

  /** `df['category'].unique()`: each category once, in the order of first
      appearance. */
  function UniqueCategories(df: seq<Record>): (cs: seq<string>)
    ensures forall c :: c in cs <==> exists r :: r in df && r.category == c
    ensures forall i, j :: 0 <= i < j < |cs| ==> cs[i] != cs[j]
    ensures forall i, j :: 0 <= i < j < |cs| ==> FirstIndex(df, cs[i]) < FirstIndex(df, cs[j])
  {
    if df == [] then []
    else
      var cs := UniqueCategories(df[..|df| - 1]);
      UniqueCategoriesStep(df, cs);
      UniqueCategoriesOrderStep(df, cs);
      var last := df[|df| - 1].category;
      if last in cs then cs else cs + [last]
  }

  /** One row appended: its category joins the list unless already there. */
  lemma UniqueCategoriesStep(df: seq<Record>, cs: seq<string>)
    requires df != []
    requires forall c :: c in cs <==> exists r :: r in df[..|df| - 1] && r.category == c
    requires forall i, j :: 0 <= i < j < |cs| ==> cs[i] != cs[j]
    ensures var last := df[|df| - 1].category;
      var r := if last in cs then cs else cs + [last];
      && (forall c :: c in r <==> exists row :: row in df && row.category == c)
      && (forall i, j :: 0 <= i < j < |r| ==> r[i] != r[j])
  {
    var prefix := df[..|df| - 1];
    var last := df[|df| - 1].category;
    assert forall row :: row in df <==> row in prefix || row == df[|df| - 1];
    if last !in cs {
      var r := cs + [last];
      forall i, j | 0 <= i < j < |r| ensures r[i] != r[j] {
        assert r[i] == cs[i] && r[i] in cs;
      }
    }
  }

  /** One row appended: an earlier category keeps its first position, and a
      new category is appended with the new row's position. */
  lemma UniqueCategoriesOrderStep(df: seq<Record>, cs: seq<string>)
    requires df != []
    requires forall c :: c in cs <==> exists r :: r in df[..|df| - 1] && r.category == c
    requires forall i, j :: 0 <= i < j < |cs| ==> FirstIndex(df[..|df| - 1], cs[i]) < FirstIndex(df[..|df| - 1], cs[j])
    ensures var last := df[|df| - 1].category;
      var r := if last in cs then cs else cs + [last];
      forall i, j :: 0 <= i < j < |r| ==> FirstIndex(df, r[i]) < FirstIndex(df, r[j])
  {
    var prefix := df[..|df| - 1];
    var last := df[|df| - 1].category;
    forall c | c in cs ensures FirstIndex(df, c) == FirstIndex(prefix, c) < |prefix| {
      var row :| row in prefix && row.category == c;
      var k :| 0 <= k < |prefix| && prefix[k] == row;
      assert df[k] == prefix[k];
      var f, g := FirstIndex(df, c), FirstIndex(prefix, c);
      assert g <= k;
      assert prefix[g] == df[g];
      assert f <= g;
      assert f < |prefix| && prefix[f] == df[f];
    }
    if last !in cs {
      var r := cs + [last];
      forall i | 0 <= i < |cs| ensures FirstIndex(df, cs[i]) < FirstIndex(df, last) {
        assert cs[i] in cs;
        forall k | 0 <= k < |prefix| ensures df[k].category != last {
          assert df[k] == prefix[k] && prefix[k] in prefix;
        }
      }
      forall i, j | 0 <= i < j < |r| ensures FirstIndex(df, r[i]) < FirstIndex(df, r[j]) {
        assert r[i] == cs[i] && r[i] in cs;
        if j < |cs| {
          assert r[j] == cs[j] && r[j] in cs;
        }
      }
    } else {
      forall i, j | 0 <= i < j < |cs| ensures FirstIndex(df, cs[i]) < FirstIndex(df, cs[j]) {
        assert cs[i] in cs && cs[j] in cs;
      }
    }
  }

  /** With the default range, choosing a category other than `All` keeps
      exactly that category's rows; choosing one of the data's categories
      keeps at least one row. */
  lemma DefaultRangeCategorySelection(df: seq<Record>, category: string)
    requires |df| > 0
    requires category != AllCategories
    ensures var res := FilterByDateInput(df, DefaultDateRange(df), category);
            res.Success? && (forall r :: r in res.value <==> r in df && r.category == category)
    ensures category in CategoryOptions(df) ==>
            FilterByDateInput(df, DefaultDateRange(df), category).value != []
  {
    var range := DefaultDateRange(df);
    var view := FilterView(df, range[0], range[1], category);
    if category in CategoryOptions(df) {
      var options := CategoryOptions(df);
      var k :| 0 <= k < |options| && options[k] == category;
      assert options[1..][k - 1] == category;
      var r :| r in df && r.category == category;
      assert r in view;
    }
  }
}
