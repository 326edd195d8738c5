/** `Series.quantile(p)` with pandas' default method: sort the column and
    interpolate linearly between the two order statistics around the
    virtual index (n - 1) * p (definition 7 of Hyndman and Fan, 1996). */
module Quantiles {
  import opened Transactions

  ghost predicate Ascending(s: seq<real>) {
    forall i, j :: 0 <= i < j < |s| ==> s[i] <= s[j]
  }

  function InsertAscending(x: real, s: seq<real>): (r: seq<real>)
    requires Ascending(s)
    ensures Ascending(r)
    ensures |r| == |s| + 1 && multiset(r) == multiset(s) + multiset{x}
  {
    if s == [] then [x]
    else if x <= s[0] then [x] + s
    else
      var tail := InsertAscending(x, s[1..]);
      InsertAscendingStep(x, s, tail);
      [s[0]] + tail
  }

  /** The recursive case of `InsertAscending`: the head stays in front of
      the tail with `x` inserted. */
  lemma InsertAscendingStep(x: real, s: seq<real>, tail: seq<real>)
    requires s != [] && Ascending(s) && s[0] < x
    requires Ascending(tail) && |tail| == |s| && multiset(tail) == multiset(s[1..]) + multiset{x}
    ensures Ascending([s[0]] + tail)
    ensures multiset([s[0]] + tail) == multiset(s) + multiset{x}
  {
    assert s == [s[0]] + s[1..];
    LowerBoundOfInsert(s[0], x, s[1..], tail);
    var r := [s[0]] + tail;
    forall i, j | 0 <= i < j < |r| ensures r[i] <= r[j] {
      assert r[j] == tail[j - 1];
      if i > 0 {
        assert r[i] == tail[i - 1];
      }
    }
  }

  /** A lower bound of `t` and of `x` bounds every permutation of `t`
      with `x` added. */
  lemma LowerBoundOfInsert(y: real, x: real, t: seq<real>, r: seq<real>)
    requires multiset(r) == multiset(t) + multiset{x}
    requires y <= x && forall k :: 0 <= k < |t| ==> y <= t[k]
    ensures forall k :: 0 <= k < |r| ==> y <= r[k]
  {
    forall k | 0 <= k < |r| ensures y <= r[k] {
      assert r[k] in multiset(r);
      if r[k] != x {
        assert r[k] in multiset(t);
        var j :| 0 <= j < |t| && t[j] == r[k];
      }
    }
  }

  /** The column in ascending order. */
  function SortAscending(xs: seq<real>): (s: seq<real>)
    ensures Ascending(s)
    ensures |s| == |xs| && multiset(s) == multiset(xs)
  {
    if xs == [] then []
    else
      assert xs == xs[..|xs| - 1] + [xs[|xs| - 1]];
      InsertAscending(xs[|xs| - 1], SortAscending(xs[..|xs| - 1]))
  }

  /** The interpolated value at virtual index `h` of an ascending list: it
      lies between the order statistics at the floor of `h` and the next. */
  function Interpolate(s: seq<real>, h: real): (v: real)
    requires Ascending(s) && 0.0 <= h <= (|s| - 1) as real
    ensures 0 <= h.Floor < |s|
    ensures s[h.Floor] <= v
    ensures h.Floor + 1 < |s| ==> v <= s[h.Floor + 1]
    ensures h.Floor + 1 == |s| ==> v == s[h.Floor]
  {
    var lo := h.Floor;
    var t := h - lo as real;
    if lo + 1 < |s| then
      var d := s[lo + 1] - s[lo];
      assert 0.0 <= t * d <= d by { Between(t, d); }
      s[lo] + t * d
    else
      s[lo]
  }

  lemma Between(t: real, d: real)
    requires 0.0 <= t < 1.0 && 0.0 <= d
    ensures 0.0 <= t * d <= d
  {
    assert d - t * d == (1.0 - t) * d;
  }

  /** Where the p-quantile sits among n order statistics, counting from 0. */
  function VirtualIndex(n: nat, p: real): (h: real)
    requires n > 0 && 0.0 <= p <= 1.0
    ensures 0.0 <= h <= (n - 1) as real
  {
    var m := (n - 1) as real;
    assert m - m * p == m * (1.0 - p);
    m * p
  }

  lemma VirtualIndexMonotone(n: nat, p1: real, p2: real)
    requires n > 0 && 0.0 <= p1 <= p2 <= 1.0
    ensures VirtualIndex(n, p1) <= VirtualIndex(n, p2)
  {
    var m := (n - 1) as real;
    assert m * p2 - m * p1 == m * (p2 - p1);
    NonNegativeProduct(m, p2 - p1);
  }

  lemma NonNegativeProduct(a: real, b: real)
    requires 0.0 <= a && 0.0 <= b
    ensures 0.0 <= a * b
  {
  }

  /** The p-quantile of an ascending, non-empty list: it lies between the
      order statistics around the virtual index, and between the first and
      last elements. */
  function SortedQuantile(s: seq<real>, p: real): (v: real)
    requires Ascending(s) && |s| > 0 && 0.0 <= p <= 1.0
    ensures var lo := VirtualIndex(|s|, p).Floor;
      && 0 <= lo < |s| && s[lo] <= v
      && (lo + 1 < |s| ==> v <= s[lo + 1])
      && (lo + 1 == |s| ==> v == s[lo])
    ensures s[0] <= v <= s[|s| - 1]
  {
    Interpolate(s, VirtualIndex(|s|, p))
  }

  /** The p-quantile of a column; `None` stands for the NaN pandas returns
      for an empty column. The result lies between the column's smallest
      and largest values. */
  function Quantile(xs: seq<real>, p: real): (q: Option<real>)
    requires 0.0 <= p <= 1.0
    ensures q.None? <==> xs == []
    ensures q.Some? ==>
      var s := SortAscending(xs);
      var lo := VirtualIndex(|xs|, p).Floor;
      && 0 <= lo < |s| && s[lo] <= q.value
      && (lo + 1 < |s| ==> q.value <= s[lo + 1])
    ensures q.Some? ==>
      && (exists i :: 0 <= i < |xs| && xs[i] <= q.value)
      && (exists j :: 0 <= j < |xs| && q.value <= xs[j])
  {
    if xs == [] then None
    else
      var s := SortAscending(xs);
      var v := SortedQuantile(s, p);
      SortedEndsAreValues(xs);
      var i :| 0 <= i < |xs| && xs[i] == s[0];
      var j :| 0 <= j < |xs| && xs[j] == s[|s| - 1];
      Some(v)
  }

  /** The smallest and the largest element of the sorted column are values
      of the column. */
  lemma SortedEndsAreValues(xs: seq<real>)
    requires xs != []
    ensures var s := SortAscending(xs);
      && (exists i :: 0 <= i < |xs| && xs[i] == s[0])
      && (exists j :: 0 <= j < |xs| && xs[j] == s[|s| - 1])
  {
    var s := SortAscending(xs);
    assert s[0] in multiset(s) && s[|s| - 1] in multiset(s);
    assert s[0] in xs && s[|s| - 1] in xs;
  }

  /** A column whose values are all equal has that value as every quantile. */
  lemma QuantileOfConstantColumn(xs: seq<real>, c: real, p: real)
    requires 0.0 <= p <= 1.0 && xs != []
    requires forall i :: 0 <= i < |xs| ==> xs[i] == c
    ensures Quantile(xs, p) == Some(c)
  {
    var v := QuantileValue(xs, p);
    var i :| 0 <= i < |xs| && xs[i] <= v;
    var j :| 0 <= j < |xs| && v <= xs[j];
    assert xs[i] == c && xs[j] == c;
  }

  /** The quantile of a non-empty column is defined and lies between two of
      its values. */
  lemma QuantileValue(xs: seq<real>, p: real) returns (v: real)
    requires 0.0 <= p <= 1.0 && xs != []
    ensures Quantile(xs, p) == Some(v)
    ensures exists i :: 0 <= i < |xs| && xs[i] <= v
    ensures exists j :: 0 <= j < |xs| && v <= xs[j]
  {
    v := Quantile(xs, p).value;
  }

  /** Interpolation never decreases as the virtual index grows. */
  lemma InterpolateMonotone(s: seq<real>, h1: real, h2: real)
    requires Ascending(s) && 0.0 <= h1 <= h2 <= (|s| - 1) as real
    ensures Interpolate(s, h1) <= Interpolate(s, h2)
  {
    var lo1, lo2 := h1.Floor, h2.Floor;
    if lo1 == lo2 {
      if lo1 + 1 < |s| {
        var d := s[lo1 + 1] - s[lo1];
        assert 0.0 <= d;
        assert (h2 - lo2 as real) * d - (h1 - lo1 as real) * d == (h2 - h1) * d;
        NonNegativeProduct(h2 - h1, d);
      }
    } else {
      assert lo1 + 1 <= lo2;
      assert s[lo1 + 1] <= s[lo2];
    }
  }

  /** A higher level never gives a lower quantile. */
  lemma QuantileMonotone(xs: seq<real>, p1: real, p2: real)
    requires 0.0 <= p1 <= p2 <= 1.0 && xs != []
    ensures Quantile(xs, p1).value <= Quantile(xs, p2).value
  {
    var s := SortAscending(xs);
    SortedQuantileMonotone(s, p1, p2);
    assert Quantile(xs, p1) == Some(SortedQuantile(s, p1));
    assert Quantile(xs, p2) == Some(SortedQuantile(s, p2));
  }

  lemma SortedQuantileMonotone(s: seq<real>, p1: real, p2: real)
    requires Ascending(s) && |s| > 0 && 0.0 <= p1 <= p2 <= 1.0
    ensures SortedQuantile(s, p1) <= SortedQuantile(s, p2)
  {
    VirtualIndexMonotone(|s|, p1, p2);
    InterpolateMonotone(s, VirtualIndex(|s|, p1), VirtualIndex(|s|, p2));
  }

  /** A worked case: the 0.95 quantile of 1, 2, ..., 10 has virtual index
      8.55, so it lies 0.55 of the way from 9 to 10. */
  lemma QuantileOfOneToTen()
    ensures SortedQuantile([1.0, 2.0, 3.0, 4.0, 5.0, 6.0, 7.0, 8.0, 9.0, 10.0], 0.95) == 9.55
  {
    var s := [1.0, 2.0, 3.0, 4.0, 5.0, 6.0, 7.0, 8.0, 9.0, 10.0];
    assert VirtualIndex(10, 0.95) == 8.55;
    assert (8.55).Floor == 8;
    assert Interpolate(s, 8.55) == 9.0 + 0.55 * (10.0 - 9.0);
  }
}
