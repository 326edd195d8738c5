/** The fraud heuristic: a record of the filtered view is suspicious when
    its total price is above the view's 0.95 quantile of total price, when
    it was placed between 01:00 and 04:59 (hour 1 to 4 inclusive), or when
    its quantity is above the view's 0.95 quantile of quantity. */
module FraudDetection {
  import opened Transactions
  import opened Quantiles

  /** The quantile level both outlier signals use. */
  const OutlierLevel: real := 0.95

  /** `dt.hour.between(1, 4)`: both bounds inclusive. */
  const NightFirstHour: int := 1
  const NightLastHour: int := 4

  /** The outlier threshold of a column over the view itself (not over the
      whole table); `None` when the view is empty. */
  function Threshold(view: seq<Record>, m: Measure, level: real): (q: Option<real>)
    requires 0.0 <= level <= 1.0
    ensures q.None? <==> view == []
    ensures q.Some? ==>
      var s := SortAscending(Column(view, m));
      var lo := VirtualIndex(|view|, level).Floor;
      && 0 <= lo < |s| && s[lo] <= q.value
      && (lo + 1 < |s| ==> q.value <= s[lo + 1])
    ensures q.Some? ==>
      && (exists r :: r in view && Amount(r, m) <= q.value)
      && (exists r :: r in view && q.value <= Amount(r, m))
  {
    var q := Quantile(Column(view, m), level);
    if q.Some? then
      var i :| 0 <= i < |view| && Column(view, m)[i] <= q.value;
      var j :| 0 <= j < |view| && q.value <= Column(view, m)[j];
      assert view[i] in view && view[j] in view;
      q
    else q
  }

  /** `x > threshold`; every comparison with NaN, the quantile of an empty
      column, is false. */
  predicate Above(x: real, threshold: Option<real>) {
    threshold.Some? && x > threshold.value
  }

  predicate IsNightOrder(r: Record) {
    NightFirstHour <= r.timestamp.hour <= NightLastHour
  }

  /** The three signals, combined with `or`. */
  predicate IsSuspicious(r: Record, priceThreshold: Option<real>, quantityThreshold: Option<real>) {
    || Above(r.totalPrice, priceThreshold)
    || IsNightOrder(r)
    || Above(r.quantity as real, quantityThreshold)
  }

  /** The mask: each signal evaluated over the whole view, then or-ed. */
  function SuspiciousMask(view: seq<Record>, level: real): (mask: seq<bool>)
    requires 0.0 <= level <= 1.0
    ensures |mask| == |view|
    ensures forall i :: 0 <= i < |view| ==>
      mask[i] == IsSuspicious(view[i], Threshold(view, TotalPrice, level), Threshold(view, Quantity, level))
  {
    var priceQ := Threshold(view, TotalPrice, level);
    var quantityQ := Threshold(view, Quantity, level);
    var highValue := seq(|view|, i requires 0 <= i < |view| => Above(view[i].totalPrice, priceQ));
    var night := seq(|view|, i requires 0 <= i < |view| => IsNightOrder(view[i]));
    var highQuantity := seq(|view|, i requires 0 <= i < |view| => Above(view[i].quantity as real, quantityQ));
    seq(|view|, i requires 0 <= i < |view| => highValue[i] || night[i] || highQuantity[i])
  }

  /** The suspicious orders at a given quantile level. */
  function SuspiciousOrdersAt(view: seq<Record>, level: real): (flagged: seq<Record>)
    requires 0.0 <= level <= 1.0
    ensures IsSubsequence(flagged, view)
    ensures |flagged| == CountTrue(SuspiciousMask(view, level))
    ensures forall r :: r in flagged <==>
      r in view && IsSuspicious(r, Threshold(view, TotalPrice, level), Threshold(view, Quantity, level))
  {
    var priceQ := Threshold(view, TotalPrice, level);
    var quantityQ := Threshold(view, Quantity, level);
    var mask := SuspiciousMask(view, level);
    CompressByPredicate(view, mask, r => IsSuspicious(r, priceQ, quantityQ));
    Compress(view, mask)
  }

  /** `suspicious_orders`. */
  function SuspiciousOrders(view: seq<Record>): (flagged: seq<Record>)
    ensures IsSubsequence(flagged, view)
    ensures |flagged| == CountTrue(SuspiciousMask(view, OutlierLevel))
    ensures forall r :: r in flagged <==>
      r in view
      && (|| (exists q :: Threshold(view, TotalPrice, OutlierLevel) == Some(q) && r.totalPrice > q)
          || 1 <= r.timestamp.hour <= 4
          || (exists q :: Threshold(view, Quantity, OutlierLevel) == Some(q) && r.quantity as real > q))
  {
    SuspiciousOrdersAt(view, OutlierLevel)
  }

  /** Every order placed in hours 1 to 4 is flagged, whatever its price and
      quantity. */
  lemma NightOrdersFlagged(view: seq<Record>, r: Record)
    requires r in view && 1 <= r.timestamp.hour <= 4
    ensures r in SuspiciousOrders(view)
  {
  }

  /** An empty view flags nothing, so no warning is shown. */
  lemma EmptyViewFlagsNothing()
    ensures SuspiciousOrders([]) == []
  {
  }

  /** A record whose price and quantity are the smallest of the view, placed
      outside hours 1 to 4, is never flagged: a quantile is never below the
      column's minimum. */
  lemma SmallDaytimeOrderNotFlagged(view: seq<Record>, r: Record)
    requires r in view && !(1 <= r.timestamp.hour <= 4)
    requires forall s :: s in view ==> r.totalPrice <= s.totalPrice && r.quantity <= s.quantity
    ensures r !in SuspiciousOrders(view)
  {
    var priceQ := Threshold(view, TotalPrice, OutlierLevel);
    var quantityQ := Threshold(view, Quantity, OutlierLevel);
    var a :| a in view && Amount(a, TotalPrice) <= priceQ.value;
    var b :| b in view && Amount(b, Quantity) <= quantityQ.value;
    assert r.totalPrice <= a.totalPrice;
    assert r.quantity as real <= b.quantity as real;
    assert !IsSuspicious(r, priceQ, quantityQ);
    assert SuspiciousOrders(view) == SuspiciousOrdersAt(view, OutlierLevel);
  }

  /** A column whose values are all equal has no outlier at any level: its
      threshold is that common value, and nothing is strictly above it. */
  lemma ConstantColumnHasNoOutliers(view: seq<Record>, m: Measure, level: real)
    requires 0.0 <= level <= 1.0
    requires forall r, s :: r in view && s in view ==> Amount(r, m) == Amount(s, m)
    ensures forall r :: r in view ==> !Above(Amount(r, m), Threshold(view, m, level))
  {
    if view != [] {
      var q := Threshold(view, m, level);
      var a :| a in view && q.value <= Amount(a, m);
      forall r | r in view ensures !Above(Amount(r, m), q) {
        assert Amount(r, m) == Amount(a, m);
      }
    }
  }

  /** When every record of the view has the same total price and the same
      quantity (a single-record view, for one), neither outlier signal fires:
      exactly the orders of hours 1 to 4 are flagged. */
  lemma UniformViewFlagsOnlyNightOrders(view: seq<Record>)
    requires forall r, s :: r in view && s in view ==> r.totalPrice == s.totalPrice && r.quantity == s.quantity
    ensures forall r :: r in SuspiciousOrders(view) <==> r in view && 1 <= r.timestamp.hour <= 4
  {
    if view != [] {
      var priceQ := Threshold(view, TotalPrice, OutlierLevel);
      var quantityQ := Threshold(view, Quantity, OutlierLevel);
      var a :| a in view && priceQ.value <= Amount(a, TotalPrice);
      var b :| b in view && quantityQ.value <= Amount(b, Quantity);
      forall r | r in view ensures !Above(r.totalPrice, priceQ) && !Above(r.quantity as real, quantityQ) {
        assert r.quantity as real == b.quantity as real;
      }
    }
  }

  /** Raising the quantile level never flags more orders. */
  lemma HigherLevelFlagsFewer(view: seq<Record>, level1: real, level2: real)
    requires 0.0 <= level1 <= level2 <= 1.0
    ensures forall r :: r in SuspiciousOrdersAt(view, level2) ==> r in SuspiciousOrdersAt(view, level1)
  {
    if view != [] {
      QuantileMonotone(Column(view, TotalPrice), level1, level2);
      QuantileMonotone(Column(view, Quantity), level1, level2);
    }
  }
}
