/** Transaction records as the dashboards hold them once the CSV has been
    loaded, and the column operations every analysis step shares:
    column sums (`df[col].sum()`) and boolean-mask indexing (`df[mask]`). */
module Transactions {

  datatype Option<T> = None | Some(value: T)

  datatype Result<T, E> = Success(value: T) | Failure(error: E)

  /** An hour of the day, as `Series.dt.hour` yields it. */
  type Hour = h: int | 0 <= h < 24

  /** A transaction timestamp, reduced to what the analysis reads: the
      calendar date (a day number, so that later dates are larger) and the
      hour of the day. */
  datatype Timestamp = Timestamp(day: int, hour: Hour)

  /** One row of the transaction table. Columns that no analysis step reads
      (customer, addresses, prices before discount, coupon, payment and
      shipping method) are not represented. */
  datatype Record = Record(
    orderId: string,
    timestamp: Timestamp,
    category: string,
    product: string,
    quantity: int,
    totalPrice: real,
    profit: real,
    cost: real,
    ipAddress: string)

  /** The numeric columns that the dashboards sum or rank. */
  datatype Measure = Quantity | TotalPrice | Profit | Cost

  function Amount(r: Record, m: Measure): real {
    match m
    case Quantity => r.quantity as real
    case TotalPrice => r.totalPrice
    case Profit => r.profit
    case Cost => r.cost
  }

  /** `df[col]` as a list of numbers, one per row. */
  function Column(s: seq<Record>, m: Measure): (c: seq<real>)
    ensures |c| == |s|
    ensures forall i :: 0 <= i < |s| ==> c[i] == Amount(s[i], m)
  {
    seq(|s|, i requires 0 <= i < |s| => Amount(s[i], m))
  }

  /** `df[col].sum()`: an empty table sums to zero. */
  function Total(s: seq<Record>, m: Measure): real {
    if s == [] then 0.0 else Amount(s[0], m) + Total(s[1..], m)
  }

  lemma {:induction false} TotalAppend(s: seq<Record>, t: seq<Record>, m: Measure)
    ensures Total(s + t, m) == Total(s, m) + Total(t, m)
  {
    if s == [] {
      assert s + t == t;
    } else {
      assert (s + t)[1..] == s[1..] + t;
      TotalAppend(s[1..], t, m);
    }
  }

  /** `a` can be obtained from `b` by deleting elements: it keeps the
      relative order of what it retains. */
  ghost predicate IsSubsequence<T>(a: seq<T>, b: seq<T>) {
    a == [] ||
    (b != [] && ((a[0] == b[0] && IsSubsequence(a[1..], b[1..])) || IsSubsequence(a, b[1..])))
  }

  lemma {:induction false} SubsequenceLength<T>(a: seq<T>, b: seq<T>)
    requires IsSubsequence(a, b)
    ensures |a| <= |b|
  {
    if a != [] {
      if a[0] == b[0] && IsSubsequence(a[1..], b[1..]) {
        SubsequenceLength(a[1..], b[1..]);
      } else {
        SubsequenceLength(a, b[1..]);
      }
    }
  }

  lemma {:induction false} SubsequenceTransitive<T>(a: seq<T>, b: seq<T>, c: seq<T>)
    requires IsSubsequence(a, b) && IsSubsequence(b, c)
    ensures IsSubsequence(a, c)
    decreases |c|
  {
    if a != [] {
      assert b != [] && c != [];
      if b[0] == c[0] && IsSubsequence(b[1..], c[1..]) {
        if a[0] == b[0] && IsSubsequence(a[1..], b[1..]) {
          SubsequenceTransitive(a[1..], b[1..], c[1..]);
        } else {
          SubsequenceOfTail(b);
          SubsequenceTransitive(a, b[1..], c[1..]);
        }
      } else {
        SubsequenceTransitive(a, b, c[1..]);
      }
    }
  }

  lemma {:induction false} SubsequenceOfTail<T>(b: seq<T>)
    requires b != []
    ensures IsSubsequence(b[1..], b)
  {
    SubsequenceReflexive(b[1..]);
  }

  lemma {:induction false} SubsequenceReflexive<T>(b: seq<T>)
    ensures IsSubsequence(b, b)
  {
    if b != [] {
      SubsequenceReflexive(b[1..]);
    }
  }

  /** The number of true entries of a mask. */
  function CountTrue(mask: seq<bool>): nat {
    if mask == [] then 0 else (if mask[0] then 1 else 0) + CountTrue(mask[1..])
  }

  /** Boolean-mask indexing `df[mask]`: one row per true mask entry, in
      their original order, duplicates included. The row at a true position
      `i` lands at the number of true entries before `i`, so the result is
      fixed entry by entry. */
  function Compress<T>(s: seq<T>, mask: seq<bool>): (r: seq<T>)
    requires |mask| == |s|
    ensures |r| == CountTrue(mask)
    ensures forall i {:trigger CountTrue(mask[..i])} :: 0 <= i < |s| && mask[i] ==>
      CountTrue(mask[..i]) < |r| && r[CountTrue(mask[..i])] == s[i]
    ensures IsSubsequence(r, s)
    ensures forall k :: 0 <= k < |r| ==> exists i :: 0 <= i < |s| && mask[i] && s[i] == r[k]
    ensures (forall i :: 0 <= i < |s| ==> mask[i]) ==> r == s
  {
    if s == [] then []
    else
      var rest := Compress(s[1..], mask[1..]);
      CompressStep(s, mask, rest);
      CompressStepShape(s, mask, rest);
      if mask[0] then [s[0]] + rest else rest
  }

  /** One step of `Compress`, for the order, the origin of each kept row
      and the all-true mask. */
  lemma CompressStepShape<T>(s: seq<T>, mask: seq<bool>, rest: seq<T>)
    requires |mask| == |s| > 0
    requires IsSubsequence(rest, s[1..])
    requires forall k :: 0 <= k < |rest| ==> exists i :: 0 <= i < |s| - 1 && mask[1..][i] && s[1..][i] == rest[k]
    requires (forall i :: 0 <= i < |s| - 1 ==> mask[1..][i]) ==> rest == s[1..]
    ensures var r := if mask[0] then [s[0]] + rest else rest;
      && IsSubsequence(r, s)
      && (forall k :: 0 <= k < |r| ==> exists i :: 0 <= i < |s| && mask[i] && s[i] == r[k])
      && ((forall i :: 0 <= i < |s| ==> mask[i]) ==> r == s)
  {
    var r := if mask[0] then [s[0]] + rest else rest;
    forall k | 0 <= k < |r| ensures exists i :: 0 <= i < |s| && mask[i] && s[i] == r[k] {
      if mask[0] && k == 0 {
        assert mask[0] && s[0] == r[0];
      } else {
        var k' := if mask[0] then k - 1 else k;
        assert r[k] == rest[k'];
        var i :| 0 <= i < |s| - 1 && mask[1..][i] && s[1..][i] == rest[k'];
        assert mask[i + 1] && s[i + 1] == r[k];
      }
    }
    if forall i :: 0 <= i < |s| ==> mask[i] {
      assert forall i :: 0 <= i < |s| - 1 ==> mask[1..][i] == mask[i + 1];
      assert s == [s[0]] + s[1..];
    }
  }

  /** One step of `Compress`: a row kept from the tail moves one place on
      when the first row is kept too. */
  lemma CompressStep<T>(s: seq<T>, mask: seq<bool>, rest: seq<T>)
    requires |mask| == |s| > 0
    requires |rest| == CountTrue(mask[1..])
    requires forall j {:trigger CountTrue(mask[1..][..j])} :: 0 <= j < |s| - 1 && mask[1..][j] ==>
      CountTrue(mask[1..][..j]) < |rest| && rest[CountTrue(mask[1..][..j])] == s[1..][j]
    ensures var r := if mask[0] then [s[0]] + rest else rest;
      && |r| == CountTrue(mask)
      && forall i {:trigger CountTrue(mask[..i])} :: 0 <= i < |s| && mask[i] ==>
           CountTrue(mask[..i]) < |r| && r[CountTrue(mask[..i])] == s[i]
  {
    var r := if mask[0] then [s[0]] + rest else rest;
    assert mask[..0] == [];
    forall i | 0 <= i < |s| && mask[i] ensures CountTrue(mask[..i]) < |r| && r[CountTrue(mask[..i])] == s[i] {
      if i > 0 {
        assert mask[..i][1..] == mask[1..][..i - 1];
        assert mask[1..][i - 1] && s[1..][i - 1] == s[i];
        assert CountTrue(mask[1..][..i - 1]) < |rest|;
      }
    }
  }

  /** Compressing by a mask that holds exactly where `keep` holds keeps
      every copy of a value `keep` accepts and none of the others. */
  lemma {:induction false} CompressCount<T>(s: seq<T>, mask: seq<bool>, keep: T -> bool, x: T)
    requires |mask| == |s|
    requires forall i :: 0 <= i < |s| ==> mask[i] == keep(s[i])
    ensures multiset(Compress(s, mask))[x] == if keep(x) then multiset(s)[x] else 0
  {
    if s != [] {
      CompressCount(s[1..], mask[1..], keep, x);
      assert s == [s[0]] + s[1..];
    }
  }

  /** Compressing by a mask that holds exactly where `keep` holds: a row
      survives iff `keep` says so. */
  lemma CompressByPredicate<T(!new)>(s: seq<T>, mask: seq<bool>, keep: T -> bool)
    requires |mask| == |s|
    requires forall i :: 0 <= i < |s| ==> mask[i] == keep(s[i])
    ensures forall x :: x in Compress(s, mask) <==> x in s && keep(x)
  {
    var r := Compress(s, mask);
    forall x | x in r
      ensures x in s && keep(x)
    {
      var k :| 0 <= k < |r| && r[k] == x;
      var i :| 0 <= i < |s| && mask[i] && s[i] == r[k];
    }
    forall x | x in s && keep(x)
      ensures x in r
    {
      var i :| 0 <= i < |s| && s[i] == x;
      assert mask[i] && CountTrue(mask[..i]) < |r|;
    }
  }
}
