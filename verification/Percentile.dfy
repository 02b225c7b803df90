/** The interpolated percentile, over the reals. */
module Percentile {
  import Sorting

  function AtMost(x: real, y: real): bool { x <= y }

  function Order(values: seq<real>): seq<real> {
    Sorting.Sort(values, AtMost)
  }

  ghost predicate Ascending(a: seq<real>) {
    forall i, j :: 0 <= i <= j < |a| ==> a[i] <= a[j]
  }

  function Blend(u: real, v: real, f: real): real {
    u * (1.0 - f) + v * f
  }

  /** The value at a fractional index, on the line between the neighbouring order statistics. */
  function Interpolate(a: seq<real>, x: real): real
    requires a != [] && 0.0 <= x <= (|a| - 1) as real
  {
    var lo := x.Floor;
    var hi := if lo + 1 < |a| then lo + 1 else |a| - 1;
    var frac := x - lo as real;
    Blend(a[lo], a[hi], frac)
  }

  /** The value at a fractional index into the sorted values. */
  function AtIndex(values: seq<real>, x: real): real
    requires values != [] && 0.0 <= x <= (|values| - 1) as real
  {
    OrderFacts(values);
    var ordered := Order(values);
    if |ordered| == 1 then ordered[0] else Interpolate(ordered, x)
  }

  function Index(n: nat, p: real): (x: real)
    requires n >= 1 && 0.0 <= p <= 1.0
    ensures 0.0 <= x <= (n - 1) as real
  {
    (n - 1) as real * p
  }

  function Percentile(values: seq<real>, p: real): real
    requires 0.0 <= p <= 1.0
  {
    if values == [] then 0.0 else AtIndex(values, Index(|values|, p))
  }

  lemma OrderFacts(values: seq<real>)
    ensures Ascending(Order(values)) && multiset(Order(values)) == multiset(values) && |Order(values)| == |values|
  {
    Sorting.SortSorts(values, AtMost);
    var a := Order(values);
    assert |multiset(a)| == |multiset(values)|;
    forall i, j | 0 <= i <= j < |a| ensures a[i] <= a[j] {
      if i < j { assert AtMost(a[i], a[j]); }
    }
  }

  lemma ProductNotNegative(x: real, y: real)
    requires x >= 0.0 && y >= 0.0
    ensures x * y >= 0.0
  {}

  /** A point between two values stays between them. */
  lemma Between(u: real, v: real, f: real)
    requires u <= v && 0.0 <= f <= 1.0
    ensures u <= Blend(u, v, f) <= v
  {
    ProductNotNegative(v - u, f);
    ProductNotNegative(v - u, 1.0 - f);
    assert Blend(u, v, f) - u == (v - u) * f;
    assert v - Blend(u, v, f) == (v - u) * (1.0 - f);
  }

  lemma Slope(u: real, v: real, f: real, g: real)
    requires u <= v && f <= g
    ensures Blend(u, v, f) <= Blend(u, v, g)
  {
    ProductNotNegative(v - u, g - f);
    assert Blend(u, v, g) - Blend(u, v, f) == (v - u) * (g - f);
  }

  lemma InterpolateBetween(a: seq<real>, x: real)
    requires a != [] && Ascending(a) && 0.0 <= x <= (|a| - 1) as real
    ensures var lo := x.Floor;
            && 0 <= lo < |a| && a[lo] <= Interpolate(a, x)
            && Interpolate(a, x) <= a[if lo + 1 < |a| then lo + 1 else |a| - 1]
  {
    var lo := x.Floor;
    var hi := if lo + 1 < |a| then lo + 1 else |a| - 1;
    Between(a[lo], a[hi], x - lo as real);
  }

  /** A larger index never gives a smaller value, within a segment and across segment boundaries. */
  lemma InterpolateMonotone(a: seq<real>, x: real, y: real)
    requires a != [] && Ascending(a) && 0.0 <= x <= y <= (|a| - 1) as real
    ensures Interpolate(a, x) <= Interpolate(a, y)
  {
    var lo, up := x.Floor, y.Floor;
    if lo == up {
      var hi := if lo + 1 < |a| then lo + 1 else |a| - 1;
      Slope(a[lo], a[hi], x - lo as real, y - lo as real);
    } else {
      InterpolateBetween(a, x);
      InterpolateBetween(a, y);
      assert lo + 1 <= up;
    }
  }

  lemma SameOrder(a: seq<real>, b: seq<real>)
    requires multiset(a) == multiset(b)
    ensures Order(a) == Order(b) && |a| == |b|
  {
    assert |multiset(a)| == |multiset(b)|;
    Sorting.SortSorts(a, AtMost);
    Sorting.SortSorts(b, AtMost);
    Sorting.OrderIsUnique(Order(a), Order(b), AtMost);
  }

  /** The percentile depends on the values, not on their order. */
  lemma PermutationInvariant(a: seq<real>, b: seq<real>, p: real)
    requires multiset(a) == multiset(b) && 0.0 <= p <= 1.0
    ensures Percentile(a, p) == Percentile(b, p)
  {
    SameOrder(a, b);
  }

  lemma IndexStaysInRange(values: seq<real>, x: real, least: real, most: real)
    requires values != [] && 0.0 <= x <= (|values| - 1) as real
    requires forall i :: 0 <= i < |values| ==> least <= values[i] <= most
    ensures least <= AtIndex(values, x) <= most
  {
    var a := Order(values);
    OrderFacts(values);
    forall i | 0 <= i < |a| ensures least <= a[i] <= most { assert a[i] in multiset(values); }
    InterpolateBetween(a, x);
  }

  /** It lies between any bounds of the values, so between their minimum and maximum. */
  lemma StaysInRange(values: seq<real>, p: real, least: real, most: real)
    requires values != [] && 0.0 <= p <= 1.0
    requires forall i :: 0 <= i < |values| ==> least <= values[i] <= most
    ensures least <= Percentile(values, p) <= most
  {
    IndexStaysInRange(values, Index(|values|, p), least, most);
  }

  lemma IndexMonotone(values: seq<real>, x: real, y: real)
    requires values != [] && 0.0 <= x <= y <= (|values| - 1) as real
    ensures AtIndex(values, x) <= AtIndex(values, y)
  {
    OrderFacts(values);
    InterpolateMonotone(Order(values), x, y);
  }

  lemma IndexGrows(n: nat, p: real, q: real)
    requires n >= 1 && 0.0 <= p <= q <= 1.0
    ensures Index(n, p) <= Index(n, q)
  {
    ProductNotNegative((n - 1) as real, q - p);
    assert Index(n, q) - Index(n, p) == (n - 1) as real * (q - p);
  }

  /** A higher percentile is never smaller; in particular the median never exceeds the 90th. */
  lemma MonotoneInP(values: seq<real>, p: real, q: real)
    requires 0.0 <= p <= q <= 1.0
    ensures Percentile(values, p) <= Percentile(values, q)
  {
    if values != [] {
      IndexGrows(|values|, p, q);
      IndexMonotone(values, Index(|values|, p), Index(|values|, q));
    }
  }

  /** Where p falls between two order statistics, the percentile is on the line between them. */
  lemma IsLinearBetween(values: seq<real>, p: real, k: nat)
    requires 0.0 <= p <= 1.0 && k + 1 < |values| && k as real <= (|values| - 1) as real * p <= (k + 1) as real
    ensures |Order(values)| == |values|
    ensures Percentile(values, p)
         == Order(values)[k] + ((|values| - 1) as real * p - k as real) * (Order(values)[k + 1] - Order(values)[k])
  {
    LinearAt(values, Index(|values|, p), k);
  }

  lemma LinearAt(values: seq<real>, x: real, k: nat)
    requires k + 1 < |values| && k as real <= x <= (k + 1) as real
    ensures |Order(values)| == |values|
    ensures AtIndex(values, x) == Order(values)[k] + (x - k as real) * (Order(values)[k + 1] - Order(values)[k])
  {
    OrderFacts(values);
    var a := Order(values);
    OnTheLine(a[k], a[k + 1], x - k as real);
    if x == (k + 1) as real {
      WholeIndex(a, k + 1);
    } else {
      assert x.Floor == k;
    }
  }

  lemma WholeIndex(a: seq<real>, k: nat)
    requires k < |a|
    ensures Interpolate(a, k as real) == a[k]
  {
    assert (k as real).Floor == k;
  }

  lemma OnTheLine(u: real, v: real, f: real)
    ensures Blend(u, v, f) == u + f * (v - u)
  {}

  /** Where p falls on an order statistic, it is that one. */
  lemma HitsOrderStatistic(values: seq<real>, p: real, k: nat)
    requires values != [] && 0.0 <= p <= 1.0 && (|values| - 1) as real * p == k as real
    ensures |Order(values)| == |values| && k < |values| && Percentile(values, p) == Order(values)[k]
  {
    OrderFacts(values);
    var a := Order(values);
    assert Index(|values|, p) == k as real;
    WholeIndex(a, k);
  }
}
