/** Half-open spans of time and how many of them are live at an instant. */
module Spans {
  import Sorting

  datatype Span = Span(start: int, end: int)

  predicate LiveAt(a: Span, t: int) {
    a.start <= t < a.end
  }

  /** How many spans are live at the instant. */
  function Depth(spans: seq<Span>, t: int): nat {
    if spans == [] then 0 else (if LiveAt(spans[0], t) then 1 else 0) + Depth(spans[1..], t)
  }

  /** `d` is the largest number of spans live at one instant. */
  ghost predicate IsPeak(spans: seq<Span>, d: int) {
    (forall t :: Depth(spans, t) <= d) && (d == 0 || exists t :: Depth(spans, t) == d)
  }

  lemma {:induction false} DepthConcat(a: seq<Span>, b: seq<Span>, t: int)
    ensures Depth(a + b, t) == Depth(a, t) + Depth(b, t)
  {
    if a == [] {
      assert a + b == b;
    } else {
      assert (a + b)[1..] == a[1..] + b;
      DepthConcat(a[1..], b, t);
    }
  }

  /** The depth does not depend on the order. */
  lemma {:induction false} DepthOfPermutation(a: seq<Span>, b: seq<Span>, t: int)
    requires multiset(a) == multiset(b)
    ensures Depth(a, t) == Depth(b, t)
  {
    if a == [] {
      assert |multiset(b)| == |b|;
    } else {
      assert a == [a[0]] + a[1..] && a[0] in multiset(b);
      var i :| 0 <= i < |b| && b[i] == a[0];
      assert b == b[..i] + [b[i]] + b[i + 1..];
      Sorting.RemoveOne(a, b, i);
      DepthOfPermutation(a[1..], b[..i] + b[i + 1..], t);
      DepthConcat(b[..i] + [b[i]], b[i + 1..], t);
      DepthConcat(b[..i], [b[i]], t);
      DepthConcat(b[..i], b[i + 1..], t);
      assert Depth([b[i]], t) == (if LiveAt(b[i], t) then 1 else 0) + Depth([], t);
    }
  }

  lemma SamePeak(a: seq<Span>, b: seq<Span>, peak: int)
    requires IsPeak(a, peak) && forall t :: Depth(a, t) == Depth(b, t)
    ensures IsPeak(b, peak)
  {
    if peak != 0 {
      var t :| Depth(a, t) == peak;
      assert Depth(b, t) == peak;
    }
  }
}
