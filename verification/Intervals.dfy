/** Union length, concurrency and busy time of request intervals.

Time is counted in whole ticks and an interval covers the half-open cells start, ..., end - 1, so that
lengths are numbers of cells.  Results are stated before rounding. */
module Intervals {
  import Sorting
  import opened Spans

  function Range(a: int, b: int): (r: set<int>)
    ensures forall t :: t in r <==> a <= t < b
    ensures |r| == if a < b then b - a else 0
    decreases b - a
  {
    if a >= b then {} else Range(a, b - 1) + {b - 1}
  }

  /** The cells covered by at least one interval. */
  function Cells(ivs: seq<Span>): set<int> {
    if ivs == [] then {} else Range(ivs[0].start, ivs[0].end) + Cells(ivs[1..])
  }

  lemma {:induction false} CellsAreCovered(ivs: seq<Span>, t: int)
    ensures t in Cells(ivs) <==> Depth(ivs, t) > 0
  {
    if ivs != [] { CellsAreCovered(ivs[1..], t); }
  }

  lemma {:induction false} CellsConcat(a: seq<Span>, b: seq<Span>)
    ensures Cells(a + b) == Cells(a) + Cells(b)
  {
    if a == [] {
      assert a + b == b;
    } else {
      assert (a + b)[1..] == a[1..] + b;
      CellsConcat(a[1..], b);
    }
  }

  // ---------------------------------------------------------------- _union_seconds

  function PairOrder(a: Span, b: Span): bool {
    a.start < b.start || (a.start == b.start && a.end <= b.end)
  }

  ghost predicate Proper(ivs: seq<Span>) {
    forall i :: 0 <= i < |ivs| ==> ivs[i].start <= ivs[i].end
  }

  ghost predicate ByLeft(ivs: seq<Span>) {
    forall i, j :: 0 <= i < j < |ivs| ==> ivs[i].start <= ivs[j].start
  }

  function Sorted(ivs: seq<Span>): seq<Span> {
    Sorting.Sort(ivs, PairOrder)
  }

  lemma SortedFacts(ivs: seq<Span>)
    requires Proper(ivs)
    ensures |Sorted(ivs)| == |ivs| && Proper(Sorted(ivs)) && ByLeft(Sorted(ivs)) && Cells(Sorted(ivs)) == Cells(ivs)
  {
    var ordered := Sorted(ivs);
    Sorting.SortSorts(ivs, PairOrder);
    assert |multiset(ordered)| == |multiset(ivs)|;
    forall i | 0 <= i < |ordered| ensures ordered[i].start <= ordered[i].end {
      assert ordered[i] in multiset(ivs);
    }
    forall i, j | 0 <= i < j < |ordered| ensures ordered[i].start <= ordered[j].start {
      assert PairOrder(ordered[i], ordered[j]);
    }
    SameCells(ivs, ordered);
  }

  /** The cells so far: `total` of them in closed runs, then one open run up to `end`. */
  ghost predicate OpenRun(cells: set<int>, total: int, start: int, end: int) {
    && start <= end && Range(start, end) <= cells && (forall t <- cells :: t < end)
    && |cells| == total + (end - start)
  }

  /** An interval that starts inside or at the end of the open run extends it. */
  lemma RunExtends(cells: set<int>, total: int, start: int, end: int, left: int, right: int)
    requires OpenRun(cells, total, start, end) && start <= left <= end && left <= right
    ensures OpenRun(cells + Range(left, right), total, start, if end < right then right else end)
  {
    var more := Range(end, right);
    forall t | t in Range(left, right) ensures t in cells + more {
      if t < end { assert t in Range(start, end); }
    }
    assert cells + Range(left, right) == cells + more;
    assert cells !! more;
    assert |cells + more| == |cells| + |more|;
    forall t | t in Range(start, if end < right then right else end) ensures t in cells + more {
      if t < end { assert t in Range(start, end); }
    }
  }

  /** A later interval closes the run and opens its own. */
  lemma RunCloses(cells: set<int>, total: int, start: int, end: int, left: int, right: int)
    requires OpenRun(cells, total, start, end) && end < left <= right
    ensures OpenRun(cells + Range(left, right), total + (end - start), left, right)
  {
    assert cells !! Range(left, right);
  }

  lemma MergeStep(ordered: seq<Span>, i: nat, total: int, start: int, end: int)
    requires i < |ordered| && OpenRun(Cells(ordered[..i]), total, start, end)
    requires start <= ordered[i].start <= ordered[i].end
    ensures var (left, right) := (ordered[i].start, ordered[i].end);
            if left <= end then OpenRun(Cells(ordered[..i + 1]), total, start, if end < right then right else end)
            else OpenRun(Cells(ordered[..i + 1]), total + (end - start), left, right)
  {
    var left, right := ordered[i].start, ordered[i].end;
    CellsAppend(ordered, i);
    if left <= end {
      RunExtends(Cells(ordered[..i]), total, start, end, left, right);
    } else {
      RunCloses(Cells(ordered[..i]), total, start, end, left, right);
    }
  }

  /** The merge loop: one open run at a time, closed runs counted. */
  method MergeRuns(ordered: seq<Span>) returns (total: int)
    requires ordered != [] && Proper(ordered) && ByLeft(ordered)
    ensures total == |Cells(ordered)|
  {
    total := 0;
    var start, end := ordered[0].start, ordered[0].end;
    CellsAppend(ordered, 0);
    for i := 1 to |ordered|
      invariant start <= ordered[i - 1].start
      invariant OpenRun(Cells(ordered[..i]), total, start, end)
    {
      MergeStep(ordered, i, total, start, end);
      var left, right := ordered[i].start, ordered[i].end;
      if left <= end {
        end := if end < right then right else end;
      } else {
        total := total + (end - start);
        start, end := left, right;
      }
    }
    assert ordered[..|ordered|] == ordered;
    total := total + (end - start);
  }

  /** Sorting and merging computes the size of the union. */
  method UnionSeconds(intervals: seq<Span>) returns (total: int)
    requires Proper(intervals)
    ensures total == |Cells(intervals)|
  {
    if intervals == [] {
      return 0;
    }
    SortedFacts(intervals);
    total := MergeRuns(Sorted(intervals));
  }

  lemma CellsAppend(ivs: seq<Span>, i: nat)
    requires i < |ivs|
    ensures Cells(ivs[..i + 1]) == Cells(ivs[..i]) + Range(ivs[i].start, ivs[i].end)
  {
    assert ivs[..i + 1] == ivs[..i] + [ivs[i]];
    CellsConcat(ivs[..i], [ivs[i]]);
    assert Cells([ivs[i]]) == Range(ivs[i].start, ivs[i].end) + Cells([]);
  }

  lemma SameCells(a: seq<Span>, b: seq<Span>)
    requires multiset(a) == multiset(b)
    ensures Cells(a) == Cells(b)
  {
    forall t ensures t in Cells(a) <==> t in Cells(b) {
      CellsAreCovered(a, t);
      CellsAreCovered(b, t);
      DepthOfPermutation(a, b, t);
    }
  }
}
