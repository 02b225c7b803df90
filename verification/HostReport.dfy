/** The concurrency figures of the host report: the sweep loop, and the figures it yields for a log. */
module HostReport {
  import Sorting
  import opened Intervals
  import opened Spans
  import opened Sweep

  /** Among the running counts after 0..k events, `peak` is the largest. */
  ghost predicate LargestCount(ev: seq<Event>, k: nat, peak: int)
    requires k <= |ev|
  {
    && (forall j :: 0 <= j <= k ==> Weigh(ev[..j], All) <= peak)
    && (exists j :: 0 <= j <= k && Weigh(ev[..j], All) == peak)
  }

  /** The largest running count is the largest depth, no matter how simultaneous events were ordered in between. */
  lemma LargestCountIsPeak(ev: seq<Event>, ivs: seq<Span>, start: int, end: int, peak: int)
    requires Stands(ev, ivs, start, end) && LargestCount(ev, |ev|, peak)
    ensures IsPeak(ivs, peak)
  {
    forall t ensures Depth(ivs, t) <= peak {
      var k := EventsUpTo(ev, t, |ev|);
      CountIsDepth(ev, k, t);
    }
    var j :| 0 <= j <= |ev| && Weigh(ev[..j], All) == peak;
    if j > 0 {
      CountNotAbove(ev, j);
      var w := ev[j - 1].when;
      var t := if ev[j - 1].delta == 1 then w else w - 1;
      assert Depth(ivs, t) == peak;
    }
  }

  lemma CountStep(ev: seq<Event>, k: nat)
    requires k < |ev|
    ensures Weigh(ev[..k + 1], All) == Weigh(ev[..k], All) + ev[k].delta
  {
    assert ev[..k + 1] == ev[..k] + [ev[k]];
    WeighConcat(ev[..k], [ev[k]], All);
    assert Weigh([ev[k]], All) == ev[k].delta + Weigh([], All);
  }

  lemma LargestStep(ev: seq<Event>, k: nat, peak: int)
    requires k < |ev| && LargestCount(ev, k, peak)
    ensures var current := Weigh(ev[..k + 1], All); LargestCount(ev, k + 1, if peak < current then current else peak)
  {
    var current := Weigh(ev[..k + 1], All);
    if peak >= current {
      var j :| 0 <= j <= k && Weigh(ev[..j], All) == peak;
      assert j <= k + 1;
    }
  }

  /** The cells between the previous event and the next one all have the running count as depth. */
  lemma SweepStep(ev: seq<Event>, ivs: seq<Span>, start: int, end: int, k: nat, prev: int, when: int)
    requires Stands(ev, ivs, start, end) && k <= |ev|
    requires prev == (if k == 0 then start else ev[k - 1].when) && start <= prev <= when
    requires when == if k < |ev| then ev[k].when else end
    ensures var c := Weigh(ev[..k], All);
            && c >= 0
            && SumDepth(ivs, start, when) == SumDepth(ivs, start, prev) + c * (when - prev)
            && BusyCells(ivs, start, when) == BusyCells(ivs, start, prev) + if c > 0 then when - prev else 0
  {
    if k > 0 { CountNotBelow(ev, k); }
    forall t | prev <= t < when ensures Depth(ivs, t) == Weigh(ev[..k], All) { CountIsDepth(ev, k, t); }
    ConstantRun(ivs, start, prev, when, Weigh(ev[..k], All));
  }

  /** The running count after any number of events: never negative, and zero after all of them. */
  lemma CountStaysValid(ev: seq<Event>, ivs: seq<Span>, start: int, end: int, k: nat)
    requires Stands(ev, ivs, start, end) && k <= |ev|
    ensures Weigh(ev[..k], All) >= 0 && (k == |ev| ==> Weigh(ev[..k], All) == 0)
  {
    if k > 0 {
      CountNotBelow(ev, k);
    }
    if k == |ev| {
      assert ev[..k] == ev;
    }
  }

  /** The loop of the sweep. */
  method SweepEvents(ev: seq<Event>, ghost ivs: seq<Span>, start: int, ghost end: int)
    returns (area: int, busy: int, peak: int)
    requires Stands(ev, ivs, start, end) && start <= end
    ensures area == SumDepth(ivs, start, end) && busy == BusyCells(ivs, start, end) && IsPeak(ivs, peak)
  {
    var current := 0;
    peak, area, busy := 0, 0, 0;
    var prev := start;
    assert ev[..0] == [];
    for k := 0 to |ev|
      invariant prev == (if k == 0 then start else ev[k - 1].when) && start <= prev <= end
      invariant current == Weigh(ev[..k], All) >= 0
      invariant area == SumDepth(ivs, start, prev) && busy == BusyCells(ivs, start, prev)
      invariant LargestCount(ev, k, peak)
    {
      var when, delta := ev[k].when, ev[k].delta;
      assert prev <= when;
      SweepStep(ev, ivs, start, end, k, prev, when);
      var dt := when - prev;
      if dt > 0 && current > 0 {
        area := area + current * dt;
        busy := busy + dt;
      }
      CountStep(ev, k);
      CountStaysValid(ev, ivs, start, end, k + 1);
      LargestStep(ev, k, peak);
      current := current + delta;
      peak := if peak < current then current else peak;
      prev := when;
    }
    assert ev[..|ev|] == ev;
    assert current == 0;
    SweepStep(ev, ivs, start, end, |ev|, prev, end);
    LargestCountIsPeak(ev, ivs, start, end, peak);
  }

  /** `rate`, over the given span of time, comes to the amount. */
  predicate ComesTo(rate: real, span: int, amount: real) {
    rate * span as real == amount
  }

  /** Area and busy time as a mean and a percentage of the span. */
  method Rates(area: int, busy: int, span: int) returns (mean: real, busyPct: real)
    requires span > 0
    ensures ComesTo(mean, span, area as real) && ComesTo(busyPct, span, 100.0 * busy as real)
  {
    mean := area as real / span as real;
    busyPct := 100.0 * busy as real / span as real;
  }

  method BuildEvents(intervals: seq<Span>, start: int, end: int) returns (events: seq<Event>)
    ensures events == EventsOf(Clipped(intervals, start, end))
  {
    events := [];
    for i := 0 to |intervals|
      invariant events == EventsOf(Clipped(intervals[..i], start, end))
    {
      assert intervals[..i + 1][..i] == intervals[..i];
      var iv := Clip(intervals[i], start, end);
      ghost var before := Clipped(intervals[..i], start, end);
      if iv.end > iv.start {
        assert (before + [iv])[..|before|] == before;
        events := events + [Event(iv.start, 1), Event(iv.end, -1)];
      } else {
        assert before + [] == before;
      }
    }
    assert intervals[..|intervals|] == intervals;
  }

  /** Within the window the summed depth is the total length, the busy cells are the union, and the sorted
      events stand for the intervals. */
  lemma ClippedFacts(intervals: seq<Span>, start: int, end: int)
    requires start < end
    ensures var inside := Clipped(intervals, start, end);
            && SumDepth(inside, start, end) == SumLengths(inside)
            && BusyCells(inside, start, end) == |Cells(inside)|
            && Stands(Sorting.Sort(EventsOf(inside), EventOrder), inside, start, end)
  {
    var inside := Clipped(intervals, start, end);
    ClippedWithin(intervals, start, end);
    AreaIsSumOfLengths(inside, start, end);
    UnionInWindow(inside, start, end);
    SortedEventsStand(inside, start, end);
  }

  /** Area, busy time and peak of the parts of the intervals inside a window. */
  method SweepWindow(intervals: seq<Span>, start: int, end: int) returns (area: int, busy: int, peak: int)
    requires start < end
    ensures area == SumLengths(Clipped(intervals, start, end)) && busy == |Cells(Clipped(intervals, start, end))|
    ensures IsPeak(Clipped(intervals, start, end), peak)
  {
    ghost var inside := Clipped(intervals, start, end);
    ClippedFacts(intervals, start, end);
    var events := BuildEvents(intervals, start, end);
    if events == [] {
      assert inside == [];
      return 0, 0, 0;
    }
    area, busy, peak := SweepEvents(Sorting.Sort(events, EventOrder), inside, start, end);
  }

  /** Mean and peak concurrency and busy percentage of a window, before rounding. */
  method Occupancy(intervals: seq<Span>, start: int, end: int) returns (mean: real, peak: int, busyPct: real)
    ensures end <= start ==> mean == 0.0 && peak == 0 && busyPct == 0.0
    ensures start < end ==>
              && ComesTo(mean, end - start, SumLengths(Clipped(intervals, start, end)) as real)
              && ComesTo(busyPct, end - start, 100.0 * |Cells(Clipped(intervals, start, end))| as real)
              && IsPeak(Clipped(intervals, start, end), peak)
  {
    var span := end - start;
    if span <= 0 {
      return 0.0, 0, 0.0;
    }
    var area, busy;
    area, busy, peak := SweepWindow(intervals, start, end);
    mean, busyPct := Rates(area, busy, span);
  }

  // ---------------------------------------------------------------- summarize

  /** A log row in ticks: when the request finished, how long its forward, prefill and post-prefill took. */
  datatype Row = Row(finish: int, forward: nat, prefill: nat, post: nat)

  datatype Phase = Forward | Prefill | Decode

  function SpanOf(row: Row, phase: Phase): Span {
    var begun := row.finish - row.forward;
    match phase
    case Forward => Span(begun, row.finish)
    case Prefill => Span(begun, begun + row.prefill)
    case Decode => Span(row.finish - row.post, row.finish)
  }

  function SpansOf(rows: seq<Row>, phase: Phase): (r: seq<Span>)
    ensures |r| == |rows| && forall i :: 0 <= i < |r| ==> r[i] == SpanOf(rows[i], phase)
  {
    seq(|rows|, i requires 0 <= i < |rows| => SpanOf(rows[i], phase))
  }

  /** The request is in the phase in the cell from t to t + 1, by the fields of its row: it is in the forward for
      `forward` ticks up to its finish, in prefill for the first `prefill` ticks from the forward's start, and
      decoding for the last `post` ticks. */
  predicate In(row: Row, phase: Phase, t: int) {
    match phase
    case Forward => row.finish - row.forward <= t < row.finish
    case Prefill => row.finish - row.forward <= t < row.finish - row.forward + row.prefill
    case Decode => row.finish - row.post <= t < row.finish
  }

  function NumberIn(rows: seq<Row>, phase: Phase, t: int): nat {
    if rows == [] then 0 else (if In(rows[0], phase, t) then 1 else 0) + NumberIn(rows[1..], phase, t)
  }

  /** The cells in which some request is in the phase. */
  ghost predicate Occupied(rows: seq<Row>, phase: Phase, cells: set<int>) {
    forall t :: t in cells <==> exists i :: 0 <= i < |rows| && In(rows[i], phase, t)
  }

  function TotalForward(rows: seq<Row>): nat {
    if rows == [] then 0 else TotalForward(rows[..|rows| - 1]) + rows[|rows| - 1].forward
  }

  lemma {:induction false} DepthIsNumber(rows: seq<Row>, phase: Phase, t: int)
    ensures Depth(SpansOf(rows, phase), t) == NumberIn(rows, phase, t)
  {
    if rows != [] {
      assert SpansOf(rows, phase)[1..] == SpansOf(rows[1..], phase);
      DepthIsNumber(rows[1..], phase, t);
    }
  }

  lemma {:induction false} SomeoneIn(rows: seq<Row>, phase: Phase, t: int)
    ensures NumberIn(rows, phase, t) > 0 <==> exists i :: 0 <= i < |rows| && In(rows[i], phase, t)
  {
    if rows != [] {
      SomeoneIn(rows[1..], phase, t);
      assert forall i :: 1 <= i < |rows| ==> rows[i] == rows[1..][i - 1];
    }
  }

  lemma CellsAreOccupied(rows: seq<Row>, phase: Phase)
    ensures Occupied(rows, phase, Cells(SpansOf(rows, phase)))
  {
    forall t ensures t in Cells(SpansOf(rows, phase)) <==> exists i :: 0 <= i < |rows| && In(rows[i], phase, t) {
      CellsAreCovered(SpansOf(rows, phase), t);
      DepthIsNumber(rows, phase, t);
      SomeoneIn(rows, phase, t);
    }
  }

  lemma {:induction false} LengthsAreForwards(rows: seq<Row>)
    ensures SumLengths(SpansOf(rows, Forward)) == TotalForward(rows)
  {
    if rows != [] {
      var n := |rows| - 1;
      assert SpansOf(rows, Forward)[..n] == SpansOf(rows[..n], Forward);
      LengthsAreForwards(rows[..n]);
    }
  }

  /** `peak` is the largest number of requests in the phase at once. */
  ghost predicate MostIn(rows: seq<Row>, phase: Phase, peak: int) {
    (forall t :: NumberIn(rows, phase, t) <= peak) && exists t :: NumberIn(rows, phase, t) == peak
  }

  lemma PeakIsMost(rows: seq<Row>, phase: Phase, peak: int)
    requires IsPeak(SpansOf(rows, phase), peak)
    ensures MostIn(rows, phase, peak)
  {
    forall t ensures Depth(SpansOf(rows, phase), t) == NumberIn(rows, phase, t) { DepthIsNumber(rows, phase, t); }
    assert NumberIn(rows, phase, 0) <= peak;
  }

  lemma OneMoreInterval(ivs: seq<Span>, iv: Span)
    ensures Cells(ivs + [iv]) == Cells(ivs) + Range(iv.start, iv.end)
  {
    var both := ivs + [iv];
    assert both[..|ivs|] == ivs && both[..|ivs| + 1] == both;
    CellsAppend(both, |ivs|);
  }

  method KeepNonEmpty(kept: seq<Span>, phase: Span, ghost before: seq<Span>) returns (r: seq<Span>)
    requires Proper(kept) && Cells(kept) == Cells(before)
    ensures Proper(r) && Cells(r) == Cells(before + [phase])
  {
    OneMoreInterval(before, phase);
    r := kept;
    if phase.end > phase.start {
      OneMoreInterval(kept, phase);
      r := kept + [phase];
    }
  }

  /** The phases that are not empty; they cover what all of them do. */
  method NonEmpty(rows: seq<Row>, phase: Phase) returns (kept: seq<Span>)
    ensures Proper(kept) && Cells(kept) == Cells(SpansOf(rows, phase))
  {
    kept := [];
    ghost var all, before := SpansOf(rows, phase), [];
    for i := 0 to |rows|
      invariant |before| == i && before <= all
      invariant Proper(kept) && Cells(kept) == Cells(before)
    {
      kept := KeepNonEmpty(kept, SpanOf(rows[i], phase), before);
      before := before + [SpanOf(rows[i], phase)];
    }
    assert before == all;
  }

  /** The time at least one request spends in a phase: empty phases are left out, the rest merged. */
  method PhaseBusy(rows: seq<Row>, phase: Phase) returns (busy: int)
    ensures exists cells :: Occupied(rows, phase, cells) && busy == |cells|
  {
    CellsAreOccupied(rows, phase);
    var kept := NonEmpty(rows, phase);
    busy := UnionSeconds(kept);
  }

  ghost predicate Inside(ivs: seq<Span>, start: int, end: int) {
    forall i :: 0 <= i < |ivs| ==> start <= ivs[i].start <= ivs[i].end <= end
  }

  lemma {:induction false} ClippedDepth(ivs: seq<Span>, start: int, end: int, t: int)
    requires Inside(ivs, start, end)
    ensures Depth(Clipped(ivs, start, end), t) == Depth(ivs, t)
  {
    if ivs != [] {
      var n := |ivs| - 1;
      var before := Clipped(ivs[..n], start, end);
      ClippedDepth(ivs[..n], start, end, t);
      DepthLast(ivs, t);
      assert Clip(ivs[n], start, end) == ivs[n];
      if ivs[n].start < ivs[n].end {
        DepthLast(before + [ivs[n]], t);
        assert (before + [ivs[n]])[..|before|] == before;
      } else {
        assert before + [] == before;
      }
    }
  }

  lemma {:induction false} ClippedLength(ivs: seq<Span>, start: int, end: int)
    requires Inside(ivs, start, end)
    ensures SumLengths(Clipped(ivs, start, end)) == SumLengths(ivs)
  {
    if ivs != [] {
      var n := |ivs| - 1;
      var before := Clipped(ivs[..n], start, end);
      ClippedLength(ivs[..n], start, end);
      assert Clip(ivs[n], start, end) == ivs[n];
      assert (before + [ivs[n]])[..|before|] == before;
      assert before + [] == before;
    }
  }

  lemma ClippedCells(ivs: seq<Span>, start: int, end: int)
    requires Inside(ivs, start, end)
    ensures Cells(Clipped(ivs, start, end)) == Cells(ivs)
  {
    var inside := Clipped(ivs, start, end);
    forall t ensures t in Cells(inside) <==> t in Cells(ivs) {
      ClippedDepth(ivs, start, end, t);
      CellsAreCovered(inside, t);
      CellsAreCovered(ivs, t);
    }
  }

  /** Clipping to a window that holds every interval changes neither total length, covered cells nor peak. */
  lemma ClippingIsHarmless(ivs: seq<Span>, start: int, end: int, peak: int)
    requires Inside(ivs, start, end)
    ensures SumLengths(Clipped(ivs, start, end)) == SumLengths(ivs)
    ensures Cells(Clipped(ivs, start, end)) == Cells(ivs)
    ensures IsPeak(Clipped(ivs, start, end), peak) ==> IsPeak(ivs, peak)
  {
    var inside := Clipped(ivs, start, end);
    ClippedLength(ivs, start, end);
    ClippedCells(ivs, start, end);
    if IsPeak(inside, peak) {
      forall t ensures Depth(inside, t) == Depth(ivs, t) { ClippedDepth(ivs, start, end, t); }
      SamePeak(inside, ivs, peak);
    }
  }

  /** Little's law and its bounds, for intervals inside a window. */
  lemma Accounting(ivs: seq<Span>, start: int, end: int, peak: int)
    requires Inside(ivs, start, end) && IsPeak(ivs, peak)
    ensures |Cells(ivs)| <= SumLengths(ivs) <= peak * |Cells(ivs)|
  {
    AreaIsSumOfLengths(ivs, start, end);
    UnionInWindow(ivs, start, end);
    assert Depth(ivs, 0) >= 0;
    AreaBounds(ivs, start, end, peak);
  }

  /** From the first forward's start to the last finish. */
  ghost predicate IsWindow(rows: seq<Row>, start: int, end: int) {
    && (forall i :: 0 <= i < |rows| ==> start <= rows[i].finish - rows[i].forward && rows[i].finish <= end)
    && (exists i :: 0 <= i < |rows| && start == rows[i].finish - rows[i].forward)
    && (exists i :: 0 <= i < |rows| && end == rows[i].finish)
  }

  method Window(rows: seq<Row>) returns (start: int, end: int)
    requires rows != []
    ensures IsWindow(rows, start, end)
  {
    start, end := rows[0].finish - rows[0].forward, rows[0].finish;
    for i := 1 to |rows|
      invariant forall j :: 0 <= j < i ==> start <= rows[j].finish - rows[j].forward && rows[j].finish <= end
      invariant exists j :: 0 <= j < i && start == rows[j].finish - rows[j].forward
      invariant exists j :: 0 <= j < i && end == rows[j].finish
    {
      var left := rows[i].finish - rows[i].forward;
      start := if left < start then left else start;
      end := if end < rows[i].finish then rows[i].finish else end;
    }
  }

  /** Occupancy of intervals in a window that holds them all. */
  method WholeWindow(ivs: seq<Span>, start: int, end: int) returns (mean: real, peak: int, busyPct: real)
    requires Inside(ivs, start, end) && start < end
    ensures ComesTo(mean, end - start, SumLengths(ivs) as real)
    ensures ComesTo(busyPct, end - start, 100.0 * |Cells(ivs)| as real)
    ensures IsPeak(ivs, peak)
  {
    mean, peak, busyPct := Occupancy(ivs, start, end);
    ClippingIsHarmless(ivs, start, end, peak);
  }

  /** Of a window without extent: nothing is in flight. */
  method EmptySpan(ivs: seq<Span>, start: int) returns (mean: real, peak: int, busyPct: real)
    requires Inside(ivs, start, start)
    ensures mean == 0.0 && busyPct == 0.0 && IsPeak(ivs, peak) && SumLengths(ivs) == |Cells(ivs)| == 0
    ensures ComesTo(mean, 0, SumLengths(ivs) as real) && ComesTo(busyPct, 0, 100.0 * |Cells(ivs)| as real)
  {
    mean, peak, busyPct := Occupancy(ivs, start, start);
    EmptyWindow(ivs, start);
    Accounting(ivs, start, start, peak);
  }

  /** The cells in which some forward runs make up the busy share, and cells <= total <= peak * cells. */
  ghost predicate BusyShare(rows: seq<Row>, cells: set<int>, wall: int, peak: int, busyPct: real) {
    && Occupied(rows, Forward, cells)
    && ComesTo(busyPct, wall, 100.0 * |cells| as real)
    && |cells| <= TotalForward(rows) <= peak * |cells|
  }

  /** The concurrency figures of a log, on the fields of its rows.  Over the wall span, from the first forward's
      start to the last finish, the mean number in flight times the span is the sum of the forward times (Little's
      law), the busy share is the number of cells in which some forward runs, and the peak is the largest number
      of forwards that run at once. */
  ghost predicate Figures(rows: seq<Row>, wall: int, mean: real, peak: int, busyPct: real) {
    && (if rows == [] then wall == 0 else exists start, end :: IsWindow(rows, start, end) && wall == end - start)
    && wall >= 0 && MostIn(rows, Forward, peak)
    && ComesTo(mean, wall, TotalForward(rows) as real)
    && (exists cells :: BusyShare(rows, cells, wall, peak, busyPct))
    && (wall == 0 ==> mean == 0.0 && busyPct == 0.0)
  }

  /** The figures of the forward intervals are those of the rows. */
  lemma FiguresOfRows(rows: seq<Row>, start: int, end: int, mean: real, peak: int, busyPct: real)
    requires rows != [] && IsWindow(rows, start, end) && IsPeak(SpansOf(rows, Forward), peak)
    requires ComesTo(mean, end - start, SumLengths(SpansOf(rows, Forward)) as real)
    requires ComesTo(busyPct, end - start, 100.0 * |Cells(SpansOf(rows, Forward))| as real)
    requires start == end ==> mean == 0.0 && busyPct == 0.0
    ensures Figures(rows, end - start, mean, peak, busyPct)
  {
    PeakIsMost(rows, Forward, peak);
    LengthsAreForwards(rows);
    assert Inside(SpansOf(rows, Forward), start, end);
    ShareOfRows(rows, Cells(SpansOf(rows, Forward)), start, end, peak, busyPct);
  }

  lemma ShareOfRows(rows: seq<Row>, cells: set<int>, start: int, end: int, peak: int, busyPct: real)
    requires Inside(SpansOf(rows, Forward), start, end) && IsPeak(SpansOf(rows, Forward), peak)
    requires cells == Cells(SpansOf(rows, Forward)) && ComesTo(busyPct, end - start, 100.0 * |cells| as real)
    ensures BusyShare(rows, cells, end - start, peak, busyPct)
  {
    LengthsAreForwards(rows);
    CellsAreOccupied(rows, Forward);
    Accounting(SpansOf(rows, Forward), start, end, peak);
  }

  lemma NoFigures()
    ensures Figures([], 0, 0.0, 0, 0.0)
  {
    assert NumberIn([], Forward, 0) == 0;
    assert BusyShare([], {}, 0, 0, 0.0);
  }

  method InFlight(rows: seq<Row>) returns (wall: int, mean: real, peak: int, busyPct: real)
    ensures Figures(rows, wall, mean, peak, busyPct)
  {
    if rows == [] {
      NoFigures();
      return 0, 0.0, 0, 0.0;
    }
    var start, end := Window(rows);
    wall := end - start;
    var forwards := SpansOf(rows, Forward);
    assert Inside(forwards, start, end);
    if wall != 0 {
      mean, peak, busyPct := WholeWindow(forwards, start, end);
    } else {
      mean, peak, busyPct := EmptySpan(forwards, start);
    }
    FiguresOfRows(rows, start, end, mean, peak, busyPct);
  }

  /** The interval part of the summary: the concurrency figures, and the times in which at least one request was
      in its prefill and in its decode phase. */
  method Summarize(rows: seq<Row>)
    returns (wall: int, mean: real, peak: int, busyPct: real, prefillBusy: int, decodeBusy: int)
    ensures Figures(rows, wall, mean, peak, busyPct)
    ensures exists cells :: Occupied(rows, Prefill, cells) && prefillBusy == |cells|
    ensures exists cells :: Occupied(rows, Decode, cells) && decodeBusy == |cells|
  {
    wall, mean, peak, busyPct := InFlight(rows);
    prefillBusy := PhaseBusy(rows, Prefill);
    decodeBusy := PhaseBusy(rows, Decode);
  }

  lemma EmptyWindow(ivs: seq<Span>, start: int)
    requires Inside(ivs, start, start)
    ensures IsPeak(ivs, 0) && SumLengths(ivs) == 0
  {
    AreaIsSumOfLengths(ivs, start, start);
    forall t ensures Depth(ivs, t) == 0 {
      CellsWithin(ivs, start, start);
      CellsAreCovered(ivs, t);
    }
  }
}
