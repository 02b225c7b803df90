/** The event sweep behind mean, peak and busy concurrency, and the accounting laws it obeys. */
module Sweep {
  import Sorting
  import opened Intervals
  import opened Spans

  /** A start (+1) or an end (-1). */
  datatype Event = Event(when: int, delta: int)

  /** Ends sort before starts of the same instant, so that a handoff is not counted as two. */
  function EventOrder(a: Event, b: Event): bool {
    a.when < b.when || (a.when == b.when && a.delta <= b.delta)
  }

  function Clip(iv: Span, start: int, end: int): Span {
    Span(if iv.start < start then start else iv.start, if end < iv.end then end else iv.end)
  }

  /** The non-empty parts of the intervals inside the window. */
  function Clipped(ivs: seq<Span>, start: int, end: int): seq<Span> {
    if ivs == [] then []
    else
      var n := |ivs| - 1;
      var iv := Clip(ivs[n], start, end);
      Clipped(ivs[..n], start, end) + if iv.end > iv.start then [iv] else []
  }

  function EventsOf(ivs: seq<Span>): seq<Event> {
    if ivs == [] then []
    else EventsOf(ivs[..|ivs| - 1]) + [Event(ivs[|ivs| - 1].start, 1), Event(ivs[|ivs| - 1].end, -1)]
  }

  /** Intervals with at least one cell, inside the window. */
  ghost predicate Within(ivs: seq<Span>, start: int, end: int) {
    forall i :: 0 <= i < |ivs| ==> start <= ivs[i].start < ivs[i].end <= end
  }

  lemma {:induction false} ClippedWithin(ivs: seq<Span>, start: int, end: int)
    ensures Within(Clipped(ivs, start, end), start, end)
  {
    if ivs != [] { ClippedWithin(ivs[..|ivs| - 1], start, end); }
  }

  // ---------------------------------------------------------------- sums over a window

  /** The area under the depth curve: depth summed over the cells of [a, b). */
  function SumDepth(ivs: seq<Span>, a: int, b: int): nat
    decreases b - a
  {
    if a >= b then 0 else SumDepth(ivs, a, b - 1) + Depth(ivs, b - 1)
  }

  /** The number of cells of [a, b) covered by some interval. */
  function BusyCells(ivs: seq<Span>, a: int, b: int): nat
    decreases b - a
  {
    if a >= b then 0 else BusyCells(ivs, a, b - 1) + if Depth(ivs, b - 1) > 0 then 1 else 0
  }

  function Length(iv: Span): int { iv.end - iv.start }

  function SumLengths(ivs: seq<Span>): int {
    if ivs == [] then 0 else SumLengths(ivs[..|ivs| - 1]) + Length(ivs[|ivs| - 1])
  }

  lemma OneMore(c: int, n: int)
    ensures c * (n + 1) == c * n + c
  {}

  lemma {:induction false} ConstantRun(ivs: seq<Span>, a: int, p: int, q: int, c: nat)
    requires a <= p <= q && forall t :: p <= t < q ==> Depth(ivs, t) == c
    ensures SumDepth(ivs, a, q) == SumDepth(ivs, a, p) + c * (q - p)
    ensures BusyCells(ivs, a, q) == BusyCells(ivs, a, p) + if c > 0 then q - p else 0
    decreases q - p
  {
    if p < q {
      ConstantRun(ivs, a, p, q - 1, c);
      OneMore(c, q - 1 - p);
      assert q - 1 - p + 1 == q - p;
    } else {
      assert c * (q - p) == 0;
    }
  }

  lemma DepthLast(ivs: seq<Span>, t: int)
    requires ivs != []
    ensures var n := |ivs| - 1; Depth(ivs, t) == Depth(ivs[..n], t) + if LiveAt(ivs[n], t) then 1 else 0
  {
    var n := |ivs| - 1;
    assert ivs == ivs[..n] + [ivs[n]];
    DepthConcat(ivs[..n], [ivs[n]], t);
    assert Depth([ivs[n]], t) == (if LiveAt(ivs[n], t) then 1 else 0) + Depth([], t);
  }

  /** The cells of one interval that lie before b. */
  function Reach(iv: Span, b: int): int {
    if b <= iv.start then 0 else if b <= iv.end then b - iv.start else iv.end - iv.start
  }

  lemma {:induction false} AddOne(ivs: seq<Span>, a: int, b: int)
    requires ivs != [] && a <= ivs[|ivs| - 1].start <= ivs[|ivs| - 1].end
    ensures var n := |ivs| - 1; SumDepth(ivs, a, b) == SumDepth(ivs[..n], a, b) + Reach(ivs[n], b)
    decreases b - a
  {
    if a < b {
      DepthLast(ivs, b - 1);
      AddOne(ivs, a, b - 1);
    }
  }

  /** Counting by cells or by intervals gives the same area. */
  lemma {:induction false} AreaIsSumOfLengths(ivs: seq<Span>, a: int, b: int)
    requires forall i :: 0 <= i < |ivs| ==> a <= ivs[i].start <= ivs[i].end <= b
    ensures SumDepth(ivs, a, b) == SumLengths(ivs)
  {
    if ivs == [] {
      ConstantRun(ivs, a, a, if a < b then b else a, 0);
    } else {
      AddOne(ivs, a, b);
      AreaIsSumOfLengths(ivs[..|ivs| - 1], a, b);
    }
  }

  lemma {:induction false} BusyIsUnion(ivs: seq<Span>, a: int, b: int)
    ensures BusyCells(ivs, a, b) == |Cells(ivs) * Range(a, b)|
    decreases b - a
  {
    if a < b {
      BusyIsUnion(ivs, a, b - 1);
      CellsAreCovered(ivs, b - 1);
      var here := if Depth(ivs, b - 1) > 0 then {b - 1} else {};
      assert Cells(ivs) * Range(a, b) == Cells(ivs) * Range(a, b - 1) + here;
    } else {
      assert Cells(ivs) * Range(a, b) == {};
    }
  }

  lemma {:induction false} CellsWithin(ivs: seq<Span>, a: int, b: int)
    requires forall i :: 0 <= i < |ivs| ==> a <= ivs[i].start && ivs[i].end <= b
    ensures Cells(ivs) <= Range(a, b)
  {
    if ivs != [] { CellsWithin(ivs[1..], a, b); }
  }

  lemma UnionInWindow(ivs: seq<Span>, a: int, b: int)
    requires forall i :: 0 <= i < |ivs| ==> a <= ivs[i].start && ivs[i].end <= b
    ensures BusyCells(ivs, a, b) == |Cells(ivs)|
  {
    BusyIsUnion(ivs, a, b);
    CellsWithin(ivs, a, b);
    assert Cells(ivs) * Range(a, b) == Cells(ivs);
  }

  /** Busy time, area and peak: busy <= area <= peak * busy. */
  lemma {:induction false} AreaBounds(ivs: seq<Span>, a: int, b: int, peak: nat)
    requires forall t :: Depth(ivs, t) <= peak
    ensures BusyCells(ivs, a, b) <= SumDepth(ivs, a, b) <= peak * BusyCells(ivs, a, b)
    decreases b - a
  {
    if a < b {
      AreaBounds(ivs, a, b - 1, peak);
      OneMore(peak, BusyCells(ivs, a, b - 1));
    }
  }

  // ---------------------------------------------------------------- weighing events

  /** Which events are counted: all, those up to t, or those that come before the starts at w. */
  datatype Scale = All | Nothing | UpTo(t: int) | BeforeStarts(w: int)

  function Weight(f: Scale, e: Event): int {
    match f
    case All => e.delta
    case Nothing => 0
    case UpTo(t) => if e.when <= t then e.delta else 0
    case BeforeStarts(w) => if e.when < w || (e.when == w && e.delta < 0) then e.delta else 0
  }

  function Weigh(ev: seq<Event>, f: Scale): int {
    if ev == [] then 0 else Weight(f, ev[0]) + Weigh(ev[1..], f)
  }

  lemma {:induction false} WeighConcat(a: seq<Event>, b: seq<Event>, f: Scale)
    ensures Weigh(a + b, f) == Weigh(a, f) + Weigh(b, f)
  {
    if a == [] {
      assert a + b == b;
    } else {
      assert (a + b)[1..] == a[1..] + b;
      WeighConcat(a[1..], b, f);
    }
  }

  lemma WeighSplit(ev: seq<Event>, k: nat, f: Scale)
    requires k <= |ev|
    ensures Weigh(ev, f) == Weigh(ev[..k], f) + Weigh(ev[k..], f)
  {
    assert ev == ev[..k] + ev[k..];
    WeighConcat(ev[..k], ev[k..], f);
  }

  lemma {:induction false} WeighAtMost(ev: seq<Event>, f: Scale, g: Scale)
    requires forall i :: 0 <= i < |ev| ==> Weight(f, ev[i]) <= Weight(g, ev[i])
    ensures Weigh(ev, f) <= Weigh(ev, g)
  {
    if ev != [] { WeighAtMost(ev[1..], f, g); }
  }

  lemma {:induction false} WeighNothing(ev: seq<Event>)
    ensures Weigh(ev, Nothing) == 0
  {
    if ev != [] { WeighNothing(ev[1..]); }
  }

  lemma {:induction false} WeighPermutation(a: seq<Event>, b: seq<Event>, f: Scale)
    requires multiset(a) == multiset(b)
    ensures Weigh(a, f) == Weigh(b, f)
  {
    if a == [] {
      assert |multiset(b)| == |b|;
    } else {
      assert a == [a[0]] + a[1..] && a[0] in multiset(b);
      var i :| 0 <= i < |b| && b[i] == a[0];
      Sorting.RemoveOne(a, b, i);
      WeighPermutation(a[1..], b[..i] + b[i + 1..], f);
      WeighConcat(b[..i], b[i + 1..], f);
      WeighSplit(b, i, f);
      assert b[i..][1..] == b[i + 1..];
    }
  }

  /** Starts minus ends up to t is the depth at t; nothing is left over; and starts lead ends. */
  lemma {:induction false} EventsWeigh(ivs: seq<Span>, t: int)
    requires forall i :: 0 <= i < |ivs| ==> ivs[i].start < ivs[i].end
    ensures Weigh(EventsOf(ivs), UpTo(t)) == Depth(ivs, t)
    ensures Weigh(EventsOf(ivs), All) == 0
    ensures Weigh(EventsOf(ivs), BeforeStarts(t)) >= 0
  {
    if ivs != [] {
      var n := |ivs| - 1;
      var pair := [Event(ivs[n].start, 1), Event(ivs[n].end, -1)];
      EventsWeigh(ivs[..n], t);
      DepthLast(ivs, t);
      assert pair[1..][1..] == [];
      assert forall f :: Weigh(pair, f) == Weight(f, pair[0]) + (Weight(f, pair[1]) + Weigh([], f));
      WeighConcat(EventsOf(ivs[..n]), pair, UpTo(t));
      WeighConcat(EventsOf(ivs[..n]), pair, All);
      WeighConcat(EventsOf(ivs[..n]), pair, BeforeStarts(t));
    }
  }

  // ---------------------------------------------------------------- prefixes of the sorted events

  ghost predicate InOrder(ev: seq<Event>) {
    && (forall i, j :: 0 <= i < j < |ev| ==> EventOrder(ev[i], ev[j]))
    && (forall i :: 0 <= i < |ev| ==> ev[i].delta == 1 || ev[i].delta == -1)
  }

  /** Between two events the running count is the depth. */
  lemma CountIsDepth(ev: seq<Event>, k: nat, t: int)
    requires InOrder(ev) && k <= |ev|
    requires (k > 0 ==> ev[k - 1].when <= t) && (k < |ev| ==> t < ev[k].when)
    ensures Weigh(ev[..k], All) == Weigh(ev, UpTo(t))
  {
    WeighSplit(ev, k, UpTo(t));
    WeighAtMost(ev[..k], All, UpTo(t));
    WeighAtMost(ev[..k], UpTo(t), All);
    WeighAtMost(ev[k..], UpTo(t), Nothing);
    WeighAtMost(ev[k..], Nothing, UpTo(t));
    WeighNothing(ev[k..]);
  }

  /** Ends before starts keeps the running count from dipping below what must still be running. */
  lemma CountNotBelow(ev: seq<Event>, k: nat)
    requires InOrder(ev) && 0 < k <= |ev|
    ensures Weigh(ev[..k], All) >= Weigh(ev, BeforeStarts(ev[k - 1].when))
  {
    var f := BeforeStarts(ev[k - 1].when);
    WeighSplit(ev, k, f);
    WeighAtMost(ev[..k], f, All);
    WeighAtMost(ev[k..], f, Nothing);
    WeighNothing(ev[k..]);
  }

  /** Even between simultaneous events the running count never exceeds the depth of a real instant. */
  lemma CountNotAbove(ev: seq<Event>, k: nat)
    requires InOrder(ev) && 0 < k <= |ev|
    ensures var w := ev[k - 1].when;
            Weigh(ev[..k], All) <= Weigh(ev, UpTo(if ev[k - 1].delta == 1 then w else w - 1))
  {
    var w := ev[k - 1].when;
    var f := UpTo(if ev[k - 1].delta == 1 then w else w - 1);
    WeighSplit(ev, k, f);
    BeforeNotAbove(ev, k, f);
    AfterNotBelow(ev, k, f);
  }

  lemma BeforeNotAbove(ev: seq<Event>, k: nat, f: Scale)
    requires InOrder(ev) && 0 < k <= |ev|
    requires f == UpTo(if ev[k - 1].delta == 1 then ev[k - 1].when else ev[k - 1].when - 1)
    ensures Weigh(ev[..k], All) <= Weigh(ev[..k], f)
  {
    var before := ev[..k];
    forall i | 0 <= i < k ensures Weight(All, before[i]) <= Weight(f, before[i]) {
      if i < k - 1 { assert EventOrder(ev[i], ev[k - 1]); }
    }
    WeighAtMost(before, All, f);
  }

  lemma AfterNotBelow(ev: seq<Event>, k: nat, f: Scale)
    requires InOrder(ev) && 0 < k <= |ev|
    requires f == UpTo(if ev[k - 1].delta == 1 then ev[k - 1].when else ev[k - 1].when - 1)
    ensures 0 <= Weigh(ev[k..], f)
  {
    var after := ev[k..];
    forall i | 0 <= i < |after| ensures Weight(Nothing, after[i]) <= Weight(f, after[i]) {
      assert EventOrder(ev[k - 1], ev[k + i]);
    }
    WeighAtMost(after, Nothing, f);
    WeighNothing(after);
  }

  lemma {:induction false} EventsUpTo(ev: seq<Event>, t: int, n: nat) returns (k: nat)
    requires InOrder(ev) && n <= |ev| && (n < |ev| ==> t < ev[n].when)
    ensures k <= |ev| && (k > 0 ==> ev[k - 1].when <= t) && (k < |ev| ==> t < ev[k].when)
  {
    if n > 0 && t < ev[n - 1].when {
      k := EventsUpTo(ev, t, n - 1);
    } else {
      k := n;
    }
  }

  // ---------------------------------------------------------------- _occupancy

  /** `ev` are the events of the intervals, sorted. */
  ghost predicate Stands(ev: seq<Event>, ivs: seq<Span>, start: int, end: int) {
    && InOrder(ev) && Within(ivs, start, end)
    && (forall i :: 0 <= i < |ev| ==> start <= ev[i].when <= end)
    && (forall t :: Weigh(ev, UpTo(t)) == Depth(ivs, t))
    && (forall t :: Weigh(ev, BeforeStarts(t)) >= 0)
    && Weigh(ev, All) == 0
  }

  lemma {:induction false} EventsInWindow(ivs: seq<Span>, start: int, end: int)
    requires Within(ivs, start, end)
    ensures forall i :: 0 <= i < |EventsOf(ivs)| ==>
              start <= EventsOf(ivs)[i].when <= end && (EventsOf(ivs)[i].delta == 1 || EventsOf(ivs)[i].delta == -1)
  {
    if ivs != [] { EventsInWindow(ivs[..|ivs| - 1], start, end); }
  }

  lemma SortedEventsInWindow(ivs: seq<Span>, start: int, end: int)
    requires Within(ivs, start, end)
    ensures var ev := Sorting.Sort(EventsOf(ivs), EventOrder);
            && multiset(ev) == multiset(EventsOf(ivs)) && InOrder(ev)
            && forall i :: 0 <= i < |ev| ==> start <= ev[i].when <= end
  {
    var raw := EventsOf(ivs);
    var ev := Sorting.Sort(raw, EventOrder);
    Sorting.SortSorts(raw, EventOrder);
    EventsInWindow(ivs, start, end);
    forall i | 0 <= i < |ev| ensures start <= ev[i].when <= end && (ev[i].delta == 1 || ev[i].delta == -1) {
      assert ev[i] in multiset(raw);
    }
  }

  lemma SortedEventsStand(ivs: seq<Span>, start: int, end: int)
    requires Within(ivs, start, end)
    ensures Stands(Sorting.Sort(EventsOf(ivs), EventOrder), ivs, start, end)
  {
    var raw := EventsOf(ivs);
    var ev := Sorting.Sort(raw, EventOrder);
    SortedEventsInWindow(ivs, start, end);
    forall t ensures Weigh(ev, UpTo(t)) == Depth(ivs, t) && Weigh(ev, BeforeStarts(t)) >= 0 && Weigh(ev, All) == 0 {
      WeighPermutation(ev, raw, UpTo(t));
      WeighPermutation(ev, raw, BeforeStarts(t));
      WeighPermutation(ev, raw, All);
      EventsWeigh(ivs, t);
    }
  }
}
