/** Spans laid out in start order use exactly as many lines as are unavoidable. */
module LayoutOptimality {
  import opened Wrappers
  import opened Layout
  import Sorting
  import opened Spans

  function LinesDepth(lines: seq<Line>, t: int): nat {
    if lines == [] then 0 else Depth(lines[0], t) + LinesDepth(lines[1..], t)
  }

  ghost predicate Positive(spans: seq<Span>) {
    forall i :: 0 <= i < |spans| ==> spans[i].start < spans[i].end
  }

  function StartsFirst(a: Span, b: Span): bool {
    a.start <= b.start
  }

  // ---------------------------------------------------------------- counting live spans

  lemma DepthInsert(line: Line, span: Span, t: int)
    ensures Depth(Insert(line, span), t) == Depth(line, t) + (if LiveAt(span, t) then 1 else 0)
  {
    var i := Rank(line, Key(span.start, At(span.end)));
    DepthConcat(line[..i] + [span], line[i..], t);
    DepthConcat(line[..i], [span], t);
    DepthConcat(line[..i], line[i..], t);
    assert line == line[..i] + line[i..];
    assert Depth([span], t) == (if LiveAt(span, t) then 1 else 0) + Depth([], t);
  }

  lemma {:induction false} LinesDepthPut(lines: seq<Line>, k: nat, span: Span, t: int)
    requires k <= |lines|
    ensures LinesDepth(PutOn(lines, k, span), t) == LinesDepth(lines, t) + (if LiveAt(span, t) then 1 else 0)
  {
    if k == 0 || lines == [] {
      if lines == [] {
        DepthInsert([], span, t);
        assert PutOn(lines, k, span)[1..] == [];
      } else {
        DepthInsert(lines[0], span, t);
        assert PutOn(lines, k, span)[1..] == lines[1..];
      }
    } else {
      assert PutOn(lines, k, span)[1..] == PutOn(lines[1..], k - 1, span);
      LinesDepthPut(lines[1..], k - 1, span, t);
    }
  }

  lemma {:induction false} DepthZero(spans: seq<Span>, t: int)
    requires forall i :: 0 <= i < |spans| ==> !LiveAt(spans[i], t)
    ensures Depth(spans, t) == 0
  {
    if spans != [] { DepthZero(spans[1..], t); }
  }

  lemma {:induction false} DepthMember(spans: seq<Span>, i: nat, t: int)
    requires i < |spans| && LiveAt(spans[i], t)
    ensures Depth(spans, t) >= 1
  {
    if i > 0 { DepthMember(spans[1..], i - 1, t); }
  }

  lemma {:induction false} LineDepth(line: Line, t: int)
    requires Good(line)
    ensures Depth(line, t) <= 1
  {
    if line != [] {
      if LiveAt(line[0], t) {
        DepthZero(line[1..], t);
      } else {
        LineDepth(line[1..], t);
      }
    }
  }

  lemma {:induction false} LinesDepthBounds(lines: seq<Line>, t: int)
    requires AllGood(lines)
    ensures LinesDepth(lines, t) <= |lines|
    ensures (forall k :: 0 <= k < |lines| ==> Depth(lines[k], t) >= 1) ==> LinesDepth(lines, t) == |lines|
  {
    if lines != [] {
      LineDepth(lines[0], t);
      LinesDepthBounds(lines[1..], t);
    }
  }

  // ---------------------------------------------------------------- the greedy argument

  /** Everything placed so far starts no later than `span` and has positive length. */
  ghost predicate Earlier(lines: seq<Line>, span: Span) {
    forall k, i :: 0 <= k < |lines| && 0 <= i < |lines[k]| ==>
      lines[k][i].start <= span.start && lines[k][i].start < lines[k][i].end
  }

  /** A line that blocks the latest span is busy at that span's start. */
  lemma BlockedIsBusy(line: Line, span: Span)
    requires Good(line) && Blocked(line, span)
    requires forall i :: 0 <= i < |line| ==> line[i].start <= span.start && line[i].start < line[i].end
    ensures Depth(line, span.start) >= 1
  {
    var r := Rank(line, Key(span.start, MinusInfinity));
    RankSplits(line, Key(span.start, MinusInfinity));
    if r > 0 && line[r - 1].end > span.start {
      DepthMember(line, r - 1, span.start);
    } else {
      DepthMember(line, r, span.start);
    }
  }

  lemma EarlierAfterPut(lines: seq<Line>, k: nat, span: Span, next: Span)
    requires k <= |lines| && Earlier(lines, span) && span.start < span.end && span.start <= next.start
    ensures Earlier(PutOn(lines, k, span), next)
  {
    var out: seq<seq<Span>> := PutOn(lines, k, span);
    forall j, i | 0 <= j < |out| && 0 <= i < |out[j]|
      ensures out[j][i].start <= next.start && out[j][i].start < out[j][i].end
    {
      if j == k {
        var line := if k < |lines| then lines[k] else [];
        var r := Rank(line, Key(span.start, At(span.end)));
        assert out[j][i] == if i < r then line[i] else if i == r then span else line[i - 1];
      } else {
        assert out[j] == lines[j];
      }
    }
  }

  /** The lines hold exactly the spans done so far, one per instant and line, and as many lines as their peak. */
  ghost predicate Tracks(lines: seq<Line>, done: seq<Span>) {
    AllGood(lines) && IsPeak(done, |lines|) && forall t :: LinesDepth(lines, t) == Depth(done, t)
  }

  lemma DepthOneMore(done: seq<Span>, span: Span, t: int)
    ensures Depth(done + [span], t) == Depth(done, t) + (if LiveAt(span, t) then 1 else 0)
  {
    DepthConcat(done, [span], t);
    assert Depth([span], t) == (if LiveAt(span, t) then 1 else 0) + Depth([], t);
  }

  /** After a placement the lines hold the spans done, one per instant and line. */
  lemma TracksDepth(lines: seq<Line>, k: nat, done: seq<Span>, span: Span, t: int)
    requires k <= |lines| && LinesDepth(lines, t) == Depth(done, t) && AllGood(PutOn(lines, k, span))
    ensures LinesDepth(PutOn(lines, k, span), t) == Depth(done + [span], t) <= |PutOn(lines, k, span)|
  {
    LinesDepthPut(lines, k, span, t);
    DepthOneMore(done, span, t);
    LinesDepthBounds(PutOn(lines, k, span), t);
  }

  lemma AllBusy(lines: seq<Line>, span: Span)
    requires AllGood(lines) && Earlier(lines, span) && forall i :: 0 <= i < |lines| ==> Blocked(lines[i], span)
    ensures LinesDepth(lines, span.start) == |lines|
  {
    forall i | 0 <= i < |lines| ensures Depth(lines[i], span.start) >= 1 { BlockedIsBusy(lines[i], span); }
    LinesDepthBounds(lines, span.start);
  }

  /** A new line is opened only when all lines are busy at the start of the new span. */
  lemma PeakStep(lines: seq<Line>, sticky: Option<nat>, done: seq<Span>, span: Span)
    requires sticky.Some? ==> sticky.value < |lines|
    requires Tracks(lines, done) && Earlier(lines, span) && span.start < span.end
    ensures Tracks(PutOn(lines, FindLine(lines, sticky, span), span), done + [span])
  {
    var k := FindLine(lines, sticky, span);
    var out := PutOn(lines, k, span);
    PutKeeps(lines, sticky, span);
    forall t ensures LinesDepth(out, t) == Depth(done + [span], t) <= |out| {
      TracksDepth(lines, k, done, span, t);
    }
    if k < |lines| {
      var t :| Depth(done, t) == |lines|;
      DepthOneMore(done, span, t);
      assert Depth(done + [span], t) == |out|;
    } else {
      AllBusy(lines, span);
      DepthOneMore(done, span, span.start);
      assert Depth(done + [span], span.start) == |out|;
    }
  }

  ghost predicate InStartOrder(spans: seq<Span>) {
    forall i, j :: 0 <= i < j < |spans| ==> spans[i].start <= spans[j].start
  }

  lemma {:induction false} PlacePeak(lines: seq<Line>, sticky: Option<nat>, done: seq<Span>, rest: seq<Span>)
    requires sticky.Some? ==> sticky.value < |lines|
    requires Tracks(lines, done) && Positive(rest) && InStartOrder(rest)
    requires rest != [] ==> Earlier(lines, rest[0])
    ensures Tracks(PlaceOn(lines, sticky, rest), done + rest)
    decreases |rest|
  {
    if rest == [] {
      assert done + rest == done;
    } else {
      var k := FindLine(lines, sticky, rest[0]);
      PeakStep(lines, sticky, done, rest[0]);
      if |rest| > 1 { EarlierAfterPut(lines, k, rest[0], rest[1]); }
      var tail := rest[1..];
      assert InStartOrder(tail) && Positive(tail) && (tail != [] ==> tail[0] == rest[1]);
      assert done + [rest[0]] + tail == done + rest;
      PlacePeak(PutOn(lines, k, rest[0]), Some(k), done + [rest[0]], tail);
    }
  }

  // ---------------------------------------------------------------- gateway spans

  /** The gateway's spans: sorted by start, one shared sticky line, on lines of their own. */
  function GatewayLines(spans: seq<Span>): seq<Line> {
    PlaceOn([], None, Sorting.Sort(spans, StartsFirst))
  }

  lemma SortedByStart(spans: seq<Span>)
    requires Positive(spans)
    ensures var sorted := Sorting.Sort(spans, StartsFirst);
            multiset(sorted) == multiset(spans) && Positive(sorted) && InStartOrder(sorted)
  {
    var sorted := Sorting.Sort(spans, StartsFirst);
    Sorting.SortSorts(spans, StartsFirst);
    forall i | 0 <= i < |sorted| ensures sorted[i].start < sorted[i].end {
      assert sorted[i] in multiset(spans);
    }
    forall i, j | 0 <= i < j < |sorted| ensures sorted[i].start <= sorted[j].start {
      assert StartsFirst(sorted[i], sorted[j]);
    }
  }

  /** The number of lines opened is exactly the largest number of spans live at one instant. */
  lemma GatewayUsesPeakLines(spans: seq<Span>)
    requires Positive(spans)
    ensures IsPeak(spans, |GatewayLines(spans)|)
  {
    var sorted := Sorting.Sort(spans, StartsFirst);
    SortedByStart(spans);
    PlacePeak([], None, [], sorted);
    assert [] + sorted == sorted;
    forall t ensures Depth(sorted, t) == Depth(spans, t) { DepthOfPermutation(sorted, spans, t); }
    SamePeak(sorted, spans, |GatewayLines(spans)|);
  }

  /** An assignment of lines that never puts two spans of one instant on the same line. */
  ghost predicate Proper(spans: seq<Span>, line: seq<nat>) {
    && |spans| == |line|
    && forall i, j, t :: 0 <= i < j < |spans| && LiveAt(spans[i], t) && LiveAt(spans[j], t) ==> line[i] != line[j]
  }

  function LinesInUse(spans: seq<Span>, line: seq<nat>, t: int): set<nat>
    requires |spans| == |line|
  {
    if spans == [] then {}
    else (if LiveAt(spans[0], t) then {line[0]} else {}) + LinesInUse(spans[1..], line[1..], t)
  }

  lemma {:induction false} InUse(spans: seq<Span>, line: seq<nat>, t: int, x: nat)
    requires |spans| == |line| && x in LinesInUse(spans, line, t)
    ensures exists i :: 0 <= i < |spans| && LiveAt(spans[i], t) && line[i] == x
  {
    if !(LiveAt(spans[0], t) && line[0] == x) {
      InUse(spans[1..], line[1..], t, x);
      var i :| 0 <= i < |spans[1..]| && LiveAt(spans[1..][i], t) && line[1..][i] == x;
      assert LiveAt(spans[i + 1], t) && line[i + 1] == x;
    }
  }

  lemma ProperTail(spans: seq<Span>, line: seq<nat>)
    requires Proper(spans, line) && spans != []
    ensures Proper(spans[1..], line[1..])
  {
    forall i, j, t | 0 <= i < j < |spans[1..]| && LiveAt(spans[1..][i], t) && LiveAt(spans[1..][j], t)
      ensures line[1..][i] != line[1..][j]
    {
      assert LiveAt(spans[i + 1], t) && LiveAt(spans[j + 1], t);
    }
  }

  lemma {:induction false} DepthIsLinesInUse(spans: seq<Span>, line: seq<nat>, t: int)
    requires Proper(spans, line)
    ensures Depth(spans, t) == |LinesInUse(spans, line, t)|
  {
    if spans != [] {
      ProperTail(spans, line);
      DepthIsLinesInUse(spans[1..], line[1..], t);
      if LiveAt(spans[0], t) && line[0] in LinesInUse(spans[1..], line[1..], t) {
        InUse(spans[1..], line[1..], t, line[0]);
      }
    }
  }

  lemma {:induction false} SmallSet(a: set<nat>, n: nat)
    requires forall x <- a :: x < n
    ensures |a| <= n
  {
    if n > 0 {
      SmallSet(a - {n - 1}, n - 1);
    }
  }

  /** No layout of the same spans, however clever, gets by with fewer lines. */
  lemma NoFewerLines(spans: seq<Span>, line: seq<nat>, n: nat)
    requires Positive(spans) && Proper(spans, line) && forall i :: 0 <= i < |line| ==> line[i] < n
    ensures |GatewayLines(spans)| <= n
  {
    GatewayUsesPeakLines(spans);
    var d := |GatewayLines(spans)|;
    if d > 0 {
      var t :| Depth(spans, t) == d;
      DepthIsLinesInUse(spans, line, t);
      forall x <- LinesInUse(spans, line, t) ensures x < n { InUse(spans, line, t, x); }
      SmallSet(LinesInUse(spans, line, t), n);
    }
  }
}
