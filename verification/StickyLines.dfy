/** Which line each span of a request gets, said on the lines themselves. */
module StickyLines {
  import opened Layout
  import opened Spans
  import opened TraceLayout

  /** The request's choices after the given items. */
  function StatusAfter(b: Board, status: Status, items: seq<Item>): Status
    requires Fits(b, status)
    decreases |items|
  {
    if items == [] then status
    else
      var line := LineFor(b, status, items[0]);
      StatusAfter(Place(b, status, items[0]), status[items[0].pid := line], items[1..])
  }

  lemma {:induction false} FitsAfter(b: Board, status: Status, items: seq<Item>)
    requires Fits(b, status)
    ensures Fits(PlaceRequest(b, status, items), StatusAfter(b, status, items))
    decreases |items|
  {
    if items != [] {
      FitsAfter(Place(b, status, items[0]), status[items[0].pid := LineFor(b, status, items[0])], items[1..]);
    }
  }

  lemma {:induction false} GivenAt(b: Board, status: Status, items: seq<Item>, j: nat)
    requires Fits(b, status) && j < |items| == |LinesGiven(b, status, items)|
    requires Fits(PlaceRequest(b, status, items[..j]), StatusAfter(b, status, items[..j]))
    ensures LinesGiven(b, status, items)[j]
         == LineFor(PlaceRequest(b, status, items[..j]), StatusAfter(b, status, items[..j]), items[j])
    decreases |items|
  {
    if j > 0 {
      var b', status' := Place(b, status, items[0]), status[items[0].pid := LineFor(b, status, items[0])];
      var rest, before := items[1..], items[..j];
      assert before[0] == items[0] && before[1..] == rest[..j - 1];
      assert LinesGiven(b, status, items)[j] == LinesGiven(b', status', rest)[j - 1];
      assert PlaceRequest(b, status, before) == PlaceRequest(b', status', rest[..j - 1]);
      GivenAt(b', status', rest, j - 1);
    }
  }

  lemma GivenPrefix(b: Board, status: Status, items: seq<Item>, i: nat, j: nat)
    requires Fits(b, status) && i < j <= |items|
    ensures |LinesGiven(b, status, items[..j])| == j && |LinesGiven(b, status, items)| == |items|
    ensures LinesGiven(b, status, items[..j])[i] == LinesGiven(b, status, items)[i]
  {
    assert items[..j][..i] == items[..i];
    LinesGivenLength(b, status, items);
    LinesGivenLength(b, status, items[..j]);
    FitsAfter(b, status, items[..i]);
    GivenAt(b, status, items, i);
    GivenAt(b, status, items[..j], i);
  }

  lemma {:induction false} SameChoice(b: Board, status: Status, items: seq<Item>, p: Pid)
    requires Fits(b, status) && forall k :: 0 <= k < |items| ==> items[k].pid != p
    ensures p in StatusAfter(b, status, items) <==> p in status
    ensures p in status ==> StatusAfter(b, status, items)[p] == status[p]
    decreases |items|
  {
    if items != [] {
      SameChoice(Place(b, status, items[0]), status[items[0].pid := LineFor(b, status, items[0])], items[1..], p);
    }
  }

  /** The choice for a pid is the line of the request's last span on it. */
  lemma {:induction false} LastChoice(b: Board, status: Status, items: seq<Item>, i: nat)
    requires Fits(b, status) && i < |items| == |LinesGiven(b, status, items)|
    requires forall k :: i < k < |items| ==> items[k].pid != items[i].pid
    ensures items[i].pid in StatusAfter(b, status, items)
    ensures StatusAfter(b, status, items)[items[i].pid] == LinesGiven(b, status, items)[i]
    decreases |items|
  {
    var b', status' := Place(b, status, items[0]), status[items[0].pid := LineFor(b, status, items[0])];
    var rest := items[1..];
    if i == 0 {
      SameChoice(b', status', rest, items[0].pid);
    } else {
      LastChoice(b', status', rest, i - 1);
    }
  }

  /** i is the position of the request's last span before span j on its pid. */
  predicate Previous(items: seq<Item>, i: nat, j: nat) {
    i < j < |items| && items[i].pid == items[j].pid && forall k :: i < k < j ==> items[k].pid != items[j].pid
  }

  /** What span j finds: the lines of its pid as the request's earlier spans left them. */
  function Found(b: Board, items: seq<Item>, j: nat): seq<Line>
    requires j < |items|
  {
    LinesOf(PlaceRequest(b, map[], items[..j]), items[j].pid)
  }

  lemma FoundIsGood(b: Board, items: seq<Item>, j: nat)
    requires Sound(b) && NonZeroItems(items) && j < |items|
    ensures AllGood(Found(b, items, j))
  {
    PlaceRequestKeeps(b, map[], items[..j]);
  }

  /** A request's first span on a pid gets the first clear line. */
  lemma FirstSpan(b: Board, items: seq<Item>, j: nat)
    requires Sound(b) && NonZeroItems(items) && j < |items|
    requires forall k :: 0 <= k < j ==> items[k].pid != items[j].pid
    ensures |LinesGiven(b, map[], items)| == |items| && LinesGiven(b, map[], items)[j] >= 1
    ensures FirstClear(Found(b, items, j), items[j].span, LinesGiven(b, map[], items)[j] - 1)
  {
    var before := items[..j];
    FoundIsGood(b, items, j);
    LinesGivenLength(b, map[], items);
    FitsAfter(b, map[], before);
    GivenAt(b, map[], items, j);
    SameChoice(b, map[], before, items[j].pid);
    LineIsRuled(PlaceRequest(b, map[], before), StatusAfter(b, map[], before), items[j]);
  }

  lemma ChoiceBefore(b: Board, items: seq<Item>, i: nat, j: nat)
    requires Previous(items, i, j)
    ensures |LinesGiven(b, map[], items)| == |items|
    ensures items[j].pid in StatusAfter(b, map[], items[..j])
    ensures StatusAfter(b, map[], items[..j])[items[j].pid] == LinesGiven(b, map[], items)[i]
  {
    GivenPrefix(b, map[], items, i, j);
    LastChoice(b, map[], items[..j], i);
  }

  /** The previous line if it is clear for the span, else the first clear line. */
  predicate PreviousOrFirst(lines: seq<Line>, previous: int, span: Span, line: int) {
    && 1 <= previous <= |lines| && 1 <= line
    && if Clear(lines[previous - 1], span) then line == previous else FirstClear(lines, span, line - 1)
  }

  lemma RuledByPrevious(b: Board, status: Status, item: Item)
    requires Fits(b, status) && AllGood(LinesOf(b, item.pid)) && item.pid in status
    requires item.span.start != item.span.end
    ensures PreviousOrFirst(LinesOf(b, item.pid), status[item.pid], item.span, LineFor(b, status, item))
  {
    LineIsRuled(b, status, item);
  }

  /** A later span gets the line of the previous one if that is clear for it, else the first clear line. */
  lemma LaterSpan(b: Board, items: seq<Item>, given: seq<int>, i: nat, j: nat)
    requires Sound(b) && NonZeroItems(items) && Previous(items, i, j)
    requires given == LinesGiven(b, map[], items) && |given| == |items|
    ensures PreviousOrFirst(Found(b, items, j), given[i], items[j].span, given[j])
  {
    FoundIsGood(b, items, j);
    ChoiceBefore(b, items, i, j);
    FitsAfter(b, map[], items[..j]);
    GivenAt(b, map[], items, j);
    RuledByPrevious(PlaceRequest(b, map[], items[..j]), StatusAfter(b, map[], items[..j]), items[j]);
  }

  /** Span j finds the line of the request's previous span on its pid, span i, clear. */
  ghost predicate FindsClear(b: Board, items: seq<Item>, given: seq<int>, i: nat, j: nat)
    requires i < j < |items| == |given|
  {
    1 <= given[i] <= |Found(b, items, j)| ==> Clear(Found(b, items, j)[given[i] - 1], items[j].span)
  }

  lemma SameAsPrevious(b: Board, items: seq<Item>, given: seq<int>, i: nat, j: nat)
    requires Sound(b) && NonZeroItems(items) && Previous(items, i, j)
    requires given == LinesGiven(b, map[], items) && |given| == |items| && FindsClear(b, items, given, i, j)
    ensures given[i] == given[j]
  {
    LaterSpan(b, items, given, i, j);
  }

  /** If every later span of a request on a pid finds the line of the previous one clear, all get one line. */
  lemma StaysOnLine(b: Board, items: seq<Item>, given: seq<int>, p: Pid, i: nat, j: nat)
    requires Sound(b) && NonZeroItems(items) && given == LinesGiven(b, map[], items) && |given| == |items|
    requires i <= j < |items| && items[i].pid == items[j].pid == p
    requires forall h: nat, k: nat :: Previous(items, h, k) && items[k].pid == p ==> FindsClear(b, items, given, h, k)
    ensures given[i] == given[j]
  {
    forall h: nat, k: nat | Previous(items, h, k) && items[k].pid == p ensures given[h] == given[k] {
      SameAsPrevious(b, items, given, h, k);
    }
    SameThroughout(items, given, p, i, j);
  }

  lemma {:induction false} SameThroughout(items: seq<Item>, given: seq<int>, p: Pid, i: nat, j: nat)
    requires |given| == |items| && i <= j < |items| && items[i].pid == items[j].pid == p
    requires forall h: nat, k: nat :: Previous(items, h, k) && items[k].pid == p ==> given[h] == given[k]
    ensures given[i] == given[j]
    decreases j
  {
    if i < j {
      var h := LastOn(items, i, j);
      SameThroughout(items, given, p, i, h);
    }
  }

  lemma LastOn(items: seq<Item>, i: nat, j: nat) returns (h: nat)
    requires i < j < |items| && items[i].pid == items[j].pid
    ensures i <= h && Previous(items, h, j)
  {
    h := j - 1;
    while items[h].pid != items[j].pid
      invariant i <= h < j
      invariant forall k :: h < k < j ==> items[k].pid != items[j].pid
      decreases h
    {
      h := h - 1;
    }
  }
}
