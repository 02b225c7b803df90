/** The whole layout: every request's spans on the lines of their pids, with one slot record per
line; first as a function, then as the objects that are updated in place. */
module TraceLayout {
  import opened Wrappers
  import opened Layout
  import opened Spans

  /** Engine spans carry a numeric pid, the gateway's spans all share their own. */
  datatype Pid = Engine(number: int) | Gateway

  datatype Item = Item(pid: Pid, span: Span)

  /** The thread_name metadata of one line; lines count from 1. */
  datatype Slot = Slot(pid: Pid, line: int)

  datatype Board = Board(graph: map<Pid, seq<Line>>, slots: seq<Slot>)

  const Empty := Board(map[], [])

  function LinesOf(b: Board, p: Pid): seq<Line> {
    if p in b.graph then b.graph[p] else []
  }

  /** The line each pid's spans of the current request went to last. */
  type Status = map<Pid, int>

  predicate Fits(b: Board, status: Status) {
    forall p <- status :: 1 <= status[p] <= |LinesOf(b, p)|
  }

  function Sticky(b: Board, status: Status, p: Pid): (r: Option<nat>)
    requires Fits(b, status)
    ensures r.Some? ==> r.value < |LinesOf(b, p)|
  {
    if p in status then Some(status[p] - 1) else None
  }

  function LineFor(b: Board, status: Status, item: Item): (line: int)
    requires Fits(b, status)
    ensures 1 <= line <= |LinesOf(b, item.pid)| + 1
  {
    FindLine(LinesOf(b, item.pid), Sticky(b, status, item.pid), item.span) + 1
  }

  /** The line a span is to be given: on good lines the request's own line on that pid if it is clear for the
      span or the span has zero length, otherwise the first clear one. */
  predicate Ruled(b: Board, status: Status, item: Item, line: int) {
    var lines, p := LinesOf(b, item.pid), item.pid;
    AllGood(lines) && (p in status ==> 1 <= status[p] <= |lines|) ==>
      line >= 1 && RightLine(lines, if p in status then Some(status[p] - 1) else None, item.span, line - 1)
  }

  lemma LineIsRuled(b: Board, status: Status, item: Item)
    requires Fits(b, status)
    ensures Ruled(b, status, item, LineFor(b, status, item))
  {
    if AllGood(LinesOf(b, item.pid)) {
      ChoiceIsRight(LinesOf(b, item.pid), Sticky(b, status, item.pid), item.span);
    }
  }

  function Place(b: Board, status: Status, item: Item): Board
    requires Fits(b, status)
  {
    var lines, k := LinesOf(b, item.pid), LineFor(b, status, item) - 1;
    Board(b.graph[item.pid := PutOn(lines, k, item.span)],
          if k == |lines| then b.slots + [Slot(item.pid, k + 1)] else b.slots)
  }

  function PlaceRequest(b: Board, status: Status, items: seq<Item>): Board
    requires Fits(b, status)
    decreases |items|
  {
    if items == [] then b
    else
      PlaceRequest(Place(b, status, items[0]), status[items[0].pid := LineFor(b, status, items[0])], items[1..])
  }

  /** The line, and so the tid, each span of a request is given. */
  function LinesGiven(b: Board, status: Status, items: seq<Item>): seq<int>
    requires Fits(b, status)
    decreases |items|
  {
    if items == [] then []
    else
      var line := LineFor(b, status, items[0]);
      [line] + LinesGiven(Place(b, status, items[0]), status[items[0].pid := line], items[1..])
  }

  /** Requests one after the other; each starts without a line of its own. */
  function PlaceAll(b: Board, requests: seq<seq<Item>>): Board
    decreases |requests|
  {
    if requests == [] then b else PlaceAll(PlaceRequest(b, map[], requests[0]), requests[1..])
  }

  // ---------------------------------------------------------------- soundness of every layout

  function SlotCount(slots: seq<Slot>, s: Slot): nat {
    if slots == [] then 0 else SlotCount(slots[..|slots| - 1], s) + if slots[|slots| - 1] == s then 1 else 0
  }

  ghost predicate Sound(b: Board) {
    && (forall p <- b.graph :: AllGood(b.graph[p]))
    && forall p, k :: SlotCount(b.slots, Slot(p, k)) == if 1 <= k <= |LinesOf(b, p)| then 1 else 0
  }

  ghost predicate NonZeroItems(items: seq<Item>) {
    forall i :: 0 <= i < |items| ==> items[i].span.start != items[i].span.end
  }

  lemma PlaceKeeps(b: Board, status: Status, item: Item)
    requires Fits(b, status) && Sound(b) && item.span.start != item.span.end
    ensures Sound(Place(b, status, item))
  {
    var lines, k := LinesOf(b, item.pid), LineFor(b, status, item) - 1;
    var out := Place(b, status, item);
    PutKeeps(lines, Sticky(b, status, item.pid), item.span);
    assert AllGood(PutOn(lines, k, item.span));
    forall p, i ensures SlotCount(out.slots, Slot(p, i)) == if 1 <= i <= |LinesOf(out, p)| then 1 else 0 {
      assert SlotCount(b.slots, Slot(p, i)) == if 1 <= i <= |LinesOf(b, p)| then 1 else 0;
      if k == |lines| { assert out.slots[..|out.slots| - 1] == b.slots; }
    }
  }

  lemma {:induction false} PlaceRequestKeeps(b: Board, status: Status, items: seq<Item>)
    requires Fits(b, status) && Sound(b) && NonZeroItems(items)
    ensures Sound(PlaceRequest(b, status, items))
    decreases |items|
  {
    if items != [] {
      PlaceKeeps(b, status, items[0]);
      PlaceRequestKeeps(Place(b, status, items[0]), status[items[0].pid := LineFor(b, status, items[0])], items[1..]);
    }
  }

  /** Over any requests with any pids: every line is sorted and free of overlap, and the slot records
      are exactly lines 1..n of each pid, once each. */
  lemma {:induction false} LayoutIsSound(b: Board, requests: seq<seq<Item>>)
    requires Sound(b) && forall i :: 0 <= i < |requests| ==> NonZeroItems(requests[i])
    ensures Sound(PlaceAll(b, requests))
    decreases |requests|
  {
    if requests != [] {
      PlaceRequestKeeps(b, map[], requests[0]);
      LayoutIsSound(PlaceRequest(b, map[], requests[0]), requests[1..]);
    }
  }

  // ---------------------------------------------------------------- nothing is lost

  /** How often a span stands on the lines. */
  function Held(lines: seq<Line>, x: Span): nat {
    if lines == [] then 0 else multiset(lines[0])[x] + Held(lines[1..], x)
  }

  /** How often a span is given for a pid: by one item, a request, all requests. */
  function Once(item: Item, p: Pid, x: Span): nat {
    if item == Item(p, x) then 1 else 0
  }

  function Given(items: seq<Item>, p: Pid, x: Span): nat {
    if items == [] then 0 else Once(items[0], p, x) + Given(items[1..], p, x)
  }

  function AllGiven(requests: seq<seq<Item>>, p: Pid, x: Span): nat {
    if requests == [] then 0 else Given(requests[0], p, x) + AllGiven(requests[1..], p, x)
  }

  lemma InsertHolds(line: Line, span: Span, x: Span)
    ensures multiset(Insert(line, span))[x] == multiset(line)[x] + if span == x then 1 else 0
  {
    var i := Rank(line, Key(span.start, At(span.end)));
    assert line == line[..i] + line[i..];
  }

  lemma {:induction false} HeldUpdate(lines: seq<Line>, k: nat, line: Line, x: Span)
    requires k < |lines|
    ensures Held(lines[k := line], x) + multiset(lines[k])[x] == Held(lines, x) + multiset(line)[x]
  {
    if k == 0 {
      assert lines[k := line][1..] == lines[1..];
    } else {
      HeldUpdate(lines[1..], k - 1, line, x);
      assert lines[k := line][1..] == lines[1..][k - 1 := line];
    }
  }

  lemma {:induction false} HeldAppend(lines: seq<Line>, line: Line, x: Span)
    ensures Held(lines + [line], x) == Held(lines, x) + multiset(line)[x]
  {
    if lines == [] {
      assert (lines + [line])[1..] == [];
    } else {
      HeldAppend(lines[1..], line, x);
      assert (lines + [line])[1..] == lines[1..] + [line];
    }
  }

  lemma PutHolds(lines: seq<Line>, k: nat, span: Span, x: Span)
    requires k <= |lines|
    ensures Held(PutOn(lines, k, span), x) == Held(lines, x) + if span == x then 1 else 0
  {
    if k < |lines| {
      InsertHolds(lines[k], span, x);
      HeldUpdate(lines, k, Insert(lines[k], span), x);
    } else {
      InsertHolds([], span, x);
      HeldAppend(lines, Insert([], span), x);
    }
  }

  lemma PlaceChanges(b: Board, status: Status, item: Item, p: Pid)
    requires Fits(b, status)
    ensures LinesOf(Place(b, status, item), p)
         == if p == item.pid then PutOn(LinesOf(b, p), LineFor(b, status, item) - 1, item.span) else LinesOf(b, p)
  {}

  lemma PlaceHolds(b: Board, status: Status, item: Item, p: Pid, x: Span)
    requires Fits(b, status)
    ensures Held(LinesOf(Place(b, status, item), p), x) == Held(LinesOf(b, p), x) + Once(item, p, x)
  {
    PlaceChanges(b, status, item, p);
    if p == item.pid {
      PutHolds(LinesOf(b, p), LineFor(b, status, item) - 1, item.span, x);
    }
  }

  lemma {:induction false} RequestHolds(b: Board, status: Status, items: seq<Item>, p: Pid, x: Span)
    requires Fits(b, status)
    ensures Held(LinesOf(PlaceRequest(b, status, items), p), x) == Held(LinesOf(b, p), x) + Given(items, p, x)
    decreases |items|
  {
    if items != [] {
      PlaceHolds(b, status, items[0], p, x);
      var next := status[items[0].pid := LineFor(b, status, items[0])];
      assert Fits(Place(b, status, items[0]), next);
      RequestHolds(Place(b, status, items[0]), next, items[1..], p, x);
    }
  }

  /** The lines of a pid hold exactly the spans that were given for it, each as often as it was given. */
  lemma {:induction false} LayoutHoldsAll(b: Board, requests: seq<seq<Item>>, p: Pid, x: Span)
    ensures Held(LinesOf(PlaceAll(b, requests), p), x) == Held(LinesOf(b, p), x) + AllGiven(requests, p, x)
    decreases |requests|
  {
    if requests != [] {
      RequestHolds(b, map[], requests[0], p, x);
      LayoutHoldsAll(PlaceRequest(b, map[], requests[0]), requests[1..], p, x);
    }
  }

  // ---------------------------------------------------------------- the objects

  method BisectLeft(line: Line, key: Key) returns (r: nat)
    requires SortedLine(line)
    ensures r == Rank(line, key)
  {
    RankSplits(line, key);
    var lo, hi := 0, |line|;
    while lo < hi
      invariant 0 <= lo <= Rank(line, key) <= hi <= |line|
    {
      var mid := (lo + hi) / 2;
      if Below(line[mid], key) {
        lo := mid + 1;
      } else {
        hi := mid;
      }
    }
    r := lo;
  }

  class SpanLayoutContainer {
    var intervals: Line

    constructor ()
      ensures intervals == []
    {
      intervals := [];
    }

    method CheckOverlap(span: Span) returns (overlap: bool)
      requires SortedLine(intervals)
      ensures overlap == Blocked(intervals, span)
      ensures Good(intervals) && span.start < span.end ==>
                (overlap <==> exists i :: 0 <= i < |intervals| && Meets(intervals[i], span))
    {
      if Good(intervals) && span.start < span.end { TestIsExact(intervals, span); }
      var idx := BisectLeft(intervals, Key(span.start, MinusInfinity));
      if idx > 0 {
        if intervals[idx - 1].end > span.start {
          return true;
        }
      }
      if idx < |intervals| {
        if intervals[idx].start < span.end {
          return true;
        }
      }
      return false;
    }

    method InsertSpan(span: Span)
      requires SortedLine(intervals)
      modifies `intervals
      ensures intervals == Insert(old(intervals), span) && SortedLine(intervals)
    {
      var idx := BisectLeft(intervals, Key(span.start, At(span.end)));
      InsertKeepsSorted(intervals, span);
      intervals := intervals[..idx] + [span] + intervals[idx..];
    }
  }

  /** Insertion by bisection keeps the list sorted even when the overlap test was skipped. */
  lemma InsertKeepsSorted(line: Line, span: Span)
    requires SortedLine(line)
    ensures SortedLine(Insert(line, span))
  {
    var r := Rank(line, Key(span.start, At(span.end)));
    RankSplits(line, Key(span.start, At(span.end)));
    forall i, j | 0 <= i < j < |line| + 1
      ensures var a, b := Insert(line, span)[i], Insert(line, span)[j];
              a.start < b.start || (a.start == b.start && a.end <= b.end)
    {
      InsertedAt(line, span, r, i);
      InsertedAt(line, span, r, j);
    }
  }

  lemma InsertedAt(line: Line, span: Span, r: nat, i: nat)
    requires r == Rank(line, Key(span.start, At(span.end))) && i <= |line|
    ensures |Insert(line, span)| == |line| + 1
    ensures Insert(line, span)[i] == if i < r then line[i] else if i == r then span else line[i - 1]
  {}

  /** The board after a line has been chosen and, if need be, opened. */
  function Open(b: Board, p: Pid, line: int): Board
    requires 1 <= line <= |LinesOf(b, p)| + 1
  {
    if line <= |LinesOf(b, p)| then b
    else Board(b.graph[p := LinesOf(b, p) + [[]]], b.slots + [Slot(p, line)])
  }

  lemma OpenElsewhere(b: Board, p: Pid, line: int, s: Slot)
    requires line == |LinesOf(b, p)| + 1
    ensures var r := Open(b, p, line);
            && |LinesOf(r, s.pid)| == |LinesOf(b, s.pid)| + (if s.pid == p then 1 else 0)
            && (1 <= s.line <= |LinesOf(b, s.pid)| ==> LinesOf(r, s.pid)[s.line - 1] == LinesOf(b, s.pid)[s.line - 1])
            && LinesOf(r, p)[line - 1] == []
  {}

  ghost predicate Counted(b: Board, count: map<Pid, nat>) {
    count.Keys == b.graph.Keys && forall p <- count :: count[p] == |b.graph[p]|
  }

  /** The slots are lines 1..n of each pid. */
  ghost predicate SlotsOf(b: Board, slots: set<Slot>) {
    forall s: Slot :: s in slots <==> 1 <= s.line <= |LinesOf(b, s.pid)|
  }

  lemma OpenSlots(b: Board, p: Pid, line: int, slots: set<Slot>)
    requires SlotsOf(b, slots) && line == |LinesOf(b, p)| + 1
    ensures SlotsOf(Open(b, p, line), slots + {Slot(p, line)})
  {
    forall s: Slot ensures s in slots + {Slot(p, line)} <==> 1 <= s.line <= |LinesOf(Open(b, p, line), s.pid)| {
      OpenElsewhere(b, p, line, s);
    }
  }

  lemma InsertSlots(b: Board, slot: Slot, span: Span, slots: set<Slot>)
    requires SlotsOf(b, slots) && 1 <= slot.line <= |LinesOf(b, slot.pid)|
    ensures SlotsOf(InsertAt(b, slot, span), slots)
  {
    forall s: Slot ensures s in slots <==> 1 <= s.line <= |LinesOf(InsertAt(b, slot, span), s.pid)| {
      InsertAtElsewhere(b, slot, span, s);
    }
  }

  lemma InsertCounts(b: Board, slot: Slot, span: Span, count: map<Pid, nat>)
    requires Counted(b, count) && 1 <= slot.line <= |LinesOf(b, slot.pid)|
    ensures Counted(InsertAt(b, slot, span), count)
  {}

  lemma OpenCounts(b: Board, count: map<Pid, nat>, p: Pid, line: int)
    requires Counted(b, count) && line == |LinesOf(b, p)| + 1
    ensures Counted(Open(b, p, line), count[p := line])
  {}

  function InsertAt(b: Board, slot: Slot, span: Span): Board
    requires 1 <= slot.line <= |LinesOf(b, slot.pid)|
  {
    var lines, k := LinesOf(b, slot.pid), slot.line - 1;
    Board(b.graph[slot.pid := lines[k := Insert(lines[k], span)]], b.slots)
  }

  lemma InsertAtElsewhere(b: Board, slot: Slot, span: Span, s: Slot)
    requires 1 <= slot.line <= |LinesOf(b, slot.pid)|
    ensures var r := InsertAt(b, slot, span);
            && |LinesOf(r, s.pid)| == |LinesOf(b, s.pid)| && (s.pid in r.graph <==> s.pid in b.graph)
            && (1 <= s.line <= |LinesOf(b, s.pid)| ==>
                  LinesOf(r, s.pid)[s.line - 1]
                  == if s == slot then Insert(LinesOf(b, s.pid)[s.line - 1], span) else LinesOf(b, s.pid)[s.line - 1])
  {}

  lemma PlaceIsOpenThenInsert(b: Board, status: Status, item: Item)
    requires Fits(b, status)
    ensures var line := LineFor(b, status, item);
            && line <= |LinesOf(Open(b, item.pid, line), item.pid)|
            && Place(b, status, item) == InsertAt(Open(b, item.pid, line), Slot(item.pid, line), item.span)
  {
    var lines, k := LinesOf(b, item.pid), LineFor(b, status, item) - 1;
    var o := LinesOf(Open(b, item.pid, k + 1), item.pid);
    assert PutOn(lines, k, item.span) == o[k := Insert(o[k], item.span)];
  }

  lemma PlaceNext(b: Board, status: Status, items: seq<Item>, i: nat)
    requires Fits(b, status) && i < |items|
    ensures var line := LineFor(b, status, items[i]);
            var next := status[items[i].pid := line];
            && Fits(Place(b, status, items[i]), next)
            && PlaceRequest(b, status, items[i..]) == PlaceRequest(Place(b, status, items[i]), next, items[i + 1..])
            && LinesGiven(b, status, items[i..])
               == [line] + LinesGiven(Place(b, status, items[i]), next, items[i + 1..])
  {
    assert items[i..][1..] == items[i + 1..];
  }

  lemma {:induction false} LinesGivenLength(b: Board, status: Status, items: seq<Item>)
    requires Fits(b, status)
    ensures |LinesGiven(b, status, items)| == |items|
    decreases |items|
  {
    if items != [] {
      var line := LineFor(b, status, items[0]);
      LinesGivenLength(Place(b, status, items[0]), status[items[0].pid := line], items[1..]);
    }
  }

  lemma {:induction false} PlaceAllThen(b: Board, requests: seq<seq<Item>>, items: seq<Item>)
    ensures PlaceAll(b, requests + [items]) == PlaceRequest(PlaceAll(b, requests), map[], items)
    decreases |requests|
  {
    var all := requests + [items];
    if requests == [] {
      assert all[1..] == [];
    } else {
      assert all[1..] == requests[1..] + [items];
      PlaceAllThen(PlaceRequest(b, map[], requests[0]), requests[1..], items);
    }
  }

  /** The lines each request's spans are given, on the board the earlier requests leave. */
  ghost predicate Chosen(requests: seq<seq<Item>>, chosen: seq<seq<int>>) {
    && |chosen| == |requests|
    && forall i :: 0 <= i < |requests| ==>
         |chosen[i]| == |requests[i]| && chosen[i] == LinesGiven(PlaceAll(Empty, requests[..i]), map[], requests[i])
  }

  /** The board after the first i requests, and the lines they were given. */
  ghost predicate PlacedSoFar(requests: seq<seq<Item>>, i: nat, chosen: seq<seq<int>>, b: Board)
    requires i <= |requests|
  {
    b == PlaceAll(Empty, requests[..i]) && Chosen(requests[..i], chosen)
  }

  lemma ChosenNext(requests: seq<seq<Item>>, items: seq<Item>, chosen: seq<seq<int>>)
    requires Chosen(requests, chosen)
    ensures Chosen(requests + [items], chosen + [LinesGiven(PlaceAll(Empty, requests), map[], items)])
  {
    var all := requests + [items];
    LinesGivenLength(PlaceAll(Empty, requests), map[], items);
    forall j | 0 <= j <= |requests| ensures all[..j] == requests[..j] {}
    assert requests[..|requests|] == requests;
  }

  lemma PlacedNext(requests: seq<seq<Item>>, i: nat, chosen: seq<seq<int>>, b: Board)
    requires i < |requests| && PlacedSoFar(requests, i, chosen, b)
    ensures PlacedSoFar(requests, i + 1, chosen + [LinesGiven(b, map[], requests[i])],
                        PlaceRequest(b, map[], requests[i]))
  {
    assert requests[..i + 1] == requests[..i] + [requests[i]];
    PlaceAllThen(Empty, requests[..i], requests[i]);
    ChosenNext(requests[..i], requests[i], chosen);
  }

  lemma PlacedAll(requests: seq<seq<Item>>, chosen: seq<seq<int>>, b: Board)
    requires PlacedSoFar(requests, |requests|, chosen, b)
    ensures b == PlaceAll(Empty, requests) && Chosen(requests, chosen)
  {
    assert requests[..|requests|] == requests;
  }

  lemma PlacedNone(requests: seq<seq<Item>>)
    ensures PlacedSoFar(requests, 0, [], Empty)
  {}

  /** Each line has a container of its own. */
  ghost predicate Separate(lines: map<Slot, SpanLayoutContainer>, slotOf: map<SpanLayoutContainer, Slot>,
                           repr: set<SpanLayoutContainer>)
  {
    forall s <- lines :: lines[s] in repr && lines[s] in slotOf && slotOf[lines[s]] == s
  }

  lemma OpenSeparate(lines: map<Slot, SpanLayoutContainer>, slotOf: map<SpanLayoutContainer, Slot>,
                     repr: set<SpanLayoutContainer>, slot: Slot, c: SpanLayoutContainer)
    requires Separate(lines, slotOf, repr) && c !in repr
    ensures Separate(lines[slot := c], slotOf[c := slot], repr + {c})
    ensures lines[slot := c].Keys == lines.Keys + {slot}
  {}

  /** The dictionary of dictionaries, flattened: `lines` maps a pid's line to its container, `count` is
      the number of lines of each pid. */
  class LayoutGraph {
    var lines: map<Slot, SpanLayoutContainer>
    var count: map<Pid, nat>
    var slots: seq<Slot>
    ghost var board: Board
    ghost var slotOf: map<SpanLayoutContainer, Slot>
    ghost var repr: set<SpanLayoutContainer>

    /** A pid's lines are numbered 1..n, and each has a container of its own. */
    ghost predicate Numbered()
      reads this
    {
      && Counted(board, count) && slots == board.slots
      && SlotsOf(board, lines.Keys)
      && Separate(lines, slotOf, repr)
    }

    ghost predicate Valid()
      reads this, repr
    {
      && Numbered()
      && forall s <- lines :: lines[s].intervals == LinesOf(board, s.pid)[s.line - 1] && SortedLine(lines[s].intervals)
    }

    constructor ()
      ensures Valid() && board == Empty && repr == {}
    {
      lines, count, slots := map[], map[], [];
      board, slotOf, repr := Empty, map[], {};
    }

    /** Adds an empty container as the next line of a pid. */
    method AddLine(slot: Slot, container: SpanLayoutContainer)
      requires Valid() && slot.line == |LinesOf(board, slot.pid)| + 1
      requires container !in repr && container.intervals == []
      modifies this
      ensures Valid() && board == Open(old(board), slot.pid, slot.line) && repr == old(repr) + {container}
    {
      ghost var was, all := board, lines;
      OpenCounts(board, count, slot.pid, slot.line);
      OpenSlots(board, slot.pid, slot.line, lines.Keys);
      OpenSeparate(lines, slotOf, repr, slot, container);
      lines := lines[slot := container];
      count := count[slot.pid := slot.line];
      slots := slots + [slot];
      slotOf, repr, board := slotOf[container := slot], repr + {container}, Open(board, slot.pid, slot.line);
      forall s | s in lines
        ensures lines[s].intervals == LinesOf(board, s.pid)[s.line - 1] && SortedLine(lines[s].intervals)
      {
        OpenElsewhere(was, slot.pid, slot.line, s);
        assert s == slot || (s in all && lines[s] == all[s]);
      }
    }

    method OpenLine(pid: Pid, line: int)
      requires Valid() && line == |LinesOf(board, pid)| + 1
      modifies this
      ensures Valid() && board == Open(old(board), pid, line)
      ensures fresh(repr - old(repr))
    {
      var container := new SpanLayoutContainer();
      AddLine(Slot(pid, line), container);
    }

    /** The first unblocked line of a pid, or the number of a line yet to be opened. */
    method ScanLines(pid: Pid, span: Span) returns (line: int)
      requires Valid()
      ensures line == Free(LinesOf(board, pid), span, 0) + 1
    {
      if pid !in count {
        return 1;
      }
      line := 1;
      assert count[pid] == |board.graph[pid]|;
      while line <= count[pid]
        invariant 1 <= line <= count[pid] + 1
        invariant Free(board.graph[pid], span, line - 1) == Free(board.graph[pid], span, 0)
      {
        var overlap := lines[Slot(pid, line)].CheckOverlap(span);
        if !overlap {
          return;
        }
        line := line + 1;
      }
    }

    /** The sticky line, the first unblocked line, or the number of a line yet to be opened. */
    method ChooseLine(status: Status, item: Item) returns (line: int)
      requires Valid() && Fits(board, status)
      ensures line == LineFor(board, status, item)
      ensures Ruled(board, status, item, line)
    {
      LineIsRuled(board, status, item);
      var pid, span := item.pid, item.span;
      if pid in status {
        line := status[pid];
        if span.start == span.end {
          return;
        }
        var overlap := lines[Slot(pid, line)].CheckOverlap(span);
        if !overlap {
          return;
        }
      }
      line := ScanLines(pid, span);
    }

    /** Chooses and if need be opens a line; returns it with the request's updated choices. */
    method FindLine(status: Status, item: Item) returns (line: int, next: Status)
      requires Valid() && Fits(board, status)
      modifies this
      ensures Valid() && fresh(repr - old(repr))
      ensures line == LineFor(old(board), status, item) && next == status[item.pid := line]
      ensures board == Open(old(board), item.pid, line)
    {
      line := ChooseLine(status, item);
      if item.pid !in count || line > count[item.pid] {
        OpenLine(item.pid, line);
      }
      next := status[item.pid := line];
    }

    method InsertOn(slot: Slot, span: Span)
      requires Valid() && slot in lines
      modifies this, repr`intervals
      ensures Valid() && repr == old(repr)
      ensures board == InsertAt(old(board), slot, span)
    {
      lines[slot].InsertSpan(span);
      assert forall s <- lines :: s != slot ==> lines[s].intervals == old(lines[s].intervals);
      ghost var was := board;
      InsertSlots(board, slot, span, lines.Keys);
      InsertCounts(board, slot, span, count);
      board := InsertAt(board, slot, span);
      forall s | s in lines ensures lines[s].intervals == LinesOf(board, s.pid)[s.line - 1] {
        InsertAtElsewhere(was, slot, span, s);
      }
    }

    method PlaceSpan(status: Status, item: Item) returns (line: int, next: Status)
      requires Valid() && Fits(board, status)
      modifies this, repr`intervals
      ensures Valid() && Fits(board, next) && fresh(repr - old(repr))
      ensures line == LineFor(old(board), status, item) && next == status[item.pid := line]
      ensures board == Place(old(board), status, item)
    {
      PlaceIsOpenThenInsert(board, status, item);
      line, next := FindLine(status, item);
      InsertOn(Slot(item.pid, line), item.span);
    }

    /** One request's spans, in order; returns the line each was given. */
    method PlaceRequestSpans(items: seq<Item>) returns (chosen: seq<int>)
      requires Valid()
      modifies this, repr`intervals
      ensures Valid() && board == PlaceRequest(old(board), map[], items)
      ensures chosen == LinesGiven(old(board), map[], items)
      ensures fresh(repr - old(repr))
    {
      var status: Status := map[];
      chosen := [];
      for i := 0 to |items|
        invariant Valid() && Fits(board, status)
        invariant chosen + LinesGiven(board, status, items[i..]) == LinesGiven(old(board), map[], items)
        invariant PlaceRequest(board, status, items[i..]) == PlaceRequest(old(board), map[], items)
        invariant fresh(repr - old(repr))
      {
        PlaceNext(board, status, items, i);
        var line;
        line, status := PlaceSpan(status, items[i]);
        chosen := chosen + [line];
      }
    }

    /** All requests, one after the other; returns the lines each was given. */
    method PlaceEach(requests: seq<seq<Item>>) returns (chosen: seq<seq<int>>)
      requires Valid() && board == Empty
      modifies this, repr`intervals
      ensures Valid() && board == PlaceAll(Empty, requests)
      ensures Chosen(requests, chosen)
    {
      chosen := [];
      PlacedNone(requests);
      for i := 0 to |requests|
        invariant Valid() && fresh(repr - old(repr))
        invariant PlacedSoFar(requests, i, chosen, board)
      {
        PlacedNext(requests, i, chosen, board);
        var lines := PlaceRequestSpans(requests[i]);
        chosen := chosen + [lines];
      }
      PlacedAll(requests, chosen, board);
    }

    /** Without zero-length spans the lines have no overlap and are numbered 1..n with one slot record each. */
    method PlaceRequests(requests: seq<seq<Item>>) returns (chosen: seq<seq<int>>)
      requires Valid() && board == Empty
      modifies this, repr`intervals
      ensures Valid() && board == PlaceAll(Empty, requests)
      ensures Chosen(requests, chosen)
      ensures (forall i :: 0 <= i < |requests| ==> NonZeroItems(requests[i])) ==> Sound(board)
    {
      if forall i :: 0 <= i < |requests| ==> NonZeroItems(requests[i]) {
        LayoutIsSound(Empty, requests);
      }
      chosen := PlaceEach(requests);
    }
  }
}
