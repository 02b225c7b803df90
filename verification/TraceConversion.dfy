/** The whole conversion of a trace's engine spans: link, convert, lay out, gather. */
module TraceConversion {
  import opened SpanForest
  import opened SpanParts
  import opened SpanTraversal
  import opened SpanDrawing
  import opened Spans
  import opened TraceLayout
  import Sorting

  // ---------------------------------------------------------------- the order of the layout

  function StartOf(x: Node): int { x.start }

  function StartsNoLater(a: Node, b: Node): bool { a.start <= b.start }

  function FirstStart(spans: seq<Node>): int { if spans == [] then 0 else spans[0].start }

  function FirstNoLater(a: seq<Node>, b: seq<Node>): bool { FirstStart(a) <= FirstStart(b) }

  method SortList(spans: seq<Node>) returns (sorted: seq<Node>)
    ensures multiset(sorted) == multiset(spans) && Sorting.Ascending(sorted, StartOf) && |sorted| == |spans|
    ensures forall k :: Sorting.WithKey(sorted, StartOf, k) == Sorting.WithKey(spans, StartOf, k)
  {
    sorted := Sorting.Sort(spans, StartsNoLater);
    Sorting.SortHolds(spans, StartsNoLater);
    Sorting.SortByKey(spans, StartsNoLater, StartOf);
    Sorting.SameLength(sorted, spans);
    forall k ensures Sorting.WithKey(sorted, StartOf, k) == Sorting.WithKey(spans, StartOf, k) {
      Sorting.SortIsStable(spans, StartsNoLater, StartOf, k);
    }
  }

  /** Each root's list by start. */
  method SortEach(lists: seq<seq<Node>>) returns (sorted: seq<seq<Node>>)
    ensures |sorted| == |lists|
    ensures forall i :: 0 <= i < |lists| ==>
              multiset(sorted[i]) == multiset(lists[i]) && |sorted[i]| == |lists[i]|
              && Sorting.Ascending(sorted[i], StartOf)
  {
    sorted := [];
    for i := 0 to |lists|
      invariant |sorted| == i
      invariant forall j :: 0 <= j < i ==>
                  multiset(sorted[j]) == multiset(lists[j]) && |sorted[j]| == |lists[j]|
                  && Sorting.Ascending(sorted[j], StartOf)
    {
      var next := SortList(lists[i]);
      sorted := sorted + [next];
    }
  }

  /** One list per root, each by start, and the lists by their first start. */
  ghost predicate InOrder(all: seq<Node>, queue: seq<seq<Node>>) {
    && |queue| == |RootsIn(all)| && Sorting.Ascending(queue, FirstStart)
    && forall spans <- queue :: Sorting.Ascending(spans, StartOf)
         && exists r <- RootsIn(all) :: multiset(spans) == multiset(SpansUnder(all, r))
  }

  lemma QueueInOrder(all: seq<Node>, sorted: seq<seq<Node>>, queue: seq<seq<Node>>)
    requires Lists(all, RootsIn(all), sorted) && forall i :: 0 <= i < |sorted| ==> Sorting.Ascending(sorted[i], StartOf)
    requires multiset(queue) == multiset(sorted) && Sorting.Ascending(queue, FirstStart)
    ensures InOrder(all, queue)
  {
    Sorting.SameLength(queue, sorted);
    forall spans | spans in queue
      ensures Sorting.Ascending(spans, StartOf)
      ensures exists r <- RootsIn(all) :: multiset(spans) == multiset(SpansUnder(all, r))
    {
      assert spans in multiset(queue);
      var i :| 0 <= i < |sorted| && sorted[i] == spans;
      assert RootsIn(all)[i] in RootsIn(all);
    }
  }

  /** The lists in the order in which their requests are laid out. */
  lemma QueueFacts(all: seq<Node>, roots: seq<Node>, sorted: seq<seq<Node>>)
    requires Distinct(all) && roots == RootsIn(all) && Lists(all, roots, sorted)
    ensures var queue := Sorting.Sort(sorted, FirstNoLater);
            && multiset(queue) == multiset(sorted) && Sorting.Ascending(queue, FirstStart)
            && Apart(all, queue, 2)
            && (forall x <- all :: x in Below(all, Flat(queue), |Flat(queue)|) <==> Shown(all, x))
            && (forall i, x :: 0 <= i < |queue| && x in all && x in queue[i] ==> Shown(all, x))
  {
    var queue := Sorting.Sort(sorted, FirstNoLater);
    Sorting.SortHolds(sorted, FirstNoLater);
    Sorting.SortByKey(sorted, FirstNoLater, FirstStart);
    ListedOnce(all, roots, sorted);
    FlatPermutation(queue, sorted);
    Reordered(all, Flat(queue), Flat(sorted), 2);
    FlatIsApart(all, queue, 2);
    forall i, x | 0 <= i < |queue| && x in all && x in queue[i] ensures Shown(all, x) {
      OwnPart(all, queue[i], x);
      FlatBelow(all, queue, x);
    }
  }

  // ---------------------------------------------------------------- what is laid out

  /** The items of listed spans: their pids, and their intervals with the trimmed ends. */
  ghost predicate Asks(spans: seq<Node>, items: seq<Item>, events: Events)
    reads (set x | x in spans)`end
  {
    && |items| == |spans|
    && forall i :: 0 <= i < |spans| ==>
         && spans[i] in events && events[spans[i]].Some?
         && items[i] == Item(Engine(events[spans[i]].value.pid), Span(spans[i].start, spans[i].end))
  }

  method MakeItems(spans: seq<Node>, ghost events: Events) returns (items: seq<Item>)
    requires forall i :: 0 <= i < |spans| ==>
               spans[i].event.Some? && spans[i] in events && events[spans[i]] == spans[i].event
    ensures Asks(spans, items, events)
  {
    items := [];
    for i := 0 to |spans|
      invariant Asks(spans[..i], items, events)
    {
      var x := spans[i];
      items := items + [Item(Engine(x.event.value.pid), Span(x.start, x.end))];
    }
    assert spans[..|spans|] == spans;
  }

  lemma ListedConverted(all: seq<Node>, lists: seq<seq<Node>>, d: nat)
    requires Apart(all, lists, d) && Converted(all, Flat(lists))
    ensures forall i, j :: 0 <= i < |lists| && 0 <= j < |lists[i]| ==> lists[i][j] in all && lists[i][j].event.Some?
  {
    forall i, j | 0 <= i < |lists| && 0 <= j < |lists[i]| ensures lists[i][j] in all && lists[i][j].event.Some? {
      OwnPart(all, lists[i], lists[i][j]);
      FlatBelow(all, lists, lists[i][j]);
    }
  }

  method MakeRequests(all: seq<Node>, lists: seq<seq<Node>>, ghost events: Events, ghost d: nat)
    returns (requests: seq<seq<Item>>)
    requires Apart(all, lists, d) && Converted(all, Flat(lists)) && Current(all, events)
    ensures |requests| == |lists| && forall i :: 0 <= i < |lists| ==> Asks(lists[i], requests[i], events)
  {
    ListedConverted(all, lists, d);
    requests := [];
    for i := 0 to |lists|
      invariant |requests| == i && forall j :: 0 <= j < i ==> Asks(lists[j], requests[j], events)
    {
      var items := MakeItems(lists[i], events);
      requests := requests + [items];
    }
  }

  /** No listed span was left with zero length by the trim. */
  ghost predicate NoneEmpty(all: seq<Node>, lists: seq<seq<Node>>)
    reads (set x | x in all)`end
  {
    forall i, x :: 0 <= i < |lists| && x in all && x in lists[i] ==> x.start != x.end
  }

  lemma AsksNonZero(all: seq<Node>, lists: seq<seq<Node>>, requests: seq<seq<Item>>, events: Events, d: nat)
    requires |requests| == |lists| && forall i :: 0 <= i < |lists| ==> Asks(lists[i], requests[i], events)
    requires Apart(all, lists, d) && NoneEmpty(all, lists)
    ensures forall i :: 0 <= i < |requests| ==> NonZeroItems(requests[i])
  {
    forall i, j | 0 <= i < |requests| && 0 <= j < |requests[i]|
      ensures requests[i][j].span.start != requests[i][j].span.end
    {
      assert Asks(lists[i], requests[i], events);
      assert AllAtDepth(all, lists[i], d) && lists[i][j] in lists[i];
    }
  }

  // ---------------------------------------------------------------- the passes together

  /** Sorts every root's list by start and then the lists by their first span, which fails when a list is empty. */
  method OrderRequests(all: seq<Node>, roots: seq<Node>, lists: seq<seq<Node>>)
    returns (ok: bool, sorted: seq<seq<Node>>, queue: seq<seq<Node>>)
    requires Distinct(all) && roots == RootsIn(all) && Lists(all, roots, lists)
    ensures ok <==> forall i :: 0 <= i < |lists| ==> lists[i] != []
    ensures Lists(all, roots, sorted) && forall i :: 0 <= i < |sorted| ==> Sorting.Ascending(sorted[i], StartOf)
    ensures ok ==> multiset(queue) == multiset(sorted) && Sorting.Ascending(queue, FirstStart) && Apart(all, queue, 2)
    ensures ok ==> forall x <- all :: x in Below(all, Flat(queue), |Flat(queue)|) <==> Shown(all, x)
    ensures ok ==> forall i, x :: 0 <= i < |queue| && x in all && x in queue[i] ==> Shown(all, x)
  {
    sorted := SortEach(lists);
    queue := [];
    ok := forall i :: 0 <= i < |sorted| ==> sorted[i] != [];
    if ok {
      queue := Sorting.Sort(sorted, FirstNoLater);
      QueueFacts(all, roots, sorted);
    }
  }

  /** The board is that of the queue's requests, one request per list, and the lines are those it gives. */
  ghost predicate Placed(all: seq<Node>, queue: seq<seq<Node>>, requests: seq<seq<Item>>, lines: seq<seq<int>>,
                         before: Events, board: Board)
    requires forall i :: 0 <= i < |queue| ==> forall x <- queue[i] :: x in all
    reads (set x | x in all)`end
  {
    && |requests| == |queue| && board == PlaceAll(Empty, requests) && Chosen(requests, lines)
    && (forall i :: 0 <= i < |queue| ==> Asks(queue[i], requests[i], before) && |lines[i]| == |queue[i]|)
    && (NoneEmpty(all, queue) ==> Sound(board))
  }

  /** Each listed span, with all that is below it, is on the line given to it. */
  ghost predicate DrawnOn(all: seq<Node>, queue: seq<seq<Node>>, lines: seq<seq<int>>, before: Events)
    reads (set x | x in all)`event
  {
    |lines| == |queue|
    && forall i :: 0 <= i < |queue| ==> |lines[i]| == |queue[i]| && Redrawn(all, queue[i], lines[i], before)
  }

  /** Linked, converted spans with the given events. */
  ghost predicate Ready(all: seq<Node>, queue: seq<seq<Node>>, events: Events)
    reads (set x | x in all)`child, (set x | x in all)`event
  {
    Linked(all) && Converted(all, Flat(queue)) && Current(all, events)
  }

  /** The requests of the queue: what its spans ask for, of non-zero length if they are. */
  ghost predicate Requested(all: seq<Node>, queue: seq<seq<Node>>, requests: seq<seq<Item>>, events: Events)
    requires forall i :: 0 <= i < |queue| ==> forall x <- queue[i] :: x in all
    reads (set x | x in all)`end
  {
    && |requests| == |queue|
    && (forall i :: 0 <= i < |queue| ==> Asks(queue[i], requests[i], events))
    && (NoneEmpty(all, queue) ==> forall i :: 0 <= i < |requests| ==> NonZeroItems(requests[i]))
  }

  method RequestQueue(all: seq<Node>, queue: seq<seq<Node>>, ghost before: Events) returns (requests: seq<seq<Item>>)
    requires Apart(all, queue, 2) && Ready(all, queue, before)
    ensures Requested(all, queue, requests, before)
  {
    requests := MakeRequests(all, queue, before, 2);
    if NoneEmpty(all, queue) {
      AsksNonZero(all, queue, requests, before, 2);
    }
  }

  /** Placing the requests leaves the spans as they are. */
  method PlaceRequested(all: seq<Node>, queue: seq<seq<Node>>, requests: seq<seq<Item>>, g: LayoutGraph,
                        ghost before: Events)
    returns (lines: seq<seq<int>>)
    requires Apart(all, queue, 2) && Requested(all, queue, requests, before) && g.Valid() && g.board == Empty
    requires Ready(all, queue, before)
    modifies g, g.repr`intervals
    ensures g.Valid() && Placed(all, queue, requests, lines, before, g.board)
    ensures Ready(all, queue, before)
  {
    lines := g.PlaceRequests(requests);
  }

  /** Places the requests of the queue, one after the other. */
  method PlaceQueue(all: seq<Node>, queue: seq<seq<Node>>, g: LayoutGraph, ghost before: Events)
    returns (requests: seq<seq<Item>>, lines: seq<seq<int>>)
    requires Apart(all, queue, 2) && Ready(all, queue, before)
    requires g.Valid() && g.board == Empty
    modifies g, g.repr`intervals
    ensures g.Valid() && Placed(all, queue, requests, lines, before, g.board)
    ensures Ready(all, queue, before)
  {
    requests := RequestQueue(all, queue, before);
    lines := PlaceRequested(all, queue, requests, g, before);
  }

  /** Drawing changes events only: the layout stays as it is. */
  method DrawPlaced(all: seq<Node>, queue: seq<seq<Node>>, ghost requests: seq<seq<Item>>, lines: seq<seq<int>>,
                    g: LayoutGraph, ghost before: Events)
    requires Distinct(all) && Apart(all, queue, 2) && Ready(all, queue, before) && g.Valid()
    requires Placed(all, queue, requests, lines, before, g.board)
    modifies Below(all, Flat(queue), |Flat(queue)|)`event
    ensures g.Valid() && Placed(all, queue, requests, lines, before, g.board)
    ensures DrawnOn(all, queue, lines, before)
  {
    SetAllTids(all, queue, lines, 2, before);
  }

  /** Every span of the queue is laid out, and with all that is below it drawn on the line it was given. */
  method DrawQueue(all: seq<Node>, queue: seq<seq<Node>>, g: LayoutGraph, ghost before: Events)
    returns (requests: seq<seq<Item>>, lines: seq<seq<int>>)
    requires Distinct(all) && Apart(all, queue, 2) && Ready(all, queue, before)
    requires g.Valid() && g.board == Empty
    modifies g, g.repr`intervals, Below(all, Flat(queue), |Flat(queue)|)`event
    ensures g.Valid() && Placed(all, queue, requests, lines, before, g.board)
    ensures DrawnOn(all, queue, lines, before)
  {
    requests, lines := PlaceQueue(all, queue, g, before);
    DrawPlaced(all, queue, requests, lines, g, before);
  }

  /** The finished layout: disjoint lists with exactly what is shown below them, placed, and drawn on their lines. */
  ghost predicate LaidOut(all: seq<Node>, queue: seq<seq<Node>>, requests: seq<seq<Item>>, lines: seq<seq<int>>,
                          before: Events, board: Board)
    reads (set x | x in all)`event, (set x | x in all)`end
  {
    && Apart(all, queue, 2)
    && (forall x <- all :: x in Below(all, Flat(queue), |Flat(queue)|) <==> Shown(all, x))
    && Placed(all, queue, requests, lines, before, board)
    && DrawnOn(all, queue, lines, before)
  }

  /** The trim left no shown span with zero length. */
  ghost predicate AllLong(all: seq<Node>)
    reads (set x | x in all)`end
  {
    forall x <- all :: Shown(all, x) ==> x.start != x.end
  }

  /** A queue with exactly what is shown below it, laid out and drawn; nothing else is touched. */
  method DrawShown(all: seq<Node>, queue: seq<seq<Node>>, g: LayoutGraph, ghost before: Events)
    returns (requests: seq<seq<Item>>, lines: seq<seq<int>>)
    requires Distinct(all) && Linked(all) && Apart(all, queue, 2)
    requires forall x <- all :: x in Below(all, Flat(queue), |Flat(queue)|) <==> Shown(all, x)
    requires forall i, x :: 0 <= i < |queue| && x in all && x in queue[i] ==> Shown(all, x)
    requires forall x <- all :: Shown(all, x) ==> x.event.Some?
    requires g.Valid() && g.board == Empty && Current(all, before)
    modifies g, g.repr`intervals, (set x | x in all)`event
    ensures g.Valid() && LaidOut(all, queue, requests, lines, before, g.board)
    ensures AllLong(all) ==> Sound(g.board)
    ensures forall x <- all :: !Shown(all, x) ==> x.event == before[x]
  {
    requests, lines := DrawQueue(all, queue, g, before);
  }

  /** Layout of the converted spans; it fails, with nothing drawn, exactly when some root lists no span. */
  method LayoutEngineSpans(all: seq<Node>, roots: seq<Node>, lists: seq<seq<Node>>, g: LayoutGraph,
                           ghost before: Events)
    returns (ok: bool, sorted: seq<seq<Node>>, queue: seq<seq<Node>>, requests: seq<seq<Item>>, lines: seq<seq<int>>)
    requires Distinct(all) && Linked(all) && roots == RootsIn(all) && Lists(all, roots, lists)
    requires forall x <- all :: Shown(all, x) ==> x.event.Some?
    requires g.Valid() && g.board == Empty && Current(all, before)
    modifies g, g.repr`intervals, (set x | x in all)`event
    ensures g.Valid() && (ok <==> forall i :: 0 <= i < |lists| ==> lists[i] != [])
    ensures Lists(all, roots, sorted) && forall i :: 0 <= i < |sorted| ==> Sorting.Ascending(sorted[i], StartOf)
    ensures ok ==> multiset(queue) == multiset(sorted) && Sorting.Ascending(queue, FirstStart)
    ensures ok ==> InOrder(all, queue) && LaidOut(all, queue, requests, lines, before, g.board)
    ensures ok && AllLong(all) ==> Sound(g.board)
    ensures forall x <- all :: !ok || !Shown(all, x) ==> x.event == before[x]
  {
    requests, lines := [], [];
    ok, sorted, queue := OrderRequests(all, roots, lists);
    if ok {
      QueueInOrder(all, sorted, queue);
      requests, lines := DrawShown(all, queue, g, before);
    }
  }

  /** All passes but the last. */
  method ConvertAndLayout(all: seq<Node>, baseline: int, g: LayoutGraph)
    returns (ok: bool, sorted: seq<seq<Node>>, queue: seq<seq<Node>>, requests: seq<seq<Item>>, lines: seq<seq<int>>,
             roots: seq<Node>, ghost converted: Events)
    requires Distinct(all) && g.Valid() && g.board == Empty
    modifies g, g.repr`intervals, (set x | x in all)`child, (set x | x in all)`end, (set x | x in all)`event
    ensures Linked(all) && roots == RootsIn(all) && Lists(all, roots, sorted)
    ensures ok <==> forall r <- RootsIn(all) :: SpansUnder(all, r) != []
    ensures forall x <- all :: x.end == if Shown(all, x) then old(x.end) - 1000 else old(x.end)
    ensures forall x <- all :: x in converted && (Shown(all, x) ==> Drawn(all, x, converted[x], x.end, baseline))
    ensures forall x <- all :: !Shown(all, x) ==> x.event == old(x.event)
    ensures !ok ==> Current(all, converted)
    ensures ok ==> InOrder(all, queue) && LaidOut(all, queue, requests, lines, converted, g.board)
    ensures ok && AllLong(all) ==> Sound(g.board)
    ensures g.Valid()
  {
    var lists;
    roots, lists := BuildAndConvert(all, baseline);
    converted := EventsOf(all);
    ok, sorted, queue, requests, lines := LayoutEngineSpans(all, roots, lists, g, converted);
  }

  /** From any spans with any parent ids: each span two or more steps below a root has its end moved back once, gets
      an event with its thread's pid on the line given to the listed span above it, and is gathered once, with its
      instants and flows; no other span is touched or gathered; requests and their spans are laid out by start; and
      unless the trim leaves a span with zero length the lines have no overlap.
      Fails, with nothing laid out, exactly when some root lists no span.  `converted` are the events before layout. */
  method ConvertTrace(all: seq<Node>, baseline: int, g: LayoutGraph)
    returns (ok: bool, elems: seq<Element>, queue: seq<seq<Node>>, requests: seq<seq<Item>>, lines: seq<seq<int>>,
             ghost converted: Events)
    requires Distinct(all) && g.Valid() && g.board == Empty
    modifies g, g.repr`intervals, (set x | x in all)`child, (set x | x in all)`end, (set x | x in all)`event
    ensures ok <==> forall r <- RootsIn(all) :: SpansUnder(all, r) != []
    ensures forall x <- all :: x.end == if Shown(all, x) then old(x.end) - 1000 else old(x.end)
    ensures forall x <- all :: x in converted && (Shown(all, x) ==> Drawn(all, x, converted[x], x.end, baseline))
    ensures forall x <- all :: Shown(all, x) ==> Runs(converted[x], x.start, x.end, baseline)
    ensures forall x <- all :: !Shown(all, x) ==> x.event == old(x.event)
    ensures !ok ==> Current(all, converted)
    ensures ok ==> forall x <- all :: multiset(elems)[Slice(x)] == if Shown(all, x) then 1 else 0
    ensures ok ==> forall x <- all :: Shown(all, x) ==> exists i :: WrittenAt(elems, i, x)
    ensures ok ==> InOrder(all, queue) && LaidOut(all, queue, requests, lines, converted, g.board)
    ensures ok && AllLong(all) ==> Sound(g.board)
    ensures g.Valid()
  {
    var sorted, roots;
    ok, sorted, queue, requests, lines, roots, converted := ConvertAndLayout(all, baseline, g);
    forall x | x in all && Shown(all, x) ensures Runs(converted[x], x.start, x.end, baseline) {
      DrawnRuns(all, x, converted[x], x.end, baseline);
    }
    elems := [];
    if ok {
      elems := GatherAll(all, roots, sorted);
    }
  }

  /** A root by itself lists no span, so a trace that holds one cannot be laid out. */
  lemma LoneRootListsNothing(root: Node)
    requires root.isRoot
    ensures root in RootsIn([root]) && SpansUnder([root], root) == []
  {
    var all := [root];
    RootMember(all, root);
    assert all[..0] == [] && Parent(all, root).None?;
    assert ChildrenIn(all, all, root) == [];
  }
}
