/** The in-place conversion of the span forest changes each span once, whatever the parent ids were. */
module SpanTraversal {
  import opened Wrappers
  import opened SpanForest
  import opened SpanParts

  // ---------------------------------------------------------------- __convert_to_perfetto_span

  /** The event of a span whose end was moved back by 1000 ns. */
  function EventOf(x: Node, end: int, pid: int, baseline: int): Option<Event> {
    Some(Event(x.start - baseline, end - x.start, pid, 0))
  }

  /** Converts the span and everything below it, each of them exactly once. */
  method Convert(all: seq<Node>, span: Node, pid: int, baseline: int, ghost d: nat)
    requires Distinct(all) && Linked(all) && span in all && AtDepth(all, span, d)
    modifies Sub(all, span)`end, Sub(all, span)`event
    ensures forall x <- Sub(all, span) :: x.end == old(x.end) - 1000 && x.event == EventOf(x, x.end, pid, baseline)
    decreases Sub(all, span), 0
  {
    ChildFacts(all, span, d);
    span.end := span.end - 1000;
    span.event := Some(Event(span.start - baseline, span.end - span.start, pid, 0));
    ConvertEach(all, span.child, pid, baseline, d + 1);
  }

  method ConvertEach(all: seq<Node>, spans: seq<Node>, pid: int, baseline: int, ghost d: nat)
    requires Distinct(all) && Linked(all) && Distinct(spans) && AllAtDepth(all, spans, d)
    modifies Below(all, spans, |spans|)`end, Below(all, spans, |spans|)`event
    ensures forall x <- Below(all, spans, |spans|) ::
              x.end == old(x.end) - 1000 && x.event == EventOf(x, x.end, pid, baseline)
    decreases Below(all, spans, |spans|), 1
  {
    ghost var part := Below(all, spans, |spans|);
    for i := 0 to |spans|
      invariant Linked(all)
      invariant forall x <- part ::
                  if x in Below(all, spans, i)
                  then x.end == old(x.end) - 1000 && x.event == EventOf(x, x.end, pid, baseline)
                  else x.end == old(x.end)
    {
      BelowStep(all, spans, i, d);
      Convert(all, spans[i], pid, baseline, d);
    }
  }

  // ---------------------------------------------------------------- generate_perfetto_span

  /** The event of a span is the one its own thread gives it. */
  ghost predicate DrawnBy(all: seq<Node>, threads: seq<Node>, x: Node, event: Option<Event>, end: int, baseline: int) {
    exists th <- threads :: x != th && x in Sub(all, th) && event == EventOf(x, end, th.threadPid, baseline)
  }

  /** One thread: the spans below it are converted with the thread's pid, the thread span itself is not. */
  method ConvertThread(all: seq<Node>, threads: seq<Node>, i: nat, baseline: int, ghost d: nat)
    requires Distinct(all) && Linked(all) && i < |threads| && AllAtDepth(all, threads, d)
    modifies (Sub(all, threads[i]) - {threads[i]})`end, (Sub(all, threads[i]) - {threads[i]})`event
    ensures forall x <- Sub(all, threads[i]) - {threads[i]} ::
              x.end == old(x.end) - 1000 && DrawnBy(all, threads, x, x.event, x.end, baseline)
  {
    var thread := threads[i];
    ChildFacts(all, thread, d);
    assert Below(all, thread.child, |thread.child|) == Sub(all, thread) - {thread};
    ConvertEach(all, thread.child, thread.threadPid, baseline, d + 1);
  }

  /** One root: everything below its threads is converted; the threads keep their times. */
  method ConvertThreads(all: seq<Node>, threads: seq<Node>, baseline: int, ghost d: nat)
    requires Distinct(all) && Linked(all) && Distinct(threads) && AllAtDepth(all, threads, d)
    modifies Inner(all, threads, |threads|)`end, Inner(all, threads, |threads|)`event
    ensures forall x <- Inner(all, threads, |threads|) ::
              x.end == old(x.end) - 1000 && DrawnBy(all, threads, x, x.event, x.end, baseline)
  {
    ghost var part := Inner(all, threads, |threads|);
    for i := 0 to |threads|
      invariant Linked(all)
      invariant forall x <- part ::
                  if x in Inner(all, threads, i)
                  then x.end == old(x.end) - 1000 && DrawnBy(all, threads, x, x.event, x.end, baseline)
                  else x.end == old(x.end)
    {
      InnerStep(all, threads, i, d);
      ConvertThread(all, threads, i, baseline, d);
    }
  }

  /** The span's event carries its own times and the pid of the thread span above it, under its root. */
  ghost predicate Drawn(all: seq<Node>, x: Node, event: Option<Event>, end: int, baseline: int) {
    exists r :: r in all && r.isRoot && DrawnBy(all, ChildrenIn(all, all, r), x, event, end, baseline)
  }

  /** Counted from the baseline, the event runs from the one time to the other. */
  predicate Runs(event: Option<Event>, start: int, end: int, baseline: int) {
    && event.Some?
    && event.value.ts + baseline == start && event.value.ts + event.value.dur + baseline == end
  }

  lemma DrawnRuns(all: seq<Node>, x: Node, event: Option<Event>, end: int, baseline: int)
    requires Drawn(all, x, event, end, baseline)
    ensures Runs(event, x.start, end, baseline)
    ensures exists r, th :: r in all && r.isRoot && Parent(all, th) == Some(r) && x != th && x in Sub(all, th)
                            && event.value.pid == th.threadPid
  {
    var r :| r in all && r.isRoot && DrawnBy(all, ChildrenIn(all, all, r), x, event, end, baseline);
    var th :| th in ChildrenIn(all, all, r) && x != th && x in Sub(all, th)
              && event == EventOf(x, end, th.threadPid, baseline);
    ChildMember(all, all, r, th);
  }

  method ConvertRoot(all: seq<Node>, root: Node, baseline: int)
    requires Distinct(all) && Linked(all) && root in all && root.isRoot
    modifies Sub(all, root)`end, Sub(all, root)`event
    ensures forall x <- Sub(all, root) ::
              if Shown(all, x)
              then x.end == old(x.end) - 1000 && Drawn(all, x, x.event, x.end, baseline)
              else x.end == old(x.end) && x.event == old(x.event)
  {
    ChildFacts(all, root, 0);
    DeepIsBelow(all, root, 0);
    forall x | x in Sub(all, root) ensures Shown(all, x) <==> Deep(all, x, root) { ShownUnder(all, root, x); }
    ConvertThreads(all, root.child, baseline, 1);
  }

  /** Every span two or more steps below a root is converted exactly once; all others, such as spans on parent
      cycles, keep their end and event. */
  method ConvertRoots(all: seq<Node>, roots: seq<Node>, baseline: int)
    requires Distinct(all) && Linked(all) && roots == RootsIn(all)
    modifies (set x | x in all)`end, (set x | x in all)`event
    ensures forall x <- all ::
              if Shown(all, x) then x.end == old(x.end) - 1000 && Drawn(all, x, x.event, x.end, baseline)
              else x.end == old(x.end) && x.event == old(x.event)
  {
    RootFacts(all);
    for i := 0 to |roots|
      invariant Linked(all)
      invariant forall x <- Below(all, roots, i) ::
                  if Shown(all, x) then x.end == old(x.end) - 1000 && Drawn(all, x, x.event, x.end, baseline)
                  else x.end == old(x.end) && x.event == old(x.event)
      invariant forall x <- all :: x !in Below(all, roots, i) ==> x.end == old(x.end) && x.event == old(x.event)
    {
      BelowSeparate(all, roots, i, 0);
      ConvertRoot(all, roots[i], baseline);
    }
  }

  /** The children of a root's threads, appended thread by thread. */
  method ListRoot(all: seq<Node>, root: Node) returns (spans: seq<Node>)
    requires Linked(all) && root in all
    ensures spans == SpansUnder(all, root)
  {
    spans := [];
    var threads := root.child;
    ghost var kids := Kids(all, threads);
    for i := 0 to |threads|
      invariant spans == Flat(kids[..i])
    {
      ChildMember(all, all, root, threads[i]);
      assert kids[..i + 1][..i] == kids[..i];
      spans := spans + threads[i].child;
    }
    assert kids[..|threads|] == kids;
  }

  method ListRoots(all: seq<Node>, roots: seq<Node>) returns (lists: seq<seq<Node>>)
    requires Linked(all) && roots == RootsIn(all)
    ensures |lists| == |roots| && forall i :: 0 <= i < |roots| ==> lists[i] == SpansUnder(all, roots[i])
  {
    forall r | r in roots ensures r in all { RootMember(all, r); }
    lists := [];
    for i := 0 to |roots|
      invariant |lists| == i && forall j :: 0 <= j < i ==> lists[j] == SpansUnder(all, roots[j])
    {
      var spans := ListRoot(all, roots[i]);
      lists := lists + [spans];
    }
  }

  /** Each span two or more steps below a root is converted once, all others keep end and event, and each root's
      list of spans is returned: over all roots no span is listed twice. */
  method GenerateSpans(all: seq<Node>, roots: seq<Node>, baseline: int) returns (lists: seq<seq<Node>>)
    requires Distinct(all) && Linked(all) && roots == RootsIn(all)
    modifies (set x | x in all)`end, (set x | x in all)`event
    ensures Lists(all, roots, lists) && Distinct(Flat(lists)) && AllAtDepth(all, Flat(lists), 2)
    ensures forall i :: 0 <= i < |roots| ==> lists[i] == SpansUnder(all, roots[i])
    ensures forall x <- all ::
              if Shown(all, x) then x.end == old(x.end) - 1000 && Drawn(all, x, x.event, x.end, baseline)
              else x.end == old(x.end) && x.event == old(x.event)
  {
    ConvertRoots(all, roots, baseline);
    lists := ListRoots(all, roots);
    ListedOnce(all, roots, lists);
  }

  /** Building and converting: from any list of spans, the end of each is moved back by 1000 ns once or not at all. */
  method BuildAndConvert(all: seq<Node>, baseline: int) returns (roots: seq<Node>, lists: seq<seq<Node>>)
    requires Distinct(all)
    modifies (set x | x in all)`child, (set x | x in all)`end, (set x | x in all)`event
    ensures Linked(all) && roots == RootsIn(all) && Lists(all, roots, lists)
    ensures forall i :: 0 <= i < |roots| ==> lists[i] == SpansUnder(all, roots[i])
    ensures forall x <- all ::
              if Shown(all, x) then x.end == old(x.end) - 1000 && Drawn(all, x, x.event, x.end, baseline)
              else x.end == old(x.end) && x.event == old(x.event)
  {
    roots := BuildTree(all);
    lists := GenerateSpans(all, roots, baseline);
  }
}
