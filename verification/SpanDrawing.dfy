/** Laying the converted spans out and gathering them: every listed span, with all that is below it, is drawn on
one line and gathered once. */
module SpanDrawing {
  import opened Wrappers
  import opened SpanForest
  import opened SpanParts

  // ---------------------------------------------------------------- __set_span_tid

  type Events = map<Node, Option<Event>>

  /** The events as they are. */
  ghost predicate Current(all: seq<Node>, events: Events)
    reads (set x | x in all)`event
  {
    forall x <- all :: x in events && events[x] == x.event
  }

  ghost function EventsOf(all: seq<Node>): (r: Events)
    reads (set x | x in all)`event
    ensures Current(all, r)
  {
    map x | x in all :: x.event
  }

  /** The events of the part are converted ones, and as given. */
  ghost predicate AsGiven(part: set<Node>, before: Events)
    reads part`event
  {
    forall x <- part :: x.event.Some? && x in before && before[x] == x.event
  }

  /** The events of the part are as they were before, but on the line. */
  ghost predicate OnLine(part: set<Node>, line: int, before: Events)
    reads part`event
  {
    forall x <- part :: x in before && before[x].Some? && x.event == Some(before[x].value.(tid := line))
  }

  /** The whole part below a span is drawn on the span's line. */
  method SetTid(all: seq<Node>, span: Node, line: int, ghost d: nat, ghost before: Events)
    requires Distinct(all) && Linked(all) && span in all && AtDepth(all, span, d) && AsGiven(Sub(all, span), before)
    modifies Sub(all, span)`event
    ensures OnLine(Sub(all, span), line, before)
    decreases Sub(all, span), 0
  {
    ChildFacts(all, span, d);
    span.event := Some(span.event.value.(tid := line));
    SetTidEach(all, span.child, line, d + 1, before);
  }

  method SetTidNext(all: seq<Node>, spans: seq<Node>, i: nat, line: int, ghost d: nat, ghost before: Events)
    requires Distinct(all) && Linked(all) && Distinct(spans) && AllAtDepth(all, spans, d) && i < |spans|
    requires OnLine(Below(all, spans, i), line, before)
    requires AsGiven(Below(all, spans, |spans|) - Below(all, spans, i), before)
    modifies Below(all, spans, |spans|)`event
    ensures OnLine(Below(all, spans, i + 1), line, before)
    ensures AsGiven(Below(all, spans, |spans|) - Below(all, spans, i + 1), before)
    decreases Below(all, spans, |spans|), 1
  {
    BelowStep(all, spans, i, d);
    SetTid(all, spans[i], line, d, before);
  }

  method SetTidEach(all: seq<Node>, spans: seq<Node>, line: int, ghost d: nat, ghost before: Events)
    requires Distinct(all) && Linked(all) && Distinct(spans) && AllAtDepth(all, spans, d)
    requires AsGiven(Below(all, spans, |spans|), before)
    modifies Below(all, spans, |spans|)`event
    ensures OnLine(Below(all, spans, |spans|), line, before)
    decreases Below(all, spans, |spans|), 2
  {
    for i := 0 to |spans|
      invariant Linked(all)
      invariant OnLine(Below(all, spans, i), line, before)
      invariant AsGiven(Below(all, spans, |spans|) - Below(all, spans, i), before)
    {
      SetTidNext(all, spans, i, line, d, before);
    }
  }

  /** Each part has the events it had before, drawn on its own line. */
  ghost predicate Redrawn(all: seq<Node>, spans: seq<Node>, lines: seq<int>, before: Events)
    requires |lines| == |spans|
    reads (set x | x in all)`event
  {
    forall i, x :: 0 <= i < |spans| && x in all && x in Sub(all, spans[i]) ==>
      x in before && before[x].Some? && x.event == Some(before[x].value.(tid := lines[i]))
  }

  lemma PartsApart(all: seq<Node>, spans: seq<Node>, i: nat, j: nat, d: nat)
    requires i < |spans| && j < |spans| && i != j && Distinct(spans) && AllAtDepth(all, spans, d)
    ensures Sub(all, spans[i]) !! Sub(all, spans[j])
  {
    forall x | x in Sub(all, spans[i]) && x in Sub(all, spans[j]) ensures false {
      SubDisjoint(all, spans[i], spans[j], d, x);
    }
  }

  lemma PartIsBelow(all: seq<Node>, spans: seq<Node>, i: nat)
    requires i < |spans|
    ensures Sub(all, spans[i]) <= Below(all, spans, |spans|)
  {
    forall x | x in Sub(all, spans[i]) ensures x in Below(all, spans, |spans|) { BelowMember(all, spans, |spans|, x); }
  }

  method SetTids(all: seq<Node>, spans: seq<Node>, lines: seq<int>, ghost d: nat, ghost before: Events)
    requires Distinct(all) && Linked(all) && Distinct(spans) && AllAtDepth(all, spans, d) && |lines| == |spans|
    requires forall x <- Below(all, spans, |spans|) :: x.event.Some? && x in before && before[x] == x.event
    modifies Below(all, spans, |spans|)`event
    ensures Redrawn(all, spans, lines, before)
  {
    forall j | 0 <= j < |spans| ensures Sub(all, spans[j]) <= Below(all, spans, |spans|) { PartIsBelow(all, spans, j); }
    for i := 0 to |spans|
      invariant Linked(all)
      invariant forall j, x :: 0 <= j < i && x in all && x in Sub(all, spans[j]) ==>
                  x.event == Some(before[x].value.(tid := lines[j]))
      invariant forall j, x :: i <= j < |spans| && x in all && x in Sub(all, spans[j]) ==> x.event == before[x]
    {
      forall j | 0 <= j < |spans| && j != i ensures Sub(all, spans[i]) !! Sub(all, spans[j]) {
        PartsApart(all, spans, i, j, d);
      }
      SetTid(all, spans[i], lines[i], d, before);
    }
  }

  // ---------------------------------------------------------------- all requests

  /** All that is below the listed spans has been converted. */
  ghost predicate Converted(all: seq<Node>, spans: seq<Node>)
    reads (set x | x in all)`event
  {
    forall x <- Below(all, spans, |spans|) :: x.event.Some?
  }

  lemma ListsBelowApart(all: seq<Node>, lists: seq<seq<Node>>, i: nat, j: nat, d: nat)
    requires Apart(all, lists, d) && i < |lists| && j < |lists| && i != j
    ensures Below(all, lists[i], |lists[i]|) !! Below(all, lists[j], |lists[j]|)
  {
    forall x | x in Below(all, lists[i], |lists[i]|) && x in Below(all, lists[j], |lists[j]|) ensures false {
      BelowMember(all, lists[i], |lists[i]|, x);
      BelowMember(all, lists[j], |lists[j]|, x);
      var a :| 0 <= a < |lists[i]| && x in Sub(all, lists[i][a]);
      var b :| 0 <= b < |lists[j]| && x in Sub(all, lists[j][b]);
      assert lists[i][a] in lists[i] && lists[j][b] in lists[j];
      SubDisjoint(all, lists[i][a], lists[j][b], d, x);
    }
  }

  lemma ListIsBelow(all: seq<Node>, lists: seq<seq<Node>>, i: nat)
    requires i < |lists|
    ensures Below(all, lists[i], |lists[i]|) <= Below(all, Flat(lists), |Flat(lists)|)
  {
    forall x | x in Below(all, lists[i], |lists[i]|) ensures x in Below(all, Flat(lists), |Flat(lists)|) {
      FlatBelow(all, lists, x);
    }
  }

  /** Every span on every list, with all that is below it, is drawn on the line given to it. */
  method SetAllTids(all: seq<Node>, lists: seq<seq<Node>>, lines: seq<seq<int>>, ghost d: nat, ghost before: Events)
    requires Distinct(all) && Linked(all) && Apart(all, lists, d) && Converted(all, Flat(lists))
    requires |lines| == |lists| && forall i :: 0 <= i < |lists| ==> |lines[i]| == |lists[i]|
    requires forall x <- Below(all, Flat(lists), |Flat(lists)|) :: x in before && before[x] == x.event
    modifies Below(all, Flat(lists), |Flat(lists)|)`event
    ensures forall i :: 0 <= i < |lists| ==> Redrawn(all, lists[i], lines[i], before)
  {
    forall i | 0 <= i < |lists| ensures Below(all, lists[i], |lists[i]|) <= Below(all, Flat(lists), |Flat(lists)|) {
      ListIsBelow(all, lists, i);
    }
    for i := 0 to |lists|
      invariant Linked(all)
      invariant forall k :: 0 <= k < i ==> Redrawn(all, lists[k], lines[k], before)
      invariant forall k :: i <= k < |lists| ==> forall x <- Below(all, lists[k], |lists[k]|) :: x.event == before[x]
    {
      forall k | 0 <= k < |lists| && k != i
        ensures Below(all, lists[k], |lists[k]|) !! Below(all, lists[i], |lists[i]|)
      {
        ListsBelowApart(all, lists, k, i, d);
      }
      forall k, j | 0 <= k < |lists| && 0 <= j < |lists[k]|
        ensures Sub(all, lists[k][j]) <= Below(all, lists[k], |lists[k]|)
      {
        PartIsBelow(all, lists[k], j);
      }
      SetTids(all, lists[i], lines[i], d, before);
    }
  }

  // ---------------------------------------------------------------- __gather_one_span

  function ElementsOf(x: Node): seq<Element>
    reads x`instants, x`flows
  {
    [Slice(x)] + x.instants + x.flows
  }

  function Gathered(visited: seq<Node>): seq<Element>
    reads (set x | x in visited)`instants, (set x | x in visited)`flows
  {
    if visited == [] then []
    else
      var n := |visited| - 1;
      Gathered(visited[..n]) + ElementsOf(visited[n])
  }

  lemma {:induction false} GatheredConcat(a: seq<Node>, b: seq<Node>)
    ensures Gathered(a + b) == Gathered(a) + Gathered(b)
  {
    if b == [] {
      assert a + b == a;
    } else {
      var n := |b| - 1;
      assert (a + b)[..|a| + n] == a + b[..n];
      GatheredConcat(a, b[..n]);
    }
  }

  function Volume(visited: seq<Node>): nat
    reads (set x | x in visited)`instants, (set x | x in visited)`flows
  {
    if visited == [] then 0
    else
      var n := |visited| - 1;
      Volume(visited[..n]) + 1 + |visited[n].instants| + |visited[n].flows|
  }

  /** From position i the span is written, then its instants, then the flows that end at it. */
  ghost predicate WrittenAt(elems: seq<Element>, i: nat, x: Node)
    reads x`instants, x`flows
  {
    var j := i + 1 + |x.instants|;
    && j + |x.flows| <= |elems| && elems[i] == Slice(x)
    && elems[i + 1..j] == x.instants && elems[j..j + |x.flows|] == x.flows
  }

  lemma LastWritten(elems: seq<Element>, x: Node)
    ensures WrittenAt(elems + ElementsOf(x), |elems|, x)
  {}

  lemma WrittenStays(elems: seq<Element>, more: seq<Element>, i: nat, x: Node)
    requires WrittenAt(elems, i, x)
    ensures WrittenAt(elems + more, i, x)
  {
    var j := i + 1 + |x.instants|;
    assert (elems + more)[i + 1..j] == elems[i + 1..j];
    assert (elems + more)[j..j + |x.flows|] == elems[j..j + |x.flows|];
  }

  /** The visited spans are written one after the other, each with its instants and flows, and nothing else is. */
  lemma {:induction false} GatheredInFull(visited: seq<Node>, i: nat)
    requires i < |visited|
    ensures |Gathered(visited)| == Volume(visited)
    ensures WrittenAt(Gathered(visited), Volume(visited[..i]), visited[i])
  {
    var n := |visited| - 1;
    var before := visited[..n];
    if n > 0 { GatheredInFull(before, if i < n then i else 0); }
    if i == n {
      LastWritten(Gathered(before), visited[n]);
    } else {
      assert before[..i] == visited[..i];
      WrittenStays(Gathered(before), ElementsOf(visited[n]), Volume(before[..i]), visited[i]);
    }
  }

  /** The visited spans are those of the part, each once. */
  ghost predicate Exactly(all: seq<Node>, visited: seq<Node>, part: set<Node>) {
    && (forall v <- visited :: v in all)
    && (forall x <- all :: multiset(visited)[x] == if x in part then 1 else 0)
  }

  lemma ExactlyJoin(all: seq<Node>, a: seq<Node>, p: set<Node>, b: seq<Node>, q: set<Node>)
    requires Exactly(all, a, p) && Exactly(all, b, q) && p !! q
    ensures Exactly(all, a + b, p + q)
  {}

  lemma NoSlice(marks: seq<Mark>, x: Node)
    ensures multiset(marks)[Slice(x)] == 0
  {
    assert forall i :: 0 <= i < |marks| ==> marks[i].Attached?;
    assert Slice(x) !in marks;
  }

  lemma OneSlice(v: Node, x: Node)
    ensures multiset(ElementsOf(v))[Slice(x)] == if v == x then 1 else 0
  {
    NoSlice(v.instants, x);
    NoSlice(v.flows, x);
  }

  lemma {:induction false} SliceCount(visited: seq<Node>, x: Node)
    ensures multiset(Gathered(visited))[Slice(x)] == multiset(visited)[x]
  {
    if visited != [] {
      var n := |visited| - 1;
      var before, last := visited[..n], visited[n];
      SliceCount(before, x);
      OneSlice(last, x);
      CountLast(visited, x);
      JoinedCount(Gathered(before), ElementsOf(last), Slice(x));
    }
  }

  lemma CountLast(s: seq<Node>, x: Node)
    requires s != []
    ensures multiset(s)[x] == multiset(s[..|s| - 1])[x] + if s[|s| - 1] == x then 1 else 0
  {
    assert s == s[..|s| - 1] + [s[|s| - 1]];
  }

  lemma JoinedCount(a: seq<Element>, b: seq<Element>, e: Element)
    ensures multiset(a + b)[e] == multiset(a)[e] + multiset(b)[e]
  {}

  /** The elements of the visited spans, which are those of the part, each once. */
  ghost predicate Holds(all: seq<Node>, elems: seq<Element>, visited: seq<Node>, part: set<Node>)
    reads (set x | x in visited)`instants, (set x | x in visited)`flows
  {
    elems == Gathered(visited) && Exactly(all, visited, part)
  }

  lemma HoldsJoin(all: seq<Node>, a: seq<Element>, u: seq<Node>, p: set<Node>,
                  b: seq<Element>, v: seq<Node>, q: set<Node>)
    requires Holds(all, a, u, p) && Holds(all, b, v, q) && p !! q
    ensures Holds(all, a + b, u + v, p + q)
  {
    GatheredConcat(u, v);
    ExactlyJoin(all, u, p, v, q);
  }

  /** Each span of the part is written once, and no other. */
  ghost predicate WrittenOnce(all: seq<Node>, elems: seq<Element>, part: set<Node>) {
    forall x <- all :: multiset(elems)[Slice(x)] == if x in part then 1 else 0
  }

  lemma HoldsWrites(all: seq<Node>, elems: seq<Element>, visited: seq<Node>, part: set<Node>)
    requires Holds(all, elems, visited, part)
    ensures WrittenOnce(all, elems, part)
  {
    forall x | x in all ensures multiset(elems)[Slice(x)] == if x in part then 1 else 0 { SliceCount(visited, x); }
  }

  /** Each span of the part is written with its instants and flows. */
  ghost predicate InFull(all: seq<Node>, elems: seq<Element>, part: set<Node>)
    reads (set x | x in all)`instants, (set x | x in all)`flows
  {
    forall x <- all :: x in part ==> exists i :: WrittenAt(elems, i, x)
  }

  lemma HoldsInFull(all: seq<Node>, elems: seq<Element>, visited: seq<Node>, part: set<Node>)
    requires Holds(all, elems, visited, part)
    ensures InFull(all, elems, part)
  {
    forall x | x in all && x in part ensures exists i :: WrittenAt(elems, i, x) {
      assert multiset(visited)[x] == 1;
      var i :| 0 <= i < |visited| && visited[i] == x;
      GatheredInFull(visited, i);
    }
  }

  /** Lists the span and everything below it, each exactly once and with its instants and flows. */
  method Gather(all: seq<Node>, span: Node, ghost d: nat) returns (elems: seq<Element>, ghost visited: seq<Node>)
    requires Distinct(all) && Linked(all) && span in all && AtDepth(all, span, d)
    ensures Holds(all, elems, visited, Sub(all, span)) && WrittenOnce(all, elems, Sub(all, span))
    decreases Sub(all, span), 0
  {
    ChildFacts(all, span, d);
    elems := ElementsOf(span);
    var rest;
    ghost var below;
    rest, below := GatherEach(all, span.child, d + 1);
    elems := elems + rest;
    visited := [span] + below;
    GatherFirst(all, span, below, d);
    HoldsWrites(all, elems, visited, Sub(all, span));
  }

  lemma GatherFirst(all: seq<Node>, span: Node, below: seq<Node>, d: nat)
    requires Distinct(all) && span in all && AtDepth(all, span, d)
    requires var ch := ChildrenIn(all, all, span); Exactly(all, below, Below(all, ch, |ch|))
    ensures Gathered([span] + below) == ElementsOf(span) + Gathered(below)
    ensures Exactly(all, [span] + below, Sub(all, span))
  {
    var ch := ChildrenIn(all, all, span);
    ChildFacts(all, span, d);
    GatheredConcat([span], below);
    assert [span][..0] == [];
    assert Gathered([span]) == [] + ElementsOf(span);
    assert Exactly(all, [span], {span});
    ExactlyJoin(all, [span], {span}, below, Below(all, ch, |ch|));
  }

  /** One more span of a list, joined to what has been gathered. */
  method GatherNext(all: seq<Node>, spans: seq<Node>, i: nat, elems: seq<Element>, ghost visited: seq<Node>,
                    ghost d: nat)
    returns (more: seq<Element>, ghost seen: seq<Node>)
    requires Distinct(all) && Linked(all) && Distinct(spans) && AllAtDepth(all, spans, d) && i < |spans|
    requires Holds(all, elems, visited, Below(all, spans, i))
    ensures Holds(all, more, seen, Below(all, spans, i + 1))
    decreases Below(all, spans, |spans|), 1
  {
    BelowStep(all, spans, i, d);
    more, seen := Gather(all, spans[i], d);
    HoldsJoin(all, elems, visited, Below(all, spans, i), more, seen, Sub(all, spans[i]));
    more, seen := elems + more, visited + seen;
  }

  /** Spans of one depth: together, everything below them, each exactly once. */
  method GatherEach(all: seq<Node>, spans: seq<Node>, ghost d: nat)
    returns (elems: seq<Element>, ghost visited: seq<Node>)
    requires Distinct(all) && Linked(all) && Distinct(spans) && AllAtDepth(all, spans, d)
    ensures Holds(all, elems, visited, Below(all, spans, |spans|))
    ensures WrittenOnce(all, elems, Below(all, spans, |spans|))
    decreases Below(all, spans, |spans|), 2
  {
    elems, visited := [], [];
    for i := 0 to |spans|
      invariant Holds(all, elems, visited, Below(all, spans, i))
    {
      elems, visited := GatherNext(all, spans, i, elems, visited, d);
    }
    HoldsWrites(all, elems, visited, Below(all, spans, |spans|));
  }

  /** From the roots' lists: every span that is shown is gathered exactly once, and no other. */
  method GatherAll(all: seq<Node>, roots: seq<Node>, lists: seq<seq<Node>>) returns (elems: seq<Element>)
    requires Distinct(all) && Linked(all) && roots == RootsIn(all) && Lists(all, roots, lists)
    ensures forall x <- all :: multiset(elems)[Slice(x)] == if Shown(all, x) then 1 else 0
    ensures forall x <- all :: Shown(all, x) ==> exists i :: WrittenAt(elems, i, x)
  {
    ListsApart(all, roots, lists);
    elems := [];
    ghost var visited: seq<Node> := [];
    ghost var part: set<Node> := {};
    for i := 0 to |lists|
      invariant Holds(all, elems, visited, part)
      invariant part == Below(all, Flat(lists[..i]), |Flat(lists[..i])|)
    {
      var more;
      ghost var seen;
      more, seen := GatherEach(all, lists[i], 2);
      NextList(all, lists, i, 2);
      HoldsJoin(all, elems, visited, part, more, seen, Below(all, lists[i], |lists[i]|));
      elems, visited, part := elems + more, visited + seen, part + Below(all, lists[i], |lists[i]|);
    }
    assert lists[..|lists|] == lists;
    ListedOnce(all, roots, lists);
    HoldsWrites(all, elems, visited, part);
    HoldsInFull(all, elems, visited, part);
  }

  lemma NextList(all: seq<Node>, lists: seq<seq<Node>>, i: nat, d: nat)
    requires Apart(all, lists, d) && i < |lists|
    ensures var before, next := Flat(lists[..i]), Flat(lists[..i + 1]);
            && Below(all, before, |before|) !! Below(all, lists[i], |lists[i]|)
            && Below(all, next, |next|) == Below(all, before, |before|) + Below(all, lists[i], |lists[i]|)
  {
    var before := Flat(lists[..i]);
    assert lists[..i + 1][..i] == lists[..i];
    BelowConcat(all, before, lists[i], |lists[i]|);
    forall x | x in Below(all, before, |before|) && x in Below(all, lists[i], |lists[i]|) ensures false {
      FlatBelow(all, lists[..i], x);
      var k :| 0 <= k < i && x in Below(all, lists[..i][k], |lists[..i][k]|);
      ListsBelowApart(all, lists, k, i, d);
    }
  }
}
