/** The span graph built from parent ids, and the recursive traversals that change spans in place.

Parent ids are arbitrary: unknown, duplicate, self-referring or cyclic. */
module SpanForest {
  import opened Wrappers

  /** The trace event of a span; `tid` is the line it is laid out on. */
  datatype Event = Event(ts: int, dur: int, pid: int, tid: int)

  /** What is written out: the event of a span, or a record attached to one. */
  datatype Element = Slice(node: Node) | Attached(id: int)

  type Mark = e: Element | e.Attached? witness Attached(0)

  class Node {
    const id: string
    const parentId: string
    /** The module name says sglang::request or sglang::mooncake. */
    const isRoot: bool
    /** The pid attribute; meaningful on thread spans. */
    const threadPid: int
    const start: int
    var end: int
    var child: seq<Node>
    var event: Option<Event>
    /** The instants recorded on the span and the flow links that end at it. */
    var instants: seq<Mark>
    var flows: seq<Mark>

    constructor (id: string, parentId: string, isRoot: bool, threadPid: int, start: int, end: int)
      ensures this.id == id && this.parentId == parentId && this.isRoot == isRoot && this.threadPid == threadPid
      ensures this.start == start && this.end == end && child == [] && event == None
      ensures instants == [] && flows == []
    {
      this.id, this.parentId, this.isRoot, this.threadPid := id, parentId, isRoot, threadPid;
      this.start, this.end := start, end;
      child, event := [], None;
      instants, flows := [], [];
    }
  }

  // ---------------------------------------------------------------- the graph

  /** With duplicate ids the last span of the list wins. */
  function LastWithId(spans: seq<Node>, id: string): Option<Node> {
    if spans == [] then None
    else if spans[|spans| - 1].id == id then Some(spans[|spans| - 1])
    else LastWithId(spans[..|spans| - 1], id)
  }

  /** p stands in the list, has that id, and no span after it has. */
  ghost predicate IsLast(spans: seq<Node>, id: string, p: Node) {
    exists i :: 0 <= i < |spans| && spans[i] == p && p.id == id && forall j :: i < j < |spans| ==> spans[j].id != id
  }

  lemma {:induction false} LastOrNone(spans: seq<Node>, id: string, p: Node)
    ensures LastWithId(spans, id) == Some(p) <==> IsLast(spans, id, p)
    ensures LastWithId(spans, id) == None <==> forall i :: 0 <= i < |spans| ==> spans[i].id != id
  {
    if spans != [] {
      var n := |spans| - 1;
      LastOrNone(spans[..n], id, p);
      if spans[n].id == id {
        if IsLast(spans, id, p) {
          var i :| 0 <= i < |spans| && spans[i] == p && forall j :: i < j < |spans| ==> spans[j].id != id;
          assert i == n;
        }
      } else {
        SameLast(spans, id, p);
      }
    }
  }

  /** A span with another id at the end changes nothing. */
  lemma SameLast(spans: seq<Node>, id: string, p: Node)
    requires spans != [] && spans[|spans| - 1].id != id
    ensures IsLast(spans, id, p) <==> IsLast(spans[..|spans| - 1], id, p)
  {
    var before := spans[..|spans| - 1];
    if i :| 0 <= i < |spans| && spans[i] == p && p.id == id && forall j :: i < j < |spans| ==> spans[j].id != id {
      assert before[i] == p;
    }
    if i :| 0 <= i < |before| && before[i] == p && p.id == id && forall j :: i < j < |before| ==> before[j].id != id {
      assert spans[i] == p;
      forall j | i < j < |spans| ensures spans[j].id != id { if j < |before| { assert spans[j] == before[j]; } }
    }
  }

  function Parent(all: seq<Node>, x: Node): Option<Node> {
    if x.isRoot then None else LastWithId(all, x.parentId)
  }

  /** The spans among `spans`, in order, whose parent is p. */
  function ChildrenIn(spans: seq<Node>, all: seq<Node>, p: Node): seq<Node> {
    if spans == [] then []
    else
      var n := |spans| - 1;
      ChildrenIn(spans[..n], all, p) + if Parent(all, spans[n]) == Some(p) then [spans[n]] else []
  }

  function RootsIn(spans: seq<Node>): seq<Node> {
    if spans == [] then []
    else
      var n := |spans| - 1;
      RootsIn(spans[..n]) + if spans[n].isRoot then [spans[n]] else []
  }

  /** `part` is the spans of the list at the given increasing positions. */
  ghost predicate StandAt(part: seq<Node>, spans: seq<Node>, at: seq<int>) {
    && |at| == |part|
    && (forall k :: 0 <= k < |at| ==> 0 <= at[k] < |spans| && part[k] == spans[at[k]])
    && forall j, k :: 0 <= j < k < |at| ==> at[j] < at[k]
  }

  /** Exactly the occurrences of spans that are no root and whose parent id is p's, p being the last span of
      that id; in input order. */
  ghost predicate ChildrenByName(all: seq<Node>, p: Node, child: seq<Node>) {
    exists at :: StandAt(child, all, at)
      && forall i :: 0 <= i < |all| ==> (i in at <==> !all[i].isRoot && IsLast(all, all[i].parentId, p))
  }

  /** Exactly the occurrences of roots, in input order. */
  ghost predicate RootsByName(all: seq<Node>, roots: seq<Node>) {
    exists at :: StandAt(roots, all, at) && forall i :: 0 <= i < |all| ==> (i in at <==> all[i].isRoot)
  }

  lemma StandAtNext(part: seq<Node>, spans: seq<Node>, at: seq<int>, n: nat)
    requires n < |spans| && StandAt(part, spans[..n], at)
    ensures StandAt(part, spans[..n + 1], at) && StandAt(part + [spans[n]], spans[..n + 1], at + [n])
  {}

  lemma {:induction false} ChildrenStand(all: seq<Node>, n: nat, p: Node) returns (at: seq<int>)
    requires n <= |all|
    ensures StandAt(ChildrenIn(all[..n], all, p), all[..n], at)
    ensures forall i :: 0 <= i < n ==> (i in at <==> !all[i].isRoot && IsLast(all, all[i].parentId, p))
  {
    if n == 0 {
      at := [];
    } else {
      at := ChildrenStand(all, n - 1, p);
      assert all[..n][..n - 1] == all[..n - 1];
      StandAtNext(ChildrenIn(all[..n - 1], all, p), all, at, n - 1);
      LastOrNone(all, all[n - 1].parentId, p);
      if Parent(all, all[n - 1]) == Some(p) { at := at + [n - 1]; }
    }
  }

  lemma {:induction false} RootsStand(all: seq<Node>, n: nat) returns (at: seq<int>)
    requires n <= |all|
    ensures StandAt(RootsIn(all[..n]), all[..n], at)
    ensures forall i :: 0 <= i < n ==> (i in at <==> all[i].isRoot)
  {
    if n == 0 {
      at := [];
    } else {
      at := RootsStand(all, n - 1);
      assert all[..n][..n - 1] == all[..n - 1];
      StandAtNext(RootsIn(all[..n - 1]), all, at, n - 1);
      if all[n - 1].isRoot { at := at + [n - 1]; }
    }
  }

  lemma ChildrenNamed(all: seq<Node>, p: Node)
    ensures ChildrenByName(all, p, ChildrenIn(all, all, p))
  {
    assert all[..|all|] == all;
    var at := ChildrenStand(all, |all|, p);
  }

  lemma RootsNamed(all: seq<Node>)
    ensures RootsByName(all, RootsIn(all))
  {
    assert all[..|all|] == all;
    var at := RootsStand(all, |all|);
  }

  ghost predicate Distinct<T>(s: seq<T>) {
    forall i, j :: 0 <= i < j < |s| ==> s[i] != s[j]
  }

  /** Every child list is exactly the spans that name that parent, in input order. */
  ghost predicate Linked(all: seq<Node>)
    reads (set x | x in all)`child
  {
    forall p <- all :: p.child == ChildrenIn(all, all, p)
  }

  method IndexById(all: seq<Node>) returns (byId: map<string, Node>)
    ensures forall id :: (if id in byId then Some(byId[id]) else None) == LastWithId(all, id)
    ensures forall id <- byId :: IsLast(all, id, byId[id])
    ensures forall i :: 0 <= i < |all| ==> all[i].id in byId
  {
    byId := map[];
    for i := 0 to |all|
      invariant forall id :: (if id in byId then Some(byId[id]) else None) == LastWithId(all[..i], id)
    {
      assert all[..i + 1][..i] == all[..i];
      byId := byId[all[i].id := all[i]];
    }
    assert all[..|all|] == all;
    forall id | id in byId ensures IsLast(all, id, byId[id]) { LastOrNone(all, id, byId[id]); }
    forall i | 0 <= i < |all| ensures all[i].id in byId { LastOrNone(all, all[i].id, all[i]); }
  }

  method LinkSpans(all: seq<Node>, byId: map<string, Node>) returns (roots: seq<Node>)
    requires forall id :: (if id in byId then Some(byId[id]) else None) == LastWithId(all, id)
    modifies (set x | x in all)`child
    ensures Linked(all) && roots == RootsIn(all)
  {
    for i := 0 to |all|
      invariant forall j :: 0 <= j < i ==> all[j].child == []
    {
      all[i].child := [];
    }
    roots := [];
    for i := 0 to |all|
      invariant roots == RootsIn(all[..i])
      invariant forall p <- all :: p.child == ChildrenIn(all[..i], all, p)
    {
      var span := all[i];
      assert all[..i + 1][..i] == all[..i];
      if span.isRoot {
        roots := roots + [span];
      } else if span.parentId in byId {
        var parent := byId[span.parentId];
        LastIsMember(all, span.parentId);
        assert Parent(all, span) == Some(parent);
        parent.child := parent.child + [span];
      }
    }
    assert all[..|all|] == all;
  }

  /** The graph: each child list by the names of its spans, and the roots. */
  method BuildTree(all: seq<Node>) returns (roots: seq<Node>)
    modifies (set x | x in all)`child
    ensures Linked(all) && roots == RootsIn(all)
    ensures forall p <- all :: ChildrenByName(all, p, p.child)
    ensures RootsByName(all, roots)
  {
    var byId := IndexById(all);
    roots := LinkSpans(all, byId);
    forall p | p in all ensures ChildrenByName(all, p, p.child) { ChildrenNamed(all, p); }
    RootsNamed(all);
  }

  lemma {:induction false} LastIsMember(spans: seq<Node>, id: string)
    ensures LastWithId(spans, id).Some? ==> LastWithId(spans, id).value in spans
  {
    if spans != [] { LastIsMember(spans[..|spans| - 1], id); }
  }

  lemma {:induction false} ChildMember(spans: seq<Node>, all: seq<Node>, p: Node, c: Node)
    ensures c in ChildrenIn(spans, all, p) <==> c in spans && Parent(all, c) == Some(p)
  {
    if spans != [] {
      var n := |spans| - 1;
      ChildMember(spans[..n], all, p, c);
      assert spans == spans[..n] + [spans[n]];
    }
  }

  lemma {:induction false} ChildrenDistinct(spans: seq<Node>, all: seq<Node>, p: Node)
    requires Distinct(spans)
    ensures Distinct(ChildrenIn(spans, all, p))
  {
    if spans != [] {
      var n := |spans| - 1;
      ChildrenDistinct(spans[..n], all, p);
      ChildMember(spans[..n], all, p, spans[n]);
    }
  }

  // ---------------------------------------------------------------- depth: what makes it a forest

  /** The k-th ancestor. */
  function Up(all: seq<Node>, x: Node, k: nat): Option<Node> {
    if k == 0 then Some(x)
    else
      match Parent(all, x)
      case None => None
      case Some(p) => Up(all, p, k - 1)
  }

  /** d steps up from x there is a span without a parent; spans on or below a cycle have no depth. */
  predicate AtDepth(all: seq<Node>, x: Node, d: nat) {
    match Parent(all, x)
    case None => d == 0
    case Some(p) => d > 0 && AtDepth(all, p, d - 1)
  }

  ghost predicate Under(all: seq<Node>, x: Node, v: Node) {
    exists k :: Up(all, x, k) == Some(v)
  }

  /** v and everything below it. */
  ghost function Sub(all: seq<Node>, v: Node): set<Node> {
    set x | x in all && Under(all, x, v)
  }

  lemma {:induction false} DepthUnique(all: seq<Node>, x: Node, d: nat, e: nat)
    requires AtDepth(all, x, d) && AtDepth(all, x, e)
    ensures d == e
  {
    if Parent(all, x).Some? { DepthUnique(all, Parent(all, x).value, d - 1, e - 1); }
  }

  lemma {:induction false} DepthBelow(all: seq<Node>, x: Node, k: nat, v: Node, d: nat)
    requires Up(all, x, k) == Some(v) && AtDepth(all, v, d)
    ensures AtDepth(all, x, d + k)
  {
    if k > 0 { DepthBelow(all, Parent(all, x).value, k - 1, v, d); }
  }

  /** The last step of a way up goes through a child of its end. */
  lemma {:induction false} UpThroughChild(all: seq<Node>, x: Node, k: nat, v: Node) returns (c: Node)
    requires k > 0 && Up(all, x, k) == Some(v) && x in all
    ensures Up(all, x, k - 1) == Some(c) && Parent(all, c) == Some(v) && c in all
  {
    if k == 1 {
      c := x;
      assert Up(all, Parent(all, x).value, 0) == Some(v);
    } else {
      LastIsMember(all, x.parentId);
      c := UpThroughChild(all, Parent(all, x).value, k - 1, v);
    }
  }

  lemma {:induction false} UpExtend(all: seq<Node>, x: Node, k: nat, c: Node, v: Node)
    requires Up(all, x, k) == Some(c) && Parent(all, c) == Some(v)
    ensures Up(all, x, k + 1) == Some(v)
  {
    if k == 0 {
      assert Up(all, v, 0) == Some(v);
    } else {
      UpExtend(all, Parent(all, x).value, k - 1, c, v);
    }
  }

  /** Below v: v itself and what is below its children. */
  lemma SubSplits(all: seq<Node>, v: Node, x: Node)
    requires v in all && x in all
    ensures x in Sub(all, v) <==> x == v || exists c :: c in all && Parent(all, c) == Some(v) && x in Sub(all, c)
  {
    if x in Sub(all, v) && x != v {
      var k :| Up(all, x, k) == Some(v);
      var c := UpThroughChild(all, x, k, v);
      assert Under(all, x, c);
      assert x in Sub(all, c);
    }
    if x == v { assert Up(all, x, 0) == Some(v); }
    if c :| c in all && Parent(all, c) == Some(v) && x in Sub(all, c) {
      var k :| Up(all, x, k) == Some(c);
      UpExtend(all, x, k, c, v);
    }
  }

  /** Two spans at the same depth have nothing below them in common, and nothing below one is above it. */
  lemma SubDisjoint(all: seq<Node>, a: Node, b: Node, d: nat, x: Node)
    requires AtDepth(all, a, d) && AtDepth(all, b, d) && x in Sub(all, a) && x in Sub(all, b)
    ensures a == b
  {
    var k :| Up(all, x, k) == Some(a);
    var j :| Up(all, x, j) == Some(b);
    DepthBelow(all, x, k, a, d);
    DepthBelow(all, x, j, b, d);
    DepthUnique(all, x, d + k, d + j);
  }

  lemma DepthAtLeast(all: seq<Node>, v: Node, d: nat, x: Node) returns (e: nat)
    requires AtDepth(all, v, d) && x in Sub(all, v)
    ensures AtDepth(all, x, e) && e >= d
  {
    var k :| Up(all, x, k) == Some(v);
    DepthBelow(all, x, k, v, d);
    e := d + k;
  }

  /** A child's part is strictly smaller, although the graph as a whole may have cycles. */
  lemma ChildShrinks(all: seq<Node>, v: Node, c: Node, d: nat)
    requires v in all && c in all && Parent(all, c) == Some(v) && AtDepth(all, v, d)
    ensures AtDepth(all, c, d + 1) && Sub(all, c) < Sub(all, v)
  {
    forall x | x in Sub(all, c) ensures x in Sub(all, v) { SubSplits(all, v, x); }
    SubSplits(all, v, v);
    if v in Sub(all, c) {
      var e := DepthAtLeast(all, c, d + 1, v);
      DepthUnique(all, v, d, e);
    }
  }
}
