/** Which spans lie below which: the parts that the passes over the span forest work on. */
module SpanParts {
  import opened Wrappers
  import opened SpanForest
  import Sorting

  // ---------------------------------------------------------------- the parts below the children

  /** Everything below the first i of the given spans. */
  ghost function Below(all: seq<Node>, spans: seq<Node>, i: nat): (r: set<Node>)
    requires i <= |spans|
    ensures forall x <- r :: x in all
  {
    if i == 0 then {} else Below(all, spans, i - 1) + Sub(all, spans[i - 1])
  }

  ghost predicate AllAtDepth(all: seq<Node>, spans: seq<Node>, d: nat) {
    forall i :: 0 <= i < |spans| ==> spans[i] in all && AtDepth(all, spans[i], d)
  }

  lemma {:induction false} BelowMember(all: seq<Node>, spans: seq<Node>, i: nat, x: Node)
    requires i <= |spans|
    ensures x in Below(all, spans, i) <==> exists j :: 0 <= j < i && x in Sub(all, spans[j])
  {
    if i > 0 { BelowMember(all, spans, i - 1, x); }
  }

  /** Different spans of one depth have separate parts. */
  lemma BelowSeparate(all: seq<Node>, spans: seq<Node>, i: nat, d: nat)
    requires i < |spans| && Distinct(spans) && AllAtDepth(all, spans, d)
    ensures Below(all, spans, i) !! Sub(all, spans[i])
  {
    forall x | x in Below(all, spans, i) && x in Sub(all, spans[i]) ensures false {
      BelowMember(all, spans, i, x);
      var j :| 0 <= j < i && x in Sub(all, spans[j]);
      SubDisjoint(all, spans[j], spans[i], d, x);
    }
  }

  /** The children of a span with a depth: one deeper, distinct, and together all that is below it. */
  lemma ChildFacts(all: seq<Node>, v: Node, d: nat)
    requires Distinct(all) && v in all && AtDepth(all, v, d)
    ensures var ch := ChildrenIn(all, all, v);
            && Distinct(ch) && AllAtDepth(all, ch, d + 1)
            && (forall i :: 0 <= i < |ch| ==> Sub(all, ch[i]) < Sub(all, v) && Parent(all, ch[i]) == Some(v))
            && v !in Below(all, ch, |ch|)
            && Sub(all, v) == {v} + Below(all, ch, |ch|)
  {
    var ch := ChildrenIn(all, all, v);
    ChildrenDistinct(all, all, v);
    forall i | 0 <= i < |ch|
      ensures ch[i] in all && Parent(all, ch[i]) == Some(v) && AtDepth(all, ch[i], d + 1)
      ensures Sub(all, ch[i]) < Sub(all, v) && v !in Sub(all, ch[i])
    {
      ChildMember(all, all, v, ch[i]);
      ChildShrinks(all, v, ch[i], d);
      if v in Sub(all, ch[i]) {
        var e := DepthAtLeast(all, ch[i], d + 1, v);
        DepthUnique(all, v, d, e);
      }
    }
    BelowMember(all, ch, |ch|, v);
    forall x | x in Sub(all, v) ensures x in {v} + Below(all, ch, |ch|) {
      SubSplits(all, v, x);
      BelowMember(all, ch, |ch|, x);
      if c :| c in all && Parent(all, c) == Some(v) && x in Sub(all, c) { ChildMember(all, all, v, c); }
    }
    forall x | x in Below(all, ch, |ch|) ensures x in Sub(all, v) { BelowMember(all, ch, |ch|, x); }
    SubSplits(all, v, v);
  }

  lemma {:induction false} BelowGrows(all: seq<Node>, spans: seq<Node>, i: nat, n: nat)
    requires i <= n <= |spans|
    ensures Below(all, spans, i) <= Below(all, spans, n)
    decreases n
  {
    if i < n { BelowGrows(all, spans, i, n - 1); }
  }

  /** The next span's part is new, and within all parts. */
  lemma BelowStep(all: seq<Node>, spans: seq<Node>, i: nat, d: nat)
    requires i < |spans| && Distinct(spans) && AllAtDepth(all, spans, d)
    ensures Sub(all, spans[i]) <= Below(all, spans, |spans|) && Sub(all, spans[i]) !! Below(all, spans, i)
    ensures Below(all, spans, i + 1) == Below(all, spans, i) + Sub(all, spans[i])
  {
    BelowSeparate(all, spans, i, d);
    BelowGrows(all, spans, i + 1, |spans|);
  }

  /** Whatever the parent ids, a span is listed under at most one parent, and a root under none. */
  lemma AtMostOneParent(all: seq<Node>, x: Node, p: Node, q: Node)
    requires x in ChildrenIn(all, all, p)
    ensures !x.isRoot && (x in ChildrenIn(all, all, q) ==> p == q)
  {
    ChildMember(all, all, p, x);
    ChildMember(all, all, q, x);
  }

  // ---------------------------------------------------------------- below the threads of a root

  /** Two or more steps below v: the spans proper, under the thread spans. */
  ghost predicate Deep(all: seq<Node>, x: Node, v: Node) {
    exists k :: k >= 2 && Up(all, x, k) == Some(v)
  }

  /** Everything strictly below the first i threads. */
  ghost function Inner(all: seq<Node>, threads: seq<Node>, i: nat): (r: set<Node>)
    requires i <= |threads|
    ensures forall x <- r :: x in all
  {
    if i == 0 then {} else Inner(all, threads, i - 1) + (Sub(all, threads[i - 1]) - {threads[i - 1]})
  }

  lemma {:induction false} InnerMember(all: seq<Node>, threads: seq<Node>, i: nat, x: Node)
    requires i <= |threads|
    ensures x in Inner(all, threads, i) <==> exists j :: 0 <= j < i && x in Sub(all, threads[j]) && x != threads[j]
  {
    if i > 0 { InnerMember(all, threads, i - 1, x); }
  }

  lemma InnerIsDeep(all: seq<Node>, v: Node, d: nat, x: Node)
    requires Distinct(all) && v in all && AtDepth(all, v, d) && x in all
    ensures var ch := ChildrenIn(all, all, v); x in Inner(all, ch, |ch|) <==> Deep(all, x, v)
  {
    var ch := ChildrenIn(all, all, v);
    InnerMember(all, ch, |ch|, x);
    if j :| 0 <= j < |ch| && x in Sub(all, ch[j]) && x != ch[j] {
      ChildMember(all, all, v, ch[j]);
      var k :| Up(all, x, k) == Some(ch[j]);
      UpExtend(all, x, k, ch[j], v);
    }
    if k :| k >= 2 && Up(all, x, k) == Some(v) { DeepIsInner(all, v, d, x, k); }
  }

  lemma DeepIsInner(all: seq<Node>, v: Node, d: nat, x: Node, k: nat)
    requires v in all && AtDepth(all, v, d) && x in all && k >= 2 && Up(all, x, k) == Some(v)
    ensures exists c :: c in ChildrenIn(all, all, v) && x in Sub(all, c) && x != c
  {
    var c := UpThroughChild(all, x, k, v);
    ChildMember(all, all, v, c);
    DepthBelow(all, x, k, v, d);
    if x == c { DepthUnique(all, x, d + 1, d + k); }
    assert x in Sub(all, c);
  }

  lemma InnerSeparate(all: seq<Node>, threads: seq<Node>, i: nat, d: nat)
    requires i < |threads| && Distinct(threads) && AllAtDepth(all, threads, d)
    ensures Inner(all, threads, i) !! Sub(all, threads[i])
  {
    forall x | x in Inner(all, threads, i) && x in Sub(all, threads[i]) ensures false {
      InnerMember(all, threads, i, x);
      var j :| 0 <= j < i && x in Sub(all, threads[j]) && x != threads[j];
      SubDisjoint(all, threads[j], threads[i], d, x);
    }
  }

  lemma {:induction false} InnerGrows(all: seq<Node>, threads: seq<Node>, i: nat, n: nat)
    requires i <= n <= |threads|
    ensures Inner(all, threads, i) <= Inner(all, threads, n)
    decreases n
  {
    if i < n { InnerGrows(all, threads, i, n - 1); }
  }

  lemma InnerStep(all: seq<Node>, threads: seq<Node>, i: nat, d: nat)
    requires i < |threads| && Distinct(threads) && AllAtDepth(all, threads, d)
    ensures var piece := Sub(all, threads[i]) - {threads[i]};
            && piece <= Inner(all, threads, |threads|) && piece !! Inner(all, threads, i)
            && Inner(all, threads, i + 1) == Inner(all, threads, i) + piece
  {
    InnerSeparate(all, threads, i, d);
    InnerGrows(all, threads, i + 1, |threads|);
  }

  lemma {:induction false} RootMember(spans: seq<Node>, x: Node)
    ensures x in RootsIn(spans) <==> x in spans && x.isRoot
  {
    if spans != [] {
      var n := |spans| - 1;
      RootMember(spans[..n], x);
      assert spans == spans[..n] + [spans[n]];
    }
  }

  lemma {:induction false} RootsDistinct(spans: seq<Node>)
    requires Distinct(spans)
    ensures Distinct(RootsIn(spans))
  {
    if spans != [] {
      RootsDistinct(spans[..|spans| - 1]);
      RootMember(spans[..|spans| - 1], spans[|spans| - 1]);
    }
  }

  /** The span sits two or more steps below some root. */
  ghost predicate Shown(all: seq<Node>, x: Node) {
    exists r :: r in all && r.isRoot && Deep(all, x, r)
  }

  lemma ShownUnder(all: seq<Node>, r: Node, x: Node)
    requires r in all && r.isRoot && x in Sub(all, r)
    ensures Shown(all, x) <==> Deep(all, x, r)
  {
    if s :| s in all && s.isRoot && Deep(all, x, s) {
      var k :| k >= 2 && Up(all, x, k) == Some(s);
      assert Under(all, x, s);
      SubDisjoint(all, r, s, 0, x);
    }
  }

  lemma DeepIsBelow(all: seq<Node>, r: Node, d: nat)
    requires Distinct(all) && r in all && AtDepth(all, r, d)
    ensures var ch := ChildrenIn(all, all, r);
            && Inner(all, ch, |ch|) <= Sub(all, r)
            && (forall x <- Sub(all, r) :: x in Inner(all, ch, |ch|) <==> Deep(all, x, r))
  {
    var ch := ChildrenIn(all, all, r);
    forall x | x in all ensures x in Inner(all, ch, |ch|) <==> Deep(all, x, r) { InnerIsDeep(all, r, d, x); }
    forall x | x in Inner(all, ch, |ch|) ensures x in Sub(all, r) {
      var k :| k >= 2 && Up(all, x, k) == Some(r);
      assert Under(all, x, r);
    }
  }

  lemma RootFacts(all: seq<Node>)
    requires Distinct(all)
    ensures var roots := RootsIn(all);
            && Distinct(roots) && AllAtDepth(all, roots, 0)
            && (forall i :: 0 <= i < |roots| ==> roots[i] in all && roots[i].isRoot)
            && (forall x <- all :: Shown(all, x) ==> x in Below(all, roots, |roots|))
  {
    var roots := RootsIn(all);
    RootsDistinct(all);
    forall i | 0 <= i < |roots| ensures roots[i] in all && roots[i].isRoot && AtDepth(all, roots[i], 0) {
      RootMember(all, roots[i]);
    }
    forall x | x in all && Shown(all, x) ensures x in Below(all, roots, |roots|) {
      var r :| r in all && r.isRoot && Deep(all, x, r);
      RootMember(all, r);
      var k :| k >= 2 && Up(all, x, k) == Some(r);
      assert Under(all, x, r);
      BelowMember(all, roots, |roots|, x);
    }
  }

  // ---------------------------------------------------------------- lists of lists

  function Flat(lists: seq<seq<Node>>): seq<Node> {
    if lists == [] then [] else Flat(lists[..|lists| - 1]) + lists[|lists| - 1]
  }

  /** Lists of different spans of one depth, with nothing in common. */
  ghost predicate Apart(all: seq<Node>, lists: seq<seq<Node>>, d: nat) {
    && (forall i :: 0 <= i < |lists| ==> Distinct(lists[i]) && AllAtDepth(all, lists[i], d))
    && (forall i, j, x :: 0 <= i < j < |lists| && x in lists[i] ==> x !in lists[j])
  }

  lemma DistinctConcat(a: seq<Node>, b: seq<Node>)
    requires Distinct(a) && Distinct(b) && forall x <- a :: x !in b
    ensures Distinct(a + b)
  {
    forall i, j | 0 <= i < j < |a + b| ensures (a + b)[i] != (a + b)[j] {
      if i < |a| <= j { assert a[i] in a && b[j - |a|] in b; }
    }
  }

  lemma {:induction false} FlatMember(lists: seq<seq<Node>>, x: Node) returns (i: nat)
    requires x in Flat(lists)
    ensures i < |lists| && x in lists[i]
  {
    var n := |lists| - 1;
    if x in lists[n] {
      i := n;
    } else {
      i := FlatMember(lists[..n], x);
    }
  }

  lemma {:induction false} FlatFacts(all: seq<Node>, lists: seq<seq<Node>>, d: nat)
    requires Apart(all, lists, d)
    ensures Distinct(Flat(lists)) && AllAtDepth(all, Flat(lists), d)
  {
    if lists != [] {
      var n := |lists| - 1;
      var before, last := Flat(lists[..n]), lists[n];
      FlatFacts(all, lists[..n], d);
      forall x | x in before ensures x !in last {
        var i := FlatMember(lists[..n], x);
      }
      DistinctConcat(before, last);
    }
  }

  lemma {:induction false} BelowPrefix(all: seq<Node>, a: seq<Node>, b: seq<Node>, i: nat)
    requires i <= |a|
    ensures Below(all, a + b, i) == Below(all, a, i)
  {
    if i > 0 { BelowPrefix(all, a, b, i - 1); }
  }

  lemma {:induction false} BelowConcat(all: seq<Node>, a: seq<Node>, b: seq<Node>, i: nat)
    requires i <= |b|
    ensures Below(all, a + b, |a| + i) == Below(all, a, |a|) + Below(all, b, i)
  {
    if i == 0 {
      BelowPrefix(all, a, b, |a|);
    } else {
      BelowConcat(all, a, b, i - 1);
    }
  }

  lemma {:induction false} FlatBelow(all: seq<Node>, lists: seq<seq<Node>>, x: Node)
    ensures x in Below(all, Flat(lists), |Flat(lists)|)
       <==> exists i :: 0 <= i < |lists| && x in Below(all, lists[i], |lists[i]|)
  {
    if lists != [] {
      var n := |lists| - 1;
      var before, last := lists[..n], lists[n];
      FlatBelow(all, before, x);
      BelowConcat(all, Flat(before), last, |last|);
      assert Flat(lists) == Flat(before) + last;
      if x in Below(all, last, |last|) { assert x in Below(all, lists[n], |lists[n]|); }
    }
  }

  // ---------------------------------------------------------------- the spans a root lists

  function Kids(all: seq<Node>, parents: seq<Node>): (r: seq<seq<Node>>)
    ensures |r| == |parents| && forall i :: 0 <= i < |r| ==> r[i] == ChildrenIn(all, all, parents[i])
  {
    seq(|parents|, i requires 0 <= i < |parents| => ChildrenIn(all, all, parents[i]))
  }

  /** The children of a root's threads, one thread after the other: what the root's own span list holds. */
  function SpansUnder(all: seq<Node>, root: Node): seq<Node> {
    Flat(Kids(all, ChildrenIn(all, all, root)))
  }

  lemma KidsApart(all: seq<Node>, parents: seq<Node>, d: nat)
    requires Distinct(all) && Distinct(parents) && AllAtDepth(all, parents, d)
    ensures Apart(all, Kids(all, parents), d + 1)
  {
    var kids := Kids(all, parents);
    forall i | 0 <= i < |kids| ensures Distinct(kids[i]) && AllAtDepth(all, kids[i], d + 1) {
      ChildFacts(all, parents[i], d);
    }
    forall i, j, x | 0 <= i < j < |kids| && x in kids[i] ensures x !in kids[j] {
      ChildMember(all, all, parents[i], x);
      ChildMember(all, all, parents[j], x);
    }
  }

  lemma KidsBelow(all: seq<Node>, parents: seq<Node>, d: nat, x: Node)
    requires Distinct(all) && AllAtDepth(all, parents, d)
    ensures var kids := Flat(Kids(all, parents));
            x in Below(all, kids, |kids|) <==> x in Inner(all, parents, |parents|)
  {
    var kids := Kids(all, parents);
    FlatBelow(all, kids, x);
    InnerMember(all, parents, |parents|, x);
    forall i | 0 <= i < |parents|
      ensures x in Below(all, kids[i], |kids[i]|) <==> x in Sub(all, parents[i]) && x != parents[i]
    {
      ChildFacts(all, parents[i], d);
    }
  }

  /** A root's list: different spans two steps below it, and below them everything the root shows. */
  lemma RootSpans(all: seq<Node>, root: Node)
    requires Distinct(all) && root in all && root.isRoot
    ensures var s := SpansUnder(all, root);
            && Distinct(s) && AllAtDepth(all, s, 2)
            && forall x <- all :: x in Below(all, s, |s|) <==> x in Sub(all, root) && Shown(all, x)
  {
    var threads := ChildrenIn(all, all, root);
    ChildFacts(all, root, 0);
    KidsApart(all, threads, 1);
    FlatFacts(all, Kids(all, threads), 2);
    DeepIsBelow(all, root, 0);
    forall x | x in all
      ensures x in Below(all, SpansUnder(all, root), |SpansUnder(all, root)|) <==> x in Sub(all, root) && Shown(all, x)
    {
      KidsBelow(all, threads, 1, x);
      if x in Sub(all, root) { ShownUnder(all, root, x); }
    }
  }

  lemma OwnPart(all: seq<Node>, s: seq<Node>, x: Node)
    requires x in s && x in all
    ensures x in Below(all, s, |s|)
  {
    var j :| 0 <= j < |s| && s[j] == x;
    assert Up(all, x, 0) == Some(x) && Under(all, x, x);
    BelowMember(all, s, |s|, x);
  }

  /** What the roots list: for each its threads' children. */
  ghost predicate Lists(all: seq<Node>, roots: seq<Node>, lists: seq<seq<Node>>) {
    |lists| == |roots| && forall i :: 0 <= i < |roots| ==> multiset(lists[i]) == multiset(SpansUnder(all, roots[i]))
  }

  /** One root's list in any order: different spans at depth 2, with below them what the root shows. */
  lemma ListFacts(all: seq<Node>, roots: seq<Node>, lists: seq<seq<Node>>, i: nat)
    requires Distinct(all) && roots == RootsIn(all) && Lists(all, roots, lists) && i < |roots|
    ensures Distinct(lists[i]) && AllAtDepth(all, lists[i], 2)
    ensures forall x <- all :: x in Below(all, lists[i], |lists[i]|) <==> x in Sub(all, roots[i]) && Shown(all, x)
  {
    RootMember(all, roots[i]);
    RootSpans(all, roots[i]);
    Reordered(all, lists[i], SpansUnder(all, roots[i]), 2);
  }

  /** Over all roots together no span is listed twice, all of them are at the same depth, and below them is
      exactly what is shown. */
  lemma ListedOnce(all: seq<Node>, roots: seq<Node>, lists: seq<seq<Node>>)
    requires Distinct(all) && roots == RootsIn(all) && Lists(all, roots, lists)
    ensures Distinct(Flat(lists)) && AllAtDepth(all, Flat(lists), 2)
    ensures forall x <- all :: x in Below(all, Flat(lists), |Flat(lists)|) <==> Shown(all, x)
  {
    ListsApart(all, roots, lists);
    FlatFacts(all, lists, 2);
    RootFacts(all);
    forall x | x in all ensures x in Below(all, Flat(lists), |Flat(lists)|) <==> Shown(all, x) {
      FlatBelow(all, lists, x);
      BelowMember(all, roots, |roots|, x);
      forall i | 0 <= i < |roots|
        ensures x in Below(all, lists[i], |lists[i]|) <==> x in Sub(all, roots[i]) && Shown(all, x)
      {
        ListFacts(all, roots, lists, i);
      }
    }
  }

  lemma ListsApart(all: seq<Node>, roots: seq<Node>, lists: seq<seq<Node>>)
    requires Distinct(all) && roots == RootsIn(all) && Lists(all, roots, lists)
    ensures Apart(all, lists, 2)
  {
    RootFacts(all);
    forall i | 0 <= i < |lists| ensures Distinct(lists[i]) && AllAtDepth(all, lists[i], 2) {
      ListFacts(all, roots, lists, i);
    }
    forall i, j, x | 0 <= i < j < |lists| && x in lists[i] && x in lists[j] ensures false {
      ListFacts(all, roots, lists, i);
      ListFacts(all, roots, lists, j);
      OwnPart(all, lists[i], x);
      OwnPart(all, lists[j], x);
      SubDisjoint(all, roots[i], roots[j], 0, x);
    }
  }

  // ---------------------------------------------------------------- reordered lists

  lemma {:induction false} CountOfDistinct(s: seq<Node>, x: Node)
    requires Distinct(s)
    ensures multiset(s)[x] <= 1
  {
    if s != [] {
      var n := |s| - 1;
      CountOfDistinct(s[..n], x);
      assert s == s[..n] + [s[n]];
    }
  }

  lemma CountOfRepeated(s: seq<Node>, i: nat, j: nat)
    requires i < j < |s| && s[i] == s[j]
    ensures multiset(s)[s[i]] >= 2
  {
    assert s == s[..j] + [s[j]] + s[j + 1..];
    assert s[i] in s[..j];
  }

  /** Reordering a list of different spans changes neither their depth nor what is below them. */
  lemma Reordered(all: seq<Node>, a: seq<Node>, b: seq<Node>, d: nat)
    requires multiset(a) == multiset(b) && Distinct(b) && AllAtDepth(all, b, d)
    ensures Distinct(a) && AllAtDepth(all, a, d) && Below(all, a, |a|) == Below(all, b, |b|)
  {
    forall i, j | 0 <= i < j < |a| ensures a[i] != a[j] {
      CountOfDistinct(b, a[i]);
      if a[i] == a[j] { CountOfRepeated(a, i, j); }
    }
    forall i | 0 <= i < |a| ensures a[i] in all && AtDepth(all, a[i], d) {
      assert a[i] in multiset(b);
    }
    SameBelow(all, a, b);
    SameBelow(all, b, a);
  }

  lemma SameBelow(all: seq<Node>, a: seq<Node>, b: seq<Node>)
    requires multiset(a) == multiset(b)
    ensures Below(all, a, |a|) <= Below(all, b, |b|)
  {
    forall x | x in Below(all, a, |a|) ensures x in Below(all, b, |b|) {
      BelowMember(all, a, |a|, x);
      var i :| 0 <= i < |a| && x in Sub(all, a[i]);
      assert a[i] in multiset(b);
      var j :| 0 <= j < |b| && b[j] == a[i];
      BelowMember(all, b, |b|, x);
    }
  }

  lemma {:induction false} FlatConcat(a: seq<seq<Node>>, b: seq<seq<Node>>)
    ensures Flat(a + b) == Flat(a) + Flat(b)
  {
    if b == [] {
      assert a + b == a;
    } else {
      var n := |b| - 1;
      assert (a + b)[..|a| + n] == a + b[..n];
      FlatConcat(a, b[..n]);
    }
  }

  lemma FlatOne(l: seq<Node>)
    ensures Flat([l]) == l
  {
    assert [l][..0] == [];
  }

  lemma FlatMiddle(a: seq<seq<Node>>, m: seq<Node>, c: seq<seq<Node>>)
    ensures Flat(a + [m] + c) == Flat(a) + m + Flat(c)
  {
    FlatConcat(a + [m], c);
    FlatConcat(a, [m]);
    FlatOne(m);
  }

  lemma MoveToFront(a: seq<Node>, m: seq<Node>, c: seq<Node>)
    ensures multiset(a + m + c) == multiset(m) + multiset(a + c)
  {}

  lemma FlatWithout(a: seq<seq<Node>>, m: seq<Node>, c: seq<seq<Node>>)
    ensures multiset(Flat(a + [m] + c)) == multiset(m) + multiset(Flat(a + c))
  {
    FlatMiddle(a, m, c);
    FlatConcat(a, c);
    MoveToFront(Flat(a), m, Flat(c));
  }

  lemma FlatTake(b: seq<seq<Node>>, i: nat, rest: seq<seq<Node>>)
    requires i < |b| && rest == b[..i] + b[i + 1..]
    ensures multiset(Flat(b)) == multiset(b[i]) + multiset(Flat(rest))
  {
    assert b == b[..i] + [b[i]] + b[i + 1..];
    FlatWithout(b[..i], b[i], b[i + 1..]);
  }

  /** Reordering the lists reorders the spans. */
  lemma {:induction false} FlatPermutation(a: seq<seq<Node>>, b: seq<seq<Node>>)
    requires multiset(a) == multiset(b)
    ensures multiset(Flat(a)) == multiset(Flat(b))
  {
    Sorting.SameLength(a, b);
    if a != [] {
      assert a[0] in multiset(b);
      var i :| 0 <= i < |b| && b[i] == a[0];
      var restA, restB := a[1..], b[..i] + b[i + 1..];
      Sorting.RemoveOne(a, b, i);
      FlatPermutation(restA, restB);
      assert restA == a[..0] + a[1..];
      FlatTake(a, 0, restA);
      FlatTake(b, i, restB);
    }
  }

  lemma {:induction false} InFlat(lists: seq<seq<Node>>, i: nat, x: Node)
    requires i < |lists| && x in lists[i]
    ensures x in Flat(lists)
  {
    var n := |lists| - 1;
    if i < n { InFlat(lists[..n], i, x); }
  }

  lemma SplitDistinct(a: seq<Node>, b: seq<Node>)
    requires Distinct(a + b)
    ensures Distinct(a) && Distinct(b) && forall x <- a :: x !in b
  {
    var s := a + b;
    forall i, j | 0 <= i < j < |a| ensures a[i] != a[j] { assert s[i] != s[j]; }
    forall i, j | 0 <= i < j < |b| ensures b[i] != b[j] { assert s[|a| + i] != s[|a| + j]; }
    forall i, j | 0 <= i < |a| && 0 <= j < |b| ensures a[i] != b[j] { assert s[i] != s[|a| + j]; }
  }

  /** If all listed spans are different and of one depth, the lists have nothing in common. */
  lemma {:induction false} FlatIsApart(all: seq<Node>, lists: seq<seq<Node>>, d: nat)
    requires Distinct(Flat(lists)) && AllAtDepth(all, Flat(lists), d)
    ensures Apart(all, lists, d)
  {
    if lists != [] {
      var n := |lists| - 1;
      var before, last := Flat(lists[..n]), lists[n];
      var flat := Flat(lists);
      SplitDistinct(before, last);
      assert forall i :: 0 <= i < |before| ==> flat[i] == before[i];
      assert forall i :: 0 <= i < |last| ==> flat[|before| + i] == last[i];
      FlatIsApart(all, lists[..n], d);
      forall i, x | 0 <= i < n && x in lists[i] ensures x !in last { InFlat(lists[..n], i, x); }
    }
  }
}
