/** The gateway's spans go to lines of their own, after all engine requests. */
module GatewayLayout {
  import opened Layout
  import opened Wrappers
  import opened Spans
  import opened TraceLayout
  import Sorting
  import opened LayoutOptimality

  function OnGateway(spans: seq<Span>): (items: seq<Item>)
    ensures |items| == |spans| && forall i :: 0 <= i < |items| ==> items[i] == Item(Gateway, spans[i])
  {
    seq(|spans|, i requires 0 <= i < |spans| => Item(Gateway, spans[i]))
  }

  /** One gateway span: its own lines follow the single-pid rule, the line becomes sticky, others are untouched. */
  lemma GatewayStep(b: Board, status: Status, span: Span)
    requires Fits(b, status)
    ensures var item := Item(Gateway, span);
            var b', next := Place(b, status, item), status[Gateway := LineFor(b, status, item)];
            var lines, sticky := LinesOf(b, Gateway), Sticky(b, status, Gateway);
            var k := FindLine(lines, sticky, span);
            && Fits(b', next) && LinesOf(b', Gateway) == PutOn(lines, k, span) && Sticky(b', next, Gateway) == Some(k)
            && forall p :: p != Gateway ==> LinesOf(b', p) == LinesOf(b, p)
  {}

  lemma GatewayRest(b: Board, status: Status, spans: seq<Span>)
    requires Fits(b, status) && spans != []
    ensures var item := Item(Gateway, spans[0]);
            var b', next := Place(b, status, item), status[Gateway := LineFor(b, status, item)];
            && Fits(b', next)
            && PlaceRequest(b, status, OnGateway(spans)) == PlaceRequest(b', next, OnGateway(spans[1..]))
  {
    assert OnGateway(spans)[1..] == OnGateway(spans[1..]);
  }

  /** Placing spans of one pid touches that pid's lines only and follows the single-pid rule. */
  lemma {:induction false} OnePid(b: Board, status: Status, spans: seq<Span>)
    requires Fits(b, status)
    ensures LinesOf(PlaceRequest(b, status, OnGateway(spans)), Gateway)
            == PlaceOn(LinesOf(b, Gateway), Sticky(b, status, Gateway), spans)
    ensures forall p :: p != Gateway ==> LinesOf(PlaceRequest(b, status, OnGateway(spans)), p) == LinesOf(b, p)
    decreases |spans|
  {
    if spans != [] {
      var item := Item(Gateway, spans[0]);
      GatewayStep(b, status, spans[0]);
      GatewayRest(b, status, spans);
      OnePid(Place(b, status, item), status[Gateway := LineFor(b, status, item)], spans[1..]);
    }
  }

  lemma SortedNonZero(spans: seq<Span>)
    requires NonZero(spans)
    ensures NonZeroItems(OnGateway(Sorting.Sort(spans, StartsFirst)))
  {
    var sorted := Sorting.Sort(spans, StartsFirst);
    Sorting.SortHolds(spans, StartsFirst);
    forall i | 0 <= i < |sorted| ensures sorted[i].start != sorted[i].end { assert sorted[i] in multiset(spans); }
  }

  /** Sorts the gateway's spans by start and places them; engine lines stay as they are and the number of
      gateway lines, for spans of positive length, is the largest number of them live at one instant. */
  method PlaceGatewaySpans(g: LayoutGraph, spans: seq<Span>)
    requires g.Valid() && Gateway !in g.board.graph
    modifies g, g.repr`intervals
    ensures g.Valid()
    ensures forall p :: p != Gateway ==> LinesOf(g.board, p) == LinesOf(old(g.board), p)
    ensures LinesOf(g.board, Gateway) == GatewayLines(spans)
    ensures Sound(old(g.board)) && NonZero(spans) ==> Sound(g.board)
    ensures Positive(spans) ==> IsPeak(spans, |LinesOf(g.board, Gateway)|)
  {
    var sorted := Sorting.Sort(spans, StartsFirst);
    OnePid(g.board, map[], sorted);
    if Sound(g.board) && NonZero(spans) {
      SortedNonZero(spans);
      PlaceRequestKeeps(g.board, map[], OnGateway(sorted));
    }
    if Positive(spans) {
      GatewayUsesPeakLines(spans);
    }
    var _ := g.PlaceRequestSpans(OnGateway(sorted));
  }
}
