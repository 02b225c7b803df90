/** Laying trace spans out on lines: the interval store of one line, the sticky first-fit line
choice, and what every layout built from them guarantees. */
module Layout {
  // Spans carry the 1000 ns trim of their end, which can leave it at or before the start.
  import opened Spans
  import opened Wrappers

  datatype Bound = MinusInfinity | At(time: int)

  /** A bisection key, ordered like the tuples (start, end). */
  datatype Key = Key(start: int, end: Bound)

  type Line = seq<Span>

  // ---------------------------------------------------------------- one line

  predicate Below(a: Span, key: Key) {
    a.start < key.start || (a.start == key.start && key.end.At? && a.end < key.end.time)
  }

  /** The leftmost insertion point of the key. */
  function Rank(line: Line, key: Key): (r: nat)
    ensures r <= |line|
  {
    if line == [] || !Below(line[0], key) then 0 else 1 + Rank(line[1..], key)
  }

  predicate SortedLine(line: Line) {
    forall i, j :: 0 <= i < j < |line| ==>
      line[i].start < line[j].start || (line[i].start == line[j].start && line[i].end <= line[j].end)
  }

  /** No span reaches past the start of a later one. */
  predicate Chained(line: Line) {
    forall i, j :: 0 <= i < j < |line| ==> line[i].end <= line[j].start
  }

  predicate Good(line: Line) {
    SortedLine(line) && Chained(line)
  }

  /** The overlap test looks at the two neighbours of the insertion point only. */
  function Blocked(line: Line, span: Span): bool {
    var i := Rank(line, Key(span.start, MinusInfinity));
    (i > 0 && line[i - 1].end > span.start) || (i < |line| && line[i].start < span.end)
  }

  function Insert(line: Line, span: Span): Line {
    var i := Rank(line, Key(span.start, At(span.end)));
    line[..i] + [span] + line[i..]
  }

  /** The instants a span occupies: half-open, and at least its start. */
  predicate Covers(a: Span, t: int) {
    a.start <= t && (t < a.end || t == a.start)
  }

  ghost predicate Meets(a: Span, b: Span) {
    exists t :: Covers(a, t) && Covers(b, t)
  }

  lemma {:induction false} RankSplits(line: Line, key: Key)
    requires SortedLine(line)
    ensures forall i :: 0 <= i < Rank(line, key) ==> Below(line[i], key)
    ensures forall i :: Rank(line, key) <= i < |line| ==> !Below(line[i], key)
  {
    if line != [] && Below(line[0], key) {
      RankSplits(line[1..], key);
      assert forall i :: 1 <= i < |line| ==> line[i] == line[1..][i - 1];
    }
  }

  /** The two-neighbour test agrees with comparing the span against the whole line. */
  lemma TestIsExact(line: Line, span: Span)
    requires Good(line) && span.start < span.end
    ensures Blocked(line, span) <==> exists i :: 0 <= i < |line| && Meets(line[i], span)
  {
    var r := Rank(line, Key(span.start, MinusInfinity));
    RankSplits(line, Key(span.start, MinusInfinity));
    if r > 0 && line[r - 1].end > span.start {
      assert Covers(line[r - 1], span.start) && Covers(span, span.start);
    }
    if r < |line| && line[r].start < span.end {
      assert Covers(line[r], line[r].start) && Covers(span, line[r].start);
    }
    forall i | 0 <= i < |line| && Meets(line[i], span) ensures Blocked(line, span) {
      var t :| Covers(line[i], t) && Covers(span, t);
    }
  }

  /** In the way of a span of any length: reaches past its start, or starts before its end. */
  predicate Obstructs(a: Span, span: Span) {
    if a.start < span.start then span.start < a.end else a.start < span.end
  }

  predicate Clear(line: Line, span: Span) {
    forall i :: 0 <= i < |line| ==> !Obstructs(line[i], span)
  }

  lemma BlockedIffObstructed(line: Line, span: Span)
    requires Good(line)
    ensures Blocked(line, span) <==> !Clear(line, span)
  {
    var r := Rank(line, Key(span.start, MinusInfinity));
    RankSplits(line, Key(span.start, MinusInfinity));
    if r > 0 && line[r - 1].end > span.start { assert Obstructs(line[r - 1], span); }
    if r < |line| && line[r].start < span.end { assert Obstructs(line[r], span); }
    forall i | 0 <= i < |line| && Obstructs(line[i], span) ensures Blocked(line, span) {
      if i < r - 1 { assert line[i].end <= line[r - 1].start; }
      if r < i { assert line[r].start <= line[i].start; }
    }
  }

  predicate Follows(a: Span, b: Span) {
    (a.start < b.start || (a.start == b.start && a.end <= b.end)) && a.end <= b.start
  }

  lemma FitsBetween(line: Line, r: nat, span: Span)
    requires Good(line) && r <= |line|
    requires forall k :: 0 <= k < r ==> Follows(line[k], span)
    requires forall k :: r <= k < |line| ==> Follows(span, line[k])
    ensures Good(line[..r] + [span] + line[r..])
  {
    var out := line[..r] + [span] + line[r..];
    forall i, j | 0 <= i < j < |out| ensures Follows(out[i], out[j]) {
      assert out[i] == if i < r then line[i] else if i == r then span else line[i - 1];
      assert out[j] == if j < r then line[j] else if j == r then span else line[j - 1];
    }
  }

  /** A checked insertion keeps the line sorted and chained, whatever the length of the span. */
  lemma CheckedInsertKeeps(line: Line, span: Span)
    requires Good(line) && !Blocked(line, span)
    ensures Good(Insert(line, span))
  {
    var low, high := Key(span.start, MinusInfinity), Key(span.start, At(span.end));
    var i, r := Rank(line, low), Rank(line, high);
    RankSplits(line, low);
    RankSplits(line, high);
    forall k | 0 <= k < r ensures Follows(line[k], span) {
      if k < i - 1 { assert line[k].end <= line[i - 1].start; }
    }
    forall k | r <= k < |line| ensures Follows(span, line[k]) {
      if i < k { assert line[i].start <= line[k].start; }
    }
    FitsBetween(line, r, span);
  }

  // ---------------------------------------------------------------- the lines of one pid

  /** First-fit: the first unblocked line from k on, or one past the last. */
  function Free(lines: seq<Line>, span: Span, k: nat): (r: nat)
    requires k <= |lines|
    ensures k <= r <= |lines|
    ensures r < |lines| ==> !Blocked(lines[r], span)
    ensures forall i :: k <= i < r ==> Blocked(lines[i], span)
    decreases |lines| - k
  {
    if k == |lines| || !Blocked(lines[k], span) then k else Free(lines, span, k + 1)
  }

  /** The request's own line if it is free or the span has zero length, else first-fit; lines count from 0. */
  function FindLine(lines: seq<Line>, sticky: Option<nat>, span: Span): (k: nat)
    requires sticky.Some? ==> sticky.value < |lines|
    ensures k <= |lines|
    ensures k < |lines| ==> !Blocked(lines[k], span) || span.start == span.end
    ensures k == |lines| ==> forall i :: 0 <= i < |lines| ==> Blocked(lines[i], span)
  {
    if sticky.Some? && (span.start == span.end || !Blocked(lines[sticky.value], span)) then sticky.value
    else Free(lines, span, 0)
  }

  /** k is the first line that is clear for the span, or one past the last. */
  predicate FirstClear(lines: seq<Line>, span: Span, k: nat) {
    k <= |lines| && (k < |lines| ==> Clear(lines[k], span)) && forall i :: 0 <= i < k ==> !Clear(lines[i], span)
  }

  /** A clear sticky line stays; a zero-length span stays in any case; otherwise the first clear line. */
  predicate RightLine(lines: seq<Line>, sticky: Option<nat>, span: Span, k: nat)
    requires sticky.Some? ==> sticky.value < |lines|
  {
    if sticky.Some? && (span.start == span.end || Clear(lines[sticky.value], span)) then k == sticky.value
    else FirstClear(lines, span, k)
  }

  lemma ChoiceIsRight(lines: seq<Line>, sticky: Option<nat>, span: Span)
    requires AllGood(lines) && (sticky.Some? ==> sticky.value < |lines|)
    ensures RightLine(lines, sticky, span, FindLine(lines, sticky, span))
  {
    forall i | 0 <= i < |lines| ensures Blocked(lines[i], span) <==> !Clear(lines[i], span) {
      BlockedIffObstructed(lines[i], span);
    }
  }

  ghost predicate Apart(line: Line, span: Span) {
    forall i :: 0 <= i < |line| ==> !Meets(line[i], span)
  }

  /** Sticky first-fit, said with shared instants: a sticky line that the span does not meet is the answer,
      otherwise the least line it does not meet, or a new one. */
  lemma StickyThenFirstFit(lines: seq<Line>, sticky: Option<nat>, span: Span)
    requires AllGood(lines) && (sticky.Some? ==> sticky.value < |lines|) && span.start < span.end
    ensures var k := FindLine(lines, sticky, span);
            if sticky.Some? && Apart(lines[sticky.value], span) then k == sticky.value
            else k <= |lines| && (k < |lines| ==> Apart(lines[k], span))
                 && forall i :: 0 <= i < k ==> !Apart(lines[i], span)
  {
    forall i | 0 <= i < |lines| ensures Blocked(lines[i], span) <==> !Apart(lines[i], span) {
      TestIsExact(lines[i], span);
    }
  }

  function PutOn(lines: seq<Line>, k: nat, span: Span): seq<Line>
    requires k <= |lines|
  {
    if k < |lines| then lines[k := Insert(lines[k], span)] else lines + [Insert([], span)]
  }

  predicate AllGood(lines: seq<Line>) {
    forall k :: 0 <= k < |lines| ==> Good(lines[k])
  }

  lemma PutKeeps(lines: seq<Line>, sticky: Option<nat>, span: Span)
    requires sticky.Some? ==> sticky.value < |lines|
    requires AllGood(lines) && span.start != span.end
    ensures AllGood(PutOn(lines, FindLine(lines, sticky, span), span))
  {
    var k := FindLine(lines, sticky, span);
    if k < |lines| { CheckedInsertKeeps(lines[k], span); }
  }

  /** A zero-length span that the test blocks lies inside another one, and inserting it spoils the line. */
  lemma BlockedInsertSpoils(line: Line, span: Span)
    requires Good(line) && Blocked(line, span) && span.start == span.end
    ensures !Good(Insert(line, span))
  {
    var r := Rank(line, Key(span.start, At(span.end)));
    var i := Rank(line, Key(span.start, MinusInfinity));
    RankSplits(line, Key(span.start, At(span.end)));
    RankSplits(line, Key(span.start, MinusInfinity));
    assert line[i - 1].end > span.start;
    assert Insert(line, span)[r] == span && Insert(line, span)[i - 1] == line[i - 1];
  }

  /** Exactly when one placement keeps all lines good: unless a zero-length span goes unchecked to a sticky line
      that blocks it. */
  lemma PutKeepsIff(lines: seq<Line>, sticky: Option<nat>, span: Span)
    requires (sticky.Some? ==> sticky.value < |lines|) && AllGood(lines)
    ensures AllGood(PutOn(lines, FindLine(lines, sticky, span), span))
       <==> !(span.start == span.end && sticky.Some? && Blocked(lines[sticky.value], span))
  {
    var k := FindLine(lines, sticky, span);
    if span.start == span.end && sticky.Some? && Blocked(lines[sticky.value], span) {
      BlockedInsertSpoils(lines[k], span);
      assert PutOn(lines, k, span)[k] == Insert(lines[k], span);
    } else if k < |lines| {
      CheckedInsertKeeps(lines[k], span);
    } else {
      CheckedInsertKeeps([], span);
    }
  }

  /** Place the spans of one request, in the given order, on one pid's lines. */
  function PlaceOn(lines: seq<Line>, sticky: Option<nat>, spans: seq<Span>): seq<Line>
    requires sticky.Some? ==> sticky.value < |lines|
    decreases |spans|
  {
    if spans == [] then lines
    else
      var k := FindLine(lines, sticky, spans[0]);
      PlaceOn(PutOn(lines, k, spans[0]), Some(k), spans[1..])
  }

  // ---------------------------------------------------------------- exactly which spans are harmless

  ghost predicate NonZero(spans: seq<Span>) {
    forall i :: 0 <= i < |spans| ==> spans[i].start != spans[i].end
  }

  /** No two spans of positive length share an instant of the line. */
  ghost predicate Disjoint(line: Line) {
    forall i, j :: 0 <= i < j < |line| && line[i].start < line[i].end && line[j].start < line[j].end ==>
      !Meets(line[i], line[j])
  }

  ghost predicate AllDisjoint(lines: seq<Line>) {
    forall k :: 0 <= k < |lines| ==> Disjoint(lines[k])
  }

  lemma GoodIsDisjoint(lines: seq<Line>)
    requires AllGood(lines)
    ensures AllDisjoint(lines)
  {}

  lemma {:induction false} PlaceOnKeeps(lines: seq<Line>, sticky: Option<nat>, spans: seq<Span>)
    requires sticky.Some? ==> sticky.value < |lines|
    requires AllGood(lines) && NonZero(spans)
    ensures AllGood(PlaceOn(lines, sticky, spans))
    decreases |spans|
  {
    if spans != [] {
      PutKeeps(lines, sticky, spans[0]);
      var k := FindLine(lines, sticky, spans[0]);
      PlaceOnKeeps(PutOn(lines, k, spans[0]), Some(k), spans[1..]);
    }
  }

  /** Harmless: however it is surrounded by spans of non-zero length, no line ends up with an overlap. */
  ghost predicate Harmless(z: Span) {
    forall before, after :: NonZero(before) && NonZero(after) ==>
      AllDisjoint(PlaceOn([], None, before + [z] + after))
  }

  /** A zero-length span goes unchecked inside a longer one and then hides it from the next test. */
  lemma ZeroLengthMasks(z: Span)
    requires z.start == z.end
    ensures var a, b := Span(z.start - 1, z.start + 3), Span(z.start + 1, z.start + 2);
            && PlaceOn([], None, [a, z, b]) == [[a, z, b]]
            && !Disjoint([a, z, b])
  {
    var a, b := Span(z.start - 1, z.start + 3), Span(z.start + 1, z.start + 2);
    assert Insert([], a) == [a];
    assert Insert([a], z) == [a, z] by { assert Rank([z][1..], Key(z.start, At(z.end))) == 0; assert [a][1..] == []; }
    var line := [a, z];
    assert line[1..] == [z] && [z][1..] == [];
    assert Rank([z], Key(b.start, MinusInfinity)) == 1 && Rank([z], Key(b.start, At(b.end))) == 1;
    assert Rank(line, Key(b.start, MinusInfinity)) == 2 && Rank(line, Key(b.start, At(b.end))) == 2;
    assert Insert(line, b) == [a, z, b];
    assert !Blocked(line, b);
    assert FindLine([[a]], Some(0), z) == 0 && FindLine([line], Some(0), b) == 0;
    assert PutOn([[a]], 0, z) == [line] && PutOn([line], 0, b) == [[a, z, b]];
    var spans := [a, z, b];
    assert spans[1..] == [z, b] && spans[1..][1..] == [b] && spans[1..][1..][1..] == [];
    assert PlaceOn([line], Some(0), [b]) == [[a, z, b]];
    assert PlaceOn([[a]], Some(0), [z, b]) == [[a, z, b]];
    assert FindLine([], None, a) == 0 && PutOn([], 0, a) == [[a]];
    assert Covers(a, b.start) && Covers(b, b.start);
    assert Meets([a, z, b][0], [a, z, b][2]);
  }

  /** The layout promise holds around a span exactly when its trimmed length is not zero. */
  lemma HarmlessIffNonZero(z: Span)
    ensures Harmless(z) <==> z.start != z.end
  {
    if z.start != z.end {
      forall before, after | NonZero(before) && NonZero(after)
        ensures AllDisjoint(PlaceOn([], None, before + [z] + after))
      {
        PlaceOnKeeps([], None, before + [z] + after);
        GoodIsDisjoint(PlaceOn([], None, before + [z] + after));
      }
    } else {
      var a, b := Span(z.start - 1, z.start + 3), Span(z.start + 1, z.start + 2);
      ZeroLengthMasks(z);
      assert [a] + [z] + [b] == [a, z, b];
      assert NonZero([a]) && NonZero([b]);
      assert !Disjoint(PlaceOn([], None, [a] + [z] + [b])[0]);
    }
  }
}
