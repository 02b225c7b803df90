/** The HTML table parser: its callbacks on tags and data, which rows they deliver, and when the row list it
shares between its current row and its result makes a difference. */
module HtmlTable {
  import opened Text

  type Row = seq<string>

  datatype Event = StartTag(tag: string) | EndTag(tag: string) | Data(text: string)

  /** The delivered rows are `closed` followed by `times` references to the row being built. */
  datatype State = State(closed: seq<Row>, times: nat, row: Row, cell: string, inCell: bool)

  const INITIAL := State([], 0, [], "", false)

  function Repeat(row: Row, times: nat): (r: seq<Row>)
    ensures |r| == times && forall i :: 0 <= i < times ==> r[i] == row
  {
    seq(times, i => row)
  }

  function Rows(s: State): seq<Row> {
    s.closed + Repeat(s.row, s.times)
  }

  predicate IsCell(tag: string) {
    tag == "td" || tag == "th"
  }

  function Step(s: State, e: Event): State {
    match e
    case StartTag(tag) =>
      if tag == "tr" then s.(closed := Rows(s), times := 0, row := [])
      else if IsCell(tag) then s.(inCell := true, cell := "")
      else s
    case EndTag(tag) =>
      if IsCell(tag) then s.(row := s.row + [Strip(s.cell)], inCell := false)
      else if tag == "tr" && s.row != [] then s.(times := s.times + 1)
      else s
    case Data(text) => if s.inCell then s.(cell := s.cell + text) else s
  }

  function RunFrom(s: State, events: seq<Event>): State {
    if events == [] then s
    else
      var n := |events| - 1;
      Step(RunFrom(s, events[..n]), events[n])
  }

  function Run(events: seq<Event>): State { RunFrom(INITIAL, events) }

  // ---------------------------------------------------------------- the object

  class RowList {
    var cells: Row

    constructor ()
      ensures cells == []
    {
      cells := [];
    }
  }

  class HTMLTableParser {
    var rows: seq<RowList>
    var currentRow: RowList
    var currentCell: string
    var inCell: bool
    ghost var view: State

    ghost predicate Valid()
      reads this, currentRow, rows
    {
      && currentCell == view.cell && inCell == view.inCell && currentRow.cells == view.row
      && |rows| == |view.closed| + view.times
      && (forall i :: 0 <= i < |view.closed| ==> rows[i] != currentRow && rows[i].cells == view.closed[i])
      && (forall i :: |view.closed| <= i < |rows| ==> rows[i] == currentRow)
    }

    constructor ()
      ensures Valid() && view == INITIAL && fresh(currentRow)
    {
      rows := [];
      currentRow := new RowList();
      currentCell := "";
      inCell := false;
      view := INITIAL;
    }

    /** What the row lists hold, as values. */
    lemma Delivered()
      requires Valid()
      ensures |rows| == |Rows(view)| && forall i :: 0 <= i < |rows| ==> rows[i].cells == Rows(view)[i]
    {}

    method HandleStartTag(tag: string)
      requires Valid()
      modifies this
      ensures Valid() && view == Step(old(view), StartTag(tag))
      ensures currentRow == old(currentRow) || fresh(currentRow)
    {
      if tag == "tr" {
        Delivered();
        currentRow := new RowList();
      } else if tag == "td" || tag == "th" {
        inCell := true;
        currentCell := "";
      }
      view := Step(view, StartTag(tag));
    }

    method HandleEndTag(tag: string)
      requires Valid()
      modifies this, currentRow
      ensures Valid() && view == Step(old(view), EndTag(tag))
      ensures currentRow == old(currentRow)
    {
      if tag == "td" || tag == "th" {
        currentRow.cells := currentRow.cells + [Strip(currentCell)];
        inCell := false;
      } else if tag == "tr" && currentRow.cells != [] {
        rows := rows + [currentRow];
      }
      view := Step(view, EndTag(tag));
    }

    method HandleData(data: string)
      requires Valid()
      modifies this
      ensures Valid() && view == Step(old(view), Data(data))
      ensures currentRow == old(currentRow)
    {
      if inCell {
        currentCell := currentCell + data;
      }
      view := Step(view, Data(data));
    }

    /** Delivering a stream of callbacks reaches the state the transition function gives. */
    method Feed(events: seq<Event>)
      requires Valid()
      modifies this, currentRow
      ensures Valid() && view == RunFrom(old(view), events)
    {
      for i := 0 to |events|
        invariant Valid() && view == RunFrom(old(view), events[..i])
        invariant currentRow == old(currentRow) || fresh(currentRow)
      {
        assert events[..i + 1][..i] == events[..i];
        match events[i]
        case StartTag(tag) => HandleStartTag(tag);
        case EndTag(tag) => HandleEndTag(tag);
        case Data(text) => HandleData(text);
      }
      assert events[..|events|] == events;
    }
  }

  // ---------------------------------------------------------------- reading a table

  /** A cell and the pieces its text arrives in. */
  datatype Cell = Cell(header: bool, chunks: seq<string>)

  function Tag(c: Cell): string { if c.header then "th" else "td" }

  function Concat(chunks: seq<string>): string {
    if chunks == [] then "" else Concat(chunks[..|chunks| - 1]) + chunks[|chunks| - 1]
  }

  function TextOf(c: Cell): string { Strip(Concat(c.chunks)) }

  function Texts(cells: seq<Cell>): (r: Row)
    ensures |r| == |cells| && forall i :: 0 <= i < |r| ==> r[i] == TextOf(cells[i])
  {
    seq(|cells|, i requires 0 <= i < |cells| => TextOf(cells[i]))
  }

  function Chunks(chunks: seq<string>): (r: seq<Event>)
    ensures |r| == |chunks| && forall i :: 0 <= i < |r| ==> r[i] == Data(chunks[i])
  {
    seq(|chunks|, i requires 0 <= i < |chunks| => Data(chunks[i]))
  }

  function CellEvents(c: Cell): seq<Event> {
    [StartTag(Tag(c))] + Chunks(c.chunks) + [EndTag(Tag(c))]
  }

  function CellsEvents(cells: seq<Cell>): seq<Event> {
    if cells == [] then [] else CellsEvents(cells[..|cells| - 1]) + CellEvents(cells[|cells| - 1])
  }

  function RowEvents(cells: seq<Cell>): seq<Event> {
    [StartTag("tr")] + CellsEvents(cells) + [EndTag("tr")]
  }

  function TableEvents(table: seq<seq<Cell>>): seq<Event> {
    if table == [] then [] else TableEvents(table[..|table| - 1]) + RowEvents(table[|table| - 1])
  }

  /** The rows of a table, as text; a row without cells gives none. */
  function TableRows(table: seq<seq<Cell>>): seq<Row> {
    if table == [] then []
    else
      var cells := table[|table| - 1];
      TableRows(table[..|table| - 1]) + if cells == [] then [] else [Texts(cells)]
  }

  lemma {:induction false} RunConcat(s: State, a: seq<Event>, b: seq<Event>)
    ensures RunFrom(s, a + b) == RunFrom(RunFrom(s, a), b)
  {
    if b == [] {
      assert a + b == a;
    } else {
      var n := |b| - 1;
      assert (a + b)[..|a| + n] == a + b[..n];
      RunConcat(s, a, b[..n]);
    }
  }

  lemma RunOne(s: State, e: Event)
    ensures RunFrom(s, [e]) == Step(s, e)
  {
    assert [e][..0] == [];
  }

  lemma {:induction false} RunChunks(s: State, chunks: seq<string>)
    requires s.inCell
    ensures RunFrom(s, Chunks(chunks)) == s.(cell := s.cell + Concat(chunks))
  {
    if chunks == [] {
      assert s.cell + "" == s.cell;
    } else {
      var n := |chunks| - 1;
      assert Chunks(chunks)[..n] == Chunks(chunks[..n]);
      RunChunks(s, chunks[..n]);
      assert s.cell + Concat(chunks) == s.cell + Concat(chunks[..n]) + chunks[n];
    }
  }

  lemma RunCell(s: State, c: Cell)
    ensures RunFrom(s, CellEvents(c))
         == s.(row := s.row + [TextOf(c)], cell := Concat(c.chunks), inCell := false)
  {
    var start := Step(s, StartTag(Tag(c)));
    RunOne(s, StartTag(Tag(c)));
    RunChunks(start, c.chunks);
    assert "" + Concat(c.chunks) == Concat(c.chunks);
    var read := start.(cell := Concat(c.chunks));
    RunOne(read, EndTag(Tag(c)));
    RunConcat(s, [StartTag(Tag(c))], Chunks(c.chunks));
    RunConcat(s, [StartTag(Tag(c))] + Chunks(c.chunks), [EndTag(Tag(c))]);
  }

  /** The state differs only by the cells read and by the cell buffer. */
  ghost predicate Read(s: State, t: State, texts: Row) {
    t.closed == s.closed && t.times == s.times && t.row == s.row + texts
  }

  lemma ReadOneMore(s: State, t: State, texts: Row, c: Cell)
    requires Read(s, t, texts)
    ensures Read(s, RunFrom(t, CellEvents(c)), texts + [TextOf(c)])
  {
    RunCell(t, c);
    assert s.row + texts + [TextOf(c)] == s.row + (texts + [TextOf(c)]);
  }

  lemma TextsExtend(cells: seq<Cell>, c: Cell)
    ensures Texts(cells + [c]) == Texts(cells) + [TextOf(c)]
  {}

  lemma {:induction false} RunCells(s: State, cells: seq<Cell>)
    ensures Read(s, RunFrom(s, CellsEvents(cells)), Texts(cells))
  {
    if cells == [] {
      assert s.row + [] == s.row;
    } else {
      var n := |cells| - 1;
      var first, last := cells[..n], cells[n];
      assert cells == first + [last];
      RunCells(s, first);
      ReadOneMore(s, RunFrom(s, CellsEvents(first)), Texts(first), last);
      RunConcat(s, CellsEvents(first), CellEvents(last));
      TextsExtend(first, last);
    }
  }

  lemma RunRow(s: State, cells: seq<Cell>)
    ensures Rows(RunFrom(s, RowEvents(cells))) == Rows(s) + if cells == [] then [] else [Texts(cells)]
  {
    var open, close := [StartTag("tr")], [EndTag("tr")];
    RunOne(s, StartTag("tr"));
    var t := RunFrom(s, open);
    RunCells(t, cells);
    var u := RunFrom(t, CellsEvents(cells));
    assert [] + Texts(cells) == Texts(cells);
    RunOne(u, EndTag("tr"));
    RunConcat(s, open, CellsEvents(cells));
    RunConcat(s, open + CellsEvents(cells), close);
  }

  /** The events of a table deliver its rows, whatever pieces the text arrives in. */
  lemma {:induction false} TableIsRead(table: seq<seq<Cell>>)
    ensures Rows(Run(TableEvents(table))) == TableRows(table)
  {
    if table != [] {
      var n := |table| - 1;
      TableIsRead(table[..n]);
      RunRow(Run(TableEvents(table[..n])), table[n]);
      RunConcat(INITIAL, TableEvents(table[..n]), RowEvents(table[n]));
    }
  }

  /** Other tags, and data outside cells, play no part. */
  predicate Matters(s: State, e: Event) {
    match e
    case StartTag(tag) => tag == "tr" || IsCell(tag)
    case EndTag(tag) => tag == "tr" || IsCell(tag)
    case Data(_) => s.inCell
  }

  function Essential(events: seq<Event>): seq<Event> {
    if events == [] then []
    else
      var n := |events| - 1;
      Essential(events[..n]) + if Matters(Run(events[..n]), events[n]) then [events[n]] else []
  }

  lemma {:induction false} RunEssential(events: seq<Event>)
    ensures Run(Essential(events)) == Run(events)
  {
    if events != [] {
      var n := |events| - 1;
      RunEssential(events[..n]);
      var before := Essential(events[..n]);
      if Matters(Run(events[..n]), events[n]) {
        RunConcat(INITIAL, before, [events[n]]);
        RunOne(Run(before), events[n]);
      } else {
        assert before + [] == before;
      }
    }
  }

  /** A table is read the same among any markup and text around and between its cells. */
  lemma NoisyTableIsRead(events: seq<Event>, table: seq<seq<Cell>>)
    requires Essential(events) == TableEvents(table)
    ensures Rows(Run(events)) == TableRows(table)
  {
    RunEssential(events);
    TableIsRead(table);
  }

  // ---------------------------------------------------------------- what can be delivered

  ghost predicate Stripped(row: Row) {
    forall i :: 0 <= i < |row| ==> Trimmed(row[i], IsSpace)
  }

  ghost predicate Readable(rows: seq<Row>) {
    forall i :: 0 <= i < |rows| ==> rows[i] != [] && Stripped(rows[i])
  }

  lemma {:induction false} DeliveredIsReadable(events: seq<Event>)
    ensures var s := Run(events); Readable(s.closed) && Stripped(s.row) && (s.times > 0 ==> s.row != [])
  {
    if events != [] {
      var n := |events| - 1;
      DeliveredIsReadable(events[..n]);
      TrimFacts(Run(events[..n]).cell, IsSpace);
    }
  }

  function CellOf(text: string): Cell { Cell(false, [text]) }

  function CellsOf(row: Row): (r: seq<Cell>)
    ensures |r| == |row| && forall i :: 0 <= i < |r| ==> r[i] == CellOf(row[i])
  {
    seq(|row|, i requires 0 <= i < |row| => CellOf(row[i]))
  }

  function TableOf(rows: seq<Row>): (r: seq<seq<Cell>>)
    ensures |r| == |rows| && forall i :: 0 <= i < |r| ==> r[i] == CellsOf(rows[i])
  {
    seq(|rows|, i requires 0 <= i < |rows| => CellsOf(rows[i]))
  }

  lemma TextOfCell(text: string)
    requires Trimmed(text, IsSpace)
    ensures TextOf(CellOf(text)) == text
  {
    assert [text][..0] == [];
    assert "" + text == text && "" + text + "" == text;
    TrimIs("", text, "", IsSpace);
  }

  lemma TextsOfRow(row: Row)
    requires Stripped(row)
    ensures Texts(CellsOf(row)) == row
  {
    forall i | 0 <= i < |row| ensures TextOf(CellOf(row[i])) == row[i] { TextOfCell(row[i]); }
  }

  lemma {:induction false} RowsOfTable(rows: seq<Row>)
    requires Readable(rows)
    ensures TableRows(TableOf(rows)) == rows
  {
    if rows != [] {
      var n := |rows| - 1;
      RowsOfTable(rows[..n]);
      TextsOfRow(rows[n]);
      assert TableOf(rows)[..n] == TableOf(rows[..n]);
    }
  }

  /** Some stream of callbacks delivers the rows exactly when each is non-empty with trimmed cells, and then the
      table's own events do. */
  lemma RoundTrip(rows: seq<Row>)
    ensures Readable(rows) <==> exists events :: Rows(Run(events)) == rows
    ensures Readable(rows) ==> Rows(Run(TableEvents(TableOf(rows)))) == rows
  {
    if Readable(rows) {
      TableIsRead(TableOf(rows));
      RowsOfTable(rows);
    }
    if events :| Rows(Run(events)) == rows {
      DeliveredIsReadable(events);
    }
  }

  // ---------------------------------------------------------------- the shared row list

  /** The row an event delivers, as it stands at that moment. */
  function Snapshot(s: State, e: Event): seq<Row> {
    if e == EndTag("tr") && s.row != [] then [s.row] else []
  }

  /** The rows as they stood when each was delivered. */
  function Snapshots(events: seq<Event>): seq<Row> {
    if events == [] then []
    else
      var n := |events| - 1;
      Snapshots(events[..n]) + Snapshot(Run(events[..n]), events[n])
  }

  /** A cell closes although the row was delivered and no other was started. */
  predicate Reopens(s: State, e: Event) {
    e.EndTag? && IsCell(e.tag) && s.times > 0
  }

  predicate CellEnds(e: Event) {
    e.EndTag? && IsCell(e.tag)
  }

  /** Positions k < i: a cell ends at k, the row ends at i, and no row starts after k. */
  ghost predicate DeliveredAt(events: seq<Event>, k: int, i: int) {
    0 <= k < i < |events| && CellEnds(events[k]) && events[i] == EndTag("tr") && NoRowStarts(events, k)
  }

  predicate NoRowStarts(events: seq<Event>, k: int)
    requires 0 <= k
  {
    forall j :: k <= j < |events| ==> events[j] != StartTag("tr")
  }

  /** At j a cell ends after a row was delivered, with no row started in between. */
  ghost predicate ReopenedAt(events: seq<Event>, j: int) {
    0 <= j < |events| && CellEnds(events[j]) && exists k, i :: DeliveredAt(events[..j], k, i)
  }

  /** No cell ends between the end of a row with cells and the next row's start. */
  ghost predicate NeverReopened(events: seq<Event>) {
    forall j :: !ReopenedAt(events, j)
  }

  /** The row being built holds a cell exactly when some cell ended since the last row start. */
  lemma {:induction false} RowHoldsCell(events: seq<Event>)
    ensures Run(events).row != [] <==> exists k :: 0 <= k < |events| && CellEnds(events[k]) && NoRowStarts(events, k)
  {
    if events != [] {
      var n := |events| - 1;
      var before := events[..n];
      RowHoldsCell(before);
      if k :| 0 <= k < n && CellEnds(before[k]) && NoRowStarts(before, k) {
        if events[n] != StartTag("tr") {
          assert forall j :: k <= j < n ==> events[j] == before[j];
          assert CellEnds(events[k]) && NoRowStarts(events, k);
        }
      }
      if k :| 0 <= k < |events| && CellEnds(events[k]) && NoRowStarts(events, k) {
        if k < n {
          assert forall j :: k <= j < n ==> events[j] == before[j];
          assert CellEnds(before[k]) && NoRowStarts(before, k);
        }
      }
      if CellEnds(events[n]) { assert NoRowStarts(events, n); }
    }
  }

  lemma DeliveredBefore(events: seq<Event>, k: int, i: int)
    requires events != [] && events[|events| - 1] != StartTag("tr")
    requires DeliveredAt(events[..|events| - 1], k, i)
    ensures DeliveredAt(events, k, i)
  {
    var before := events[..|events| - 1];
    assert forall j :: 0 <= j < |before| ==> events[j] == before[j];
  }

  lemma DeliveredAfter(events: seq<Event>, k: int, i: int)
    requires DeliveredAt(events, k, i) && i < |events| - 1
    ensures DeliveredAt(events[..|events| - 1], k, i)
  {
    var before := events[..|events| - 1];
    assert forall j :: 0 <= j < |before| ==> events[j] == before[j];
  }

  /** The current row has been delivered exactly when a row with cells ended since the last row start. */
  lemma {:induction false} TimesCount(events: seq<Event>)
    ensures Run(events).times > 0 <==> exists k, i :: DeliveredAt(events, k, i)
  {
    if events != [] {
      var n := |events| - 1;
      var before := events[..n];
      TimesCount(before);
      RowHoldsCell(before);
      assert forall j :: 0 <= j < n ==> events[j] == before[j];
      if Run(events).times > 0 {
        if Run(before).times > 0 {
          var k, i :| DeliveredAt(before, k, i);
          DeliveredBefore(events, k, i);
        } else {
          var k :| 0 <= k < n && CellEnds(before[k]) && NoRowStarts(before, k);
          assert DeliveredAt(events, k, n);
        }
      }
      if k, i :| DeliveredAt(events, k, i) {
        if i < n {
          DeliveredAfter(events, k, i);
        } else {
          assert CellEnds(before[k]) && NoRowStarts(before, k);
        }
      }
    }
  }

  lemma ReopensHere(events: seq<Event>)
    requires events != []
    ensures var n := |events| - 1; Reopens(Run(events[..n]), events[n]) <==> ReopenedAt(events, n)
  {
    TimesCount(events[..|events| - 1]);
  }

  lemma NeverReopenedSplits(events: seq<Event>)
    requires events != []
    ensures var n := |events| - 1; NeverReopened(events) <==> NeverReopened(events[..n]) && !ReopenedAt(events, n)
  {
    var n := |events| - 1;
    forall j | 0 <= j < n ensures ReopenedAt(events, j) <==> ReopenedAt(events[..n], j) {
      assert events[..n][..j] == events[..j];
    }
    if !NeverReopened(events) {
      var j :| ReopenedAt(events, j);
      if j < n { assert ReopenedAt(events[..n], j); }
    }
    if !NeverReopened(events[..n]) {
      var j :| ReopenedAt(events[..n], j);
      assert ReopenedAt(events, j);
    }
  }

  ghost predicate Grown(before: seq<Row>, after: seq<Row>) {
    && |before| <= |after|
    && forall i :: 0 <= i < |before| ==> before[i] <= after[i]
  }

  lemma StepGrows(s: State, e: Event)
    ensures Grown(Rows(s), Rows(Step(s, e)))
  {}

  lemma SnapshotStep(s: State, e: Event, snapshots: seq<Row>)
    requires |snapshots| == |Rows(s)| && Grown(snapshots, Rows(s))
    ensures |snapshots + Snapshot(s, e)| == |Rows(Step(s, e))| && Grown(snapshots + Snapshot(s, e), Rows(Step(s, e)))
  {
    StepGrows(s, e);
  }

  lemma {:induction false} SnapshotsArePrefixes(events: seq<Event>)
    ensures |Snapshots(events)| == |Rows(Run(events))| && Grown(Snapshots(events), Rows(Run(events)))
  {
    if events != [] {
      var n := |events| - 1;
      SnapshotsArePrefixes(events[..n]);
      SnapshotStep(Run(events[..n]), events[n], Snapshots(events[..n]));
    }
  }

  /** A row longer than its snapshot never becomes equal to it again. */
  lemma StaysLonger(s: State, e: Event, snapshots: seq<Row>)
    requires |snapshots| == |Rows(s)| && Grown(snapshots, Rows(s)) && snapshots != Rows(s)
    ensures Rows(Step(s, e)) != snapshots + Snapshot(s, e)
  {
    StepGrows(s, e);
    var i :| 0 <= i < |snapshots| && snapshots[i] != Rows(s)[i];
    assert |(snapshots + Snapshot(s, e))[i]| < |Rows(Step(s, e))[i]|;
  }

  lemma ReopeningShows(s: State, e: Event)
    ensures Rows(Step(s, e)) == Rows(s) + Snapshot(s, e) <==> !Reopens(s, e)
  {
    if Reopens(s, e) {
      var i := |s.closed|;
      assert |(Rows(s) + Snapshot(s, e))[i]| < |Rows(Step(s, e))[i]|;
    }
  }

  /** The result holds each row as it was delivered exactly when no cell ends after the end of a row with cells and
      before the next row's start. */
  lemma {:induction false} SharedRowIffReopened(events: seq<Event>)
    ensures Rows(Run(events)) == Snapshots(events) <==> NeverReopened(events)
  {
    if events != [] {
      var n := |events| - 1;
      var s, e, snapshots := Run(events[..n]), events[n], Snapshots(events[..n]);
      SharedRowIffReopened(events[..n]);
      SnapshotsArePrefixes(events[..n]);
      NeverReopenedSplits(events);
      ReopensHere(events);
      if snapshots != Rows(s) {
        StaysLonger(s, e, snapshots);
      } else {
        ReopeningShows(s, e);
      }
    }
  }

  lemma RunExtend(s: State, events: seq<Event>, e: Event)
    ensures RunFrom(s, events + [e]) == Step(RunFrom(s, events), e)
  {
    assert (events + [e])[..|events|] == events;
  }

  /** A row that is not reopened is delivered twice, both times with the cells of both. */
  lemma UnopenedRowIsShared()
    ensures var row := CellEvents(CellOf("")) + [EndTag("tr")]; Rows(Run(row + row)) == [["", ""], ["", ""]]
  {
    var cell := CellOf("");
    var row := CellEvents(cell) + [EndTag("tr")];
    TextOfCell("");
    RunCell(INITIAL, cell);
    RunExtend(INITIAL, CellEvents(cell), EndTag("tr"));
    var once := Run(row);
    RunCell(once, cell);
    RunExtend(once, CellEvents(cell), EndTag("tr"));
    RunConcat(INITIAL, row, row);
    assert RunFrom(once, row).row == ["", ""] && RunFrom(once, row).times == 2;
  }
}
