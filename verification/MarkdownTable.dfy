/** The Markdown table parser, and which tables survive being written out and parsed again. */
module MarkdownTable {
  import opened Text
  import opened Wrappers

  type Row = seq<string>

  predicate InRule(c: char) {
    c == '-' || c == ':' || c == '|' || c == ' '
  }

  predicate IsSeparator(s: string) {
    s != "" && forall i :: 0 <= i < |s| ==> InRule(s[i])
  }

  /** The separator pattern: an optional bar, one or more rule characters, an optional bar. */
  ghost predicate PatternAt(s: string, i: int, j: int) {
    && 0 <= i < j <= |s|
    && (i == 0 || (i == 1 && s[0] == '|'))
    && (j == |s| || (j == |s| - 1 && s[j] == '|'))
    && forall k :: i <= k < j ==> InRule(s[k])
  }

  lemma SeparatorIsPattern(s: string)
    ensures IsSeparator(s) <==> exists i, j :: PatternAt(s, i, j)
  {
    if IsSeparator(s) {
      assert PatternAt(s, 0, |s|);
    }
  }

  function StripEach(cells: seq<string>): (r: seq<string>)
    ensures |r| == |cells| && forall i :: 0 <= i < |r| ==> r[i] == Strip(cells[i])
  {
    seq(|cells|, i requires 0 <= i < |cells| => Strip(cells[i]))
  }

  /** The row on a line, if it holds one: no bar or a separator line gives none. */
  function ParseLine(line: string): Option<Row> {
    var stripped := Strip(line);
    if '|' !in stripped || IsSeparator(stripped) then None
    else Some(StripEach(Split(Trim(stripped, IsBar))))
  }

  /** The rows found, line by line. */
  function FilterMap<A, B>(s: seq<A>, f: A -> Option<B>): (r: seq<B>)
    ensures |r| <= |s|
  {
    if s == [] then []
    else
      var n := |s| - 1;
      match f(s[n])
      case None => FilterMap(s[..n], f)
      case Some(b) => FilterMap(s[..n], f) + [b]
  }

  function ParseLines(lines: seq<string>): seq<Row> { FilterMap(lines, ParseLine) }

  function Parse(text: string): seq<Row> {
    ParseLines(Lines(text))
  }

  method ParseMarkdownTable(text: string) returns (rows: seq<Row>)
    ensures rows == Parse(text)
  {
    rows := [];
    var lines := Lines(text);
    for i := 0 to |lines|
      invariant rows == ParseLines(lines[..i])
    {
      assert lines[..i + 1][..i] == lines[..i];
      var stripped := Strip(lines[i]);
      if '|' !in stripped {
        continue;
      }
      if IsSeparator(stripped) {
        continue;
      }
      var cells := StripEach(Split(Trim(stripped, IsBar)));
      if cells != [] {
        rows := rows + [cells];
      }
    }
    assert lines[..|lines|] == lines;
  }

  // ---------------------------------------------------------------- what the parser can return

  ghost predicate CleanCell(c: string) {
    Trimmed(c, IsSpace) && '|' !in c && OneLine(c)
  }

  ghost predicate Clean(row: Row) {
    row != [] && forall i :: 0 <= i < |row| ==> CleanCell(row[i])
  }

  ghost predicate AllClean(rows: seq<Row>) {
    forall i :: 0 <= i < |rows| ==> Clean(rows[i])
  }

  lemma OneLinePart(part: string, whole: string)
    requires OneLine(whole) && forall c :: c in part ==> c in whole
    ensures OneLine(part)
  {
    forall i | 0 <= i < |part| ensures !IsBreak(part[i]) {
      assert part[i] in part;
      var j :| 0 <= j < |whole| && whole[j] == part[i];
    }
  }

  lemma ParsedRowIsClean(line: string)
    requires OneLine(line) && ParseLine(line).Some?
    ensures Clean(ParseLine(line).value)
  {
    var stripped := Strip(line);
    var inner := Trim(stripped, IsBar);
    TrimFacts(line, IsSpace);
    TrimFacts(stripped, IsBar);
    SplitFacts(inner);
    var row := ParseLine(line).value;
    forall i | 0 <= i < |row| ensures CleanCell(row[i]) {
      var piece := Split(inner)[i];
      assert Piece(piece, inner);
      TrimFacts(piece, IsSpace);
      OneLinePart(row[i], line);
    }
  }

  /** Every row of every parse is non-empty and its cells are trimmed, free of bars and of line breaks. */
  lemma {:induction false} ParsedLinesAreClean(lines: seq<string>)
    requires forall i :: 0 <= i < |lines| ==> OneLine(lines[i])
    ensures AllClean(ParseLines(lines))
  {
    if lines != [] {
      var n := |lines| - 1;
      ParsedLinesAreClean(lines[..n]);
      if ParseLine(lines[n]).Some? {
        ParsedRowIsClean(lines[n]);
      }
    }
  }

  lemma ParsedIsClean(text: string)
    ensures AllClean(Parse(text))
  {
    LinesAreOneLine(text);
    ParsedLinesAreClean(Lines(text));
  }

  // ---------------------------------------------------------------- writing a table

  function Padded(cells: Row, pad: char): (r: seq<string>)
    ensures |r| == |cells| && forall i :: 0 <= i < |r| ==> r[i] == [pad] + cells[i] + [pad]
  {
    seq(|cells|, i requires 0 <= i < |cells| => [pad] + cells[i] + [pad])
  }

  function PrintRow(cells: Row, pad: char): string {
    if cells == [] then "|" else "|" + JoinBars(Padded(cells, pad)) + "|"
  }

  function Rule(columns: nat): (r: string)
    ensures IsSeparator(r) && '|' in r
  {
    if columns == 0 then "|" else Rule(columns - 1) + "---|"
  }

  /** A line of text without a bar. */
  type Prose = s: string | '|' !in s && OneLine(s) witness ""

  /** A document as written: rows, with separator lines and prose anywhere between them. */
  datatype Mark = RowMark(row: Row) | RuleMark(columns: nat) | ProseMark(text: Prose)

  function RowOf(m: Mark): Option<Row> {
    if m.RowMark? then Some(m.row) else None
  }

  function RowsOf(marks: seq<Mark>): seq<Row> { FilterMap(marks, RowOf) }

  function PrintMark(m: Mark, pad: char): string {
    match m
    case RowMark(row) => PrintRow(row, pad)
    case RuleMark(columns) => Rule(columns)
    case ProseMark(text) => text
  }

  function PrintMarks(marks: seq<Mark>, pad: char): (r: seq<string>)
    ensures |r| == |marks| && forall i :: 0 <= i < |r| ==> r[i] == PrintMark(marks[i], pad)
  {
    seq(|marks|, i requires 0 <= i < |marks| => PrintMark(marks[i], pad))
  }

  function Print(marks: seq<Mark>, pad: char): string {
    Unlines(PrintMarks(marks, pad))
  }

  /** A padding character that trimming removes and that does not end a line. */
  ghost predicate IsPad(c: char) {
    IsSpace(c) && !IsBreak(c)
  }

  /** Every cell is made of rule characters, as in a row of dashes or of empty cells. */
  ghost predicate LooksLikeRule(row: Row) {
    forall i :: 0 <= i < |row| ==> forall c :: c in row[i] ==> InRule(c)
  }

  lemma {:induction false} JoinLast(pieces: seq<string>)
    requires pieces != [] && pieces[|pieces| - 1] != ""
    ensures JoinBars(pieces) != ""
    ensures var s, last := JoinBars(pieces), pieces[|pieces| - 1]; s[|s| - 1] == last[|last| - 1]
  {
    if |pieces| > 1 { JoinLast(pieces[1..]); }
  }

  lemma JoinEnds(pieces: seq<string>)
    requires pieces != [] && pieces[0] != "" && pieces[|pieces| - 1] != ""
    ensures JoinBars(pieces) != "" && JoinBars(pieces)[0] == pieces[0][0]
    ensures var s, last := JoinBars(pieces), pieces[|pieces| - 1]; s[|s| - 1] == last[|last| - 1]
  {
    JoinLast(pieces);
  }

  /** The characters of a joined line are the bars and those of the pieces. */
  lemma {:induction false} JoinChars(pieces: seq<string>, c: char)
    requires pieces != []
    ensures c in JoinBars(pieces) <==> (|pieces| > 1 && c == '|') || exists i :: 0 <= i < |pieces| && c in pieces[i]
  {
    if |pieces| > 1 {
      var rest := pieces[1..];
      JoinChars(rest, c);
      assert c in JoinBars(pieces) <==> c in pieces[0] || c == '|' || c in JoinBars(rest);
      if i :| 0 <= i < |rest| && c in rest[i] {
        assert c in pieces[i + 1];
      }
      if i :| 0 <= i < |pieces| && c in pieces[i] {
        if i > 0 { assert c in rest[i - 1]; }
      }
    }
  }

  lemma BarEndsAreTrimmed(s: string)
    requires |s| >= 2 && s[0] == '|' && s[|s| - 1] == '|'
    ensures Strip(s) == s
  {
    TrimIs("", s, "", IsSpace);
    assert "" + s + "" == s;
  }

  lemma CellIsStripped(cell: string, pad: char)
    requires CleanCell(cell) && IsSpace(pad)
    ensures Strip([pad] + cell + [pad]) == cell
  {
    TrimIs([pad], cell, [pad], IsSpace);
  }

  lemma CellsComeBack(row: Row, pad: char)
    requires Clean(row) && IsSpace(pad)
    ensures StripEach(Split(Trim(PrintRow(row, pad), IsBar))) == row
  {
    var cells := Padded(row, pad);
    var inner := JoinBars(cells);
    JoinEnds(cells);
    TrimIs("|", inner, "|", IsBar);
    SplitJoin(cells);
    forall i | 0 <= i < |row| ensures Strip(cells[i]) == row[i] {
      CellIsStripped(row[i], pad);
    }
  }

  lemma SeparatorLooksLikeRule(row: Row, pad: char)
    requires row != [] && IsSpace(pad) && IsSeparator(PrintRow(row, pad))
    ensures pad == ' ' && LooksLikeRule(row)
  {
    var cells := Padded(row, pad);
    var line := PrintRow(row, pad);
    forall i, c | 0 <= i < |row| && c in cells[i] ensures InRule(c) {
      JoinChars(cells, c);
      assert c in line;
    }
    assert cells[0][0] == pad && pad in cells[0];
    assert InRule(pad);
    forall i, c | 0 <= i < |row| && c in row[i] ensures InRule(c) {
      assert c in cells[i];
    }
  }

  /** A printed row reads as a separator exactly when it is padded with spaces and looks like a rule. */
  lemma PrintedSeparator(row: Row, pad: char)
    requires row != [] && IsSpace(pad)
    ensures IsSeparator(PrintRow(row, pad)) <==> pad == ' ' && LooksLikeRule(row)
  {
    var cells := Padded(row, pad);
    var line := PrintRow(row, pad);
    if IsSeparator(line) {
      SeparatorLooksLikeRule(row, pad);
    }
    if pad == ' ' && LooksLikeRule(row) {
      forall k | 0 <= k < |line| ensures InRule(line[k]) {
        if line[k] in JoinBars(cells) {
          JoinChars(cells, line[k]);
          if i :| 0 <= i < |cells| && line[k] in cells[i] {
            assert line[k] == pad || line[k] in row[i];
          }
        }
      }
    }
  }

  /** What becomes of a clean row that is printed and parsed. */
  lemma RowRoundTrip(row: Row, pad: char)
    requires Clean(row) && IsSpace(pad)
    ensures ParseLine(PrintRow(row, pad)) == if pad == ' ' && LooksLikeRule(row) then None else Some(row)
  {
    JoinEnds(Padded(row, pad));
    BarEndsAreTrimmed(PrintRow(row, pad));
    CellsComeBack(row, pad);
    PrintedSeparator(row, pad);
  }

  // ---------------------------------------------------------------- any line

  /** A line without a bar gives no row. */
  lemma NoBarNoRow(line: string)
    requires '|' !in line
    ensures ParseLine(line).None?
  {
    TrimFacts(line, IsSpace);
  }

  /** What a line gives that is written with any number of outer bars, also none, between any spaces: its cells
      without their spaces, unless it has no bar at all or is a separator. */
  lemma RowOnLine(left: string, bars: string, pieces: seq<string>, bars': string, right: string)
    requires All(left, IsSpace) && All(right, IsSpace) && All(bars, IsBar) && All(bars', IsBar)
    requires pieces != [] && pieces[0] != "" && pieces[|pieces| - 1] != ""
    requires forall i :: 0 <= i < |pieces| ==> '|' !in pieces[i]
    requires Trimmed(bars + JoinBars(pieces) + bars', IsSpace)
    ensures var core := bars + JoinBars(pieces) + bars';
            ParseLine(left + core + right)
            == if '|' !in core || IsSeparator(core) then None else Some(StripEach(pieces))
  {
    TrimIs(left, bars + JoinBars(pieces) + bars', right, IsSpace);
    JoinEnds(pieces);
    assert pieces[0][0] in pieces[0] && pieces[|pieces| - 1][|pieces[|pieces| - 1]| - 1] in pieces[|pieces| - 1];
    TrimIs(bars, JoinBars(pieces), bars', IsBar);
    SplitJoin(pieces);
  }

  /** Every line that gives a row is written that way. */
  lemma EveryRowLine(line: string)
    returns (left: string, bars: string, pieces: seq<string>, bars': string, right: string)
    requires ParseLine(line).Some?
    ensures All(left, IsSpace) && All(right, IsSpace) && All(bars, IsBar) && All(bars', IsBar)
    ensures pieces != [] && pieces[0] != "" && pieces[|pieces| - 1] != ""
    ensures forall i :: 0 <= i < |pieces| ==> '|' !in pieces[i]
    ensures line == left + (bars + JoinBars(pieces) + bars') + right
    ensures Trimmed(bars + JoinBars(pieces) + bars', IsSpace)
  {
    var core := Strip(line);
    var inner := Trim(core, IsBar);
    left, right := TrimParts(line, IsSpace);
    bars, bars' := TrimParts(core, IsBar);
    TrimFacts(line, IsSpace);
    TrimFacts(core, IsBar);
    assert inner == "" ==> core == bars + bars' && IsSeparator(core);
    pieces := Split(inner);
    SplitFacts(inner);
    SplitRejoin(inner);
    SplitEnds(inner);
  }

  lemma TrimParts(s: string, p: char -> bool) returns (left: string, right: string)
    ensures s == left + Trim(s, p) + right && All(left, p) && All(right, p)
  {
    left := TrimLeftSplits(s, p);
    right := TrimRightSplits(TrimLeft(s, p), p);
    assert left + (Trim(s, p) + right) == left + Trim(s, p) + right;
  }

  // ---------------------------------------------------------------- whole tables

  /** Two readings that differ only by elements the first one loses agree exactly when it loses none. */
  lemma {:induction false} LosesNothing<A, B, C>(s: seq<A>, f: A -> Option<C>, t: seq<B>, g: B -> Option<C>)
    requires |s| == |t| && forall i :: 0 <= i < |s| ==> f(s[i]) == None || f(s[i]) == g(t[i])
    ensures |FilterMap(s, f)| <= |FilterMap(t, g)|
    ensures FilterMap(s, f) == FilterMap(t, g) <==> forall i :: 0 <= i < |s| ==> f(s[i]) == g(t[i])
  {
    if s != [] {
      var n := |s| - 1;
      LosesNothing(s[..n], f, t[..n], g);
      if f(s[n]).Some? {
        SameLast(FilterMap(s[..n], f), FilterMap(t[..n], g), f(s[n]).value);
      }
    }
  }

  lemma SameLast<C>(a: seq<C>, b: seq<C>, c: C)
    ensures a + [c] == b + [c] <==> a == b
  {
    if a + [c] == b + [c] {
      assert a == (a + [c])[..|a|] && b == (b + [c])[..|b|];
    }
  }

  lemma RuleIsDropped(columns: nat)
    ensures ParseLine(Rule(columns)).None?
  {
    var r := Rule(columns);
    TrimFacts(r, IsSpace);
    if '|' in Strip(r) {
      forall i | 0 <= i < |Strip(r)| ensures InRule(Strip(r)[i]) {
        assert Strip(r)[i] in r;
        var j :| 0 <= j < |r| && r[j] == Strip(r)[i];
      }
    }
  }

  lemma {:induction false} RuleIsOneLine(columns: nat)
    ensures OneLine(Rule(columns))
  {
    if columns > 0 { RuleIsOneLine(columns - 1); }
  }

  lemma PrintedRowIsOneLine(row: Row, pad: char)
    requires Clean(row) && IsPad(pad)
    ensures OneLine(PrintRow(row, pad))
  {
    var line, cells := PrintRow(row, pad), Padded(row, pad);
    forall k | 0 <= k < |line| ensures !IsBreak(line[k]) {
      if line[k] in JoinBars(cells) {
        JoinChars(cells, line[k]);
        if i :| 0 <= i < |cells| && line[k] in cells[i] {
          assert line[k] == pad || line[k] in row[i];
        }
      }
    }
  }

  lemma ParsePrinted(marks: seq<Mark>, pad: char)
    requires AllClean(RowsOf(marks)) && IsPad(pad)
    ensures Parse(Print(marks, pad)) == ParseLines(PrintMarks(marks, pad))
  {
    var lines := PrintMarks(marks, pad);
    forall i | 0 <= i < |lines| ensures OneLine(lines[i]) {
      match marks[i]
      case RuleMark(columns) => RuleIsOneLine(columns);
      case ProseMark(_) =>
      case RowMark(row) =>
        MarkedRowIsClean(marks, i);
        PrintedRowIsOneLine(row, pad);
    }
    LinesOfUnlines(lines);
  }

  lemma {:induction false} MarkedRowIsClean(marks: seq<Mark>, i: nat)
    requires AllClean(RowsOf(marks)) && i < |marks| && marks[i].RowMark?
    ensures Clean(marks[i].row)
  {
    var n := |marks| - 1;
    var rows, before := RowsOf(marks), RowsOf(marks[..n]);
    assert before == rows[..|before|];
    if i < n {
      MarkedRowIsClean(marks[..n], i);
    } else {
      assert rows[|before|] == marks[i].row;
    }
  }

  /** Some row reads as a separator. */
  ghost predicate Loses(marks: seq<Mark>, pad: char) {
    pad == ' ' && exists i :: 0 <= i < |marks| && marks[i].RowMark? && LooksLikeRule(marks[i].row)
  }

  lemma Survives(marks: seq<Mark>, pad: char)
    requires AllClean(RowsOf(marks)) && IsPad(pad)
    ensures Parse(Print(marks, pad)) == RowsOf(marks) <==> !Loses(marks, pad)
  {
    ParsePrinted(marks, pad);
    var lines := PrintMarks(marks, pad);
    forall i | 0 <= i < |marks|
      ensures ParseLine(lines[i])
           == if marks[i].RowMark? && pad == ' ' && LooksLikeRule(marks[i].row) then None else RowOf(marks[i])
    {
      match marks[i]
      case RuleMark(columns) => RuleIsDropped(columns);
      case ProseMark(text) => NoBarNoRow(text);
      case RowMark(row) =>
        MarkedRowIsClean(marks, i);
        RowRoundTrip(row, pad);
    }
    LosesNothing(lines, ParseLine, marks, RowOf);
  }

  /** A table written with spaces and with separator lines and prose anywhere is read back exactly when its rows are
      clean and none of them looks like a rule. */
  lemma TableRoundTrip(marks: seq<Mark>)
    ensures Parse(Print(marks, ' ')) == RowsOf(marks) <==> AllClean(RowsOf(marks)) && !Loses(marks, ' ')
  {
    ParsedIsClean(Print(marks, ' '));
    if AllClean(RowsOf(marks)) {
      Survives(marks, ' ');
    }
  }

  function Marked(rows: seq<Row>): (r: seq<Mark>)
    ensures |r| == |rows| && forall i :: 0 <= i < |r| ==> r[i] == RowMark(rows[i])
  {
    seq(|rows|, i requires 0 <= i < |rows| => RowMark(rows[i]))
  }

  lemma {:induction false} RowsOfMarked(rows: seq<Row>)
    ensures RowsOf(Marked(rows)) == rows
  {
    if rows != [] {
      var n := |rows| - 1;
      RowsOfMarked(rows[..n]);
      assert Marked(rows)[..n] == Marked(rows[..n]);
    }
  }

  /** The parser's range is exactly the clean tables: padded with tabs, every one of them comes back. */
  lemma RangeIsClean(rows: seq<Row>)
    ensures AllClean(rows) <==> exists text :: Parse(text) == rows
    ensures AllClean(rows) ==> Parse(Print(Marked(rows), '\t')) == rows
  {
    RowsOfMarked(rows);
    if AllClean(rows) {
      Survives(Marked(rows), '\t');
    }
    if text :| Parse(text) == rows {
      ParsedIsClean(text);
    }
  }

  /** A row of blank cells can be read, from a line padded with tabs, but is lost when printed with spaces. */
  lemma BlankRowIsLost()
    ensures Parse(Print([RowMark([""])], '\t')) == [[""]] && Parse(Print([RowMark([""])], ' ')) != [[""]]
  {
    var rows := [[""]];
    assert Clean(rows[0]) && LooksLikeRule(rows[0]);
    RowsOfMarked(rows);
    assert Marked(rows) == [RowMark([""])];
    RangeIsClean(rows);
    TableRoundTrip(Marked(rows));
  }
}
