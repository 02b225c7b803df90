/** The string operations the table parsers rely on: stripping, splitting and line splitting. */
module Text {
  /** Characters at which `splitlines` breaks; carriage return and line feed together are one break. */
  predicate IsBreak(c: char) {
    var n := c as int;
    10 <= n <= 13 || 28 <= n <= 30 || n == 0x85 || n == 0x2028 || n == 0x2029
  }

  /** Characters `strip` removes. */
  predicate IsSpace(c: char) {
    var n := c as int;
    || 9 <= n <= 13 || 28 <= n <= 32 || n == 0x85 || n == 0xa0 || n == 0x1680
    || 0x2000 <= n <= 0x200a || n == 0x2028 || n == 0x2029 || n == 0x202f || n == 0x205f || n == 0x3000
  }

  ghost predicate All(s: string, p: char -> bool) {
    forall i :: 0 <= i < |s| ==> p(s[i])
  }

  function TrimLeft(s: string, p: char -> bool): string {
    if s != "" && p(s[0]) then TrimLeft(s[1..], p) else s
  }

  function TrimRight(s: string, p: char -> bool): string {
    if s != "" && p(s[|s| - 1]) then TrimRight(s[..|s| - 1], p) else s
  }

  function Trim(s: string, p: char -> bool): string {
    TrimRight(TrimLeft(s, p), p)
  }

  function Strip(s: string): string { Trim(s, IsSpace) }

  ghost predicate Trimmed(s: string, p: char -> bool) {
    s == "" || (!p(s[0]) && !p(s[|s| - 1]))
  }

  lemma {:induction false} TrimLeftIs(left: string, rest: string, p: char -> bool)
    requires All(left, p) && (rest == "" || !p(rest[0]))
    ensures TrimLeft(left + rest, p) == rest
  {
    if left == "" {
      assert left + rest == rest;
    } else {
      TrimLeftIs(left[1..], rest, p);
      assert (left + rest)[1..] == left[1..] + rest;
    }
  }

  lemma {:induction false} TrimRightIs(rest: string, right: string, p: char -> bool)
    requires All(right, p) && (rest == "" || !p(rest[|rest| - 1]))
    ensures TrimRight(rest + right, p) == rest
  {
    if right == "" {
      assert rest + right == rest;
    } else {
      var n := |right| - 1;
      TrimRightIs(rest, right[..n], p);
      assert (rest + right)[..|rest| + n] == rest + right[..n];
    }
  }

  /** Trimming removes exactly the outer runs. */
  lemma TrimIs(left: string, middle: string, right: string, p: char -> bool)
    requires All(left, p) && All(right, p) && Trimmed(middle, p)
    ensures Trim(left + middle + right, p) == middle
  {
    if middle == "" {
      var both := left + right;
      assert left + middle + right == both + "";
      TrimLeftIs(both, "", p);
    } else {
      assert left + middle + right == left + (middle + right);
      TrimLeftIs(left, middle + right, p);
      TrimRightIs(middle, right, p);
    }
  }

  lemma {:induction false} TrimLeftSplits(s: string, p: char -> bool) returns (left: string)
    ensures s == left + TrimLeft(s, p) && All(left, p)
    ensures TrimLeft(s, p) == "" || !p(TrimLeft(s, p)[0])
  {
    if s != "" && p(s[0]) {
      var l := TrimLeftSplits(s[1..], p);
      left := [s[0]] + l;
    } else {
      left := "";
    }
  }

  lemma {:induction false} TrimRightSplits(s: string, p: char -> bool) returns (right: string)
    ensures s == TrimRight(s, p) + right && All(right, p)
    ensures TrimRight(s, p) == "" || !p(TrimRight(s, p)[|TrimRight(s, p)| - 1])
  {
    if s != "" && p(s[|s| - 1]) {
      var r := TrimRightSplits(s[..|s| - 1], p);
      right := r + [s[|s| - 1]];
    } else {
      right := "";
    }
  }

  /** A trimmed string has no outer run left and its characters come from the original. */
  lemma TrimFacts(s: string, p: char -> bool)
    ensures Trimmed(Trim(s, p), p)
    ensures forall c :: c in Trim(s, p) ==> c in s
  {
    var left := TrimLeftSplits(s, p);
    var right := TrimRightSplits(TrimLeft(s, p), p);
    var t := Trim(s, p);
    assert s == left + t + right;
    if t != "" {
      assert t[0] == TrimLeft(s, p)[0];
    }
  }

  /** The index of the first character that satisfies the predicate, or the length. */
  function First(s: string, p: char -> bool): (k: nat)
    ensures k <= |s| && (forall i :: 0 <= i < k ==> !p(s[i])) && (k < |s| ==> p(s[k]))
  {
    if s == "" || p(s[0]) then 0 else 1 + First(s[1..], p)
  }

  lemma FirstIs(head: string, c: char, rest: string, p: char -> bool)
    requires p(c) && forall i :: 0 <= i < |head| ==> !p(head[i])
    ensures First(head + [c] + rest, p) == |head|
  {
    var s := head + [c] + rest;
    assert s[|head|] == c && forall i :: 0 <= i < |head| ==> s[i] == head[i];
  }

  /** Where the first line's end stops. */
  function EndStop(text: string): (n: nat)
    requires First(text, IsBreak) < |text|
    ensures First(text, IsBreak) < n <= |text|
  {
    var k := First(text, IsBreak);
    if text[k] == '\r' && k + 1 < |text| && text[k + 1] == '\n' then k + 2 else k + 1
  }

  /** `splitlines`: the lines without their breaks, and no empty line after a final break. */
  function Lines(text: string): seq<string>
    decreases |text|
  {
    if text == "" then []
    else
      var k := First(text, IsBreak);
      if k == |text| then [text] else [text[..k]] + Lines(text[EndStop(text)..])
  }

  ghost predicate OneLine(s: string) {
    forall i :: 0 <= i < |s| ==> !IsBreak(s[i])
  }

  lemma {:induction false} LinesAreOneLine(text: string)
    ensures forall i :: 0 <= i < |Lines(text)| ==> OneLine(Lines(text)[i])
    decreases |text|
  {
    if text != "" {
      var k := First(text, IsBreak);
      if k < |text| { LinesAreOneLine(text[EndStop(text)..]); }
    }
  }

  /** What ends a line. */
  predicate IsEnd(e: string) {
    e == "\r\n" || (|e| == 1 && IsBreak(e[0]))
  }

  function Weave(lines: seq<string>, ends: seq<string>): string
    requires |lines| == |ends|
  {
    if lines == [] then "" else lines[0] + ends[0] + Weave(lines[1..], ends[1..])
  }

  /** Each line has an end, except that a last line with text may have none; the two characters of one end are
      not taken for two. */
  ghost predicate Ended(lines: seq<string>, ends: seq<string>) {
    && |lines| == |ends|
    && (forall i :: 0 <= i < |ends| ==> IsEnd(ends[i]) || (i == |ends| - 1 && ends[i] == "" && lines[i] != ""))
    && forall i :: 0 <= i < |ends| - 1 && ends[i] == "\r" ==> lines[i + 1] != "" || ends[i + 1] != "\n"
  }

  lemma EndedAfter(line: string, end: string, lines: seq<string>, ends: seq<string>)
    requires Ended(lines, ends) && IsEnd(end)
    requires end == "\r" && lines != [] ==> lines[0] != "" || ends[0] != "\n"
    ensures Ended([line] + lines, [end] + ends)
    ensures Weave([line] + lines, [end] + ends) == line + end + Weave(lines, ends)
  {
    assert ([line] + lines)[1..] == lines && ([end] + ends)[1..] == ends;
  }

  lemma ThreeParts(s: string, k: nat, n: nat)
    requires k <= n <= |s|
    ensures s == s[..k] + s[k..n] + s[n..]
  {}

  lemma FirstEnd(text: string, k: nat, n: nat)
    requires k == First(text, IsBreak) < |text| && n == EndStop(text)
    ensures IsEnd(text[k..n]) && (text[k..n] == "\r" && n < |text| ==> text[n] != '\n')
  {
    var end := text[k..n];
    assert end[0] == text[k];
    if n == k + 2 { assert end[1] == text[k + 1]; }
  }

  /** The lines and their ends put together are the text. */
  lemma {:induction false} LinesRejoin(text: string) returns (ends: seq<string>)
    ensures Ended(Lines(text), ends) && Weave(Lines(text), ends) == text
    decreases |text|
  {
    var k := First(text, IsBreak);
    if text == "" {
      ends := [];
    } else if k == |text| {
      ends := [""];
      assert Weave([], []) == "" && [text][1..] == [] && [""][1..] == [];
    } else {
      var n := EndStop(text);
      FirstEnd(text, k, n);
      ThreeParts(text, k, n);
      var lines := Lines(text[n..]);
      var rest := LinesRejoin(text[n..]);
      ends := [text[k..n]] + rest;
      if rest != [] && lines[0] == "" && rest[0] == "\n" { assert text[n] == text[n..][0] == '\n'; }
      EndedAfter(text[..k], text[k..n], lines, rest);
    }
  }

  /** Each line followed by a line feed. */
  function Unlines(lines: seq<string>): string {
    if lines == [] then "" else lines[0] + "\n" + Unlines(lines[1..])
  }

  lemma {:induction false} LinesOfUnlines(lines: seq<string>)
    requires forall i :: 0 <= i < |lines| ==> OneLine(lines[i])
    ensures Lines(Unlines(lines)) == lines
  {
    if lines != [] {
      var line, rest := lines[0], Unlines(lines[1..]);
      LinesOfUnlines(lines[1..]);
      FirstIs(line, '\n', rest, IsBreak);
      var text := Unlines(lines);
      assert text == line + ['\n'] + rest;
      assert text[|line|] == '\n' && text[..|line|] == line && text[|line| + 1..] == rest;
    }
  }

  predicate IsBar(c: char) { c == '|' }

  /** `split("|")`: the pieces between bars, one more than there are bars. */
  function Split(s: string): (r: seq<string>)
    ensures r != []
    decreases |s|
  {
    var k := First(s, IsBar);
    if k == |s| then [s] else [s[..k]] + Split(s[k + 1..])
  }

  function JoinBars(pieces: seq<string>): string
    requires pieces != []
  {
    if |pieces| == 1 then pieces[0] else pieces[0] + "|" + JoinBars(pieces[1..])
  }

  lemma {:induction false} SplitJoin(pieces: seq<string>)
    requires pieces != [] && forall i :: 0 <= i < |pieces| ==> '|' !in pieces[i]
    ensures Split(JoinBars(pieces)) == pieces
  {
    var p, s := pieces[0], JoinBars(pieces);
    if |pieces| > 1 {
      var rest := JoinBars(pieces[1..]);
      SplitJoin(pieces[1..]);
      FirstIs(p, '|', rest, IsBar);
      assert s == p + ['|'] + rest;
      assert s[..|p|] == p && s[|p| + 1..] == rest;
    } else {
      assert First(s, IsBar) == |s|;
    }
  }

  lemma JoinFirst(piece: string, pieces: seq<string>)
    requires pieces != []
    ensures JoinBars([piece] + pieces) == piece + "|" + JoinBars(pieces)
  {
    assert ([piece] + pieces)[1..] == pieces;
  }

  lemma AroundBar(s: string, k: nat)
    requires k < |s| && s[k] == '|'
    ensures s == s[..k] + "|" + s[k + 1..]
  {}

  lemma {:induction false} SplitRejoin(s: string)
    ensures JoinBars(Split(s)) == s
    decreases |s|
  {
    var k := First(s, IsBar);
    if k < |s| {
      SplitRejoin(s[k + 1..]);
      JoinFirst(s[..k], Split(s[k + 1..]));
      AroundBar(s, k);
    }
  }

  /** The outer pieces are empty only next to an outer bar. */
  lemma {:induction false} SplitEnds(s: string)
    requires s != ""
    ensures s[0] != '|' ==> Split(s)[0] != ""
    ensures s[|s| - 1] != '|' ==> Split(s)[|Split(s)| - 1] != ""
    decreases |s|
  {
    var k := First(s, IsBar);
    if k < |s| - 1 { SplitEnds(s[k + 1..]); }
  }

  ghost predicate Piece(piece: string, s: string) {
    forall c :: c in piece ==> c in s && c != '|'
  }

  lemma {:induction false} SplitFacts(s: string)
    ensures forall i :: 0 <= i < |Split(s)| ==> Piece(Split(s)[i], s)
    decreases |s|
  {
    var k := First(s, IsBar);
    forall c | c in s[..k] ensures c in s && c != '|' {
      var j :| 0 <= j < k && s[j] == c;
      assert !IsBar(s[j]);
    }
    if k < |s| {
      var rest := s[k + 1..];
      SplitFacts(rest);
      forall i | 0 <= i < |Split(s)| ensures Piece(Split(s)[i], s) {
        if i > 0 {
          assert Piece(Split(rest)[i - 1], rest);
        }
      }
    } else {
      assert s[..k] == s;
    }
  }
}
