/** The generated block of the documentation index: the text between two markers is replaced. */
module MarkerBlock {
  import opened Wrappers

  const START_MARKER := "{/* BEGIN_LMSYS_SGLANG_BLOG_CARDS */}"
  const END_MARKER := "{/* END_LMSYS_SGLANG_BLOG_CARDS */}"

  predicate At(text: string, i: int, mark: string) {
    0 <= i && i + |mark| <= |text| && text[i..i + |mark|] == mark
  }

  ghost predicate Contains(text: string, mark: string) {
    exists i :: At(text, i, mark)
  }

  /** The first occurrence at or after an index. */
  function Find(text: string, mark: string, from: nat): (r: Option<nat>)
    ensures r.Some? ==> from <= r.value && At(text, r.value, mark)
    ensures r.Some? ==> forall i :: from <= i < r.value ==> !At(text, i, mark)
    ensures r.None? ==> forall i :: from <= i ==> !At(text, i, mark)
    decreases |text| - from
  {
    if from >= |text| then
      if mark == "" && from == |text| then Some(from) else None
    else if At(text, from, mark) then Some(from)
    else Find(text, mark, from + 1)
  }

  datatype Markers = Markers(open: string, close: string) {
    /** The end marker is one non-empty line, so it cannot reach across the line breaks around the cards. */
    ghost predicate OneLine() {
      close != "" && '\n' !in close
    }

    /** Where the pattern of start marker, anything, end marker matches. */
    ghost predicate Matches(text: string, s: int, e: int) {
      At(text, s, open) && s + |open| <= e && At(text, e, close)
    }

    /** The match a regular expression search with a lazy middle reports: leftmost, then shortest. */
    ghost predicate Reported(text: string, s: int, e: int) {
      && Matches(text, s, e)
      && (forall s', e' :: Matches(text, s', e') ==> s <= s')
      && (forall e' :: Matches(text, s, e') ==> e <= e')
    }

    function Search(text: string): Option<(nat, nat)> {
      var s := Find(text, open, 0);
      if s.None? then None
      else
        var e := Find(text, close, s.value + |open|);
        if e.None? then None else Some((s.value, e.value))
    }

    function Join(before: string, middle: string, after: string): string {
      before + open + middle + close + after
    }

    predicate HasBlock(text: string) { Search(text).Some? }

    function Before(text: string): string
      requires HasBlock(text)
    {
      text[..Search(text).value.0]
    }

    function Between(text: string): string
      requires HasBlock(text)
    {
      text[Search(text).value.0 + |open|..Search(text).value.1]
    }

    function After(text: string): string
      requires HasBlock(text)
    {
      text[Search(text).value.1 + |close|..]
    }

    /** The text with its first block's content replaced; an error when there is no block. */
    function Replace(text: string, cards: string): Option<string> {
      if HasBlock(text) then Some(Join(Before(text), "\n" + cards + "\n", After(text))) else None
    }
  }

  const BLOG_INDEX := Markers(START_MARKER, END_MARKER)

  lemma BlogIndexIsOneLine()
    ensures BLOG_INDEX.OneLine()
  {}

  /** The two searches give the reported match, and fail exactly when there is none. */
  lemma SearchReports(m: Markers, text: string)
    ensures m.HasBlock(text) ==> m.Reported(text, m.Search(text).value.0, m.Search(text).value.1)
    ensures m.HasBlock(text) <==> exists s, e :: m.Matches(text, s, e)
  {
    if m.HasBlock(text) {
      assert m.Matches(text, m.Search(text).value.0, m.Search(text).value.1);
    }
  }

  /** A text is the part before its block, the block and the part after; replacing keeps both parts. */
  lemma Decompose(m: Markers, text: string)
    requires m.HasBlock(text)
    ensures text == m.Join(m.Before(text), m.Between(text), m.After(text))
  {
    var (s, e) := m.Search(text).value;
    assert text == text[..s] + text[s..s + |m.open|] + text[s + |m.open|..e]
                   + text[e..e + |m.close|] + text[e + |m.close|..];
  }

  /** A start marker found first stays first when only what follows it changes. */
  lemma StartStays(before: string, mark: string, tail: string, tail': string)
    requires Find(before + mark + tail, mark, 0) == Some(|before|)
    ensures Find(before + mark + tail', mark, 0) == Some(|before|)
  {
    var t, t' := before + mark + tail, before + mark + tail';
    assert At(t', |before|, mark);
    forall i | 0 <= i < |before| ensures !At(t', i, mark) {
      assert t'[i..i + |mark|] == t[i..i + |mark|];
      assert !At(t, i, mark);
    }
  }

  lemma NoMarkAcross(t: string, i: int, mark: string, k: int)
    requires At(t, i, mark) && '\n' !in mark && 0 <= k < |t| && t[k] == '\n'
    ensures !(i <= k < i + |mark|)
  {}

  /** An end marker before the block's own one lies in the cards. */
  lemma EndInCards(head: string, cards: string, tail: string, mark: string, i: int)
    requires mark != "" && '\n' !in mark && |head| <= i < |head| + |cards| + 2
    ensures At(head + "\n" + cards + "\n" + tail, i, mark) <==> At(cards, i - |head| - 1, mark)
  {
    var t := head + "\n" + cards + "\n" + tail;
    var k := i - |head| - 1;
    assert t[|head|] == '\n' && t[|head| + 1 + |cards|] == '\n';
    if At(t, i, mark) {
      NoMarkAcross(t, i, mark, |head|);
      NoMarkAcross(t, i, mark, |head| + 1 + |cards|);
      assert cards[k..k + |mark|] == t[i..i + |mark|];
    }
    if At(cards, k, mark) {
      assert cards[k..k + |mark|] == t[i..i + |mark|];
    }
  }

  /** The end marker found after a fresh block's start: the first one in the cards, else the block's own. */
  lemma EndOfBlock(head: string, cards: string, mark: string, after: string)
    requires mark != "" && '\n' !in mark
    ensures var r := Find(head + "\n" + cards + "\n" + (mark + after), mark, |head|);
            var own := |head| + |cards| + 2;
            r.Some? && r.value <= own && (r.value == own <==> !Contains(cards, mark))
  {
    var t := head + "\n" + cards + "\n" + (mark + after);
    var own := |head| + |cards| + 2;
    assert At(t, own, mark);
    var e := Find(t, mark, |head|).value;
    if e < own {
      EndInCards(head, cards, mark + after, mark, e);
    }
    if i :| At(cards, i, mark) {
      EndInCards(head, cards, mark + after, mark, |head| + 1 + i);
    }
  }

  lemma StartThenRest(m: Markers, before: string, middle: string, after: string)
    ensures m.Join(before, middle, after) == before + m.open + (middle + m.close + after)
  {}

  lemma BlockThenRest(m: Markers, before: string, cards: string, after: string)
    ensures m.Join(before, "\n" + cards + "\n", after)
         == (before + m.open) + "\n" + cards + "\n" + (m.close + after)
  {}

  lemma ReplacedStart(m: Markers, text: string, cards: string)
    requires m.HasBlock(text)
    ensures Find(m.Replace(text, cards).value, m.open, 0) == Some(|m.Before(text)|)
  {
    var before, between, after, body := m.Before(text), m.Between(text), m.After(text), "\n" + cards + "\n";
    Decompose(m, text);
    StartThenRest(m, before, between, after);
    StartThenRest(m, before, body, after);
    StartStays(before, m.open, between + m.close + after, body + m.close + after);
  }

  /** The replaced text matches at the same start, and at the block's own end iff the cards hold no end marker. */
  lemma SearchReplaced(m: Markers, text: string, cards: string)
    requires m.OneLine() && m.HasBlock(text)
    ensures var r := m.Search(m.Replace(text, cards).value);
            var own := |m.Before(text)| + |m.open| + |cards| + 2;
            && r.Some? && r.value.0 == |m.Before(text)| && r.value.1 <= own
            && (r.value.1 == own <==> !Contains(cards, m.close))
  {
    ReplacedStart(m, text, cards);
    BlockThenRest(m, m.Before(text), cards, m.After(text));
    EndOfBlock(m.Before(text) + m.open, cards, m.close, m.After(text));
  }

  lemma Pieces(m: Markers, before: string, middle: string, after: string)
    ensures var t := m.Join(before, middle, after);
            var e := |before| + |m.open| + |middle|;
            && t[..|before|] == before && t[|before| + |m.open|..e] == middle && t[e + |m.close|..] == after
  {}

  /** What the markers enclose after a replacement: all of the cards iff they hold no end marker. */
  lemma PutGet(m: Markers, text: string, cards: string)
    requires m.OneLine() && m.HasBlock(text)
    ensures m.HasBlock(m.Replace(text, cards).value)
    ensures m.Between(m.Replace(text, cards).value) == "\n" + cards + "\n" <==> !Contains(cards, m.close)
  {
    SearchReplaced(m, text, cards);
    Pieces(m, m.Before(text), "\n" + cards + "\n", m.After(text));
  }

  /** Replacing twice is replacing once with the second cards exactly when the first hold no end marker. */
  lemma PutPut(m: Markers, text: string, first: string, second: string)
    requires m.OneLine() && m.HasBlock(text)
    ensures m.Replace(m.Replace(text, first).value, second) == m.Replace(text, second) <==> !Contains(first, m.close)
  {
    SearchReplaced(m, text, first);
    Pieces(m, m.Before(text), "\n" + first + "\n", m.After(text));
    var once := m.Replace(text, first).value;
    assert m.Before(once) == m.Before(text);
    if Contains(first, m.close) {
      assert |m.After(once)| > |m.After(text)|;
      assert |m.Replace(once, second).value| > |m.Replace(text, second).value|;
    } else {
      assert m.After(once) == m.After(text);
    }
  }

  /** Replacing changes nothing exactly when the block already holds the cards. */
  lemma GetPut(m: Markers, text: string, cards: string)
    requires m.HasBlock(text)
    ensures m.Replace(text, cards) == Some(text) <==> m.Between(text) == "\n" + cards + "\n"
  {
    Decompose(m, text);
    var body := "\n" + cards + "\n";
    if m.Replace(text, cards) == Some(text) {
      assert |m.Between(text)| == |body|;
      Pieces(m, m.Before(text), m.Between(text), m.After(text));
      Pieces(m, m.Before(text), body, m.After(text));
    }
  }

  /** Refreshing the blog index a second time with the same cards changes nothing, iff they hold no end marker. */
  lemma RefreshIsIdempotent(text: string, cards: string)
    requires BLOG_INDEX.HasBlock(text)
    ensures BLOG_INDEX.Replace(BLOG_INDEX.Replace(text, cards).value, cards) == BLOG_INDEX.Replace(text, cards)
        <==> !Contains(cards, END_MARKER)
  {
    BlogIndexIsOneLine();
    PutPut(BLOG_INDEX, text, cards, cards);
  }
}
