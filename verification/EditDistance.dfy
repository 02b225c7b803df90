/** Character-level edit distance: the single-row in-place table, what it computes, and why that is a metric.

Inputs are the strings after trimming and normalisation. */
module EditDistance {

  // ---------------------------------------------------------------- reference: edit scripts

  /** One single-character edit, at a position of the string it is applied to. */
  datatype Edit = Insert(at: nat, c: char) | Delete(at: nat) | Substitute(at: nat, c: char)

  predicate Applies(e: Edit, s: string) {
    match e
    case Insert(i, _) => i <= |s|
    case Delete(i) => i < |s|
    case Substitute(i, _) => i < |s|
  }

  function Apply(e: Edit, s: string): string
    requires Applies(e, s)
  {
    match e
    case Insert(i, c) => s[..i] + [c] + s[i..]
    case Delete(i) => s[..i] + s[i + 1..]
    case Substitute(i, c) => s[..i] + [c] + s[i + 1..]
  }

  /** The script, applied edit by edit, leads from one string to the other. */
  predicate Leads(script: seq<Edit>, a: string, b: string)
    decreases |script|
  {
    if script == [] then a == b
    else Applies(script[0], a) && Leads(script[1..], Apply(script[0], a), b)
  }

  // ---------------------------------------------------------------- the textbook recurrence

  function Min(x: nat, y: nat): nat { if x < y then x else y }

  function Max(x: nat, y: nat): nat { if x < y then y else x }

  function Init(s: string): string
    requires s != ""
  {
    s[..|s| - 1]
  }

  function Differ(a: string, b: string): nat
    requires a != "" && b != ""
  {
    if a[|a| - 1] == b[|b| - 1] then 0 else 1
  }

  function Dist(a: string, b: string): nat
    decreases |a| + |b|
  {
    if a == "" then |b|
    else if b == "" then |a|
    else Min(Dist(Init(a), Init(b)) + Differ(a, b), 1 + Min(Dist(Init(a), b), Dist(a, Init(b))))
  }

  lemma {:induction false} Symmetric(a: string, b: string)
    ensures Dist(a, b) == Dist(b, a)
    decreases |a| + |b|
  {
    if a != "" && b != "" {
      Symmetric(Init(a), Init(b));
      Symmetric(Init(a), b);
      Symmetric(a, Init(b));
    }
  }

  /** The distance lies between the difference and the maximum of the lengths. */
  lemma {:induction false} Bounds(a: string, b: string)
    ensures Max(|a|, |b|) - Min(|a|, |b|) <= Dist(a, b) <= Max(|a|, |b|)
    decreases |a| + |b|
  {
    if a != "" && b != "" {
      Bounds(Init(a), Init(b));
      Bounds(Init(a), b);
      Bounds(a, Init(b));
    }
  }

  lemma {:induction false} ZeroIffEqual(a: string, b: string)
    ensures Dist(a, b) == 0 <==> a == b
    decreases |a| + |b|
  {
    if a != "" && b != "" {
      ZeroIffEqual(Init(a), Init(b));
      assert a == Init(a) + [a[|a| - 1]] && b == Init(b) + [b[|b| - 1]];
    }
  }

  /** The distance is the cheapest of the last moves, and one of them attains it. */
  lemma {:induction false} Triangle(a: string, b: string, c: string)
    ensures Dist(a, c) <= Dist(a, b) + Dist(b, c)
    decreases |a| + |b| + |c|
  {
    if a == "" || b == "" || c == "" {
      Bounds(a, b);
      Bounds(b, c);
      Bounds(a, c);
    } else {
      Triangle(Init(a), b, c);
      Triangle(a, b, Init(c));
      Triangle(a, Init(b), Init(c));
      Triangle(a, Init(b), c);
      Triangle(Init(a), Init(b), c);
      Triangle(Init(a), Init(b), Init(c));
    }
  }

  // ---------------------------------------------------------------- the distance is the shortest script

  lemma {:induction false} InsertCostsOne(s: string, i: nat, c: char)
    requires i <= |s|
    ensures Dist(s, s[..i] + [c] + s[i..]) <= 1
  {
    var t := s[..i] + [c] + s[i..];
    if i == |s| {
      assert Init(t) == s;
      ZeroIffEqual(s, s);
    } else {
      assert Init(t) == Init(s)[..i] + [c] + Init(s)[i..];
      InsertCostsOne(Init(s), i, c);
    }
  }

  lemma {:induction false} SubstituteCostsOne(s: string, i: nat, c: char)
    requires i < |s|
    ensures Dist(s, s[..i] + [c] + s[i + 1..]) <= 1
  {
    var t := s[..i] + [c] + s[i + 1..];
    if i == |s| - 1 {
      assert Init(t) == Init(s);
      ZeroIffEqual(Init(s), Init(t));
    } else {
      assert Init(t) == Init(s)[..i] + [c] + Init(s)[i + 1..];
      SubstituteCostsOne(Init(s), i, c);
    }
  }

  lemma PutBack(s: string, i: nat)
    requires i < |s|
    ensures var t := s[..i] + s[i + 1..]; t[..i] + [s[i]] + t[i..] == s
  {}

  lemma DeleteCostsOne(s: string, i: nat)
    requires i < |s|
    ensures Dist(s, s[..i] + s[i + 1..]) <= 1
  {
    var t := s[..i] + s[i + 1..];
    PutBack(s, i);
    InsertCostsOne(t, i, s[i]);
    Symmetric(t, s);
  }

  lemma EditCostsOne(e: Edit, s: string)
    requires Applies(e, s)
    ensures Dist(s, Apply(e, s)) <= 1
  {
    match e
    case Insert(i, c) => InsertCostsOne(s, i, c);
    case Substitute(i, c) => SubstituteCostsOne(s, i, c);
    case Delete(i) => DeleteCostsOne(s, i);
  }

  /** No script is shorter than the distance. */
  lemma {:induction false} NoShorterScript(script: seq<Edit>, a: string, b: string)
    requires Leads(script, a, b)
    ensures Dist(a, b) <= |script|
    decreases |script|
  {
    if script == [] {
      ZeroIffEqual(a, b);
    } else {
      var mid := Apply(script[0], a);
      EditCostsOne(script[0], a);
      NoShorterScript(script[1..], mid, b);
      Triangle(a, mid, b);
    }
  }

  lemma ApplyWithSuffix(e: Edit, a: string, suffix: string)
    requires Applies(e, a)
    ensures Applies(e, a + suffix) && Apply(e, a + suffix) == Apply(e, a) + suffix
  {
    var s := a + suffix;
    match e
    case Insert(i, c) => assert s[..i] == a[..i] && s[i..] == a[i..] + suffix;
    case Delete(i) => assert s[..i] == a[..i] && s[i + 1..] == a[i + 1..] + suffix;
    case Substitute(i, c) => assert s[..i] == a[..i] && s[i + 1..] == a[i + 1..] + suffix;
  }

  /** An edit of a prefix is an edit of the whole string. */
  lemma {:induction false} LeadsWithSuffix(script: seq<Edit>, a: string, b: string, suffix: string)
    requires Leads(script, a, b)
    ensures Leads(script, a + suffix, b + suffix)
    decreases |script|
  {
    if script != [] {
      ApplyWithSuffix(script[0], a, suffix);
      LeadsWithSuffix(script[1..], Apply(script[0], a), b, suffix);
    }
  }

  lemma {:induction false} LeadsThen(script: seq<Edit>, e: Edit, a: string, b: string)
    requires Leads(script, a, b) && Applies(e, b)
    ensures Leads(script + [e], a, Apply(e, b))
    decreases |script|
  {
    if script == [] {
      assert [e][1..] == [];
    } else {
      assert (script + [e])[1..] == script[1..] + [e];
      LeadsThen(script[1..], e, Apply(script[0], a), b);
    }
  }

  lemma DeleteFirst(script: seq<Edit>, a: string, b: string)
    requires a != "" && Leads(script, Init(a), b)
    ensures Leads([Delete(|a| - 1)] + script, a, b)
  {
    var e := Delete(|a| - 1);
    assert Apply(e, a) == Init(a);
    assert ([e] + script)[1..] == script;
  }

  lemma InsertLast(script: seq<Edit>, a: string, b: string)
    requires b != "" && Leads(script, a, Init(b))
    ensures Leads(script + [Insert(|b| - 1, b[|b| - 1])], a, b)
  {
    var e := Insert(|b| - 1, b[|b| - 1]);
    assert Apply(e, Init(b)) == b;
    LeadsThen(script, e, a, Init(b));
  }

  lemma KeepOrSubstituteLast(script: seq<Edit>, a: string, b: string)
    requires a != "" && b != "" && Leads(script, Init(a), Init(b))
    ensures a[|a| - 1] == b[|b| - 1] ==> Leads(script, a, b)
    ensures Leads(script + [Substitute(|b| - 1, b[|b| - 1])], a, b)
  {
    var x, y := a[|a| - 1], b[|b| - 1];
    var e, t := Substitute(|b| - 1, y), Init(b) + [x];
    assert a == Init(a) + [x] && b == Init(b) + [y];
    LeadsWithSuffix(script, Init(a), Init(b), [x]);
    assert Apply(e, t) == b;
    LeadsThen(script, e, a, t);
  }

  /** Some script has exactly the length of the distance. */
  lemma {:induction false} ShortestScript(a: string, b: string) returns (script: seq<Edit>)
    ensures Leads(script, a, b) && |script| == Dist(a, b)
    decreases |a| + |b|
  {
    if a == "" && b == "" {
      script := [];
    } else if a != "" && (b == "" || Dist(a, b) == 1 + Dist(Init(a), b)) {
      script := ShortestScript(Init(a), b);
      DeleteFirst(script, a, b);
      script := [Delete(|a| - 1)] + script;
    } else if a == "" || Dist(a, b) == 1 + Dist(a, Init(b)) {
      script := ShortestScript(a, Init(b));
      InsertLast(script, a, b);
      script := script + [Insert(|b| - 1, b[|b| - 1])];
    } else {
      script := ShortestScript(Init(a), Init(b));
      KeepOrSubstituteLast(script, a, b);
      if a[|a| - 1] != b[|b| - 1] {
        script := script + [Substitute(|b| - 1, b[|b| - 1])];
      }
    }
  }

  /** `d` is the length of a shortest script. */
  ghost predicate IsShortest(d: nat, a: string, b: string) {
    && (exists script :: Leads(script, a, b) && |script| == d)
    && (forall script :: Leads(script, a, b) ==> d <= |script|)
  }

  lemma DistIsShortest(a: string, b: string)
    ensures IsShortest(Dist(a, b), a, b)
  {
    var script := ShortestScript(a, b);
    forall script | Leads(script, a, b) ensures Dist(a, b) <= |script| { NoShorterScript(script, a, b); }
  }

  // ---------------------------------------------------------------- the single-row table

  /** Dropping a last character moves the distance by at most one. */
  lemma Lipschitz(a: string, b: string)
    requires a != ""
    ensures Dist(Init(a), b) <= 1 + Dist(a, b)
  {
    assert Apply(Delete(|a| - 1), a) == Init(a);
    EditCostsOne(Delete(|a| - 1), a);
    Symmetric(a, Init(a));
    Triangle(Init(a), a, b);
  }

  /** When the last characters agree the diagonal alone is the minimum, so the shortcut is sound. */
  lemma DiagonalShortcut(a: string, b: string)
    requires a != "" && b != "" && a[|a| - 1] == b[|b| - 1]
    ensures Dist(a, b) == Dist(Init(a), Init(b))
  {
    Lipschitz(a, Init(b));
    Lipschitz(b, Init(a));
    Symmetric(b, Init(a));
    Symmetric(Init(b), Init(a));
  }

  /** dp[..j] already holds row i, the rest still row i - 1. */
  ghost predicate RowSplit(dp: seq<nat>, pred: string, ref: string, i: nat, j: nat)
    requires 1 <= i <= |pred| && j <= |ref| + 1
  {
    && |dp| == |ref| + 1
    && (forall k :: 0 <= k < j ==> dp[k] == Dist(pred[..i], ref[..k]))
    && (forall k :: j <= k <= |ref| ==> dp[k] == Dist(pred[..i - 1], ref[..k]))
  }

  lemma CellStep(pred: string, ref: string, i: nat, j: nat)
    requires 1 <= i <= |pred| && 1 <= j <= |ref|
    ensures var a, b := pred[..i], ref[..j];
            && Init(a) == pred[..i - 1] && Init(b) == ref[..j - 1]
            && (pred[i - 1] == ref[j - 1] ==> Dist(a, b) == Dist(Init(a), Init(b)))
            && (pred[i - 1] != ref[j - 1] ==>
                  Dist(a, b) == 1 + Min(Dist(Init(a), Init(b)), Min(Dist(Init(a), b), Dist(a, Init(b)))))
  {
    var a, b := pred[..i], ref[..j];
    assert Init(a) == pred[..i - 1] && Init(b) == ref[..j - 1];
    if pred[i - 1] == ref[j - 1] { DiagonalShortcut(a, b); }
  }

  method RowDistance(pred: string, ref: string) returns (d: nat)
    ensures d == Dist(pred, ref)
  {
    var m, n := |pred|, |ref|;
    var dp := new nat[n + 1](k => k);
    for i := 1 to m + 1
      invariant forall k :: 0 <= k <= n ==> dp[k] == Dist(pred[..i - 1], ref[..k])
    {
      var prev := dp[0];
      dp[0] := i;
      assert RowSplit(dp[..], pred, ref, i, 1);
      for j := 1 to n + 1
        invariant RowSplit(dp[..], pred, ref, i, j)
        invariant prev == Dist(pred[..i - 1], ref[..j - 1])
      {
        CellStep(pred, ref, i, j);
        var temp := dp[j];
        if pred[i - 1] == ref[j - 1] {
          dp[j] := prev;
        } else {
          dp[j] := 1 + Min(prev, Min(dp[j], dp[j - 1]));
        }
        prev := temp;
      }
      assert forall k :: 0 <= k <= n ==> dp[..][k] == Dist(pred[..i], ref[..k]);
    }
    assert pred[..m] == pred && ref[..n] == ref;
    d := dp[n];
  }

  /** The share of the longer length that has to be edited. */
  function Share(d: nat, m: nat): (r: real)
    requires d <= m && 0 < m
    ensures 0.0 <= r <= 1.0 && r * m as real == d as real
    ensures (r == 0.0 <==> d == 0) && (r == 1.0 <==> d == m)
  {
    d as real / m as real
  }

  /** The returned score: the length of a shortest script as a share of the longer length, always
      in [0, 1], 0 exactly for equal strings. */
  method NormalizedEditDistance(pred: string, ref: string) returns (r: real)
    ensures 0.0 <= r <= 1.0
    ensures r == 0.0 <==> pred == ref
    ensures Dist(pred, ref) <= Max(|pred|, |ref|)
    ensures pred != "" || ref != "" ==> r == Share(Dist(pred, ref), Max(|pred|, |ref|))
  {
    Bounds(pred, ref);
    ZeroIffEqual(pred, ref);
    if ref == "" && pred == "" {
      return 0.0;
    }
    if ref == "" || pred == "" {
      return 1.0;
    }
    var d := RowDistance(pred, ref);
    r := Share(d, Max(|pred|, |ref|));
  }
}
