/** Stable sorting by an order, as the built-in `sorted` provides it. */
module Sorting {

  ghost predicate TotalPreorder<T(!new)>(le: (T, T) -> bool) {
    && (forall x, y :: le(x, y) || le(y, x))
    && (forall x, y, z :: le(x, y) && le(y, z) ==> le(x, z))
  }

  ghost predicate Antisymmetric<T(!new)>(le: (T, T) -> bool) {
    forall x, y :: le(x, y) && le(y, x) ==> x == y
  }

  ghost predicate Ordered<T>(s: seq<T>, le: (T, T) -> bool) {
    forall i, j :: 0 <= i < j < |s| ==> le(s[i], s[j])
  }

  function InsertInOrder<T>(x: T, s: seq<T>, le: (T, T) -> bool): seq<T> {
    if s == [] || le(x, s[0]) then [x] + s else [s[0]] + InsertInOrder(x, s[1..], le)
  }

  function Sort<T>(s: seq<T>, le: (T, T) -> bool): seq<T> {
    if s == [] then [] else InsertInOrder(s[0], Sort(s[1..], le), le)
  }

  lemma {:induction false} InsertHolds<T>(x: T, s: seq<T>, le: (T, T) -> bool)
    ensures multiset(InsertInOrder(x, s, le)) == multiset(s) + multiset{x}
  {
    if s != [] && !le(x, s[0]) {
      InsertHolds(x, s[1..], le);
      assert s == [s[0]] + s[1..];
    }
  }

  lemma {:induction false} InsertKeepsOrder<T(!new)>(x: T, s: seq<T>, le: (T, T) -> bool)
    requires TotalPreorder(le) && Ordered(s, le)
    ensures Ordered(InsertInOrder(x, s, le), le)
  {
    if s != [] && !le(x, s[0]) {
      var tail := s[1..];
      var rest := InsertInOrder(x, tail, le);
      InsertKeepsOrder(x, tail, le);
      InsertHolds(x, tail, le);
      forall i | 0 <= i < |rest| ensures le(s[0], rest[i]) {
        assert rest[i] in multiset(rest);
        if rest[i] != x {
          var j :| 0 <= j < |tail| && tail[j] == rest[i];
          assert le(s[0], s[j + 1]);
        }
      }
    }
  }

  lemma {:induction false} SortHolds<T>(s: seq<T>, le: (T, T) -> bool)
    ensures multiset(Sort(s, le)) == multiset(s)
  {
    if s != [] {
      SortHolds(s[1..], le);
      InsertHolds(s[0], Sort(s[1..], le), le);
      assert s == [s[0]] + s[1..];
    }
  }

  /** The result is in order and holds the same elements. */
  lemma {:induction false} SortSorts<T(!new)>(s: seq<T>, le: (T, T) -> bool)
    requires TotalPreorder(le)
    ensures Ordered(Sort(s, le), le) && multiset(Sort(s, le)) == multiset(s)
  {
    SortHolds(s, le);
    if s != [] {
      SortSorts(s[1..], le);
      InsertKeepsOrder(s[0], Sort(s[1..], le), le);
    }
  }

  ghost predicate Ascending<T>(s: seq<T>, key: T -> int) {
    forall i, j :: 0 <= i < j < |s| ==> key(s[i]) <= key(s[j])
  }

  lemma {:induction false} InsertByKey<T>(x: T, s: seq<T>, le: (T, T) -> bool, key: T -> int)
    requires Ascending(s, key) && forall y <- s :: le(x, y) <==> key(x) <= key(y)
    ensures Ascending(InsertInOrder(x, s, le), key)
  {
    if s != [] && !le(x, s[0]) {
      var tail := s[1..];
      var rest := InsertInOrder(x, tail, le);
      InsertByKey(x, tail, le, key);
      InsertHolds(x, tail, le);
      forall i | 0 <= i < |rest| ensures key(s[0]) <= key(rest[i]) {
        assert rest[i] in multiset(rest);
        if rest[i] != x {
          var j :| 0 <= j < |tail| && tail[j] == rest[i];
          assert key(s[0]) <= key(s[j + 1]);
        }
      }
    }
  }

  /** Sorting by a key puts the keys in ascending order, for elements of any type. */
  lemma {:induction false} SortByKey<T>(s: seq<T>, le: (T, T) -> bool, key: T -> int)
    requires forall x <- s, y <- s :: le(x, y) <==> key(x) <= key(y)
    ensures Ascending(Sort(s, le), key)
  {
    if s != [] {
      var tail := s[1..];
      SortByKey(tail, le, key);
      SortHolds(tail, le);
      forall y | y in Sort(tail, le) ensures le(s[0], y) <==> key(s[0]) <= key(y) {
        assert y in multiset(tail);
      }
      InsertByKey(s[0], Sort(tail, le), le, key);
    }
  }

  /** The elements with the given key, in order. */
  function WithKey<T>(s: seq<T>, key: T -> int, k: int): seq<T> {
    if s == [] then [] else (if key(s[0]) == k then [s[0]] else []) + WithKey(s[1..], key, k)
  }

  lemma WithKeyFirst<T>(x: T, s: seq<T>, key: T -> int, k: int)
    ensures WithKey([x] + s, key, k) == (if key(x) == k then [x] else []) + WithKey(s, key, k)
  {
    assert ([x] + s)[1..] == s;
  }

  lemma {:induction false} InsertIsStable<T>(x: T, s: seq<T>, le: (T, T) -> bool, key: T -> int, k: int)
    requires forall y <- s :: le(x, y) <==> key(x) <= key(y)
    ensures WithKey(InsertInOrder(x, s, le), key, k) == (if key(x) == k then [x] else []) + WithKey(s, key, k)
  {
    if s == [] || le(x, s[0]) {
      WithKeyFirst(x, s, key, k);
    } else {
      InsertIsStable(x, s[1..], le, key, k);
      WithKeyFirst(s[0], InsertInOrder(x, s[1..], le), key, k);
    }
  }

  /** Elements with equal keys keep their order. */
  lemma {:induction false} SortIsStable<T>(s: seq<T>, le: (T, T) -> bool, key: T -> int, k: int)
    requires forall x <- s, y <- s :: le(x, y) <==> key(x) <= key(y)
    ensures WithKey(Sort(s, le), key, k) == WithKey(s, key, k)
  {
    if s != [] {
      var tail := s[1..];
      SortIsStable(tail, le, key, k);
      SortHolds(tail, le);
      forall y | y in Sort(tail, le) ensures le(s[0], y) <==> key(s[0]) <= key(y) {
        assert y in multiset(tail);
      }
      InsertIsStable(s[0], Sort(tail, le), le, key, k);
    }
  }

  /** An order without ties between different elements leaves one way to sort. */
  lemma {:induction false} OrderIsUnique<T(!new)>(a: seq<T>, b: seq<T>, le: (T, T) -> bool)
    requires TotalPreorder(le) && Antisymmetric(le)
    requires Ordered(a, le) && Ordered(b, le) && multiset(a) == multiset(b)
    ensures a == b
  {
    SameLength(a, b);
    if a != [] {
      SameHead(a, b, le);
      SameTails(a, b);
      TailOrdered(a, le);
      TailOrdered(b, le);
      OrderIsUnique(a[1..], b[1..], le);
      SameWhole(a, b);
    }
  }

  lemma SameLength<T>(a: seq<T>, b: seq<T>)
    requires multiset(a) == multiset(b)
    ensures |a| == |b|
  {
    assert |multiset(a)| == |multiset(b)|;
  }

  lemma SameTails<T>(a: seq<T>, b: seq<T>)
    requires a != [] && b != [] && a[0] == b[0] && multiset(a) == multiset(b)
    ensures multiset(a[1..]) == multiset(b[1..])
  {
    RemoveOne(a, b, 0);
    assert b[..0] + b[1..] == b[1..];
  }

  lemma SameWhole<T>(a: seq<T>, b: seq<T>)
    requires a != [] && b != [] && a[0] == b[0] && a[1..] == b[1..]
    ensures a == b
  {
    assert a == [a[0]] + a[1..] && b == [b[0]] + b[1..];
  }

  lemma SameHead<T(!new)>(a: seq<T>, b: seq<T>, le: (T, T) -> bool)
    requires TotalPreorder(le) && Antisymmetric(le) && a != [] && b != []
    requires Ordered(a, le) && Ordered(b, le) && multiset(a) == multiset(b)
    ensures a[0] == b[0]
  {
    assert a[0] in multiset(a) && b[0] in multiset(b);
    HeadIsLeast(a, b[0], le);
    HeadIsLeast(b, a[0], le);
  }

  lemma HeadIsLeast<T(!new)>(a: seq<T>, x: T, le: (T, T) -> bool)
    requires TotalPreorder(le) && Ordered(a, le) && a != [] && x in multiset(a)
    ensures le(a[0], x)
  {
    var i :| 0 <= i < |a| && a[i] == x;
  }

  lemma TailOrdered<T>(s: seq<T>, le: (T, T) -> bool)
    requires Ordered(s, le) && s != []
    ensures Ordered(s[1..], le)
  {
    forall i, j | 0 <= i < j < |s[1..]| ensures le(s[1..][i], s[1..][j]) { assert le(s[i + 1], s[j + 1]); }
  }

  /** Taking the same element out of two permutations leaves permutations. */
  lemma RemoveOne<T>(a: seq<T>, b: seq<T>, i: nat)
    requires a != [] && i < |b| && b[i] == a[0] && multiset(a) == multiset(b)
    ensures multiset(a[1..]) == multiset(b[..i] + b[i + 1..])
  {
    assert a == [a[0]] + a[1..] && b == b[..i] + [b[i]] + b[i + 1..];
    assert multiset(a[1..]) == multiset(a) - multiset{a[0]};
    assert multiset(b[..i] + b[i + 1..]) == multiset(b) - multiset{b[i]};
  }
}
