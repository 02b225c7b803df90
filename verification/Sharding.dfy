/** How a checkpoint's files and tensors, and the inference sockets, are divided among ranks. */
module Sharding {
  function Min(a: int, b: int): int { if a <= b then a else b }

  /** A slice with bounds that may lie past the end. */
  function Slice<T>(s: seq<T>, from: nat, to: nat): seq<T>
    requires from <= to
  {
    s[Min(from, |s|)..Min(to, |s|)]
  }

  /** The length divided by the number of ranks, rounded up. */
  function PerRank(n: nat, world: nat): nat
    requires world > 0
  {
    (n + world - 1) / world
  }

  function Share<T>(s: seq<T>, rank: nat, world: nat): seq<T>
    requires world > 0
  {
    var per := PerRank(|s|, world);
    Slice(s, rank * per, (rank + 1) * per)
  }

  /** The shares of the first ranks, in order. */
  function Shares<T>(s: seq<T>, ranks: nat, world: nat): seq<T>
    requires world > 0
  {
    if ranks == 0 then [] else Shares(s, ranks - 1, world) + Share(s, ranks - 1, world)
  }

  lemma NextShare(rank: nat, per: nat)
    ensures 0 <= rank * per && (rank + 1) * per == rank * per + per
  {}

  lemma CoversAll(n: nat, world: nat)
    requires world > 0
    ensures n <= world * PerRank(n, world) && (PerRank(n, world) - 1) * world < n
  {
    var per := PerRank(n, world);
    assert n + world - 1 == per * world + (n + world - 1) % world;
    assert (per - 1) * world == per * world - world;
  }

  /** It is the least length of which that many shares are enough. */
  lemma PerRankIsLeast(n: nat, world: nat, k: nat)
    requires world > 0
    ensures n <= world * k <==> PerRank(n, world) <= k
  {
    var per := PerRank(n, world);
    CoversAll(n, world);
    if per <= k {
      Grows(world, per, k);
    } else {
      Grows(world, k, per - 1);
    }
  }

  lemma Grows(world: nat, a: nat, b: nat)
    requires a <= b
    ensures world * a <= world * b
  {}

  lemma {:induction false} SharesArePrefix<T>(s: seq<T>, ranks: nat, world: nat)
    requires world > 0
    ensures Shares(s, ranks, world) == s[..Min(ranks * PerRank(|s|, world), |s|)]
  {
    if ranks > 0 {
      var per := PerRank(|s|, world);
      SharesArePrefix(s, ranks - 1, world);
      NextShare(ranks - 1, per);
      var a, b := Min((ranks - 1) * per, |s|), Min(ranks * per, |s|);
      assert s[..a] + s[a..b] == s[..b];
    }
  }

  /** The ranks' shares, in order, are the whole list: nothing is lost, repeated or reordered. */
  lemma SharesAreAll<T>(s: seq<T>, world: nat)
    requires world > 0
    ensures Shares(s, world, world) == s
  {
    SharesArePrefix(s, world, world);
    CoversAll(|s|, world);
  }

  /** No rank gets more than the rounded-up quotient, and a rank gets less only when nothing is left after it. */
  lemma SharesAreEven<T>(s: seq<T>, rank: nat, world: nat)
    requires world > 0
    ensures |Share(s, rank, world)| <= PerRank(|s|, world)
    ensures |Share(s, rank, world)| < PerRank(|s|, world) ==> Shares(s, rank + 1, world) == s
  {
    NextShare(rank, PerRank(|s|, world));
    SharesArePrefix(s, rank + 1, world);
  }

  // ---------------------------------------------------------------- tensors

  datatype Weight = Weight(name: string, file: string)

  ghost predicate DistinctNames(weights: seq<Weight>) {
    forall i, j :: 0 <= i < j < |weights| ==> weights[i].name != weights[j].name
  }

  /** The grouping holds exactly the weights: each name is filed under its own file. */
  ghost predicate Groups(groups: map<string, seq<string>>, weights: seq<Weight>) {
    forall name, file :: (file in groups && name in groups[file]) <==> Weight(name, file) in weights
  }

  lemma GroupOneMore(groups: map<string, seq<string>>, weights: seq<Weight>, w: Weight)
    requires Groups(groups, weights)
    ensures Groups(groups[w.file := (if w.file in groups then groups[w.file] else []) + [w.name]], weights + [w])
  {
    var more := groups[w.file := (if w.file in groups then groups[w.file] else []) + [w.name]];
    forall name, file
      ensures (file in more && name in more[file]) <==> Weight(name, file) in weights + [w]
    {
      assert (file in groups && name in groups[file]) <==> Weight(name, file) in weights;
    }
  }

  method GroupByFile(weights: seq<Weight>) returns (groups: map<string, seq<string>>)
    ensures Groups(groups, weights)
  {
    groups := map[];
    for i := 0 to |weights|
      invariant Groups(groups, weights[..i])
    {
      var w := weights[i];
      GroupOneMore(groups, weights[..i], w);
      assert weights[..i + 1] == weights[..i] + [w];
      groups := groups[w.file := (if w.file in groups then groups[w.file] else []) + [w.name]];
    }
    assert weights[..|weights|] == weights;
  }

  lemma OneFile(weights: seq<Weight>, a: Weight, b: Weight)
    requires DistinctNames(weights) && a in weights && b in weights && a.name == b.name
    ensures a == b
  {
    var i :| 0 <= i < |weights| && weights[i] == a;
    var j :| 0 <= j < |weights| && weights[j] == b;
  }

  method LoadFile<T>(named: map<string, T>, file: string, names: seq<string>, load: (string, string) -> T)
    returns (r: map<string, T>)
    ensures r.Keys == named.Keys + set n <- names
    ensures forall n <- r :: r[n] == if n in names then load(file, n) else named[n]
  {
    r := named;
    for i := 0 to |names|
      invariant r.Keys == named.Keys + set n <- names[..i]
      invariant forall n <- r :: r[n] == if n in names[..i] then load(file, n) else named[n]
    {
      r := r[names[i] := load(file, names[i])];
      assert names[..i + 1] == names[..i] + [names[i]];
    }
    assert names[..|names|] == names;
  }

  /** The weights of the files already opened are loaded, and nothing else is. */
  ghost predicate LoadedSoFar<T>(named: map<string, T>, weights: seq<Weight>, left: set<string>,
                                 load: (string, string) -> T)
  {
    && (forall w <- weights :: w.file !in left ==> w.name in named && named[w.name] == load(w.file, w.name))
    && (forall n <- named :: exists file :: file !in left && Weight(n, file) in weights)
  }

  lemma LoadOneMore<T>(named: map<string, T>, more: map<string, T>, weights: seq<Weight>, left: set<string>,
                       file: string, names: seq<string>, load: (string, string) -> T)
    requires DistinctNames(weights) && LoadedSoFar(named, weights, left, load) && file in left
    requires forall n :: n in names <==> Weight(n, file) in weights
    requires more.Keys == named.Keys + set n <- names
    requires forall n <- more :: more[n] == if n in names then load(file, n) else named[n]
    ensures LoadedSoFar(more, weights, left - {file}, load)
  {
    forall w | w in weights && w.file !in left - {file}
      ensures w.name in more && more[w.name] == load(w.file, w.name)
    {
      if w.name in names {
        OneFile(weights, w, Weight(w.name, file));
      } else {
        assert w.file != file;
      }
    }
    forall n | n in more ensures exists f :: f !in left - {file} && Weight(n, f) in weights {
      if n in names {
        assert Weight(n, file) in weights;
      } else {
        var f :| f !in left && Weight(n, f) in weights;
      }
    }
  }

  /** Each rank loads exactly the weights of its share, each from the file the index names. */
  method SplitTensors<T>(weights: seq<Weight>, rank: nat, world: nat, load: (string, string) -> T)
    returns (named: map<string, T>)
    requires world > 0 && DistinctNames(weights)
    ensures forall w <- Share(weights, rank, world) :: w.name in named && named[w.name] == load(w.file, w.name)
    ensures forall n <- named :: exists file :: Weight(n, file) in Share(weights, rank, world)
  {
    var share := Share(weights, rank, world);
    var groups := GroupByFile(share);
    named := map[];
    var left := groups.Keys;
    assert forall w <- share :: w.file in groups by {
      forall w | w in share ensures w.file in groups { assert Weight(w.name, w.file) in share; }
    }
    while left != {}
      invariant left <= groups.Keys && LoadedSoFar(named, share, left, load)
    {
      var file :| file in left;
      var more := LoadFile(named, file, groups[file], load);
      LoadOneMore(named, more, share, left, file, groups[file], load);
      named, left := more, left - {file};
    }
  }

  // ---------------------------------------------------------------- ownership

  /** A rank's share holds the positions from its start up to the next rank's. */
  ghost predicate Owns(n: nat, i: nat, rank: nat, world: nat)
    requires world > 0
  {
    rank * PerRank(n, world) <= i < (rank + 1) * PerRank(n, world)
  }

  /** The rank's slice, which starts where the ranks before it stop, holds the element at the position. */
  ghost predicate Loads<T>(s: seq<T>, i: nat, rank: nat, world: nat)
    requires world > 0 && i < |s|
  {
    var from := |Shares(s, rank, world)|;
    from <= i < from + |Share(s, rank, world)| && Share(s, rank, world)[i - from] == s[i]
  }

  lemma OwnsIsLoads<T>(s: seq<T>, i: nat, rank: nat, world: nat)
    requires world > 0 && i < |s|
    ensures Owns(|s|, i, rank, world) <==> Loads(s, i, rank, world)
  {
    NextShare(rank, PerRank(|s|, world));
    SharesArePrefix(s, rank, world);
  }

  lemma Multiples(a: nat, b: nat, per: nat, i: int)
    requires a * per <= i < (b + 1) * per
    ensures a <= b
  {}

  lemma Owner(n: nat, i: nat, world: nat) returns (rank: nat)
    requires world > 0 && i < n
    ensures rank < world && Owns(n, i, rank, world)
    ensures forall other: nat :: Owns(n, i, other, world) ==> other == rank
  {
    var per := PerRank(n, world);
    CoversAll(n, world);
    rank := i / per;
    NextShare(rank, per);
    assert i == rank * per + i % per;
    Multiples(rank, world - 1, per, i);
    forall other: nat | Owns(n, i, other, world) ensures other == rank {
      Multiples(other, rank, per, i);
      Multiples(rank, other, per, i);
    }
  }

  /** Every element is in the slice of exactly one rank. */
  lemma OwnedOnce<T>(s: seq<T>, i: nat, world: nat)
    requires world > 0 && i < |s|
    ensures exists rank: nat :: rank < world && Loads(s, i, rank, world)
                             && forall other: nat :: Loads(s, i, other, world) ==> other == rank
  {
    var rank := Owner(|s|, i, world);
    OwnsIsLoads(s, i, rank, world);
    forall other: nat | Loads(s, i, other, world) ensures other == rank { OwnsIsLoads(s, i, other, world); }
  }

  // ---------------------------------------------------------------- inference groups

  /** The first rank of a rank's inference group. */
  function Leader(rank: nat, size: nat): nat
    requires size > 0
  {
    rank / size * size
  }

  /** The sockets a rank announces: those of its group if it leads one. */
  function Announced<T>(sockets: seq<T>, rank: nat, size: nat): seq<T>
    requires size > 0
  {
    if rank == Leader(rank, size) then Slice(sockets, rank, rank + size) else []
  }

  lemma QuotientIs(i: nat, q: nat, size: nat)
    requires size > 0 && q * size <= i < q * size + size
    ensures i / size == q
  {
    var d := i / size;
    assert i == d * size + i % size;
    NextShare(d, size);
    NextShare(q, size);
    Multiples(q, d, size, i);
    Multiples(d, q, size, i);
  }

  lemma LeaderLeads(rank: nat, size: nat)
    requires size > 0
    ensures Leader(rank, size) <= rank < Leader(rank, size) + size
    ensures Leader(Leader(rank, size), size) == Leader(rank, size)
  {
    var q := rank / size;
    assert rank == q * size + rank % size;
    NextShare(q, size);
    QuotientIs(q * size, q, size);
  }

  /** The rank's announcement, which starts at its own socket, holds the socket at the position. */
  ghost predicate Announces<T>(sockets: seq<T>, i: nat, rank: nat, size: nat)
    requires size > 0 && i < |sockets|
  {
    var announced := Announced(sockets, rank, size);
    rank <= i < rank + |announced| && announced[i - rank] == sockets[i]
  }

  /** Every rank's socket is announced by the leader of its group and by no other rank. */
  lemma AnnouncedOnce<T>(sockets: seq<T>, i: nat, rank: nat, size: nat)
    requires size > 0 && i < |sockets|
    ensures Announces(sockets, i, rank, size) <==> rank == Leader(i, size)
  {
    LeaderLeads(i, size);
    if Announces(sockets, i, rank, size) {
      QuotientIs(i, rank / size, size);
    }
  }

  /** What the first ranks announce, in order. */
  function AllAnnounced<T>(sockets: seq<T>, ranks: nat, size: nat): seq<T>
    requires size > 0
  {
    if ranks == 0 then [] else AllAnnounced(sockets, ranks - 1, size) + Announced(sockets, ranks - 1, size)
  }

  /** Up to a rank, the groups begun so far have announced all their sockets. */
  lemma {:induction false} AnnouncedPrefix<T>(sockets: seq<T>, ranks: nat, size: nat)
    requires size > 0
    ensures ranks > 0 ==>
              AllAnnounced(sockets, ranks, size) == sockets[..Min(Leader(ranks - 1, size) + size, |sockets|)]
  {
    if ranks > 0 {
      AnnouncedPrefix(sockets, ranks - 1, size);
      var last := ranks - 1;
      LeaderLeads(last, size);
      if last > 0 {
        NextLeader(last, size);
      }
      if last == Leader(last, size) {
        var a, b := Min(last, |sockets|), Min(last + size, |sockets|);
        assert sockets[..a] + sockets[a..b] == sockets[..b];
      }
    }
  }

  /** A rank either leads the next group or belongs to the group of the rank before it. */
  lemma NextLeader(rank: nat, size: nat)
    requires size > 0 && rank > 0
    ensures rank == Leader(rank, size) ==> Leader(rank - 1, size) + size == rank
    ensures rank != Leader(rank, size) ==> Leader(rank - 1, size) == Leader(rank, size)
  {
    var q := rank / size;
    LeaderLeads(rank, size);
    if rank == Leader(rank, size) {
      assert q > 0;
      NextShare(q - 1, size);
      QuotientIs(rank - 1, q - 1, size);
    } else {
      QuotientIs(rank - 1, q, size);
    }
  }

  /** The leaders' announcements, in order, are all the sockets, each once. */
  lemma AnnouncedAll<T>(sockets: seq<T>, size: nat)
    requires size > 0
    ensures AllAnnounced(sockets, |sockets|, size) == sockets
  {
    AnnouncedPrefix(sockets, |sockets|, size);
    if sockets != [] {
      LeaderLeads(|sockets| - 1, size);
    }
  }
}
