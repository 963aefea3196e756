/**
 Rankings: score descending, ties broken by id. On hits with distinct ids the order is total
 and strict, so a ranking is determined by the set of hits alone, in whatever order a hash
 map delivers them.
 */
module Ranking {
  import opened Prelude

  datatype Hit<+T> = Hit(id: string, score: real, item: T)

  // ---- strings in lexicographic order ----

  predicate StrLt(a: string, b: string) {
    if b == [] then false
    else if a == [] then true
    else if a[0] != b[0] then a[0] < b[0]
    else StrLt(a[1..], b[1..])
  }

  lemma {:induction false} StrLtAntisymmetric(a: string, b: string)
    ensures !(StrLt(a, b) && StrLt(b, a))
    decreases |a|
  {
    if a != [] && b != [] {
      StrLtAntisymmetric(a[1..], b[1..]);
    }
  }

  lemma {:induction false} StrLtTransitive(a: string, b: string, d: string)
    requires StrLt(a, b) && StrLt(b, d)
    ensures StrLt(a, d)
    decreases |a|
  {
    if a != [] && a[0] == b[0] && b[0] == d[0] {
      StrLtTransitive(a[1..], b[1..], d[1..]);
    }
  }

  lemma {:induction false} StrLtTotal(a: string, b: string)
    requires a != b
    ensures StrLt(a, b) || StrLt(b, a)
    decreases |a|
  {
    if a != [] && b != [] && a[0] == b[0] {
      assert a == [a[0]] + a[1..] && b == [b[0]] + b[1..];
      StrLtTotal(a[1..], b[1..]);
    }
  }

  /** Smaller at the first position where the two differ, or a proper prefix. */
  lemma {:induction false} StrLtIs(a: string, b: string)
    ensures StrLt(a, b) <==> exists i :: 0 <= i <= |a| && i < |b| && a[..i] == b[..i] && (i == |a| || a[i] < b[i])
    decreases |a|
  {
    if b != [] {
      if a == [] || a[0] != b[0] {
        assert a[..0] == b[..0];
        forall i | 0 < i <= |a| && i < |b|
          ensures a[..i] != b[..i]
        {
          assert a[..i][0] == a[0] && b[..i][0] == b[0];
        }
      } else {
        StrLtIs(a[1..], b[1..]);
        if i :| 0 <= i <= |a[1..]| && i < |b[1..]| && a[1..][..i] == b[1..][..i] && (i == |a[1..]| || a[1..][i] < b[1..][i]) {
          assert a[..i + 1] == [a[0]] + a[1..][..i] && b[..i + 1] == [b[0]] + b[1..][..i];
        }
        if i :| 0 <= i <= |a| && i < |b| && a[..i] == b[..i] && (i == |a| || a[i] < b[i]) {
          assert i > 0;
          assert a[1..][..i - 1] == a[..i][1..] && b[1..][..i - 1] == b[..i][1..];
        }
      }
    }
  }

  // ---- the ranking order ----

  predicate Before<T>(a: Hit<T>, b: Hit<T>) {
    a.score > b.score || (a.score == b.score && StrLt(a.id, b.id))
  }

  lemma BeforeAntisymmetric<T>(a: Hit<T>, b: Hit<T>)
    ensures !(Before(a, b) && Before(b, a))
  {
    StrLtAntisymmetric(a.id, b.id);
  }

  lemma BeforeTransitive<T>(a: Hit<T>, b: Hit<T>, d: Hit<T>)
    requires Before(a, b) && Before(b, d)
    ensures Before(a, d)
  {
    if a.score == b.score == d.score {
      StrLtTransitive(a.id, b.id, d.id);
    }
  }

  lemma BeforeTotal<T>(a: Hit<T>, b: Hit<T>)
    requires a.id != b.id
    ensures Before(a, b) || Before(b, a)
  {
    StrLtTotal(a.id, b.id);
  }

  ghost predicate DistinctIds<T>(xs: seq<Hit<T>>) {
    forall i, j :: 0 <= i < j < |xs| ==> xs[i].id != xs[j].id
  }

  ghost predicate Ranked<T>(xs: seq<Hit<T>>) {
    forall i, j :: 0 <= i < j < |xs| ==> Before(xs[i], xs[j])
  }

  // ---- sorting ----

  function Place<T>(x: Hit<T>, xs: seq<Hit<T>>): seq<Hit<T>> {
    if xs == [] || Before(x, xs[0]) then [x] + xs else [xs[0]] + Place(x, xs[1..])
  }

  function Rank<T>(xs: seq<Hit<T>>): seq<Hit<T>> {
    if xs == [] then [] else Place(xs[0], Rank(xs[1..]))
  }

  lemma {:induction false} PlaceKeeps<T>(x: Hit<T>, xs: seq<Hit<T>>)
    ensures multiset(Place(x, xs)) == multiset{x} + multiset(xs)
  {
    if xs != [] && !Before(x, xs[0]) {
      PlaceKeeps(x, xs[1..]);
      assert xs == [xs[0]] + xs[1..];
    }
  }

  lemma {:induction false} RankKeeps<T>(xs: seq<Hit<T>>)
    ensures multiset(Rank(xs)) == multiset(xs)
    ensures |Rank(xs)| == |xs|
  {
    if xs != [] {
      RankKeeps(xs[1..]);
      PlaceKeeps(xs[0], Rank(xs[1..]));
      assert xs == [xs[0]] + xs[1..];
    }
    assert |multiset(Rank(xs))| == |Rank(xs)| && |multiset(xs)| == |xs|;
  }

  lemma RankMember<T>(xs: seq<Hit<T>>, h: Hit<T>)
    ensures h in Rank(xs) <==> h in xs
  {
    RankKeeps(xs);
    assert h in Rank(xs) <==> h in multiset(Rank(xs));
    assert h in xs <==> h in multiset(xs);
  }

  lemma RankedCons<T>(x: Hit<T>, xs: seq<Hit<T>>)
    requires Ranked(xs) && (xs != [] ==> Before(x, xs[0]))
    ensures Ranked([x] + xs)
  {
    var out := [x] + xs;
    forall i, j | 0 <= i < j < |out|
      ensures Before(out[i], out[j])
    {
      if i == 0 && j > 1 {
        BeforeTransitive(x, xs[0], xs[j - 1]);
      } else if i > 0 {
        assert out[i] == xs[i - 1] && out[j] == xs[j - 1];
      }
    }
  }

  lemma {:induction false} PlaceRanks<T>(x: Hit<T>, xs: seq<Hit<T>>)
    requires Ranked(xs) && forall i :: 0 <= i < |xs| ==> xs[i].id != x.id
    ensures Ranked(Place(x, xs))
    ensures Place(x, xs)[0] == x || (xs != [] && Place(x, xs)[0] == xs[0])
  {
    hide Before;
    if xs == [] || Before(x, xs[0]) {
      RankedCons(x, xs);
    } else {
      BeforeTotal(x, xs[0]);
      assert Ranked(xs[1..]) && forall i :: 0 <= i < |xs[1..]| ==> xs[1..][i] == xs[i + 1];
      PlaceRanks(x, xs[1..]);
      RankedCons(xs[0], Place(x, xs[1..]));
    }
  }

  /** Sorting hits with distinct ids gives a strict ranking of the same hits. */
  lemma {:induction false} RankIsRanked<T>(xs: seq<Hit<T>>)
    requires DistinctIds(xs)
    ensures Ranked(Rank(xs))
  {
    hide Place, Before;
    if xs != [] {
      assert DistinctIds(xs[1..]) && forall i :: 0 <= i < |xs[1..]| ==> xs[1..][i].id != xs[0].id;
      RankIsRanked(xs[1..]);
      var rest := Rank(xs[1..]);
      forall i | 0 <= i < |rest|
        ensures rest[i].id != xs[0].id
      {
        RankMember(xs[1..], rest[i]);
      }
      PlaceRanks(xs[0], rest);
    }
  }

  lemma RankedHead<T>(xs: seq<Hit<T>>, ys: seq<Hit<T>>)
    requires Ranked(xs) && Ranked(ys) && xs != [] && ys != []
    requires xs[0] in ys && ys[0] in xs
    ensures xs[0] == ys[0]
  {
    hide Before;
    var i :| 0 <= i < |ys| && ys[i] == xs[0];
    var j :| 0 <= j < |xs| && xs[j] == ys[0];
    BeforeAntisymmetric(xs[0], ys[0]);
  }

  lemma TailMultiset<T>(xs: seq<T>)
    requires xs != []
    ensures multiset(xs[1..]) == multiset(xs) - multiset{xs[0]}
  {
    assert xs == [xs[0]] + xs[1..];
  }

  lemma SameLength<T>(xs: seq<T>, ys: seq<T>)
    requires multiset(xs) == multiset(ys)
    ensures |xs| == |ys|
  {
    assert |multiset(xs)| == |xs| && |multiset(ys)| == |ys|;
  }

  /** Two rankings of the same hits are the same list. */
  lemma {:induction false} RankingIsUnique<T>(xs: seq<Hit<T>>, ys: seq<Hit<T>>)
    requires Ranked(xs) && Ranked(ys) && multiset(xs) == multiset(ys)
    ensures xs == ys
    decreases |xs|
  {
    hide Before;
    SameLength(xs, ys);
    if xs != [] {
      assert xs[0] in multiset(ys) && ys[0] in multiset(xs);
      RankedHead(xs, ys);
      TailMultiset(xs);
      TailMultiset(ys);
      RankingIsUnique(xs[1..], ys[1..]);
      assert xs == [xs[0]] + xs[1..] && ys == [ys[0]] + ys[1..];
    }
  }

  lemma DistinctPermutes<T>(xs: seq<Hit<T>>, ys: seq<Hit<T>>)
    requires multiset(xs) == multiset(ys) && DistinctIds(xs)
    ensures DistinctIds(ys)
  {
    forall i, j | 0 <= i < j < |ys|
      ensures ys[i].id != ys[j].id
    {
      if ys[i].id == ys[j].id {
        assert ys[i] in multiset(xs) && ys[j] in multiset(xs);
        var a :| 0 <= a < |xs| && xs[a] == ys[i];
        var b :| 0 <= b < |xs| && xs[b] == ys[j];
        assert a == b;
        TwiceInMultiset(ys, i, j);
        OnceInMultiset(xs, a);
      }
    }
  }

  lemma TwiceInMultiset<T>(ys: seq<T>, i: nat, j: nat)
    requires i < j < |ys| && ys[i] == ys[j]
    ensures multiset(ys)[ys[i]] >= 2
  {
    assert ys == ys[..i] + [ys[i]] + ys[i + 1..j] + [ys[j]] + ys[j + 1..];
  }

  lemma OnceInMultiset<T>(xs: seq<Hit<T>>, a: nat)
    requires a < |xs| && DistinctIds(xs)
    ensures multiset(xs)[xs[a]] == 1
  {
    assert xs == xs[..a] + [xs[a]] + xs[a + 1..];
    assert xs[a] !in xs[..a] && xs[a] !in xs[a + 1..];
  }

  /** The order in which hits arrive does not matter. */
  lemma RankIgnoresOrder<T>(xs: seq<Hit<T>>, ys: seq<Hit<T>>)
    requires multiset(xs) == multiset(ys) && DistinctIds(xs)
    ensures Rank(xs) == Rank(ys)
  {
    DistinctPermutes(xs, ys);
    RankIsRanked(xs);
    RankIsRanked(ys);
    RankKeeps(xs);
    RankKeeps(ys);
    RankingIsUnique(Rank(xs), Rank(ys));
  }

  // ---- limits ----

  /** A limit of zero means no limit. */
  function Limit<T>(limit: nat, xs: seq<T>): seq<T> {
    if limit != 0 && |xs| > limit then xs[..limit] else xs
  }

  lemma {:induction false} PlaceUnderLimit<T>(limit: nat, x: Hit<T>, xs: seq<Hit<T>>)
    ensures Limit(limit, Place(x, xs)) == Limit(limit, Place(x, Limit(limit, xs)))
    decreases |xs|
  {
    hide Before;
    if limit != 0 && |xs| > limit {
      var cut := xs[..limit];
      SizeOfPlace(x, xs);
      SizeOfPlace(x, cut);
      if !Before(x, xs[0]) {
        assert cut[1..] == xs[1..][..limit - 1];
        if limit > 1 {
          PlaceUnderLimit(limit - 1, x, xs[1..]);
        }
      }
    }
  }

  lemma {:induction false} SizeOfPlace<T>(x: Hit<T>, xs: seq<Hit<T>>)
    ensures |Place(x, xs)| == |xs| + 1
  {
    if xs != [] && !Before(x, xs[0]) {
      SizeOfPlace(x, xs[1..]);
    }
  }

  /** Hits outside the top `limit` can never come back: they may be dropped early. */
  lemma {:induction false} LimitAbsorbs<T>(limit: nat, more: seq<Hit<T>>, ranked: seq<Hit<T>>, all: seq<Hit<T>>)
    requires Limit(limit, Rank(ranked)) == Limit(limit, Rank(all))
    ensures Limit(limit, Rank(more + ranked)) == Limit(limit, Rank(more + all))
    decreases |more|
  {
    hide Place, Limit;
    if more == [] {
      assert more + ranked == ranked && more + all == all;
    } else {
      var tail := more[1..];
      LimitAbsorbs(limit, tail, ranked, all);
      assert (more + ranked)[1..] == tail + ranked && (more + all)[1..] == tail + all;
      PlaceUnderLimit(limit, more[0], Rank(tail + ranked));
      PlaceUnderLimit(limit, more[0], Rank(tail + all));
    }
  }

  lemma {:induction false} RankOfRanked<T>(xs: seq<Hit<T>>)
    requires Ranked(xs)
    ensures Rank(xs) == xs
  {
    hide Before;
    if xs != [] {
      RankOfRanked(xs[1..]);
      assert xs == [xs[0]] + xs[1..];
    }
  }

  lemma RankOfLimit<T>(limit: nat, xs: seq<Hit<T>>)
    requires DistinctIds(xs)
    ensures Limit(limit, Rank(Limit(limit, Rank(xs)))) == Limit(limit, Rank(xs))
  {
    RankIsRanked(xs);
    RankOfRanked(Limit(limit, Rank(xs)));
  }

  /** Adding hits to an already limited ranking gives the same top `limit` as ranking all. */
  lemma TopOfTop<T>(limit: nat, more: seq<Hit<T>>, xs: seq<Hit<T>>)
    requires DistinctIds(xs)
    ensures Limit(limit, Rank(more + Limit(limit, Rank(xs)))) == Limit(limit, Rank(more + xs))
  {
    RankOfLimit(limit, xs);
    LimitAbsorbs(limit, more, Limit(limit, Rank(xs)), xs);
  }

  // ---- tables of hits, one per id ----

  type Table<T> = map<string, Hit<T>>

  ghost predicate KeyedById<T>(m: Table<T>) {
    forall k :: k in m ==> m[k].id == k
  }

  /** A list of the table's hits, each once, in any order. */
  ghost predicate Lists<T(!new)>(out: seq<Hit<T>>, m: Table<T>) {
    DistinctIds(out) && forall h :: h in out <==> h.id in m && m[h.id] == h
  }

  ghost function RankedValues<T(!new)>(m: Table<T>): seq<Hit<T>> {
    if m == map[] then [] else var k :| k in m; Place(m[k], RankedValues(m - {k}))
  }

  lemma {:induction false} SameMembers<T(!new)>(a: seq<Hit<T>>, b: seq<Hit<T>>)
    requires DistinctIds(a) && DistinctIds(b) && forall h :: h in a <==> h in b
    ensures multiset(a) == multiset(b)
  {
    forall h
      ensures multiset(a)[h] == multiset(b)[h]
    {
      if h in a {
        var i :| 0 <= i < |a| && a[i] == h;
        var j :| 0 <= j < |b| && b[j] == h;
        OnceInMultiset(a, i);
        OnceInMultiset(b, j);
      } else {
        assert h !in multiset(a) && h !in multiset(b);
      }
    }
  }

  lemma PlaceMember<T(!new)>(x: Hit<T>, xs: seq<Hit<T>>, h: Hit<T>)
    ensures h in Place(x, xs) <==> h == x || h in xs
  {
    PlaceKeeps(x, xs);
    assert h in Place(x, xs) <==> h in multiset(Place(x, xs));
    assert h in xs <==> h in multiset(xs);
  }

  lemma PlaceLists<T(!new)>(m: Table<T>, k: string, rest: seq<Hit<T>>)
    requires KeyedById(m) && k in m && Ranked(rest) && Lists(rest, m - {k})
    ensures Ranked(Place(m[k], rest)) && Lists(Place(m[k], rest), m)
  {
    hide Before, Place;
    assert forall i :: 0 <= i < |rest| ==> rest[i] in rest;
    PlaceRanks(m[k], rest);
    PlaceKeeps(m[k], rest);
    forall h
      ensures h in Place(m[k], rest) <==> h.id in m && m[h.id] == h
    {
      PlaceMember(m[k], rest, h);
    }
    DistinctCons(m[k], rest);
    DistinctPermutes([m[k]] + rest, Place(m[k], rest));
  }

  lemma {:induction false} RankedValuesRank<T(!new)>(m: Table<T>)
    requires KeyedById(m)
    ensures Ranked(RankedValues(m)) && Lists(RankedValues(m), m)
    decreases m
  {
    hide Place, Ranked, Lists;
    if m == map[] {
      assert Ranked<T>([]) && Lists<T>([], map[]) by { NothingRanked<T>(); }
    } else {
      var k :| k in m && RankedValues(m) == Place(m[k], RankedValues(m - {k}));
      RankedValuesRank(m - {k});
      PlaceLists(m, k, RankedValues(m - {k}));
    }
  }

  lemma NothingRanked<T(!new)>()
    ensures Ranked<T>([]) && Lists<T>([], map[])
  {
  }

  lemma DistinctCons<T(!new)>(x: Hit<T>, xs: seq<Hit<T>>)
    requires DistinctIds(xs) && forall i :: 0 <= i < |xs| ==> xs[i].id != x.id
    ensures DistinctIds([x] + xs) && multiset([x] + xs) == multiset{x} + multiset(xs)
  {
    var out := [x] + xs;
    assert forall i :: 0 < i < |out| ==> out[i] == xs[i - 1];
  }

  /** Sorting any listing of the table gives its ranking. */
  lemma RankOfListing<T(!new)>(out: seq<Hit<T>>, m: Table<T>)
    requires KeyedById(m) && Lists(out, m)
    ensures Rank(out) == RankedValues(m) && |out| == |RankedValues(m)|
  {
    hide Rank;
    RankedValuesRank(m);
    SameMembers(out, RankedValues(m));
    RankIgnoresOrder(out, RankedValues(m));
    RankOfRanked(RankedValues(m));
    SameLength(out, RankedValues(m));
  }

  lemma {:induction false} RankedValuesSize<T(!new)>(m: Table<T>)
    ensures |RankedValues(m)| == |m|
  {
    if m != map[] {
      var k :| k in m && RankedValues(m) == Place(m[k], RankedValues(m - {k}));
      RankedValuesSize(m - {k});
      SizeOfPlace(m[k], RankedValues(m - {k}));
      assert m.Keys == (m - {k}).Keys + {k};
    }
  }

  // ---- rankings of tables that differ in what the hits carry ----

  function IdsAndScores<T>(hits: seq<Hit<T>>): (out: seq<Hit<()>>)
    ensures |out| == |hits|
    ensures forall i :: 0 <= i < |hits| ==> out[i] == Hit(hits[i].id, hits[i].score, ())
  {
    seq(|hits|, i requires 0 <= i < |hits| => Hit(hits[i].id, hits[i].score, ()))
  }

  lemma StrippedMember<T(!new)>(hits: seq<Hit<T>>, h: Hit<()>)
    ensures h in IdsAndScores(hits) <==> exists x :: x in hits && x.id == h.id && x.score == h.score
  {
    if h in IdsAndScores(hits) {
      var i :| 0 <= i < |hits| && IdsAndScores(hits)[i] == h;
      assert hits[i] in hits;
    }
    if x :| x in hits && x.id == h.id && x.score == h.score {
      var i :| 0 <= i < |hits| && hits[i] == x;
      assert h.item == ();
      assert IdsAndScores(hits)[i] == h;
    }
  }

  lemma StrippedKeepsRank<T>(hits: seq<Hit<T>>)
    requires Ranked(hits) && DistinctIds(hits)
    ensures Ranked(IdsAndScores(hits)) && DistinctIds(IdsAndScores(hits))
  {
  }

  lemma StrippedLimit<T>(limit: nat, hits: seq<Hit<T>>)
    ensures IdsAndScores(Limit(limit, hits)) == Limit(limit, IdsAndScores(hits))
  {
  }

  /** Tables with the same ids and scores rank alike, under any limit. */
  lemma RankedAlike<T(!new)>(a: Table<T>, b: Table<T>, limit: nat)
    requires KeyedById(a) && KeyedById(b) && a.Keys == b.Keys && forall k :: k in a ==> a[k].score == b[k].score
    ensures IdsAndScores(Limit(limit, RankedValues(a))) == IdsAndScores(Limit(limit, RankedValues(b)))
  {
    hide RankedValues, Limit, Ranked, Before;
    RankedValuesRank(a);
    RankedValuesRank(b);
    var x, y := RankedValues(a), RankedValues(b);
    StrippedKeepsRank(x);
    StrippedKeepsRank(y);
    forall h
      ensures h in IdsAndScores(x) <==> h in IdsAndScores(y)
    {
      StrippedMember(x, h);
      StrippedMember(y, h);
      StrippedTable(a, h);
      StrippedTable(b, h);
    }
    SameMembers(IdsAndScores(x), IdsAndScores(y));
    RankingIsUnique(IdsAndScores(x), IdsAndScores(y));
    StrippedLimit(limit, x);
    StrippedLimit(limit, y);
  }

  lemma StrippedTable<T(!new)>(m: Table<T>, h: Hit<()>)
    requires KeyedById(m)
    ensures (exists x :: x in RankedValues(m) && x.id == h.id && x.score == h.score) <==> h.id in m && m[h.id].score == h.score
  {
    hide RankedValues, Ranked;
    RankedValuesRank(m);
    if h.id in m && m[h.id].score == h.score {
      assert m[h.id] in RankedValues(m);
    }
  }
}
