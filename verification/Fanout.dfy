/** Merging per-shard search responses: one-shot, and incrementally as they arrive. */
module Fanout {
  import opened Prelude
  import opened Ranking

  /** What a hit carries besides its ranking key. A hit without a document reads as id ""
      and observation time 0. */
  datatype Details = Details(observedAt: int, provenance: Option<int>)
  type SearchHit = Hit<Details>

  datatype SearchResponse = SearchResponse(hits: seq<SearchHit>, totalMatched: nat)

  // ---- one hit per aircraft ----

  predicate Supersedes(a: SearchHit, b: SearchHit) {
    a.item.observedAt > b.item.observedAt ||
    (a.item.observedAt == b.item.observedAt && a.score > b.score)
  }

  function Offer(m: Table<Details>, h: SearchHit): Table<Details> {
    if h.id in m && !Supersedes(h, m[h.id]) then m else m[h.id := h]
  }

  function BestFrom(m: Table<Details>, hits: seq<SearchHit>): Table<Details> {
    if hits == [] then m else Offer(BestFrom(m, hits[..|hits| - 1]), hits[|hits| - 1])
  }

  function Best(hits: seq<SearchHit>): Table<Details> {
    BestFrom(map[], hits)
  }

  lemma {:induction false} BestIsKeyed(m: Table<Details>, hits: seq<SearchHit>)
    requires KeyedById(m)
    ensures KeyedById(BestFrom(m, hits))
  {
    if hits != [] {
      BestIsKeyed(m, hits[..|hits| - 1]);
    }
  }

  lemma {:induction false} BestConcat(m: Table<Details>, a: seq<SearchHit>, b: seq<SearchHit>)
    ensures BestFrom(m, a + b) == BestFrom(BestFrom(m, a), b)
    decreases |b|
  {
    if b == [] {
      assert a + b == a;
    } else {
      assert (a + b)[..|a + b| - 1] == a + b[..|b| - 1];
      BestConcat(m, a, b[..|b| - 1]);
    }
  }

  lemma BestSnoc(hits: seq<SearchHit>, h: SearchHit)
    ensures Best(hits + [h]) == Offer(Best(hits), h)
  {
    assert (hits + [h])[..|hits|] == hits;
  }

  /** Each aircraft of the list has a hit of its own in the table that none supersedes. */
  ghost predicate Tops(m: Table<Details>, hits: seq<SearchHit>) {
    && (forall k :: k in m ==> m[k] in hits && m[k].id == k)
    && (forall h :: h in hits ==> h.id in m && !Supersedes(h, m[h.id]))
  }

  lemma OfferTops(m: Table<Details>, hits: seq<SearchHit>, h: SearchHit)
    requires Tops(m, hits)
    ensures Tops(Offer(m, h), hits + [h])
  {
    var next, all := Offer(m, h), hits + [h];
    forall x | x in all
      ensures x.id in next && !Supersedes(x, next[x.id])
    {
      assert x in hits || x == h;
    }
    forall k | k in next
      ensures next[k] in all && next[k].id == k
    {
      assert next[k] == h || next[k] in hits;
      assert all[|hits|] == h;
    }
  }

  lemma {:induction false} BestIsGreatest(hits: seq<SearchHit>)
    ensures Tops(Best(hits), hits)
  {
    hide Offer, Tops;
    if hits == [] {
      assert Tops(map[], []) by { NoTops(); }
    } else {
      BestIsGreatest(hits[..|hits| - 1]);
      OfferTops(Best(hits[..|hits| - 1]), hits[..|hits| - 1], hits[|hits| - 1]);
      assert hits == hits[..|hits| - 1] + [hits[|hits| - 1]];
    }
  }

  lemma NoTops()
    ensures Tops(map[], [])
  {
  }

  /** Which hit of an aircraft survives: one of the newest, and of those one of the best scored. */
  lemma SurvivorIsNewest(hits: seq<SearchHit>)
    ensures forall k :: k in Best(hits) <==> exists h :: h in hits && h.id == k
    ensures forall k :: k in Best(hits) ==> Best(hits)[k] in hits && Best(hits)[k].id == k
    ensures forall h :: h in hits ==>
              var best := Best(hits)[h.id];
              h.item.observedAt < best.item.observedAt ||
              (h.item.observedAt == best.item.observedAt && h.score <= best.score)
  {
    hide BestFrom;
    BestIsGreatest(hits);
  }

  /** Whatever the arrival order, the surviving hits agree in id, freshness and score. */
  lemma ArrivalOrderKeepsBest(a: seq<SearchHit>, b: seq<SearchHit>)
    requires multiset(a) == multiset(b)
    ensures Best(a).Keys == Best(b).Keys
    ensures forall k :: k in Best(a) ==>
      Best(a)[k].item.observedAt == Best(b)[k].item.observedAt && Best(a)[k].score == Best(b)[k].score
  {
    hide BestFrom;
    BestIsGreatest(a);
    BestIsGreatest(b);
    forall h
      ensures h in a <==> h in b
    {
      assert h in a <==> h in multiset(a);
      assert h in b <==> h in multiset(b);
    }
  }

  /** What both merges compute from a list of hits. */
  ghost function MergedTop(limit: nat, hits: seq<SearchHit>): seq<SearchHit> {
    Limit(limit, RankedValues(Best(hits)))
  }

  // ---- dedup in place ----

  method DedupByAircraft(hits: seq<SearchHit>) returns (out: seq<SearchHit>)
    ensures Lists(out, Best(hits))
    ensures Rank(out) == RankedValues(Best(hits)) && |out| == |RankedValues(Best(hits))|
  {
    hide RankedValues, Rank;
    var best: Table<Details> := map[];
    for i := 0 to |hits|
      invariant best == Best(hits[..i])
    {
      assert hits[..i + 1][..i] == hits[..i];
      var hit := hits[i];
      if !(hit.id in best && !Supersedes(hit, best[hit.id])) {
        best := best[hit.id := hit];
      }
    }
    assert hits[..|hits|] == hits;
    BestIsKeyed(map[], hits);
    // The values, in whatever order the hash map yields them.
    out := [];
    var keys := best.Keys;
    while keys != {}
      invariant keys <= best.Keys
      invariant DistinctIds(out)
      invariant forall h :: h in out <==> h.id in best && h.id !in keys && best[h.id] == h
    {
      var k :| k in keys;
      assert forall i :: 0 <= i < |out| ==> out[i] in out;
      out := out + [best[k]];
      keys := keys - {k};
    }
    RankOfListing(out, best);
  }

  // ---- one-shot merge ----

  function AllHits(responses: seq<SearchResponse>): seq<SearchHit> {
    if responses == [] then [] else AllHits(responses[..|responses| - 1]) + responses[|responses| - 1].hits
  }

  function AllMatched(responses: seq<SearchResponse>): nat {
    if responses == [] then 0 else AllMatched(responses[..|responses| - 1]) + responses[|responses| - 1].totalMatched
  }

  /** No hit of the same aircraft is newer, and none as new scores more. */
  ghost predicate NewestOf(hits: seq<SearchHit>, best: SearchHit) {
    best in hits &&
    forall h :: h in hits && h.id == best.id ==>
      h.item.observedAt < best.item.observedAt || (h.item.observedAt == best.item.observedAt && h.score <= best.score)
  }

  ghost predicate Shows(out: seq<SearchHit>, id: string) {
    exists i :: 0 <= i < |out| && out[i].id == id
  }

  ghost predicate OneEachDescending(out: seq<SearchHit>) {
    forall i, j :: 0 <= i < j < |out| ==> out[i].id != out[j].id && out[i].score >= out[j].score
  }

  /** An aircraft that is not shown has a newest hit no better than any shown. */
  ghost predicate NoneBetter(hits: seq<SearchHit>, out: seq<SearchHit>) {
    forall h :: h in hits && !Shows(out, h.id) ==> exists best :: NewestOf(hits, best) && best.id == h.id && NoBetter(best, out)
  }

  ghost predicate NoBetter(best: SearchHit, out: seq<SearchHit>) {
    forall i :: 0 <= i < |out| ==> best.score <= out[i].score
  }

  /** The merged list on the hits themselves: newest hits, one per aircraft, in descending order
      of score, cut at the limit, and nothing better left out. */
  ghost predicate IsMerged(limit: nat, hits: seq<SearchHit>, out: seq<SearchHit>) {
    && (forall i :: 0 <= i < |out| ==> NewestOf(hits, out[i]))
    && OneEachDescending(out)
    && (limit != 0 ==> |out| <= limit)
    && (limit == 0 || |out| < limit ==> forall h :: h in hits ==> Shows(out, h.id))
    && NoneBetter(hits, out)
  }

  /** Every merge result is that list, and its unlimited length the number of aircraft. */
  lemma MergedTopIs(limit: nat, hits: seq<SearchHit>)
    ensures IsMerged(limit, hits, MergedTop(limit, hits))
    ensures |RankedValues(Best(hits))| == |set h | h in hits :: h.id|
  {
    hide IsMerged, RankedValues, BestFrom, NewestOf, Shows, OneEachDescending;
    AllSurvivors(hits);
    LimitedSurvivors(limit, hits, RankedValues(Best(hits)));
  }

  lemma AllSurvivors(hits: seq<SearchHit>)
    ensures var all := RankedValues(Best(hits));
            && (forall i :: 0 <= i < |all| ==> NewestOf(hits, all[i]))
            && OneEachDescending(all)
            && (forall h :: h in hits ==> Shows(all, h.id))
            && |all| == |set h | h in hits :: h.id|
  {
    hide BestFrom, RankedValues, NewestOf, StrLt;
    var table := Best(hits);
    BestIsKeyed(map[], hits);
    RankedValuesRank(table);
    RankedValuesSize(table);
    SurvivorIsNewest(hits);
    SurvivorsAreNewest(hits);
    assert table.Keys == (set h | h in hits :: h.id);
    assert |table.Keys| == |table|;
    var all := RankedValues(table);
    forall i | 0 <= i < |all|
      ensures NewestOf(hits, all[i])
    {
      assert all[i] in all;
    }
    forall h | h in hits
      ensures Shows(all, h.id)
    {
      assert table[h.id] in all;
    }
  }

  lemma SurvivorsAreNewest(hits: seq<SearchHit>)
    ensures forall k :: k in Best(hits) ==> NewestOf(hits, Best(hits)[k])
  {
    hide BestFrom;
    SurvivorIsNewest(hits);
  }

  lemma LimitedSurvivors(limit: nat, hits: seq<SearchHit>, all: seq<SearchHit>)
    requires forall i :: 0 <= i < |all| ==> NewestOf(hits, all[i])
    requires OneEachDescending(all) && forall h :: h in hits ==> Shows(all, h.id)
    ensures IsMerged(limit, hits, Limit(limit, all))
  {
    hide NewestOf, NoBetter;
    var out := Limit(limit, all);
    forall h | h in hits && !Shows(out, h.id)
      ensures exists best :: NewestOf(hits, best) && best.id == h.id && NoBetter(best, out)
    {
      var j :| 0 <= j < |all| && all[j].id == h.id;
      BehindIsNoBetter(limit, all, h.id, j);
    }
  }

  lemma BehindIsNoBetter(limit: nat, all: seq<SearchHit>, id: string, j: nat)
    requires OneEachDescending(all) && j < |all| && all[j].id == id && !Shows(Limit(limit, all), id)
    ensures NoBetter(all[j], Limit(limit, all))
  {
    var out := Limit(limit, all);
    assert forall i :: 0 <= i < |out| ==> out[i].id != id;
  }

  /** The hits of all responses, and the sum of their totals, whatever their order. */
  lemma {:induction false} ResponsesAdd(a: seq<SearchResponse>, b: seq<SearchResponse>)
    ensures AllHits(a + b) == AllHits(a) + AllHits(b) && AllMatched(a + b) == AllMatched(a) + AllMatched(b)
    ensures |b| == 1 ==> AllHits(b) == b[0].hits && AllMatched(b) == b[0].totalMatched
    decreases |b|
  {
    if b == [] {
      assert a + b == a;
    } else {
      var front := b[..|b| - 1];
      ResponsesAdd(a, front);
      assert (a + b)[..|a + b| - 1] == a + front;
      assert |b| == 1 ==> front == [];
    }
  }

  method MergeSearchResponses(responses: seq<SearchResponse>, limit: nat)
    returns (hits: seq<SearchHit>, totalMatched: nat, shardsAnswered: nat, deduped: nat)
    ensures hits == MergedTop(limit, AllHits(responses))
    ensures totalMatched == AllMatched(responses) && shardsAnswered == |responses|
    ensures deduped == |AllHits(responses)| - |RankedValues(Best(AllHits(responses)))|
  {
    shardsAnswered := |responses|;
    var all: seq<SearchHit> := [];
    totalMatched := 0;
    for i := 0 to |responses|
      invariant all == AllHits(responses[..i]) && totalMatched == AllMatched(responses[..i])
    {
      assert responses[..i + 1][..i] == responses[..i];
      totalMatched := totalMatched + responses[i].totalMatched;
      all := all + responses[i].hits;
    }
    assert responses[..|responses|] == responses;
    var unique := DedupByAircraft(all);
    DedupShrinks(unique, all);
    deduped := |all| - |unique|;
    hits := Rank(unique);
    if limit != 0 && |hits| > limit {
      hits := hits[..limit];
    }
  }

  lemma DedupShrinks(out: seq<SearchHit>, hits: seq<SearchHit>)
    requires Lists(out, Best(hits))
    ensures |out| <= |hits|
  {
    hide BestFrom;
    BestIsGreatest(hits);
    var have := set i | 0 <= i < |out| :: out[i];
    var from := set i | 0 <= i < |hits| :: hits[i];
    assert have <= from by {
      forall h | h in have
        ensures h in from
      {
        assert h in out && h in hits;
      }
    }
    DistinctCount(out);
    MemberCount(hits);
    SubsetSize(have, from);
  }

  lemma SubsetSize<T>(a: set<T>, b: set<T>)
    requires a <= b
    ensures |a| <= |b|
  {
    assert b == a + (b - a);
  }

  lemma {:induction false} DistinctCount(xs: seq<SearchHit>)
    requires DistinctIds(xs)
    ensures |set i | 0 <= i < |xs| :: xs[i]| == |xs|
  {
    if xs != [] {
      var front := xs[..|xs| - 1];
      DistinctCount(front);
      assert (set i | 0 <= i < |xs| :: xs[i]) == (set i | 0 <= i < |front| :: front[i]) + {xs[|xs| - 1]};
    }
  }

  lemma {:induction false} MemberCount(xs: seq<SearchHit>)
    ensures |set i | 0 <= i < |xs| :: xs[i]| <= |xs|
  {
    if xs != [] {
      var front := xs[..|xs| - 1];
      MemberCount(front);
      assert (set i | 0 <= i < |xs| :: xs[i]) == (set i | 0 <= i < |front| :: front[i]) + {xs[|xs| - 1]};
    }
  }

  // ---- incremental merge ----

  class ProgressiveMerge {
    const limit: nat
    var hits: seq<SearchHit>
    var totalMatched: nat
    var shardsAnswered: nat
    var deduped: nat

    constructor (limit: nat)
      ensures this.limit == limit && hits == [] && totalMatched == 0 && shardsAnswered == 0 && deduped == 0
    {
      this.limit, hits, totalMatched, shardsAnswered, deduped := limit, [], 0, 0, 0;
    }

    method Add(resp: SearchResponse)
      modifies this
      ensures hits == MergedTop(limit, old(hits) + resp.hits)
      ensures totalMatched == old(totalMatched) + resp.totalMatched
      ensures shardsAnswered == old(shardsAnswered) + 1
      ensures deduped == old(deduped) + |old(hits) + resp.hits| - |RankedValues(Best(old(hits) + resp.hits))|
    {
      shardsAnswered := shardsAnswered + 1;
      totalMatched := totalMatched + resp.totalMatched;
      hits := hits + resp.hits;
      var before := |hits|;
      ghost var all := hits;
      hits := DedupByAircraft(hits);
      DedupShrinks(hits, all);
      deduped := deduped + (before - |hits|);
      hits := Rank(hits);
      if limit != 0 && |hits| > limit {
        hits := hits[..limit];
      }
    }
  }

  /** The hits a ProgressiveMerge holds after adding the responses in order. */
  ghost function Progressive(limit: nat, responses: seq<SearchResponse>): seq<SearchHit> {
    if responses == [] then []
    else MergedTop(limit, Progressive(limit, responses[..|responses| - 1]) + responses[|responses| - 1].hits)
  }

  // ---- with overlapping aircraft and no limit ----

  lemma {:induction false} BestOfDistinct(xs: seq<SearchHit>, m: Table<Details>)
    requires KeyedById(m) && Lists(xs, m)
    ensures Best(xs) == m
  {
    hide BestFrom;
    BestIsGreatest(xs);
    forall k
      ensures k in Best(xs) <==> k in m
      ensures k in m ==> Best(xs)[k] == m[k]
    {
      if k in m {
        assert m[k] in xs;
      }
      if k in Best(xs) {
        assert Best(xs)[k] in xs;
      }
    }
  }

  /** Deduplicating early changes nothing: the incremental merge without a limit equals the
      one-shot merge, overlaps or not. */
  lemma {:induction false} ProgressiveUnlimited(responses: seq<SearchResponse>)
    ensures Progressive(0, responses) == MergedTop(0, AllHits(responses))
  {
    hide BestFrom, RankedValues;
    if responses == [] {
      assert MergedTop(0, []) == [] by { NoHits(); }
    } else {
      var front, last := responses[..|responses| - 1], responses[|responses| - 1];
      ProgressiveUnlimited(front);
      var sofar := AllHits(front);
      BestIsKeyed(map[], sofar);
      RankedValuesRank(Best(sofar));
      BestOfDistinct(RankedValues(Best(sofar)), Best(sofar));
      BestConcat(map[], RankedValues(Best(sofar)), last.hits);
      BestConcat(map[], sofar, last.hits);
    }
  }

  lemma NoHits()
    ensures RankedValues(Best([])) == []
  {
  }

  // ---- with pairwise distinct aircraft ----

  lemma DistinctPrefix(a: seq<SearchHit>, b: seq<SearchHit>)
    requires DistinctIds(a + b)
    ensures DistinctIds(a) && DistinctIds(b)
  {
    assert forall i :: 0 <= i < |a| ==> a[i] == (a + b)[i];
    assert forall i :: 0 <= i < |b| ==> b[i] == (a + b)[|a| + i];
  }

  /** Without duplicates dedup is a no-op and the merge is a plain ranking. */
  lemma MergedTopOfDistinct(limit: nat, hits: seq<SearchHit>)
    requires DistinctIds(hits)
    ensures MergedTop(limit, hits) == Limit(limit, Rank(hits))
  {
    hide BestFrom, RankedValues, Rank;
    BestIsGreatest(hits);
    BestIsKeyed(map[], hits);
    forall h
      ensures h in hits <==> h.id in Best(hits) && Best(hits)[h.id] == h
    {
      if h in hits {
        var i :| 0 <= i < |hits| && hits[i] == h;
        assert Best(hits)[h.id] in hits;
        var j :| 0 <= j < |hits| && hits[j] == Best(hits)[h.id];
        assert i == j;
      }
    }
    RankOfListing(hits, Best(hits));
  }

  lemma TopStaysDistinct(limit: nat, xs: seq<SearchHit>, more: seq<SearchHit>)
    requires DistinctIds(xs + more)
    ensures DistinctIds(Limit(limit, Rank(xs)) + more)
  {
    hide Rank;
    RankKeeps(xs);
    var sorted := Rank(xs);
    assert multiset(sorted + more) == multiset(xs + more);
    DistinctPermutes(xs + more, sorted + more);
    var top := Limit(limit, sorted);
    var t, u := top + more, sorted + more;
    var gap := |sorted| - |top|;
    forall i, j | 0 <= i < j < |t|
      ensures t[i].id != t[j].id
    {
      assert t[i] == u[if i < |top| then i else i + gap];
      assert t[j] == u[if j < |top| then j else j + gap];
    }
  }

  /** Keeping only the top `limit` as responses arrive gives the one-shot result. */
  lemma {:induction false} ProgressiveDistinct(limit: nat, responses: seq<SearchResponse>)
    requires DistinctIds(AllHits(responses))
    ensures Progressive(limit, responses) == Limit(limit, Rank(AllHits(responses)))
    ensures Progressive(limit, responses) == MergedTop(limit, AllHits(responses))
  {
    hide Rank, MergedTop;
    var all := AllHits(responses);
    MergedTopOfDistinct(limit, all);
    if responses == [] {
      NoRank();
    } else {
      var front, last := responses[..|responses| - 1], responses[|responses| - 1];
      var sofar := AllHits(front);
      DistinctPrefix(sofar, last.hits);
      ProgressiveDistinct(limit, front);
      var top := Limit(limit, Rank(sofar));
      TopStaysDistinct(limit, sofar, last.hits);
      MergedTopOfDistinct(limit, top + last.hits);
      RankSwapped(top, last.hits);
      RankSwapped(sofar, last.hits);
      TopOfTop(limit, last.hits, sofar);
    }
  }

  lemma NoRank()
    ensures Rank<Details>([]) == []
  {
  }

  lemma RankSwapped(a: seq<SearchHit>, b: seq<SearchHit>)
    requires DistinctIds(a + b)
    ensures Rank(a + b) == Rank(b + a)
  {
    assert multiset(a + b) == multiset(b + a);
    RankIgnoresOrder(a + b, b + a);
  }

  /** Any arrival order, incremental or one-shot: the same answer. */
  lemma ArrivalOrderIrrelevant(limit: nat, a: seq<SearchResponse>, b: seq<SearchResponse>)
    requires multiset(a) == multiset(b) && DistinctIds(AllHits(a))
    ensures Progressive(limit, a) == Progressive(limit, b) == MergedTop(limit, AllHits(a)) == MergedTop(limit, AllHits(b))
  {
    hide Rank, MergedTop;
    SameHits(a, b);
    DistinctPermutes(AllHits(a), AllHits(b));
    ProgressiveDistinct(limit, a);
    ProgressiveDistinct(limit, b);
    RankIgnoresOrder(AllHits(a), AllHits(b));
  }

  lemma AllHitsSnoc(front: seq<SearchResponse>, r: SearchResponse)
    ensures AllHits(front + [r]) == AllHits(front) + r.hits
  {
    assert (front + [r])[..|front|] == front;
  }

  lemma {:induction false} HitsWithout(b: seq<SearchResponse>, i: nat)
    requires i < |b|
    ensures multiset(AllHits(b)) == multiset(AllHits(b[..i] + b[i + 1..])) + multiset(b[i].hits)
    decreases |b|
  {
    hide AllHits;
    var front, last := b[..|b| - 1], b[|b| - 1];
    assert b == front + [last];
    AllHitsSnoc(front, last);
    if i == |b| - 1 {
      assert b[..i] + b[i + 1..] == front;
    } else {
      HitsWithout(front, i);
      var rest := front[..i] + front[i + 1..];
      assert b[..i] + b[i + 1..] == rest + [last];
      AllHitsSnoc(rest, last);
    }
  }

  lemma {:induction false} SameHits(a: seq<SearchResponse>, b: seq<SearchResponse>)
    requires multiset(a) == multiset(b)
    ensures multiset(AllHits(a)) == multiset(AllHits(b))
    decreases |a|
  {
    hide AllHits;
    SameLength(a, b);
    if a == [] {
      assert b == [];
    } else {
      var front, r := a[..|a| - 1], a[|a| - 1];
      assert a == front + [r];
      AllHitsSnoc(front, r);
      var i := IndexIn(r, b);
      WithoutOne(b, i);
      assert multiset(a) == multiset(front) + multiset{r};
      CancelOne(multiset(front), multiset(b[..i] + b[i + 1..]), r);
      SameHits(front, b[..i] + b[i + 1..]);
      HitsWithout(b, i);
    }
  }

  lemma CancelOne<T>(x: multiset<T>, y: multiset<T>, r: T)
    requires x + multiset{r} == y + multiset{r}
    ensures x == y
  {
    assert x == (x + multiset{r}) - multiset{r};
    assert y == (y + multiset{r}) - multiset{r};
  }

  lemma IndexIn(r: SearchResponse, b: seq<SearchResponse>) returns (i: nat)
    requires r in multiset(b)
    ensures i < |b| && b[i] == r
  {
    i :| 0 <= i < |b| && b[i] == r;
  }

  lemma WithoutOne(b: seq<SearchResponse>, i: nat)
    requires i < |b|
    ensures multiset(b) == multiset(b[..i] + b[i + 1..]) + multiset{b[i]}
  {
    assert b == b[..i] + [b[i]] + b[i + 1..];
  }

  /** The shards' own top lists are enough. */
  function Topped(limit: nat, responses: seq<SearchResponse>): (out: seq<SearchResponse>)
    ensures |out| == |responses|
  {
    seq(|responses|, i requires 0 <= i < |responses| => responses[i].(hits := Limit(limit, Rank(responses[i].hits))))
  }

  /** Merging per-shard top lists equals the top of merging the full lists. */
  lemma {:induction false} ShardTopsSuffice(limit: nat, responses: seq<SearchResponse>)
    requires DistinctIds(AllHits(responses))
    ensures Limit(limit, Rank(AllHits(Topped(limit, responses)))) == Limit(limit, Rank(AllHits(responses)))
    ensures DistinctIds(AllHits(Topped(limit, responses)))
  {
    hide Rank;
    if responses != [] {
      var front, last := responses[..|responses| - 1], responses[|responses| - 1];
      var full, tops := AllHits(front), AllHits(Topped(limit, front));
      assert Topped(limit, responses)[..|front|] == Topped(limit, front);
      DistinctPrefix(full, last.hits);
      ShardTopsSuffice(limit, front);
      var top := Limit(limit, Rank(last.hits));
      // Replace the last shard's list by its top, then the others by theirs.
      TopOfTop(limit, full, last.hits);
      ToppedMembers(limit, front);
      assert DistinctIds(tops + top) by {
        DistinctUnder(limit, responses);
      }
      assert DistinctIds(full + top) by {
        RankSwapped(full, last.hits);
        assert multiset(full + last.hits) == multiset(last.hits + full);
        DistinctPermutes(full + last.hits, last.hits + full);
        TopStaysDistinct(limit, last.hits, full);
        assert multiset(top + full) == multiset(full + top);
        DistinctPermutes(top + full, full + top);
      }
      LimitAbsorbs(limit, top, tops, full);
      RankSwapped(tops, top);
      RankSwapped(full, top);
    }
  }

  lemma {:induction false} ToppedMembers(limit: nat, responses: seq<SearchResponse>)
    ensures forall h :: h in AllHits(Topped(limit, responses)) ==> h in AllHits(responses)
  {
    hide Rank;
    if responses != [] {
      var front, last := responses[..|responses| - 1], responses[|responses| - 1];
      assert Topped(limit, responses)[..|front|] == Topped(limit, front);
      ToppedMembers(limit, front);
      forall h | h in Limit(limit, Rank(last.hits))
        ensures h in last.hits
      {
        RankMember(last.hits, h);
      }
    }
  }

  lemma DistinctUnder(limit: nat, responses: seq<SearchResponse>)
    requires responses != [] && DistinctIds(AllHits(responses))
    requires DistinctIds(AllHits(Topped(limit, responses[..|responses| - 1])))
    ensures DistinctIds(AllHits(Topped(limit, responses[..|responses| - 1])) +
                        Limit(limit, Rank(responses[|responses| - 1].hits)))
  {
    hide Rank;
    var front, last := responses[..|responses| - 1], responses[|responses| - 1];
    var full, tops, top := AllHits(front), AllHits(Topped(limit, front)), Limit(limit, Rank(last.hits));
    ToppedMembers(limit, front);
    DistinctPrefix(full, last.hits);
    assert top + [] == top && last.hits + [] == last.hits;
    TopStaysDistinct(limit, last.hits, []);
    forall i, j | 0 <= i < |tops| && 0 <= j < |top|
      ensures tops[i].id != top[j].id
    {
      assert tops[i] in full;
      RankMember(last.hits, top[j]);
      var a :| 0 <= a < |full| && full[a] == tops[i];
      var b :| 0 <= b < |last.hits| && last.hits[b] == top[j];
      assert (full + last.hits)[a] == tops[i] && (full + last.hits)[|full| + b] == top[j];
    }
  }
}
