/**
 When responses overlap and there is a limit: exactly when the incremental merge still gives
 the one-shot answer after every response.
 */
module Overlaps {
  import opened Prelude
  import opened Ranking
  import opened Fanout

  // ---- positions in a ranking ----

  /** The other ids ranked before a hit. */
  ghost function AheadOf<T(!new)>(m: Table<T>, h: Hit<T>): set<string> {
    set k | k in m && k != h.id && Before(m[k], h)
  }

  ghost function Position<T(!new)>(m: Table<T>, h: Hit<T>): nat {
    |AheadOf(m, h)|
  }

  ghost function Top<T(!new)>(limit: nat, m: Table<T>): seq<Hit<T>> {
    Limit(limit, RankedValues(m))
  }

  function IdsOf<T>(xs: seq<Hit<T>>): set<string> {
    set i | 0 <= i < |xs| :: xs[i].id
  }

  lemma {:induction false} CountIds<T>(xs: seq<Hit<T>>)
    requires DistinctIds(xs)
    ensures |IdsOf(xs)| == |xs|
  {
    if xs != [] {
      var front, last := xs[..|xs| - 1], xs[|xs| - 1];
      CountIds(front);
      assert forall i :: 0 <= i < |front| ==> front[i] == xs[i];
      assert IdsOf(xs) == IdsOf(front) + {last.id};
    }
  }

  /** In a ranking of the table a hit's index is the number of others ranked before it. */
  lemma IndexIsPosition<T(!new)>(xs: seq<Hit<T>>, m: Table<T>, i: nat)
    requires KeyedById(m) && Ranked(xs) && Lists(xs, m) && i < |xs|
    ensures AheadOf(m, xs[i]) == IdsOf(xs[..i]) && Position(m, xs[i]) == i
  {
    hide Before;
    var h, before := xs[i], xs[..i];
    assert forall j :: 0 <= j < i ==> before[j] == xs[j] && xs[j] in xs;
    forall k
      ensures k in AheadOf(m, h) <==> k in IdsOf(before)
    {
      if k in AheadOf(m, h) {
        assert m[k] in xs;
        var j :| 0 <= j < |xs| && xs[j] == m[k];
        BeforeAntisymmetric(xs[j], h);
        assert j < i;
        assert before[j].id == k;
      }
    }
    CountIds(before);
  }

  /** A hit is in the top exactly when fewer than `limit` others rank before it. */
  lemma TopMember<T(!new)>(limit: nat, m: Table<T>, h: Hit<T>)
    requires KeyedById(m) && limit > 0
    ensures h in Top(limit, m) <==> h.id in m && m[h.id] == h && Position(m, h) < limit
  {
    hide RankedValues, Position, Ranked;
    RankedValuesRank(m);
    var xs, top := RankedValues(m), Top(limit, m);
    assert forall i :: 0 <= i < |top| ==> top[i] == xs[i];
    if h in top {
      var i :| 0 <= i < |top| && top[i] == h;
      assert xs[i] in xs;
      IndexIsPosition(xs, m, i);
    }
    if h.id in m && m[h.id] == h && Position(m, h) < limit {
      assert h in xs;
      var i :| 0 <= i < |xs| && xs[i] == h;
      IndexIsPosition(xs, m, i);
      assert top[i] == h;
    }
  }

  lemma TopShape<T(!new)>(limit: nat, m: Table<T>)
    requires KeyedById(m) && limit > 0
    ensures Ranked(Top(limit, m)) && DistinctIds(Top(limit, m))
    ensures |Top(limit, m)| <= limit
    ensures (exists h: Hit<T> :: h.id in m && m[h.id] == h && Position(m, h) >= limit) ==> |Top(limit, m)| == limit
  {
    hide RankedValues, Position, Before;
    RankedValuesRank(m);
    var xs := RankedValues(m);
    if h: Hit<T> :| h.id in m && m[h.id] == h && Position(m, h) >= limit {
      assert h in xs;
      var i :| 0 <= i < |xs| && xs[i] == h;
      IndexIsPosition(xs, m, i);
    }
  }

  lemma SmallerSet(a: set<string>, b: set<string>)
    requires a <= b
    ensures |a| <= |b|
  {
    if a != {} {
      var x :| x in a;
      SmallerSet(a - {x}, b - {x});
    }
  }

  // ---- two tables that differ on some ids ----

  /** The tables agree except on the given ids, which x holds and y does not hold alike. */
  ghost predicate DifferOn<T(!new)>(x: Table<T>, y: Table<T>, ids: set<string>) {
    && KeyedById(x) && KeyedById(y)
    && (forall k :: k !in ids ==> (k in x <==> k in y) && (k in x ==> x[k] == y[k]))
    && (forall k :: k in ids ==> k in x && (k in y ==> y[k] != x[k]))
  }

  /** No hit of a differing id reaches the top of x: neither x's own nor, placed there, y's. */
  ghost predicate StaysOut<T(!new)>(limit: nat, x: Table<T>, y: Table<T>, ids: set<string>) {
    forall k :: k in ids && k in x ==> Position(x, x[k]) >= limit && (k in y ==> Position(x, y[k]) >= limit)
  }

  lemma EqualTopsStayOut<T(!new)>(limit: nat, x: Table<T>, y: Table<T>, ids: set<string>)
    requires limit > 0 && DifferOn(x, y, ids) && Top(limit, x) == Top(limit, y)
    ensures StaysOut(limit, x, y, ids)
  {
    hide RankedValues, Top, Position, Ranked;
    var top := Top(limit, x);
    forall k | k in ids && k in x
      ensures Position(x, x[k]) >= limit && (k in y ==> Position(x, y[k]) >= limit)
    {
      TopMember(limit, x, x[k]);
      TopMember(limit, y, x[k]);
      if k in y {
        TopMember(limit, y, y[k]);
        TopMember(limit, x, y[k]);
        assert Position(y, y[k]) >= limit;
        TopShape(limit, y);
        TopRanksBefore(limit, x, y, k);
      }
    }
  }

  /** When a hit of y is below y's full top, every hit of that top ranks before it in x too. */
  lemma TopRanksBefore<T(!new)>(limit: nat, x: Table<T>, y: Table<T>, k: string)
    requires limit > 0 && KeyedById(x) && KeyedById(y) && Top(limit, x) == Top(limit, y)
    requires k in y && Position(y, y[k]) >= limit
    ensures Position(x, y[k]) >= limit
  {
    hide RankedValues, Ranked, Before;
    var top, xs := Top(limit, y), RankedValues(y);
    RankedValuesRank(y);
    assert y[k] in xs;
    var p :| 0 <= p < |xs| && xs[p] == y[k];
    IndexIsPosition(xs, y, p);
    assert |top| == limit && forall i :: 0 <= i < limit ==> top[i] == xs[i];
    CountIds(top) by { TopShape(limit, y); }
    forall id | id in IdsOf(top)
      ensures id in AheadOf(x, y[k])
    {
      var i :| 0 <= i < |top| && top[i].id == id;
      assert top[i] in top && top[i] in Top(limit, x);
      TopMember(limit, x, top[i]);
      RankedAt(xs, i, p);
    }
    SmallerSet(IdsOf(top), AheadOf(x, y[k]));
  }

  lemma StayingOutKeepsTop<T(!new)>(limit: nat, x: Table<T>, y: Table<T>, ids: set<string>, h: Hit<T>)
    requires limit > 0 && DifferOn(x, y, ids) && StaysOut(limit, x, y, ids) && h in Top(limit, x)
    ensures h in Top(limit, y)
  {
    hide RankedValues, Top, Before;
    TopMember(limit, x, h);
    assert h.id !in ids;
    forall k | k in AheadOf(y, h)
      ensures k in AheadOf(x, h)
    {
      if k in ids {
        forall b | b in AheadOf(x, y[k])
          ensures b in AheadOf(x, h)
        {
          BeforeTransitive(x[b], y[k], h);
          if b == h.id {
            BeforeAntisymmetric(h, y[k]);
          }
        }
        SmallerSet(AheadOf(x, y[k]), AheadOf(x, h));
      }
    }
    SmallerSet(AheadOf(y, h), AheadOf(x, h));
    TopMember(limit, y, h);
  }

  lemma StayingOutMakesTopsEqual<T(!new)>(limit: nat, x: Table<T>, y: Table<T>, ids: set<string>)
    requires limit > 0 && DifferOn(x, y, ids) && StaysOut(limit, x, y, ids)
    ensures Top(limit, x) == Top(limit, y)
  {
    hide RankedValues, Top, Position, Ranked;
    if k :| k in ids {
      TopShape(limit, x);
      TopShape(limit, y);
      var a, b := Top(limit, x), Top(limit, y);
      assert x[k].id == k && Position(x, x[k]) >= limit && |a| == limit;
      forall h | h in a
        ensures h in b
      {
        StayingOutKeepsTop(limit, x, y, ids, h);
      }
      SameListing(a, b);
      SameMembers(a, b);
      RankingIsUnique(a, b);
    } else {
      assert x == y;
    }
  }

  /** A list of distinct ids inside a list no longer than itself has all its members. */
  lemma SameListing<T(!new)>(a: seq<Hit<T>>, b: seq<Hit<T>>)
    requires DistinctIds(a) && DistinctIds(b) && |a| >= |b| && forall h :: h in a ==> h in b
    ensures forall h :: h in b ==> h in a
  {
    CountIds(a);
    CountIds(b);
    forall id | id in IdsOf(a)
      ensures id in IdsOf(b)
    {
      var i :| 0 <= i < |a| && a[i].id == id;
      assert a[i] in b;
    }
    EqualSets(IdsOf(a), IdsOf(b));
    forall h | h in b
      ensures h in a
    {
      var j :| 0 <= j < |b| && b[j] == h;
      assert h.id in IdsOf(a);
      var i :| 0 <= i < |a| && a[i].id == h.id;
      assert a[i] in b;
      var l :| 0 <= l < |b| && b[l] == a[i];
      assert l == j;
    }
  }

  lemma EqualSets(a: set<string>, b: set<string>)
    requires a <= b && |a| >= |b|
    ensures a == b
  {
    if a != b {
      var x :| x in b && x !in a;
      assert b == (b - {x}) + {x};
      SmallerSet(a, b - {x});
    }
  }

  lemma RankedAt<T>(xs: seq<Hit<T>>, i: nat, j: nat)
    requires Ranked(xs) && DistinctIds(xs) && i < j < |xs|
    ensures Before(xs[i], xs[j]) && xs[i].id != xs[j].id
  {
  }

  // ---- one response ----

  /** Offering a response to a table weighs its best hit of an aircraft against the table's. */
  lemma {:induction false} BestFromSplit(m: Table<Details>, hits: seq<SearchHit>, k: string)
    ensures k in BestFrom(m, hits) <==> k in m || k in Best(hits)
    ensures k in BestFrom(m, hits) ==>
              BestFrom(m, hits)[k] ==
              if k in m && !(k in Best(hits) && Supersedes(Best(hits)[k], m[k])) then m[k] else Best(hits)[k]
  {
    if hits != [] {
      BestFromSplit(m, hits[..|hits| - 1], k);
    }
  }

  /** The response's best hit of the aircraft supersedes the one held so far, or is that very hit. */
  ghost predicate Settled(sofar: Table<Details>, hits: seq<SearchHit>, k: string)
    requires k in sofar
  {
    k in Best(hits) && (Supersedes(Best(hits)[k], sofar[k]) || Best(hits)[k] == sofar[k])
  }

  /**
   The condition on one response. Take any aircraft already dropped whose hit the response does
   not settle. In the merge of everything, at least `limit` other aircraft must rank before
   that hit, and before the response's own losing hit of that aircraft.
   */
  ghost predicate KeepsDroppedOut(limit: nat, sofar: Table<Details>, hits: seq<SearchHit>) {
    var all := BestFrom(sofar, hits);
    forall k :: k in sofar && Position(sofar, sofar[k]) >= limit && !Settled(sofar, hits, k) ==>
      Position(all, sofar[k]) >= limit && (k in Best(hits) ==> Position(all, Best(hits)[k]) >= limit)
  }

  ghost function Held(limit: nat, sofar: Table<Details>): Table<Details> {
    map k | k in sofar && Position(sofar, sofar[k]) < limit :: sofar[k]
  }

  lemma BestOfTop(limit: nat, sofar: Table<Details>)
    requires KeyedById(sofar) && limit > 0
    ensures Best(Top(limit, sofar)) == Held(limit, sofar)
  {
    hide BestFrom, Top, Position, Ranked;
    TopShape(limit, sofar);
    forall h
      ensures h in Top(limit, sofar) <==> h.id in Held(limit, sofar) && Held(limit, sofar)[h.id] == h
    {
      TopMember(limit, sofar, h);
    }
    BestOfDistinct(Top(limit, sofar), Held(limit, sofar));
  }

  /** The dropped aircraft the response does not settle. */
  ghost function Unsettled(limit: nat, sofar: Table<Details>, hits: seq<SearchHit>): set<string> {
    set k | k in sofar && Position(sofar, sofar[k]) >= limit && !Settled(sofar, hits, k)
  }

  lemma UnsettledOnly(limit: nat, sofar: Table<Details>, hits: seq<SearchHit>, k: string)
    ensures var x, y := BestFrom(sofar, hits), BestFrom(Held(limit, sofar), hits);
            && (k !in Unsettled(limit, sofar, hits) ==> (k in x <==> k in y) && (k in x ==> x[k] == y[k]))
            && (k in Unsettled(limit, sofar, hits) ==>
                  k in sofar && k in x && x[k] == sofar[k] && (k in y <==> k in Best(hits)) &&
                  (k in y ==> y[k] == Best(hits)[k] && y[k] != x[k]))
  {
    hide BestFrom, Supersedes, Position;
    BestFromSplit(sofar, hits, k);
    BestFromSplit(Held(limit, sofar), hits, k);
  }

  lemma TablesDiffer(limit: nat, sofar: Table<Details>, hits: seq<SearchHit>)
    requires KeyedById(sofar)
    ensures var x, y := BestFrom(sofar, hits), BestFrom(Held(limit, sofar), hits);
            DifferOn(x, y, Unsettled(limit, sofar, hits))
  {
    hide BestFrom, Position, Unsettled;
    BestIsKeyed(sofar, hits);
    BestIsKeyed(Held(limit, sofar), hits);
    forall k
      ensures var x, y := BestFrom(sofar, hits), BestFrom(Held(limit, sofar), hits);
              && (k !in Unsettled(limit, sofar, hits) ==> (k in x <==> k in y) && (k in x ==> x[k] == y[k]))
              && (k in Unsettled(limit, sofar, hits) ==> k in x && (k in y ==> y[k] != x[k]))
    {
      UnsettledOnly(limit, sofar, hits, k);
    }
  }

  lemma StayingOutIsKeepingOut(limit: nat, sofar: Table<Details>, hits: seq<SearchHit>)
    ensures StaysOut(limit, BestFrom(sofar, hits), BestFrom(Held(limit, sofar), hits), Unsettled(limit, sofar, hits))
            <==> KeepsDroppedOut(limit, sofar, hits)
  {
    hide BestFrom, Position, Settled, Held;
    forall k | k in Unsettled(limit, sofar, hits)
      ensures var x, y := BestFrom(sofar, hits), BestFrom(Held(limit, sofar), hits);
              k in x && x[k] == sofar[k] && (k in y <==> k in Best(hits)) && (k in y ==> y[k] == Best(hits)[k])
    {
      UnsettledOnly(limit, sofar, hits, k);
    }
  }

  /** One response: the limited list merges like the full table exactly under the condition. */
  lemma ResponseIsExact(limit: nat, sofar: Table<Details>, hits: seq<SearchHit>)
    requires KeyedById(sofar) && limit > 0
    ensures MergedTop(limit, Top(limit, sofar) + hits) == Top(limit, BestFrom(sofar, hits))
            <==> KeepsDroppedOut(limit, sofar, hits)
  {
    hide BestFrom, RankedValues, Limit, KeepsDroppedOut, StaysOut, DifferOn, Unsettled, Held;
    var x, y := BestFrom(sofar, hits), BestFrom(Held(limit, sofar), hits);
    var ids := Unsettled(limit, sofar, hits);
    BestConcat(map[], Top(limit, sofar), hits);
    BestOfTop(limit, sofar);
    assert MergedTop(limit, Top(limit, sofar) + hits) == Top(limit, y);
    TablesDiffer(limit, sofar, hits);
    StayingOutIsKeepingOut(limit, sofar, hits);
    if StaysOut(limit, x, y, ids) {
      StayingOutMakesTopsEqual(limit, x, y, ids);
    }
    if Top(limit, x) == Top(limit, y) {
      EqualTopsStayOut(limit, x, y, ids);
    }
  }

  // ---- every response ----

  /** The incremental merge has had the one-shot answer after every response. */
  ghost predicate NeverStrays(limit: nat, responses: seq<SearchResponse>) {
    forall i :: 0 <= i <= |responses| ==> Progressive(limit, responses[..i]) == MergedTop(limit, AllHits(responses[..i]))
  }

  ghost predicate AlwaysKeepsOut(limit: nat, responses: seq<SearchResponse>) {
    forall i :: 0 <= i < |responses| ==> KeepsDroppedOut(limit, Best(AllHits(responses[..i])), responses[i].hits)
  }

  lemma ResponseStep(limit: nat, responses: seq<SearchResponse>, i: nat)
    requires limit > 0 && i < |responses|
    requires Progressive(limit, responses[..i]) == MergedTop(limit, AllHits(responses[..i]))
    ensures Progressive(limit, responses[..i + 1]) == MergedTop(limit, AllHits(responses[..i + 1])) <==>
            KeepsDroppedOut(limit, Best(AllHits(responses[..i])), responses[i].hits)
  {
    hide BestFrom, RankedValues, Limit, KeepsDroppedOut;
    assert responses[..i + 1][..i] == responses[..i];
    var sofar := AllHits(responses[..i]);
    BestIsKeyed(map[], sofar);
    BestConcat(map[], sofar, responses[i].hits);
    ResponseIsExact(limit, Best(sofar), responses[i].hits);
  }

  /** The exact condition, for one positive limit and any responses. */
  lemma {:induction false} ProgressiveIsExact(limit: nat, responses: seq<SearchResponse>)
    requires limit > 0
    ensures NeverStrays(limit, responses) <==> AlwaysKeepsOut(limit, responses)
    decreases |responses|
  {
    hide Progressive, MergedTop, KeepsDroppedOut;
    if responses == [] {
      NothingYet(limit);
    } else {
      hide NeverStrays, AlwaysKeepsOut;
      var front, last := responses[..|responses| - 1], |responses| - 1;
      ProgressiveIsExact(limit, front);
      NeverStraysSnoc(limit, responses);
      AlwaysKeepsOutSnoc(limit, responses);
      assert responses[..last + 1] == responses;
      if NeverStrays(limit, front) {
        ResponseStep(limit, responses, last);
      }
    }
  }

  lemma NeverStraysSnoc(limit: nat, responses: seq<SearchResponse>)
    requires responses != []
    ensures var front := responses[..|responses| - 1];
            NeverStrays(limit, responses) <==>
            (NeverStrays(limit, front) && Progressive(limit, responses) == MergedTop(limit, AllHits(responses)))
    ensures var front := responses[..|responses| - 1];
            NeverStrays(limit, front) ==> Progressive(limit, front) == MergedTop(limit, AllHits(front))
  {
    hide Progressive, MergedTop, AllHits;
    var front := responses[..|responses| - 1];
    assert front[..|front|] == front && responses[..|responses|] == responses;
    forall i | 0 <= i < |responses|
      ensures front[..i] == responses[..i]
    {
    }
  }

  lemma AlwaysKeepsOutSnoc(limit: nat, responses: seq<SearchResponse>)
    requires responses != []
    ensures var front, last := responses[..|responses| - 1], responses[|responses| - 1];
            AlwaysKeepsOut(limit, responses) <==>
            (AlwaysKeepsOut(limit, front) && KeepsDroppedOut(limit, Best(AllHits(front)), last.hits))
  {
    hide KeepsDroppedOut, BestFrom, AllHits;
    var front := responses[..|responses| - 1];
    forall i | 0 <= i < |front|
      ensures front[..i] == responses[..i] && front[i] == responses[i]
    {
    }
  }

  lemma NothingYet(limit: nat)
    ensures NeverStrays(limit, [])
  {
    hide BestFrom, RankedValues;
    NoHits();
  }

  /**
   The same condition without a limit: of each aircraft the response does not settle, neither
   the hit held so far nor the response's losing one may rank behind fewer others, in the
   merge of everything, than the held hit did before.
   */
  ghost predicate NoneRises(sofar: Table<Details>, hits: seq<SearchHit>) {
    var all := BestFrom(sofar, hits);
    forall k :: k in sofar && !Settled(sofar, hits, k) ==>
      Position(all, sofar[k]) >= Position(sofar, sofar[k]) &&
      (k in Best(hits) ==> Position(all, Best(hits)[k]) >= Position(sofar, sofar[k]))
  }

  lemma NoneRisesIsEveryLimit(sofar: Table<Details>, hits: seq<SearchHit>)
    ensures NoneRises(sofar, hits) <==> forall limit: nat :: limit > 0 ==> KeepsDroppedOut(limit, sofar, hits)
  {
    hide BestFrom, Position, Settled;
    if forall limit: nat :: limit > 0 ==> KeepsDroppedOut(limit, sofar, hits) {
      forall k | k in sofar && !Settled(sofar, hits, k)
        ensures Position(BestFrom(sofar, hits), sofar[k]) >= Position(sofar, sofar[k])
        ensures k in Best(hits) ==> Position(BestFrom(sofar, hits), Best(hits)[k]) >= Position(sofar, sofar[k])
      {
        var limit := Position(sofar, sofar[k]);
        assert limit > 0 ==> KeepsDroppedOut(limit, sofar, hits);
      }
    }
  }

  ghost predicate NoneEverRises(responses: seq<SearchResponse>) {
    forall i :: 0 <= i < |responses| ==> NoneRises(Best(AllHits(responses[..i])), responses[i].hits)
  }

  /** Over every limit and after every response, the merges agree exactly when no response
      lets an aircraft it does not settle rise. */
  lemma EveryLimitIsExact(responses: seq<SearchResponse>)
    ensures (forall limit: nat :: limit > 0 ==> NeverStrays(limit, responses)) <==> NoneEverRises(responses)
  {
    hide NoneEverRises, NeverStrays, AlwaysKeepsOut;
    forall limit: nat | limit > 0
      ensures NeverStrays(limit, responses) <==> AlwaysKeepsOut(limit, responses)
    {
      ProgressiveIsExact(limit, responses);
    }
    if NoneEverRises(responses) {
      forall limit: nat | limit > 0
        ensures AlwaysKeepsOut(limit, responses)
      {
        NoneRisingKeepsOut(limit, responses);
      }
    }
    if forall limit: nat :: limit > 0 ==> NeverStrays(limit, responses) {
      KeepingOutMeansNoneRising(responses);
    }
  }

  lemma NoneRisingKeepsOut(limit: nat, responses: seq<SearchResponse>)
    requires limit > 0 && NoneEverRises(responses)
    ensures AlwaysKeepsOut(limit, responses)
  {
    hide NoneRises, KeepsDroppedOut, BestFrom;
    forall i | 0 <= i < |responses|
      ensures KeepsDroppedOut(limit, Best(AllHits(responses[..i])), responses[i].hits)
    {
      NoneRisesIsEveryLimit(Best(AllHits(responses[..i])), responses[i].hits);
    }
  }

  lemma KeepingOutMeansNoneRising(responses: seq<SearchResponse>)
    requires forall limit: nat :: limit > 0 ==> AlwaysKeepsOut(limit, responses)
    ensures NoneEverRises(responses)
  {
    hide NoneRises, KeepsDroppedOut, BestFrom;
    forall i | 0 <= i < |responses|
      ensures NoneRises(Best(AllHits(responses[..i])), responses[i].hits)
    {
      forall limit: nat | limit > 0
        ensures KeepsDroppedOut(limit, Best(AllHits(responses[..i])), responses[i].hits)
      {
        assert AlwaysKeepsOut(limit, responses);
      }
      NoneRisesIsEveryLimit(Best(AllHits(responses[..i])), responses[i].hits);
    }
  }

  // ---- distinct aircraft are a special case ----

  lemma FreshAircraftNeverRise(sofar: Table<Details>, hits: seq<SearchHit>)
    requires forall k :: k in sofar ==> k !in Best(hits)
    ensures NoneRises(sofar, hits)
  {
    hide BestFrom, Before;
    var all := BestFrom(sofar, hits);
    forall k | k in sofar
      ensures Position(all, sofar[k]) >= Position(sofar, sofar[k])
    {
      forall b | b in AheadOf(sofar, sofar[k])
        ensures b in AheadOf(all, sofar[k])
      {
        BestFromSplit(sofar, hits, b);
      }
      SmallerSet(AheadOf(sofar, sofar[k]), AheadOf(all, sofar[k]));
    }
  }

  lemma DistinctAcross(a: seq<SearchHit>, b: seq<SearchHit>, x: SearchHit, y: SearchHit)
    requires DistinctIds(a + b) && x in a && y in b
    ensures x.id != y.id
  {
    var i :| 0 <= i < |a| && a[i] == x;
    var j :| 0 <= j < |b| && b[j] == y;
    assert (a + b)[i] == x && (a + b)[|a| + j] == y;
  }

  lemma NothingShared(a: seq<SearchHit>, b: seq<SearchHit>)
    requires DistinctIds(a + b)
    ensures forall k :: k in Best(a) ==> k !in Best(b)
  {
    hide BestFrom, Supersedes, DistinctIds;
    BestIsGreatest(a);
    BestIsGreatest(b);
    forall k | k in Best(a) && k in Best(b)
      ensures false
    {
      DistinctAcross(a, b, Best(a)[k], Best(b)[k]);
    }
  }

  /** Pairwise distinct aircraft meet the condition at every response, for every limit. */
  lemma {:induction false} DistinctNeverRises(responses: seq<SearchResponse>)
    requires DistinctIds(AllHits(responses))
    ensures NoneEverRises(responses)
    decreases |responses|
  {
    hide NoneRises, BestFrom;
    if responses != [] {
      var front, last := responses[..|responses| - 1], |responses| - 1;
      var sofar, hits := AllHits(front), responses[last].hits;
      DistinctPrefix(sofar, hits);
      DistinctNeverRises(front);
      assert forall i :: 0 <= i < last ==> front[..i] == responses[..i] && front[i] == responses[i];
      NothingShared(sofar, hits);
      FreshAircraftNeverRise(Best(sofar), hits);
    }
  }

  // ---- two overlapping responses that do rise ----


  lemma OneShotOf(x: SearchHit, y: SearchHit, z: SearchHit)
    requires x.id != y.id && z.id == x.id && Supersedes(z, x) && y.score > z.score
    ensures MergedTop(1, [x, y, z]) == [y]
  {
    hide BestFrom, RankedValues, Supersedes;
    BestOfOne(x);
    BestSnoc([x], y);
    BestSnoc([x, y], z);
    assert [x] + [y] == [x, y] && [x, y] + [z] == [x, y, z];
    var m := Best([x, y, z]);
    assert m == map[y.id := y, z.id := z];
    TwoRanked(y, z, m);
  }

  lemma TopOfTwo(x: SearchHit, y: SearchHit)
    requires x.id != y.id && x.score > y.score
    ensures MergedTop(1, [x, y]) == [x]
  {
    hide BestFrom, RankedValues;
    BestOfOne(x);
    BestSnoc([x], y);
    assert [x] + [y] == [x, y];
    TwoRanked(x, y, Best([x, y]));
  }

  lemma Replaced(x: SearchHit, z: SearchHit)
    requires z.id == x.id && Supersedes(z, x)
    ensures MergedTop(1, [x, z]) == [z]
  {
    hide BestFrom, RankedValues, Rank;
    BestOfOne(x);
    BestSnoc([x], z);
    assert [x] + [z] == [x, z];
    var m := Best([x, z]);
    assert m == map[z.id := z] && Lists([z], m);
    RankOfListing([z], m);
    RankOfRanked([z]);
  }

  /** A hit dropped early can deserve to come back: the stale high score that displaced it
      may itself be superseded by a newer, lower one. */
  lemma OverlapsBreakTheLimit()
    ensures exists r1: SearchResponse, r2: SearchResponse ::
              Progressive(1, [r1, r2]) != MergedTop(1, AllHits([r1, r2]))
  {
    hide MergedTop, StrLt;
    var stale := Hit("a", 9.0, Details(100, None));
    var other := Hit("b", 5.0, Details(100, None));
    var newer := Hit("a", 2.0, Details(200, None));
    assert Supersedes(newer, stale) && other.id != stale.id;
    var r1, r2 := SearchResponse([stale, other], 2), SearchResponse([newer], 1);
    OneShotOf(stale, other, newer);
    TopOfTwo(stale, other);
    Replaced(stale, newer);
    TwoResponses(r1, r2);
    assert r1.hits + r2.hits == [stale, other, newer] && [stale] + r2.hits == [stale, newer];
  }

  lemma TwoResponses(r1: SearchResponse, r2: SearchResponse)
    ensures AllHits([r1, r2]) == r1.hits + r2.hits
    ensures Progressive(1, [r1, r2]) == MergedTop(1, MergedTop(1, r1.hits) + r2.hits)
  {
    hide MergedTop;
    assert [r1, r2][..1] == [r1] && [r1][..0] == [];
    assert [] + r1.hits == r1.hits;
    assert AllHits([r1]) == r1.hits && Progressive(1, [r1]) == MergedTop(1, r1.hits) by {
      assert AllHits([]) == [] && Progressive(1, []) == [];
    }
  }

  lemma BestOfOne(h: SearchHit)
    ensures Best([h]) == map[h.id := h]
  {
    assert [] + [h] == [h];
    BestSnoc([], h);
  }

  lemma TwoRanked(x: SearchHit, y: SearchHit, m: Table<Details>)
    requires x.score > y.score && x.id != y.id && m == map[x.id := x, y.id := y]
    ensures RankedValues(m) == [x, y]
  {
    var out := [x, y];
    assert Lists(out, m);
    RankOfListing(out, m);
    assert Ranked(out);
    RankOfRanked(out);
  }
}
