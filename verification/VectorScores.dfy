/**
 What vector hits mean: every score is the sum of the coordinate products, nothing better is
 left out, and a document's own vector finds it with the highest score there is.
 */
module VectorScores {
  import opened Prelude
  import opened Ranking
  import opened Documents
  import opened KeywordSpec
  import opened Quantize
  import opened VectorIndices
  import opened Embeddings

  /** The sum of coordinate products with a document's vector. */
  function Product(e: Embedder, query: seq<real>, d: FlightDocument): real {
    var v := e.embed(EmbeddableText(d));
    DotBelow(query, v, if |query| < |v| then |query| else |v|)
  }

  /**
   The best k among some documents: each with its own product as score, in descending order,
   as many as there are up to k, and none left out with a greater product.
   */
  ghost predicate BestOf(e: Embedder, m: Corpus, among: set<string>, query: seq<real>, k: nat, hits: seq<Hit<FlightDocument>>) {
    && (forall i :: 0 <= i < |hits| ==>
          hits[i].id in m && hits[i].id in among && hits[i].item == m[hits[i].id] && hits[i].score == Product(e, query, hits[i].item))
    && (forall i, j :: 0 <= i < j < |hits| ==> hits[i].score >= hits[j].score && hits[i].id != hits[j].id)
    && (forall id, i :: 0 <= i < |hits| && id in m && id in among && (forall j :: 0 <= j < |hits| ==> hits[j].id != id) ==>
          Product(e, query, m[id]) <= hits[i].score)
    && (|hits| < k ==> forall id :: id in m && id in among ==> exists j :: 0 <= j < |hits| && hits[j].id == id)
    && |hits| <= k
  }

  lemma RankedByScore<T>(all: seq<Hit<T>>)
    requires Ranked(all)
    ensures forall i, j :: 0 <= i < j < |all| ==> all[i].score >= all[j].score
  {
    hide StrLt;
  }

  /** Every listed hit has its document and product, and every document is listed. */
  ghost predicate ListsAll(e: Embedder, m: Corpus, among: set<string>, query: seq<real>, all: seq<Hit<FlightDocument>>) {
    && (forall i :: 0 <= i < |all| ==>
          all[i].id in m && all[i].id in among && all[i].item == m[all[i].id] && all[i].score == Product(e, query, all[i].item))
    && (forall id :: id in m && id in among ==> exists j :: 0 <= j < |all| && all[j].id == id)
    && (forall i, j :: 0 <= i < j < |all| ==> all[i].score >= all[j].score && all[i].id != all[j].id)
  }

  lemma RankedLists(e: Embedder, m: Corpus, among: set<string>, query: seq<real>)
    ensures ListsAll(e, m, among, query, RankedValues(Scored(e, m, query, among)))
  {
    hide RankedValues, DotBelow, EmbeddableText, Ranked;
    var table := Scored(e, m, query, among);
    var all := RankedValues(table);
    ScoredIsKeyed(e, m, query, among);
    RankedValuesRank(table);
    RankedByScore(all);
    forall i | 0 <= i < |all|
      ensures all[i].id in table && all[i] == table[all[i].id] && all[i].score == Product(e, query, all[i].item)
    {
      assert all[i] in all;
    }
    forall id | id in m && id in among
      ensures exists j :: 0 <= j < |all| && all[j].id == id
    {
      assert table[id] in all;
    }
  }

  lemma TakenIsBest(e: Embedder, m: Corpus, among: set<string>, query: seq<real>, k: nat)
    ensures BestOf(e, m, among, query, k, Take(k, RankedValues(Scored(e, m, query, among))))
  {
    hide RankedValues, Product, Scored;
    RankedLists(e, m, among, query);
    var all := RankedValues(Scored(e, m, query, among));
    var hits := Take(k, all);
    assert |hits| < |all| ==> |hits| == k;
    forall id, i | 0 <= i < |hits| && id in m && id in among && forall j :: 0 <= j < |hits| ==> hits[j].id != id
      ensures Product(e, query, m[id]) <= hits[i].score
    {
      var j :| 0 <= j < |all| && all[j].id == id;
      assert j >= |hits|;
      assert all[i].score >= all[j].score && all[j].item == m[id];
    }
  }

  /** Exact search, on the hits themselves. */
  lemma FlatIsBest(e: Embedder, m: Corpus, query: seq<real>, k: nat)
    ensures BestOf(e, m, m.Keys, query, k, FlatTop(e, m, query, k))
  {
    TakenIsBest(e, m, m.Keys, query, k);
  }

  /**
   The quantized search, on the hits themselves: the best among candidates none of which
   differs from the query in more signs than a document left out.
   */
  lemma QuantizedIsBest(e: Embedder, m: Corpus, among: set<string>, query: seq<real>, k: nat)
    requires HammingMinimal(e, m, query, among) && forall text :: |e.embed(text)| == |query|
    ensures BestOf(e, m, among, query, k, Take(k, RankedValues(Scored(e, m, query, among))))
    ensures forall a, b :: a in among && b in m && b !in among ==>
              a in m && SignsDiffer(query, e.embed(EmbeddableText(m[a])), 0, |query|) <=
                        SignsDiffer(query, e.embed(EmbeddableText(m[b])), 0, |query|)
  {
    hide RankedValues, Scored, BestOf, Hamming, Quantized, SignsDiffer, EmbeddableText;
    TakenIsBest(e, m, among, query, k);
    forall id | id in m
      ensures Distance(e, query, m[id]) == SignsDiffer(query, e.embed(EmbeddableText(m[id])), 0, |query|)
    {
      HammingCountsSigns(query, e.embed(EmbeddableText(m[id])));
    }
  }

  /** A query along one axis reads that coordinate off the document's vector. */
  lemma AxisReadsCoordinate(e: Embedder, dim: nat, i: nat, d: FlightDocument)
    requires i < dim && |e.embed(EmbeddableText(d))| == dim
    ensures Product(e, Coordinate(dim, i), d) == e.embed(EmbeddableText(d))[i]
  {
    hide EmbeddableText, DotBelow;
    CoordinateBelow(dim, i, e.embed(EmbeddableText(d)), dim);
  }

  // ---- a document's own vector ----

  lemma {:induction false} ProductsUnderSquares(a: seq<real>, b: seq<real>, n: nat)
    requires n <= |a| && n <= |b|
    ensures 2.0 * DotBelow(a, b, n) <= DotBelow(a, a, n) + DotBelow(b, b, n)
  {
    if n > 0 {
      ProductsUnderSquares(a, b, n - 1);
      var x, y := a[n - 1], b[n - 1];
      var square := (x - y) * (x - y);
      SquareIsPositive(x - y, square);
      assert square == x * x - 2.0 * (x * y) + y * y;
    }
  }

  lemma {:induction false} ZeroProducts(a: seq<real>, b: seq<real>, n: nat)
    requires n <= |a| && n <= |b| && forall i :: 0 <= i < n ==> b[i] == 0.0
    ensures DotBelow(a, b, n) == 0.0
  {
    if n > 0 {
      ZeroProducts(a, b, n - 1);
    }
  }

  /**
   With an embedder that keeps the contract, the nonzero vector of a live document as the query
   gives that document score one and no document more.
   */
  lemma OwnVectorScoresOne(e: Embedder, dim: nat, d: FlightDocument, other: FlightDocument)
    requires KeepsContract(e, dim) && e.embed(EmbeddableText(d)) != Zeros(dim)
    ensures Product(e, e.embed(EmbeddableText(d)), d) == 1.0
    ensures Product(e, e.embed(EmbeddableText(d)), other) <= 1.0
  {
    hide EmbeddableText, DotBelow;
    var v, w := e.embed(EmbeddableText(d)), e.embed(EmbeddableText(other));
    assert |v| == dim == |w| && Dot(v, v) == 1.0;
    if w == Zeros(dim) {
      ZeroProducts(v, w, dim);
    } else {
      assert Dot(w, w) == 1.0;
      ProductsUnderSquares(v, w, dim);
    }
  }

  /** So the document is among the best k unless k others score one as well. */
  lemma OwnVectorFindsIt(e: Embedder, dim: nat, m: Corpus, id: string, k: nat)
    requires KeepsContract(e, dim) && id in m && e.embed(EmbeddableText(m[id])) != Zeros(dim)
    ensures var hits := FlatTop(e, m, e.embed(EmbeddableText(m[id])), k);
            && (forall h :: h in hits ==> h.score <= 1.0)
            && ((exists i :: 0 <= i < |hits| && hits[i].id == id && hits[i].score == 1.0) ||
                (|hits| == k && forall i :: 0 <= i < |hits| ==> hits[i].score == 1.0))
  {
    hide EmbeddableText, FlatTop, Product, KeepsContract;
    var query := e.embed(EmbeddableText(m[id]));
    var hits := FlatTop(e, m, query, k);
    FlatIsBest(e, m, query, k);
    OwnVectorScoresOne(e, dim, m[id], m[id]);
    forall i | 0 <= i < |hits|
      ensures hits[i].score <= 1.0
    {
      OwnVectorScoresOne(e, dim, m[id], hits[i].item);
    }
    if i :| 0 <= i < |hits| && hits[i].id == id {
      assert hits[i].item == m[id];
    }
  }

  // ---- headroom of the approximate search ----

  /** The positions whose slot is tombstoned or was named before. */
  function Wasted(neighbours: seq<(nat, real)>, dead: set<nat>): set<nat> {
    set i: nat | i < |neighbours| && IsWasted(neighbours, dead, i)
  }

  predicate IsWasted(neighbours: seq<(nat, real)>, dead: set<nat>, i: nat)
    requires i < |neighbours|
  {
    neighbours[i].0 in dead || exists j :: 0 <= j < i && neighbours[j].0 == neighbours[i].0
  }

  lemma {:induction false} WalkWastes(neighbours: seq<(nat, real)>, dead: set<nat>)
    ensures |FirstLive(neighbours, dead)| + |Wasted(neighbours, dead)| == |neighbours|
  {
    hide FirstLive, Wasted;
    if neighbours == [] {
      NothingWasted(dead);
    }
    if neighbours != [] {
      var n := |neighbours| - 1;
      WalkWastes(neighbours[..n], dead);
      WastedSnoc(neighbours, dead, n);
      WalkStep(neighbours, dead, n);
      assert neighbours[..n + 1] == neighbours;
    }
  }

  lemma NothingWasted(dead: set<nat>)
    ensures FirstLive([], dead) == [] && Wasted([], dead) == {}
  {
  }

  lemma WastedSnoc(neighbours: seq<(nat, real)>, dead: set<nat>, n: nat)
    requires n + 1 == |neighbours|
    ensures Wasted(neighbours, dead) == Wasted(neighbours[..n], dead) + if IsWasted(neighbours, dead, n) then {n} else {}
    ensures n !in Wasted(neighbours[..n], dead)
  {
    var front := neighbours[..n];
    forall i: nat | i < n
      ensures IsWasted(front, dead, i) <==> IsWasted(neighbours, dead, i)
    {
      assert forall j :: 0 <= j < i ==> front[j] == neighbours[j];
    }
  }

  /**
   The graph is asked for enough: when it names as many neighbours as it was asked for and wastes
   no more of them than k and 32, the walk still finds k, as long as the graph has that many.
   */
  lemma HeadroomSuffices(neighbours: seq<(nat, real)>, dead: set<nat>, k: nat, total: nat)
    requires |neighbours| == Fetch(k, total)
    requires |Wasted(neighbours, dead)| <= Min(k, 32) && k + |Wasted(neighbours, dead)| <= total
    ensures |Take(k, FirstLive(neighbours, dead))| == k
  {
    hide FirstLive, Wasted;
    WalkWastes(neighbours, dead);
  }
}
