/**
 What the keyword index must agree with: a plain map from icao24 to document, searched by a
 direct scan. Scores are BM25 over the reals; `ln` and the parameters are given.
 */
module KeywordSpec {
  import opened Prelude
  import opened Ranking
  import opened Documents

  type Corpus = map<string, FlightDocument>

  datatype Bm25 = Bm25(k1: real, b: real, ln: real -> real)
  {
    predicate Valid() {
      k1 >= 0.0 && 0.0 <= b <= 1.0
    }
  }

  ghost predicate Keyed(m: Corpus) {
    forall k :: k in m ==> m[k].icao24 == k
  }

  // ---- corpus statistics ----

  /** The documents containing a term. */
  function Containing(tok: Tokenizer, m: Corpus, t: string): set<string> {
    set k | k in m && t in Tokens(tok, m[k])
  }

  ghost function TotalLen(tok: Tokenizer, m: Corpus): nat {
    if m == map[] then 0 else var k :| k in m; |Tokens(tok, m[k])| + TotalLen(tok, m - {k})
  }

  lemma {:induction false} TotalLenAny(tok: Tokenizer, m: Corpus, k: string)
    requires k in m
    ensures TotalLen(tok, m) == |Tokens(tok, m[k])| + TotalLen(tok, m - {k})
    decreases m
  {
    hide Tokens;
    var c :| c in m && TotalLen(tok, m) == |Tokens(tok, m[c])| + TotalLen(tok, m - {c});
    if c != k {
      TotalLenAny(tok, m - {c}, k);
      TotalLenAny(tok, m - {k}, c);
      assert (m - {c}) - {k} == (m - {k}) - {c};
    }
  }

  // ---- scoring ----

  /** Average document length, at least one. */
  function AvgLen(total: nat, n: nat): (a: real)
    ensures a >= 1.0
  {
    if n == 0 then 1.0 else if total as real / n as real < 1.0 then 1.0 else total as real / n as real
  }

  function Idf(p: Bm25, n: nat, df: nat): real {
    p.ln(1.0 + (n as real - df as real + 0.5) / (df as real + 0.5))
  }

  /** The stored frequency and length keep the denominator positive. */
  lemma DenominatorIsPositive(p: Bm25, tf: nat, dl: nat, avg: real)
    requires p.Valid() && tf > 0 && avg >= 1.0
    ensures tf as real + p.k1 * (1.0 - p.b + p.b * dl as real / avg) > 0.0
  {
    var share := p.b * dl as real / avg;
    assert share >= 0.0 by {
      ProductNonNegative(p.b, dl as real);
      QuotientNonNegative(p.b * dl as real, avg);
    }
    ProductNonNegative(p.k1, 1.0 - p.b + share);
  }

  lemma ProductNonNegative(a: real, b: real)
    requires a >= 0.0 && b >= 0.0
    ensures a * b >= 0.0
  {
  }

  lemma QuotientNonNegative(a: real, b: real)
    requires a >= 0.0 && b > 0.0
    ensures a / b >= 0.0
  {
  }

  function Norm(p: Bm25, tf: nat, dl: nat, avg: real): real
    requires p.Valid() && tf > 0 && avg >= 1.0
  {
    DenominatorIsPositive(p, tf, dl, avg);
    tf as real * (p.k1 + 1.0) / (tf as real + p.k1 * (1.0 - p.b + p.b * dl as real / avg))
  }

  /** What one query term adds to the score of a document that contains it. */
  ghost function Weight(tok: Tokenizer, p: Bm25, m: Corpus, t: string, d: FlightDocument): real
    requires p.Valid() && t in Tokens(tok, d)
  {
    var ms := Tokens(tok, d);
    Idf(p, |m|, |Containing(tok, m, t)|) * Norm(p, ms[t], |ms|, AvgLen(TotalLen(tok, m), |m|))
  }

  /** Query terms, each once, in order of first appearance. */
  function Distinct(ts: seq<string>): seq<string> {
    if ts == [] then []
    else
      var front := Distinct(ts[..|ts| - 1]);
      if ts[|ts| - 1] in ts[..|ts| - 1] then front else front + [ts[|ts| - 1]]
  }

  ghost function ScoreOver(tok: Tokenizer, p: Bm25, m: Corpus, ts: seq<string>, d: FlightDocument): real
    requires p.Valid()
  {
    if ts == [] then 0.0
    else
      var t := ts[|ts| - 1];
      ScoreOver(tok, p, m, ts[..|ts| - 1], d) +
      if t in Tokens(tok, d) then Weight(tok, p, m, t, d) else 0.0
  }

  predicate Matches(tok: Tokenizer, ts: seq<string>, d: FlightDocument) {
    exists t :: t in ts && t in Tokens(tok, d)
  }

  // ---- the direct scan ----

  /** Every matching document with its score. */
  ghost function Scan(tok: Tokenizer, p: Bm25, m: Corpus, ts: seq<string>): Table<FlightDocument>
    requires p.Valid()
  {
    map k | k in m && Matches(tok, ts, m[k]) :: Hit(k, ScoreOver(tok, p, m, Distinct(ts), m[k]), m[k])
  }

  ghost function SearchHits(tok: Tokenizer, p: Bm25, m: Corpus, query: string, limit: nat): seq<Hit<FlightDocument>>
    requires p.Valid()
  {
    Limit(limit, RankedValues(Scan(tok, p, m, tok(query))))
  }

  lemma {:induction false} DistinctMembers(ts: seq<string>)
    ensures forall t :: t in Distinct(ts) <==> t in ts
  {
    if ts != [] {
      DistinctMembers(ts[..|ts| - 1]);
      assert ts == ts[..|ts| - 1] + [ts[|ts| - 1]];
    }
  }

  lemma {:induction false} DistinctIsDistinct(ts: seq<string>)
    ensures NoDuplicates(Distinct(ts))
  {
    if ts != [] {
      DistinctIsDistinct(ts[..|ts| - 1]);
      DistinctMembers(ts[..|ts| - 1]);
    }
  }

  /** What one term adds to a document's score. */
  ghost function Share(tok: Tokenizer, p: Bm25, m: Corpus, t: string, d: FlightDocument): real
    requires p.Valid()
  {
    if t in Tokens(tok, d) then Weight(tok, p, m, t, d) else 0.0
  }

  lemma ScoreOfSnoc(tok: Tokenizer, p: Bm25, m: Corpus, front: seq<string>, t: string, d: FlightDocument)
    requires p.Valid()
    ensures ScoreOver(tok, p, m, front + [t], d) == ScoreOver(tok, p, m, front, d) + Share(tok, p, m, t, d)
  {
    hide Tokens, Weight;
    assert (front + [t])[..|front|] == front;
  }

  lemma {:induction false} ScoreWithout(tok: Tokenizer, p: Bm25, m: Corpus, ts: seq<string>, i: nat, d: FlightDocument)
    requires p.Valid() && i < |ts|
    ensures ScoreOver(tok, p, m, ts, d) ==
            ScoreOver(tok, p, m, ts[..i] + ts[i + 1..], d) + Share(tok, p, m, ts[i], d)
    decreases |ts|
  {
    hide ScoreOver, Share;
    var front, last := ts[..|ts| - 1], ts[|ts| - 1];
    assert ts == front + [last];
    ScoreOfSnoc(tok, p, m, front, last, d);
    if i == |front| {
      assert ts[..i] + ts[i + 1..] == front;
    } else {
      ScoreWithout(tok, p, m, front, i, d);
      var rest := front[..i] + front[i + 1..];
      ScoreOfSnoc(tok, p, m, rest, last, d);
      assert ts[..i] + ts[i + 1..] == rest + [last];
    }
  }

  /** The order in which distinct terms are scored does not matter. */
  lemma {:induction false} ScoreIgnoresOrder(tok: Tokenizer, p: Bm25, m: Corpus, xs: seq<string>, ys: seq<string>,
                                             d: FlightDocument)
    requires p.Valid() && NoDuplicates(xs) && NoDuplicates(ys) && forall t :: t in xs <==> t in ys
    ensures ScoreOver(tok, p, m, xs, d) == ScoreOver(tok, p, m, ys, d)
    decreases |xs|
  {
    hide ScoreOver, Share;
    if ys != [] {
      assert ys[0] in ys;
    }
    if xs != [] {
      var front, last := xs[..|xs| - 1], xs[|xs| - 1];
      assert xs == front + [last];
      ScoreOfSnoc(tok, p, m, front, last, d);
      assert last in xs && last in ys;
      var i :| 0 <= i < |ys| && ys[i] == last;
      ScoreWithout(tok, p, m, ys, i, d);
      var rest := ys[..i] + ys[i + 1..];
      WithoutMember(ys, i);
      assert forall t :: t in front <==> t in xs && t != last;
      ScoreIgnoresOrder(tok, p, m, front, rest, d);
    }
  }

  lemma WithoutMember(ys: seq<string>, i: nat)
    requires i < |ys| && NoDuplicates(ys)
    ensures NoDuplicates(ys[..i] + ys[i + 1..])
    ensures forall t :: t in ys[..i] + ys[i + 1..] <==> t in ys && t != ys[i]
  {
    var rest := ys[..i] + ys[i + 1..];
    assert forall j :: 0 <= j < |rest| ==> rest[j] == ys[if j < i then j else j + 1];
    forall t | t in ys && t != ys[i]
      ensures t in rest
    {
      var j :| 0 <= j < |ys| && ys[j] == t;
      assert rest[if j < i then j else j - 1] == t;
    }
  }

  /** A query is the set of its terms: order and repetition change no match and no score. */
  lemma ScanIsOfTermSet(tok: Tokenizer, p: Bm25, m: Corpus, xs: seq<string>, ys: seq<string>)
    requires p.Valid() && forall t :: t in xs <==> t in ys
    ensures Scan(tok, p, m, xs) == Scan(tok, p, m, ys)
  {
    hide ScoreOver, Tokens, Distinct;
    DistinctMembers(xs);
    DistinctMembers(ys);
    DistinctIsDistinct(xs);
    DistinctIsDistinct(ys);
    forall k | k in m
      ensures Matches(tok, xs, m[k]) <==> Matches(tok, ys, m[k])
      ensures ScoreOver(tok, p, m, Distinct(xs), m[k]) == ScoreOver(tok, p, m, Distinct(ys), m[k])
    {
      ScoreIgnoresOrder(tok, p, m, Distinct(xs), Distinct(ys), m[k]);
    }
  }

  /** Repeating a query term, anywhere in the query, changes nothing. */
  lemma RepeatedTermIsFree(tok: Tokenizer, p: Bm25, m: Corpus, ts: seq<string>, i: nat, t: string)
    requires p.Valid() && i <= |ts| && t in ts
    ensures Scan(tok, p, m, ts[..i] + [t] + ts[i..]) == Scan(tok, p, m, ts)
  {
    hide Scan;
    assert ts == ts[..i] + ts[i..];
    ScanIsOfTermSet(tok, p, m, ts[..i] + [t] + ts[i..], ts);
  }

  /** A limit takes a prefix of the unlimited answer, whose total is the number of matches. */
  lemma LimitIsPrefix(tok: Tokenizer, p: Bm25, m: Corpus, query: string, limit: nat)
    requires p.Valid()
    ensures var all := SearchHits(tok, p, m, query, 0);
            && IsPrefix(SearchHits(tok, p, m, query, limit), all)
            && |all| == |Scan(tok, p, m, tok(query))|
            && Ranked(all)
            && (forall h :: h in all <==> h.id in m && Matches(tok, tok(query), m[h.id]) && h == Scan(tok, p, m, tok(query))[h.id])
  {
    hide RankedValues, ScoreOver, Matches;
    var table := Scan(tok, p, m, tok(query));
    RankedValuesRank(table);
    RankedValuesSize(table);
  }

  // ---- iteration order of text fields ----

  /** The same documents up to the iteration order of their text fields. */
  ghost predicate SameCorpus(a: Corpus, b: Corpus) {
    a.Keys == b.Keys && forall k :: k in a ==> SameUpToTextOrder(a[k], b[k])
  }

  lemma {:induction false} TotalsAgree(tok: Tokenizer, a: Corpus, b: Corpus)
    requires a.Keys == b.Keys && forall k :: k in a ==> Tokens(tok, a[k]) == Tokens(tok, b[k])
    ensures TotalLen(tok, a) == TotalLen(tok, b)
    decreases a
  {
    hide Tokens;
    if a == map[] {
      assert b == map[];
    } else {
      var k :| k in a;
      TotalLenAny(tok, a, k);
      TotalLenAny(tok, b, k);
      assert (a - {k}).Keys == (b - {k}).Keys;
      TotalsAgree(tok, a - {k}, b - {k});
    }
  }

  lemma SharesAgree(tok: Tokenizer, p: Bm25, a: Corpus, b: Corpus, t: string, k: string)
    requires p.Valid() && a.Keys == b.Keys && forall k :: k in a ==> Tokens(tok, a[k]) == Tokens(tok, b[k])
    requires k in a
    ensures Share(tok, p, a, t, a[k]) == Share(tok, p, b, t, b[k])
  {
    hide Tokens, TotalLen;
    TotalsAgree(tok, a, b);
    assert Containing(tok, a, t) == Containing(tok, b, t);
    assert |a| == |a.Keys| && |b| == |b.Keys|;
  }

  lemma {:induction false} ScoresAgree(tok: Tokenizer, p: Bm25, a: Corpus, b: Corpus, ts: seq<string>, k: string)
    requires p.Valid() && a.Keys == b.Keys && forall k :: k in a ==> Tokens(tok, a[k]) == Tokens(tok, b[k])
    requires k in a
    ensures ScoreOver(tok, p, a, ts, a[k]) == ScoreOver(tok, p, b, ts, b[k])
  {
    hide Tokens, Share, ScoreOver;
    if ts == [] {
      NoTermsScore(tok, p, a, a[k]);
      NoTermsScore(tok, p, b, b[k]);
    } else {
      var front, last := ts[..|ts| - 1], ts[|ts| - 1];
      assert ts == front + [last];
      ScoresAgree(tok, p, a, b, front, k);
      ScoreOfSnoc(tok, p, a, front, last, a[k]);
      ScoreOfSnoc(tok, p, b, front, last, b[k]);
      SharesAgree(tok, p, a, b, last, k);
    }
  }

  lemma NoTermsScore(tok: Tokenizer, p: Bm25, m: Corpus, d: FlightDocument)
    requires p.Valid()
    ensures ScoreOver(tok, p, m, [], d) == 0.0
  {
  }

  /** Keyword answers do not depend on the order in which a replica's hash maps list text fields. */
  lemma AnswersIgnoreTextOrder(tok: Tokenizer, p: Bm25, a: Corpus, b: Corpus, query: string, limit: nat)
    requires p.Valid() && SameCorpus(a, b)
    ensures IdsAndScores(SearchHits(tok, p, a, query, limit)) == IdsAndScores(SearchHits(tok, p, b, query, limit))
  {
    hide Tokens, ScoreOver, RankedValues, Limit, Distinct;
    forall k | k in a
      ensures Tokens(tok, a[k]) == Tokens(tok, b[k])
    {
      TokensIgnoreTextOrder(tok, a[k], b[k]);
    }
    var ts := tok(query);
    forall k | k in a
      ensures ScoreOver(tok, p, a, Distinct(ts), a[k]) == ScoreOver(tok, p, b, Distinct(ts), b[k])
    {
      ScoresAgree(tok, p, a, b, Distinct(ts), k);
    }
    RankedAlike(Scan(tok, p, a, ts), Scan(tok, p, b, ts), limit);
  }
}
