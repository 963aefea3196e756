/**
 What keyword scores mean: the exact score of an average document, how a score moves with
 frequency, length and rarity, and which documents a query finds.
 */
module KeywordScores {
  import opened Prelude
  import opened Ranking
  import opened Documents
  import opened KeywordSpec

  /** A logarithm as far as ranking needs one. */
  ghost predicate Increasing(ln: real -> real) {
    ln(1.0) == 0.0 && forall x, y :: 0.0 < x < y ==> ln(x) < ln(y)
  }

  // ---- fractions ----

  lemma ProductLess(p: real, q: real, t: real)
    requires t > 0.0
    ensures p < q <==> p * t < q * t
  {
  }

  lemma CrossLess(a: real, b: real, c: real, d: real)
    requires b > 0.0 && d > 0.0
    ensures a / b < c / d <==> a * d < c * b
  {
    var p, q, t := a / b, c / d, b * d;
    assert t > 0.0 by { ProductLess(0.0, b, d); }
    assert p * b == a && q * d == c;
    assert p * t == a * d by { assert p * (b * d) == (p * b) * d; }
    assert q * t == c * b by { assert q * (b * d) == (q * d) * b; }
    ProductLess(p, q, t);
  }

  lemma CrossEqual(a: real, b: real, c: real)
    requires b > 0.0 && a == c * b
    ensures a / b == c
  {
  }

  lemma SameTop(x: real, a: real, b: real)
    requires x > 0.0 && a > 0.0 && b > 0.0
    ensures x / b < x / a <==> a < b
    ensures x / a > 0.0
  {
    CrossLess(x, b, x, a);
    ProductLess(a, b, x);
    CrossLess(0.0, 1.0, x, a);
  }

  // ---- one term ----

  /** How much rarer than everything a term of this many documents is. */
  function Rarity(n: nat, df: nat): real {
    (n as real + 1.0) / (df as real + 0.5)
  }

  lemma RarityOrders(n: nat, few: nat, many: nat)
    requires few < many <= n
    ensures 1.0 < Rarity(n, many) < Rarity(n, few)
  {
    CrossLess(1.0, 1.0, n as real + 1.0, many as real + 0.5);
    CrossLess(n as real + 1.0, many as real + 0.5, n as real + 1.0, few as real + 0.5);
    ProductLess(few as real + 0.5, many as real + 0.5, n as real + 1.0);
  }

  lemma RarityIsOver(n: nat, df: nat)
    requires df <= n
    ensures Rarity(n, df) > 1.0
  {
    CrossLess(1.0, 1.0, n as real + 1.0, df as real + 0.5);
  }

  lemma IdfIs(p: Bm25, n: nat, df: nat)
    ensures Idf(p, n, df) == p.ln(Rarity(n, df))
  {
    var d := df as real + 0.5;
    assert (n as real - df as real + 0.5) / d == (n as real + 1.0 - d) / d;
    assert (n as real + 1.0 - d) / d == (n as real + 1.0) / d - d / d;
    assert d / d == 1.0;
  }

  /** What a document's length does to the denominator. */
  function Stretch(p: Bm25, dl: nat, avg: real): real
    requires avg >= 1.0
  {
    1.0 - p.b + p.b * dl as real / avg
  }

  lemma StretchIs(p: Bm25, dl: nat, avg: real)
    requires p.Valid() && avg >= 1.0 && dl > 0
    ensures Stretch(p, dl, avg) > 0.0
    ensures dl as real == avg ==> Stretch(p, dl, avg) == 1.0
  {
    var x := p.b * dl as real;
    if p.b > 0.0 {
      ProductLess(0.0, p.b, dl as real);
      SameTop(x, avg, 1.0);
    } else {
      CrossEqual(x, avg, 0.0);
    }
    if dl as real == avg {
      StretchOfAverage(p, dl, avg, x);
    }
  }

  lemma StretchOfAverage(p: Bm25, dl: nat, avg: real, x: real)
    requires avg >= 1.0 && dl as real == avg && x == p.b * dl as real
    ensures Stretch(p, dl, avg) == 1.0
  {
    assert x == p.b * avg;
    CrossEqual(x, avg, p.b);
    assert Stretch(p, dl, avg) == 1.0 - p.b + x / avg;
  }

  lemma StretchGrows(p: Bm25, short: nat, long: nat, avg: real)
    requires p.Valid() && avg >= 1.0 && short < long
    ensures Stretch(p, short, avg) <= Stretch(p, long, avg)
    ensures p.b > 0.0 <==> Stretch(p, short, avg) < Stretch(p, long, avg)
  {
    var x, y := p.b * short as real, p.b * long as real;
    if p.b > 0.0 {
      ProductLess(short as real, long as real, p.b);
      CrossLess(x, avg, y, avg);
      ProductLess(x, y, avg);
    }
  }

  /** The numerator and denominator a document contributes: frequency times k1 + 1, over
      frequency plus k1 times the stretch. */
  ghost predicate Parts(p: Bm25, tf: nat, stretch: real, top: real, below: real) {
    && p.Valid() && tf > 0 && stretch > 0.0
    && top == tf as real * (p.k1 + 1.0) && below == tf as real + p.k1 * stretch
  }

  lemma PartsArePositive(p: Bm25, tf: nat, stretch: real, top: real, below: real)
    requires Parts(p, tf, stretch, top, below)
    ensures top > 0.0 && below > 0.0 && below >= tf as real
    ensures p.k1 > 0.0 <==> below > tf as real
  {
    ProductLess(0.0, tf as real, p.k1 + 1.0);
    if p.k1 > 0.0 {
      ProductLess(0.0, p.k1, stretch);
    }
  }

  /** What is missing to the bound k1 + 1. */
  lemma Missing(p: Bm25, tf: nat, stretch: real, top: real, below: real, gap: real)
    requires Parts(p, tf, stretch, top, below) && gap == (p.k1 + 1.0) * (below - tf as real)
    ensures below > 0.0 && top / below == p.k1 + 1.0 - gap / below
    ensures gap >= 0.0 && (gap > 0.0 <==> p.k1 > 0.0)
  {
    PartsArePositive(p, tf, stretch, top, below);
    var g, more := p.k1 + 1.0, below - tf as real;
    if more > 0.0 {
      ProductLess(0.0, g, more);
    }
    Difference(top, gap, below, g);
  }

  lemma Difference(top: real, gap: real, below: real, g: real)
    requires below > 0.0 && top == g * below - gap
    ensures top / below == g - gap / below
  {
    assert top / below == g * below / below - gap / below;
    CrossEqual(g * below, below, g);
  }

  /** One document against another of the same length and a higher frequency. */
  lemma MoreFrequent(p: Bm25, few: nat, many: nat, stretch: real, top1: real, below1: real, top2: real, below2: real)
    requires Parts(p, few, stretch, top1, below1) && Parts(p, many, stretch, top2, below2) && few < many
    ensures below1 > 0.0 && below2 > 0.0 && top1 / below1 <= top2 / below2
    ensures top1 / below1 < top2 / below2 <==> p.k1 > 0.0
  {
    var gap := (p.k1 + 1.0) * (below1 - few as real);
    assert below1 - few as real == below2 - many as real;
    Missing(p, few, stretch, top1, below1, gap);
    Missing(p, many, stretch, top2, below2, gap);
    if gap > 0.0 {
      SameTop(gap, below1, below2);
    } else {
      CrossEqual(gap, below1, 0.0);
      CrossEqual(gap, below2, 0.0);
    }
  }

  lemma UnderTheBound(p: Bm25, tf: nat, stretch: real, top: real, below: real)
    requires Parts(p, tf, stretch, top, below)
    ensures below > 0.0 && top / below <= p.k1 + 1.0
    ensures top / below < p.k1 + 1.0 <==> p.k1 > 0.0
  {
    var gap := (p.k1 + 1.0) * (below - tf as real);
    Missing(p, tf, stretch, top, below, gap);
    if gap > 0.0 {
      SameTop(gap, below, 1.0);
    } else {
      CrossEqual(gap, below, 0.0);
    }
  }

  /** One document against another of the same frequency and a greater length. */
  lemma MoreStretched(p: Bm25, tf: nat, low: real, high: real, top: real, below1: real, below2: real)
    requires Parts(p, tf, low, top, below1) && Parts(p, tf, high, top, below2) && low < high
    ensures below1 > 0.0 && below2 > 0.0 && top / below2 <= top / below1
    ensures top / below2 < top / below1 <==> p.k1 > 0.0
  {
    PartsArePositive(p, tf, low, top, below1);
    PartsArePositive(p, tf, high, top, below2);
    SameTop(top, below1, below2);
    if p.k1 > 0.0 {
      ProductLess(low, high, p.k1);
    }
  }

  // ---- scores ----

  /** The live documents with the term. */
  function Having(tok: Tokenizer, m: Corpus, t: string): nat {
    |set k | k in m && t in Tokens(tok, m[k])|
  }

  lemma HavingIsBounded(tok: Tokenizer, m: Corpus, t: string)
    ensures Having(tok, m, t) <= |m| && Having(tok, m, t) == |Containing(tok, m, t)|
  {
    hide Tokens;
    var some := set k | k in m && t in Tokens(tok, m[k]);
    assert some <= m.Keys && |m.Keys| == |m|;
    Smaller(some, m.Keys);
  }

  lemma {:induction false} Smaller<T>(a: set<T>, b: set<T>)
    requires a <= b
    ensures |a| <= |b|
  {
    if a != {} {
      var x :| x in a;
      Smaller(a - {x}, b - {x});
    }
  }

  /** Rarer than everything in logarithm, as the weight of a term. */
  function TermWeight(tok: Tokenizer, p: Bm25, m: Corpus, t: string): real {
    p.ln((|m| as real + 1.0) / (Having(tok, m, t) as real + 0.5))
  }

  lemma TermWeightIsPositive(tok: Tokenizer, p: Bm25, m: Corpus, t: string)
    requires Increasing(p.ln)
    ensures TermWeight(tok, p, m, t) > 0.0
  {
    hide Having;
    HavingIsBounded(tok, m, t);
    RarityIsOver(|m|, Having(tok, m, t));
  }

  lemma NormIs(p: Bm25, tf: nat, dl: nat, avg: real, stretch: real, top: real, below: real)
    requires avg >= 1.0 && stretch == Stretch(p, dl, avg) && Parts(p, tf, stretch, top, below)
    ensures below > 0.0 && Norm(p, tf, dl, avg) == top / below
  {
    PartsArePositive(p, tf, stretch, top, below);
    DenominatorIsPositive(p, tf, dl, avg);
  }

  ghost function AverageOf(tok: Tokenizer, m: Corpus): (a: real)
    ensures a >= 1.0
  {
    AvgLen(TotalLen(tok, m), |m|)
  }

  lemma TermScoreIs(tok: Tokenizer, p: Bm25, m: Corpus, t: string, d: FlightDocument, stretch: real, top: real, below: real)
    requires stretch == Stretch(p, |Tokens(tok, d)|, AverageOf(tok, m))
    requires Parts(p, Tokens(tok, d)[t], stretch, top, below)
    ensures below > 0.0 && ScoreOver(tok, p, m, [t], d) == TermWeight(tok, p, m, t) * (top / below)
  {
    hide Tokens, Norm, Stretch, Parts, Idf, Having, Containing, TotalLen, AvgLen;
    assert p.Valid() && t in Tokens(tok, d) && below > 0.0 by { PartsArePositive(p, Tokens(tok, d)[t], stretch, top, below); Present(p, Tokens(tok, d), t, stretch, top, below); }
    NormIs(p, Tokens(tok, d)[t], |Tokens(tok, d)|, AverageOf(tok, m), stretch, top, below);
    HavingIsBounded(tok, m, t);
    IdfIs(p, |m|, Having(tok, m, t));
    assert [t][..0] == [];
    assert ScoreOver(tok, p, m, [t], d) == ScoreOver(tok, p, m, [], d) + Weight(tok, p, m, t, d);
  }

  lemma Present(p: Bm25, ms: multiset<string>, t: string, stretch: real, top: real, below: real)
    requires Parts(p, ms[t], stretch, top, below)
    ensures p.Valid() && t in ms && ms[t] > 0
  {
  }

  lemma SizeCounts(ms: multiset<string>, t: string)
    requires t in ms
    ensures 0 < ms[t] <= |ms|
  {
    assert ms == ms[t := 0] + multiset{}[t := ms[t]];
    assert |ms| == |ms[t := 0]| + ms[t];
  }

  /**
   A term found once in a document of average length scores the logarithm of n + 1 over df and
   a half, whatever the parameters.
   */
  lemma AverageDocumentScore(tok: Tokenizer, p: Bm25, m: Corpus, t: string, d: FlightDocument)
    requires p.Valid() && m != map[] && Tokens(tok, d)[t] == 1 && |Tokens(tok, d)| * |m| == TotalLen(tok, m)
    ensures ScoreOver(tok, p, m, [t], d) == p.ln((|m| as real + 1.0) / (Having(tok, m, t) as real + 0.5))
  {
    hide Tokens, TotalLen, ScoreOver, Having, AvgLen, Stretch;
    var dl, avg := |Tokens(tok, d)|, AverageOf(tok, m);
    SizeCounts(Tokens(tok, d), t);
    AverageIs(dl, |m|, TotalLen(tok, m));
    StretchIs(p, dl, avg);
    TermScoreIs(tok, p, m, t, d, 1.0, p.k1 + 1.0, p.k1 + 1.0);
    CrossEqual(p.k1 + 1.0, p.k1 + 1.0, 1.0);
  }

  lemma AverageIs(dl: nat, n: nat, total: nat)
    requires n > 0 && dl > 0 && dl * n == total
    ensures AvgLen(total, n) == dl as real
  {
    assert total as real == dl as real * n as real;
    CrossEqual(total as real, n as real, dl as real);
  }

  /** The score of a document that has the term: the term's weight times the document's share. */
  lemma ShareOf(tok: Tokenizer, p: Bm25, m: Corpus, t: string, d: FlightDocument)
    returns (stretch: real, top: real, below: real, share: real)
    requires p.Valid() && Tokens(tok, d)[t] > 0
    ensures stretch == Stretch(p, |Tokens(tok, d)|, AverageOf(tok, m)) && Parts(p, Tokens(tok, d)[t], stretch, top, below)
    ensures below > 0.0 && share == top / below && share > 0.0
    ensures ScoreOver(tok, p, m, [t], d) == TermWeight(tok, p, m, t) * share
  {
    hide Tokens, ScoreOver, Having, AverageOf, Stretch;
    var tf := Tokens(tok, d)[t];
    SizeCounts(Tokens(tok, d), t);
    StretchIs(p, |Tokens(tok, d)|, AverageOf(tok, m));
    stretch := Stretch(p, |Tokens(tok, d)|, AverageOf(tok, m));
    top, below := tf as real * (p.k1 + 1.0), tf as real + p.k1 * stretch;
    TermScoreIs(tok, p, m, t, d, stretch, top, below);
    PartsArePositive(p, tf, stretch, top, below);
    SameTop(top, below, 1.0);
    share := top / below;
  }

  /** The score grows with the frequency, strictly when k1 is positive, and stays below k1 + 1
      times the term's logarithm. */
  lemma FrequencyRaises(tok: Tokenizer, p: Bm25, m: Corpus, t: string, a: FlightDocument, b: FlightDocument)
    requires p.Valid() && Increasing(p.ln) && |Tokens(tok, a)| == |Tokens(tok, b)|
    requires 0 < Tokens(tok, a)[t] < Tokens(tok, b)[t]
    ensures 0.0 < ScoreOver(tok, p, m, [t], a) <= ScoreOver(tok, p, m, [t], b)
    ensures ScoreOver(tok, p, m, [t], a) < ScoreOver(tok, p, m, [t], b) <==> p.k1 > 0.0
    ensures var cap := (p.k1 + 1.0) * p.ln((|m| as real + 1.0) / (Having(tok, m, t) as real + 0.5));
            ScoreOver(tok, p, m, [t], b) <= cap && (ScoreOver(tok, p, m, [t], b) < cap <==> p.k1 > 0.0)
  {
    hide Tokens, ScoreOver, Having, AverageOf, Stretch, Increasing, Parts;
    var s, top1, below1, u := ShareOf(tok, p, m, t, a);
    var r, top2, below2, v := ShareOf(tok, p, m, t, b);
    MoreFrequent(p, Tokens(tok, a)[t], Tokens(tok, b)[t], s, top1, below1, top2, below2);
    UnderTheBound(p, Tokens(tok, b)[t], s, top2, below2);
    TermWeightIsPositive(tok, p, m, t);
    var w := TermWeight(tok, p, m, t);
    Weighed(w, 0.0, u);
    Weighed(w, u, v);
    Weighed(w, v, p.k1 + 1.0);
  }

  lemma Weighed(w: real, u: real, v: real)
    requires w > 0.0 && u <= v
    ensures w * u <= w * v && (w * u < w * v <==> u < v) && w * v == v * w && w * 0.0 == 0.0
  {
    ProductLess(u, v, w);
  }

  /** The score falls with the length, strictly when k1 and b are positive. */
  lemma LengthLowers(tok: Tokenizer, p: Bm25, m: Corpus, t: string, short: FlightDocument, long: FlightDocument)
    requires p.Valid() && Increasing(p.ln) && |Tokens(tok, short)| < |Tokens(tok, long)|
    requires Tokens(tok, short)[t] == Tokens(tok, long)[t] > 0
    ensures ScoreOver(tok, p, m, [t], long) <= ScoreOver(tok, p, m, [t], short)
    ensures ScoreOver(tok, p, m, [t], long) < ScoreOver(tok, p, m, [t], short) <==> p.k1 > 0.0 && p.b > 0.0
  {
    hide Tokens, ScoreOver, Having, AverageOf, Stretch, Increasing, Parts;
    var low, top1, below1, u := ShareOf(tok, p, m, t, short);
    var high, top2, below2, v := ShareOf(tok, p, m, t, long);
    StretchGrows(p, |Tokens(tok, short)|, |Tokens(tok, long)|, AverageOf(tok, m));
    SameParts(p, Tokens(tok, short)[t], low, high, top1, below1, top2, below2);
    if low < high {
      MoreStretched(p, Tokens(tok, short)[t], low, high, top1, below1, below2);
    }
    TermWeightIsPositive(tok, p, m, t);
    Weighed(TermWeight(tok, p, m, t), v, u);
  }

  lemma SameParts(p: Bm25, tf: nat, low: real, high: real, top1: real, below1: real, top2: real, below2: real)
    requires Parts(p, tf, low, top1, below1) && Parts(p, tf, high, top2, below2)
    ensures top1 == top2 && (low == high ==> below1 == below2)
  {
  }

  // ---- rarer terms ----

  /** Documents alike in length and frequency: the one with the rarer term scores higher. */
  lemma RarerScoresHigher(tok: Tokenizer, p: Bm25, m: Corpus, x: string, y: string, a: FlightDocument, b: FlightDocument)
    requires p.Valid() && Increasing(p.ln) && |Tokens(tok, a)| == |Tokens(tok, b)|
    requires Tokens(tok, a)[x] == Tokens(tok, b)[y] > 0 && Having(tok, m, x) < Having(tok, m, y)
    ensures ScoreOver(tok, p, m, [x], a) > ScoreOver(tok, p, m, [y], b)
  {
    hide Tokens, ScoreOver, Having, AverageOf, Stretch, Parts;
    var s, top1, below1, u := ShareOf(tok, p, m, x, a);
    var r, top2, below2, v := ShareOf(tok, p, m, y, b);
    SameParts(p, Tokens(tok, a)[x], s, r, top1, below1, top2, below2);
    HavingIsBounded(tok, m, y);
    RarityOrders(|m|, Having(tok, m, x), Having(tok, m, y));
    ProductLess(TermWeight(tok, p, m, y), TermWeight(tok, p, m, x), u);
  }

  /** Terms the document lacks add nothing. */
  lemma {:induction false} OnlyTerm(tok: Tokenizer, p: Bm25, m: Corpus, ts: seq<string>, x: string, d: FlightDocument)
    requires p.Valid() && NoDuplicates(ts) && forall t :: t in ts && t in Tokens(tok, d) ==> t == x
    ensures ScoreOver(tok, p, m, ts, d) == if x in ts then ScoreOver(tok, p, m, [x], d) else 0.0
  {
    hide Tokens, ScoreOver, Weight;
    if ts == [] {
      NoTermsScore(tok, p, m, d);
    } else {
      var front, last := ts[..|ts| - 1], ts[|ts| - 1];
      assert ts == front + [last];
      ScoreOfSnoc(tok, p, m, front, last, d);
      OnlyTerm(tok, p, m, front, x, d);
      var empty: seq<string> := [];
      ScoreOfSnoc(tok, p, m, empty, x, d);
      NoTermsScore(tok, p, m, d);
      assert empty + [x] == [x];
    }
  }

  lemma EarlierIsBefore<T>(hits: seq<Hit<T>>, i: nat, j: nat)
    requires Ranked(hits) && i < |hits| && j < |hits| && hits[i].score > hits[j].score
    ensures i < j
  {
  }

  /**
   Of two documents alike in length and frequency, each with one term of the query, the one
   with the rarer term comes first, under every limit.
   */
  lemma RarerTermFirst(tok: Tokenizer, p: Bm25, m: Corpus, query: string, limit: nat, x: string, y: string,
                       ka: string, kb: string, j: nat) returns (i: nat)
    requires p.Valid() && Increasing(p.ln) && ka in m && kb in m && x in tok(query) && y in tok(query)
    requires forall t :: t in tok(query) ==> (t in Tokens(tok, m[ka]) <==> t == x) && (t in Tokens(tok, m[kb]) <==> t == y)
    requires |Tokens(tok, m[ka])| == |Tokens(tok, m[kb])| && Tokens(tok, m[ka])[x] == Tokens(tok, m[kb])[y]
    requires Having(tok, m, x) < Having(tok, m, y)
    requires j < |SearchHits(tok, p, m, query, limit)| && SearchHits(tok, p, m, query, limit)[j].id == kb
    ensures i < j && SearchHits(tok, p, m, query, limit)[i].id == ka
  {
    hide Tokens, ScoreOver, RankedValues, Having, Distinct, Increasing;
    var ts, table := tok(query), Scan(tok, p, m, tok(query));
    DistinctMembers(ts);
    DistinctIsDistinct(ts);
    OnlyTerm(tok, p, m, Distinct(ts), x, m[ka]);
    OnlyTerm(tok, p, m, Distinct(ts), y, m[kb]);
    RarerScoresHigher(tok, p, m, x, y, m[ka], m[kb]);
    RankedValuesRank(table);
    var all := RankedValues(table);
    assert table[ka] in all && table[kb] in all;
    i :| 0 <= i < |all| && all[i] == table[ka];
    assert all[j] in all && all[j] == table[kb];
    EarlierIsBefore(all, i, j);
  }

  // ---- what is found ----

  /** The score of several terms is the sum of theirs. */
  lemma {:induction false} ScoresAdd(tok: Tokenizer, p: Bm25, m: Corpus, xs: seq<string>, ys: seq<string>, d: FlightDocument)
    requires p.Valid()
    ensures ScoreOver(tok, p, m, xs + ys, d) == ScoreOver(tok, p, m, xs, d) + ScoreOver(tok, p, m, ys, d)
    decreases |ys|
  {
    hide ScoreOver, Share;
    if ys == [] {
      NoTermsScore(tok, p, m, d);
      assert xs + ys == xs;
    } else {
      var front, last := ys[..|ys| - 1], ys[|ys| - 1];
      assert ys == front + [last] && xs + ys == (xs + front) + [last];
      ScoresAdd(tok, p, m, xs, front, d);
      ScoreOfSnoc(tok, p, m, xs + front, last, d);
      ScoreOfSnoc(tok, p, m, front, last, d);
    }
  }

  /** A word of any indexed field: call sign, origin, destination, type, or a generic text field. */
  ghost predicate InSomeField(tok: Tokenizer, d: FlightDocument, t: string) {
    || t in tok(d.callsign) || t in tok(d.origin) || t in tok(d.destination) || t in tok(d.aircraftType)
    || exists i :: 0 <= i < |d.text| && t in tok(d.text[i].value)
  }

  lemma {:induction false} TextWords(tok: Tokenizer, fields: seq<TextField>, t: string)
    ensures t in TextTokens(tok, fields) <==> exists i :: 0 <= i < |fields| && t in tok(fields[i].value)
  {
    if fields != [] {
      var front, last := fields[..|fields| - 1], fields[|fields| - 1];
      TextWords(tok, front, t);
      assert fields[|front|] == last && forall i :: 0 <= i < |front| ==> fields[i] == front[i];
      if i :| 0 <= i < |front| && t in tok(front[i].value) {
        assert t in tok(fields[i].value);
      }
    }
  }

  /** A query finds exactly the documents that have one of its words in some field. */
  lemma SearchFinds(tok: Tokenizer, p: Bm25, m: Corpus, query: string, k: string)
    requires p.Valid()
    ensures (exists h :: h in SearchHits(tok, p, m, query, 0) && h.id == k) <==>
            k in m && exists t :: t in tok(query) && InSomeField(tok, m[k], t)
  {
    hide RankedValues, ScoreOver, Distinct, TextTokens;
    var table := Scan(tok, p, m, tok(query));
    RankedValuesRank(table);
    if k in m {
      forall t
        ensures t in Tokens(tok, m[k]) <==> InSomeField(tok, m[k], t)
      {
        TextWords(tok, m[k].text, t);
      }
    }
    if k in table {
      assert table[k] in RankedValues(table);
    }
  }
}
