/** The in-memory keyword index: slots, postings, a free list and length sums. */
module KeywordIndex {
  import opened Prelude
  import opened Ranking
  import opened Documents
  import opened KeywordSpec

  datatype Posting = Posting(docId: nat, termFreq: nat)
  type Slots = seq<Option<FlightDocument>>
  type Postings = map<string, seq<Posting>>

  function ListOf(postings: Postings, t: string): seq<Posting> {
    if t in postings then postings[t] else []
  }

  // ---- the representation invariant, part by part ----

  /** The posting a live document owes a term. */
  ghost predicate Owed(tok: Tokenizer, docs: Slots, t: string, p: Posting) {
    && p.docId < |docs| && docs[p.docId].Some?
    && t in Tokens(tok, docs[p.docId].value) && p.termFreq == Tokens(tok, docs[p.docId].value)[t]
  }

  ghost predicate DistinctDocs(list: seq<Posting>) {
    forall i, j :: 0 <= i < j < |list| ==> list[i].docId != list[j].docId
  }

  /** A term's list holds exactly the postings owed, each once. */
  ghost predicate TermExact(tok: Tokenizer, docs: Slots, t: string, list: seq<Posting>) {
    DistinctDocs(list) && forall p :: p in list <==> Owed(tok, docs, t, p)
  }

  ghost predicate PostingsExact(tok: Tokenizer, docs: Slots, postings: Postings) {
    && (forall t :: TermExact(tok, docs, t, ListOf(postings, t)))
    && (forall t :: t in postings ==> postings[t] != [])
  }

  ghost predicate KeysExact(docs: Slots, byKey: map<string, nat>) {
    && (forall k :: k in byKey ==> byKey[k] < |docs| && docs[byKey[k]].Some? && docs[byKey[k]].value.icao24 == k)
    && (forall i :: 0 <= i < |docs| && docs[i].Some? ==>
          docs[i].value.icao24 in byKey && byKey[docs[i].value.icao24] == i)
  }

  ghost predicate FreeExact(docs: Slots, free: seq<nat>) {
    NoDuplicates(free) && forall i :: i in free <==> 0 <= i < |docs| && docs[i].None?
  }

  function Sum(xs: seq<nat>): nat {
    if xs == [] then 0 else Sum(xs[..|xs| - 1]) + xs[|xs| - 1]
  }

  function LenOf(tok: Tokenizer, d: Option<FlightDocument>): nat {
    if d.Some? then |Tokens(tok, d.value)| else 0
  }

  ghost predicate LengthsExact(tok: Tokenizer, docs: Slots, docLen: seq<nat>, totalLen: nat) {
    && |docLen| == |docs|
    && (forall i :: 0 <= i < |docs| ==> docLen[i] == LenOf(tok, docs[i]))
    && totalLen == Sum(docLen)
  }

  /** The map the index stands for. */
  function LiveOf(docs: Slots, byKey: map<string, nat>): Corpus
    requires KeysExact(docs, byKey)
  {
    map k | k in byKey :: docs[byKey[k]].value
  }

  // ---- lists under change ----

  function Without(list: seq<Posting>, docId: nat): seq<Posting> {
    if list == [] then []
    else
      var last := list[|list| - 1];
      Without(list[..|list| - 1], docId) + if last.docId == docId then [] else [last]
  }

  lemma {:induction false} WithoutKeeps(list: seq<Posting>, docId: nat)
    ensures forall p :: p in Without(list, docId) <==> p in list && p.docId != docId
    ensures DistinctDocs(list) ==> DistinctDocs(Without(list, docId))
  {
    if list != [] {
      var front, last := list[..|list| - 1], list[|list| - 1];
      WithoutKeeps(front, docId);
      assert forall p :: p in list <==> p in front || p == last;
      if DistinctDocs(list) {
        assert DistinctDocs(front);
        var rest := Without(front, docId);
        forall i | 0 <= i < |rest|
          ensures rest[i].docId != last.docId
        {
          assert rest[i] in front;
          var j :| 0 <= j < |front| && front[j] == rest[i];
          assert list[j].docId != list[|list| - 1].docId;
        }
      }
    }
  }

  lemma RetireTerm(tok: Tokenizer, docs: Slots, t: string, list: seq<Posting>, i: nat)
    requires TermExact(tok, docs, t, list) && i < |docs|
    ensures TermExact(tok, docs[i := None], t, Without(list, i))
    ensures docs[i].Some? && t !in Tokens(tok, docs[i].value) ==> TermExact(tok, docs[i := None], t, list)
  {
    hide Tokens;
    WithoutKeeps(list, i);
    var next := docs[i := None];
    forall p
      ensures Owed(tok, next, t, p) <==> Owed(tok, docs, t, p) && p.docId != i
    {
    }
  }

  lemma FillTerm(tok: Tokenizer, docs: Slots, t: string, list: seq<Posting>, i: nat, d: FlightDocument)
    requires TermExact(tok, docs, t, list) && i < |docs| && docs[i].None?
    ensures var more := if t in Tokens(tok, d) then [Posting(i, Tokens(tok, d)[t])] else [];
            TermExact(tok, docs[i := Some(d)], t, list + more)
  {
    hide Tokens;
    var more := if t in Tokens(tok, d) then [Posting(i, Tokens(tok, d)[t])] else [];
    var next := docs[i := Some(d)];
    forall j | 0 <= j < |list|
      ensures list[j].docId != i
    {
      assert list[j] in list;
      assert Owed(tok, docs, t, list[j]);
    }
    forall p
      ensures p in list + more <==> Owed(tok, next, t, p)
    {
      assert p in list + more <==> p in list || p in more;
      assert p in list <==> Owed(tok, docs, t, p);
    }
  }

  lemma RetireAll(tok: Tokenizer, docs: Slots, before: Postings, after: Postings, i: nat)
    requires PostingsExact(tok, docs, before) && i < |docs| && docs[i].Some?
    requires forall t ::
      (ListOf(after, t) == if t in Tokens(tok, docs[i].value) then Without(ListOf(before, t), i) else ListOf(before, t))
    requires forall t :: t in after ==> after[t] != []
    ensures PostingsExact(tok, docs[i := None], after)
  {
    hide Tokens, Without, TermExact;
    forall t
      ensures TermExact(tok, docs[i := None], t, ListOf(after, t))
    {
      RetireTerm(tok, docs, t, ListOf(before, t), i);
    }
  }

  lemma FillAll(tok: Tokenizer, docs: Slots, before: Postings, after: Postings, i: nat, d: FlightDocument)
    requires PostingsExact(tok, docs, before) && i < |docs| && docs[i].None?
    requires forall t ::
      (ListOf(after, t) == ListOf(before, t) + if t in Tokens(tok, d) then [Posting(i, Tokens(tok, d)[t])] else [])
    requires forall t :: t in after ==> after[t] != []
    ensures PostingsExact(tok, docs[i := Some(d)], after)
  {
    hide Tokens, TermExact;
    forall t
      ensures TermExact(tok, docs[i := Some(d)], t, ListOf(after, t))
    {
      FillTerm(tok, docs, t, ListOf(before, t), i, d);
    }
  }

  lemma GrowAll(tok: Tokenizer, docs: Slots, postings: Postings)
    requires PostingsExact(tok, docs, postings)
    ensures PostingsExact(tok, docs + [None], postings)
  {
    hide Tokens;
    forall t
      ensures TermExact(tok, docs + [None], t, ListOf(postings, t))
    {
      assert TermExact(tok, docs, t, ListOf(postings, t));
      assert forall p :: Owed(tok, docs + [None], t, p) <==> Owed(tok, docs, t, p);
    }
  }

  lemma {:induction false} SumUpdate(xs: seq<nat>, i: nat, x: nat)
    requires i < |xs|
    ensures Sum(xs[i := x]) == Sum(xs) - xs[i] + x
    decreases |xs|
  {
    var front := xs[..|xs| - 1];
    if i < |xs| - 1 {
      SumUpdate(front, i, x);
      assert xs[i := x][..|xs| - 1] == front[i := x];
    } else {
      assert xs[i := x][..|xs| - 1] == front;
    }
  }

  lemma {:induction false} SumBounds(xs: seq<nat>, i: nat)
    requires i < |xs|
    ensures xs[i] <= Sum(xs)
    decreases |xs|
  {
    if i < |xs| - 1 {
      SumBounds(xs[..|xs| - 1], i);
    }
  }

  // ---- statistics read off the representation ----

  /** The length of a term's list is the number of live documents containing it. */
  lemma DocumentFrequency(tok: Tokenizer, docs: Slots, byKey: map<string, nat>, t: string, list: seq<Posting>)
    requires KeysExact(docs, byKey) && TermExact(tok, docs, t, list)
    ensures |list| == |Containing(tok, LiveOf(docs, byKey), t)|
  {
    hide Tokens;
    var live := LiveOf(docs, byKey);
    assert forall p :: p in list ==> Owed(tok, docs, t, p);
    assert forall j :: 0 <= j < |list| ==> list[j] in list;
    CountKeys(docs, byKey, list);
    var keys := KeysIn(docs, list);
    forall k
      ensures k in keys <==> k in Containing(tok, live, t)
    {
      if k in Containing(tok, live, t) {
        var p := Posting(byKey[k], Tokens(tok, live[k])[t]);
        assert Owed(tok, docs, t, p);
        assert p in list;
        var j :| 0 <= j < |list| && list[j] == p;
      }
    }
    assert keys == Containing(tok, live, t);
  }

  function KeysIn(docs: Slots, list: seq<Posting>): set<string>
    requires forall j :: 0 <= j < |list| ==> list[j].docId < |docs| && docs[list[j].docId].Some?
  {
    set j | 0 <= j < |list| :: docs[list[j].docId].value.icao24
  }

  lemma {:induction false} CountKeys(docs: Slots, byKey: map<string, nat>, list: seq<Posting>)
    requires KeysExact(docs, byKey) && DistinctDocs(list)
    requires forall j :: 0 <= j < |list| ==> list[j].docId < |docs| && docs[list[j].docId].Some?
    ensures |KeysIn(docs, list)| == |list|
  {
    if list != [] {
      var front, last := list[..|list| - 1], list[|list| - 1];
      assert DistinctDocs(front);
      CountKeys(docs, byKey, front);
      NewKey(docs, byKey, list);
      assert KeysIn(docs, list) == KeysIn(docs, front) + {docs[last.docId].value.icao24};
    }
  }

  lemma NewKey(docs: Slots, byKey: map<string, nat>, list: seq<Posting>)
    requires KeysExact(docs, byKey) && DistinctDocs(list) && list != []
    requires forall j :: 0 <= j < |list| ==> list[j].docId < |docs| && docs[list[j].docId].Some?
    ensures docs[list[|list| - 1].docId].value.icao24 !in KeysIn(docs, list[..|list| - 1])
  {
    var last := list[|list| - 1];
    var front := list[..|list| - 1];
    forall j | 0 <= j < |front|
      ensures docs[front[j].docId].value.icao24 != docs[last.docId].value.icao24
    {
      assert list[j].docId != last.docId;
      assert byKey[docs[front[j].docId].value.icao24] == front[j].docId;
    }
  }

  ghost function LiveBelow(docs: Slots, byKey: map<string, nat>, n: nat): Corpus
    requires KeysExact(docs, byKey)
  {
    map k | k in byKey && byKey[k] < n :: docs[byKey[k]].value
  }

  lemma LiveBelowGrows(docs: Slots, byKey: map<string, nat>, n: nat)
    requires KeysExact(docs, byKey) && n < |docs|
    ensures var now, before := LiveBelow(docs, byKey, n + 1), LiveBelow(docs, byKey, n);
            if docs[n].Some? then
              docs[n].value.icao24 in now && now[docs[n].value.icao24] == docs[n].value &&
              now - {docs[n].value.icao24} == before
            else now == before
  {
  }

  lemma EmptyBelow(tok: Tokenizer, docs: Slots, byKey: map<string, nat>)
    requires KeysExact(docs, byKey)
    ensures TotalLen(tok, LiveBelow(docs, byKey, 0)) == 0
  {
    assert LiveBelow(docs, byKey, 0) == map[];
  }

  /** The running length sum is the total length of the live documents. */
  lemma {:induction false} LengthSum(tok: Tokenizer, docs: Slots, byKey: map<string, nat>, docLen: seq<nat>, n: nat)
    requires KeysExact(docs, byKey) && n <= |docs| == |docLen|
    requires forall i :: 0 <= i < |docs| ==> docLen[i] == LenOf(tok, docs[i])
    ensures TotalLen(tok, LiveBelow(docs, byKey, n)) == Sum(docLen[..n])
    decreases n
  {
    hide Tokens, TotalLen, LiveBelow, KeysExact;
    if n == 0 {
      EmptyBelow(tok, docs, byKey);
    } else {
      LengthSum(tok, docs, byKey, docLen, n - 1);
      assert docLen[..n][..n - 1] == docLen[..n - 1];
      LiveBelowGrows(docs, byKey, n - 1);
      if docs[n - 1].Some? {
        TotalLenAny(tok, LiveBelow(docs, byKey, n), docs[n - 1].value.icao24);
      }
    }
  }

  lemma TotalLength(tok: Tokenizer, docs: Slots, byKey: map<string, nat>, docLen: seq<nat>, totalLen: nat)
    requires KeysExact(docs, byKey) && LengthsExact(tok, docs, docLen, totalLen)
    ensures totalLen == TotalLen(tok, LiveOf(docs, byKey))
  {
    hide Sum, TotalLen;
    LengthSum(tok, docs, byKey, docLen, |docs|);
    assert docLen[..|docs|] == docLen;
    assert LiveBelow(docs, byKey, |docs|) == LiveOf(docs, byKey);
  }

  lemma KeyCount(docs: Slots, byKey: map<string, nat>)
    requires KeysExact(docs, byKey)
    ensures |byKey| == |LiveOf(docs, byKey)|
  {
    assert byKey.Keys == LiveOf(docs, byKey).Keys;
    assert |byKey.Keys| == |byKey| && |LiveOf(docs, byKey).Keys| == |LiveOf(docs, byKey)|;
  }

  // ---- one part at a time ----

  lemma KeyLookup(docs: Slots, byKey: map<string, nat>, k: string)
    requires KeysExact(docs, byKey) && k in byKey
    ensures byKey[k] < |docs| && docs[byKey[k]].Some? && docs[byKey[k]].value.icao24 == k
    ensures k in LiveOf(docs, byKey) && LiveOf(docs, byKey)[k] == docs[byKey[k]].value
  {
  }

  lemma KeysReplaced(docs: Slots, byKey: map<string, nat>, d: FlightDocument)
    requires KeysExact(docs, byKey) && d.icao24 in byKey
    ensures var next := docs[byKey[d.icao24] := Some(d)];
            KeysExact(next, byKey) && LiveOf(next, byKey) == LiveOf(docs, byKey)[d.icao24 := d]
  {
  }

  lemma KeysFilled(docs: Slots, byKey: map<string, nat>, i: nat, d: FlightDocument)
    requires KeysExact(docs, byKey) && d.icao24 !in byKey && i < |docs| && docs[i].None?
    ensures var next, keys := docs[i := Some(d)], byKey[d.icao24 := i];
            KeysExact(next, keys) && LiveOf(next, keys) == LiveOf(docs, byKey)[d.icao24 := d]
  {
  }

  lemma KeysGrown(docs: Slots, byKey: map<string, nat>)
    requires KeysExact(docs, byKey)
    ensures KeysExact(docs + [None], byKey) && LiveOf(docs + [None], byKey) == LiveOf(docs, byKey)
  {
  }

  lemma KeysRetired(docs: Slots, byKey: map<string, nat>, k: string)
    requires KeysExact(docs, byKey) && k in byKey
    ensures var next, keys := docs[byKey[k] := None], byKey - {k};
            KeysExact(next, keys) && LiveOf(next, keys) == LiveOf(docs, byKey) - {k}
  {
  }

  lemma FreeTaken(docs: Slots, free: seq<nat>, d: FlightDocument)
    requires FreeExact(docs, free) && free != []
    ensures var i := free[|free| - 1];
            && i < |docs| && docs[i].None?
            && FreeExact(docs[i := Some(d)], free[..|free| - 1])
  {
    var i := free[|free| - 1];
    assert i in free;
    var rest := free[..|free| - 1];
    forall j
      ensures j in rest <==> 0 <= j < |docs| && docs[i := Some(d)][j].None?
    {
      assert free == rest + [i];
      assert j in free <==> j in rest || j == i;
    }
  }

  lemma FreeUnused(docs: Slots, d: FlightDocument)
    requires FreeExact(docs, [])
    ensures FreeExact((docs + [None])[|docs| := Some(d)], [])
  {
    var next := (docs + [None])[|docs| := Some(d)];
    forall j | 0 <= j < |next|
      ensures next[j].Some?
    {
      assert j < |docs| ==> j !in [] && next[j] == docs[j];
    }
  }

  lemma FreeReplaced(docs: Slots, free: seq<nat>, i: nat, d: FlightDocument)
    requires FreeExact(docs, free) && i < |docs| && docs[i].Some?
    ensures FreeExact(docs[i := Some(d)], free)
  {
  }

  lemma FreeRetired(docs: Slots, free: seq<nat>, i: nat)
    requires FreeExact(docs, free) && i < |docs| && docs[i].Some?
    ensures FreeExact(docs[i := None], free + [i])
  {
    var more := free + [i];
    forall j
      ensures j in more <==> 0 <= j < |docs| && docs[i := None][j].None?
    {
      assert j in more <==> j in free || j == i;
    }
    assert forall j :: 0 <= j < |free| ==> free[j] in free;
  }

  lemma LengthsSet(tok: Tokenizer, docs: Slots, docLen: seq<nat>, totalLen: nat, i: nat, d: Option<FlightDocument>)
    requires LengthsExact(tok, docs, docLen, totalLen) && i < |docs|
    ensures |docLen| == |docs| && docLen[i] <= totalLen
    ensures LengthsExact(tok, docs[i := d], docLen[i := LenOf(tok, d)], totalLen - docLen[i] + LenOf(tok, d))
  {
    hide Sum, Tokens;
    SumBounds(docLen, i);
    SumUpdate(docLen, i, LenOf(tok, d));
  }

  lemma LengthsGrown(tok: Tokenizer, docs: Slots, docLen: seq<nat>, totalLen: nat)
    requires LengthsExact(tok, docs, docLen, totalLen)
    ensures LengthsExact(tok, docs + [None], docLen + [0], totalLen) && docLen + [0] != [] && (docLen + [0])[|docs|] == 0
  {
    assert (docLen + [0])[..|docLen|] == docLen;
  }

  lemma FreqLookup(ms: multiset<string>)
    ensures forall t :: (t in FreqMap(ms) <==> t in ms) && (t in ms ==> FreqMap(ms)[t] == ms[t])
  {
  }

  // ---- searching ----

  /** The score table after the given terms: the live documents matching some of them, each
      with the sum of their weights. */
  ghost predicate ScoresExact(tok: Tokenizer, p: Bm25, docs: Slots, m: Corpus, done: seq<string>, scores: map<nat, real>)
    requires p.Valid()
  {
    && (forall i: nat :: i in scores <==> i < |docs| && docs[i].Some? && Matches(tok, done, docs[i].value))
    && (forall i: nat :: i in scores ==> scores[i] == ScoreOver(tok, p, m, Distinct(done), docs[i].value))
  }

  lemma {:induction false} NoMatchNoScore(tok: Tokenizer, p: Bm25, m: Corpus, ts: seq<string>, d: FlightDocument)
    requires p.Valid() && forall t :: t in ts ==> t !in Tokens(tok, d)
    ensures ScoreOver(tok, p, m, ts, d) == 0.0
  {
    hide Tokens, Weight;
    if ts != [] {
      NoMatchNoScore(tok, p, m, ts[..|ts| - 1], d);
    }
  }

  lemma DistinctSnoc(done: seq<string>, t: string)
    ensures Distinct(done + [t]) == if t in done then Distinct(done) else Distinct(done) + [t]
  {
    assert (done + [t])[..|done|] == done;
  }

  lemma ScoreSnoc(tok: Tokenizer, p: Bm25, m: Corpus, ts: seq<string>, t: string, d: FlightDocument)
    requires p.Valid()
    ensures ScoreOver(tok, p, m, ts + [t], d) ==
            ScoreOver(tok, p, m, ts, d) + if t in Tokens(tok, d) then Weight(tok, p, m, t, d) else 0.0
  {
    hide Tokens, Weight;
    assert (ts + [t])[..|ts|] == ts;
  }

  lemma MatchesSnoc(tok: Tokenizer, done: seq<string>, t: string, d: FlightDocument)
    ensures Matches(tok, done + [t], d) <==> Matches(tok, done, d) || t in Tokens(tok, d)
  {
    hide Tokens;
    assert forall x :: x in done + [t] <==> x in done || x == t;
  }

  predicate HasTerm(tok: Tokenizer, docs: Slots, i: nat, t: string) {
    i < |docs| && docs[i].Some? && t in Tokens(tok, docs[i].value)
  }

  ghost function Grown(tok: Tokenizer, p: Bm25, docs: Slots, m: Corpus, t: string, before: map<nat, real>, i: nat): real
    requires p.Valid()
  {
    (if i in before then before[i] else 0.0) +
    (if HasTerm(tok, docs, i, t) then Weight(tok, p, m, t, docs[i].value) else 0.0)
  }

  /** A new term turns the score table of the terms before it into its own. */
  lemma ScoresGrow(tok: Tokenizer, p: Bm25, docs: Slots, m: Corpus, done: seq<string>, t: string,
                   before: map<nat, real>, after: map<nat, real>)
    requires p.Valid() && ScoresExact(tok, p, docs, m, done, before) && t !in done
    requires forall i: nat :: i in after <==> i in before || HasTerm(tok, docs, i, t)
    requires forall i: nat :: i in after ==> after[i] == Grown(tok, p, docs, m, t, before, i)
    ensures ScoresExact(tok, p, docs, m, done + [t], after)
  {
    hide Tokens, Weight, ScoreOver, Distinct, Matches;
    DistinctSnoc(done, t);
    forall i: nat | i < |docs| && docs[i].Some?
      ensures i in after <==> Matches(tok, done + [t], docs[i].value)
      ensures i in after ==> after[i] == ScoreOver(tok, p, m, Distinct(done + [t]), docs[i].value)
    {
      MatchesSnoc(tok, done, t, docs[i].value);
      ScoreSnoc(tok, p, m, Distinct(done), t, docs[i].value);
      if i !in before {
        UnmatchedScore(tok, p, m, done, docs[i].value);
      }
    }
  }

  lemma UnmatchedScore(tok: Tokenizer, p: Bm25, m: Corpus, done: seq<string>, d: FlightDocument)
    requires p.Valid() && !Matches(tok, done, d)
    ensures ScoreOver(tok, p, m, Distinct(done), d) == 0.0
  {
    hide Tokens, Weight, ScoreOver;
    DistinctMembers(done);
    NoMatchNoScore(tok, p, m, Distinct(done), d);
  }

  /** A term no live document contains, or one seen before, leaves the table as it is. */
  lemma ScoresStay(tok: Tokenizer, p: Bm25, docs: Slots, m: Corpus, done: seq<string>, t: string, scores: map<nat, real>)
    requires p.Valid() && ScoresExact(tok, p, docs, m, done, scores)
    requires t in done || forall i :: 0 <= i < |docs| && docs[i].Some? ==> t !in Tokens(tok, docs[i].value)
    ensures ScoresExact(tok, p, docs, m, done + [t], scores)
  {
    hide Tokens, Weight, ScoreOver, Distinct, Matches;
    DistinctSnoc(done, t);
    forall i: nat | i < |docs| && docs[i].Some?
      ensures Matches(tok, done + [t], docs[i].value) <==> Matches(tok, done, docs[i].value)
      ensures i in scores ==> scores[i] == ScoreOver(tok, p, m, Distinct(done + [t]), docs[i].value)
    {
      MatchesSnoc(tok, done, t, docs[i].value);
      ScoreSnoc(tok, p, m, Distinct(done), t, docs[i].value);
      if t in done && t in Tokens(tok, docs[i].value) {
        SeenTerm(tok, done, t, docs[i].value);
      }
    }
  }

  lemma SeenTerm(tok: Tokenizer, done: seq<string>, t: string, d: FlightDocument)
    requires t in done && t in Tokens(tok, d)
    ensures Matches(tok, done, d)
  {
  }

  predicate Listed(list: seq<Posting>, n: nat, i: nat) {
    exists a :: 0 <= a < n && a < |list| && list[a].docId == i
  }

  lemma ListedSnoc(list: seq<Posting>, n: nat)
    requires n < |list|
    ensures forall i: nat :: Listed(list, n + 1, i) <==> Listed(list, n, i) || i == list[n].docId
  {
    assert list[n].docId == list[n].docId;
    forall i: nat
      ensures Listed(list, n + 1, i) <==> Listed(list, n, i) || i == list[n].docId
    {
      if i == list[n].docId {
        assert Listed(list, n + 1, i);
      }
    }
  }

  lemma FullyListed(tok: Tokenizer, docs: Slots, t: string, list: seq<Posting>)
    requires TermExact(tok, docs, t, list)
    ensures forall i: nat :: Listed(list, |list|, i) <==> HasTerm(tok, docs, i, t)
  {
    hide Tokens;
    forall i: nat
      ensures Listed(list, |list|, i) <==> HasTerm(tok, docs, i, t)
    {
      if Listed(list, |list|, i) {
        var a :| 0 <= a < |list| && list[a].docId == i;
        assert list[a] in list;
        assert Owed(tok, docs, t, list[a]);
      }
      if i < |docs| && docs[i].Some? && t in Tokens(tok, docs[i].value) {
        var p := Posting(i, Tokens(tok, docs[i].value)[t]);
        assert Owed(tok, docs, t, p);
        assert p in list;
        var a :| 0 <= a < |list| && list[a] == p;
      }
    }
  }

  // ---- the index itself ----

  class InvertedIndex {
    const tok: Tokenizer
    var docs: Slots
    var postings: Postings
    var byKey: map<string, nat>
    var free: seq<nat>
    var docLen: seq<nat>
    var totalLen: nat

    ghost predicate Valid()
      reads this
    {
      && KeysExact(docs, byKey)
      && FreeExact(docs, free)
      && LengthsExact(tok, docs, docLen, totalLen)
      && PostingsExact(tok, docs, postings)
    }

    /** The documents the index holds, by aircraft. */
    function Live(): Corpus
      requires Valid()
      reads this
    {
      LiveOf(docs, byKey)
    }

    constructor (tok: Tokenizer)
      ensures this.tok == tok && Valid() && Live() == map[]
    {
      this.tok, docs, postings, byKey, free, docLen, totalLen := tok, [], map[], map[], [], [], 0;
    }

    /** Remove a slot's postings for every term of its document, dropping emptied lists. */
    method RemovePostings(docId: nat, doc: FlightDocument)
      requires forall t :: t in postings ==> postings[t] != []
      modifies this`postings
      ensures forall t ::
        (ListOf(postings, t) ==
         if t in Tokens(tok, doc) then Without(ListOf(old(postings), t), docId) else ListOf(old(postings), t))
      ensures forall t :: t in postings ==> postings[t] != []
    {
      hide Tokens, FreqMap, Without;
      var freqs := TermFreqs(tok, doc);
      FreqLookup(Tokens(tok, doc));
      ghost var p0 := postings;
      var todo := freqs.Keys;
      while todo != {}
        invariant todo <= freqs.Keys
        invariant forall t ::
          (ListOf(postings, t) ==
           if t in freqs && t !in todo then Without(ListOf(p0, t), docId) else ListOf(p0, t))
        invariant forall t :: t in postings ==> postings[t] != []
      {
        var term :| term in todo;
        EmptyWithout(docId);
        var list := Without(ListOf(postings, term), docId);
        if term in postings {
          if list == [] {
            postings := postings - {term};
          } else {
            postings := postings[term := list];
          }
        }
        todo := todo - {term};
      }
    }

    /** Add a posting for every term. */
    method AddPostings(docId: nat, freqs: map<string, nat>)
      requires forall t :: t in postings ==> postings[t] != []
      modifies this`postings
      ensures forall t ::
        (ListOf(postings, t) ==
         ListOf(old(postings), t) + if t in freqs then [Posting(docId, freqs[t])] else [])
      ensures forall t :: t in postings ==> postings[t] != []
    {
      ghost var p0 := postings;
      var todo := freqs.Keys;
      while todo != {}
        invariant todo <= freqs.Keys
        invariant forall t ::
          (ListOf(postings, t) ==
           ListOf(p0, t) + if t in freqs && t !in todo then [Posting(docId, freqs[t])] else [])
        invariant forall t :: t in postings ==> postings[t] != []
      {
        var term :| term in todo;
        postings := postings[term := ListOf(postings, term) + [Posting(docId, freqs[term])]];
        todo := todo - {term};
      }
    }

    /** Index a document into a blank slot. */
    method Fill(docId: nat, doc: FlightDocument)
      requires docId < |docs| && docs[docId].None?
      requires PostingsExact(tok, docs, postings) && LengthsExact(tok, docs, docLen, totalLen)
      modifies this`docs, this`docLen, this`totalLen, this`postings
      ensures docs == old(docs)[docId := Some(doc)]
      ensures PostingsExact(tok, docs, postings) && LengthsExact(tok, docs, docLen, totalLen)
    {
      hide Tokens, FreqMap, TermExact, LengthsExact;
      var freqs := TermFreqs(tok, doc);
      var len := SumOf(freqs, Tokens(tok, doc));
      ghost var blank, before := docs, postings;
      LengthsSet(tok, docs, docLen, totalLen, docId, Some(doc));
      assert docLen[docId] == 0 by { BlankLength(tok, docs, docLen, totalLen, docId); }
      docs, docLen := docs[docId := Some(doc)], docLen[docId := len];
      totalLen := totalLen + len;
      AddPostings(docId, freqs);
      FreqLookup(Tokens(tok, doc));
      FillAll(tok, blank, before, postings, docId, doc);
    }

    /** Upsert by aircraft: a known one is replaced in its slot, a new one takes a retired
        slot or a fresh one. */
    method Insert(doc: FlightDocument)
      requires Valid()
      modifies this
      ensures Valid()
      ensures Live() == old(Live())[doc.icao24 := doc]
      ensures |docs| == if doc.icao24 in old(byKey) || old(free) != [] then |old(docs)| else |old(docs)| + 1
    {
      hide Tokens, KeysExact, FreeExact, LengthsExact, PostingsExact, LiveOf;
      if doc.icao24 in byKey {
        var docId := byKey[doc.icao24];
        KeyLookup(docs, byKey, doc.icao24);
        KeysReplaced(docs, byKey, doc);
        FreeReplaced(docs, free, docId, doc);
        ghost var docs0 := docs;
        Blank(docId);
        Fill(docId, doc);
        assert docs == docs0[docId := Some(doc)];
        return;
      }
      var docId;
      if free != [] {
        docId := free[|free| - 1];
        FreeTaken(docs, free, doc);
        free := free[..|free| - 1];
      } else {
        docId := |docs|;
        FreeUnused(docs, doc);
        KeysGrown(docs, byKey);
        GrowAll(tok, docs, postings);
        LengthsGrown(tok, docs, docLen, totalLen);
        docs, docLen := docs + [None], docLen + [0];
      }
      KeysFilled(docs, byKey, docId, doc);
      Fill(docId, doc);
      byKey := byKey[doc.icao24 := docId];
    }

    /** Take a slot's document out, with its postings and its length. */
    method Blank(docId: nat)
      requires docId < |docs| && docs[docId].Some?
      requires PostingsExact(tok, docs, postings) && LengthsExact(tok, docs, docLen, totalLen)
      modifies this`docs, this`docLen, this`totalLen, this`postings
      ensures docs == old(docs)[docId := None]
      ensures PostingsExact(tok, docs, postings) && LengthsExact(tok, docs, docLen, totalLen)
    {
      hide Tokens, TermExact, LengthsExact;
      var doc := docs[docId].value;
      ghost var docs0, postings0 := docs, postings;
      LengthsSet(tok, docs, docLen, totalLen, docId, None);
      docs := docs[docId := None];
      RemovePostings(docId, doc);
      RetireAll(tok, docs0, postings0, postings, docId);
      totalLen := totalLen - docLen[docId];
      docLen := docLen[docId := 0];
    }

    /** Remove one aircraft: its postings go and its slot is retired for reuse. */
    method Remove(icao24: string) returns (present: bool)
      requires Valid()
      modifies this
      ensures Valid()
      ensures present == (icao24 in old(Live()))
      ensures Live() == old(Live()) - {icao24}
      ensures |docs| == |old(docs)|
    {
      hide Tokens, KeysExact, FreeExact, LengthsExact, PostingsExact;
      if icao24 !in byKey {
        return false;
      }
      var docId := byKey[icao24];
      KeyLookup(docs, byKey, icao24);
      KeysRetired(docs, byKey, icao24);
      FreeRetired(docs, free, docId);
      byKey := byKey - {icao24};
      Blank(docId);
      free := free + [docId];
      present := true;
    }

    /** What the term adds to the score of a slot. */
    ghost function W(p: Bm25, term: string, i: nat): real
      requires Valid() && p.Valid()
      reads this
    {
      if HasTerm(tok, docs, i, term) then Weight(tok, p, Live(), term, docs[i].value) else 0.0
    }

    /** What the stored frequency, length and counts amount to. */
    lemma PostingWeight(p: Bm25, term: string, a: nat)
      requires Valid() && p.Valid() && a < |ListOf(postings, term)|
      ensures var list := ListOf(postings, term);
              var i := list[a].docId;
              && i < |docs| == |docLen| && HasTerm(tok, docs, i, term) && list[a].termFreq > 0
              && Idf(p, |byKey|, |list|) * Norm(p, list[a].termFreq, docLen[i], AvgLen(totalLen, |byKey|)) == W(p, term, i)
    {
      hide Tokens, FreeExact, Idf, Norm, AvgLen, LiveOf, TotalLen, Sum;
      var list := ListOf(postings, term);
      assert TermExact(tok, docs, term, list);
      DocumentFrequency(tok, docs, byKey, term, list);
      TotalLength(tok, docs, byKey, docLen, totalLen);
      KeyCount(docs, byKey);
      assert list[a] in list;
      assert Owed(tok, docs, term, list[a]);
    }

    /** Fold one new query term into the score table. */
    method ScoreTerm(p: Bm25, term: string, scores: map<nat, real>, ghost done: seq<string>) returns (out: map<nat, real>)
      requires Valid() && p.Valid() && term !in done
      requires ScoresExact(tok, p, docs, Live(), done, scores)
      ensures ScoresExact(tok, p, docs, Live(), done + [term], out)
    {
      hide Tokens, ScoreOver, Matches, Idf, Norm, AvgLen, Listed, LiveOf, W, Valid, HasTerm, ScoresExact, Weight;
      var list := ListOf(postings, term);
      var n := |byKey|;
      var avg := AvgLen(totalLen, n);
      var df := |list|;
      var idf := Idf(p, n, df);
      out := scores;
      NoneListed(list);
      for a := 0 to |list|
        invariant forall i: nat :: i in out <==> i in scores || Listed(list, a, i)
        invariant forall i: nat :: i in out ==>
          (out[i] == (if i in scores then scores[i] else 0.0) + (if Listed(list, a, i) then W(p, term, i) else 0.0))
      {
        var posting := list[a];
        PostingWeight(p, term, a);
        ListedSnoc(list, a);
        assert !Listed(list, a, posting.docId) by { OnceListed(term, a); }
        var tf, dl := posting.termFreq, docLen[posting.docId];
        var weight := idf * Norm(p, tf, dl, avg);
        out := out[posting.docId := (if posting.docId in out then out[posting.docId] else 0.0) + weight];
      }
      AllListed(p, term);
      ScoresGrow(tok, p, docs, Live(), done, term, scores, out);
    }

    lemma OnceListed(term: string, a: nat)
      requires Valid() && a < |ListOf(postings, term)|
      ensures !Listed(ListOf(postings, term), a, ListOf(postings, term)[a].docId)
    {
      assert TermExact(tok, docs, term, ListOf(postings, term));
      ListedOnce(ListOf(postings, term), a);
    }

    lemma AllListed(p: Bm25, term: string)
      requires Valid() && p.Valid()
      ensures var list := ListOf(postings, term);
              forall i: nat :: Listed(list, |list|, i) <==> HasTerm(tok, docs, i, term)
      ensures forall i: nat, before: map<nat, real> ::
        (Grown(tok, p, docs, Live(), term, before, i) ==
         (if i in before then before[i] else 0.0) + (if HasTerm(tok, docs, i, term) then W(p, term, i) else 0.0))
    {
      hide Tokens, Weight;
      var list := ListOf(postings, term);
      assert TermExact(tok, docs, term, list);
      FullyListed(tok, docs, term, list);
    }

    /** Search: OR over the query terms, BM25 scores, ranked, cut to the limit. */
    method Search(p: Bm25, query: string, limit: nat) returns (totalMatched: nat, hits: seq<Hit<FlightDocument>>)
      requires Valid() && p.Valid()
      ensures totalMatched == |KeywordSpec.Scan(tok, p, Live(), tok(query))|
      ensures hits == SearchHits(tok, p, Live(), query, limit)
    {
      hide Tokens, ScoreOver, Matches, Valid, RankedValues, Rank, Distinct, ScoresExact;
      var terms := tok(query);
      if terms == [] {
        EmptyScan(tok, p, Live());
        return 0, [];
      }
      var scores := ScoreTerms(p, terms);
      totalMatched := |scores|;
      hits := Collect(p, terms, scores);
      RankOfListing(hits, KeywordSpec.Scan(tok, p, Live(), terms));
      hits := Rank(hits);
      if limit != 0 && |hits| > limit {
        hits := hits[..limit];
      }
    }

    /** Score each distinct query term once. */
    method ScoreTerms(p: Bm25, terms: seq<string>) returns (scores: map<nat, real>)
      requires Valid() && p.Valid()
      ensures ScoresExact(tok, p, docs, Live(), terms, scores)
    {
      hide Tokens, ScoreOver, Matches, KeysExact, FreeExact, PostingsExact, LengthsExact, Distinct, ScoresExact, LiveOf;
      var seen: set<string> := {};
      scores := map[];
      assert terms[..0] == [];
      NoTermsNoScores(tok, p, docs, Live());
      for j := 0 to |terms|
        invariant forall t :: t in seen <==> t in terms[..j]
        invariant ScoresExact(tok, p, docs, Live(), terms[..j], scores)
      {
        var term := terms[j];
        assert terms[..j + 1] == terms[..j] + [term];
        if term in seen {
          ScoresStay(tok, p, docs, Live(), terms[..j], term, scores);
        } else {
          seen := seen + {term};
          if term in postings {
            scores := ScoreTerm(p, term, scores, terms[..j]);
          } else {
            NowhereFound(tok, docs, postings, term);
            ScoresStay(tok, p, docs, Live(), terms[..j], term, scores);
          }
        }
      }
      assert terms[..|terms|] == terms;
    }

    /** The scored slots as hits, in whatever order the hash map yields them. */
    method Collect(p: Bm25, terms: seq<string>, scores: map<nat, real>) returns (hits: seq<Hit<FlightDocument>>)
      requires Valid() && p.Valid() && ScoresExact(tok, p, docs, Live(), terms, scores)
      ensures Lists(hits, KeywordSpec.Scan(tok, p, Live(), terms)) && KeyedById(KeywordSpec.Scan(tok, p, Live(), terms))
      ensures |scores| == |KeywordSpec.Scan(tok, p, Live(), terms)|
    {
      hide Tokens, ScoreOver, Matches, Valid, Distinct, KeywordSpec.Scan, ScoresExact;
      ghost var table := KeywordSpec.Scan(tok, p, Live(), terms);
      ScoredSlots(p, terms, scores);
      hits := [];
      var todo := scores.Keys;
      while todo != {}
        invariant todo <= scores.Keys
        invariant DistinctIds(hits)
        invariant |hits| + |todo| == |scores|
        invariant forall h :: h in hits <==> h.id in table && byKey[h.id] !in todo && table[h.id] == h
      {
        var i :| i in todo;
        var doc := docs[i].value;
        var hit := Hit(doc.icao24, scores[i], doc);
        assert forall a :: 0 <= a < |hits| ==> hits[a] in hits;
        hits := hits + [hit];
        todo := todo - {i};
      }
      ListingSize(hits, table);
    }

    /** Slot i holds a live document listed in the table with this score. */
    ghost predicate Scored(table: Table<FlightDocument>, i: nat, score: real)
      reads this
    {
      && i < |docs| && docs[i].Some?
      && var d := docs[i].value;
      && d.icao24 in byKey && byKey[d.icao24] == i
      && d.icao24 in table && table[d.icao24] == Hit(d.icao24, score, d)
    }

    lemma ScoredSlots(p: Bm25, terms: seq<string>, scores: map<nat, real>)
      requires Valid() && p.Valid() && ScoresExact(tok, p, docs, Live(), terms, scores)
      ensures var table := KeywordSpec.Scan(tok, p, Live(), terms);
              && KeyedById(table)
              && (forall i :: i in scores ==> Scored(table, i, scores[i]))
              && (forall k :: k in table ==> k in byKey && byKey[k] in scores && docs[byKey[k]].value.icao24 == k)
    {
      hide Tokens, ScoreOver, Matches, Distinct, FreeExact, LengthsExact, PostingsExact;
    }

    /** Every stored document, in slot order. */
    method Documents() returns (out: seq<FlightDocument>)
      requires Valid()
      ensures forall d :: d in out <==> d.icao24 in Live() && Live()[d.icao24] == d
      ensures forall i, j :: 0 <= i < j < |out| ==> out[i].icao24 != out[j].icao24
    {
      hide Tokens, FreeExact, PostingsExact, LengthsExact;
      out := [];
      for i := 0 to |docs|
        invariant forall d :: d in out <==> d.icao24 in Live() && byKey[d.icao24] < i && Live()[d.icao24] == d
        invariant forall a, b :: 0 <= a < b < |out| ==> out[a].icao24 != out[b].icao24
      {
        if docs[i].Some? {
          assert forall a :: 0 <= a < |out| ==> out[a] in out;
          out := out + [docs[i].value];
        }
      }
    }
  }

  lemma ListingSize(hits: seq<Hit<FlightDocument>>, table: Table<FlightDocument>)
    requires KeyedById(table) && Lists(hits, table)
    ensures |hits| == |table|
  {
    hide Rank, RankedValues;
    RankOfListing(hits, table);
    RankedValuesSize(table);
  }

  lemma NoneListed(list: seq<Posting>)
    ensures forall i: nat :: !Listed(list, 0, i)
  {
  }

  lemma ListedOnce(list: seq<Posting>, a: nat)
    requires DistinctDocs(list) && a < |list|
    ensures !Listed(list, a, list[a].docId)
  {
  }

  lemma EmptyScan(tok: Tokenizer, p: Bm25, m: Corpus)
    requires p.Valid()
    ensures KeywordSpec.Scan(tok, p, m, []) == map[] && RankedValues(KeywordSpec.Scan(tok, p, m, [])) == []
  {
  }

  lemma NoTermsNoScores(tok: Tokenizer, p: Bm25, docs: Slots, m: Corpus)
    requires p.Valid()
    ensures ScoresExact(tok, p, docs, m, [], map[])
  {
  }

  lemma NowhereFound(tok: Tokenizer, docs: Slots, postings: Postings, t: string)
    requires PostingsExact(tok, docs, postings) && t !in postings
    ensures forall i :: 0 <= i < |docs| && docs[i].Some? ==> t !in Tokens(tok, docs[i].value)
  {
    hide Tokens;
    assert TermExact(tok, docs, t, ListOf(postings, t));
    forall i | 0 <= i < |docs| && docs[i].Some?
      ensures t !in Tokens(tok, docs[i].value)
    {
      assert !Owed(tok, docs, t, Posting(i, Tokens(tok, docs[i].value)[t]));
    }
  }

  lemma EmptyWithout(docId: nat)
    ensures Without([], docId) == []
  {
  }

  lemma BlankLength(tok: Tokenizer, docs: Slots, docLen: seq<nat>, totalLen: nat, i: nat)
    requires LengthsExact(tok, docs, docLen, totalLen) && i < |docs| && docs[i].None?
    ensures |docLen| == |docs| && docLen[i] == 0
  {
  }
}
