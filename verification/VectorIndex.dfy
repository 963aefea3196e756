/**
 The vector index: slots with upserts, tombstones and a threshold-driven rebuild. The HNSW
 graph is kept only as the list of points inserted into it; its answers are arbitrary.
 */
module VectorIndices {
  import opened Prelude
  import opened Ranking
  import opened Documents
  import opened Quantize
  import opened KeywordSpec
  import opened ShardSpecs

  const FLAT_SEARCH_THRESHOLD: nat := 256
  const REBUILD_MIN_TOMBSTONES: nat := 16
  const REBUILD_TOMBSTONE_RATIO: real := 0.25

  datatype Embedder = Embedder(embed: string -> seq<real>)

  /** The generic text fields follow in their map's iteration order. */
  function WithFields(text: string, fields: seq<TextField>): string {
    if fields == [] then text else WithFields(text, fields[..|fields| - 1]) + " " + fields[|fields| - 1].value
  }

  /** The text a document is embedded from. */
  function EmbeddableText(d: FlightDocument): string {
    WithFields(d.callsign + " " + d.origin + " " + d.destination + " " + d.aircraftType, d.text)
  }

  function VectorOf(e: Embedder, d: FlightDocument): seq<real> {
    e.embed(EmbeddableText(d))
  }

  function DotBelow(a: seq<real>, b: seq<real>, n: nat): real
    requires n <= |a| && n <= |b|
  {
    if n == 0 then 0.0 else DotBelow(a, b, n - 1) + a[n - 1] * b[n - 1]
  }

  function Dot(a: seq<real>, b: seq<real>): real {
    DotBelow(a, b, Shorter(|a|, |b|))
  }

  /** truncate(k) */
  function Take<T>(k: nat, xs: seq<T>): seq<T> {
    if |xs| > k then xs[..k] else xs
  }

  // ---- what the searches must agree with ----

  function HitFor(e: Embedder, query: seq<real>, d: FlightDocument): Hit<FlightDocument> {
    Hit(d.icao24, Dot(query, VectorOf(e, d)), d)
  }

  /** The exact scores of the given live documents. */
  ghost function Scored(e: Embedder, m: Corpus, query: seq<real>, among: set<string>): Table<FlightDocument> {
    map k | k in m && k in among :: Hit(k, Dot(query, VectorOf(e, m[k])), m[k])
  }

  /** The exact top k of the live documents. */
  ghost function FlatTop(e: Embedder, m: Corpus, query: seq<real>, k: nat): seq<Hit<FlightDocument>> {
    Take(k, RankedValues(Scored(e, m, query, m.Keys)))
  }

  function Distance(e: Embedder, query: seq<real>, d: FlightDocument): nat {
    Hamming(Quantized(query), Quantized(VectorOf(e, d)))
  }

  /** No live document outside the candidates is nearer, in sign bits, than one inside. */
  ghost predicate HammingMinimal(e: Embedder, m: Corpus, query: seq<real>, among: set<string>) {
    among <= m.Keys &&
    forall a, b :: a in among && b in m && b !in among ==> Distance(e, query, m[a]) <= Distance(e, query, m[b])
  }

  // ---- the candidate sort of the quantized scan ----

  datatype Candidate = Candidate(distance: nat, slot: nat)

  ghost predicate ByDistance(cs: seq<Candidate>) {
    forall i, j :: 0 <= i < j < |cs| ==> cs[i].distance <= cs[j].distance
  }

  function PlaceCandidate(c: Candidate, cs: seq<Candidate>): seq<Candidate> {
    if cs == [] || c.distance <= cs[0].distance then [c] + cs else [cs[0]] + PlaceCandidate(c, cs[1..])
  }

  function SortCandidates(cs: seq<Candidate>): seq<Candidate> {
    if cs == [] then [] else PlaceCandidate(cs[0], SortCandidates(cs[1..]))
  }

  lemma NearestFirst(c: Candidate, cs: seq<Candidate>)
    requires cs != [] ==> c.distance <= cs[0].distance
    ensures ByDistance(cs) ==> ByDistance([c] + cs)
  {
  }

  lemma NearestStays(cs: seq<Candidate>)
    requires cs != []
    ensures ByDistance(cs) ==> ByDistance(cs[1..]) && (|cs| > 1 ==> cs[0].distance <= cs[1].distance)
  {
  }

  lemma {:induction false} PlaceCandidateKeeps(c: Candidate, cs: seq<Candidate>)
    ensures multiset(PlaceCandidate(c, cs)) == multiset{c} + multiset(cs)
    ensures PlaceCandidate(c, cs)[0] == c || (cs != [] && PlaceCandidate(c, cs)[0] == cs[0])
    ensures ByDistance(cs) ==> ByDistance(PlaceCandidate(c, cs))
  {
    hide ByDistance;
    if cs == [] || c.distance <= cs[0].distance {
      NearestFirst(c, cs);
    } else {
      PlaceCandidateKeeps(c, cs[1..]);
      assert cs == [cs[0]] + cs[1..];
      NearestStays(cs);
      if ByDistance(cs) {
        NearestFirst(cs[0], PlaceCandidate(c, cs[1..]));
      }
    }
  }

  lemma {:induction false} SortCandidatesSorts(cs: seq<Candidate>)
    ensures multiset(SortCandidates(cs)) == multiset(cs) && ByDistance(SortCandidates(cs))
  {
    if cs != [] {
      SortCandidatesSorts(cs[1..]);
      PlaceCandidateKeeps(cs[0], SortCandidates(cs[1..]));
      assert cs == [cs[0]] + cs[1..];
    }
  }

  /** An unstable sort: callers may rely on nothing but this contract. */
  method SortByDistance(cs: seq<Candidate>) returns (out: seq<Candidate>)
    ensures multiset(out) == multiset(cs) && ByDistance(out)
  {
    SortCandidatesSorts(cs);
    out := SortCandidates(cs);
  }

  // ---- the deduplicating walk over graph neighbours ----

  /** Neighbours whose slot is live and appears for the first time. */
  function FirstLive(neighbours: seq<(nat, real)>, dead: set<nat>): seq<(nat, real)> {
    if neighbours == [] then []
    else
      var front, last := neighbours[..|neighbours| - 1], neighbours[|neighbours| - 1];
      var seen := FirstLive(front, dead);
      if last.0 in dead || (exists j :: 0 <= j < |front| && front[j].0 == last.0) then seen else seen + [last]
  }

  lemma {:induction false} FirstLivePrefix(neighbours: seq<(nat, real)>, dead: set<nat>, i: nat)
    requires i <= |neighbours|
    ensures IsPrefix(FirstLive(neighbours[..i], dead), FirstLive(neighbours, dead))
    decreases |neighbours|
  {
    if i == |neighbours| {
      assert neighbours[..i] == neighbours;
    } else {
      var front := neighbours[..|neighbours| - 1];
      FirstLivePrefix(front, dead, i);
      assert front[..i] == neighbours[..i];
    }
  }

  /** The walk's survivors are distinct live slots. */
  lemma {:induction false} FirstLiveIsDistinct(neighbours: seq<(nat, real)>, dead: set<nat>)
    ensures forall x :: x in FirstLive(neighbours, dead) ==> x in neighbours && x.0 !in dead
    ensures forall i, j :: 0 <= i < j < |FirstLive(neighbours, dead)| ==>
              FirstLive(neighbours, dead)[i].0 != FirstLive(neighbours, dead)[j].0
  {
    if neighbours != [] {
      var front, last := neighbours[..|neighbours| - 1], neighbours[|neighbours| - 1];
      FirstLiveIsDistinct(front, dead);
      var seen := FirstLive(front, dead);
      assert forall x :: x in front ==> x in neighbours;
      forall i | 0 <= i < |seen|
        ensures seen[i].0 == last.0 ==> exists j :: 0 <= j < |front| && front[j].0 == last.0
      {
        assert seen[i] in front;
      }
    }
  }

  // ---- the representation invariant, part by part ----

  /** Every slot is the one slot of a live key or tombstoned, never both. */
  ghost predicate SlotsExact(docs: seq<FlightDocument>, byKey: map<string, nat>, dead: set<nat>) {
    && (forall k :: k in byKey ==> byKey[k] < |docs| && docs[byKey[k]].icao24 == k && byKey[k] !in dead)
    && (forall s :: 0 <= s < |docs| ==> s in dead || (docs[s].icao24 in byKey && byKey[docs[s].icao24] == s))
    && (forall s :: s in dead ==> s < |docs|)
    && |docs| == |byKey| + |dead|
  }

  /** Texts, vectors and quantized forms follow the stored document. */
  ghost predicate Lockstep(e: Embedder, docs: seq<FlightDocument>, texts: seq<string>,
                           vectors: seq<seq<real>>, quantized: seq<QuantizedVector>) {
    && |texts| == |vectors| == |quantized| == |docs|
    && forall s :: 0 <= s < |docs| ==>
         && texts[s] == EmbeddableText(docs[s])
         && vectors[s] == VectorOf(e, docs[s])
         && quantized[s] == Quantized(VectorOf(e, docs[s]))
  }

  type Point = (seq<real>, nat)

  /** The graph's points name existing slots, and each slot's current vector is among them. */
  ghost predicate GraphCovers(vectors: seq<seq<real>>, graph: seq<Point>) {
    && (forall p :: p in graph ==> p.1 < |vectors|)
    && (forall s :: 0 <= s < |vectors| ==> (vectors[s], s) in graph)
  }

  function LiveOf(docs: seq<FlightDocument>, byKey: map<string, nat>, dead: set<nat>): Corpus
    requires SlotsExact(docs, byKey, dead)
  {
    map k | k in byKey :: docs[byKey[k]]
  }

  lemma SlotLookup(docs: seq<FlightDocument>, byKey: map<string, nat>, dead: set<nat>, k: string)
    requires SlotsExact(docs, byKey, dead) && k in byKey
    ensures byKey[k] < |docs| && docs[byKey[k]].icao24 == k && byKey[k] !in dead
    ensures k in LiveOf(docs, byKey, dead) && LiveOf(docs, byKey, dead)[k] == docs[byKey[k]]
  {
  }

  lemma SlotsReplaced(docs: seq<FlightDocument>, byKey: map<string, nat>, dead: set<nat>, d: FlightDocument)
    requires SlotsExact(docs, byKey, dead) && d.icao24 in byKey
    ensures var next := docs[byKey[d.icao24] := d];
            SlotsExact(next, byKey, dead) && LiveOf(next, byKey, dead) == LiveOf(docs, byKey, dead)[d.icao24 := d]
  {
  }

  lemma OneKeyMore(byKey: map<string, nat>, k: string, s: nat)
    requires k !in byKey
    ensures |byKey[k := s]| == |byKey| + 1
  {
    var keys := byKey[k := s];
    assert keys.Keys == byKey.Keys + {k};
    assert |byKey.Keys| == |byKey| && |keys.Keys| == |keys|;
  }

  lemma SlotsAppended(docs: seq<FlightDocument>, byKey: map<string, nat>, dead: set<nat>, d: FlightDocument)
    requires SlotsExact(docs, byKey, dead) && d.icao24 !in byKey
    ensures var next, keys := docs + [d], byKey[d.icao24 := |docs|];
            && SlotsExact(next, keys, dead) && |keys| == |byKey| + 1
            && LiveOf(next, keys, dead) == LiveOf(docs, byKey, dead)[d.icao24 := d]
  {
    var next, keys := docs + [d], byKey[d.icao24 := |docs|];
    OneKeyMore(byKey, d.icao24, |docs|);
    assert next[|docs|] == d;
    assert SlotsExact(next, keys, dead) by {
      forall s | 0 <= s < |next|
        ensures s in dead || (next[s].icao24 in keys && keys[next[s].icao24] == s)
      {
        if s < |docs| {
          assert next[s] == docs[s];
        }
      }
    }
  }

  lemma OneKeyLess(byKey: map<string, nat>, k: string)
    requires k in byKey
    ensures |byKey - {k}| == |byKey| - 1
  {
    var keys := byKey - {k};
    assert byKey.Keys == keys.Keys + {k};
    assert |byKey.Keys| == |byKey| && |keys.Keys| == |keys|;
  }

  lemma SlotsRetired(docs: seq<FlightDocument>, byKey: map<string, nat>, dead: set<nat>, k: string)
    requires SlotsExact(docs, byKey, dead) && k in byKey
    ensures var keys, gone := byKey - {k}, dead + {byKey[k]};
            && SlotsExact(docs, keys, gone) && |keys| == |byKey| - 1 && |gone| == |dead| + 1
            && LiveOf(docs, keys, gone) == LiveOf(docs, byKey, dead) - {k}
  {
    var keys, gone := byKey - {k}, dead + {byKey[k]};
    OneKeyLess(byKey, k);
    assert SlotsExact(docs, keys, gone) by {
      forall a | a in keys
        ensures a in byKey && byKey[a] !in gone
      {
        assert docs[byKey[a]].icao24 == a && docs[byKey[k]].icao24 == k;
      }
    }
  }

  lemma LockReplaced(e: Embedder, docs: seq<FlightDocument>, texts: seq<string>, vectors: seq<seq<real>>,
                     quantized: seq<QuantizedVector>, s: nat, d: FlightDocument)
    requires Lockstep(e, docs, texts, vectors, quantized) && s < |docs|
    ensures |texts| == |vectors| == |quantized| == |docs|
    ensures texts[s] == EmbeddableText(d) ==> Lockstep(e, docs[s := d], texts, vectors, quantized)
    ensures Lockstep(e, docs[s := d], texts[s := EmbeddableText(d)], vectors[s := VectorOf(e, d)],
                     quantized[s := Quantized(VectorOf(e, d))])
  {
    hide Quantized;
  }

  lemma LockAppended(e: Embedder, docs: seq<FlightDocument>, texts: seq<string>, vectors: seq<seq<real>>,
                     quantized: seq<QuantizedVector>, d: FlightDocument)
    requires Lockstep(e, docs, texts, vectors, quantized)
    ensures |vectors| == |docs|
    ensures Lockstep(e, docs + [d], texts + [EmbeddableText(d)], vectors + [VectorOf(e, d)],
                     quantized + [Quantized(VectorOf(e, d))])
  {
    hide Quantized;
  }

  lemma GraphReplaced(vectors: seq<seq<real>>, graph: seq<Point>, s: nat, v: seq<real>)
    requires GraphCovers(vectors, graph) && s < |vectors|
    ensures GraphCovers(vectors[s := v], graph + [(v, s)])
  {
    var more := graph + [(v, s)];
    assert more[|graph|] == (v, s);
    assert forall p :: p in more <==> p in graph || p == (v, s);
  }

  lemma GraphAppended(vectors: seq<seq<real>>, graph: seq<Point>, v: seq<real>)
    requires GraphCovers(vectors, graph)
    ensures GraphCovers(vectors + [v], graph + [(v, |vectors|)])
  {
    var more := graph + [(v, |vectors|)];
    assert more[|graph|] == (v, |vectors|);
    assert forall p :: p in more <==> p in graph || p == (v, |vectors|);
  }

  function AtLeastOne(n: nat): nat {
    if n == 0 then 1 else n
  }

  lemma ThresholdIsQuarter(dead: nat, live: nat)
    ensures dead as real >= AtLeastOne(live) as real * REBUILD_TOMBSTONE_RATIO <==> 4 * dead >= AtLeastOne(live)
    ensures AtLeastOne(live) >= live && (dead >= 1 && 4 * dead >= live ==> 4 * dead >= AtLeastOne(live))
  {
  }

  lemma LiveKeys(docs: seq<FlightDocument>, byKey: map<string, nat>, dead: set<nat>)
    requires SlotsExact(docs, byKey, dead)
    ensures LiveOf(docs, byKey, dead).Keys == byKey.Keys
  {
  }

  // ---- the searches ----

  /** Each live slot once, with its Hamming distance to the query. */
  ghost predicate ListsSlots(e: Embedder, query: seq<real>, docs: seq<FlightDocument>, byKey: map<string, nat>,
                             cs: seq<Candidate>, n: nat) {
    && (forall c :: c in cs ==>
          && c.slot < |docs| && c.slot < n
          && docs[c.slot].icao24 in byKey && byKey[docs[c.slot].icao24] == c.slot
          && c.distance == Distance(e, query, docs[c.slot]))
    && (forall k :: k in byKey && byKey[k] < n && byKey[k] < |docs| ==>
          Candidate(Distance(e, query, docs[byKey[k]]), byKey[k]) in cs)
    && (forall c :: multiset(cs)[c] <= 1)
  }

  lemma SlotSkipped(e: Embedder, query: seq<real>, docs: seq<FlightDocument>, byKey: map<string, nat>, dead: set<nat>,
                    cs: seq<Candidate>, s: nat)
    requires SlotsExact(docs, byKey, dead) && s < |docs| && s in dead && ListsSlots(e, query, docs, byKey, cs, s)
    ensures ListsSlots(e, query, docs, byKey, cs, s + 1)
  {
    hide Distance;
  }

  lemma SlotListed(e: Embedder, query: seq<real>, docs: seq<FlightDocument>, byKey: map<string, nat>, dead: set<nat>,
                   cs: seq<Candidate>, s: nat)
    requires SlotsExact(docs, byKey, dead) && s < |docs| && s !in dead && ListsSlots(e, query, docs, byKey, cs, s)
    ensures ListsSlots(e, query, docs, byKey, cs + [Candidate(Distance(e, query, docs[s]), s)], s + 1)
  {
    hide Distance;
    var c := Candidate(Distance(e, query, docs[s]), s);
    var more := cs + [c];
    assert c !in cs;
    assert multiset(more) == multiset(cs) + multiset{c};
    assert forall x :: x in more <==> x in cs || x == c;
  }

  lemma SlotsPermuted(e: Embedder, query: seq<real>, docs: seq<FlightDocument>, byKey: map<string, nat>,
                      cs: seq<Candidate>, out: seq<Candidate>, n: nat)
    requires ListsSlots(e, query, docs, byKey, cs, n) && multiset(out) == multiset(cs)
    ensures ListsSlots(e, query, docs, byKey, out, n) && |out| == |cs|
  {
    hide Distance;
    SameLength(out, cs);
    assert forall c :: c in out <==> c in multiset(out);
    assert forall c :: c in cs <==> c in multiset(cs);
  }

  /** The aircraft of the first n candidates. */
  function KeysOf(docs: seq<FlightDocument>, cs: seq<Candidate>, n: nat): set<string>
    requires n <= |cs| && forall c :: c in cs ==> c.slot < |docs|
  {
    set i | 0 <= i < n :: docs[cs[i].slot].icao24
  }

  lemma DistinctCandidates(e: Embedder, query: seq<real>, docs: seq<FlightDocument>, byKey: map<string, nat>,
                           cs: seq<Candidate>, i: nat, j: nat)
    requires ListsSlots(e, query, docs, byKey, cs, |docs|) && i < |cs| && j < |cs| && i != j
    ensures cs[i].slot < |docs| && cs[j].slot < |docs|
    ensures docs[cs[i].slot].icao24 != docs[cs[j].slot].icao24
  {
    hide Distance;
    assert cs[i] in cs && cs[j] in cs;
    if cs[i] == cs[j] {
      TwiceInMultiset(cs, if i < j then i else j, if i < j then j else i);
    }
  }

  lemma OneKeyFurther(e: Embedder, query: seq<real>, docs: seq<FlightDocument>, byKey: map<string, nat>,
                      cs: seq<Candidate>, n: nat)
    requires ListsSlots(e, query, docs, byKey, cs, |docs|) && n < |cs|
    ensures cs[n].slot < |docs| && docs[cs[n].slot].icao24 !in KeysOf(docs, cs, n)
    ensures KeysOf(docs, cs, n + 1) == KeysOf(docs, cs, n) + {docs[cs[n].slot].icao24}
  {
    hide ListsSlots;
    SlotBounds(e, query, docs, byKey, cs);
    assert cs[n] in cs;
    forall i | 0 <= i < n
      ensures cs[i].slot < |docs| && docs[cs[i].slot].icao24 != docs[cs[n].slot].icao24
    {
      DistinctCandidates(e, query, docs, byKey, cs, i, n);
    }
  }

  lemma {:induction false} KeysCount(e: Embedder, query: seq<real>, docs: seq<FlightDocument>, byKey: map<string, nat>,
                                     cs: seq<Candidate>, n: nat)
    requires ListsSlots(e, query, docs, byKey, cs, |docs|) && n <= |cs|
    ensures (forall c :: c in cs ==> c.slot < |docs|) && |KeysOf(docs, cs, n)| == n
  {
    hide ListsSlots, KeysOf;
    SlotBounds(e, query, docs, byKey, cs);
    if n == 0 {
      NoneRescored(docs, cs);
    } else {
      KeysCount(e, query, docs, byKey, cs, n - 1);
      OneKeyFurther(e, query, docs, byKey, cs, n - 1);
    }
  }

  /** The first n candidates of the distance order are Hamming-minimal. */
  lemma NearestAreMinimal(e: Embedder, query: seq<real>, docs: seq<FlightDocument>, byKey: map<string, nat>,
                          dead: set<nat>, cs: seq<Candidate>, n: nat)
    requires SlotsExact(docs, byKey, dead) && ListsSlots(e, query, docs, byKey, cs, |docs|) && ByDistance(cs) && n <= |cs|
    ensures HammingMinimal(e, LiveOf(docs, byKey, dead), query, KeysOf(docs, cs, n))
    ensures KeysOf(docs, cs, n) <= LiveOf(docs, byKey, dead).Keys
    ensures n == |cs| ==> KeysOf(docs, cs, n) == LiveOf(docs, byKey, dead).Keys
  {
    hide Distance;
    var m, among := LiveOf(docs, byKey, dead), KeysOf(docs, cs, n);
    forall b | b in m && b !in among
      ensures n < |cs| && forall a :: a in among ==> Distance(e, query, m[a]) <= Distance(e, query, m[b])
    {
      var c := Candidate(Distance(e, query, docs[byKey[b]]), byKey[b]);
      assert c in cs;
      var j :| 0 <= j < |cs| && cs[j] == c;
    }
  }

  /** The hits read off a list of candidates. */
  lemma RescoreOne(e: Embedder, query: seq<real>, docs: seq<FlightDocument>, byKey: map<string, nat>, dead: set<nat>,
                   cs: seq<Candidate>, n: nat, hits: seq<Hit<FlightDocument>>)
    requires SlotsExact(docs, byKey, dead) && ListsSlots(e, query, docs, byKey, cs, |docs|) && n < |cs|
    requires Lists(hits, Scored(e, LiveOf(docs, byKey, dead), query, KeysOf(docs, cs, n)))
    ensures cs[n] in cs && cs[n].slot < |docs|
    ensures Lists(hits + [HitFor(e, query, docs[cs[n].slot])],
                  Scored(e, LiveOf(docs, byKey, dead), query, KeysOf(docs, cs, n + 1)))
  {
    hide Distance, Dot, VectorOf;
    var m := LiveOf(docs, byKey, dead);
    OneKeyFurther(e, query, docs, byKey, cs, n);
    var d := docs[cs[n].slot];
    assert cs[n] in cs;
    ListOneMore(e, m, query, KeysOf(docs, cs, n), d, hits);
  }

  lemma ListOneMore(e: Embedder, m: Corpus, query: seq<real>, among: set<string>, d: FlightDocument,
                    hits: seq<Hit<FlightDocument>>)
    requires Lists(hits, Scored(e, m, query, among))
    requires d.icao24 in m && m[d.icao24] == d && d.icao24 !in among
    ensures Lists(hits + [HitFor(e, query, d)], Scored(e, m, query, among + {d.icao24}))
  {
    hide Dot, VectorOf;
    var more := hits + [HitFor(e, query, d)];
    assert forall i :: 0 <= i < |hits| ==> hits[i] in hits;
    assert forall h :: h in more <==> h in hits || h == HitFor(e, query, d);
  }

  lemma ScoredIsKeyed(e: Embedder, m: Corpus, query: seq<real>, among: set<string>)
    ensures KeyedById(Scored(e, m, query, among))
    ensures among <= m.Keys ==> |Scored(e, m, query, among)| == |among|
  {
    var table := Scored(e, m, query, among);
    if among <= m.Keys {
      assert table.Keys == among;
      assert |table.Keys| == |table|;
    }
  }

  /** Ranking a listing of the scored documents and cutting it. */
  lemma TopOfListing(e: Embedder, m: Corpus, query: seq<real>, among: set<string>, hits: seq<Hit<FlightDocument>>, k: nat)
    requires Lists(hits, Scored(e, m, query, among)) && among <= m.Keys
    ensures Take(k, Rank(hits)) == Take(k, RankedValues(Scored(e, m, query, among))) && |hits| == |among|
    ensures SoundHits(m, Take(k, Rank(hits)), k)
  {
    hide Rank, RankedValues, Scored, Lists, Take, SoundHits;
    var table := Scored(e, m, query, among);
    ScoredIsKeyed(e, m, query, among);
    RankOfListing(hits, table);
    RankedValuesSize(table);
    RankedValuesRank(table);
    TopIsSound(e, m, query, among, RankedValues(table), k);
  }

  lemma TopIsSound(e: Embedder, m: Corpus, query: seq<real>, among: set<string>, hits: seq<Hit<FlightDocument>>, k: nat)
    requires Lists(hits, Scored(e, m, query, among))
    ensures SoundHits(m, Take(k, hits), k)
  {
    hide Dot, VectorOf;
    assert forall i :: 0 <= i < |hits| ==> hits[i] in hits;
  }

  /** At most k hits, for distinct aircraft, each with its current stored document. */
  ghost predicate SoundHits(m: Corpus, hits: seq<Hit<FlightDocument>>, k: nat) {
    && |hits| <= k && DistinctIds(hits)
    && forall i :: 0 <= i < |hits| ==> hits[i].id in m && hits[i].item == m[hits[i].id]
  }

  function Min(a: nat, b: nat): nat {
    if a < b then a else b
  }

  function Max(a: nat, b: nat): nat {
    if a < b then b else a
  }

  /** How many neighbours the graph is asked for. */
  function Fetch(k: nat, total: nat): (n: nat)
    ensures n <= total && n >= Min(k, total)
  {
    Max(Min(Min(k * 2, k + 32), total), Min(k, total))
  }

  /** Every neighbour the graph reports is a point inserted into it. */
  ghost predicate NamesPoints(ask: nat -> seq<(nat, real)>, graph: seq<Point>) {
    forall n: nat, i: nat :: i < |ask(n)| ==> exists p :: p in graph && p.1 == ask(n)[i].0
  }

  lemma GraphSlots(e: Embedder, docs: seq<FlightDocument>, texts: seq<string>, vectors: seq<seq<real>>,
                   quantized: seq<QuantizedVector>, graph: seq<Point>, ask: nat -> seq<(nat, real)>, n: nat)
    requires Lockstep(e, docs, texts, vectors, quantized) && GraphCovers(vectors, graph) && NamesPoints(ask, graph)
    ensures forall i :: 0 <= i < |ask(n)| ==> ask(n)[i].0 < |docs|
  {
  }

  /** The hits of a walk over neighbours: the slot's document, similarity = 1 - distance. */
  ghost predicate WalkOf(docs: seq<FlightDocument>, walk: seq<(nat, real)>, hits: seq<Hit<FlightDocument>>) {
    && |hits| == |walk|
    && forall i :: 0 <= i < |walk| ==>
         walk[i].0 < |docs| && hits[i] == Hit(docs[walk[i].0].icao24, 1.0 - walk[i].1, docs[walk[i].0])
  }

  lemma WalkLength(docs: seq<FlightDocument>, walk: seq<(nat, real)>, hits: seq<Hit<FlightDocument>>)
    requires WalkOf(docs, walk, hits)
    ensures |hits| == |walk|
  {
  }

  lemma WalkOn(docs: seq<FlightDocument>, walk: seq<(nat, real)>, hits: seq<Hit<FlightDocument>>, n: (nat, real))
    requires WalkOf(docs, walk, hits) && n.0 < |docs|
    ensures |hits| == |walk| && WalkOf(docs, walk + [n], hits + [Hit(docs[n.0].icao24, 1.0 - n.1, docs[n.0])])
  {
  }

  lemma WalkIsSound(docs: seq<FlightDocument>, byKey: map<string, nat>, dead: set<nat>,
                    neighbours: seq<(nat, real)>, k: nat, hits: seq<Hit<FlightDocument>>)
    requires SlotsExact(docs, byKey, dead) && WalkOf(docs, Take(k, FirstLive(neighbours, dead)), hits)
    ensures SoundHits(LiveOf(docs, byKey, dead), hits, k)
  {
    var all := FirstLive(neighbours, dead);
    var walk := Take(k, all);
    FirstLiveIsDistinct(neighbours, dead);
    assert forall i :: 0 <= i < |walk| ==> walk[i] == all[i] && all[i] in all;
    forall i | 0 <= i < |hits|
      ensures hits[i].id in byKey && byKey[hits[i].id] == walk[i].0
    {
      assert walk[i].0 !in dead;
    }
  }

  /** One neighbour of the walk. */
  lemma WalkStep(neighbours: seq<(nat, real)>, dead: set<nat>, i: nat)
    requires i < |neighbours|
    ensures FirstLive(neighbours[..i + 1], dead) ==
            if neighbours[i].0 in dead || (exists j :: 0 <= j < i && neighbours[j].0 == neighbours[i].0)
            then FirstLive(neighbours[..i], dead) else FirstLive(neighbours[..i], dead) + [neighbours[i]]
  {
    var front := neighbours[..i + 1][..i];
    assert front == neighbours[..i];
    assert forall j :: 0 <= j < i ==> front[j] == neighbours[j];
  }

  lemma WalkCut(neighbours: seq<(nat, real)>, dead: set<nat>, i: nat, k: nat)
    requires i <= |neighbours| && |FirstLive(neighbours[..i], dead)| == k
    ensures Take(k, FirstLive(neighbours, dead)) == FirstLive(neighbours[..i], dead)
  {
    FirstLivePrefix(neighbours, dead, i);
  }

  // ---- the index ----

  class VectorIndex {
    const embedder: Embedder
    var docs: seq<FlightDocument>
    var texts: seq<string>
    var slotVectors: seq<seq<real>>
    var quantized: seq<QuantizedVector>
    var quantizedMode: bool
    var byKey: map<string, nat>
    var tombstoned: set<nat>
    var vectorsTotal: nat
    /** Every point in the graph: a vector and the slot it was inserted under. */
    ghost var graph: seq<Point>
    /** Successful removes so far, and documents re-inserted by rebuilds so far. */
    ghost var removes: nat
    ghost var reinserted: nat

    ghost predicate Consistent()
      reads this
    {
      && SlotsExact(docs, byKey, tombstoned)
      && Lockstep(embedder, docs, texts, slotVectors, quantized)
      && GraphCovers(slotVectors, graph)
      && vectorsTotal == |graph|
    }

    /** Tombstones stay below the rebuild threshold, and rebuilds are paid for by removes. */
    ghost predicate Amortised()
      reads this
    {
      && (|tombstoned| < REBUILD_MIN_TOMBSTONES || 4 * |tombstoned| < |byKey|)
      && reinserted + 4 * |tombstoned| <= 4 * removes
    }

    ghost predicate Valid()
      reads this
    {
      Consistent() && Amortised()
    }

    function Live(): Corpus
      requires Consistent()
      reads this
    {
      LiveOf(docs, byKey, tombstoned)
    }

    constructor (e: Embedder)
      ensures embedder == e && !quantizedMode && Valid() && Live() == map[]
      ensures removes == 0 && reinserted == 0
    {
      embedder := e;
      docs, texts, slotVectors, quantized, quantizedMode := [], [], [], [], false;
      byKey, tombstoned, vectorsTotal := map[], {}, 0;
      graph, removes, reinserted := [], 0, 0;
    }

    /** Upsert; a changed text gets a fresh vector under the same slot. */
    method Insert(doc: FlightDocument)
      requires Consistent()
      modifies this
      ensures Consistent() && (old(Valid()) ==> Valid())
      ensures Live() == old(Live())[doc.icao24 := doc]
      ensures quantizedMode == old(quantizedMode) && tombstoned == old(tombstoned)
      ensures removes == old(removes) && reinserted == old(reinserted)
    {
      hide Quantized, SlotsExact, Lockstep, GraphCovers, LiveOf, Consistent;
      var text := EmbeddableText(doc);
      if doc.icao24 in byKey {
        Overwrite(doc, text);
      } else {
        Append(doc, text);
      }
    }

    method Overwrite(doc: FlightDocument, text: string)
      requires Consistent() && doc.icao24 in byKey && text == EmbeddableText(doc)
      modifies `docs, `texts, `slotVectors, `quantized, `graph, `vectorsTotal
      ensures Consistent()
      ensures Live() == old(Live())[doc.icao24 := doc]
    {
      hide Quantized, SlotsExact, Lockstep, GraphCovers, LiveOf;
      var slot := byKey[doc.icao24];
      SlotLookup(docs, byKey, tombstoned, doc.icao24);
      SlotsReplaced(docs, byKey, tombstoned, doc);
      LockReplaced(embedder, docs, texts, slotVectors, quantized, slot, doc);
      docs := docs[slot := doc];
      if texts[slot] != text {
        var vector := embedder.embed(text);
        GraphReplaced(slotVectors, graph, slot, vector);
        graph := graph + [(vector, slot)];
        vectorsTotal := vectorsTotal + 1;
        var q := QuantizeVector(vector);
        quantized := quantized[slot := q];
        slotVectors := slotVectors[slot := vector];
        texts := texts[slot := text];
      }
    }

    method Append(doc: FlightDocument, text: string)
      requires Consistent() && doc.icao24 !in byKey && text == EmbeddableText(doc)
      modifies `docs, `texts, `slotVectors, `quantized, `graph, `vectorsTotal, `byKey
      ensures Consistent() && |byKey| == |old(byKey)| + 1
      ensures Live() == old(Live())[doc.icao24 := doc]
    {
      hide Quantized, SlotsExact, Lockstep, GraphCovers, LiveOf;
      var slot := |docs|;
      var vector := embedder.embed(text);
      SlotsAppended(docs, byKey, tombstoned, doc);
      LockAppended(embedder, docs, texts, slotVectors, quantized, doc);
      GraphAppended(slotVectors, graph, vector);
      graph := graph + [(vector, slot)];
      vectorsTotal := vectorsTotal + 1;
      byKey := byKey[doc.icao24 := slot];
      var q := QuantizeVector(vector);
      quantized := quantized + [q];
      slotVectors := slotVectors + [vector];
      docs := docs + [doc];
      texts := texts + [text];
    }

    /** Tombstone the slot; rebuild once tombstones pass the threshold. */
    method Remove(icao24: string) returns (present: bool)
      requires Valid()
      modifies this
      ensures Valid()
      ensures present == (icao24 in old(Live()))
      ensures Live() == old(Live()) - {icao24}
      ensures quantizedMode == old(quantizedMode)
      ensures removes == old(removes) + if present then 1 else 0
    {
      hide Quantized, SlotsExact, Lockstep, GraphCovers, LiveOf, AtLeastOne;
      LiveKeys(docs, byKey, tombstoned);
      if icao24 !in byKey {
        return false;
      }
      Tombstone(icao24);
      var live := |byKey|;
      ThresholdIsQuarter(|tombstoned|, live);
      if |tombstoned| >= REBUILD_MIN_TOMBSTONES &&
         |tombstoned| as real >= AtLeastOne(live) as real * REBUILD_TOMBSTONE_RATIO {
        Rebuild();
      }
      present := true;
    }

    method Tombstone(icao24: string)
      requires Consistent() && icao24 in byKey
      modifies `byKey, `tombstoned, `removes
      ensures Consistent() && Live() == old(Live()) - {icao24}
      ensures |byKey| == |old(byKey)| - 1 && |tombstoned| == |old(tombstoned)| + 1 && removes == old(removes) + 1
    {
      hide Quantized, SlotsExact, Lockstep, GraphCovers, LiveOf;
      var slot := byKey[icao24];
      SlotsRetired(docs, byKey, tombstoned, icao24);
      byKey := byKey - {icao24};
      tombstoned := tombstoned + {slot};
      removes := removes + 1;
    }

    /** The live documents, in slot order. */
    method LiveDocuments() returns (live: seq<FlightDocument>)
      requires Consistent()
      ensures forall i, j :: 0 <= i < j < |live| ==> live[i].icao24 != live[j].icao24
      ensures forall d :: d in live <==> d.icao24 in Live() && Live()[d.icao24] == d
    {
      hide Quantized, Lockstep, GraphCovers;
      live := [];
      for s := 0 to |docs|
        invariant forall i, j :: 0 <= i < j < |live| ==> live[i].icao24 != live[j].icao24
        invariant forall d :: d in live <==> d.icao24 in byKey && byKey[d.icao24] < s && docs[byKey[d.icao24]] == d
      {
        if s !in tombstoned {
          assert forall i :: 0 <= i < |live| ==> live[i] in live;
          live := live + [docs[s]];
        }
      }
    }

    lemma KeysAreLive()
      requires Consistent()
      ensures |byKey| == |Live()| && Keyed(Live())
    {
      hide Quantized, SlotsExact, Lockstep, GraphCovers, LiveOf;
      SameKeys(docs, byKey, tombstoned);
    }

    method Clear()
      modifies `docs, `texts, `slotVectors, `quantized, `byKey, `tombstoned, `vectorsTotal, `graph
      ensures Consistent() && tombstoned == {} && Live() == map[]
    {
      hide Quantized, SlotsExact, Lockstep, GraphCovers, LiveOf;
      docs, texts, slotVectors, quantized := [], [], [], [];
      byKey, tombstoned, vectorsTotal, graph := map[], {}, 0, [];
      NothingStored(embedder);
    }

    ghost method CountReinserted()
      requires Consistent()
      modifies `reinserted
      ensures Consistent() && Live() == old(Live()) && reinserted == old(reinserted) + 1
    {
      hide SlotsExact, Lockstep, GraphCovers, LiveOf;
      reinserted := reinserted + 1;
    }

    /** Rebuild every backing structure from the live documents. */
    method Rebuild()
      requires Consistent()
      modifies this
      ensures Consistent() && tombstoned == {}
      ensures Live() == old(Live())
      ensures quantizedMode == old(quantizedMode) && removes == old(removes)
      ensures |byKey| == |old(byKey)| && reinserted == old(reinserted) + |byKey|
    {
      hide Consistent, LiveOf, Upserted;
      var live := LiveDocuments();
      ghost var m := Live();
      KeysAreLive();
      Clear();
      assert live[..0] == [] && Upserted(map[], []) == map[] by { NothingUpserted(map[]); }
      for i := 0 to |live|
        invariant Consistent() && tombstoned == {} && Live() == Upserted(map[], live[..i])
        invariant quantizedMode == old(quantizedMode) && removes == old(removes) && reinserted == old(reinserted) + i
      {
        UpsertedSnoc(map[], live, i);
        Insert(live[i]);
        CountReinserted();
      }
      assert live[..|live|] == live;
      UpsertedIs(live, m);
      KeysAreLive();
    }

    method SetQuantized(on: bool)
      modifies this`quantizedMode
      ensures quantizedMode == on
    {
      quantizedMode := on;
    }

    /** Exact scan: the top k of the live documents. */
    method SearchFlat(query: seq<real>, k: nat) returns (hits: seq<Hit<FlightDocument>>)
      requires Consistent()
      ensures hits == FlatTop(embedder, Live(), query, k) && SoundHits(Live(), hits, k)
    {
      hide Quantized, GraphCovers, Dot, VectorOf, Rank, RankedValues, LiveOf, Lists, Scored, SlotsExact;
      ghost var m := Live();
      hits := [];
      ghost var among: set<string> := {};
      NothingListed(embedder, m, query);
      for s := 0 to |docs|
        invariant forall key :: key in among <==> key in byKey && byKey[key] < s
        invariant Lists(hits, Scored(embedder, m, query, among))
      {
        SlotCases(docs, byKey, tombstoned, s);
        if s !in tombstoned {
          ListOneMore(embedder, m, query, among, docs[s], hits);
          hits := hits + [HitFor(embedder, query, docs[s])];
          assert HitFor(embedder, query, docs[s]) == Hit(docs[s].icao24, Dot(query, slotVectors[s]), docs[s]);
          among := among + {docs[s].icao24};
        }
      }
      AllSlots(docs, byKey, tombstoned);
      assert among == m.Keys;
      TopOfListing(embedder, m, query, among, hits, k);
      hits := Take(k, Rank(hits));
    }

    /**
     Two tiers: the Hamming-nearest 4k slots, exactly rescored. `among` are the aircraft that
     survive the first tier.
     */
    method SearchQuantized(query: seq<real>, k: nat) returns (hits: seq<Hit<FlightDocument>>, ghost among: set<string>)
      requires Consistent()
      ensures HammingMinimal(embedder, Live(), query, among) && |among| == Min(k * OVERSAMPLE, |Live()|)
      ensures hits == Take(k, RankedValues(Scored(embedder, Live(), query, among)))
      ensures k * OVERSAMPLE >= |Live()| ==> hits == FlatTop(embedder, Live(), query, k)
      ensures SoundHits(Live(), hits, k)
    {
      hide Quantized, GraphCovers, Dot, VectorOf, Rank, RankedValues, LiveOf, Lists, Scored, SlotsExact, ListsSlots,
           ByDistance, HammingMinimal, KeysOf;
      ghost var m := Live();
      var candidates := ListCandidates(query);
      var sorted := SortByDistance(candidates);
      SlotsPermuted(embedder, query, docs, byKey, candidates, sorted, |docs|);
      var keep := Min(k * OVERSAMPLE, |candidates|);
      NearestAreMinimal(embedder, query, docs, byKey, tombstoned, sorted, keep);
      NearestAreMinimal(embedder, query, docs, byKey, tombstoned, sorted, |sorted|);
      hits := Rescore(query, sorted, keep);
      among := KeysOf(docs, sorted, keep);
      KeysCount(embedder, query, docs, byKey, sorted, |sorted|);
      SlotBounds(embedder, query, docs, byKey, sorted);
      assert |m| == |m.Keys|;
      TopOfListing(embedder, m, query, among, hits, k);
      hits := Take(k, Rank(hits));
    }

    /** Every live slot with its Hamming distance, in slot order. */
    method ListCandidates(query: seq<real>) returns (candidates: seq<Candidate>)
      requires Consistent()
      ensures ListsSlots(embedder, query, docs, byKey, candidates, |docs|)
    {
      hide Quantized, GraphCovers, VectorOf, LiveOf, SlotsExact, ListsSlots, Hamming;
      var q := QuantizeVector(query);
      candidates := [];
      NoSlots(embedder, query, docs, byKey);
      for s := 0 to |docs|
        invariant ListsSlots(embedder, query, docs, byKey, candidates, s)
      {
        if s in tombstoned {
          SlotSkipped(embedder, query, docs, byKey, tombstoned, candidates, s);
        } else {
          SlotListed(embedder, query, docs, byKey, tombstoned, candidates, s);
          assert Hamming(q, quantized[s]) == Distance(embedder, query, docs[s]);
          candidates := candidates + [Candidate(Hamming(q, quantized[s]), s)];
        }
      }
    }

    /** Exact scores of the first `keep` candidates. */
    method Rescore(query: seq<real>, cs: seq<Candidate>, keep: nat) returns (hits: seq<Hit<FlightDocument>>)
      requires Consistent() && ListsSlots(embedder, query, docs, byKey, cs, |docs|) && keep <= |cs|
      ensures forall c :: c in cs ==> c.slot < |docs|
      ensures Lists(hits, Scored(embedder, Live(), query, KeysOf(docs, cs, keep))) && |hits| == keep
    {
      hide Quantized, GraphCovers, Dot, VectorOf, LiveOf, Lists, Scored, SlotsExact, ListsSlots, KeysOf, Lockstep;
      SlotBounds(embedder, query, docs, byKey, cs);
      hits := [];
      NoneRescored(docs, cs);
      NothingListed(embedder, Live(), query);
      for i := 0 to keep
        invariant Lists(hits, Scored(embedder, Live(), query, KeysOf(docs, cs, i))) && |hits| == i
      {
        RescoreOne(embedder, query, docs, byKey, tombstoned, cs, i, hits);
        LockLookup(embedder, docs, texts, slotVectors, quantized, cs[i].slot);
        var slot := cs[i].slot;
        hits := hits + [Hit(docs[slot].icao24, Dot(query, slotVectors[slot]), docs[slot])];
      }
    }

    /**
     Approximate search. `ask(n)` is the graph's answer to a request for n neighbours, best
     first; nothing is assumed of it except that it names points of the graph.
     */
    method SearchHnsw(query: seq<real>, k: nat, ask: nat -> seq<(nat, real)>) returns (best: seq<Hit<FlightDocument>>)
      requires Consistent() && k > 0
      requires NamesPoints(ask, graph)
      ensures WalkOf(docs, Take(k, FirstLive(ask(Fetch(k, vectorsTotal)), tombstoned)), best)
      ensures SoundHits(Live(), best, k)
    {
      hide Quantized, Lockstep, GraphCovers, LiveOf, SlotsExact, FirstLive, SoundHits, NamesPoints, WalkOf, Fetch;
      var neighbours := ask(Fetch(k, vectorsTotal));
      GraphSlots(embedder, docs, texts, slotVectors, quantized, graph, ask, Fetch(k, vectorsTotal));
      best := [];
      var seen: set<nat> := {};
      assert neighbours[..0] == [];
      NoNeighbours(docs, tombstoned);
      assert neighbours[..|neighbours|] == neighbours;
      for i := 0 to |neighbours|
        invariant forall s :: s in seen <==> s !in tombstoned && exists j :: 0 <= j < i && neighbours[j].0 == s
        invariant WalkOf(docs, FirstLive(neighbours[..i], tombstoned), best) && |best| < k
      {
        WalkStep(neighbours, tombstoned, i);
        var n := neighbours[i];
        if n.0 !in tombstoned {
          if n.0 !in seen {
            seen := seen + {n.0};
            WalkOn(docs, FirstLive(neighbours[..i], tombstoned), best, n);
            best := best + [Hit(docs[n.0].icao24, 1.0 - n.1, docs[n.0])];
            if |best| == k {
              WalkCut(neighbours, tombstoned, i + 1, k);
              WalkIsSound(docs, byKey, tombstoned, neighbours, k, best);
              return;
            }
          }
        }
      }
      WalkLength(docs, FirstLive(neighbours, tombstoned), best);
      WalkIsSound(docs, byKey, tombstoned, neighbours, k, best);
    }

    /** The search: which path answers, and what every path guarantees. */
    method Search(query: seq<real>, k: nat, ask: nat -> seq<(nat, real)>)
      returns (hits: seq<Hit<FlightDocument>>, ghost among: set<string>)
      requires Consistent()
      requires NamesPoints(ask, graph)
      ensures SoundHits(Live(), hits, k)
      ensures k == 0 || Live() == map[] ==> hits == []
      ensures quantizedMode && k > 0 ==>
                && HammingMinimal(embedder, Live(), query, among) && |among| == Min(k * OVERSAMPLE, |Live()|)
                && hits == Take(k, RankedValues(Scored(embedder, Live(), query, among)))
      ensures (quantizedMode && k * OVERSAMPLE >= |Live()|) || (!quantizedMode && |docs| <= FLAT_SEARCH_THRESHOLD) ==>
                hits == FlatTop(embedder, Live(), query, k)
    {
      hide Quantized, GraphCovers, Lockstep, LiveOf, SlotsExact, Dot, VectorOf, Rank, RankedValues, Scored, HammingMinimal,
           SoundHits, WalkOf, NamesPoints;
      among := {};
      SameKeys(docs, byKey, tombstoned);
      if k == 0 || byKey == map[] {
        hits := [];
        NothingFound(embedder, Live(), query, k);
      } else if quantizedMode {
        hits, among := SearchQuantized(query, k);
      } else if |docs| <= FLAT_SEARCH_THRESHOLD {
        hits := SearchFlat(query, k);
      } else {
        hits := SearchHnsw(query, k, ask);
      }
    }
  }

  lemma NothingFound(e: Embedder, m: Corpus, query: seq<real>, k: nat)
    requires k == 0 || m == map[]
    ensures SoundHits(m, [], k) && FlatTop(e, m, query, k) == []
    ensures m == map[] ==>
              HammingMinimal(e, m, query, {}) && Take(k, RankedValues(Scored(e, m, query, {}))) == []
  {
  }

  lemma NoNeighbours(docs: seq<FlightDocument>, dead: set<nat>)
    ensures FirstLive([], dead) == [] && WalkOf(docs, [], [])
  {
  }

  lemma NoSlots(e: Embedder, query: seq<real>, docs: seq<FlightDocument>, byKey: map<string, nat>)
    ensures ListsSlots(e, query, docs, byKey, [], 0)
  {
  }

  lemma SlotBounds(e: Embedder, query: seq<real>, docs: seq<FlightDocument>, byKey: map<string, nat>, cs: seq<Candidate>)
    requires ListsSlots(e, query, docs, byKey, cs, |docs|)
    ensures forall c :: c in cs ==> c.slot < |docs|
  {
  }

  lemma NoneRescored(docs: seq<FlightDocument>, cs: seq<Candidate>)
    requires forall c :: c in cs ==> c.slot < |docs|
    ensures KeysOf(docs, cs, 0) == {}
  {
  }

  lemma LockLookup(e: Embedder, docs: seq<FlightDocument>, texts: seq<string>, vectors: seq<seq<real>>,
                   quantized: seq<QuantizedVector>, s: nat)
    requires Lockstep(e, docs, texts, vectors, quantized) && s < |docs|
    ensures |vectors| == |docs| && vectors[s] == VectorOf(e, docs[s])
  {
  }

  lemma NothingListed(e: Embedder, m: Corpus, query: seq<real>)
    ensures Lists([], Scored(e, m, query, {}))
  {
  }

  lemma SlotCases(docs: seq<FlightDocument>, byKey: map<string, nat>, dead: set<nat>, s: nat)
    requires SlotsExact(docs, byKey, dead) && s < |docs|
    ensures s !in dead ==> docs[s].icao24 in byKey && byKey[docs[s].icao24] == s
    ensures s !in dead ==> docs[s].icao24 in LiveOf(docs, byKey, dead) && LiveOf(docs, byKey, dead)[docs[s].icao24] == docs[s]
    ensures forall k :: k in byKey && byKey[k] == s ==> s !in dead && docs[s].icao24 == k
  {
  }

  lemma AllSlots(docs: seq<FlightDocument>, byKey: map<string, nat>, dead: set<nat>)
    requires SlotsExact(docs, byKey, dead)
    ensures forall k :: k in byKey ==> byKey[k] < |docs|
    ensures LiveOf(docs, byKey, dead).Keys == byKey.Keys
  {
  }

  lemma SameKeys(docs: seq<FlightDocument>, byKey: map<string, nat>, dead: set<nat>)
    requires SlotsExact(docs, byKey, dead)
    ensures |byKey| == |LiveOf(docs, byKey, dead)| && Keyed(LiveOf(docs, byKey, dead))
  {
    var m := LiveOf(docs, byKey, dead);
    assert byKey.Keys == m.Keys;
    assert |byKey.Keys| == |byKey| && |m.Keys| == |m|;
  }

  lemma NothingStored(e: Embedder)
    ensures SlotsExact([], map[], {}) && Lockstep(e, [], [], [], []) && GraphCovers([], [])
    ensures LiveOf([], map[], {}) == map[]
  {
  }
}
