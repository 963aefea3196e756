/**
 The shard's document store: the keyword index and the vector index updated together, so
 both are views of one map from icao24 to document.
 */
module ShardStores {
  import opened Prelude
  import opened Ranking
  import opened Documents
  import opened KeywordSpec
  import opened KeywordIndex
  import opened Placement
  import opened ShardSpecs
  import opened VectorIndices

  class ShardStore {
    const tok: Tokenizer
    const embedder: Embedder
    var keyword: InvertedIndex
    var vector: VectorIndex

    ghost function Repr(): set<object>
      reads this
    {
      {this, keyword, vector}
    }

    /** The two indexes hold the same documents. */
    ghost predicate Valid()
      reads this, keyword, vector
    {
      && keyword.Valid() && vector.Valid()
      && keyword.tok == tok && vector.embedder == embedder
      && keyword.Live() == vector.Live()
    }

    /** The documents of the store, by aircraft. */
    function Live(): Corpus
      requires Valid()
      reads this, keyword, vector
    {
      keyword.Live()
    }

    constructor (tok: Tokenizer, embedder: Embedder)
      ensures this.tok == tok && this.embedder == embedder
      ensures Valid() && fresh(Repr()) && Live() == map[]
    {
      hide InvertedIndex.Valid, InvertedIndex.Live, VectorIndex.Consistent, VectorIndex.Amortised, VectorIndex.Live;
      this.tok, this.embedder := tok, embedder;
      keyword := new InvertedIndex(tok);
      vector := new VectorIndex(embedder);
    }

    lemma LiveIsKeyed()
      requires Valid()
      ensures Keyed(Live())
    {
      hide InvertedIndex.Valid, InvertedIndex.Live, VectorIndex.Consistent, VectorIndex.Live, Keyed;
      vector.KeysAreLive();
    }

    method Insert(doc: FlightDocument)
      requires Valid()
      modifies Repr()
      ensures Valid() && Repr() == old(Repr())
      ensures Live() == old(Live())[doc.icao24 := doc]
      ensures vector.quantizedMode == old(vector.quantizedMode)
    {
      hide InvertedIndex.Valid, InvertedIndex.Live, VectorIndex.Consistent, VectorIndex.Amortised, VectorIndex.Live;
      vector.Insert(doc);
      keyword.Insert(doc);
    }

    /** Gone from both views or from neither. */
    method Remove(icao24: string) returns (present: bool)
      requires Valid()
      modifies Repr()
      ensures Valid() && Repr() == old(Repr())
      ensures present == (icao24 in old(Live()))
      ensures Live() == old(Live()) - {icao24}
    {
      hide InvertedIndex.Valid, InvertedIndex.Live, VectorIndex.Consistent, VectorIndex.Amortised, VectorIndex.Live;
      present := keyword.Remove(icao24);
      var also := vector.Remove(icao24);
      assert present == also;
    }

    /** Every stored document once, in an order that depends on the slots. */
    method Documents() returns (out: seq<FlightDocument>)
      requires Valid()
      ensures Upserted(map[], out) == Live() && |out| == |Live()|
      ensures forall d :: d in out <==> d.icao24 in Live() && Live()[d.icao24] == d
      ensures forall i, j :: 0 <= i < j < |out| ==> out[i].icao24 != out[j].icao24
    {
      hide InvertedIndex.Valid, InvertedIndex.Live, VectorIndex.Valid, VectorIndex.Live, Upserted;
      out := keyword.Documents();
      LiveIsKeyed();
      UpsertedIs(out, Live());
    }

    /** Remove every document of a virtual shard; the count is exact. */
    method EvictVshard(vshard: nat, v: nat) returns (removed: nat)
      requires Valid() && v < U32_LIMIT
      modifies Repr()
      ensures Valid() && Repr() == old(Repr())
      ensures Live() == Evicted(old(Live()), vshard, v)
      ensures removed == |old(Live())| - |Live()|
    {
      hide Valid, Live, VshardFor, Members, Doomed;
      if v == 0 {
        return 0;
      }
      var docs := Documents();
      LiveIsKeyed();
      var doomed := ListDoomed(docs, vshard, v);
      DoomedAreEvicted(Live(), docs, vshard, v, doomed);
      RemoveAll(doomed);
      removed := |doomed|;
    }

    method RemoveAll(keys: seq<string>)
      requires Valid()
      modifies Repr()
      ensures Valid() && Repr() == old(Repr())
      ensures Live() == old(Live()) - Members(keys)
    {
      hide Valid, Live, Members;
      ghost var m := Live();
      NoMembers();
      assert keys[..0] == [];
      for i := 0 to |keys|
        invariant Valid() && Repr() == old(Repr())
        invariant Live() == m - Members(keys[..i])
      {
        MembersSnoc(keys, i);
        assert m - Members(keys[..i + 1]) == m - Members(keys[..i]) - {keys[i]};
        var _ := Remove(keys[i]);
      }
      assert keys[..|keys|] == keys;
    }

    /** Fresh indexes over the same embedder, refilled; the quantized mode is not carried over. */
    method ReplaceAll(docs: seq<FlightDocument>)
      requires Valid()
      modifies this
      ensures Valid() && fresh(Repr() - {this})
      ensures Live() == Upserted(map[], docs)
      ensures !vector.quantizedMode
    {
      hide InvertedIndex.Valid, InvertedIndex.Live, VectorIndex.Consistent, VectorIndex.Amortised, VectorIndex.Live, Upserted;
      keyword := new InvertedIndex(tok);
      vector := new VectorIndex(embedder);
      NothingUpserted(map[]);
      assert docs[..0] == [];
      for i := 0 to |docs|
        invariant Valid() && fresh(Repr() - {this})
        invariant Live() == Upserted(map[], docs[..i])
        invariant !vector.quantizedMode
      {
        UpsertedSnoc(map[], docs, i);
        Insert(docs[i]);
      }
      assert docs[..|docs|] == docs;
    }

    /** Keyword search: the answer is a function of the stored documents alone. */
    method Search(p: Bm25, query: string, limit: nat) returns (totalMatched: nat, hits: seq<Hit<FlightDocument>>)
      requires Valid() && p.Valid()
      ensures totalMatched == |KeywordSpec.Scan(tok, p, Live(), tok(query))|
      ensures hits == SearchHits(tok, p, Live(), query, limit)
    {
      hide InvertedIndex.Valid, InvertedIndex.Live, VectorIndex.Valid, VectorIndex.Live, SearchHits, KeywordSpec.Scan;
      totalMatched, hits := keyword.Search(p, query, limit);
    }
  }

  // ---- eviction ----

  method ListDoomed(docs: seq<FlightDocument>, vshard: nat, v: NonZero) returns (keys: seq<string>)
    requires forall i, j :: 0 <= i < j < |docs| ==> docs[i].icao24 != docs[j].icao24
    ensures Doomed(docs, vshard, v, keys)
  {
    hide VshardFor;
    keys := [];
    for i := 0 to |docs|
      invariant Doomed(docs[..i], vshard, v, keys)
    {
      hide Doomed;
      DoomedSnoc(docs, i, vshard, v, keys);
      if VshardFor(docs[i].icao24, v) == vshard {
        keys := keys + [docs[i].icao24];
      }
    }
    assert docs[..|docs|] == docs;
  }

  lemma NoMembers()
    ensures Members([]) == {}
  {
  }

  function Members(keys: seq<string>): set<string> {
    set k | k in keys
  }

  lemma MembersSnoc(keys: seq<string>, i: nat)
    requires i < |keys|
    ensures Members(keys[..i + 1]) == Members(keys[..i]) + {keys[i]}
  {
    assert keys[..i + 1] == keys[..i] + [keys[i]];
  }

  /** The aircraft of the listed documents that sit on the virtual shard, each once. */
  ghost predicate Doomed(docs: seq<FlightDocument>, vshard: nat, v: NonZero, keys: seq<string>) {
    && NoDuplicates(keys)
    && forall k :: k in keys <==> VshardFor(k, v) == vshard && exists d :: d in docs && d.icao24 == k
  }

  lemma DoomedSnoc(docs: seq<FlightDocument>, i: nat, vshard: nat, v: NonZero, keys: seq<string>)
    requires forall a, b :: 0 <= a < b < |docs| ==> docs[a].icao24 != docs[b].icao24
    requires i < |docs| && Doomed(docs[..i], vshard, v, keys)
    ensures Doomed(docs[..i + 1], vshard, v,
                   if VshardFor(docs[i].icao24, v) == vshard then keys + [docs[i].icao24] else keys)
  {
    hide VshardFor;
    var front, more := docs[..i], docs[..i + 1];
    assert more == front + [docs[i]];
    assert more[i] == docs[i];
    assert forall d :: d in more <==> d in front || d == docs[i];
    forall d | d in front
      ensures d.icao24 != docs[i].icao24
    {
      var a :| 0 <= a < i && front[a] == d;
      assert docs[a] == d;
    }
  }

  lemma SizeWithout(m: Corpus, gone: set<string>)
    requires gone <= m.Keys
    ensures |m - gone| == |m| - |gone|
  {
    var rest := m - gone;
    assert m.Keys == rest.Keys + gone && rest.Keys !! gone;
    assert |m.Keys| == |m| && |rest.Keys| == |rest|;
  }

  lemma DoomedMembers(m: Corpus, docs: seq<FlightDocument>, vshard: nat, v: NonZero, keys: seq<string>)
    requires forall d :: d in docs <==> d.icao24 in m && m[d.icao24] == d
    requires Keyed(m) && Doomed(docs, vshard, v, keys)
    ensures forall k :: k in keys <==> k in m && VshardFor(k, v) == vshard
  {
    hide VshardFor;
    forall k
      ensures k in keys <==> k in m && VshardFor(k, v) == vshard
    {
      if k in m {
        assert m[k] in docs;
      }
    }
  }

  lemma DoomedAreEvicted(m: Corpus, docs: seq<FlightDocument>, vshard: nat, v: NonZero, keys: seq<string>)
    requires forall d :: d in docs <==> d.icao24 in m && m[d.icao24] == d
    requires Keyed(m) && Doomed(docs, vshard, v, keys)
    ensures m - Members(keys) == Evicted(m, vshard, v)
    ensures |keys| == |m| - |Evicted(m, vshard, v)|
  {
    hide VshardFor, Keyed;
    DoomedMembers(m, docs, vshard, v, keys);
    assert NoDuplicates(keys);
    hide Doomed;
    CountMembers(keys);
    SizeWithout(m, Members(keys));
  }

  lemma {:induction false} CountMembers(keys: seq<string>)
    requires NoDuplicates(keys)
    ensures |Members(keys)| == |keys|
  {
    if keys != [] {
      var front := keys[..|keys| - 1];
      CountMembers(front);
      MembersSnoc(keys, |keys| - 1);
      assert keys[..|keys|] == keys;
    }
  }
}
