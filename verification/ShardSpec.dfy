/** The commands a shard group replicates, as operations on the plain map of documents. */
module ShardSpecs {
  import opened Prelude
  import opened Documents
  import opened KeywordSpec
  import opened Placement

  /** Upserting documents one by one. */
  function Upserted(m: Corpus, ds: seq<FlightDocument>): Corpus {
    if ds == [] then m else Upserted(m, ds[..|ds| - 1])[ds[|ds| - 1].icao24 := ds[|ds| - 1]]
  }

  /** What is left after evicting a virtual shard; zero virtual shards evict nothing. */
  function Evicted(m: Corpus, vshard: nat, v: nat): Corpus
    requires v < U32_LIMIT
  {
    if v == 0 then m else map k | k in m && VshardFor(k, v) != vshard :: m[k]
  }

  /** A command of the shard group's log; an undecodable payload is an empty command. */
  datatype Command =
    | Batch(documents: seq<FlightDocument>)
    | Evict(vshard: nat, v: nat)
    | Empty

  predicate ValidCommand(c: Command) {
    c.Evict? ==> c.v < U32_LIMIT
  }

  function Applied(m: Corpus, c: Command): Corpus
    requires ValidCommand(c)
  {
    match c
    case Batch(documents) => Upserted(m, documents)
    case Evict(vshard, v) => Evicted(m, vshard, v)
    case Empty => m
  }

  function AppliedAll(m: Corpus, cs: seq<Command>): Corpus
    requires forall c :: c in cs ==> ValidCommand(c)
  {
    if cs == [] then m
    else
      assert cs[|cs| - 1] in cs;
      Applied(AppliedAll(m, cs[..|cs| - 1]), cs[|cs| - 1])
  }

  /** The reply to the proposer: documents written or removed, as a 32-bit count. */
  function Reply(m: Corpus, c: Command): nat
    requires ValidCommand(c)
  {
    match c
    case Batch(documents) => |documents| % U32_LIMIT
    case Evict(vshard, v) => (|m| - |Evicted(m, vshard, v)|) % U32_LIMIT
    case Empty => 0
  }

  /** The map holds exactly these documents, each under its own aircraft. */
  ghost predicate Holds(m: Corpus, ds: seq<FlightDocument>) {
    && (forall k :: k in m ==> m[k] in ds && m[k].icao24 == k)
    && (forall i :: 0 <= i < |ds| ==> ds[i].icao24 in m && m[ds[i].icao24] == ds[i])
  }

  lemma HoldsOneMore(m: Corpus, front: seq<FlightDocument>, last: FlightDocument)
    requires Holds(m, front) && forall i :: 0 <= i < |front| ==> front[i].icao24 != last.icao24
    ensures Holds(m[last.icao24 := last], front + [last])
  {
    var ds := front + [last];
    assert ds[|front|] == last;
    assert forall d :: d in front ==> d in ds;
  }

  lemma {:induction false} UpsertedHolds(ds: seq<FlightDocument>)
    requires forall i, j :: 0 <= i < j < |ds| ==> ds[i].icao24 != ds[j].icao24
    ensures Holds(Upserted(map[], ds), ds)
  {
    if ds != [] {
      hide Holds;
      var front, last := ds[..|ds| - 1], ds[|ds| - 1];
      assert forall i, j :: 0 <= i < j < |front| ==> front[i].icao24 != front[j].icao24;
      UpsertedHolds(front);
      HoldsOneMore(Upserted(map[], front), front, last);
      assert ds == front + [last];
    }
  }

  lemma NothingUpserted(m: Corpus)
    ensures Upserted(m, []) == m
  {
  }

  lemma UpsertedSnoc(m: Corpus, ds: seq<FlightDocument>, i: nat)
    requires i < |ds|
    ensures Upserted(m, ds[..i + 1]) == Upserted(m, ds[..i])[ds[i].icao24 := ds[i]]
  {
    assert ds[..i + 1][..i] == ds[..i];
  }

  lemma {:induction false} UpsertedSize(ds: seq<FlightDocument>)
    requires forall i, j :: 0 <= i < j < |ds| ==> ds[i].icao24 != ds[j].icao24
    ensures |Upserted(map[], ds)| == |ds|
  {
    if ds != [] {
      var front, last := ds[..|ds| - 1], ds[|ds| - 1];
      assert forall i :: 0 <= i < |front| ==> front[i] == ds[i];
      UpsertedSize(front);
      UpsertedHolds(front);
      var m := Upserted(map[], front);
      assert last.icao24 !in m;
      assert m[last.icao24 := last].Keys == m.Keys + {last.icao24};
      assert |m.Keys| == |m| && |m[last.icao24 := last].Keys| == |m[last.icao24 := last]|;
    }
  }

  lemma UpsertedIs(ds: seq<FlightDocument>, m: Corpus)
    requires forall i, j :: 0 <= i < j < |ds| ==> ds[i].icao24 != ds[j].icao24
    requires forall d :: d in ds <==> d.icao24 in m && m[d.icao24] == d
    requires Keyed(m)
    ensures Upserted(map[], ds) == m && |m| == |ds|
  {
    hide Upserted;
    UpsertedHolds(ds);
    UpsertedSize(ds);
    forall k
      ensures k in Upserted(map[], ds) <==> k in m
      ensures k in m ==> Upserted(map[], ds)[k] == m[k]
    {
      if k in m {
        assert m[k] in ds;
      }
      if k in Upserted(map[], ds) {
        assert Upserted(map[], ds)[k] in ds;
      }
    }
  }
}
