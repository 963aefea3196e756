/**
 Aggregation: each shard summarises its documents in one pass, the coordinator merges the
 summaries. Counts and buckets come out as if one shard held everything; the merged digest
 has the exact weight and mass of all the samples.
 */
module Aggregates {
  import opened Prelude
  import opened Documents
  import opened TDigestSpec
  import opened TDigests

  datatype AggKind = Unspecified | Count | ValueCounts | TimeHistogram | NumericHistogram | GeoGrid | Percentiles

  /** How bucket bounds and grid cells are written; keys are only compared. */
  datatype Format = Format(number: real -> string, cell: (real, real) -> string)

  datatype AggRequest = AggRequest(kind: AggKind, field: string, interval: real, format: Format)

  datatype WireDigest = WireDigest(means: seq<real>, weights: seq<real>)

  datatype AggPartial = AggPartial(kind: AggKind, count: nat, buckets: map<string, nat>, digest: Option<WireDigest>)

  datatype Percentile = Percentile(p: real, value: real)

  // ---- what one document contributes ----

  function GenericText(fields: seq<TextField>, name: string): Option<string> {
    if fields == [] then None
    else if fields[0].name == name then Some(fields[0].value)
    else GenericText(fields[1..], name)
  }

  function TextValue(d: FlightDocument, field: string): Option<string> {
    if field == "callsign" then Some(d.callsign)
    else if field == "origin" then Some(d.origin)
    else if field == "destination" then Some(d.destination)
    else if field == "aircraft_type" then Some(d.aircraftType)
    else if field == "tenant_id" then Some(d.tenantId)
    else GenericText(d.text, field)
  }

  function NumericValue(d: FlightDocument, field: string): Option<real> {
    if field == "altitude" then Some(d.altitude)
    else if field == "velocity" then Some(d.velocity)
    else if field == "heading" then Some(d.heading)
    else if field == "vertical_rate" then Some(d.verticalRate)
    else if field == "latitude" then Some(d.latitude)
    else if field == "longitude" then Some(d.longitude)
    else if field == "observed_at" then Some(d.observedAt as real)
    else if field in d.number then Some(d.number[field])
    else None
  }

  /** A missing or negative width falls back to one. */
  function Width(interval: real): (w: real)
    ensures w > 0.0
  {
    if interval > 0.0 then interval else 1.0
  }

  function LowerBound(x: real, interval: real): real {
    (x / Width(interval)).Floor as real * Width(interval)
  }

  lemma Bracketed(f: real, q: real, w: real, x: real, low: real)
    requires w > 0.0 && f <= q < f + 1.0 && q * w == x && low == f * w
    ensures low <= x < low + w
  {
    var e := q - f;
    assert e * w >= 0.0;
    assert e * w == q * w - f * w;
    Strict(e, w);
    Chain(x, low, e * w, w);
  }

  lemma Chain(x: real, low: real, p: real, w: real)
    requires p == x - low && p < w
    ensures x < low + w
  {
  }

  lemma Strict(e: real, w: real)
    requires w > 0.0 && e < 1.0
    ensures e * w < w
  {
    assert (1.0 - e) * w > 0.0;
  }

  /** A bucket's lower bound is the multiple of the width just below the value. */
  lemma LowerBoundBrackets(x: real, interval: real)
    ensures LowerBound(x, interval) <= x < LowerBound(x, interval) + Width(interval)
  {
    var w := Width(interval);
    var q := x / w;
    var f := q.Floor as real;
    DivMul(x, w);
    Bracketed(f, q, w, x, LowerBound(x, interval));
  }

  lemma DivMul(x: real, w: real)
    requires w > 0.0
    ensures x / w * w == x
  {
  }

  /** The bucket the document is counted in, if any. */
  function BucketOf(req: AggRequest, d: FlightDocument): Option<string> {
    match req.kind
    case ValueCounts => TextValue(d, req.field)
    case TimeHistogram => Some(req.format.number(LowerBound(d.observedAt as real, req.interval)))
    case NumericHistogram =>
      (match NumericValue(d, req.field)
       case Some(x) => Some(req.format.number(LowerBound(x, req.interval)))
       case None => None)
    case GeoGrid => Some(req.format.cell(LowerBound(d.latitude, req.interval), LowerBound(d.longitude, req.interval)))
    case _ => None
  }

  /** The sample the document adds to the digest, if any. */
  function SampleOf(req: AggRequest, d: FlightDocument): Option<real> {
    if req.kind == Percentiles then NumericValue(d, req.field) else None
  }

  // ---- what a list of documents amounts to ----

  function BucketsOf(req: AggRequest, docs: seq<FlightDocument>): multiset<string> {
    if docs == [] then multiset{}
    else
      var front := BucketsOf(req, docs[..|docs| - 1]);
      match BucketOf(req, docs[|docs| - 1])
      case Some(key) => front + multiset{key}
      case None => front
  }

  function SamplesOf(req: AggRequest, docs: seq<FlightDocument>): seq<real> {
    if docs == [] then []
    else
      var front := SamplesOf(req, docs[..|docs| - 1]);
      match SampleOf(req, docs[|docs| - 1])
      case Some(x) => front + [x]
      case None => front
  }

  /** Exact weight and mass of the samples, sorted means, everything within the samples' range. */
  ghost predicate Summarises(d: Digest, samples: seq<real>) {
    && Consistent(d)
    && d.count == |samples| as real
    && Mass(d) == Sum(samples)
    && forall lo: real, hi: real :: Bounds(samples, lo, hi) ==> InRange(d, lo, hi)
  }

  ghost predicate Bounds(samples: seq<real>, lo: real, hi: real) {
    forall i :: 0 <= i < |samples| ==> lo <= samples[i] <= hi
  }

  function Received(w: WireDigest): Digest {
    FromParts(w.means, w.weights)
  }

  /** The partial is an exact summary of the documents. */
  ghost predicate IsPartialOf(req: AggRequest, p: AggPartial, docs: seq<FlightDocument>) {
    && p.kind == req.kind
    && p.count == |docs|
    && p.buckets == FreqMap(BucketsOf(req, docs))
    && (p.digest.Some? <==> req.kind == Percentiles)
    && (p.digest.Some? ==> Summarises(Received(p.digest.value), SamplesOf(req, docs)))
  }

  // ---- a shard's pass over its documents ----

  function Bump(m: map<string, nat>, key: string, n: nat): map<string, nat> {
    m[key := (if key in m then m[key] else 0) + n]
  }

  lemma BumpCounts(ms: multiset<string>, key: string)
    ensures Bump(FreqMap(ms), key, 1) == FreqMap(ms + multiset{key})
  {
  }

  lemma NothingSummarised()
    ensures Summarises(EMPTY_DIGEST, [])
  {
  }

  lemma AddSummarises(s: Scale, d: Digest, samples: seq<real>, x: real)
    requires Summarises(d, samples)
    ensures Summarises(Added(s, d, x), samples + [x])
  {
    assert Positive(d.centroids);
    hide Added, Consistent, Mass, InRange;
    SumConcat(samples, [x]);
    assert Sum([x]) == x by { assert [x][1..] == []; }
    AddKeeps(s, d, x, 0.0, 0.0);
    forall lo: real, hi: real | Bounds(samples + [x], lo, hi)
      ensures InRange(Added(s, d, x), lo, hi)
    {
      BoundsOfParts(samples, [x], lo, hi);
      assert Bounds([x], lo, hi) && [x][0] == x;
      AddKeeps(s, d, x, lo, hi);
    }
  }

  lemma BoundsOfParts(a: seq<real>, b: seq<real>, lo: real, hi: real)
    requires Bounds(a + b, lo, hi)
    ensures Bounds(a, lo, hi) && Bounds(b, lo, hi)
  {
    forall i | 0 <= i < |a|
      ensures lo <= a[i] <= hi
    {
      assert (a + b)[i] == a[i];
    }
    forall i | 0 <= i < |b|
      ensures lo <= b[i] <= hi
    {
      assert (a + b)[|a| + i] == b[i];
    }
  }

  lemma MergeSummarises(s: Scale, d: Digest, o: Digest, a: seq<real>, b: seq<real>)
    requires Summarises(d, a) && Summarises(o, b)
    ensures Summarises(Merged(s, d, o), a + b)
  {
    assert Positive(d.centroids) && Positive(o.centroids);
    hide Merged, Consistent, Mass, InRange, Bounds;
    SumConcat(a, b);
    MergeKeeps(s, d, o, 0.0, 0.0);
    forall lo: real, hi: real | Bounds(a + b, lo, hi)
      ensures InRange(Merged(s, d, o), lo, hi)
    {
      BoundsOfParts(a, b, lo, hi);
      MergeKeeps(s, d, o, lo, hi);
    }
  }

  lemma CompressSummarises(s: Scale, d: Digest, samples: seq<real>)
    requires Summarises(d, samples)
    ensures Summarises(Compressed(s, d), samples)
  {
    hide Compressed, Mass, InRange, Bounds, SortedMeans, Positive;
    CompressKeepsMass(s, d, 0.0, 0.0);
    forall lo: real, hi: real | Bounds(samples, lo, hi)
      ensures InRange(Compressed(s, d), lo, hi)
    {
      CompressKeepsMass(s, d, lo, hi);
    }
  }

  method Partial(s: Scale, req: AggRequest, docs: seq<FlightDocument>) returns (p: AggPartial)
    requires s.Valid()
    ensures IsPartialOf(req, p, docs)
    ensures p.digest.Some? ==> Small(s, Received(p.digest.value))
  {
    hide Bump, FreqMap, Summarises, Compressed, Added, Small, Consistent, Scale.Valid, BucketOf, NumericValue, TextValue;
    var buckets: map<string, nat> := map[];
    var digest := new TDigest(s);
    var count := 0;
    NoTokens();
    NothingSummarised();
    assert docs[..0] == [];
    for i := 0 to |docs|
      invariant count == i
      invariant buckets == FreqMap(BucketsOf(req, docs[..i]))
      invariant fresh(digest) && digest.scale == s && digest.Valid() && Small(s, digest.View())
      invariant Summarises(digest.View(), SamplesOf(req, docs[..i]))
    {
      assert docs[..i + 1][..i] == docs[..i];
      count := count + 1;
      match BucketOf(req, docs[i]) {
        case Some(key) =>
          BumpCounts(BucketsOf(req, docs[..i]), key);
          buckets := Bump(buckets, key, 1);
        case None =>
      }
      match SampleOf(req, docs[i]) {
        case Some(x) =>
          AddSummarises(s, digest.View(), SamplesOf(req, docs[..i]), x);
          digest.Add(Finite(x));
        case None =>
      }
    }
    assert docs[..|docs|] == docs;
    var wire: Option<WireDigest> := None;
    if req.kind == Percentiles {
      wire := Ship(digest, SamplesOf(req, docs));
    }
    p := AggPartial(req.kind, count, buckets, wire);
  }

  /** Compress and ship: the receiver rebuilds the same digest. */
  method Ship(digest: TDigest, ghost samples: seq<real>) returns (wire: Option<WireDigest>)
    requires digest.Valid() && Summarises(digest.View(), samples)
    modifies digest
    ensures wire.Some? && Received(wire.value) == digest.View() == Compressed(digest.scale, old(digest.View()))
    ensures Summarises(digest.View(), samples) && Small(digest.scale, digest.View())
    ensures digest.Valid() && digest.buffer == []
  {
    hide Compressed, Summarises, Small, Consistent;
    CompressSummarises(digest.scale, digest.View(), samples);
    SummaryIsConsistent(digest.View(), samples);
    CompressKeepsMass(digest.scale, digest.View(), 0.0, 0.0);
    var means, weights := digest.ToParts();
    WireRoundTrip(digest.View());
    wire := Some(WireDigest(means, weights));
  }

  lemma SummaryIsConsistent(d: Digest, samples: seq<real>)
    requires Summarises(d, samples)
    ensures Consistent(d) && Weighed(d)
  {
  }

  // ---- the coordinator's merge ----

  function CountsOf(ps: seq<AggPartial>): nat {
    if ps == [] then 0 else CountsOf(ps[..|ps| - 1]) + ps[|ps| - 1].count
  }

  function AddBuckets(a: map<string, nat>, b: map<string, nat>): map<string, nat> {
    map k | k in a.Keys + b.Keys :: (if k in a then a[k] else 0) + (if k in b then b[k] else 0)
  }

  function MergedBuckets(ps: seq<AggPartial>): map<string, nat> {
    if ps == [] then map[] else AddBuckets(MergedBuckets(ps[..|ps| - 1]), ps[|ps| - 1].buckets)
  }

  function MergedDigest(s: Scale, ps: seq<AggPartial>): (d: Digest)
    ensures Consistent(d) && d.buffer == []
  {
    if ps == [] then EMPTY_DIGEST
    else
      var front := MergedDigest(s, ps[..|ps| - 1]);
      match ps[|ps| - 1].digest
      case Some(w) =>
        FromPartsIsConsistent(w.means, w.weights);
        MergeKeeps(s, front, Received(w), 0.0, 0.0);
        Merged(s, front, Received(w))
      case None => front
  }

  /** One more key of the added map. */
  lemma AddOneKey(buckets: map<string, nat>, more: map<string, nat>, todo: set<string>, k: string)
    requires k in todo && todo <= more.Keys
    ensures Bump(AddBuckets(buckets, more - todo), k, more[k]) == AddBuckets(buckets, more - (todo - {k}))
  {
  }

  method SumBuckets(buckets: map<string, nat>, more: map<string, nat>) returns (out: map<string, nat>)
    ensures out == AddBuckets(buckets, more)
  {
    hide AddBuckets, Bump;
    out := buckets;
    var todo := more.Keys;
    assert buckets == AddBuckets(buckets, more - todo) by { AddNothing(buckets, more); }
    while todo != {}
      invariant todo <= more.Keys
      invariant out == AddBuckets(buckets, more - todo)
      decreases |todo|
    {
      var k :| k in todo;
      AddOneKey(buckets, more, todo, k);
      out := Bump(out, k, more[k]);
      todo := todo - {k};
    }
    assert more - todo == more;
  }

  lemma AddNothing(buckets: map<string, nat>, more: map<string, nat>)
    ensures AddBuckets(buckets, more - more.Keys) == buckets
  {
  }

  lemma ReceivedIs(w: WireDigest)
    ensures Received(w) == FromParts(w.means, w.weights) && Consistent(Received(w))
  {
    FromPartsIsConsistent(w.means, w.weights);
  }

  lemma NonEmptyHasQuantiles(d: Digest, q: real)
    requires Consistent(d) && d.buffer == [] && d.count != 0.0
    ensures d.centroids != [] && Positive(d.centroids) && Quantile(d, q).Some?
  {
  }

  lemma EmptyIsCompressed(s: Scale)
    ensures Compressed(s, EMPTY_DIGEST) == EMPTY_DIGEST
  {
  }

  lemma {:induction false} AlreadyCompressed(s: Scale, ps: seq<AggPartial>)
    requires s.Valid()
    ensures Compressed(s, MergedDigest(s, ps)) == MergedDigest(s, ps)
  {
    hide Compressed, Scale.Valid, Received, Weighed, SortedMeans, Positive;
    if ps == [] {
      EmptyIsCompressed(s);
    } else {
      AlreadyCompressed(s, ps[..|ps| - 1]);
      match ps[|ps| - 1].digest {
        case Some(w) =>
          var front := MergedDigest(s, ps[..|ps| - 1]);
          ReceivedIs(w);
          PooledIsWeighed(front, Received(w));
          CompressIsIdempotent(s, Pooled(front, Received(w)));
        case None =>
      }
    }
  }

  method Resolve(digest: TDigest, requested: seq<real>) returns (percentiles: seq<Percentile>)
    requires Consistent(digest.View()) && digest.buffer == [] && digest.count != 0.0
    ensures |percentiles| == |requested|
    ensures forall i :: 0 <= i < |percentiles| ==>
              percentiles[i].p == requested[i] &&
              Quantile(digest.View(), requested[i] / 100.0) == Some(percentiles[i].value)
  {
    assert Positive(digest.centroids);
    hide Quantile, Consistent, Positive;
    percentiles := [];
    for i := 0 to |requested|
      invariant |percentiles| == i
      invariant forall j :: 0 <= j < i ==>
                  percentiles[j].p == requested[j] &&
                  Quantile(digest.View(), requested[j] / 100.0) == Some(percentiles[j].value)
    {
      NonEmptyHasQuantiles(digest.View(), requested[i] / 100.0);
      var x := digest.QuantileAt(requested[i] / 100.0);
      percentiles := percentiles + [Percentile(requested[i], x.value)];
    }
  }

  /** Ship a digest that is already compressed: it goes out as it stands. */
  method Resend(digest: TDigest) returns (wire: Option<WireDigest>)
    requires digest.Valid() && Compressed(digest.scale, digest.View()) == digest.View() && digest.buffer == []
    modifies digest
    ensures wire.Some? && Received(wire.value) == old(digest.View())
  {
    hide Compressed, Consistent;
    var means, weights := digest.ToParts();
    WireRoundTrip(digest.View());
    wire := Some(WireDigest(means, weights));
  }

  /** Merge the partials in the order they arrived; resolve percentiles from the merged digest. */
  method MergePartials(s: Scale, kind: AggKind, partials: seq<AggPartial>, requested: seq<real>)
    returns (merged: AggPartial, percentiles: seq<Percentile>)
    requires s.Valid()
    ensures merged.kind == kind && merged.count == CountsOf(partials) && merged.buckets == MergedBuckets(partials)
    ensures merged.digest.Some? <==> kind == Percentiles
    ensures merged.digest.Some? ==> Received(merged.digest.value) == MergedDigest(s, partials)
    ensures percentiles != [] ==> kind == Percentiles && |percentiles| == |requested|
    ensures kind == Percentiles && MergedDigest(s, partials).count != 0.0 ==> |percentiles| == |requested|
    ensures forall i :: 0 <= i < |percentiles| ==>
              percentiles[i].p == requested[i] &&
              Quantile(MergedDigest(s, partials), requested[i] / 100.0) == Some(percentiles[i].value)
  {
    hide AddBuckets, Merged, Compressed, Consistent, FromParts, Quantile, Scale.Valid, Small, Received;
    var count, buckets := 0, map[];
    var digest := new TDigest(s);
    assert partials[..0] == [];
    for i := 0 to |partials|
      invariant count == CountsOf(partials[..i]) && buckets == MergedBuckets(partials[..i])
      invariant fresh(digest) && digest.scale == s && digest.Valid() && digest.View() == MergedDigest(s, partials[..i])
    {
      assert partials[..i + 1][..i] == partials[..i];
      count := count + partials[i].count;
      buckets := SumBuckets(buckets, partials[i].buckets);
      if partials[i].digest.Some? {
        var w := partials[i].digest.value;
        var shard := new TDigest.FromWire(s, w.means, w.weights);
        ReceivedIs(w);
        digest.Merge(shard);
      }
    }
    assert partials[..|partials|] == partials;
    AlreadyCompressed(s, partials);
    percentiles := [];
    if kind == Percentiles {
      if !digest.IsEmpty() {
        percentiles := Resolve(digest, requested);
      }
    }
    var wire: Option<WireDigest> := None;
    if kind == Percentiles {
      wire := Resend(digest);
    }
    merged := AggPartial(kind, count, buckets, wire);
  }

  // ---- distribution is invisible ----

  function AllDocs(shards: seq<seq<FlightDocument>>): seq<FlightDocument> {
    if shards == [] then [] else AllDocs(shards[..|shards| - 1]) + shards[|shards| - 1]
  }

  lemma {:induction false} BucketsConcat(req: AggRequest, a: seq<FlightDocument>, b: seq<FlightDocument>)
    ensures BucketsOf(req, a + b) == BucketsOf(req, a) + BucketsOf(req, b)
    decreases |b|
  {
    hide BucketOf;
    if b == [] {
      assert a + b == a;
    } else {
      BucketsConcat(req, a, b[..|b| - 1]);
      assert (a + b)[..|a + b| - 1] == a + b[..|b| - 1];
    }
  }

  lemma {:induction false} SamplesConcat(req: AggRequest, a: seq<FlightDocument>, b: seq<FlightDocument>)
    ensures SamplesOf(req, a + b) == SamplesOf(req, a) + SamplesOf(req, b)
    decreases |b|
  {
    hide SampleOf;
    if b == [] {
      assert a + b == a;
    } else {
      SamplesConcat(req, a, b[..|b| - 1]);
      assert (a + b)[..|a + b| - 1] == a + b[..|b| - 1];
    }
  }

  lemma AddFreqMaps(a: multiset<string>, b: multiset<string>)
    ensures AddBuckets(FreqMap(a), FreqMap(b)) == FreqMap(a + b)
  {
  }

  /** Merging the shards' partials, in any order of arrival, summarises all their documents. */
  lemma {:induction false} MergeOfShards(s: Scale, req: AggRequest, ps: seq<AggPartial>, shards: seq<seq<FlightDocument>>)
    requires |ps| == |shards| && forall i :: 0 <= i < |ps| ==> IsPartialOf(req, ps[i], shards[i])
    ensures CountsOf(ps) == |AllDocs(shards)|
    ensures MergedBuckets(ps) == FreqMap(BucketsOf(req, AllDocs(shards)))
    ensures req.kind == Percentiles ==> Summarises(MergedDigest(s, ps), SamplesOf(req, AllDocs(shards)))
  {
    hide FreqMap, AddBuckets, Summarises, Merged, Consistent, SampleOf, BucketOf;
    if ps == [] {
      NoTokens();
      NothingSummarised();
    } else {
      var last := |ps| - 1;
      MergeOfShards(s, req, ps[..last], shards[..last]);
      var all, docs := AllDocs(shards[..last]), shards[last];
      BucketsConcat(req, all, docs);
      AddFreqMaps(BucketsOf(req, all), BucketsOf(req, docs));
      SamplesConcat(req, all, docs);
      assert IsPartialOf(req, ps[last], docs);
      if req.kind == Percentiles {
        var w := ps[last].digest.value;
        SummaryIsConsistent(MergedDigest(s, ps[..last]), SamplesOf(req, all));
        SummaryIsConsistent(Received(w), SamplesOf(req, docs));
        MergeSummarises(s, MergedDigest(s, ps[..last]), Received(w), SamplesOf(req, all), SamplesOf(req, docs));
      }
    }
  }

  lemma WithoutDoc(req: AggRequest, docs: seq<FlightDocument>, i: nat)
    requires i < |docs|
    ensures var rest := docs[..i] + docs[i + 1..];
            && multiset(rest) == multiset(docs) - multiset{docs[i]}
            && BucketsOf(req, docs) == BucketsOf(req, rest) + BucketsOf(req, [docs[i]])
            && |SamplesOf(req, docs)| == |SamplesOf(req, rest)| + |SamplesOf(req, [docs[i]])|
            && Sum(SamplesOf(req, docs)) == Sum(SamplesOf(req, rest)) + Sum(SamplesOf(req, [docs[i]]))
            && multiset(SamplesOf(req, docs)) == multiset(SamplesOf(req, rest)) + multiset(SamplesOf(req, [docs[i]]))
  {
    hide BucketsOf, SamplesOf, Sum;
    var left, one, right := docs[..i], [docs[i]], docs[i + 1..];
    assert docs == left + one + right;
    BucketsConcat(req, left + one, right);
    BucketsConcat(req, left, one);
    BucketsConcat(req, left, right);
    SamplesConcat(req, left + one, right);
    SamplesConcat(req, left, one);
    SamplesConcat(req, left, right);
    SumConcat(SamplesOf(req, left + one), SamplesOf(req, right));
    SumConcat(SamplesOf(req, left), SamplesOf(req, one));
    SumConcat(SamplesOf(req, left), SamplesOf(req, right));
  }

  /** What a bag of documents amounts to does not depend on their order. */
  lemma {:induction false} DocOrderIrrelevant(req: AggRequest, a: seq<FlightDocument>, b: seq<FlightDocument>)
    requires multiset(a) == multiset(b)
    ensures |a| == |b| && BucketsOf(req, a) == BucketsOf(req, b)
    ensures |SamplesOf(req, a)| == |SamplesOf(req, b)| && Sum(SamplesOf(req, a)) == Sum(SamplesOf(req, b))
    ensures multiset(SamplesOf(req, a)) == multiset(SamplesOf(req, b))
    decreases |a|
  {
    hide BucketsOf, SamplesOf, Sum;
    SameSize(a, b);
    if a == [] {
      assert b == [];
    } else {
      var d := a[0];
      assert d in multiset(b);
      var i :| 0 <= i < |b| && b[i] == d;
      WithoutDoc(req, a, 0);
      WithoutDoc(req, b, i);
      DocOrderIrrelevant(req, a[..0] + a[1..], b[..i] + b[i + 1..]);
    }
  }

  lemma SummaryOfPermuted(d: Digest, a: seq<real>, b: seq<real>)
    requires Summarises(d, a) && multiset(a) == multiset(b) && Sum(a) == Sum(b)
    ensures Summarises(d, b)
  {
    hide Consistent, Mass, InRange;
    SameSize(a, b);
    forall lo: real, hi: real | Bounds(b, lo, hi)
      ensures Bounds(a, lo, hi)
    {
      assert forall i :: 0 <= i < |a| ==> a[i] in multiset(a);
      assert forall x :: x in multiset(b) ==> x in b;
    }
  }

  /**
   However the documents are split over shards and in whatever order the partials arrive, the
   merge has the count and every bucket of one pass over all the documents, and its digest
   has exactly their weight and mass, within their range.
   */
  lemma DistributionIsInvisible(s: Scale, req: AggRequest, ps: seq<AggPartial>, shards: seq<seq<FlightDocument>>,
                                all: seq<FlightDocument>, whole: AggPartial)
    requires |ps| == |shards| && forall i :: 0 <= i < |ps| ==> IsPartialOf(req, ps[i], shards[i])
    requires multiset(all) == multiset(AllDocs(shards)) && IsPartialOf(req, whole, all)
    ensures CountsOf(ps) == whole.count && MergedBuckets(ps) == whole.buckets
    ensures req.kind == Percentiles ==>
              && Summarises(MergedDigest(s, ps), SamplesOf(req, all))
              && MergedDigest(s, ps).count == Received(whole.digest.value).count
              && Mass(MergedDigest(s, ps)) == Mass(Received(whole.digest.value))
  {
    hide FreqMap, MergedBuckets, MergedDigest, BucketsOf, SamplesOf, CountsOf, Received, Consistent, Mass, InRange, Bounds;
    MergeOfShards(s, req, ps, shards);
    DocOrderIrrelevant(req, AllDocs(shards), all);
    if req.kind == Percentiles {
      SummaryOfPermuted(MergedDigest(s, ps), SamplesOf(req, AllDocs(shards)), SamplesOf(req, all));
    }
  }

  /** Resolved percentiles lie within the samples' range and grow with the requested rank. */
  lemma PercentilesAreInRange(d: Digest, samples: seq<real>, lo: real, hi: real, p1: real, p2: real)
    requires Summarises(d, samples) && d.buffer == [] && samples != [] && Bounds(samples, lo, hi) && p1 <= p2
    ensures Positive(d.centroids)
    ensures var low, high := Quantile(d, p1 / 100.0), Quantile(d, p2 / 100.0);
            low.Some? && high.Some? && lo <= low.value <= high.value <= hi
  {
    NonEmptyHasQuantiles(d, 0.0);
    assert InRange(d, lo, hi);
    hide Quantile, Bounds;
    QuantileIsMonotone(d, p1 / 100.0, p2 / 100.0);
  }
}
