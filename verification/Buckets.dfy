/**
 What the buckets and samples of a partial aggregate count: for every kind, how many documents
 have a value in the interval, the cell or the field the key stands for.
 */
module Buckets {
  import opened Prelude
  import opened Documents
  import opened TDigestSpec
  import opened Aggregates

  // ---- fields by name ----

  const TEXT_FIELDS := {"callsign", "origin", "destination", "aircraft_type", "tenant_id"}
  const NUMBER_FIELDS :=
    {"altitude", "velocity", "heading", "vertical_rate", "latitude", "longitude", "observed_at"}

  /** The document's text field of this name has this value. */
  ghost predicate HasText(d: FlightDocument, field: string, v: string) {
    || (field == "callsign" && d.callsign == v)
    || (field == "origin" && d.origin == v)
    || (field == "destination" && d.destination == v)
    || (field == "aircraft_type" && d.aircraftType == v)
    || (field == "tenant_id" && d.tenantId == v)
    || (field !in TEXT_FIELDS && TextField(field, v) in d.text)
  }

  ghost predicate HasNumber(d: FlightDocument, field: string, x: real) {
    || (field == "altitude" && d.altitude == x)
    || (field == "velocity" && d.velocity == x)
    || (field == "heading" && d.heading == x)
    || (field == "vertical_rate" && d.verticalRate == x)
    || (field == "latitude" && d.latitude == x)
    || (field == "longitude" && d.longitude == x)
    || (field == "observed_at" && d.observedAt as real == x)
    || (field !in NUMBER_FIELDS && field in d.number && d.number[field] == x)
  }

  /** A map has one value under a name. */
  ghost predicate NamedOnce(fields: seq<TextField>) {
    forall i, j :: 0 <= i < j < |fields| ==> fields[i].name != fields[j].name
  }

  lemma {:induction false} GenericTextIs(fields: seq<TextField>, name: string, v: string)
    requires NamedOnce(fields)
    ensures GenericText(fields, name) == Some(v) <==> TextField(name, v) in fields
  {
    if fields != [] {
      var rest := fields[1..];
      assert forall i :: 0 <= i < |rest| ==> rest[i] == fields[i + 1];
      assert fields == [fields[0]] + rest;
      GenericTextIs(rest, name, v);
      if TextField(name, v) in rest {
        var i :| 0 <= i < |rest| && rest[i] == TextField(name, v);
        assert fields[0].name != fields[i + 1].name;
      }
    }
  }

  lemma TextValueIs(d: FlightDocument, field: string, v: string)
    requires NamedOnce(d.text)
    ensures TextValue(d, field) == Some(v) <==> HasText(d, field, v)
  {
    hide GenericText;
    GenericTextIs(d.text, field, v);
  }

  lemma NumericValueIs(d: FlightDocument, field: string, x: real)
    ensures NumericValue(d, field) == Some(x) <==> HasNumber(d, field, x)
  {
  }

  // ---- intervals ----

  /** The value lies in the n-th interval of the width, or of width one when none is given. */
  ghost predicate InInterval(x: real, interval: real, n: int) {
    var w := if interval > 0.0 then interval else 1.0;
    n as real * w <= x < n as real * w + w
  }

  /** The n-th interval's key. */
  function Bound(interval: real, n: int): real {
    n as real * (if interval > 0.0 then interval else 1.0)
  }

  lemma LowerBoundIs(x: real, interval: real, n: int)
    ensures LowerBound(x, interval) == Bound(interval, n) <==> InInterval(x, interval, n)
  {
    var w := Width(interval);
    var f := (x / w).Floor;
    LowerBoundBrackets(x, interval);
    SameMultiple(x, w, f, n, LowerBound(x, interval), Bound(interval, n));
  }

  lemma SameMultiple(x: real, w: real, f: int, n: int, a: real, b: real)
    requires w > 0.0 && a == f as real * w && b == n as real * w && a <= x < a + w
    ensures a == b <==> b <= x < b + w
  {
    if f < n {
      StepUp(f, n, w, a, b);
    } else if n < f {
      StepUp(n, f, w, b, a);
    }
  }

  lemma StepUp(f: int, n: int, w: real, a: real, b: real)
    requires w > 0.0 && f < n && a == f as real * w && b == n as real * w
    ensures a + w <= b
  {
    MulLe(f as real + 1.0, n as real, w);
    assert (f as real + 1.0) * w == a + w;
  }

  // ---- counts ----

  function CountAt(buckets: map<string, nat>, key: string): nat {
    if key in buckets then buckets[key] else 0
  }

  /** The documents counted under the key, by position. */
  ghost function Counted(req: AggRequest, docs: seq<FlightDocument>, key: string): set<nat> {
    set j: nat | j < |docs| && BucketOf(req, docs[j]) == Some(key)
  }

  lemma CountedGrows(req: AggRequest, front: seq<FlightDocument>, d: FlightDocument, key: string)
    ensures Counted(req, front + [d], key) ==
            Counted(req, front, key) + if BucketOf(req, d) == Some(key) then {|front|} else {}
    ensures |front| !in Counted(req, front, key)
  {
    hide BucketOf;
    var docs := front + [d];
    forall j: nat
      ensures j in Counted(req, docs, key) <==>
              j in Counted(req, front, key) || (j == |front| && BucketOf(req, d) == Some(key))
    {
      if j < |front| {
        assert docs[j] == front[j];
      } else if j == |front| {
        assert docs[j] == d;
      }
    }
  }

  lemma BucketsSnoc(req: AggRequest, front: seq<FlightDocument>, d: FlightDocument, key: string)
    ensures BucketsOf(req, front + [d])[key] == BucketsOf(req, front)[key] + if BucketOf(req, d) == Some(key) then 1 else 0
  {
    hide BucketOf;
    assert (front + [d])[..|front|] == front;
  }

  lemma {:induction false} BucketsCount(req: AggRequest, docs: seq<FlightDocument>, key: string)
    ensures BucketsOf(req, docs)[key] == |Counted(req, docs, key)|
  {
    hide BucketOf, BucketsOf, Counted;
    if docs == [] {
      NothingCounted(req, key);
    } else {
      var front, last := docs[..|docs| - 1], docs[|docs| - 1];
      assert docs == front + [last];
      BucketsCount(req, front, key);
      BucketsSnoc(req, front, last, key);
      CountedGrows(req, front, last, key);
    }
  }

  lemma NothingCounted(req: AggRequest, key: string)
    ensures BucketsOf(req, [])[key] == 0 && Counted(req, [], key) == {}
  {
  }

  lemma PartialCounts(req: AggRequest, p: AggPartial, docs: seq<FlightDocument>, key: string)
    requires IsPartialOf(req, p, docs)
    ensures CountAt(p.buckets, key) == |Counted(req, docs, key)|
  {
    hide BucketOf, Summarises;
    BucketsCount(req, docs, key);
  }

  /** Different bounds and different cells are written differently. */
  ghost predicate Faithful(f: Format) {
    && (forall x, y :: f.number(x) == f.number(y) ==> x == y)
    && (forall x, y, u, v :: f.cell(x, y) == f.cell(u, v) ==> x == u && y == v)
  }

  /** Value counts: a bucket holds the documents whose field has that value. */
  lemma ValueCountsAre(req: AggRequest, p: AggPartial, docs: seq<FlightDocument>, v: string)
    requires IsPartialOf(req, p, docs) && req.kind == ValueCounts && forall d :: d in docs ==> NamedOnce(d.text)
    ensures CountAt(p.buckets, v) == |set j: nat | j < |docs| && HasText(docs[j], req.field, v)|
  {
    hide Summarises, HasText, TextValue, NamedOnce;
    PartialCounts(req, p, docs, v);
    forall j: nat | j < |docs|
      ensures BucketOf(req, docs[j]) == Some(v) <==> HasText(docs[j], req.field, v)
    {
      assert docs[j] in docs;
      TextValueIs(docs[j], req.field, v);
    }
    assert Counted(req, docs, v) == (set j: nat | j < |docs| && HasText(docs[j], req.field, v));
  }

  /** Time histogram: the n-th bucket holds the documents observed in the n-th interval. */
  lemma TimeHistogramIs(req: AggRequest, p: AggPartial, docs: seq<FlightDocument>, n: int)
    requires IsPartialOf(req, p, docs) && req.kind == TimeHistogram && Faithful(req.format)
    ensures CountAt(p.buckets, req.format.number(Bound(req.interval, n))) ==
            |set j: nat | j < |docs| && InInterval(docs[j].observedAt as real, req.interval, n)|
  {
    hide Summarises, LowerBound, InInterval, Bound;
    var key := req.format.number(Bound(req.interval, n));
    PartialCounts(req, p, docs, key);
    forall j: nat | j < |docs|
      ensures BucketOf(req, docs[j]) == Some(key) <==> InInterval(docs[j].observedAt as real, req.interval, n)
    {
      LowerBoundIs(docs[j].observedAt as real, req.interval, n);
    }
    assert Counted(req, docs, key) == (set j: nat | j < |docs| && InInterval(docs[j].observedAt as real, req.interval, n));
  }

  /** Numeric histogram: the n-th bucket holds the documents whose field lies in the n-th interval. */
  lemma NumericHistogramIs(req: AggRequest, p: AggPartial, docs: seq<FlightDocument>, n: int)
    requires IsPartialOf(req, p, docs) && req.kind == NumericHistogram && Faithful(req.format)
    ensures CountAt(p.buckets, req.format.number(Bound(req.interval, n))) ==
            |set j: nat | j < |docs| && (exists x :: HasNumber(docs[j], req.field, x) && InInterval(x, req.interval, n))|
  {
    hide Summarises, LowerBound, InInterval, Bound, HasNumber, NumericValue;
    var key := req.format.number(Bound(req.interval, n));
    PartialCounts(req, p, docs, key);
    forall j: nat | j < |docs|
      ensures BucketOf(req, docs[j]) == Some(key) <==>
              exists x :: HasNumber(docs[j], req.field, x) && InInterval(x, req.interval, n)
    {
      forall x
        ensures NumericValue(docs[j], req.field) == Some(x) <==> HasNumber(docs[j], req.field, x)
        ensures LowerBound(x, req.interval) == Bound(req.interval, n) <==> InInterval(x, req.interval, n)
      {
        NumericValueIs(docs[j], req.field, x);
        LowerBoundIs(x, req.interval, n);
      }
    }
    assert Counted(req, docs, key) == (set j: nat | j < |docs| && exists x :: HasNumber(docs[j], req.field, x) && InInterval(x, req.interval, n));
  }

  /** Geo grid: the cell (a, b) holds the documents in its latitude and longitude intervals. */
  lemma GeoGridIs(req: AggRequest, p: AggPartial, docs: seq<FlightDocument>, a: int, b: int)
    requires IsPartialOf(req, p, docs) && req.kind == GeoGrid && Faithful(req.format)
    ensures CountAt(p.buckets, req.format.cell(Bound(req.interval, a), Bound(req.interval, b))) ==
            |set j: nat | j < |docs| && InInterval(docs[j].latitude, req.interval, a) && InInterval(docs[j].longitude, req.interval, b)|
  {
    hide Summarises, LowerBound, InInterval, Bound;
    var key := req.format.cell(Bound(req.interval, a), Bound(req.interval, b));
    PartialCounts(req, p, docs, key);
    forall j: nat | j < |docs|
      ensures BucketOf(req, docs[j]) == Some(key) <==>
              InInterval(docs[j].latitude, req.interval, a) && InInterval(docs[j].longitude, req.interval, b)
    {
      LowerBoundIs(docs[j].latitude, req.interval, a);
      LowerBoundIs(docs[j].longitude, req.interval, b);
    }
    assert Counted(req, docs, key) == (set j: nat | j < |docs| &&
             InInterval(docs[j].latitude, req.interval, a) && InInterval(docs[j].longitude, req.interval, b));
  }

  /** The documents with this value in the field, by position. */
  ghost function Having(docs: seq<FlightDocument>, field: string, x: real): set<nat> {
    set j: nat | j < |docs| && HasNumber(docs[j], field, x)
  }

  lemma HavingGrows(front: seq<FlightDocument>, d: FlightDocument, field: string, x: real)
    ensures Having(front + [d], field, x) == Having(front, field, x) + if HasNumber(d, field, x) then {|front|} else {}
  {
    hide HasNumber;
    var docs := front + [d];
    forall j: nat
      ensures j in Having(docs, field, x) <==>
              j in Having(front, field, x) || (j == |front| && HasNumber(d, field, x))
    {
      if j < |front| {
        assert docs[j] == front[j];
      } else if j == |front| {
        assert docs[j] == d;
      }
    }
  }

  lemma HavingOneMore(front: seq<FlightDocument>, d: FlightDocument, field: string, x: real)
    ensures |Having(front + [d], field, x)| == |Having(front, field, x)| + if HasNumber(d, field, x) then 1 else 0
  {
    hide HasNumber, Having;
    HavingGrows(front, d, field, x);
    assert |front| !in Having(front, field, x) by { HavingIs(front, field, x); }
  }

  lemma SampleSnoc(req: AggRequest, front: seq<FlightDocument>, d: FlightDocument, x: real)
    requires req.kind == Percentiles
    ensures multiset(SamplesOf(req, front + [d]))[x] ==
            multiset(SamplesOf(req, front))[x] + if NumericValue(d, req.field) == Some(x) then 1 else 0
  {
    hide NumericValue;
    assert (front + [d])[..|front|] == front;
  }

  /** The samples of a percentile request: the field's value of every document that has one. */
  lemma {:induction false} SamplesAre(req: AggRequest, docs: seq<FlightDocument>, x: real)
    requires req.kind == Percentiles
    ensures multiset(SamplesOf(req, docs))[x] == |set j: nat | j < |docs| && HasNumber(docs[j], req.field, x)|
  {
    hide HasNumber, NumericValue, SamplesOf, Having;
    if docs == [] {
      NoSamples(req, x);
    } else {
      var front, last := docs[..|docs| - 1], docs[|docs| - 1];
      SamplesAre(req, front, x);
      NumericValueIs(last, req.field, x);
      SampleSnoc(req, front, last, x);
      HavingOneMore(front, last, req.field, x);
      assert docs == front + [last];
      HavingIs(front, req.field, x);
    }
    HavingIs(docs, req.field, x);
  }

  lemma HavingIs(docs: seq<FlightDocument>, field: string, x: real)
    ensures Having(docs, field, x) == set j: nat | j < |docs| && HasNumber(docs[j], field, x)
  {
  }

  lemma NoSamples(req: AggRequest, x: real)
    ensures multiset(SamplesOf(req, []))[x] == 0 && Having([], req.field, x) == {}
  {
  }

  /** Counting alone makes no bucket, and every other kind no digest. */
  lemma CountOnly(req: AggRequest, p: AggPartial, docs: seq<FlightDocument>)
    requires IsPartialOf(req, p, docs) && (req.kind == Count || req.kind == Unspecified || req.kind == Percentiles)
    ensures p.buckets == map[]
  {
    hide Summarises;
    forall key: string
      ensures key !in p.buckets
    {
      PartialCounts(req, p, docs, key);
      assert Counted(req, docs, key) == {};
    }
  }
}
