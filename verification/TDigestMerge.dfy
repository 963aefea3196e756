/**
 The algebra of merging digests: when the order of two digests does not matter, and when
 three may be merged in either grouping.
 */
module TDigestMerges {
  import opened Prelude
  import opened TDigestSpec

  // ---- ties under the stable sort ----

  /** The points of one mean, in order. */
  function Tied(ps: seq<Centroid>, m: real): seq<Centroid> {
    if ps == [] then []
    else (if ps[0].mean == m then [ps[0]] else []) + Tied(ps[1..], m)
  }

  lemma TiedOnce(ps: seq<Centroid>, m: real)
    requires ps != []
    ensures Tied(ps, m) == (if ps[0].mean == m then [ps[0]] else []) + Tied(ps[1..], m)
  {
  }

  lemma {:induction false} TiedConcat(a: seq<Centroid>, b: seq<Centroid>, m: real)
    ensures Tied(a + b, m) == Tied(a, m) + Tied(b, m)
  {
    hide Tied;
    if a == [] {
      assert a + b == b && Tied([], m) == [] by { TiedNothing(m); }
    } else {
      assert (a + b)[1..] == a[1..] + b;
      TiedOnce(a + b, m);
      TiedOnce(a, m);
      TiedConcat(a[1..], b, m);
    }
  }

  lemma TiedNothing(m: real)
    ensures Tied([], m) == []
  {
  }

  lemma {:induction false} InsertTied(p: Centroid, ps: seq<Centroid>, m: real)
    ensures Tied(Insert(p, ps), m) == Tied([p] + ps, m)
  {
    assert ([p] + ps)[1..] == ps;
    if ps != [] && p.mean > ps[0].mean {
      InsertTied(p, ps[1..], m);
      assert ([p] + ps[1..])[1..] == ps[1..];
      assert Insert(p, ps)[1..] == Insert(p, ps[1..]);
    }
  }

  /** The sort is stable: points of one mean keep their order. */
  lemma {:induction false} SortTied(ps: seq<Centroid>, m: real)
    ensures Tied(SortByMean(ps), m) == Tied(ps, m)
  {
    if ps != [] {
      SortTied(ps[1..], m);
      InsertTied(ps[0], SortByMean(ps[1..]), m);
      assert ([ps[0]] + SortByMean(ps[1..]))[1..] == SortByMean(ps[1..]);
    }
  }

  lemma {:induction false} TiedMembers(ps: seq<Centroid>, m: real)
    ensures Tied(ps, m) != [] <==> exists i :: 0 <= i < |ps| && ps[i].mean == m
  {
    if ps != [] {
      TiedMembers(ps[1..], m);
      if i :| 0 <= i < |ps| && ps[i].mean == m {
        assert i > 0 ==> ps[1..][i - 1].mean == m;
      }
    }
  }

  lemma TiedHead(ps: seq<Centroid>)
    requires ps != []
    ensures Tied(ps, ps[0].mean) != [] && Tied(ps, ps[0].mean)[0] == ps[0]
  {
  }

  lemma TiedTail(ps: seq<Centroid>, m: real)
    requires ps != []
    ensures Tied(ps[1..], m) == if ps[0].mean == m then Tied(ps, m)[1..] else Tied(ps, m)
  {
  }

  ghost predicate SameTies(a: seq<Centroid>, b: seq<Centroid>) {
    forall m :: Tied(a, m) == Tied(b, m)
  }

  /** A sorted list is determined by its ties. */
  lemma {:induction false} TiesDecide(a: seq<Centroid>, b: seq<Centroid>)
    requires SortedMeans(a) && SortedMeans(b) && SameTies(a, b)
    ensures a == b
    decreases |a|
  {
    hide Tied;
    if a == [] {
      if b != [] {
        TiedMembers(b, b[0].mean);
        TiedMembers(a, b[0].mean);
      }
    } else {
      var x := a[0].mean;
      TiedHead(a);
      TiedMembers(b, x);
      assert Tied(a, x) == Tied(b, x);
      TiedHead(b);
      TiedMembers(a, b[0].mean);
      assert Tied(a, b[0].mean) == Tied(b, b[0].mean);
      assert b[0].mean == x;
      forall m
        ensures Tied(a[1..], m) == Tied(b[1..], m)
      {
        assert Tied(a, m) == Tied(b, m);
        TiedTail(a, m);
        TiedTail(b, m);
      }
      TiesDecide(a[1..], b[1..]);
      assert a == [a[0]] + a[1..] && b == [b[0]] + b[1..];
    }
  }

  lemma SortKeepsTies(a: seq<Centroid>, b: seq<Centroid>)
    ensures SameTies(SortByMean(a), SortByMean(b)) <==> SameTies(a, b)
  {
    hide Tied, SortByMean;
    forall m
      ensures Tied(SortByMean(a), m) == Tied(a, m) && Tied(SortByMean(b), m) == Tied(b, m)
    {
      SortTied(a, m);
      SortTied(b, m);
    }
  }

  lemma SortsAlike(a: seq<Centroid>, b: seq<Centroid>)
    ensures SortByMean(a) == SortByMean(b) <==> SameTies(a, b)
  {
    hide SameTies, SortByMean, SortedMeans;
    SortKeepsTies(a, b);
    if SortByMean(a) == SortByMean(b) {
      assert SameTies(SortByMean(a), SortByMean(b)) by { SameAsItself(SortByMean(a)); }
    }
    if SameTies(a, b) {
      SortKeeps(a);
      SortKeeps(b);
      TiesDecide(SortByMean(a), SortByMean(b));
    }
  }

  lemma SameAsItself(a: seq<Centroid>)
    ensures SameTies(a, a)
  {
  }

  // ---- linear scales ----

  /** Up to total / steps in weight goes into one centroid. */
  function Linear(steps: real): Scale {
    Scale(2.0 * steps, q => steps * q)
  }

  lemma LinearIsValid(steps: real)
    requires steps > 0.0
    ensures Linear(steps).Valid()
  {
  }

  lemma LinearK(steps: real, at: real, total: real)
    requires total > 0.0 && 0.0 <= at <= total
    ensures Linear(steps).K(at / total) * total == steps * at
  {
    DivLe(0.0, at, total);
    DivLe(at, total, total);
    var q := at / total;
    assert Linear(steps).K(q) == steps * q;
    assert q * total == at;
    assert steps * q * total == steps * (q * total);
  }

  lemma LinearStep(steps: real, total: real, cum: real, right: real)
    requires steps > 0.0 && total > 0.0 && 0.0 <= cum <= right <= total
    ensures OneStep(Linear(steps), total, cum, right) <==> steps * (right - cum) <= total
  {
    hide Linear, Scale.K;
    LinearK(steps, cum, total);
    LinearK(steps, right, total);
    var a, b := Linear(steps).K(cum / total), Linear(steps).K(right / total);
    assert (b - a) * total == b * total - a * total;
    assert steps * (right - cum) == steps * right - steps * cum;
    ScaledBound(b - a, total);
  }

  lemma ScaledBound(x: real, t: real)
    requires t > 0.0
    ensures x <= 1.0 <==> x * t <= t
  {
  }

  /** No two neighbours fit into one centroid. */
  ghost predicate Apart(steps: real, total: real, ps: seq<Centroid>) {
    forall i :: 0 <= i < |ps| - 1 ==> steps * (ps[i].weight + ps[i + 1].weight) > total
  }

  lemma ApartTail(steps: real, total: real, ps: seq<Centroid>)
    requires Apart(steps, total, ps) && |ps| > 1
    ensures Apart(steps, total, ps[1..]) && steps * (ps[0].weight + ps[1].weight) > total
  {
    var rest := ps[1..];
    forall i | 0 <= i < |rest| - 1
      ensures steps * (rest[i].weight + rest[i + 1].weight) > total
    {
      assert rest[i] == ps[i + 1] && rest[i + 1] == ps[i + 1 + 1];
    }
    assert ps[0 + 1] == ps[1];
  }

  lemma NotOneStep(steps: real, total: real, cum: real, ps: seq<Centroid>)
    requires steps > 0.0 && total > 0.0 && cum >= 0.0 && |ps| > 1 && Positive(ps)
    requires cum + Total(ps) <= total && steps * (ps[0].weight + ps[1].weight) > total
    ensures !OneStep(Linear(steps), total, cum, cum + (ps[0].weight + ps[1].weight))
    ensures cum + ps[0].weight + Total(ps[1..]) <= total
  {
    hide OneStep, Linear, Total;
    TotalIsPositive(ps[1..][1..]);
    WeighsOnce(ps);
    WeighsOnce(ps[1..]);
    var right := cum + (ps[0].weight + ps[1].weight);
    assert right - cum == ps[0].weight + ps[1].weight;
    LinearStep(steps, total, cum, right);
  }

  lemma ClusterSplits(s: Scale, total: real, cum: real, ps: seq<Centroid>)
    requires total > 0.0 && |ps| > 1 && Positive(ps) && !OneStep(s, total, cum, cum + (ps[0].weight + ps[1].weight))
    ensures Cluster(s, total, cum, ps[0], ps[1..]) ==
            [ps[0]] + Cluster(s, total, cum + ps[0].weight, ps[1..][0], ps[1..][1..])
  {
    hide OneStep;
  }

  lemma {:induction false} ApartStays(steps: real, total: real, cum: real, ps: seq<Centroid>)
    requires steps > 0.0 && total > 0.0 && cum >= 0.0 && ps != [] && Positive(ps)
    requires cum + Total(ps) <= total && Apart(steps, total, ps)
    ensures Cluster(Linear(steps), total, cum, ps[0], ps[1..]) == ps
    decreases |ps|
  {
    hide OneStep, Apart, Linear, Total, Cluster;
    if |ps| == 1 {
      ClusterOfOne(Linear(steps), total, cum, ps[0]);
      assert ps == [ps[0]];
    } else {
      ApartTail(steps, total, ps);
      NotOneStep(steps, total, cum, ps);
      ClusterSplits(Linear(steps), total, cum, ps);
      ApartStays(steps, total, cum + ps[0].weight, ps[1..]);
      assert ps == [ps[0]] + ps[1..];
    }
  }

  function Least(ps: seq<Centroid>): (w: real)
    requires ps != [] && Positive(ps)
    ensures w > 0.0 && forall i :: 0 <= i < |ps| ==> w <= ps[i].weight
  {
    if |ps| == 1 then ps[0].weight
    else
      var w := Least(ps[1..]);
      assert forall i :: 0 < i < |ps| ==> ps[i] == ps[1..][i - 1];
      if w < ps[0].weight then w else ps[0].weight
  }

  lemma HeavyPair(steps: real, total: real, w: real, x: real, y: real)
    requires steps > 0.0 && total > 0.0 && 0.0 < w <= x && w <= y && steps * w > total
    ensures steps * (x + y) > total
  {
    MulLe(w, x + y, steps);
  }

  lemma HeavyIsApart(steps: real, total: real, w: real, ps: seq<Centroid>, qs: seq<Centroid>)
    requires steps > 0.0 && total > 0.0 && w > 0.0 && steps * w > total && multiset(ps) == multiset(qs)
    requires forall i :: 0 <= i < |ps| ==> w <= ps[i].weight
    ensures Apart(steps, total, qs)
  {
    forall i | 0 <= i < |qs|
      ensures w <= qs[i].weight
    {
      assert qs[i] in multiset(qs);
      assert qs[i] in ps;
    }
    forall i | 0 <= i < |qs| - 1
      ensures steps * (qs[i].weight + qs[i + 1].weight) > total
    {
      HeavyPair(steps, total, w, qs[i].weight, qs[i + 1].weight);
    }
  }

  /** A scale so fine that nothing is absorbed. */
  lemma FineEnough(ps: seq<Centroid>, qs: seq<Centroid>) returns (s: Scale)
    requires ps != [] && Positive(ps) && Positive(qs) && multiset(ps) == multiset(qs) && Total(ps) == Total(qs)
    ensures qs != [] && Total(ps) > 0.0 && s.Valid()
    ensures Cluster(s, Total(ps), 0.0, ps[0], ps[1..]) == ps && Cluster(s, Total(ps), 0.0, qs[0], qs[1..]) == qs
  {
    hide Cluster, Total, Apart, Linear;
    SameSize(ps, qs);
    TotalIsPositive(ps);
    var total, w := Total(ps), Least(ps);
    var steps := total / w + 1.0;
    DivLe(0.0, total, w);
    assert total / w * w == total;
    s := Linear(steps);
    LinearIsValid(steps);
    HeavyIsApart(steps, total, w, ps, ps);
    HeavyIsApart(steps, total, w, ps, qs);
    ApartStays(steps, total, 0.0, ps);
    ApartStays(steps, total, 0.0, qs);
  }

  // ---- two digests ----

  /** At every mean the two lists commute. */
  ghost predicate TiesCommute(a: Digest, b: Digest) {
    forall m :: Tied(a.centroids, m) + Tied(b.centroids, m) == Tied(b.centroids, m) + Tied(a.centroids, m)
  }

  lemma {:induction false} TiedSingles(xs: seq<real>, m: real)
    ensures forall p :: p in Tied(Singles(xs), m) ==> p == Centroid(m, 1.0)
  {
    if xs != [] {
      assert Singles(xs)[1..] == Singles(xs[1..]);
      TiedSingles(xs[1..], m);
    }
  }

  lemma SinglesCommute(xs: seq<real>, ys: seq<real>, m: real)
    ensures Tied(Singles(xs + ys), m) == Tied(Singles(ys + xs), m)
  {
    hide Tied;
    TiedSingles(xs + ys, m);
    TiedSingles(ys + xs, m);
    assert Singles(xs + ys) == Singles(xs) + Singles(ys) && Singles(ys + xs) == Singles(ys) + Singles(xs);
    TiedConcat(Singles(xs), Singles(ys), m);
    TiedConcat(Singles(ys), Singles(xs), m);
    var a, b := Tied(Singles(xs + ys), m), Tied(Singles(ys + xs), m);
    forall i | 0 <= i < |a|
      ensures a[i] == b[i]
    {
      assert a[i] in a && b[i] in b;
    }
  }

  lemma SameFront<T>(a: seq<T>, b: seq<T>, tail: seq<T>)
    ensures a + tail == b + tail <==> a == b
  {
    if a + tail == b + tail {
      assert |a| == |b|;
      assert a == (a + tail)[..|a|] && b == (b + tail)[..|b|];
    }
  }

  lemma PoolsAlike(a: Digest, b: Digest)
    ensures GatheredPoints(Pooled(a, b)) == GatheredPoints(Pooled(b, a)) <==> TiesCommute(a, b)
  {
    hide Tied, SortByMean;
    var x := a.centroids + b.centroids + Singles(a.buffer + b.buffer);
    var y := b.centroids + a.centroids + Singles(b.buffer + a.buffer);
    SortsAlike(x, y);
    forall m
      ensures Tied(x, m) == Tied(y, m) <==>
              Tied(a.centroids, m) + Tied(b.centroids, m) == Tied(b.centroids, m) + Tied(a.centroids, m)
    {
      TiedConcat(a.centroids + b.centroids, Singles(a.buffer + b.buffer), m);
      TiedConcat(a.centroids, b.centroids, m);
      TiedConcat(b.centroids + a.centroids, Singles(b.buffer + a.buffer), m);
      TiedConcat(b.centroids, a.centroids, m);
      SinglesCommute(a.buffer, b.buffer, m);
      SameFront(Tied(a.centroids, m) + Tied(b.centroids, m), Tied(b.centroids, m) + Tied(a.centroids, m),
                Tied(Singles(a.buffer + b.buffer), m));
    }
    assert SameTies(x, y) <==> TiesCommute(a, b);
  }

  lemma GatheredSize(d: Digest)
    ensures |GatheredPoints(d)| == |d.centroids| + |d.buffer|
  {
    SortKeeps(d.centroids + Singles(d.buffer));
  }

  lemma FewPoints(d: Digest)
    requires d.buffer == [] && |d.centroids| <= 1
    ensures GatheredPoints(d) == d.centroids
  {
    assert d.centroids + Singles(d.buffer) == d.centroids;
    SortOfSorted(d.centroids);
  }

  lemma OnePoint(s: Scale, d: Digest)
    requires Weighed(d) && |d.centroids| + |d.buffer| <= 1
    ensures Compressed(s, d) == Digest(GatheredPoints(d), [], d.count)
  {
    hide SortByMean, Total, Moment;
    if d.buffer == [] {
      FewPoints(d);
    } else {
      CompressedIs(s, d);
      var ps := GatheredPoints(d);
      assert ps == [ps[0]] && ps[1..] == [];
    }
  }

  /** Compression looks at the sorted points and the count only. */
  lemma CompressedAlike(s: Scale, d: Digest, e: Digest)
    requires Weighed(d) && Weighed(e) && d.count == e.count && GatheredPoints(d) == GatheredPoints(e)
    ensures Compressed(s, d) == Compressed(s, e)
  {
    hide Cluster, Total, SortByMean, Singles, Insert, GatheredPoints;
    GatheredSize(d);
    GatheredSize(e);
    if |d.centroids| + |d.buffer| <= 1 {
      OnePoint(s, d);
      OnePoint(s, e);
    } else {
      CompressedIs(s, d);
      CompressedIs(s, e);
    }
  }

  lemma PooledSamePoints(a: Digest, b: Digest)
    ensures multiset(GatheredPoints(Pooled(a, b))) == multiset(GatheredPoints(Pooled(b, a)))
  {
    hide SortByMean, SortedMeans, Total, Moment;
    SortKeeps(a.centroids + b.centroids + Singles(a.buffer + b.buffer));
    SortKeeps(b.centroids + a.centroids + Singles(b.buffer + a.buffer));
    assert Singles(a.buffer + b.buffer) == Singles(a.buffer) + Singles(b.buffer);
    assert Singles(b.buffer + a.buffer) == Singles(b.buffer) + Singles(a.buffer);
  }

  /**
   Merging in either order gives the same digest under every scale exactly when, at every
   mean the two share, their centroids commute: the sort is stable, so ties keep the order
   in which the digests came.
   */
  lemma MergeCommutes(a: Digest, b: Digest)
    requires Weighed(a) && Weighed(b)
    ensures (forall s: Scale :: s.Valid() ==> Merged(s, a, b) == Merged(s, b, a)) <==> TiesCommute(a, b)
  {
    hide Compressed, GatheredPoints, TiesCommute, Total, Scale.Valid;
    PooledIsWeighed(a, b);
    PooledIsWeighed(b, a);
    PoolsAlike(a, b);
    if TiesCommute(a, b) {
      forall s: Scale | s.Valid()
        ensures Merged(s, a, b) == Merged(s, b, a)
      {
        CompressedAlike(s, Pooled(a, b), Pooled(b, a));
      }
    } else {
      var s := TellsApart(a, b);
      assert Merged(s, a, b) != Merged(s, b, a);
    }
  }

  /** Under a scale that absorbs nothing the merged centroids are the sorted points. */
  lemma TellsApart(a: Digest, b: Digest) returns (s: Scale)
    requires Weighed(a) && Weighed(b) && !TiesCommute(a, b)
    ensures s.Valid() && Merged(s, a, b) != Merged(s, b, a)
  {
    hide Cluster, GatheredPoints, TiesCommute, Total, Moment, Scale.Valid, Compressed, SortedMeans;
    PooledIsWeighed(a, b);
    PooledIsWeighed(b, a);
    PoolsAlike(a, b);
    PooledSamePoints(a, b);
    var d, e := Pooled(a, b), Pooled(b, a);
    GatheredSize(d);
    GatheredSize(e);
    if |d.centroids| + |d.buffer| <= 1 {
      LinearIsValid(1.0);
      s := Linear(1.0);
      OnePoint(s, d);
      OnePoint(s, e);
    } else {
      CompressedIs(Linear(1.0), d);
      CompressedIs(Linear(1.0), e);
      s := FineEnough(GatheredPoints(d), GatheredPoints(e));
      CompressedIs(s, d);
      CompressedIs(s, e);
    }
  }
}
