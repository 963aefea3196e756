/**
 Whether three digests may be merged in either grouping: exactly which sizes allow it, and
 what a wider digest can lose.
 */
module TDigestGroupings {
  import opened Prelude
  import opened TDigestSpec
  import opened TDigestMerges

  /** What the wire carries: sorted centroids that compression leaves as they are. */
  ghost predicate Shipped(s: Scale, d: Digest) {
    Consistent(d) && d.buffer == [] && Compressed(s, d) == d
  }

  function LeftFirst(s: Scale, a: Digest, b: Digest, c: Digest): Digest
    requires Consistent(a) && Consistent(b) && Consistent(c)
  {
    MergeKeeps(s, a, b, 0.0, 0.0);
    Merged(s, Merged(s, a, b), c)
  }

  function RightFirst(s: Scale, a: Digest, b: Digest, c: Digest): Digest
    requires Consistent(a) && Consistent(b) && Consistent(c)
  {
    MergeKeeps(s, b, c, 0.0, 0.0);
    Merged(s, a, Merged(s, b, c))
  }

  // ---- when nothing is absorbed on the way ----

  lemma GatheredOf(d: Digest)
    requires d.buffer == []
    ensures GatheredPoints(d) == SortByMean(d.centroids)
  {
    assert d.centroids + Singles(d.buffer) == d.centroids;
  }

  /** Points too far apart to absorb one another only get sorted. */
  lemma SpreadIsKept(s: Scale, d: Digest)
    requires Weighed(d) && d.buffer == []
    requires Total(SortByMean(d.centroids)) > 0.0 ==>
               Spread(s, Total(SortByMean(d.centroids)), 0.0, SortByMean(d.centroids))
    ensures Compressed(s, d) == Digest(SortByMean(d.centroids), [], d.count)
  {
    hide Cluster, SortByMean, Total, Spread, Moment;
    GatheredOf(d);
    if |d.centroids| <= 1 {
      OnePoint(s, d);
    } else {
      CompressedIs(s, d);
      ClusterFixes(s, Total(GatheredPoints(d)), 0.0, GatheredPoints(d));
    }
  }

  lemma SortOfPool(x: seq<Centroid>, y: seq<Centroid>)
    ensures SortByMean(SortByMean(x) + y) == SortByMean(x + y) == SortByMean(x + SortByMean(y))
  {
    hide SortByMean, Tied, SameTies;
    assert SameTies(SortByMean(x) + y, x + y) && SameTies(x + SortByMean(y), x + y) by {
      PoolTies(x, y);
    }
    SortsAlike(SortByMean(x) + y, x + y);
    SortsAlike(x + SortByMean(y), x + y);
  }

  lemma PoolTies(x: seq<Centroid>, y: seq<Centroid>)
    ensures SameTies(SortByMean(x) + y, x + y) && SameTies(x + SortByMean(y), x + y)
  {
    hide SortByMean, Tied;
    forall m
      ensures Tied(SortByMean(x) + y, m) == Tied(x + y, m) == Tied(x + SortByMean(y), m)
    {
      TiedConcat(SortByMean(x), y, m);
      TiedConcat(x, y, m);
      TiedConcat(x, SortByMean(y), m);
      SortTied(x, m);
      SortTied(y, m);
    }
  }

  ghost predicate SpreadPool(s: Scale, a: Digest, b: Digest) {
    var points := SortByMean(a.centroids + b.centroids);
    Total(points) > 0.0 ==> Spread(s, Total(points), 0.0, points)
  }

  lemma PoolOf(a: Digest, b: Digest)
    requires a.buffer == [] && b.buffer == []
    ensures Pooled(a, b) == Digest(a.centroids + b.centroids, [], a.count + Total(b.centroids))
  {
  }

  /** If neither inner merge absorbs anything, the grouping does not matter. */
  lemma SpreadMergesAssociate(s: Scale, a: Digest, b: Digest, c: Digest)
    requires Consistent(a) && Consistent(b) && Consistent(c) && a.buffer == b.buffer == c.buffer == []
    requires SpreadPool(s, a, b) && SpreadPool(s, b, c)
    ensures LeftFirst(s, a, b, c) == RightFirst(s, a, b, c)
  {
    hide Compressed, SortByMean, Total, SortedMeans, Moment, GatheredPoints, Spread;
    PooledIsWeighed(a, b);
    PooledIsWeighed(b, c);
    PoolOf(a, b);
    PoolOf(b, c);
    SpreadIsKept(s, Pooled(a, b));
    SpreadIsKept(s, Pooled(b, c));
    var ab, bc := Merged(s, a, b), Merged(s, b, c);
    MergeKeeps(s, a, b, 0.0, 0.0);
    MergeKeeps(s, b, c, 0.0, 0.0);
    PooledIsWeighed(ab, c);
    PooledIsWeighed(a, bc);
    PoolOf(ab, c);
    PoolOf(a, bc);
    GatheredOf(Pooled(ab, c));
    GatheredOf(Pooled(a, bc));
    SortOfPool(a.centroids + b.centroids, c.centroids);
    SortOfPool(a.centroids, b.centroids + c.centroids);
    assert a.centroids + b.centroids + c.centroids == a.centroids + (b.centroids + c.centroids);
    CompressedAlike(s, Pooled(ab, c), Pooled(a, bc));
  }

  // ---- an empty digest ----

  lemma EmptyIsUnit(s: Scale, e: Digest, d: Digest)
    requires Shipped(s, e) && Shipped(s, d) && e.centroids == []
    ensures Merged(s, e, d) == d && Merged(s, d, e) == d
  {
    hide Compressed;
    assert e.centroids + d.centroids == d.centroids == d.centroids + e.centroids;
    assert e.buffer + d.buffer == [] == d.buffer + e.buffer;
  }

  lemma MergedIsShipped(s: Scale, a: Digest, b: Digest)
    requires s.Valid() && Consistent(a) && Consistent(b)
    ensures Shipped(s, Merged(s, a, b))
  {
    hide Compressed, Scale.Valid, Total, Moment, SortedMeans;
    MergeKeeps(s, a, b, 0.0, 0.0);
    PooledIsWeighed(a, b);
    CompressIsIdempotent(s, Pooled(a, b));
  }

  lemma EmptyAssociates(s: Scale, a: Digest, b: Digest, c: Digest)
    requires s.Valid() && Shipped(s, a) && Shipped(s, b) && Shipped(s, c)
    requires a.centroids == [] || b.centroids == [] || c.centroids == []
    ensures LeftFirst(s, a, b, c) == RightFirst(s, a, b, c)
  {
    hide Merged, Shipped, Scale.Valid;
    assert Consistent(a) && Consistent(b) && Consistent(c) by { ShippedIsConsistent(s, a); ShippedIsConsistent(s, b); ShippedIsConsistent(s, c); }
    MergedIsShipped(s, a, b);
    MergedIsShipped(s, b, c);
    if a.centroids == [] {
      EmptyIsUnit(s, a, b);
      EmptyIsUnit(s, a, Merged(s, b, c));
    } else if b.centroids == [] {
      EmptyIsUnit(s, b, a);
      EmptyIsUnit(s, b, c);
    } else {
      EmptyIsUnit(s, c, b);
      EmptyIsUnit(s, c, Merged(s, a, b));
    }
  }

  lemma ShippedIsConsistent(s: Scale, d: Digest)
    requires Shipped(s, d)
    ensures Consistent(d) && d.buffer == []
  {
  }

  // ---- three centroids ----

  /** Two points span the whole scale, which is more than one step. */
  lemma PairIsSpread(s: Scale, a: Digest, b: Digest)
    requires s.Valid() && s.delta > 2.0 && Consistent(a) && Consistent(b)
    requires |a.centroids| == |b.centroids| == 1
    ensures SpreadPool(s, a, b)
  {
    hide SortByMean, Scale.K, SortedMeans, Moment;
    var points := SortByMean(a.centroids + b.centroids);
    SortKeeps(a.centroids + b.centroids);
    var total := Total(points);
    assert points == [points[0], points[1]];
    WeighsOnce(points);
    WeighsOnce(points[1..]);
    assert total == points[0].weight + points[1].weight;
    assert points[1..][1..] == [] && Total([]) == 0.0 by { NothingWeighs(); }
    if total > 0.0 {
      WholeShare(total);
      FullScale(s);
      assert 0.0 + (points[0].weight + points[1].weight) == total;
      assert !OneStep(s, total, 0.0, total);
      assert Spread(s, total, 0.0 + points[0].weight, points[1..]);
      assert Spread(s, total, 0.0, points);
    }
  }

  /** Below two steps in all, everything becomes one centroid. */
  lemma {:induction false} ClusterCollapses(s: Scale, total: real, cum: real, cur: Centroid, rest: seq<Centroid>)
    requires s.Valid() && s.delta <= 2.0 && total > 0.0 && cur.weight > 0.0 && Positive(rest)
    ensures |Cluster(s, total, cum, cur, rest)| == 1
    decreases |rest|
  {
    hide Scale.K, Scale.Valid;
    if rest != [] {
      assert OneStep(s, total, cum, cum + (cur.weight + rest[0].weight)) by {
        WholeScale(s, cum / total, (cum + (cur.weight + rest[0].weight)) / total);
      }
      ClusterCollapses(s, total, cum, Absorb(cur, rest[0]), rest[1..]);
    }
  }

  lemma WholeScale(s: Scale, a: real, b: real)
    requires s.Valid()
    ensures s.K(b) - s.K(a) <= s.delta / 2.0
  {
    KIsMonotone(s, 0.0, Clamp(a));
    KIsMonotone(s, Clamp(b), 1.0);
  }

  lemma MeanOf(p: Centroid, moment: real)
    requires p.weight > 0.0 && moment == p.mean * p.weight
    ensures p.mean == moment / p.weight
  {
  }

  lemma Collapses(s: Scale, d: Digest)
    requires s.Valid() && s.delta <= 2.0 && Weighed(d) && d.buffer == [] && d.centroids != []
    ensures d.count > 0.0
    ensures Compressed(s, d) == Digest([Centroid(Mass(d) / d.count, d.count)], [], d.count)
  {
    hide Cluster, Total, Moment, SortByMean, Scale.Valid;
    TotalIsPositive(d.centroids);
    CompressKeepsMass(s, d, 0.0, 0.0);
    var e := Compressed(s, d);
    if |d.centroids| > 1 {
      CompressedIs(s, d);
      var points := GatheredPoints(d);
      ClusterCollapses(s, Total(points), 0.0, points[0], points[1..]);
    }
    assert e.centroids == [e.centroids[0]] && e.centroids[1..] == [];
    WeighsOnce(e.centroids);
    NothingWeighs();
    assert Sum(d.buffer) == 0.0 == Sum(e.buffer);
    MeanOf(e.centroids[0], Mass(d));
  }

  lemma NothingWeighs()
    ensures Total([]) == 0.0 && Moment([]) == 0.0
  {
  }

  lemma MergeCollapses(s: Scale, a: Digest, b: Digest)
    requires s.Valid() && s.delta <= 2.0 && Consistent(a) && Consistent(b)
    requires a.buffer == [] && b.buffer == [] && a.centroids + b.centroids != []
    ensures var n := a.count + b.count;
            && n > 0.0
            && Merged(s, a, b) == Digest([Centroid((Mass(a) + Mass(b)) / n, n)], [], n)
            && Mass(Merged(s, a, b)) == Mass(a) + Mass(b)
  {
    hide Compressed, Total, Moment, SortedMeans, Scale.Valid;
    PooledIsWeighed(a, b);
    TotalConcat(a.centroids, b.centroids);
    SumConcat(a.buffer, b.buffer);
    MergeKeeps(s, a, b, 0.0, 0.0);
    Collapses(s, Pooled(a, b));
  }

  lemma OnesAssociate(s: Scale, a: Digest, b: Digest, c: Digest)
    requires s.Valid() && Shipped(s, a) && Shipped(s, b) && Shipped(s, c)
    requires |a.centroids| == |b.centroids| == |c.centroids| == 1
    ensures LeftFirst(s, a, b, c) == RightFirst(s, a, b, c)
  {
    hide Compressed, Merged, SpreadPool, Scale.Valid, Mass, SortedMeans;
    if s.delta > 2.0 {
      PairIsSpread(s, a, b);
      PairIsSpread(s, b, c);
      SpreadMergesAssociate(s, a, b, c);
    } else {
      MergeKeeps(s, a, b, 0.0, 0.0);
      MergeKeeps(s, b, c, 0.0, 0.0);
      MergeCollapses(s, a, b);
      MergeCollapses(s, b, c);
      MergeCollapses(s, Merged(s, a, b), c);
      MergeCollapses(s, a, Merged(s, b, c));
    }
  }

  // ---- a smallest point comes first ----

  ghost predicate Above(ps: seq<Centroid>, mean: real) {
    forall i :: 0 <= i < |ps| ==> ps[i].mean > mean
  }

  ghost predicate Fives(ps: seq<Centroid>) {
    forall i :: 0 <= i < |ps| ==> ps[i].mean == 5.0 && ps[i].weight > 0.0
  }

  lemma NoTies(ps: seq<Centroid>, mean: real)
    requires Above(ps, mean)
    ensures Tied(ps, mean) == []
  {
    TiedMembers(ps, mean);
  }

  lemma MovedTies(x: seq<Centroid>, p: Centroid, y: seq<Centroid>)
    requires Above(x, p.mean)
    ensures SameTies(x + ([p] + y), [p] + (x + y))
  {
    hide Tied, Above;
    forall m
      ensures Tied(x + ([p] + y), m) == Tied([p] + (x + y), m)
    {
      TiedConcat(x, [p] + y, m);
      TiedConcat([p], y, m);
      TiedConcat([p], x + y, m);
      TiedConcat(x, y, m);
      if m == p.mean {
        NoTies(x, m);
      } else {
        TiedMembers([p], m);
      }
    }
  }

  lemma InsertLeads(p: Centroid, ps: seq<Centroid>)
    requires Above(ps, p.mean)
    ensures Insert(p, ps) == [p] + ps
  {
  }

  lemma SortStaysAbove(ps: seq<Centroid>, mean: real)
    requires Above(ps, mean)
    ensures Above(SortByMean(ps), mean)
  {
    hide SortByMean, SortedMeans, Total, Moment;
    SortKeeps(ps);
    var out := SortByMean(ps);
    forall i | 0 <= i < |out|
      ensures out[i].mean > mean
    {
      assert out[i] in multiset(ps);
    }
  }

  lemma SmallestSortsFirst(x: seq<Centroid>, p: Centroid, y: seq<Centroid>)
    requires Above(x, p.mean) && Above(y, p.mean)
    ensures SortByMean(x + ([p] + y)) == [p] + SortByMean(x + y)
  {
    hide Above, SameTies, Insert;
    MovedTies(x, p, y);
    SortsAlike(x + ([p] + y), [p] + (x + y));
    assert ([p] + (x + y))[1..] == x + y;
    assert Above(x + y, p.mean) by { AboveConcat(x, y, p.mean); }
    SortStaysAbove(x + y, p.mean);
    InsertLeads(p, SortByMean(x + y));
  }

  lemma AboveConcat(x: seq<Centroid>, y: seq<Centroid>, mean: real)
    requires Above(x, mean) && Above(y, mean)
    ensures Above(x + y, mean)
  {
  }

  lemma FivesConcat(x: seq<Centroid>, y: seq<Centroid>)
    requires Fives(x) && Fives(y)
    ensures Fives(x + y)
  {
  }

  lemma FivesAreSorted(ps: seq<Centroid>)
    requires Fives(ps)
    ensures SortByMean(ps) == ps && Positive(ps)
    ensures forall mean :: mean < 5.0 ==> Above(ps, mean)
  {
    SortOfSorted(ps);
  }

  /** The first centroid out is the first point in, or heavier. */
  lemma {:induction false} ClusterHead(s: Scale, total: real, cum: real, cur: Centroid, rest: seq<Centroid>)
    requires total > 0.0 && cur.weight > 0.0 && Positive(rest)
    ensures var out := Cluster(s, total, cum, cur, rest);
            out[0] == cur || out[0].weight > cur.weight
    decreases |rest|
  {
    hide OneStep;
    if rest != [] && OneStep(s, total, cum, cum + (cur.weight + rest[0].weight)) {
      assert Absorb(cur, rest[0]).weight > cur.weight;
      ClusterHead(s, total, cum, Absorb(cur, rest[0]), rest[1..]);
    }
  }

  /** A smallest point stays, or its centroid grows. */
  lemma SmallestLeads(s: Scale, d: Digest, x: seq<Centroid>, p: Centroid, y: seq<Centroid>)
    requires Weighed(d) && d.buffer == [] && d.centroids == x + ([p] + y)
    requires Above(x, p.mean) && Above(y, p.mean)
    ensures Compressed(s, d).centroids != []
    ensures Compressed(s, d).centroids[0] == p || Compressed(s, d).centroids[0].weight > p.weight
  {
    hide Cluster, SortByMean, Total, Moment, Compressed, SortedMeans, Above;
    GatheredOf(d);
    SmallestSortsFirst(x, p, y);
    var points := GatheredPoints(d);
    GatheredSize(d);
    if |d.centroids| <= 1 {
      OnePoint(s, d);
    } else {
      CompressedIs(s, d);
      ClusterHead(s, Total(points), 0.0, points[0], points[1..]);
    }
  }

  // ---- more than three centroids ----

  function Heavy(n: nat, weight: real): seq<Centroid> {
    seq(n, i => Centroid(5.0, weight))
  }

  /** One light point below equally heavy ones. */
  function Lopsided(mean: real, n: nat, weight: real): Digest {
    Digest([Centroid(mean, 1.0)] + Heavy(n, weight), [], 1.0 + n as real * weight)
  }

  lemma {:induction false} HeavyTotal(n: nat, weight: real)
    ensures Total(Heavy(n, weight)) == n as real * weight
  {
    if n > 0 {
      HeavyTotal(n - 1, weight);
      assert Heavy(n, weight)[1..] == Heavy(n - 1, weight);
    }
  }

  lemma HeavyIs(n: nat, weight: real)
    requires weight > 0.0
    ensures |Heavy(n, weight)| == n && Fives(Heavy(n, weight))
    ensures n > 0 ==> Heavy(n, weight)[0].weight == weight
  {
  }

  lemma LopsidedIs(mean: real, n: nat, weight: real)
    requires mean <= 5.0 && weight > 0.0
    ensures var d := Lopsided(mean, n, weight);
            && Consistent(d) && d.buffer == [] && |d.centroids| == n + 1 && InRange(d, mean, 5.0)
            && d.count == 1.0 + n as real * weight
            && d.centroids == [Centroid(mean, 1.0)] + Heavy(n, weight)
  {
    var d := Lopsided(mean, n, weight);
    HeavyTotal(n, weight);
    assert d.centroids[1..] == Heavy(n, weight);
  }

  lemma LopsidedIsApart(steps: real, mean: real, n: nat, weight: real, total: real)
    requires weight > 0.0 && steps * (1.0 + weight) > total && steps * (weight + weight) > total
    ensures Apart(steps, total, [Centroid(mean, 1.0)] + Heavy(n, weight))
  {
    var ps := [Centroid(mean, 1.0)] + Heavy(n, weight);
    forall i | 0 <= i < |ps| - 1
      ensures steps * (ps[i].weight + ps[i + 1].weight) > total
    {
      assert ps[i + 1].weight == weight && (ps[i].weight == 1.0 || ps[i].weight == weight);
    }
  }

  lemma LopsidedIsShipped(steps: real, mean: real, n: nat, weight: real)
    requires steps > 0.0 && mean <= 5.0 && weight > 0.0
    requires steps * (1.0 + weight) > 1.0 + n as real * weight && steps * (weight + weight) > 1.0 + n as real * weight
    ensures Shipped(Linear(steps), Lopsided(mean, n, weight))
  {
    hide Cluster, Linear, Total, Moment, Lopsided, SortByMean, Apart, SortedMeans, Heavy;
    var d := Lopsided(mean, n, weight);
    LopsidedIs(mean, n, weight);
    if n > 0 {
      CompressedIs(Linear(steps), d);
      GatheredOf(d);
      SortOfSorted(d.centroids);
      LopsidedIsApart(steps, mean, n, weight, d.count);
      ApartStays(steps, d.count, 0.0, d.centroids);
    }
  }

  // ---- the pair that merges first ----

  /** Three lopsided digests whose light points interleave: 0 and 4 merge when their digests
      come first, and 1 lies between them. */
  ghost predicate Interleaved(steps: real, p: nat, q: nat, r: nat, weight: real) {
    && p + q > 0 && weight == 4.0 * (r + 1) as real
    && 2.0 * steps == 2.0 + (p + q) as real * weight
  }

  lemma InterleavedBounds(steps: real, p: nat, q: nat, r: nat, weight: real)
    requires Interleaved(steps, p, q, r, weight)
    ensures weight >= 4.0 && steps >= 1.0 + 2.0 * (r + 1) as real
    ensures 2.0 * steps == 2.0 + p as real * weight + q as real * weight
    ensures p as real * weight <= 2.0 * steps - 2.0 && q as real * weight <= 2.0 * steps - 2.0
  {
    var n := (p + q) as real;
    assert n >= 1.0;
    MulLe(1.0, n, weight);
    MulLe(0.0, p as real, weight);
    MulLe(0.0, q as real, weight);
    assert n == p as real + q as real;
  }

  lemma LightIsShipped(steps: real, mean: real, n: nat, weight: real)
    requires steps > 0.0 && mean <= 5.0 && weight >= 2.0 && n as real * weight < 3.0 * steps - 1.0
    ensures Shipped(Linear(steps), Lopsided(mean, n, weight))
  {
    hide Shipped, Linear, Lopsided;
    var x, y := 1.0 + weight, weight + weight;
    MulLe(3.0, x, steps);
    MulLe(4.0, y, steps);
    assert x * steps == steps * x && y * steps == steps * y;
    LopsidedIsShipped(steps, mean, n, weight);
  }

  lemma InterleavedShipped(steps: real, p: nat, q: nat, r: nat, weight: real)
    requires Interleaved(steps, p, q, r, weight)
    ensures Linear(steps).Valid()
    ensures Shipped(Linear(steps), Lopsided(0.0, p, weight)) && Shipped(Linear(steps), Lopsided(4.0, q, weight))
    ensures Shipped(Linear(steps), Lopsided(1.0, r, 2.0))
  {
    hide Shipped, Interleaved, Linear, Lopsided;
    InterleavedBounds(steps, p, q, r, weight);
    LinearIsValid(steps);
    LightIsShipped(steps, 0.0, p, weight);
    LightIsShipped(steps, 4.0, q, weight);
    LightIsShipped(steps, 1.0, r, 2.0);
  }

  lemma AbsorbThenSplit(s: Scale, total: real, a: Centroid, b: Centroid, m: Centroid, h: Centroid, tail: seq<Centroid>)
    requires total > 0.0 && a.weight > 0.0 && b.weight > 0.0 && h.weight > 0.0 && Positive(tail)
    requires OneStep(s, total, 0.0, 0.0 + (a.weight + b.weight)) && m == Absorb(a, b) && m.weight > 0.0
    requires !OneStep(s, total, 0.0, 0.0 + (m.weight + h.weight))
    ensures Cluster(s, total, 0.0, a, [b] + ([h] + tail)) == [m] + Cluster(s, total, 0.0 + m.weight, h, tail)
  {
    hide OneStep, Absorb;
    var rest := [b] + ([h] + tail);
    assert rest[0] == b && rest[1..] == [h] + tail && ([h] + tail)[1..] == tail && ([h] + tail)[0] == h;
    assert Positive([h] + tail);
    assert Cluster(s, total, 0.0, a, rest) == Cluster(s, total, 0.0, m, [h] + tail);
  }

  /** Two light points go into one centroid, and the first heavy point stays out of it. */
  lemma PairAbsorbs(steps: real, h: Centroid, tail: seq<Centroid>)
    requires steps > 0.0 && h.weight > 0.0 && Positive(tail) && 2.0 + (h.weight + Total(tail)) == 2.0 * steps
    requires steps * (2.0 + h.weight) > 2.0 * steps
    ensures Cluster(Linear(steps), 2.0 * steps, 0.0, Centroid(0.0, 1.0), [Centroid(4.0, 1.0)] + ([h] + tail)) ==
            [Centroid(2.0, 2.0)] + Cluster(Linear(steps), 2.0 * steps, 2.0, h, tail)
  {
    hide OneStep, Linear, Total, Cluster, Scale.K;
    var a, b, m := Centroid(0.0, 1.0), Centroid(4.0, 1.0), Centroid(2.0, 2.0);
    TotalIsPositive(tail);
    LinearStep(steps, 2.0 * steps, 0.0, 0.0 + (a.weight + b.weight));
    LinearStep(steps, 2.0 * steps, 0.0, 0.0 + (m.weight + h.weight));
    assert Absorb(a, b) == m;
    AbsorbThenSplit(Linear(steps), 2.0 * steps, a, b, m, h, tail);
  }

  lemma FivesStay(s: Scale, total: real, cum: real, h: Centroid, tail: seq<Centroid>)
    requires total > 0.0 && h.weight > 0.0 && h.mean == 5.0 && Fives(tail)
    ensures Fives(Cluster(s, total, cum, h, tail))
  {
    hide Cluster;
    ClusterStaysSorted(s, total, cum, h, tail, 5.0);
  }

  /** What the pair's digests merge to: the light points as one centroid, then heavy ones. */
  lemma PairMerges(steps: real, d: Digest, heavy: seq<Centroid>) returns (fives: seq<Centroid>)
    requires Weighed(d) && d.buffer == [] && d.count == 2.0 * steps
    requires SortByMean(d.centroids) == [Centroid(0.0, 1.0)] + ([Centroid(4.0, 1.0)] + heavy)
    requires Fives(heavy) && heavy != [] && steps > 0.0 && steps * (2.0 + heavy[0].weight) > 2.0 * steps
    ensures Compressed(Linear(steps), d) == Digest([Centroid(2.0, 2.0)] + fives, [], d.count) && Fives(fives)
  {
    hide Linear, Total, Moment, Cluster, SortByMean, Compressed, SortedMeans;
    var s, a, b, h, tail := Linear(steps), Centroid(0.0, 1.0), Centroid(4.0, 1.0), heavy[0], heavy[1..];
    GatheredOf(d);
    GatheredSize(d);
    CompressedIs(s, d);
    assert heavy == [h] + tail;
    PairWeighs(a, b, h, tail);
    PairAbsorbs(steps, h, tail);
    fives := Cluster(s, 2.0 * steps, 2.0, h, tail);
    FivesStay(s, 2.0 * steps, 2.0, h, tail);
    var points := GatheredPoints(d);
    assert points[0] == a && points[1..] == [b] + heavy;
  }

  lemma PairWeighs(a: Centroid, b: Centroid, h: Centroid, tail: seq<Centroid>)
    ensures Total([a] + ([b] + ([h] + tail))) == a.weight + (b.weight + (h.weight + Total(tail)))
  {
    hide Total;
    var x, y, z := [h] + tail, [b] + ([h] + tail), [a] + ([b] + ([h] + tail));
    WeighsOnce(x);
    WeighsOnce(y);
    WeighsOnce(z);
    assert x[1..] == tail && y[1..] == x && z[1..] == y;
  }

  /** A light point, a second one above it, and fives around them. */
  lemma LightPair(a: Centroid, b: Centroid, x: seq<Centroid>, y: seq<Centroid>)
    requires a.mean < b.mean < 5.0 && Fives(x) && Fives(y)
    ensures SortByMean(([a] + x) + ([b] + y)) == [a] + ([b] + (x + y))
    ensures SortByMean(([b] + x) + ([a] + y)) == [a] + ([b] + (x + y))
  {
    hide SortByMean, Above, Fives;
    FivesAreSorted(x);
    FivesAreSorted(y);
    FivesConcat(x, y);
    FivesAreSorted(x + y);
    SmallestSortsFirst(x, b, y);
    PairIsAbove(a, b, x, y);
    SmallestSortsFirst([], a, x + ([b] + y));
    assert ([a] + x) + ([b] + y) == [] + ([a] + (x + ([b] + y))) && [] + (x + ([b] + y)) == x + ([b] + y);
    SmallestSortsFirst([], b, x + y);
    SmallestSortsFirst([b] + x, a, y);
    assert ([b] + x) + y == [] + ([b] + (x + y)) && [] + (x + y) == x + y;
  }

  lemma PairIsAbove(a: Centroid, b: Centroid, x: seq<Centroid>, y: seq<Centroid>)
    requires a.mean < b.mean < 5.0 && Fives(x) && Fives(y)
    ensures Above([], a.mean) && Above([], b.mean) && Above(x + ([b] + y), a.mean) && Above([b] + x, a.mean)
  {
  }

  /** Too heavy to absorb the next centroid, the light one comes out first. */
  lemma LightStays(steps: real, d: Digest, a: Centroid, b: Centroid, fives: seq<Centroid>)
    requires Weighed(d) && d.buffer == [] && Fives(fives) && steps > 0.0
    requires SortByMean(d.centroids) == [a] + ([b] + fives) && a.weight > 0.0 && b.weight > 0.0
    requires steps * (a.weight + b.weight) > d.count
    ensures Compressed(Linear(steps), d).centroids != [] && Compressed(Linear(steps), d).centroids[0] == a
  {
    hide Linear, Total, Moment, Cluster, SortByMean, Compressed, SortedMeans, OneStep;
    GatheredOf(d);
    GatheredSize(d);
    CompressedIs(Linear(steps), d);
    var points := GatheredPoints(d);
    assert points[0] == a && points[1] == b;
    NotOneStep(steps, Total(points), 0.0, points);
    ClusterSplits(Linear(steps), Total(points), 0.0, points);
  }

  lemma PairCompresses(steps: real, p: nat, q: nat, r: nat, weight: real, d: Digest, heavy: seq<Centroid>)
    returns (fives: seq<Centroid>)
    requires Interleaved(steps, p, q, r, weight) && Weighed(d) && d.buffer == [] && d.count == 2.0 * steps
    requires SortByMean(d.centroids) == [Centroid(0.0, 1.0)] + ([Centroid(4.0, 1.0)] + heavy)
    requires Fives(heavy) && heavy != [] && heavy[0].weight == weight
    ensures Compressed(Linear(steps), d) == Digest([Centroid(2.0, 2.0)] + fives, [], 2.0 * steps) && Fives(fives)
  {
    hide Linear, Interleaved, SortByMean, Compressed, Total;
    InterleavedBounds(steps, p, q, r, weight);
    MulLe(6.0, 2.0 + weight, steps);
    fives := PairMerges(steps, d, heavy);
  }

  /** The digests of the light pair merge to one centroid of them, in either order. */
  lemma PairOfLopsided(steps: real, p: nat, q: nat, r: nat, weight: real, low: Digest, high: Digest)
    returns (fives: seq<Centroid>, others: seq<Centroid>)
    requires Interleaved(steps, p, q, r, weight)
    requires low == Lopsided(0.0, p, weight) && high == Lopsided(4.0, q, weight)
    ensures weight > 0.0 && Consistent(low) && Consistent(high) && low.buffer == high.buffer == []
    ensures Fives(fives) && Merged(Linear(steps), low, high) == Digest([Centroid(2.0, 2.0)] + fives, [], 2.0 * steps)
    ensures Fives(others) && Merged(Linear(steps), high, low) == Digest([Centroid(2.0, 2.0)] + others, [], 2.0 * steps)
  {
    hide Linear, Total, Moment, SortByMean, Compressed, SortedMeans, Lopsided, Heavy, Interleaved, Fives;
    InterleavedBounds(steps, p, q, r, weight);
    LopsidedIs(0.0, p, weight);
    LopsidedIs(4.0, q, weight);
    HeavyIs(p, weight);
    HeavyIs(q, weight);
    var x, y := Heavy(p, weight), Heavy(q, weight);
    FivesConcat(x, y);
    FivesConcat(y, x);
    PooledIsWeighed(low, high);
    PooledIsWeighed(high, low);
    PoolOf(low, high);
    PoolOf(high, low);
    LightPair(Centroid(0.0, 1.0), Centroid(4.0, 1.0), x, y);
    LightPair(Centroid(0.0, 1.0), Centroid(4.0, 1.0), y, x);
    assert p + q > 0 by { InterleavedSome(steps, p, q, r, weight); }
    assert (x + y)[0] == (if p > 0 then x[0] else y[0]) && (y + x)[0] == if q > 0 then y[0] else x[0];
    fives := PairCompresses(steps, p, q, r, weight, Pooled(low, high), x + y);
    others := PairCompresses(steps, p, q, r, weight, Pooled(high, low), y + x);
  }

  lemma InterleavedSome(steps: real, p: nat, q: nat, r: nat, weight: real)
    requires Interleaved(steps, p, q, r, weight)
    ensures p + q > 0
  {
  }

  /** Grouping the light pair first brings out the point between them. */
  lemma PairFirst(steps: real, p: nat, q: nat, r: nat, weight: real, low: Digest, high: Digest, between: Digest)
    requires Interleaved(steps, p, q, r, weight)
    requires low == Lopsided(0.0, p, weight) && high == Lopsided(4.0, q, weight) && between == Lopsided(1.0, r, 2.0)
    ensures Consistent(low) && Consistent(high) && Consistent(between)
    ensures var left, right := LeftFirst(Linear(steps), low, high, between), RightFirst(Linear(steps), between, high, low);
            && left.centroids != [] && left.centroids[0] == Centroid(1.0, 1.0)
            && right.centroids != [] && right.centroids[0] == Centroid(1.0, 1.0)
  {
    hide Linear, Total, Moment, SortByMean, Compressed, SortedMeans, Lopsided, Heavy, Interleaved, Fives;
    var s, a, b := Linear(steps), Centroid(1.0, 1.0), Centroid(2.0, 2.0);
    InterleavedBounds(steps, p, q, r, weight);
    LopsidedIs(1.0, r, 2.0);
    HeavyIs(r, 2.0);
    var fives, others := PairOfLopsided(steps, p, q, r, weight, low, high);
    MergeKeeps(s, low, high, 0.0, 0.0);
    MergeKeeps(s, high, low, 0.0, 0.0);
    var left, right := Merged(s, low, high), Merged(s, high, low);
    PooledIsWeighed(left, between);
    PooledIsWeighed(between, right);
    PoolOf(left, between);
    PoolOf(between, right);
    LightPair(a, b, fives, Heavy(r, 2.0));
    LightPair(a, b, Heavy(r, 2.0), others);
    FivesConcat(fives, Heavy(r, 2.0));
    FivesConcat(Heavy(r, 2.0), others);
    assert steps * (a.weight + b.weight) > 2.0 * steps + between.count;
    LightStays(steps, Pooled(left, between), a, b, fives + Heavy(r, 2.0));
    LightStays(steps, Pooled(between, right), a, b, Heavy(r, 2.0) + others);
  }

  lemma RangeIsAbove(d: Digest, lo: real, hi: real, mean: real)
    requires InRange(d, lo, hi) && mean < lo
    ensures Above(d.centroids, mean)
  {
  }

  /** Grouping the other way leaves the smallest point first, or a heavier centroid. */
  lemma PairLast(steps: real, p: nat, q: nat, r: nat, weight: real, low: Digest, high: Digest, between: Digest)
    requires Interleaved(steps, p, q, r, weight) && weight > 0.0 && steps > 0.0
    requires low == Lopsided(0.0, p, weight) && high == Lopsided(4.0, q, weight) && between == Lopsided(1.0, r, 2.0)
    ensures Consistent(low) && Consistent(high) && Consistent(between)
    ensures var left, right := LeftFirst(Linear(steps), between, high, low), RightFirst(Linear(steps), low, high, between);
            && left.centroids != [] && left.centroids[0] != Centroid(1.0, 1.0)
            && right.centroids != [] && right.centroids[0] != Centroid(1.0, 1.0)
  {
    hide Linear, Total, Moment, SortByMean, Compressed, SortedMeans, Lopsided, Heavy, Interleaved, Above;
    var s, zero := Linear(steps), Centroid(0.0, 1.0);
    LopsidedIs(0.0, p, weight);
    LopsidedIs(4.0, q, weight);
    LopsidedIs(1.0, r, 2.0);
    MergeKeeps(s, between, high, 1.0, 5.0);
    MergeKeeps(s, high, between, 1.0, 5.0);
    var x, y, heavy := Merged(s, between, high), Merged(s, high, between), Heavy(p, weight);
    RangeIsAbove(x, 1.0, 5.0, 0.0);
    RangeIsAbove(y, 1.0, 5.0, 0.0);
    HeavyIs(p, weight);
    FivesAreSorted(heavy);
    PooledIsWeighed(x, low);
    PooledIsWeighed(low, y);
    PoolOf(x, low);
    PoolOf(low, y);
    SmallestLeads(s, Pooled(x, low), x.centroids, zero, heavy);
    AboveConcat(heavy, y.centroids, 0.0);
    assert low.centroids + y.centroids == [] + ([zero] + (heavy + y.centroids));
    assert Above([], 0.0) by { NothingAbove(); }
    SmallestLeads(s, Pooled(low, y), [], zero, heavy + y.centroids);
  }

  lemma NothingAbove()
    ensures Above([], 0.0)
  {
  }

  // ---- the exact sizes ----

  ghost predicate OfSize(s: Scale, d: Digest, n: nat) {
    Shipped(s, d) && |d.centroids| == n
  }

  ghost predicate Associates(s: Scale, a: Digest, b: Digest, c: Digest) {
    Consistent(a) && Consistent(b) && Consistent(c) && LeftFirst(s, a, b, c) == RightFirst(s, a, b, c)
  }

  /** Any three sizes with no empty digest and more than three centroids in all. */
  lemma SizesThatDiffer(l: nat, m: nat, n: nat) returns (s: Scale, a: Digest, b: Digest, c: Digest)
    requires l > 0 && m > 0 && n > 0 && l + m + n > 3
    ensures s.Valid() && OfSize(s, a, l) && OfSize(s, b, m) && OfSize(s, c, n) && !Associates(s, a, b, c)
  {
    hide Shipped, Lopsided, Linear, LeftFirst, RightFirst, Scale.Valid, Consistent, Heavy;
    var pairFirst := l + m > 2;
    var p, q, r := if pairFirst then l - 1 else n - 1, m - 1, if pairFirst then n - 1 else 0;
    var weight := 4.0 * (r + 1) as real;
    var steps := 1.0 + (p + q) as real * weight / 2.0;
    assert Interleaved(steps, p, q, r, weight);
    s := Linear(steps);
    InterleavedBounds(steps, p, q, r, weight);
    InterleavedShipped(steps, p, q, r, weight);
    LopsidedIs(0.0, p, weight);
    LopsidedIs(4.0, q, weight);
    LopsidedIs(1.0, r, 2.0);
    var zero, four, one := Lopsided(0.0, p, weight), Lopsided(4.0, q, weight), Lopsided(1.0, r, 2.0);
    PairFirst(steps, p, q, r, weight, zero, four, one);
    PairLast(steps, p, q, r, weight, zero, four, one);
    if pairFirst {
      a, b, c := zero, four, one;
    } else {
      a, b, c := one, four, zero;
    }
  }

  /**
   Merging is associative on all digests of three given sizes, under every scale, exactly when
   one of them is empty or each holds a single centroid.
   */
  lemma MergeIsAssociativeFor(l: nat, m: nat, n: nat)
    ensures (forall s: Scale, a: Digest, b: Digest, c: Digest ::
               s.Valid() && OfSize(s, a, l) && OfSize(s, b, m) && OfSize(s, c, n) ==> Associates(s, a, b, c))
            <==> l == 0 || m == 0 || n == 0 || l == m == n == 1
  {
    hide Shipped, LeftFirst, RightFirst, Scale.Valid, Consistent;
    if l == 0 || m == 0 || n == 0 || l == m == n == 1 {
      forall s: Scale, a: Digest, b: Digest, c: Digest
        | s.Valid() && OfSize(s, a, l) && OfSize(s, b, m) && OfSize(s, c, n)
        ensures Associates(s, a, b, c)
      {
        ShippedIsConsistent(s, a);
        ShippedIsConsistent(s, b);
        ShippedIsConsistent(s, c);
        if l == m == n == 1 {
          OnesAssociate(s, a, b, c);
        } else {
          EmptyAssociates(s, a, b, c);
        }
      }
    } else {
      var s, a, b, c := SizesThatDiffer(l, m, n);
      assert !Associates(s, a, b, c);
    }
  }

  // ---- an example ----

  lemma Absorbs(steps: real, total: real, cum: real, cur: Centroid, p: Centroid, rest: seq<Centroid>)
    requires steps > 0.0 && total > 0.0 && cum >= 0.0 && cur.weight > 0.0 && p.weight > 0.0 && Positive(rest)
    requires cum + (cur.weight + p.weight) <= total && steps * (cur.weight + p.weight) <= total
    ensures Absorb(cur, p).weight > 0.0
    ensures Cluster(Linear(steps), total, cum, cur, [p] + rest) == Cluster(Linear(steps), total, cum, Absorb(cur, p), rest)
  {
    hide Linear, OneStep;
    LinearStep(steps, total, cum, cum + (cur.weight + p.weight));
    assert ([p] + rest)[1..] == rest;
  }

  lemma Splits(steps: real, total: real, cum: real, cur: Centroid, p: Centroid, rest: seq<Centroid>)
    requires steps > 0.0 && total > 0.0 && cum >= 0.0 && cur.weight > 0.0 && p.weight > 0.0 && Positive(rest)
    requires cum + (cur.weight + p.weight) <= total && steps * (cur.weight + p.weight) > total
    ensures Cluster(Linear(steps), total, cum, cur, [p] + rest) ==
            [cur] + Cluster(Linear(steps), total, cum + cur.weight, p, rest)
  {
    hide Linear, OneStep;
    LinearStep(steps, total, cum, cum + (cur.weight + p.weight));
    assert ([p] + rest)[1..] == rest;
  }

  function Units(x: real, y: real): Digest {
    Digest([Centroid(x, 1.0), Centroid(y, 1.0)], [], 2.0)
  }

  lemma UnitsAreShipped(x: real, y: real)
    requires x <= y
    ensures Shipped(Linear(2.0), Units(x, y))
  {
    hide Cluster, Linear, SortByMean, Apart, Moment;
    var d := Units(x, y);
    assert d.centroids[1..] == [Centroid(y, 1.0)] && d.centroids[1..][1..] == [];
    WeighsOnce(d.centroids);
    WeighsOnce(d.centroids[1..]);
    assert Total(d.centroids) == 2.0;
    CompressedIs(Linear(2.0), d);
    GatheredOf(d);
    SortOfSorted(d.centroids);
    assert Apart(2.0, 2.0, d.centroids) by { UnitsApart(x, y); }
    ApartStays(2.0, 2.0, 0.0, d.centroids);
  }

  lemma UnitsApart(x: real, y: real)
    ensures Apart(2.0, 2.0, Units(x, y).centroids)
  {
  }

  lemma UnitClusters(p: Centroid, q: Centroid, r: Centroid, t: Centroid, x: real)
    requires p == Centroid(x, 1.0) && q == Centroid(x + 1.0, 1.0) && r == Centroid(x + 2.0, 1.0) && t == Centroid(x + 3.0, 1.0)
    ensures Cluster(Linear(2.0), 4.0, 0.0, p, [q] + ([r] + [t])) == [Centroid(x + 0.5, 2.0), Centroid(x + 2.5, 2.0)]
  {
    hide Cluster, Linear, Absorb, OneStep;
    var m, n := Centroid(x + 0.5, 2.0), Centroid(x + 2.5, 2.0);
    var empty: seq<Centroid> := [];
    Absorbs(2.0, 4.0, 0.0, p, q, [r] + [t]);
    Mixed(p, q, m);
    Splits(2.0, 4.0, 0.0, m, r, [t]);
    assert [t] + empty == [t];
    Absorbs(2.0, 4.0, 2.0, r, t, empty);
    Mixed(r, t, n);
    ClusterOfOne(Linear(2.0), 4.0, 2.0, n);
  }

  /** Two digests of unit points in order become two centroids of two. */
  lemma UnitsMerge(x: real)
    ensures Consistent(Units(x, x + 1.0)) && Consistent(Units(x + 2.0, x + 3.0))
    ensures Merged(Linear(2.0), Units(x, x + 1.0), Units(x + 2.0, x + 3.0)) ==
            Digest([Centroid(x + 0.5, 2.0), Centroid(x + 2.5, 2.0)], [], 4.0)
  {
    hide Cluster, Linear, SortedMeans, Total, Merged, Units, Consistent;
    UnitsAre(x, x + 1.0);
    UnitsAre(x + 2.0, x + 3.0);
    var p, q, r, t := Centroid(x, 1.0), Centroid(x + 1.0, 1.0), Centroid(x + 2.0, 1.0), Centroid(x + 3.0, 1.0);
    FourPoints(Units(x, x + 1.0), Units(x + 2.0, x + 3.0), p, q, r, t);
    UnitClusters(p, q, r, t, x);
  }

  lemma {:induction false} InOrder(ps: seq<Centroid>)
    requires forall i :: 0 <= i < |ps| - 1 ==> ps[i].mean <= ps[i + 1].mean
    ensures SortedMeans(ps)
  {
    hide SortedMeans;
    if ps == [] {
      EmptyIsSorted();
    } else {
      var rest := ps[1..];
      forall i | 0 <= i < |rest| - 1
        ensures rest[i].mean <= rest[i + 1].mean
      {
        assert rest[i] == ps[i + 1] && rest[i + 1] == ps[i + 1 + 1];
      }
      InOrder(rest);
      assert rest != [] ==> rest[0] == ps[0 + 1];
      SortedCons(ps[0], rest);
      assert ps == [ps[0]] + rest;
    }
  }

  lemma Mixed(p: Centroid, q: Centroid, m: Centroid)
    requires p.weight > 0.0 && q.weight > 0.0 && m.weight == p.weight + q.weight
    requires m.mean * m.weight == p.mean * p.weight + q.mean * q.weight
    ensures Absorb(p, q) == m
  {
    MeanOf(m, p.mean * p.weight + q.mean * q.weight);
  }

  /** Six samples on three shards, and two digests of them: the largest percentile read from
      the cluster depends on which two responses came first. */
  lemma GroupingShows()
    ensures var s, a, b, c := Linear(2.0), Units(0.0, 1.0), Units(2.0, 3.0), Units(4.0, 5.0);
            && s.Valid() && Shipped(s, a) && Shipped(s, b) && Shipped(s, c)
            && LeftFirst(s, a, b, c) == Digest([Centroid(0.5, 2.0), Centroid(3.0, 3.0), Centroid(5.0, 1.0)], [], 6.0)
            && RightFirst(s, a, b, c) == Digest([Centroid(0.5, 2.0), Centroid(2.5, 2.0), Centroid(4.5, 2.0)], [], 6.0)
            && Quantile(LeftFirst(s, a, b, c), 1.0) == Some(5.0) && Quantile(RightFirst(s, a, b, c), 1.0) == Some(4.5)
  {
    hide Linear, Units, LeftFirst, RightFirst, Walk;
    hide Consistent;
    LinearIsValid(2.0);
    UnitsAreShipped(0.0, 1.0);
    UnitsAreShipped(2.0, 3.0);
    UnitsAreShipped(4.0, 5.0);
    LeftOfUnits(Units(0.0, 1.0), Units(2.0, 3.0), Units(4.0, 5.0));
    RightOfUnits(Units(0.0, 1.0), Units(2.0, 3.0), Units(4.0, 5.0));
    LastQuantile(0.5, 3.0, 3.0, 5.0, 1.0);
    LastQuantile(0.5, 2.5, 2.0, 4.5, 2.0);
  }

  lemma LastQuantile(x: real, y: real, yw: real, z: real, zw: real)
    requires yw > 0.0 && zw > 0.0 && 2.0 + yw + zw == 6.0
    ensures Quantile(Digest([Centroid(x, 2.0), Centroid(y, yw), Centroid(z, zw)], [], 6.0), 1.0) == Some(z)
  {
    var p, q := Centroid(y, yw), Centroid(z, zw);
    assert [Centroid(x, 2.0), p, q][1..] == [p, q] && [p, q][1..] == [q] && [q][1..] == [];
    assert Walk([q], 6.0, 2.0 + yw, 2.0 + yw / 2.0, y) == z;
    assert Walk([p, q], 6.0, 2.0, 1.0, x) == z;
  }

  lemma PoolOfUnits(d: Digest, p: Centroid, q: Centroid, r: Centroid, t: Centroid)
    requires Weighed(d) && d.buffer == [] && d.centroids == [p, q, r, t] && SortedMeans([p, q, r, t])
    ensures d.count > 0.0 && p.weight > 0.0 && Positive([q] + ([r] + [t]))
    ensures Compressed(Linear(2.0), d) == Digest(Cluster(Linear(2.0), d.count, 0.0, p, [q] + ([r] + [t])), [], d.count)
  {
    hide Cluster, Linear, SortByMean, SortedMeans, Total, Moment;
    CompressedIs(Linear(2.0), d);
    GatheredOf(d);
    SortOfSorted(d.centroids);
    var rest := [q] + ([r] + [t]);
    assert d.centroids[1..] == rest;
    forall i | 0 <= i < |rest|
      ensures rest[i].weight > 0.0
    {
      assert rest[i] == d.centroids[i + 1];
    }
  }

  lemma LeftClusters(p: Centroid, q: Centroid, r: Centroid, t: Centroid)
    requires p == Centroid(0.5, 2.0) && q == Centroid(2.5, 2.0) && r == Centroid(4.0, 1.0) && t == Centroid(5.0, 1.0)
    ensures Cluster(Linear(2.0), 6.0, 0.0, p, [q] + ([r] + [t])) == [p, Centroid(3.0, 3.0), t]
  {
    hide Cluster, Linear, Absorb, OneStep;
    var m := Centroid(3.0, 3.0);
    var empty: seq<Centroid> := [];
    Splits(2.0, 6.0, 0.0, p, q, [r] + [t]);
    Absorbs(2.0, 6.0, 2.0, q, r, [t]);
    Mixed(q, r, m);
    Splits(2.0, 6.0, 2.0, m, t, empty);
    assert [t] + empty == [t];
    ClusterOfOne(Linear(2.0), 6.0, 5.0, t);
  }

  lemma RightClusters(p: Centroid, q: Centroid, r: Centroid, t: Centroid)
    requires p == Centroid(0.0, 1.0) && q == Centroid(1.0, 1.0) && r == Centroid(2.5, 2.0) && t == Centroid(4.5, 2.0)
    ensures Cluster(Linear(2.0), 6.0, 0.0, p, [q] + ([r] + [t])) == [Centroid(0.5, 2.0), r, t]
  {
    hide Cluster, Linear, Absorb, OneStep;
    var m := Centroid(0.5, 2.0);
    var empty: seq<Centroid> := [];
    Absorbs(2.0, 6.0, 0.0, p, q, [r] + [t]);
    Mixed(p, q, m);
    Splits(2.0, 6.0, 0.0, m, r, [t]);
    Splits(2.0, 6.0, 2.0, r, t, empty);
    assert [t] + empty == [t];
    ClusterOfOne(Linear(2.0), 6.0, 4.0, t);
  }

  lemma FourPoints(a: Digest, b: Digest, p: Centroid, q: Centroid, r: Centroid, t: Centroid)
    requires Consistent(a) && Consistent(b) && a.buffer == [] && b.buffer == []
    requires a.centroids + b.centroids == [p, q, r, t] && p.mean <= q.mean <= r.mean <= t.mean
    ensures a.count + b.count > 0.0 && p.weight > 0.0 && Positive([q] + ([r] + [t]))
    ensures Merged(Linear(2.0), a, b) ==
            Digest(Cluster(Linear(2.0), a.count + b.count, 0.0, p, [q] + ([r] + [t])), [], a.count + b.count)
  {
    hide Cluster, Linear, SortByMean, Compressed, SortedMeans, Total, Moment;
    PooledIsWeighed(a, b);
    PoolOf(a, b);
    InOrder([p, q, r, t]);
    PoolOfUnits(Pooled(a, b), p, q, r, t);
  }

  lemma UnitsAre(x: real, y: real)
    requires x <= y
    ensures Consistent(Units(x, y)) && Units(x, y) == Digest([Centroid(x, 1.0), Centroid(y, 1.0)], [], 2.0)
  {
    UnitsAreShipped(x, y);
  }

  lemma PairDigest(p: Centroid, q: Centroid, count: real)
    requires p.weight > 0.0 && q.weight > 0.0 && p.mean <= q.mean && count == p.weight + q.weight
    ensures Consistent(Digest([p, q], [], count))
  {
    var ps := [p, q];
    assert ps[1..] == [q] && ps[1..][1..] == [];
    WeighsOnce(ps);
    WeighsOnce(ps[1..]);
  }

  lemma LeftOfUnits(a: Digest, b: Digest, c: Digest)
    requires a == Units(0.0, 1.0) && b == Units(2.0, 3.0) && c == Units(4.0, 5.0)
    ensures Consistent(a) && Consistent(b) && Consistent(c)
    ensures LeftFirst(Linear(2.0), a, b, c) == Digest([Centroid(0.5, 2.0), Centroid(3.0, 3.0), Centroid(5.0, 1.0)], [], 6.0)
  {
    hide Cluster, Linear, SortedMeans, Total, Merged, Units, Consistent;
    UnitsAre(0.0, 1.0);
    UnitsAre(2.0, 3.0);
    UnitsAre(4.0, 5.0);
    UnitsMerge(0.0);
    var p, q, r, t := Centroid(0.5, 2.0), Centroid(2.5, 2.0), Centroid(4.0, 1.0), Centroid(5.0, 1.0);
    var ab := Digest([p, q], [], 4.0);
    PairDigest(p, q, 4.0);
    FourPoints(ab, c, p, q, r, t);
    LeftClusters(p, q, r, t);
  }

  lemma RightOfUnits(a: Digest, b: Digest, c: Digest)
    requires a == Units(0.0, 1.0) && b == Units(2.0, 3.0) && c == Units(4.0, 5.0)
    ensures Consistent(a) && Consistent(b) && Consistent(c)
    ensures RightFirst(Linear(2.0), a, b, c) == Digest([Centroid(0.5, 2.0), Centroid(2.5, 2.0), Centroid(4.5, 2.0)], [], 6.0)
  {
    hide Cluster, Linear, SortedMeans, Total, Merged, Units, Consistent;
    UnitsAre(0.0, 1.0);
    UnitsAre(2.0, 3.0);
    UnitsAre(4.0, 5.0);
    UnitsMerge(2.0);
    var p, q, r, t := Centroid(0.0, 1.0), Centroid(1.0, 1.0), Centroid(2.5, 2.0), Centroid(4.5, 2.0);
    var bc := Digest([r, t], [], 4.0);
    PairDigest(r, t, 4.0);
    FourPoints(a, bc, p, q, r, t);
    RightClusters(p, q, r, t);
  }
}
