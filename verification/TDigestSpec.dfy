/**
 The t-digest as a value: stable sort by mean, greedy clustering under a scale function, and
 the interpolated quantile walk. Samples, means and weights are reals, so rounding is not
 part of the model; the arcsine scale is any nondecreasing k with k(1) - k(0) = delta / 2.
 */
module TDigestSpec {
  import opened Prelude

  datatype Centroid = Centroid(mean: real, weight: real)
  datatype Digest = Digest(centroids: seq<Centroid>, buffer: seq<real>, count: real)

  const EMPTY_DIGEST := Digest([], [], 0.0)

  function Clamp(q: real): (r: real)
    ensures 0.0 <= r <= 1.0
  {
    if q < 0.0 then 0.0 else if q > 1.0 then 1.0 else q
  }

  datatype Scale = Scale(delta: real, k: real -> real)
  {
    ghost predicate Valid() {
      && delta > 0.0
      && (forall a, b :: 0.0 <= a <= b <= 1.0 ==> k(a) <= k(b))
      && k(1.0) - k(0.0) == delta / 2.0
    }

    function K(q: real): real {
      k(Clamp(q))
    }
  }

  lemma KIsMonotone(s: Scale, a: real, b: real)
    requires s.Valid() && a <= b
    ensures s.K(a) <= s.K(b)
  {
  }

  // ---- weighted points ----

  function Total(ps: seq<Centroid>): real {
    if ps == [] then 0.0 else ps[0].weight + Total(ps[1..])
  }

  function Moment(ps: seq<Centroid>): real {
    if ps == [] then 0.0 else ps[0].mean * ps[0].weight + Moment(ps[1..])
  }

  ghost predicate Positive(ps: seq<Centroid>) {
    forall i :: 0 <= i < |ps| ==> ps[i].weight > 0.0
  }

  ghost predicate SortedMeans(ps: seq<Centroid>) {
    forall i, j :: 0 <= i < j < |ps| ==> ps[i].mean <= ps[j].mean
  }

  ghost predicate Within(ps: seq<Centroid>, lo: real, hi: real) {
    forall i :: 0 <= i < |ps| ==> lo <= ps[i].mean <= hi
  }

  function Singles(xs: seq<real>): (ps: seq<Centroid>)
    ensures |ps| == |xs|
    ensures forall i :: 0 <= i < |xs| ==> ps[i] == Centroid(xs[i], 1.0)
  {
    seq(|xs|, i requires 0 <= i < |xs| => Centroid(xs[i], 1.0))
  }

  function Sum(xs: seq<real>): real {
    if xs == [] then 0.0 else xs[0] + Sum(xs[1..])
  }

  lemma {:induction false} TotalConcat(a: seq<Centroid>, b: seq<Centroid>)
    ensures Total(a + b) == Total(a) + Total(b) && Moment(a + b) == Moment(a) + Moment(b)
  {
    if a == [] {
      assert a + b == b;
    } else {
      assert (a + b)[1..] == a[1..] + b;
      TotalConcat(a[1..], b);
    }
  }

  lemma {:induction false} SinglesTotal(xs: seq<real>)
    ensures Total(Singles(xs)) == |xs| as real && Moment(Singles(xs)) == Sum(xs)
  {
    if xs != [] {
      assert Singles(xs)[1..] == Singles(xs[1..]);
      SinglesTotal(xs[1..]);
    }
  }

  lemma {:induction false} SumConcat(a: seq<real>, b: seq<real>)
    ensures Sum(a + b) == Sum(a) + Sum(b)
  {
    if a == [] {
      assert a + b == b;
    } else {
      assert (a + b)[1..] == a[1..] + b;
      SumConcat(a[1..], b);
    }
  }

  lemma {:induction false} TotalIsPositive(ps: seq<Centroid>)
    requires Positive(ps)
    ensures Total(ps) >= 0.0 && (ps != [] ==> Total(ps) > 0.0)
  {
    if ps != [] {
      TotalIsPositive(ps[1..]);
    }
  }

  // ---- the stable sort ----

  /** Ahead of the first point it does not exceed. */
  function Insert(p: Centroid, ps: seq<Centroid>): seq<Centroid> {
    if ps == [] || p.mean <= ps[0].mean then [p] + ps else [ps[0]] + Insert(p, ps[1..])
  }

  function SortByMean(ps: seq<Centroid>): seq<Centroid> {
    if ps == [] then [] else Insert(ps[0], SortByMean(ps[1..]))
  }

  lemma {:induction false} InsertKeeps(p: Centroid, ps: seq<Centroid>)
    ensures multiset(Insert(p, ps)) == multiset{p} + multiset(ps)
  {
    if ps != [] && p.mean > ps[0].mean {
      InsertKeeps(p, ps[1..]);
      assert ps == [ps[0]] + ps[1..];
    }
  }

  lemma {:induction false} InsertWeighs(p: Centroid, ps: seq<Centroid>)
    ensures Total(Insert(p, ps)) == p.weight + Total(ps)
    ensures Moment(Insert(p, ps)) == p.mean * p.weight + Moment(ps)
  {
    var out := Insert(p, ps);
    if ps == [] || p.mean <= ps[0].mean {
      assert out[1..] == ps;
    } else {
      InsertWeighs(p, ps[1..]);
      assert out[1..] == Insert(p, ps[1..]);
    }
  }

  lemma {:induction false} InsertSorts(p: Centroid, ps: seq<Centroid>)
    requires SortedMeans(ps)
    ensures SortedMeans(Insert(p, ps))
    ensures Insert(p, ps)[0] == p || (ps != [] && Insert(p, ps)[0] == ps[0])
  {
    hide SortedMeans;
    if ps != [] && p.mean > ps[0].mean {
      assert SortedMeans(ps[1..]) && (ps[1..] != [] ==> ps[0].mean <= ps[1..][0].mean) by { SortedTail(ps); }
      InsertSorts(p, ps[1..]);
      assert ps[0].mean <= Insert(p, ps[1..])[0].mean;
      SortedCons(ps[0], Insert(p, ps[1..]));
    } else {
      SortedCons(p, ps);
    }
  }

  lemma SortedTail(ps: seq<Centroid>)
    requires SortedMeans(ps) && ps != []
    ensures SortedMeans(ps[1..]) && (ps[1..] != [] ==> ps[0].mean <= ps[1..][0].mean)
  {
  }

  lemma SortedCons(p: Centroid, ps: seq<Centroid>)
    requires SortedMeans(ps) && (ps != [] ==> p.mean <= ps[0].mean)
    ensures SortedMeans([p] + ps)
  {
    var out := [p] + ps;
    assert forall i :: 0 < i < |out| ==> out[i] == ps[i - 1];
    assert forall i :: 0 < i < |ps| ==> ps[0].mean <= ps[i].mean;
  }

  lemma {:induction false} SortKeeps(ps: seq<Centroid>)
    ensures SortedMeans(SortByMean(ps))
    ensures multiset(SortByMean(ps)) == multiset(ps)
    ensures |SortByMean(ps)| == |ps|
    ensures Total(SortByMean(ps)) == Total(ps) && Moment(SortByMean(ps)) == Moment(ps)
  {
    hide Insert, SortedMeans, Moment, Total;
    if ps == [] {
      assert SortedMeans([]) by { EmptyIsSorted(); }
    } else {
      SortKeeps(ps[1..]);
      InsertKeeps(ps[0], SortByMean(ps[1..]));
      InsertWeighs(ps[0], SortByMean(ps[1..]));
      InsertSorts(ps[0], SortByMean(ps[1..]));
      WeighsOnce(ps);
      assert ps == [ps[0]] + ps[1..];
    }
    SameSize(SortByMean(ps), ps);
  }

  lemma WeighsOnce(ps: seq<Centroid>)
    requires ps != []
    ensures Total(ps) == ps[0].weight + Total(ps[1..])
    ensures Moment(ps) == ps[0].mean * ps[0].weight + Moment(ps[1..])
  {
  }

  lemma EmptyIsSorted()
    ensures SortedMeans([])
  {
  }

  lemma SameSize<T>(a: seq<T>, b: seq<T>)
    requires multiset(a) == multiset(b)
    ensures |a| == |b|
  {
    assert |multiset(a)| == |a| && |multiset(b)| == |b|;
  }

  lemma SortKeepsBounds(ps: seq<Centroid>, lo: real, hi: real)
    ensures Positive(ps) ==> Positive(SortByMean(ps))
    ensures Within(ps, lo, hi) ==> Within(SortByMean(ps), lo, hi)
  {
    SortKeeps(ps);
    var out := SortByMean(ps);
    forall i | 0 <= i < |out|
      ensures out[i] in ps
    {
      assert out[i] in multiset(out);
    }
  }

  lemma {:induction false} SortOfSorted(ps: seq<Centroid>)
    requires SortedMeans(ps)
    ensures SortByMean(ps) == ps
  {
    if ps != [] {
      SortOfSorted(ps[1..]);
      assert ps == [ps[0]] + ps[1..];
    }
  }

  // ---- greedy clustering ----

  function Absorb(cur: Centroid, p: Centroid): Centroid
    requires cur.weight + p.weight != 0.0
  {
    Centroid((cur.mean * cur.weight + p.mean * p.weight) / (cur.weight + p.weight), cur.weight + p.weight)
  }

  /** May a centroid starting after weight cum and reaching weight right grow that far? */
  predicate OneStep(s: Scale, total: real, cum: real, right: real)
    requires total > 0.0
  {
    s.K(right / total) - s.K(cum / total) <= 1.0
  }

  function Cluster(s: Scale, total: real, cum: real, cur: Centroid, rest: seq<Centroid>): (out: seq<Centroid>)
    requires total > 0.0 && cur.weight > 0.0 && Positive(rest)
    ensures out != [] && Positive(out)
    decreases |rest|
  {
    if rest == [] then [cur]
    else
      var p := rest[0];
      if OneStep(s, total, cum, cum + (cur.weight + p.weight)) then
        Cluster(s, total, cum, Absorb(cur, p), rest[1..])
      else
        [cur] + Cluster(s, total, cum + cur.weight, p, rest[1..])
  }

  function Compressed(s: Scale, d: Digest): Digest
    requires Positive(d.centroids)
  {
    if d.buffer == [] && |d.centroids| <= 1 then d
    else
      var points := SortByMean(d.centroids + Singles(d.buffer));
      var total := Total(points);
      SortKeeps(d.centroids + Singles(d.buffer));
      SortKeepsBounds(d.centroids + Singles(d.buffer), 0.0, 0.0);
      TotalIsPositive(points);
      Digest(Cluster(s, total, 0.0, points[0], points[1..]), [], total)
  }

  /** Weighted means lie between what they mix. */
  lemma AbsorbMixes(cur: Centroid, p: Centroid)
    requires cur.weight > 0.0 && p.weight > 0.0
    ensures var m := Absorb(cur, p);
            && m.mean * m.weight == cur.mean * cur.weight + p.mean * p.weight
            && (cur.mean <= p.mean ==> cur.mean <= m.mean <= p.mean)
  {
    var w := cur.weight + p.weight;
    var num := cur.mean * cur.weight + p.mean * p.weight;
    assert num / w * w == num;
    if cur.mean <= p.mean {
      MulLe(cur.mean, p.mean, p.weight);
      MulLe(cur.mean, p.mean, cur.weight);
      DivBetween(cur.mean, p.mean, num, w);
    }
  }

  lemma MulLe(a: real, b: real, w: real)
    requires a <= b && w >= 0.0
    ensures a * w <= b * w
  {
  }

  lemma DivBetween(a: real, b: real, num: real, w: real)
    requires w > 0.0 && a * w <= num <= b * w
    ensures a <= num / w <= b
  {
    DivLe(a * w, num, w);
    DivLe(num, b * w, w);
    assert a * w / w == a && b * w / w == b;
  }

  lemma DivLe(a: real, b: real, t: real)
    requires t > 0.0 && a <= b
    ensures a / t <= b / t
  {
  }

  lemma ClusterOfOne(s: Scale, total: real, cum: real, p: Centroid)
    requires total > 0.0 && p.weight > 0.0
    ensures Cluster(s, total, cum, p, []) == [p]
  {
  }

  lemma ClusterSteps(s: Scale, total: real, cum: real, cur: Centroid, rest: seq<Centroid>)
    requires total > 0.0 && cur.weight > 0.0 && Positive(rest) && rest != []
    ensures Absorb(cur, rest[0]).weight > 0.0 && Positive(rest[1..])
    ensures Cluster(s, total, cum, cur, rest) ==
            if OneStep(s, total, cum, cum + (cur.weight + rest[0].weight)) then
              Cluster(s, total, cum, Absorb(cur, rest[0]), rest[1..])
            else [cur] + Cluster(s, total, cum + cur.weight, rest[0], rest[1..])
  {
    hide OneStep;
  }

  lemma {:induction false} ClusterTotal(s: Scale, total: real, cum: real, cur: Centroid, rest: seq<Centroid>)
    requires total > 0.0 && cur.weight > 0.0 && Positive(rest)
    ensures Total(Cluster(s, total, cum, cur, rest)) == cur.weight + Total(rest)
    decreases |rest|
  {
    hide OneStep, Absorb, Cluster, Total;
    if rest == [] {
      ClusterOfOne(s, total, cum, cur);
      WeighsAlone(cur);
    } else {
      ClusterSteps(s, total, cum, cur, rest);
      WeighsOnce(rest);
      if OneStep(s, total, cum, cum + (cur.weight + rest[0].weight)) {
        AbsorbWeight(cur, rest[0]);
        ClusterTotal(s, total, cum, Absorb(cur, rest[0]), rest[1..]);
      } else {
        ClusterTotal(s, total, cum + cur.weight, rest[0], rest[1..]);
        WeighsFirst(cur, Cluster(s, total, cum + cur.weight, rest[0], rest[1..]));
      }
    }
  }

  lemma WeighsAlone(p: Centroid)
    ensures Total([p]) == p.weight && Moment([p]) == p.mean * p.weight && Total([]) == 0.0 && Moment([]) == 0.0
  {
    assert [p][1..] == [];
  }

  lemma WeighsFirst(p: Centroid, ps: seq<Centroid>)
    ensures Total([p] + ps) == p.weight + Total(ps) && Moment([p] + ps) == p.mean * p.weight + Moment(ps)
  {
    assert ([p] + ps)[1..] == ps;
  }

  lemma {:induction false} ClusterMoment(s: Scale, total: real, cum: real, cur: Centroid, rest: seq<Centroid>)
    requires total > 0.0 && cur.weight > 0.0 && Positive(rest)
    ensures Moment(Cluster(s, total, cum, cur, rest)) == cur.mean * cur.weight + Moment(rest)
    decreases |rest|
  {
    hide OneStep, Absorb, Cluster, Moment;
    if rest == [] {
      ClusterOfOne(s, total, cum, cur);
      WeighsAlone(cur);
    } else {
      ClusterSteps(s, total, cum, cur, rest);
      WeighsOnce(rest);
      if OneStep(s, total, cum, cum + (cur.weight + rest[0].weight)) {
        AbsorbMixes(cur, rest[0]);
        AbsorbWeight(cur, rest[0]);
        ClusterMoment(s, total, cum, Absorb(cur, rest[0]), rest[1..]);
      } else {
        ClusterMoment(s, total, cum + cur.weight, rest[0], rest[1..]);
        WeighsFirst(cur, Cluster(s, total, cum + cur.weight, rest[0], rest[1..]));
      }
    }
  }

  /** Clustering sorted points gives sorted centroids inside their range. */
  lemma {:induction false} ClusterStaysSorted(s: Scale, total: real, cum: real, cur: Centroid, rest: seq<Centroid>, hi: real)
    requires total > 0.0 && cur.weight > 0.0 && Positive(rest)
    requires SortedMeans([cur] + rest) && cur.mean <= hi && Within(rest, cur.mean, hi)
    ensures var out := Cluster(s, total, cum, cur, rest);
            SortedMeans(out) && Within(out, cur.mean, hi)
    decreases |rest|
  {
    hide OneStep, Absorb, SortedMeans;
    var out := Cluster(s, total, cum, cur, rest);
    if rest == [] {
      assert [cur] + rest == [cur];
    } else {
      var p, tail := rest[0], rest[1..];
      assert [p] + tail == rest && ([cur] + rest)[1..] == rest && ([cur] + rest)[0] == cur;
      SortedTail([cur] + rest);
      SortedRange(rest, hi);
      if OneStep(s, total, cum, cum + (cur.weight + p.weight)) {
        AbsorbMixes(cur, p);
        AbsorbWeight(cur, p);
        var m := Absorb(cur, p);
        SortedTail(rest);
        SortedCons(m, tail);
        ClusterStaysSorted(s, total, cum, m, tail, hi);
      } else {
        ClusterStaysSorted(s, total, cum + cur.weight, p, tail, hi);
        SortedCons(cur, Cluster(s, total, cum + cur.weight, p, tail));
      }
    }
  }

  lemma SortedRange(ps: seq<Centroid>, hi: real)
    requires ps != [] && SortedMeans(ps) && forall i :: 0 <= i < |ps| ==> ps[i].mean <= hi
    ensures Within(ps[1..], ps[0].mean, hi)
  {
  }

  lemma AbsorbWeight(cur: Centroid, p: Centroid)
    requires cur.weight > 0.0 && p.weight > 0.0
    ensures Absorb(cur, p).weight == cur.weight + p.weight
  {
  }

  // ---- why few centroids remain ----

  /** Every adjacent pair spans more than one k-step. */
  ghost predicate Spread(s: Scale, total: real, cum: real, cs: seq<Centroid>)
    requires total > 0.0
    decreases |cs|
  {
    |cs| >= 2 ==>
      && !OneStep(s, total, cum, cum + (cs[0].weight + cs[1].weight))
      && Spread(s, total, cum + cs[0].weight, cs[1..])
  }

  /** Every centroid is a single point or spans at most one k-step. */
  ghost predicate Tight(s: Scale, total: real, cum: real, cs: seq<Centroid>, points: seq<Centroid>)
    requires total > 0.0
    decreases |cs|
  {
    cs == [] ||
    ((cs[0] in points || OneStep(s, total, cum, cum + cs[0].weight)) &&
     Tight(s, total, cum + cs[0].weight, cs[1..], points))
  }

  lemma {:induction false} ClusterSpreads(s: Scale, total: real, cum: real, cur: Centroid, rest: seq<Centroid>)
    requires s.Valid() && total > 0.0 && cur.weight > 0.0 && Positive(rest)
    ensures Spread(s, total, cum, Cluster(s, total, cum, cur, rest))
    ensures Cluster(s, total, cum, cur, rest)[0].weight >= cur.weight
    decreases |rest|
  {
    hide Scale.K, Scale.Valid;
    if rest != [] {
      var p, tail := rest[0], rest[1..];
      if OneStep(s, total, cum, cum + (cur.weight + p.weight)) {
        assert Absorb(cur, p).weight >= cur.weight;
        ClusterSpreads(s, total, cum, Absorb(cur, p), tail);
      } else {
        ClusterSpreads(s, total, cum + cur.weight, p, tail);
        var inner := Cluster(s, total, cum + cur.weight, p, tail);
        var out := Cluster(s, total, cum, cur, rest);
        assert out[1..] == inner;
        var near, far := cum + (cur.weight + p.weight), cum + (cur.weight + inner[0].weight);
        DivLe(near, far, total);
        KIsMonotone(s, near / total, far / total);
      }
    }
  }

  lemma {:induction false} ClusterIsTight(s: Scale, total: real, cum: real, cur: Centroid, rest: seq<Centroid>, points: seq<Centroid>)
    requires total > 0.0 && cur.weight > 0.0 && Positive(rest)
    requires cur in points || OneStep(s, total, cum, cum + cur.weight)
    requires forall p :: p in rest ==> p in points
    ensures Tight(s, total, cum, Cluster(s, total, cum, cur, rest), points)
    decreases |rest|
  {
    var out := Cluster(s, total, cum, cur, rest);
    if rest == [] {
      assert out[1..] == [];
    } else {
      var p, tail := rest[0], rest[1..];
      if OneStep(s, total, cum, cum + (cur.weight + p.weight)) {
        ClusterIsTight(s, total, cum, Absorb(cur, p), tail, points);
      } else {
        ClusterIsTight(s, total, cum + cur.weight, p, tail, points);
        assert out[1..] == Cluster(s, total, cum + cur.weight, p, tail);
      }
    }
  }

  /** Disjoint adjacent pairs use up more than a k-step each. */
  lemma {:induction false} SpreadUsesSteps(s: Scale, total: real, cum: real, cs: seq<Centroid>)
    requires s.Valid() && total > 0.0 && Positive(cs) && Spread(s, total, cum, cs)
    ensures var used := s.K((cum + Total(cs)) / total) - s.K(cum / total);
            used >= (|cs| / 2) as real && (|cs| >= 2 ==> used > (|cs| / 2) as real)
    decreases |cs|
  {
    if |cs| < 2 {
      TotalIsPositive(cs);
      DivLe(cum, cum + Total(cs), total);
      KIsMonotone(s, cum / total, (cum + Total(cs)) / total);
    } else {
      var mid := cum + cs[0].weight + cs[1].weight;
      var rest := cs[2..];
      assert cs[1..][1..] == rest;
      assert Spread(s, total, mid, rest) by {
        if |cs| == 2 {
        } else {
          assert cs[1..][1] == cs[2];
        }
      }
      SpreadUsesSteps(s, total, mid, rest);
      assert Total(cs) == cs[0].weight + (cs[1].weight + Total(rest)) by {
        assert Total(cs[1..]) == cs[1].weight + Total(rest);
      }
      assert cum + (cs[0].weight + cs[1].weight) == mid;
      assert |rest| / 2 == |cs| / 2 - 1;
    }
  }

  /** Compression leaves fewer than delta + 1 centroids, whatever went in. */
  lemma CompressedIsSmall(s: Scale, d: Digest)
    requires s.Valid() && Positive(d.centroids)
    ensures |Compressed(s, d).centroids| as real < s.delta + 1.0
    ensures Compressed(s, d).buffer == []
  {
    if d.buffer != [] || |d.centroids| > 1 {
      var points := GatheredPoints(d);
      CompressedIs(s, d);
      ClusterIsSmall(s, points);
    }
  }

  /** What compression clusters: all the weighted points, in order. */
  function GatheredPoints(d: Digest): (points: seq<Centroid>) {
    SortByMean(d.centroids + Singles(d.buffer))
  }

  lemma CompressedIs(s: Scale, d: Digest)
    requires Positive(d.centroids) && (d.buffer != [] || |d.centroids| > 1)
    ensures var points := GatheredPoints(d);
            && points != [] && Positive(points) && SortedMeans(points) && Total(points) > 0.0
            && |points| == |d.centroids| + |d.buffer|
            && Total(points) == Total(d.centroids) + |d.buffer| as real
            && Moment(points) == Moment(d.centroids) + Sum(d.buffer)
            && Compressed(s, d) == Digest(Cluster(s, Total(points), 0.0, points[0], points[1..]), [], Total(points))
  {
    hide Insert, Cluster, SortByMean, Total, Moment, Sum, SortedMeans;
    var all := d.centroids + Singles(d.buffer);
    SortKeeps(all);
    SortKeepsBounds(all, 0.0, 0.0);
    TotalIsPositive(GatheredPoints(d));
    TotalConcat(d.centroids, Singles(d.buffer));
    SinglesTotal(d.buffer);
  }

  lemma ClusterIsSmall(s: Scale, points: seq<Centroid>)
    requires s.Valid() && points != [] && Positive(points) && Total(points) > 0.0
    ensures |Cluster(s, Total(points), 0.0, points[0], points[1..])| as real < s.delta + 1.0
  {
    hide Cluster, Spread, Scale.K, Scale.Valid, Total;
    var total := Total(points);
    var out := Cluster(s, total, 0.0, points[0], points[1..]);
    ClusterSpreads(s, total, 0.0, points[0], points[1..]);
    SpreadUsesSteps(s, total, 0.0, out);
    ClusterTotal(s, total, 0.0, points[0], points[1..]);
    WeighsOnce(points);
    assert 0.0 + Total(out) == total;
    WholeShare(total);
    FullScale(s);
    HalvesRound(|out|);
  }

  lemma WholeShare(t: real)
    requires t > 0.0
    ensures t / t == 1.0 && 0.0 / t == 0.0
  {
  }

  lemma HalvesRound(n: nat)
    ensures 2.0 * (n / 2) as real >= n as real - 1.0
    ensures n < 2 ==> n as real <= 1.0
  {
    assert 2 * (n / 2) >= n - 1;
  }

  lemma FullScale(s: Scale)
    requires s.Valid()
    ensures s.K(1.0) - s.K(0.0) == s.delta / 2.0 && s.delta > 0.0
  {
  }


  // ---- compression is idempotent ----

  lemma {:induction false} ClusterFixes(s: Scale, total: real, cum: real, cs: seq<Centroid>)
    requires total > 0.0 && cs != [] && Positive(cs) && Spread(s, total, cum, cs)
    ensures Cluster(s, total, cum, cs[0], cs[1..]) == cs
    decreases |cs|
  {
    if |cs| > 1 {
      ClusterFixes(s, total, cum + cs[0].weight, cs[1..]);
      assert cs == [cs[0]] + cs[1..];
    }
  }

  ghost predicate Weighed(d: Digest) {
    Positive(d.centroids) && d.count == Total(d.centroids) + |d.buffer| as real
  }

  ghost predicate Consistent(d: Digest) {
    Weighed(d) && SortedMeans(d.centroids)
  }

  /** What one compression establishes. */
  lemma CompressKeeps(s: Scale, d: Digest, lo: real, hi: real)
    requires Weighed(d)
    ensures var e := Compressed(s, d);
            && Consistent(e) && e.buffer == []
            && e.count == d.count
            && Moment(e.centroids) == Moment(d.centroids) + Sum(d.buffer)
            && (Within(d.centroids + Singles(d.buffer), lo, hi) ==> Within(e.centroids, lo, hi))
  {
    hide Cluster, Insert, SortByMean, Scale.Valid, Total, Moment;
    if d.buffer == [] && |d.centroids| <= 1 {
      assert d.centroids + Singles(d.buffer) == d.centroids;
      assert Sum(d.buffer) == 0.0;
    } else {
      var points := GatheredPoints(d);
      CompressedIs(s, d);
      ClusterOfPoints(s, points, lo, hi);
      if Within(d.centroids + Singles(d.buffer), lo, hi) {
        SortKeepsBounds(d.centroids + Singles(d.buffer), lo, hi);
      }
    }
  }

  lemma ClusterOfPoints(s: Scale, points: seq<Centroid>, lo: real, hi: real)
    requires points != [] && Positive(points) && SortedMeans(points) && Total(points) > 0.0
    ensures var out := Cluster(s, Total(points), 0.0, points[0], points[1..]);
            && Total(out) == Total(points) && Moment(out) == Moment(points)
            && SortedMeans(out) && (Within(points, lo, hi) ==> Within(out, lo, hi))
  {
    hide Cluster, SortedMeans, Within;
    ClusterTotal(s, Total(points), 0.0, points[0], points[1..]);
    ClusterMoment(s, Total(points), 0.0, points[0], points[1..]);
    ClusterOfSorted(s, points, lo, hi);
  }

  lemma ClusterOfSorted(s: Scale, points: seq<Centroid>, lo: real, hi: real)
    requires points != [] && Positive(points) && SortedMeans(points) && Total(points) > 0.0
    ensures var out := Cluster(s, Total(points), 0.0, points[0], points[1..]);
            SortedMeans(out) && (Within(points, lo, hi) ==> Within(out, lo, hi))
  {
    hide Cluster, Total;
    assert points == [points[0]] + points[1..];
    var top := points[|points| - 1].mean;
    SortedRange(points, top);
    ClusterStaysSorted(s, Total(points), 0.0, points[0], points[1..], top);
  }

  /** In exact arithmetic a second compression changes nothing. */
  lemma CompressIsIdempotent(s: Scale, d: Digest)
    requires s.Valid() && Weighed(d)
    ensures Compressed(s, Compressed(s, d)) == Compressed(s, d)
  {
    hide Cluster, Insert, SortByMean, Spread, Scale.Valid;
    var e := Compressed(s, d);
    CompressKeeps(s, d, 0.0, 0.0);
    if |e.centroids| > 1 && (d.buffer != [] || |d.centroids| > 1) {
      var points := GatheredPoints(d);
      CompressedIs(s, d);
      ClusterSpreads(s, Total(points), 0.0, points[0], points[1..]);
      CompressedIs(s, e);
      assert e.centroids + Singles(e.buffer) == e.centroids;
      SortOfSorted(e.centroids);
      assert Total(e.centroids) == Total(points) by {
        ClusterTotal(s, Total(points), 0.0, points[0], points[1..]);
      }
      ClusterFixes(s, Total(points), 0.0, e.centroids);
    }
  }

  // ---- the wire form ----

  function Means(cs: seq<Centroid>): (xs: seq<real>)
    ensures |xs| == |cs|
  {
    seq(|cs|, i requires 0 <= i < |cs| => cs[i].mean)
  }

  function Weights(cs: seq<Centroid>): (xs: seq<real>)
    ensures |xs| == |cs|
  {
    seq(|cs|, i requires 0 <= i < |cs| => cs[i].weight)
  }

  /** Pairs up to the shorter array, those with no weight skipped. */
  function Paired(means: seq<real>, weights: seq<real>): (cs: seq<Centroid>)
    ensures Positive(cs)
  {
    if means == [] || weights == [] then []
    else
      var rest := Paired(means[1..], weights[1..]);
      if weights[0] > 0.0 then [Centroid(means[0], weights[0])] + rest else rest
  }

  function FromParts(means: seq<real>, weights: seq<real>): Digest {
    var cs := Paired(means, weights);
    Digest(SortByMean(cs), [], Total(cs))
  }

  lemma {:induction false} PairedInverts(cs: seq<Centroid>)
    requires Positive(cs)
    ensures Paired(Means(cs), Weights(cs)) == cs
  {
    if cs != [] {
      PairedInverts(cs[1..]);
      assert Means(cs)[1..] == Means(cs[1..]) && Weights(cs)[1..] == Weights(cs[1..]);
    }
  }

  /** The wire round trip of a compressed digest loses nothing. */
  lemma WireRoundTrip(d: Digest)
    requires Consistent(d) && d.buffer == []
    ensures FromParts(Means(d.centroids), Weights(d.centroids)) == d
  {
    PairedInverts(d.centroids);
    SortOfSorted(d.centroids);
  }

  predicate PairAt(means: seq<real>, weights: seq<real>, c: Centroid, i: nat) {
    i < |means| && i < |weights| && means[i] == c.mean && weights[i] == c.weight
  }

  /** The positions whose pair is this centroid. */
  function PairsOf(means: seq<real>, weights: seq<real>, c: Centroid): set<nat> {
    set i: nat | i < |means| && PairAt(means, weights, c, i)
  }

  lemma {:induction false} PairedAre(means: seq<real>, weights: seq<real>, c: Centroid)
    ensures multiset(Paired(means, weights))[c] == if c.weight > 0.0 then |PairsOf(means, weights, c)| else 0
  {
    if means != [] && weights != [] {
      var rest := Paired(means[1..], weights[1..]);
      PairedAre(means[1..], weights[1..], c);
      FirstPair(means, weights, c);
      assert multiset([Centroid(means[0], weights[0])] + rest) == multiset{Centroid(means[0], weights[0])} + multiset(rest);
    }
  }

  lemma FirstPair(means: seq<real>, weights: seq<real>, c: Centroid)
    requires means != [] && weights != []
    ensures |PairsOf(means, weights, c)| ==
            |PairsOf(means[1..], weights[1..], c)| + if Centroid(means[0], weights[0]) == c then 1 else 0
  {
    var later, all := PairsOf(means[1..], weights[1..], c), PairsOf(means, weights, c);
    forall j: nat
      ensures j in all - {0} <==> j > 0 && j - 1 in later
    {
      assert j > 0 ==> (PairAt(means, weights, c, j) <==> PairAt(means[1..], weights[1..], c, j - 1));
    }
    assert 0 in all <==> Centroid(means[0], weights[0]) == c by {
      assert 0 in all <==> PairAt(means, weights, c, 0);
    }
    ShiftKeepsSize(later, all - {0});
    assert 0 in all ==> all == (all - {0}) + {0};
    assert 0 !in all ==> all == all - {0};
  }

  lemma {:induction false} ShiftKeepsSize(xs: set<nat>, moved: set<nat>)
    requires forall j: nat :: j in moved <==> j > 0 && j - 1 in xs
    ensures |moved| == |xs|
    decreases |xs|
  {
    if xs == {} {
      assert moved == {};
    } else {
      var x :| x in xs;
      assert x + 1 in moved;
      ShiftKeepsSize(xs - {x}, moved - {x + 1});
    }
  }

  /** A digest rebuilt from two arrays has exactly the pairs of positive weight, as often as they
      occur, by ascending mean, and counts their weights. */
  lemma FromPartsIs(means: seq<real>, weights: seq<real>, c: Centroid)
    ensures var d := FromParts(means, weights);
            && multiset(d.centroids)[c] == (if c.weight > 0.0 then |PairsOf(means, weights, c)| else 0)
            && SortedMeans(d.centroids) && d.buffer == [] && d.count == Total(d.centroids)
  {
    hide PairsOf, Paired, SortByMean, SortedMeans, Total;
    PairedAre(means, weights, c);
    SortKeeps(Paired(means, weights));
  }

  lemma FromPartsIsConsistent(means: seq<real>, weights: seq<real>)
    ensures Consistent(FromParts(means, weights))
  {
    var cs := Paired(means, weights);
    SortKeeps(cs);
    SortKeepsBounds(cs, 0.0, 0.0);
  }

  // ---- quantiles ----

  function Interpolate(fromMean: real, toMean: real, fromAt: real, toAt: real, at: real): real
    requires fromAt < toAt
  {
    fromMean + (at - fromAt) / (toAt - fromAt) * (toMean - fromMean)
  }

  /** The walk over the centroids behind the first, from the previous centre onwards. */
  function Walk(cs: seq<Centroid>, target: real, acc: real, prevCenter: real, prevMean: real): real
    requires Positive(cs) && prevCenter <= acc
    decreases |cs|
  {
    if cs == [] then prevMean
    else
      var center := acc + cs[0].weight / 2.0;
      if target <= center then Interpolate(prevMean, cs[0].mean, prevCenter, center, target)
      else Walk(cs[1..], target, acc + cs[0].weight, center, cs[0].mean)
  }

  function Quantile(d: Digest, q: real): (r: Option<real>)
    requires Positive(d.centroids)
    ensures r.None? <==> d.centroids == []
  {
    var cs := d.centroids;
    if cs == [] then None
    else if |cs| == 1 then Some(cs[0].mean)
    else
      var target := Clamp(q) * d.count;
      var center := cs[0].weight / 2.0;
      if target <= center then Some(cs[0].mean)
      else Some(Walk(cs[1..], target, cs[0].weight, center, cs[0].mean))
  }

  lemma InterpolateBetween(a: real, b: real, fromAt: real, toAt: real, at1: real, at2: real)
    requires a <= b && fromAt < toAt && fromAt <= at1 <= at2 <= toAt
    ensures a <= Interpolate(a, b, fromAt, toAt, at1) <= Interpolate(a, b, fromAt, toAt, at2) <= b
  {
    var w := toAt - fromAt;
    var t1, t2 := (at1 - fromAt) / w, (at2 - fromAt) / w;
    DivLe(0.0, at1 - fromAt, w);
    DivLe(at1 - fromAt, at2 - fromAt, w);
    DivLe(at2 - fromAt, w, w);
    MulLe(0.0, t1, b - a);
    MulLe(t1, t2, b - a);
    MulLe(t2, 1.0, b - a);
  }

  lemma {:induction false} WalkIsMonotone(cs: seq<Centroid>, t1: real, t2: real, acc: real, prevCenter: real, prevMean: real)
    requires Positive(cs) && SortedMeans(cs) && prevCenter <= acc
    requires prevCenter <= t1 <= t2 && (cs != [] ==> prevMean <= cs[0].mean)
    ensures prevMean <= Walk(cs, t1, acc, prevCenter, prevMean) <= Walk(cs, t2, acc, prevCenter, prevMean)
    ensures Walk(cs, t2, acc, prevCenter, prevMean) <= if cs == [] then prevMean else cs[|cs| - 1].mean
    decreases |cs|
  {
    hide Interpolate;
    if cs != [] {
      var center := acc + cs[0].weight / 2.0;
      if t1 <= center {
        InterpolateBetween(prevMean, cs[0].mean, prevCenter, center, t1, if t2 <= center then t2 else t1);
      }
      if center < t2 {
        var from := if center < t1 then t1 else t2;
        WalkIsMonotone(cs[1..], from, t2, acc + cs[0].weight, center, cs[0].mean);
      }
    }
  }

  /** Quantiles of a compressed digest are nondecreasing in q and lie between the first and
      the last centroid mean. */
  lemma QuantileIsMonotone(d: Digest, q1: real, q2: real)
    requires Consistent(d) && d.buffer == [] && d.centroids != [] && q1 <= q2
    ensures var cs := d.centroids;
            var x1, x2 := Quantile(d, q1).value, Quantile(d, q2).value;
            cs[0].mean <= x1 <= x2 <= cs[|cs| - 1].mean
  {
    hide Walk, Total, Clamp;
    var cs := d.centroids;
    if |cs| > 1 {
      TotalIsPositive(cs);
      ClampIsMonotone(q1, q2);
      var t1, t2 := Clamp(q1) * d.count, Clamp(q2) * d.count;
      MulLe(Clamp(q1), Clamp(q2), d.count);
      SortedTail(cs);
      TargetsAreMonotone(cs, t1, t2);
      QuantileAt(d, q1);
      QuantileAt(d, q2);
    }
  }

  lemma QuantileAt(d: Digest, q: real)
    requires |d.centroids| > 1 && Positive(d.centroids)
    ensures var cs, target := d.centroids, Clamp(q) * d.count;
            var center := cs[0].weight / 2.0;
            Quantile(d, q) ==
            Some(if target <= center then cs[0].mean else Walk(cs[1..], target, cs[0].weight, center, cs[0].mean))
  {
  }

  lemma ClampIsMonotone(q1: real, q2: real)
    requires q1 <= q2
    ensures Clamp(q1) <= Clamp(q2)
  {
  }

  lemma TargetsAreMonotone(cs: seq<Centroid>, t1: real, t2: real)
    requires |cs| > 1 && Positive(cs) && SortedMeans(cs) && SortedMeans(cs[1..]) && t1 <= t2
    ensures var center := cs[0].weight / 2.0;
            var last := cs[|cs| - 1].mean;
            && cs[0].mean <= last
            && (center < t2 ==> cs[0].mean <= Walk(cs[1..], t2, cs[0].weight, center, cs[0].mean) <= last)
            && (center < t1 ==> cs[0].mean <= Walk(cs[1..], t1, cs[0].weight, center, cs[0].mean)
                                <= Walk(cs[1..], t2, cs[0].weight, center, cs[0].mean))
  {
    hide Walk;
    var center := cs[0].weight / 2.0;
    assert cs[1..][0] == cs[1] && cs[1..][|cs| - 2] == cs[|cs| - 1];
    if center < t2 {
      var from := if center < t1 then t1 else t2;
      WalkIsMonotone(cs[1..], from, t2, cs[0].weight, center, cs[0].mean);
    }
  }

  /** Every quantile survives the wire. */
  lemma WireKeepsQuantiles(d: Digest, q: real)
    requires Consistent(d) && d.buffer == []
    ensures Positive(FromParts(Means(d.centroids), Weights(d.centroids)).centroids)
    ensures Quantile(FromParts(Means(d.centroids), Weights(d.centroids)), q) == Quantile(d, q)
  {
    WireRoundTrip(d);
  }

  // ---- adding and merging ----

  function Added(s: Scale, d: Digest, x: real): Digest
    requires Positive(d.centroids)
  {
    var e := Digest(d.centroids, d.buffer + [x], d.count + 1.0);
    if |e.buffer| as real >= s.delta * 10.0 then Compressed(s, e) else e
  }

  function Pooled(d: Digest, o: Digest): Digest {
    Digest(d.centroids + o.centroids, d.buffer + o.buffer, d.count + Total(o.centroids) + |o.buffer| as real)
  }

  function Merged(s: Scale, d: Digest, o: Digest): Digest
    requires Positive(d.centroids) && Positive(o.centroids)
  {
    Compressed(s, Pooled(d, o))
  }

  lemma PooledIsWeighed(d: Digest, o: Digest)
    requires Weighed(d) && Weighed(o)
    ensures Weighed(Pooled(d, o)) && Pooled(d, o).count == d.count + o.count
  {
    TotalConcat(d.centroids, o.centroids);
  }

  /** The sum of everything that was ever added. */
  function Mass(d: Digest): real {
    Moment(d.centroids) + Sum(d.buffer)
  }

  ghost predicate InRange(d: Digest, lo: real, hi: real) {
    Within(d.centroids, lo, hi) && forall i :: 0 <= i < |d.buffer| ==> lo <= d.buffer[i] <= hi
  }

  /** The documented size bound. */
  ghost predicate Small(s: Scale, d: Digest) {
    |d.centroids| as real < s.delta + 1.0 && |d.buffer| as real < s.delta * 10.0
  }

  lemma CompressKeepsMass(s: Scale, d: Digest, lo: real, hi: real)
    requires Weighed(d)
    ensures var e := Compressed(s, d);
            && Consistent(e) && e.buffer == [] && e.count == d.count && Mass(e) == Mass(d)
            && (InRange(d, lo, hi) ==> InRange(e, lo, hi))
    ensures s.Valid() ==> Small(s, Compressed(s, d))
  {
    hide Compressed, Moment, Total;
    CompressKeeps(s, d, lo, hi);
    if s.Valid() {
      CompressedIsSmall(s, d);
    }
  }

  lemma AddKeeps(s: Scale, d: Digest, x: real, lo: real, hi: real)
    requires Consistent(d)
    ensures var e := Added(s, d, x);
            && Consistent(e) && e.count == d.count + 1.0 && Mass(e) == Mass(d) + x
            && (InRange(d, lo, hi) && lo <= x <= hi ==> InRange(e, lo, hi))
    ensures s.Valid() && Small(s, d) ==> Small(s, Added(s, d, x))
  {
    hide Compressed, Moment, Total, SortedMeans;
    SumConcat(d.buffer, [x]);
    assert Sum([x]) == x by { assert [x][1..] == []; }
    CompressKeepsMass(s, Digest(d.centroids, d.buffer + [x], d.count + 1.0), lo, hi);
  }

  lemma MergeKeeps(s: Scale, d: Digest, o: Digest, lo: real, hi: real)
    requires Consistent(d) && Consistent(o)
    ensures var e := Merged(s, d, o);
            && Consistent(e) && e.buffer == [] && e.count == d.count + o.count && Mass(e) == Mass(d) + Mass(o)
            && (InRange(d, lo, hi) && InRange(o, lo, hi) ==> InRange(e, lo, hi))
    ensures s.Valid() ==> Small(s, Merged(s, d, o))
  {
    hide Compressed, Moment, Total, SortedMeans;
    TotalConcat(d.centroids, o.centroids);
    SumConcat(d.buffer, o.buffer);
    CompressKeepsMass(s, Pooled(d, o), lo, hi);
  }

  // ---- runs ----

  datatype DigestOp = AddSample(x: real) | MergeWith(other: Digest)

  function RunDigest(s: Scale, ops: seq<DigestOp>): (d: Digest)
    requires forall op :: op in ops && op.MergeWith? ==> Consistent(op.other)
    ensures Consistent(d)
  {
    if ops == [] then EMPTY_DIGEST
    else
      var d := RunDigest(s, ops[..|ops| - 1]);
      match ops[|ops| - 1]
      case AddSample(x) => AddKeeps(s, d, x, 0.0, 0.0); Added(s, d, x)
      case MergeWith(o) => assert ops[|ops| - 1] in ops; MergeKeeps(s, d, o, 0.0, 0.0); Merged(s, d, o)
  }

  /** However samples and foreign digests of any size come in, a digest grown from empty
      keeps fewer than delta + 1 centroids and fewer than 10 delta buffered samples. */
  lemma {:induction false} RunIsSmall(s: Scale, ops: seq<DigestOp>)
    requires s.Valid() && forall op :: op in ops && op.MergeWith? ==> Consistent(op.other)
    ensures Small(s, RunDigest(s, ops))
  {
    hide Added, Merged, Consistent;
    if ops != [] {
      var front := ops[..|ops| - 1];
      RunIsSmall(s, front);
      var d := RunDigest(s, front);
      match ops[|ops| - 1]
      case AddSample(x) => AddKeeps(s, d, x, 0.0, 0.0);
      case MergeWith(o) => assert ops[|ops| - 1] in ops; MergeKeeps(s, d, o, 0.0, 0.0);
    }
  }
}
