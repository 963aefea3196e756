/** The t-digest as the source runs it: fields changed by every call. */
module TDigests {
  import opened Prelude
  import opened TDigestSpec

  /** A raw sample; NaN and the infinities are not finite. */
  datatype Sample = Finite(x: real) | NonFinite

  class TDigest {
    const scale: Scale
    var centroids: seq<Centroid>
    var buffer: seq<real>
    var count: real

    function View(): Digest
      reads this
    {
      Digest(centroids, buffer, count)
    }

    ghost predicate Valid()
      reads this
    {
      scale.Valid() && Consistent(View())
    }

    constructor (s: Scale)
      requires s.Valid()
      ensures scale == s && View() == EMPTY_DIGEST && Valid() && Small(scale, View())
    {
      scale, centroids, buffer, count := s, [], [], 0.0;
    }

    /** Rebuild from the wire arrays. */
    constructor FromWire(s: Scale, means: seq<real>, weights: seq<real>)
      requires s.Valid()
      ensures scale == s && View() == FromParts(means, weights) && Valid()
    {
      hide Paired, SortByMean, Total, Consistent;
      var cs: seq<Centroid> := [];
      var total := 0.0;
      var i := 0;
      assert means[0..] == means && weights[0..] == weights;
      assert total == Total(cs) by { EmptyTotal(); }
      while i < |means| && i < |weights|
        invariant i <= |means| && i <= |weights|
        invariant Paired(means, weights) == cs + Paired(means[i..], weights[i..])
        invariant total == Total(cs)
      {
        PairedSteps(means[i..], weights[i..], cs);
        if weights[i] > 0.0 {
          TotalOfOne(cs, Centroid(means[i], weights[i]));
          cs := cs + [Centroid(means[i], weights[i])];
          total := total + weights[i];
        }
        assert means[i..][1..] == means[i + 1..] && weights[i..][1..] == weights[i + 1..];
        i := i + 1;
      }
      PairedEnds(means[i..], weights[i..]);
      assert cs == Paired(means, weights);
      FromPartsIsConsistent(means, weights);
      scale, centroids, buffer, count := s, SortByMean(cs), [], total;
    }

    predicate IsEmpty()
      reads this
    {
      count == 0.0
    }

    method Compress()
      requires scale.Valid() && Weighed(View())
      modifies this
      ensures View() == Compressed(scale, old(View()))
      ensures Valid() && buffer == []
    {
      hide Cluster, SortByMean, Total, Moment, Scale.Valid, Small, SortedMeans, Mass, InRange, Compressed, Scale.K, Absorb,
           Within;
      ghost var d := View();
      CompressedNothing(scale, d);
      CompressKeepsMass(scale, d, 0.0, 0.0);
      if buffer == [] && |centroids| <= 1 {
        return;
      }
      CompressedIs(scale, d);
      var points := SortByMean(centroids + Singles(buffer));
      var total := Total(points);
      if total == 0.0 {
        assert false;
      }
      var merged, cur, cum := [], points[0], 0.0;
      for i := 1 to |points|
        invariant cur.weight > 0.0
        invariant Cluster(scale, total, 0.0, points[0], points[1..]) == merged + Cluster(scale, total, cum, cur, points[i..])
      {
        var p := points[i];
        ClusterSteps(scale, total, cum, cur, points[i..]);
        assert points[i..][1..] == points[i + 1..];
        var proposed := cur.weight + p.weight;
        AbsorbIs(cur, p, proposed);
        if scale.K((cum + proposed) / total) - scale.K(cum / total) <= 1.0 {
          cur := Centroid((cur.mean * cur.weight + p.mean * p.weight) / proposed, proposed);
        } else {
          Regroup(merged, [cur], Cluster(scale, total, cum + cur.weight, p, points[i + 1..]));
          cum := cum + cur.weight;
          merged := merged + [cur];
          cur := p;
        }
      }
      ClusterOfOne(scale, total, cum, cur);
      centroids, buffer, count := merged + [cur], [], total;
    }

    method Add(sample: Sample)
      requires Valid()
      modifies this
      ensures Valid() && (old(Small(scale, View())) ==> Small(scale, View()))
      ensures View() == if sample.Finite? then Added(scale, old(View()), sample.x) else old(View())
    {
      hide Compressed, SortedMeans, Total, Scale.Valid;
      if sample.Finite? {
        AddKeeps(scale, View(), sample.x, 0.0, 0.0);
        buffer := buffer + [sample.x];
        count := count + 1.0;
        if |buffer| as real >= scale.delta * 10.0 {
          Compress();
        }
      }
    }

    /** Take in another digest's centroids and samples, then compress. */
    method Merge(other: TDigest)
      requires Valid() && other != this && Consistent(other.View())
      modifies this
      ensures Valid() && Small(scale, View())
      ensures View() == Merged(scale, old(View()), other.View())
    {
      hide Compressed, SortedMeans, Scale.Valid, Small;
      ghost var d, o := View(), other.View();
      MergeKeeps(scale, d, o, 0.0, 0.0);
      assert other.centroids[..0] == [] && d.centroids + [] == d.centroids;
      for i := 0 to |other.centroids|
        invariant centroids == d.centroids + other.centroids[..i]
        invariant count == d.count + Total(other.centroids[..i]) && buffer == d.buffer && other.View() == o
      {
        assert other.centroids[..i + 1] == other.centroids[..i] + [other.centroids[i]];
        TotalConcat(other.centroids[..i], [other.centroids[i]]);
        centroids := centroids + [other.centroids[i]];
        count := count + other.centroids[i].weight;
      }
      assert other.centroids[..|other.centroids|] == other.centroids;
      assert other.buffer[..0] == [] && d.buffer + [] == d.buffer;
      for i := 0 to |other.buffer|
        invariant buffer == d.buffer + other.buffer[..i]
        invariant count == d.count + Total(o.centroids) + i as real
        invariant centroids == d.centroids + o.centroids && other.View() == o
      {
        assert other.buffer[..i + 1] == other.buffer[..i] + [other.buffer[i]];
        buffer := buffer + [other.buffer[i]];
        count := count + 1.0;
      }
      assert other.buffer[..|other.buffer|] == other.buffer;
      assert View() == Pooled(d, o);
      PooledIsWeighed(d, o);
      Compress();
    }

    method ToParts() returns (means: seq<real>, weights: seq<real>)
      requires Valid()
      modifies this
      ensures Valid() && View() == Compressed(scale, old(View()))
      ensures means == Means(centroids) && weights == Weights(centroids)
    {
      hide Compressed;
      Compress();
      means, weights := Means(centroids), Weights(centroids);
    }

    method QuantileAt(q: real) returns (x: Option<real>)
      requires Positive(centroids)
      ensures x == Quantile(View(), q)
    {
      hide Walk, Quantile, Clamp, Interpolate;
      FewCentroids(View(), q);
      QuantileIgnoresBuffer(View(), q);
      if |centroids| == 0 {
        return None;
      }
      if |centroids| == 1 {
        return Some(centroids[0].mean);
      }
      var target := Clamp(q) * count;
      var acc, prevCenter, prevMean := 0.0, 0.0, centroids[0].mean;
      for i := 0 to |centroids|
        invariant i == 0 ==> acc == 0.0 && prevMean == centroids[0].mean
        invariant i > 0 ==> prevCenter <= acc
        invariant i > 0 ==> Quantile(View(), q) == Some(Walk(centroids[i..], target, acc, prevCenter, prevMean))
        invariant i > 0 ==> prevMean == centroids[i - 1].mean
      {
        var c := centroids[i];
        var center := acc + c.weight / 2.0;
        assert centroids[i..][0] == c;
        if i > 0 {
          WalkSteps(centroids[i..], target, acc, prevCenter, prevMean);
        } else {
          FirstCenter(centroids, q, count, target, center);
        }
        if target <= center {
          if i == 0 {
            return Some(c.mean);
          }
          var t := (target - prevCenter) / (center - prevCenter);
          var y := prevMean + t * (c.mean - prevMean);
          InterpolateIs(prevMean, c.mean, prevCenter, center, target, t, y);
          return Some(y);
        }
        assert centroids[i..][1..] == centroids[i + 1..];
        prevCenter, prevMean, acc := center, c.mean, acc + c.weight;
      }
      WalkEnds(target, acc, prevCenter, prevMean);
      assert centroids[|centroids|..] == [];
      x := Some(centroids[|centroids| - 1].mean);
    }
  }

  lemma EmptyTotal()
    ensures Total([]) == 0.0
  {
  }

  lemma TotalOfOne(cs: seq<Centroid>, c: Centroid)
    ensures Total(cs + [c]) == Total(cs) + c.weight
  {
    TotalConcat(cs, [c]);
    assert [c][1..] == [];
  }

  lemma PairedSteps(means: seq<real>, weights: seq<real>, done: seq<Centroid>)
    requires means != [] && weights != []
    ensures done + Paired(means, weights) ==
            (if weights[0] > 0.0 then done + [Centroid(means[0], weights[0])] else done) + Paired(means[1..], weights[1..])
  {
  }

  lemma PairedEnds(means: seq<real>, weights: seq<real>)
    requires means == [] || weights == []
    ensures Paired(means, weights) == []
  {
  }

  lemma FewCentroids(d: Digest, q: real)
    requires Positive(d.centroids)
    ensures d.centroids == [] ==> Quantile(d, q) == None
    ensures |d.centroids| == 1 ==> Quantile(d, q) == Some(d.centroids[0].mean)
  {
  }

  lemma FirstCenter(cs: seq<Centroid>, q: real, count: real, target: real, center: real)
    requires |cs| > 1 && Positive(cs) && target == Clamp(q) * count && center == cs[0].weight / 2.0
    ensures Quantile(Digest(cs, [], count), q) ==
            Some(if target <= center then cs[0].mean else Walk(cs[1..], target, cs[0].weight, center, cs[0].mean))
  {
    TDigestSpec.QuantileAt(Digest(cs, [], count), q);
  }

  lemma QuantileIgnoresBuffer(d: Digest, q: real)
    requires Positive(d.centroids)
    ensures Quantile(d, q) == Quantile(Digest(d.centroids, [], d.count), q)
  {
  }

  lemma WalkSteps(cs: seq<Centroid>, target: real, acc: real, prevCenter: real, prevMean: real)
    requires Positive(cs) && prevCenter <= acc && cs != []
    ensures var center := acc + cs[0].weight / 2.0;
            Walk(cs, target, acc, prevCenter, prevMean) ==
            if target <= center then Interpolate(prevMean, cs[0].mean, prevCenter, center, target)
            else Walk(cs[1..], target, acc + cs[0].weight, center, cs[0].mean)
  {
  }

  lemma InterpolateIs(fromMean: real, toMean: real, fromAt: real, toAt: real, at: real, t: real, y: real)
    requires fromAt < toAt && t == (at - fromAt) / (toAt - fromAt) && y == fromMean + t * (toMean - fromMean)
    ensures y == Interpolate(fromMean, toMean, fromAt, toAt, at)
  {
  }

  lemma AbsorbIs(cur: Centroid, p: Centroid, proposed: real)
    requires cur.weight > 0.0 && p.weight > 0.0 && proposed == cur.weight + p.weight
    ensures Centroid((cur.mean * cur.weight + p.mean * p.weight) / proposed, proposed) == Absorb(cur, p)
  {
  }

  lemma WalkEnds(target: real, acc: real, prevCenter: real, prevMean: real)
    requires prevCenter <= acc
    ensures Walk([], target, acc, prevCenter, prevMean) == prevMean
  {
  }

  lemma CompressedNothing(s: Scale, d: Digest)
    requires Positive(d.centroids)
    ensures d.buffer == [] && |d.centroids| <= 1 ==> Compressed(s, d) == d
  {
  }

  lemma Regroup<T>(a: seq<T>, b: seq<T>, c: seq<T>)
    ensures a + (b + c) == a + b + c
  {
  }
}
