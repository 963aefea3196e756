/**
 The values of quantiles: the mean at each centroid's centre of mass, straight lines between
 neighbouring centres, and the outermost means beyond the outermost centres.
 */
module TDigestQuantiles {
  import opened Prelude
  import opened TDigestSpec

  /** Half of the centroid's weight lies before its centre, and so does everything before it. */
  function Centre(cs: seq<Centroid>, i: nat): real
    requires i < |cs|
  {
    Total(cs[..i]) + cs[i].weight / 2.0
  }

  lemma CentresAscend(cs: seq<Centroid>, i: nat)
    requires i + 1 < |cs| && Positive(cs)
    ensures 0.0 < Centre(cs, i) < Centre(cs, i + 1) < Total(cs)
    ensures Centre(cs, i + 1) == Centre(cs, i) + cs[i].weight / 2.0 + cs[i + 1].weight / 2.0
  {
    hide Total;
    assert cs[..i + 1] == cs[..i] + [cs[i]];
    TotalConcat(cs[..i], [cs[i]]);
    WeighsAlone(cs[i]);
    TotalIsPositive(cs[..i]);
    assert cs == cs[..i + 1] + ([cs[i + 1]] + cs[i + 2..]);
    TotalConcat(cs[..i + 1], [cs[i + 1]] + cs[i + 2..]);
    WeighsFirst(cs[i + 1], cs[i + 2..]);
    TotalIsPositive(cs[i + 2..]);
  }

  /** The walk started behind the first j centroids reaches the segment between i and i + 1. */
  lemma {:induction false} WalkReaches(cs: seq<Centroid>, j: nat, i: nat, target: real)
    requires Positive(cs) && 0 < j <= i + 1 < |cs|
    requires Centre(cs, i) < target <= Centre(cs, i + 1) || (j == i + 1 && Centre(cs, i) <= target <= Centre(cs, i + 1))
    ensures Centre(cs, j - 1) <= Total(cs[..j])
    ensures Walk(cs[j..], target, Total(cs[..j]), Centre(cs, j - 1), cs[j - 1].mean) ==
            Interpolate(cs[i].mean, cs[i + 1].mean, Centre(cs, i), Centre(cs, i + 1), target)
    decreases i - j
  {
    hide Total, Interpolate;
    PrefixTotal(cs, j);
    CentresAscend(cs, j - 1);
    var rest := cs[j..];
    assert rest[0] == cs[j] && rest[1..] == cs[j + 1..];
    assert Total(cs[..j]) + rest[0].weight / 2.0 == Centre(cs, j);
    if j <= i {
      CentresOrder(cs, j, i);
      PrefixTotal(cs, j + 1);
      assert Total(cs[..j]) + rest[0].weight == Total(cs[..j + 1]);
      WalkReaches(cs, j + 1, i, target);
    }
  }

  lemma PrefixTotal(cs: seq<Centroid>, j: nat)
    requires 0 < j <= |cs| && Positive(cs)
    ensures Total(cs[..j]) == Total(cs[..j - 1]) + cs[j - 1].weight && Centre(cs, j - 1) <= Total(cs[..j])
  {
    hide Total;
    assert cs[..j] == cs[..j - 1] + [cs[j - 1]];
    TotalConcat(cs[..j - 1], [cs[j - 1]]);
    WeighsAlone(cs[j - 1]);
  }

  lemma {:induction false} CentresOrder(cs: seq<Centroid>, j: nat, i: nat)
    requires j <= i < |cs| && Positive(cs)
    ensures Centre(cs, j) <= Centre(cs, i)
    decreases i - j
  {
    hide Centre;
    if j < i {
      CentresAscend(cs, j);
      CentresOrder(cs, j + 1, i);
    }
  }

  /**
   Between two neighbouring centres the quantile is the straight line between their means: for
   every share from nought to one of the way.
   */
  lemma QuantileBetween(d: Digest, i: nat, share: real, q: real)
    requires Consistent(d) && d.buffer == [] && i + 1 < |d.centroids| && 0.0 <= share <= 1.0
    requires q * d.count == Centre(d.centroids, i) + share * (Centre(d.centroids, i + 1) - Centre(d.centroids, i))
    ensures var cs, x := d.centroids, Quantile(d, q);
            x.Some? && x.value == cs[i].mean + share * (cs[i + 1].mean - cs[i].mean)
  {
    hide Total, Walk, Interpolate, Centre, Clamp, Quantile;
    var cs, target, count := d.centroids, q * d.count, d.count;
    var mean := cs[i].mean + share * (cs[i + 1].mean - cs[i].mean);
    CentresAscend(cs, i);
    TotalIsPositive(cs);
    CountIsTotal(d);
    ShareIsBetween(Centre(cs, i), Centre(cs, i + 1), share, target);
    TargetIsPlain(q, count, target);
    assert Clamp(q) * d.count == target;
    QuantileIs(d, q, target);
    LineFrom(cs, i, share, target, mean);
  }

  /** The walk from the first centre ends on the line of the segment the target lies in. */
  lemma LineFrom(cs: seq<Centroid>, i: nat, share: real, target: real, mean: real)
    requires Positive(cs) && i + 1 < |cs|
    requires Centre(cs, i) <= target <= Centre(cs, i + 1)
    requires target == Centre(cs, i) + share * (Centre(cs, i + 1) - Centre(cs, i))
    requires target == Centre(cs, i) ==> share == 0.0
    requires mean == cs[i].mean + share * (cs[i + 1].mean - cs[i].mean)
    requires Centre(cs, 0) <= Total(cs[..1])
    ensures (if target <= Centre(cs, 0) then cs[0].mean
             else Walk(cs[1..], target, Total(cs[..1]), Centre(cs, 0), cs[0].mean))
         == mean
  {
    hide Total, Walk, Interpolate, Centre;
    var from, to := Centre(cs, i), Centre(cs, i + 1);
    CentresAscend(cs, i);
    CentresOrder(cs, 0, i);
    if target <= Centre(cs, 0) {
      CentresStrict(cs, i);
    } else if target == from {
      CentresAscend(cs, i - 1);
      InterpolateAtEnd(cs[i - 1].mean, cs[i].mean, Centre(cs, i - 1), from);
      WalkReaches(cs, 1, i - 1, target);
    } else {
      InterpolatesShare(cs[i].mean, cs[i + 1].mean, from, to, share, target);
      WalkReaches(cs, 1, i, target);
    }
  }

  lemma QuantileIs(d: Digest, q: real, target: real)
    requires Positive(d.centroids) && |d.centroids| > 1 && target == Clamp(q) * d.count
    ensures var cs := d.centroids;
            && Centre(cs, 0) <= Total(cs[..1])
            && Quantile(d, q) == Some(if target <= Centre(cs, 0) then cs[0].mean
                                      else Walk(cs[1..], target, Total(cs[..1]), Centre(cs, 0), cs[0].mean))
  {
    hide Total, Walk, Interpolate, Centre, Clamp;
    FirstCentre(d.centroids);
  }

  lemma CountIsTotal(d: Digest)
    requires Consistent(d) && d.buffer == []
    ensures d.count == Total(d.centroids)
  {

  }

  lemma CentresStrict(cs: seq<Centroid>, i: nat)
    requires i < |cs| && Positive(cs) && Centre(cs, i) <= Centre(cs, 0)
    ensures i == 0
  {
    hide Centre;
    if i > 0 {
      CentresAscend(cs, i - 1);
      CentresOrder(cs, 0, i - 1);
    }
  }

  lemma ShareIsBetween(from: real, to: real, share: real, target: real)
    requires from < to && 0.0 <= share <= 1.0 && target == from + share * (to - from)
    ensures from <= target <= to && (target == from ==> share == 0.0)
  {
    MulLe(0.0, share, to - from);
    MulLe(share, 1.0, to - from);
    if share > 0.0 {
      assert share * (to - from) > 0.0;
    }
  }

  lemma TargetIsPlain(q: real, count: real, target: real)
    requires count > 0.0 && target == q * count && 0.0 <= target <= count
    ensures Clamp(q) * count == target
  {
    if q < 0.0 {
      assert q * count < 0.0;
    } else if q > 1.0 {
      MulLe(1.0, q, count);
    }
  }

  lemma InterpolatesShare(a: real, b: real, from: real, to: real, share: real, target: real)
    requires from < to && target == from + share * (to - from)
    ensures Interpolate(a, b, from, to, target) == a + share * (b - a)
  {
    var w := to - from;
    assert share * w / w == share;
  }

  lemma FirstCentre(cs: seq<Centroid>)
    requires cs != []
    ensures Centre(cs, 0) == cs[0].weight / 2.0 && Total(cs[..1]) == cs[0].weight
  {
    assert cs[..0] == [] && cs[..1] == [cs[0]];
    WeighsAlone(cs[0]);
  }

  /**
   A quantile that falls on a centre is that centroid's mean. One that falls half way between two
   neighbouring centres is the average of their means.
   */
  lemma QuantileAtCentres(d: Digest, i: nat, q: real)
    requires Consistent(d) && d.buffer == [] && i + 1 < |d.centroids|
    ensures q * d.count == Centre(d.centroids, i) ==> Quantile(d, q) == Some(d.centroids[i].mean)
    ensures q * d.count == Centre(d.centroids, i + 1) ==> Quantile(d, q) == Some(d.centroids[i + 1].mean)
    ensures q * d.count == (Centre(d.centroids, i) + Centre(d.centroids, i + 1)) / 2.0 ==>
              Quantile(d, q) == Some((d.centroids[i].mean + d.centroids[i + 1].mean) / 2.0)
  {
    hide Quantile, Centre, Total;
    var from, to := Centre(d.centroids, i), Centre(d.centroids, i + 1);
    CentresAscend(d.centroids, i);
    if q * d.count == from {
      QuantileBetween(d, i, 0.0, q);
    } else if q * d.count == to {
      QuantileBetween(d, i, 1.0, q);
    } else if q * d.count == (from + to) / 2.0 {
      QuantileBetween(d, i, 0.5, q);
    }
  }

  /** Before the first centre the quantile is the first mean, behind the last centre the last. */
  lemma QuantileAtEnds(d: Digest, q: real)
    requires Consistent(d) && d.buffer == [] && d.centroids != []
    ensures q * d.count <= Centre(d.centroids, 0) ==> Quantile(d, q) == Some(d.centroids[0].mean)
    ensures q * d.count >= Centre(d.centroids, |d.centroids| - 1) ==>
              Quantile(d, q) == Some(d.centroids[|d.centroids| - 1].mean)
  {
    hide Total, Walk, Interpolate, Centre, Clamp;
    var cs, count, target := d.centroids, d.count, Clamp(q) * d.count;
    hide Quantile;
    TotalIsPositive(cs);
    CountIsTotal(d);
    if |cs| == 1 {
      OnlyMean(d, q);
    } else {
      CentresAscend(cs, |cs| - 2);
      CentresOrder(cs, 0, |cs| - 2);
      CentresAscend(cs, 0);
      ClampKeepsSides(q, count, Centre(cs, 0), q * count, target);
      ClampKeepsSides(q, count, Centre(cs, |cs| - 1), q * count, target);
      QuantileIs(d, q, target);
      if q * count >= Centre(cs, |cs| - 1) {
        WalkEnds(cs, 1, target);
      }
    }
  }

  lemma OnlyMean(d: Digest, q: real)
    requires Positive(d.centroids) && |d.centroids| == 1
    ensures Quantile(d, q) == Some(d.centroids[0].mean)
  {
  }

  /** Clamping the quantile moves no target across a place inside the digest. */
  lemma ClampKeepsSides(q: real, count: real, place: real, raw: real, target: real)
    requires 0.0 < place < count && raw == q * count && target == Clamp(q) * count
    ensures raw <= place <==> target <= place
    ensures raw >= place <==> target >= place
  {
    if q < 0.0 {
      MulLe(q, 0.0, count);
    } else if q > 1.0 {
      MulLe(1.0, q, count);
    }
  }

  lemma {:induction false} WalkEnds(cs: seq<Centroid>, j: nat, target: real)
    requires Positive(cs) && 0 < j <= |cs| && Centre(cs, |cs| - 1) <= target
    ensures Centre(cs, j - 1) <= Total(cs[..j])
    ensures Walk(cs[j..], target, Total(cs[..j]), Centre(cs, j - 1), cs[j - 1].mean) == cs[|cs| - 1].mean
    decreases |cs| - j
  {
    hide Total, Interpolate;
    PrefixTotal(cs, j);
    if j < |cs| {
      var rest := cs[j..];
      assert rest[0] == cs[j] && rest[1..] == cs[j + 1..];
      CentresAscend(cs, j - 1);
      PrefixTotal(cs, j + 1);
      CentresOrder(cs, j, |cs| - 1);
      InterpolateAtEnd(cs[j - 1].mean, cs[j].mean, Centre(cs, j - 1), Centre(cs, j));
      if target <= Centre(cs, j) {
        CentresLast(cs, j);
      } else {
        WalkEnds(cs, j + 1, target);
      }
    }
  }

  lemma InterpolateAtEnd(a: real, b: real, from: real, to: real)
    requires from < to
    ensures Interpolate(a, b, from, to, to) == b
  {
  }

  lemma CentresLast(cs: seq<Centroid>, j: nat)
    requires j < |cs| && Positive(cs) && Centre(cs, |cs| - 1) <= Centre(cs, j)
    ensures j == |cs| - 1
  {
    hide Centre;
    if j < |cs| - 1 {
      CentresAscend(cs, j);
      CentresOrder(cs, j + 1, |cs| - 1);
    }
  }
}
