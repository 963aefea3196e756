/** Binary quantization: one sign bit per dimension, packed into 64-bit words. */
module Quantize {
  import opened Prelude

  const OVERSAMPLE: nat := 4

  datatype QuantizedVector = QuantizedVector(bits: seq<bv64>, correction: real, dims: nat)

  // ---- bits of a word ----

  /** A bit position. */
  function Index(i: nat): bv6
    requires i < 64
  {
    i as bv6
  }

  predicate Bit(w: bv64, k: bv6) {
    (w >> k) & 1 == 1
  }

  /** w |= 1 << k */
  function WithBit(w: bv64, k: bv6): bv64 {
    w | ((1 as bv64) << k)
  }

  function Xor(a: bv64, b: bv64): bv64 {
    a ^ b
  }

  lemma XorAtBit(a: bv64, b: bv64, k: bv6)
    ensures Bit(a ^ b, k) <==> Bit(a, k) != Bit(b, k)
  {
  }

  lemma XorBit(a: bv64, b: bv64, k: bv6)
    ensures Bit(Xor(a, b), k) <==> Bit(a, k) != Bit(b, k)
  {
    hide Bit;
    XorAtBit(a, b, k);
  }

  lemma SetBit(w: bv64, i: bv6, j: bv6)
    ensures Bit(WithBit(w, i), j) <==> i == j || Bit(w, j)
  {
  }

  lemma ZeroBit(k: bv6)
    ensures !Bit(0, k)
  {
  }

  lemma IndexRoundTrip(i: nat)
    requires i < 64
    ensures Index(i) as int == i
  {
  }

  lemma IndexIsInjective(i: nat, j: nat)
    requires i < 64 && j < 64 && Index(i) == Index(j)
    ensures i == j
  {
    hide Index;
    IndexRoundTrip(i);
    IndexRoundTrip(j);
  }

  /** Set bits among the lowest n. */
  function OnesBelow(w: bv64, n: nat): (c: nat)
    requires n <= 64
  {
    if n == 0 then 0 else OnesBelow(w, n - 1) + if Bit(w, Index(n - 1)) then 1 else 0
  }

  function CountOnes(w: bv64): nat {
    OnesBelow(w, 64)
  }

  // ---- quantizing ----

  function WordCount(n: nat): nat {
    (n + 63) / 64
  }

  predicate Positive(v: seq<real>, i: nat) {
    i < |v| && v[i] > 0.0
  }

  /** Word w after the first n dimensions. */
  function WordOf(v: seq<real>, w: nat, n: nat): bv64
    requires n <= |v|
  {
    if n == 0 then 0
    else
      var before := WordOf(v, w, n - 1);
      if (n - 1) / 64 == w && v[n - 1] > 0.0 then WithBit(before, Index((n - 1) % 64)) else before
  }

  function Abs(x: real): real {
    if x < 0.0 then -x else x
  }

  function AbsSum(v: seq<real>): real {
    if v == [] then 0.0 else AbsSum(v[..|v| - 1]) + Abs(v[|v| - 1])
  }

  function Quantized(v: seq<real>): QuantizedVector {
    QuantizedVector(
      seq(WordCount(|v|), w requires 0 <= w < WordCount(|v|) => WordOf(v, w, |v|)),
      AbsSum(v) / (if |v| == 0 then 1 else |v|) as real,
      |v|)
  }

  method QuantizeVector(v: seq<real>) returns (q: QuantizedVector)
    ensures q == Quantized(v)
  {
    hide Index, WithBit, Abs;
    var words := (|v| + 63) / 64;
    var bits := new bv64[words](_ => 0);
    var absSum := 0.0;
    for i := 0 to |v|
      invariant forall w :: 0 <= w < words ==> bits[w] == WordOf(v, w, i)
      invariant absSum == AbsSum(v[..i])
    {
      assert v[..i + 1][..i] == v[..i];
      if v[i] > 0.0 {
        bits[i / 64] := WithBit(bits[i / 64], Index(i % 64));
      }
      absSum := absSum + Abs(v[i]);
    }
    assert v[..|v|] == v;
    var dims := if |v| == 0 then 1 else |v|;
    q := QuantizedVector(bits[..], absSum / dims as real, |v|);
  }

  /** Bit k of word w is set exactly when dimension 64 w + k is positive. */
  lemma {:induction false} SignBit(v: seq<real>, w: nat, n: nat, k: nat)
    requires n <= |v| && k < 64
    ensures Bit(WordOf(v, w, n), Index(k)) <==> 64 * w + k < n && v[64 * w + k] > 0.0
    decreases n
  {
    hide Bit, Index, WithBit;
    if n == 0 {
      ZeroBit(Index(k));
    } else {
      SignBit(v, w, n - 1, k);
      var i := n - 1;
      var slot := i % 64;
      if i / 64 == w {
        assert i == 64 * w + slot;
        SetBit(WordOf(v, w, i), Index(slot), Index(k));
        if Index(slot) == Index(k) {
          IndexIsInjective(slot, k);
        }
      }
    }
  }

  /** The sign the packed bits keep of a dimension. */
  function KeptSign(q: QuantizedVector, i: nat): real
    requires i / 64 < |q.bits|
  {
    if Bit(q.bits[i / 64], Index(i % 64)) then 1.0 else -1.0
  }

  /** The sum of the first n coordinates, each times its kept sign. */
  function SignedSum(v: seq<real>, q: QuantizedVector, n: nat): real
    requires n <= |v| && |q.bits| == WordCount(|v|)
  {
    if n == 0 then 0.0 else SignedSum(v, q, n - 1) + KeptSign(q, n - 1) * v[n - 1]
  }

  lemma {:induction false} AbsSumIsSigned(v: seq<real>, n: nat)
    requires n <= |v|
    ensures AbsSum(v[..n]) == SignedSum(v, Quantized(v), n)
  {
    hide Bit, Index, WordOf;
    if n > 0 {
      AbsSumIsSigned(v, n - 1);
      assert v[..n][..n - 1] == v[..n - 1];
      SignBit(v, (n - 1) / 64, |v|, (n - 1) % 64);
    }
  }

  /** The correction is the vector projected on its own kept signs, zero for the empty vector. */
  lemma CorrectionIsProjection(v: seq<real>)
    ensures var q := Quantized(v);
            if v == [] then q.correction == 0.0 else q.correction * |v| as real == SignedSum(v, q, |v|)
  {
    hide Bit, Index, WordOf, SignedSum, AbsSum;
    AbsSumIsSigned(v, |v|);
    assert v[..|v|] == v;
    if v == [] {
      NoAbs(v);
    }
  }

  lemma NoAbs(v: seq<real>)
    requires v == []
    ensures AbsSum(v) == 0.0
  {
  }

  // ---- Hamming distance ----

  function HammingBelow(a: seq<bv64>, b: seq<bv64>, n: nat): nat
    requires n <= |a| && n <= |b|
  {
    if n == 0 then 0 else HammingBelow(a, b, n - 1) + CountOnes(Xor(a[n - 1], b[n - 1]))
  }

  function Shorter(a: nat, b: nat): nat {
    if a <= b then a else b
  }

  /** XOR and popcount, word by word, over the words both have. */
  function Hamming(a: QuantizedVector, b: QuantizedVector): nat {
    HammingBelow(a.bits, b.bits, Shorter(|a.bits|, |b.bits|))
  }

  /** Dimensions lo..hi whose signs differ. */
  function SignsDiffer(u: seq<real>, v: seq<real>, lo: nat, hi: nat): nat
    requires lo <= hi
    decreases hi
  {
    if lo == hi then 0
    else SignsDiffer(u, v, lo, hi - 1) + if Positive(u, hi - 1) != Positive(v, hi - 1) then 1 else 0
  }

  lemma SignOf(v: seq<real>, w: nat, k: nat, i: nat)
    requires k < 64 && i == 64 * w + k
    ensures Bit(WordOf(v, w, |v|), Index(k)) <==> Positive(v, i)
  {
    hide Bit, WordOf, Index;
    SignBit(v, w, |v|, k);
  }

  /** The n lowest bits of two words differ as often as the signs they stand for. */
  lemma {:induction false} WordDistance(u: seq<real>, v: seq<real>, w: nat, lo: nat, n: nat)
    requires n <= 64 && lo == 64 * w
    ensures OnesBelow(Xor(WordOf(u, w, |u|), WordOf(v, w, |v|)), n) == SignsDiffer(u, v, lo, lo + n)
    decreases n
  {
    hide Bit, WordOf, Positive, Index, Xor;
    if n > 0 {
      WordDistance(u, v, w, lo, n - 1);
      XorBit(WordOf(u, w, |u|), WordOf(v, w, |v|), Index(n - 1));
      SignOf(u, w, n - 1, lo + n - 1);
      SignOf(v, w, n - 1, lo + n - 1);
    }
  }

  lemma {:induction false} SignsDifferSplit(u: seq<real>, v: seq<real>, lo: nat, mid: nat, hi: nat)
    requires lo <= mid <= hi
    ensures SignsDiffer(u, v, lo, hi) == SignsDiffer(u, v, lo, mid) + SignsDiffer(u, v, mid, hi)
    decreases hi
  {
    if mid < hi {
      SignsDifferSplit(u, v, lo, mid, hi - 1);
    }
  }

  lemma {:induction false} NothingBeyond(u: seq<real>, v: seq<real>, lo: nat, hi: nat)
    requires |u| <= lo <= hi && |v| <= lo
    ensures SignsDiffer(u, v, lo, hi) == 0
    decreases hi
  {
    if lo < hi {
      NothingBeyond(u, v, lo, hi - 1);
    }
  }

  lemma {:induction false} WordsDistance(u: seq<real>, v: seq<real>, n: nat)
    requires n <= WordCount(|u|) && n <= WordCount(|v|)
    ensures HammingBelow(Quantized(u).bits, Quantized(v).bits, n) == SignsDiffer(u, v, 0, 64 * n)
    decreases n
  {
    hide WordOf, OnesBelow;
    if n > 0 {
      WordsDistance(u, v, n - 1);
      WordDistance(u, v, n - 1, 64 * (n - 1), 64);
      SignsDifferSplit(u, v, 0, 64 * (n - 1), 64 * n);
    }
  }

  /** Words the two packed forms share. */
  function Shared(m: nat, n: nat): nat {
    Shorter(WordCount(m), WordCount(n))
  }

  /** Whatever the lengths, the packed distance counts the differing signs within the words
      both vectors have. */
  lemma HammingCountsShared(u: seq<real>, v: seq<real>)
    ensures Hamming(Quantized(u), Quantized(v)) == SignsDiffer(u, v, 0, 64 * Shared(|u|, |v|))
  {
    hide WordOf, HammingBelow, SignsDiffer;
    WordsDistance(u, v, Shared(|u|, |v|));
  }

  /** For equal-length vectors of any size, the packed distance is the number of dimensions
      whose signs differ. */
  lemma HammingCountsSigns(u: seq<real>, v: seq<real>)
    requires |u| == |v|
    ensures Hamming(Quantized(u), Quantized(v)) == SignsDiffer(u, v, 0, |u|)
  {
    hide Hamming, Quantized, SignsDiffer;
    HammingCountsShared(u, v);
    var n := WordCount(|u|);
    SignsDifferSplit(u, v, 0, |u|, 64 * n);
    NothingBeyond(u, v, |u|, 64 * n);
  }

  // ---- a pseudometric ----

  lemma {:induction false} SignsMetric(u: seq<real>, v: seq<real>, x: seq<real>, n: nat)
    ensures SignsDiffer(u, u, 0, n) == 0
    ensures SignsDiffer(u, v, 0, n) == SignsDiffer(v, u, 0, n)
    ensures SignsDiffer(u, x, 0, n) <= SignsDiffer(u, v, 0, n) + SignsDiffer(v, x, 0, n)
    ensures SignsDiffer(u, v, 0, n) == 0 <==> forall i :: 0 <= i < n ==> Positive(u, i) == Positive(v, i)
    decreases n
  {
    hide Positive;
    if n > 0 {
      SignsMetric(u, v, x, n - 1);
    }
  }

  ghost predicate Triangle(u: seq<real>, v: seq<real>, x: seq<real>) {
    Hamming(Quantized(u), Quantized(x)) <= Hamming(Quantized(u), Quantized(v)) + Hamming(Quantized(v), Quantized(x))
  }

  lemma LongMiddleKeepsTriangle(u: seq<real>, v: seq<real>, x: seq<real>)
    requires WordCount(|v|) >= Shared(|u|, |x|)
    ensures Triangle(u, v, x)
  {
    hide Hamming, Quantized, SignsDiffer, WordCount;
    HammingCountsShared(u, x);
    HammingCountsShared(u, v);
    HammingCountsShared(v, x);
    var n := 64 * Shared(|u|, |x|);
    SignsMetric(u, v, x, n);
    SignsDifferSplit(u, v, 0, n, 64 * Shared(|u|, |v|));
    SignsDifferSplit(v, x, 0, n, 64 * Shared(|v|, |x|));
  }

  function Zeros(n: nat): (v: seq<real>)
    ensures |v| == n && forall i :: 0 <= i < n ==> v[i] == 0.0
  {
    seq(n, i => 0.0)
  }

  lemma {:induction false} NothingDiffers(u: seq<real>, v: seq<real>, lo: nat, hi: nat)
    requires lo <= hi && forall i :: lo <= i < hi ==> Positive(u, i) == Positive(v, i)
    ensures SignsDiffer(u, v, lo, hi) == 0
    decreases hi
  {
    hide Positive;
    if lo < hi {
      NothingDiffers(u, v, lo, hi - 1);
    }
  }

  /** A middle vector with fewer words than both ends does not see a sign beyond its words. */
  lemma ShortMiddleBreaksTriangle(m: nat, k: nat, n: nat)
    requires WordCount(k) < Shared(m, n)
    ensures 64 * WordCount(k) < m && !Triangle(Zeros(m)[64 * WordCount(k) := 1.0], Zeros(k), Zeros(n))
  {
    hide Hamming, Quantized, SignsDiffer, Zeros;
    var at := 64 * WordCount(k);
    var u, v, x := Zeros(m)[at := 1.0], Zeros(k), Zeros(n);
    HammingCountsShared(u, x);
    HammingCountsShared(u, v);
    HammingCountsShared(v, x);
    NothingDiffers(u, v, 0, at);
    NothingDiffers(v, x, 0, at);
    var top := 64 * Shared(m, n);
    SignsDifferSplit(u, x, 0, at, top);
    SignsDifferSplit(u, x, at, at + 1, top);
    OneDiffers(u, x, at);
  }

  lemma OneDiffers(u: seq<real>, v: seq<real>, i: nat)
    requires Positive(u, i) != Positive(v, i)
    ensures SignsDiffer(u, v, i, i + 1) == 1
  {
    assert SignsDiffer(u, v, i, i) == 0;
  }

  /** Which lengths have a triangle inequality: exactly those whose middle vector has at least
      the words both ends share. */
  lemma TriangleIsExact(m: nat, k: nat, n: nat)
    ensures (forall u: seq<real>, v: seq<real>, x: seq<real> :: |u| == m && |v| == k && |x| == n ==> Triangle(u, v, x))
            <==> WordCount(k) >= Shared(m, n)
  {
    hide Triangle, WordCount, Zeros;
    if WordCount(k) >= Shared(m, n) {
      forall u: seq<real>, v: seq<real>, x: seq<real> | |u| == m && |v| == k && |x| == n
        ensures Triangle(u, v, x)
      {
        LongMiddleKeepsTriangle(u, v, x);
      }
    } else {
      ShortMiddleBreaksTriangle(m, k, n);
    }
  }

  /** Zero exactly on equal sign patterns, symmetric, and subject to the triangle inequality. */
  lemma HammingIsPseudometric(u: seq<real>, v: seq<real>, x: seq<real>)
    requires |u| == |v| == |x|
    ensures Hamming(Quantized(u), Quantized(v)) == 0 <==> forall i :: 0 <= i < |u| ==> (u[i] > 0.0) == (v[i] > 0.0)
    ensures Hamming(Quantized(u), Quantized(v)) == Hamming(Quantized(v), Quantized(u))
    ensures Hamming(Quantized(u), Quantized(x)) <= Hamming(Quantized(u), Quantized(v)) + Hamming(Quantized(v), Quantized(x))
  {
    hide Hamming, Quantized, SignsDiffer;
    HammingCountsSigns(u, v);
    HammingCountsSigns(v, u);
    SignsMetric(u, v, x, |u|);
    LongMiddleKeepsTriangle(u, v, x);
    assert forall i :: 0 <= i < |u| ==> Positive(u, i) == (u[i] > 0.0) && Positive(v, i) == (v[i] > 0.0);
  }
}
