/**
 * PerformanceMetrics: a histogram of sample sizes by powers of two, and percentiles read off
 * it.  Recording is sequential; numbers are 64 bits wide.
 */
module Metrics {
  import opened Bytes

  const BUCKETS := 64

  function Pow2(n: nat): (r: nat)
    ensures r >= 1
  {
    if n == 0 then 1 else 2 * Pow2(n - 1)
  }

  lemma {:induction false} Pow2Monotone(m: nat, n: nat)
    requires m <= n
    ensures Pow2(m) <= Pow2(n)
  {
    if m < n {
      Pow2Monotone(m, n - 1);
    }
  }

  // ---------------------------------------------------------------- buckets

  /** Halving, rounded up, until one is left; adding one wraps around at 64 bits. */
  function BucketFrom(elapsed: nat, bucket: nat): (r: nat)
    requires bucket < BUCKETS
    ensures bucket <= r < BUCKETS
    decreases BUCKETS - bucket
  {
    if elapsed > 1 && bucket + 1 < BUCKETS then BucketFrom((elapsed + 1) % TWO_TO_THE_64 / 2, bucket + 1) else bucket
  }

  function BucketOf(elapsed: nat): (r: nat)
    ensures r < BUCKETS
  {
    BucketFrom(elapsed, 0)
  }

  method HistogramBucket(elapsed: nat) returns (bucket: nat)
    requires elapsed < TWO_TO_THE_64
    ensures bucket == BucketOf(elapsed)
  {
    bucket := 0;
    var e: nat := elapsed;
    while e > 1 && bucket + 1 < BUCKETS
      invariant bucket < BUCKETS && BucketFrom(e, bucket) == BucketOf(elapsed)
      decreases BUCKETS - bucket
    {
      e := (e + 1) % TWO_TO_THE_64 / 2;
      bucket := bucket + 1;
    }
  }

  /** The bucket holds the numbers above the previous power of two, up to its own. */
  ghost predicate InBucket(v: nat, b: nat) {
    && (b > 0 ==> v > Pow2(b - 1))
    && (b < BUCKETS - 1 ==> v <= Pow2(b))
  }

  /** `e` is the quotient of `v` by `p`, rounded up. */
  ghost predicate RoundsUp(v: nat, e: nat, p: nat) {
    (e - 1) * p < v <= e * p
  }

  /** Halving rounded up keeps the quotient by the power of two rounded up. */
  lemma HalvingStep(v: nat, e: nat, p: nat)
    requires e > 1 && RoundsUp(v, e, p)
    ensures RoundsUp(v, (e + 1) / 2, 2 * p) && v > p
  {
    var h := (e + 1) / 2;
    assert h * (2 * p) == (2 * h) * p;
    assert (h - 1) * (2 * p) == (2 * h - 2) * p;
    assert e <= 2 * h <= e + 1;
    MulMonotone(e, 2 * h, p);
    MulMonotone(2 * h - 2, e - 1, p);
    MulMonotone(1, e - 1, p);
  }

  lemma MulMonotone(a: int, b: int, p: nat)
    requires a <= b
    ensures a * p <= b * p
  {
    assert (b - a) * p >= 0;
    assert b * p == a * p + (b - a) * p;
  }

  lemma BucketFromStep(e: nat, b: nat)
    requires 0 < e < TWO_TO_THE_64 - 1 && b < BUCKETS
    ensures BucketFrom(e, b) == if e > 1 && b + 1 < BUCKETS then BucketFrom((e + 1) / 2, b + 1) else b
  {
    assert (e + 1) % TWO_TO_THE_64 == e + 1;
  }

  lemma LastBucket(v: nat, e: nat, b: nat)
    requires b < BUCKETS && (e == 1 || b == BUCKETS - 1) && RoundsUp(v, e, Pow2(b))
    requires b > 0 ==> v > Pow2(b - 1)
    ensures InBucket(v, b)
  {
  }

  lemma {:induction false} BucketFromBrackets(v: nat, e: nat, b: nat)
    requires b < BUCKETS && 0 < e < TWO_TO_THE_64 - 1
    requires RoundsUp(v, e, Pow2(b))
    requires b > 0 ==> v > Pow2(b - 1)
    ensures InBucket(v, BucketFrom(e, b))
    decreases BUCKETS - b
  {
    hide RoundsUp, InBucket, BucketFrom;
    BucketFromStep(e, b);
    if e > 1 && b + 1 < BUCKETS {
      HalvingStep(v, e, Pow2(b));
      BucketFromBrackets(v, (e + 1) / 2, b + 1);
    } else {
      LastBucket(v, e, b);
    }
  }

  /** Every sample but the largest 64-bit number is put into its own bucket. */
  lemma BucketBrackets(v: nat)
    requires v < TWO_TO_THE_64 - 1
    ensures InBucket(v, BucketOf(v))
  {
    if v > 0 {
      assert Pow2(0) == 1 && RoundsUp(v, v, 1);
      BucketFromBrackets(v, v, 0);
    }
  }

  /** The largest one wraps to zero and is counted as two. */
  lemma LargestIsMisplaced()
    ensures BucketOf(TWO_TO_THE_64 - 1) == 1 && !InBucket(TWO_TO_THE_64 - 1, 1)
  {
    assert Pow2(1) == 2 * Pow2(0);
    assert BucketFrom(0, 1) == 1;
  }

  /** Below the last bucket, a sample is in a bucket up to `b` exactly if it is at most 2^b. */
  lemma BucketAtMost(v: nat, b: nat)
    requires v < TWO_TO_THE_64 - 1 && b < BUCKETS - 1
    ensures BucketOf(v) <= b <==> v <= Pow2(b)
  {
    BucketBrackets(v);
    var k := BucketOf(v);
    if k <= b {
      Pow2Monotone(k, b);
    } else {
      Pow2Monotone(b, k - 1);
    }
  }

  // ---------------------------------------------------------------- counting samples

  ghost function CountIn(samples: seq<nat>, bucket: nat): nat {
    if samples == [] then 0
    else CountIn(samples[..|samples| - 1], bucket) + if BucketOf(samples[|samples| - 1]) == bucket then 1 else 0
  }

  /** The samples in the buckets up to `b`. */
  ghost function CountUpTo(samples: seq<nat>, b: int): nat {
    if b < 0 then 0 else CountUpTo(samples, b - 1) + CountIn(samples, b)
  }

  ghost function CountAtMost(samples: seq<nat>, x: int): nat {
    if samples == [] then 0
    else CountAtMost(samples[..|samples| - 1], x) + if samples[|samples| - 1] <= x then 1 else 0
  }

  lemma {:induction false} CountUpToAppend(samples: seq<nat>, v: nat, b: int)
    ensures CountUpTo(samples + [v], b) == CountUpTo(samples, b) + if BucketOf(v) <= b then 1 else 0
  {
    if b >= 0 {
      CountUpToAppend(samples, v, b - 1);
      assert (samples + [v])[..|samples|] == samples;
    }
  }

  lemma {:induction false} CountUpToNone(b: int)
    ensures CountUpTo([], b) == 0
  {
    if b >= 0 {
      CountUpToNone(b - 1);
    }
  }

  /** The histogram up to a bucket counts the samples up to that power of two. */
  lemma {:induction false} CountUpToIsCountAtMost(samples: seq<nat>, b: nat)
    requires b < BUCKETS - 1 && forall i :: 0 <= i < |samples| ==> samples[i] < TWO_TO_THE_64 - 1
    ensures CountUpTo(samples, b) == CountAtMost(samples, Pow2(b))
  {
    if samples == [] {
      CountUpToNone(b);
    } else {
      var init, last := samples[..|samples| - 1], samples[|samples| - 1];
      assert samples == init + [last];
      CountUpToIsCountAtMost(init, b);
      CountUpToAppend(init, last, b);
      BucketAtMost(last, b);
    }
  }

  /** All buckets together count every sample. */
  lemma {:induction false} CountUpToAll(samples: seq<nat>)
    ensures CountUpTo(samples, BUCKETS - 1) == |samples|
  {
    if samples == [] {
      CountUpToNone(BUCKETS - 1);
    } else {
      var init, last := samples[..|samples| - 1], samples[|samples| - 1];
      assert samples == init + [last];
      CountUpToAll(init);
      CountUpToAppend(init, last, BUCKETS - 1);
    }
  }

  lemma {:induction false} CountUpToMonotone(samples: seq<nat>, a: int, b: int)
    requires a <= b
    ensures CountUpTo(samples, a) <= CountUpTo(samples, b)
    decreases b - a
  {
    if a < b && b >= 0 {
      CountUpToMonotone(samples, a, b - 1);
    }
  }

  lemma {:induction false} CountAtMostMonotone(samples: seq<nat>, x: int, y: int)
    requires x <= y
    ensures CountAtMost(samples, x) <= CountAtMost(samples, y)
  {
    if samples != [] {
      CountAtMostMonotone(samples[..|samples| - 1], x, y);
    }
  }

  // ---------------------------------------------------------------- percentiles

  /** `v` is the sample of rank `r` when the samples are put in order. */
  ghost predicate HasRank(samples: seq<nat>, v: nat, r: nat) {
    CountAtMost(samples, v - 1) < r <= CountAtMost(samples, v)
  }

  lemma {:induction false} NoneBelowZero(samples: seq<nat>)
    ensures CountAtMost(samples, -1) == 0
  {
    if samples != [] {
      NoneBelowZero(samples[..|samples| - 1]);
    }
  }

  lemma {:induction false} AllAtMost(samples: seq<nat>, x: nat)
    requires forall i :: 0 <= i < |samples| ==> samples[i] <= x
    ensures CountAtMost(samples, x) == |samples|
  {
    if samples != [] {
      AllAtMost(samples[..|samples| - 1], x);
    }
  }

  lemma {:induction false} CountGrowsAtSamples(samples: seq<nat>, v: nat)
    requires v !in samples
    ensures CountAtMost(samples, v - 1) == CountAtMost(samples, v)
  {
    if samples != [] {
      CountGrowsAtSamples(samples[..|samples| - 1], v);
    }
  }

  /** Every rank up to the number of samples belongs to a sample. */
  lemma {:induction false} RankedSample(samples: seq<nat>, r: nat, x: nat) returns (v: nat)
    requires 1 <= r <= CountAtMost(samples, x)
    ensures v in samples && HasRank(samples, v, r)
    decreases x
  {
    if CountAtMost(samples, x - 1) < r {
      v := x;
      if v !in samples {
        CountGrowsAtSamples(samples, v);
      }
    } else {
      NoneBelowZero(samples);
      v := RankedSample(samples, r, x - 1);
    }
  }

  lemma RankExists(samples: seq<nat>, r: nat) returns (v: nat)
    requires 1 <= r <= |samples| && forall i :: 0 <= i < |samples| ==> samples[i] < TWO_TO_THE_64
    ensures v in samples && HasRank(samples, v, r)
  {
    AllAtMost(samples, TWO_TO_THE_64);
    v := RankedSample(samples, r, TWO_TO_THE_64);
  }

  /** The first bucket at which `target` samples have been counted. */
  ghost predicate FirstAt(samples: seq<nat>, target: nat, b: nat) {
    && b < BUCKETS
    && CountUpTo(samples, b) >= target
    && CountUpTo(samples, b - 1) < target
  }

  function Reported(b: nat): nat {
    if b == BUCKETS - 1 then TWO_TO_THE_64 - 1 else Pow2(b)
  }

  /**
   * The percentile bracket: below the last bucket, the reported number is at least the sample of
   * that rank, and less than twice it unless it is one.
   */
  lemma PercentileBracket(samples: seq<nat>, target: nat, b: nat, v: nat)
    requires forall i :: 0 <= i < |samples| ==> samples[i] < TWO_TO_THE_64 - 1
    requires FirstAt(samples, target, b) && b < BUCKETS - 1 && HasRank(samples, v, target)
    ensures v <= Reported(b) && (Reported(b) == 1 || Reported(b) < 2 * v)
  {
    CountUpToIsCountAtMost(samples, b);
    if v > Pow2(b) {
      CountAtMostMonotone(samples, Pow2(b), v - 1);
    }
    if b > 0 {
      CountUpToIsCountAtMost(samples, b - 1);
      if v <= Pow2(b - 1) {
        CountAtMostMonotone(samples, v, Pow2(b - 1));
      }
    }
  }

  /** A higher target is reached no earlier, so percentiles are ordered. */
  lemma PercentilesOrdered(samples: seq<nat>, target1: nat, b1: nat, target2: nat, b2: nat)
    requires FirstAt(samples, target1, b1) && FirstAt(samples, target2, b2) && target1 <= target2
    ensures Reported(b1) <= Reported(b2)
  {
    if b2 < b1 {
      CountUpToMonotone(samples, b2, b1 - 1);
    } else {
      Pow2Monotone(b1, b2);
      Pow2Monotone(b2, 63);
      Pow2Of63();
    }
  }

  lemma Pow2Plus3(n: nat)
    ensures Pow2(n + 3) == 8 * Pow2(n)
  {
    assert Pow2(n + 2) == 2 * Pow2(n + 1);
    assert Pow2(n + 1) == 2 * Pow2(n);
  }

  lemma Pow2Plus9(n: nat)
    ensures Pow2(n + 9) == 512 * Pow2(n)
  {
    Pow2Plus3(n);
    Pow2Plus3(n + 3);
    Pow2Plus3(n + 6);
  }

  lemma Pow2Of63()
    ensures Pow2(63) == 0x8000_0000_0000_0000
  {
    Pow2Plus9(0);
    Pow2Plus9(9);
    Pow2Plus9(18);
    Pow2Plus9(27);
    Pow2Plus9(36);
    Pow2Plus9(45);
    Pow2Plus9(54);
  }

  datatype Snapshot = Snapshot(count: nat, total: nat, minimum: nat, maximum: nat, p50: nat, p95: nat, p99: nat)

  ghost function Sum(samples: seq<nat>): nat {
    if samples == [] then 0 else Sum(samples[..|samples| - 1]) + samples[|samples| - 1]
  }

  /** The least and the greatest sample; without samples, values that any sample replaces. */
  ghost predicate Extremes(samples: seq<nat>, minimum: nat, maximum: nat) {
    && (forall i :: 0 <= i < |samples| ==> minimum <= samples[i] <= maximum)
    && if samples == [] then minimum == TWO_TO_THE_64 - 1 && maximum == 0
       else minimum in samples && maximum in samples
  }

  lemma ExtremesAppend(samples: seq<nat>, v: nat, minimum: nat, maximum: nat)
    requires Extremes(samples, minimum, maximum) && v < TWO_TO_THE_64
    ensures Extremes(samples + [v], if v < minimum then v else minimum, if v > maximum then v else maximum)
  {
    var longer := samples + [v];
    assert forall i :: 0 <= i < |samples| ==> longer[i] == samples[i];
    assert longer[|samples|] == v;
  }

  lemma EmptyExtremes(minimum: nat, maximum: nat)
    ensures Extremes([], minimum, maximum) ==> maximum == 0
  {
  }

  lemma CountInAppend(samples: seq<nat>, v: nat)
    ensures forall b: nat :: CountIn(samples + [v], b) == CountIn(samples, b) + if BucketOf(v) == b then 1 else 0
    ensures BucketOf(v) < BUCKETS
  {
    hide BucketFrom;
    assert (samples + [v])[..|samples|] == samples;
  }

  lemma SumAppend(samples: seq<nat>, v: nat)
    ensures Sum(samples + [v]) % TWO_TO_THE_64 == (Sum(samples) % TWO_TO_THE_64 + v) % TWO_TO_THE_64
  {
    assert (samples + [v])[..|samples|] == samples;
  }

  /** The rank that a percentile asks for. */
  function Rank(count: nat, numerator: nat): nat {
    (count * numerator + 99) / 100
  }

  class Metric {
    var count: nat
    var total: nat
    var minimum: nat
    var maximum: nat
    const histogram: array<nat>

    ghost var samples: seq<nat>

    ghost predicate Valid()
      reads this, histogram
    {
      && histogram.Length == BUCKETS
      && count == |samples| && total == Sum(samples) % TWO_TO_THE_64
      && Extremes(samples, minimum, maximum)
      && forall b :: 0 <= b < BUCKETS ==> histogram[b] == CountIn(samples, b)
    }

    constructor ()
      ensures Valid() && samples == [] && fresh(histogram)
    {
      count, total, minimum, maximum, samples := 0, 0, TWO_TO_THE_64 - 1, 0, [];
      histogram := new nat[BUCKETS](_ => 0);
    }

    /** Counts a sample in its bucket. */
    method Record(elapsed: nat)
      requires Valid() && elapsed < TWO_TO_THE_64 && count + 1 < TWO_TO_THE_64
      modifies this, histogram
      ensures Valid() && samples == old(samples) + [elapsed]
    {
      hide Sum, Extremes, CountIn, BucketOf;
      CountInAppend(samples, elapsed);
      SumAppend(samples, elapsed);
      ExtremesAppend(samples, elapsed, minimum, maximum);
      count := count + 1;
      total := (total + elapsed) % TWO_TO_THE_64;
      var bucket := HistogramBucket(elapsed);
      histogram[bucket] := histogram[bucket] + 1;
      if elapsed < minimum {
        minimum := elapsed;
      }
      if elapsed > maximum {
        maximum := elapsed;
      }
      samples := samples + [elapsed];
    }

    /** The number reported for a percentile is that of the first bucket that reaches its rank. */
    method Percentile(numerator: nat) returns (p: nat, ghost bucket: nat)
      requires Valid() && 0 < numerator <= 100 && count * numerator + 99 < TWO_TO_THE_64
      ensures count == 0 ==> p == 0
      ensures count > 0 ==> FirstAt(samples, Rank(count, numerator), bucket) && p == Reported(bucket)
    {
      hide CountIn, CountUpTo, Sum, Extremes;
      bucket := 0;
      if count == 0 {
        return 0, 0;
      }
      var target := (count * numerator + 99) / 100;
      RankInRange(count, numerator);
      var cumulative := 0;
      var b := 0;
      CountNothing(samples);
      while b < BUCKETS
        invariant 0 <= b <= BUCKETS && cumulative == CountUpTo(samples, b - 1) < target
      {
        CountOne(samples, b);
        cumulative := cumulative + histogram[b];
        if cumulative >= target {
          bucket := b;
          if b == BUCKETS - 1 {
            return TWO_TO_THE_64 - 1, b;
          }
          return Pow2(b), b;
        }
        b := b + 1;
      }
      CountUpToAll(samples);
      assert false;
    }
  }

  lemma CountNothing(samples: seq<nat>)
    ensures CountUpTo(samples, -1) == 0
  {
  }

  lemma CountOne(samples: seq<nat>, b: nat)
    ensures CountUpTo(samples, b) == CountUpTo(samples, b - 1) + CountIn(samples, b)
  {
  }

  lemma RankInRange(count: nat, numerator: nat)
    requires 0 < count && 0 < numerator <= 100
    ensures 1 <= Rank(count, numerator) <= count
  {
    assert 1 <= count * numerator <= count * 100;
  }

  /** The reported number brackets the sample of the asked rank. */
  ghost predicate Brackets(samples: seq<nat>, numerator: nat, p: nat) {
    forall v: nat :: HasRank(samples, v, Rank(|samples|, numerator)) ==> v <= p && (p == 1 || p < 2 * v)
  }

  /** Enough samples are at most `p`, and too few are at most half of it. */
  ghost predicate Quantile(samples: seq<nat>, numerator: nat, p: nat) {
    && 100 * CountAtMost(samples, p) >= numerator * |samples|
    && (p > 1 ==> 100 * CountAtMost(samples, p / 2) < numerator * |samples|)
  }

  /** The rank is the least one that is at least that part of the count. */
  lemma RankIs(count: nat, numerator: nat)
    ensures 100 * Rank(count, numerator) >= count * numerator > 100 * (Rank(count, numerator) - 1)
  {
  }

  lemma ReportedIsQuantile(samples: seq<nat>, numerator: nat, b: nat)
    requires forall i :: 0 <= i < |samples| ==> samples[i] < TWO_TO_THE_64 - 1
    requires FirstAt(samples, Rank(|samples|, numerator), b) && Reported(b) != TWO_TO_THE_64 - 1
    ensures Quantile(samples, numerator, Reported(b))
  {
    hide Rank;
    RankIs(|samples|, numerator);
    CountUpToIsCountAtMost(samples, b);
    if b > 0 {
      CountUpToIsCountAtMost(samples, b - 1);
      assert Pow2(b) / 2 == Pow2(b - 1);
    }
    assert |samples| * numerator == numerator * |samples|;
  }

  /** Counting samples is counting their numbers. */
  lemma {:induction false} CountIsCount(samples: seq<nat>, x: int)
    ensures CountAtMost(samples, x) == |set i | 0 <= i < |samples| && samples[i] <= x|
  {
    if samples != [] {
      var n := |samples| - 1;
      CountIsCount(samples[..n], x);
      var before := set i | 0 <= i < n && samples[..n][i] <= x;
      var all := set i | 0 <= i < |samples| && samples[i] <= x;
      assert all == if samples[n] <= x then before + {n} else before;
    }
  }

  lemma {:induction false} SumPlus(a: seq<nat>, b: seq<nat>)
    ensures Sum(a + b) == Sum(a) + Sum(b)
    ensures |b| == 1 ==> Sum(b) == b[0]
  {
    if b == [] {
      assert a + b == a;
    } else {
      var all := a + b;
      SumPlus(a, b[..|b| - 1]);
      assert all[..|all| - 1] == a + b[..|b| - 1];
    }
  }

  lemma ReportedBrackets(samples: seq<nat>, numerator: nat, b: nat)
    requires forall i :: 0 <= i < |samples| ==> samples[i] < TWO_TO_THE_64 - 1
    requires FirstAt(samples, Rank(|samples|, numerator), b) && Reported(b) != TWO_TO_THE_64 - 1
    ensures Brackets(samples, numerator, Reported(b))
  {
    forall v: nat | HasRank(samples, v, Rank(|samples|, numerator))
      ensures v <= Reported(b) && (Reported(b) == 1 || Reported(b) < 2 * v)
    {
      PercentileBracket(samples, Rank(|samples|, numerator), b, v);
    }
  }

  lemma RankMonotone(count: nat, n1: nat, n2: nat)
    requires n1 <= n2
    ensures Rank(count, n1) <= Rank(count, n2)
  {
    assert count * n1 <= count * n2;
  }

  /**
   * Every sequence of samples below the largest 64-bit number: the percentiles are in order, and
   * each that is not in the last bucket brackets the sample of its rank.
   */
  method Observe(samples: seq<nat>) returns (s: Snapshot)
    requires |samples| * 100 + 99 < TWO_TO_THE_64
    requires forall i :: 0 <= i < |samples| ==> samples[i] < TWO_TO_THE_64 - 1
    ensures s.count == |samples| && s.p50 <= s.p95 <= s.p99 && s.total == Sum(samples) % TWO_TO_THE_64
    ensures if samples == [] then s.minimum == s.maximum == 0 else Extremes(samples, s.minimum, s.maximum)
    ensures samples != [] && s.p50 != TWO_TO_THE_64 - 1 ==>
              Brackets(samples, 50, s.p50) && Quantile(samples, 50, s.p50)
    ensures samples != [] && s.p95 != TWO_TO_THE_64 - 1 ==>
              Brackets(samples, 95, s.p95) && Quantile(samples, 95, s.p95)
    ensures samples != [] && s.p99 != TWO_TO_THE_64 - 1 ==>
              Brackets(samples, 99, s.p99) && Quantile(samples, 99, s.p99)
  {
    hide CountIn, Reported, FirstAt, Brackets, Quantile, Rank, Sum, Extremes;
    var metric := new Metric();
    var i := 0;
    while i < |samples|
      invariant 0 <= i <= |samples| && fresh(metric) && fresh(metric.histogram)
      invariant metric.Valid() && metric.samples == samples[..i]
    {
      assert samples[..i] + [samples[i]] == samples[..i + 1];
      metric.Record(samples[i]);
      i := i + 1;
    }
    assert samples[..i] == samples;
    var n := metric.count;
    var p50, b50 := metric.Percentile(50);
    var p95, b95 := metric.Percentile(95);
    var p99, b99 := metric.Percentile(99);
    if n > 0 {
      RankMonotone(n, 50, 95);
      RankMonotone(n, 95, 99);
      PercentilesOrdered(samples, Rank(n, 50), b50, Rank(n, 95), b95);
      PercentilesOrdered(samples, Rank(n, 95), b95, Rank(n, 99), b99);
      if p50 != TWO_TO_THE_64 - 1 {
        ReportedBrackets(samples, 50, b50);
        ReportedIsQuantile(samples, 50, b50);
      }
      if p95 != TWO_TO_THE_64 - 1 {
        ReportedBrackets(samples, 95, b95);
        ReportedIsQuantile(samples, 95, b95);
      }
      if p99 != TWO_TO_THE_64 - 1 {
        ReportedBrackets(samples, 99, b99);
        ReportedIsQuantile(samples, 99, b99);
      }
    }
    EmptyExtremes(metric.minimum, metric.maximum);
    s := Snapshot(n, metric.total, if n == 0 then 0 else metric.minimum, metric.maximum, p50, p95, p99);
  }
}
