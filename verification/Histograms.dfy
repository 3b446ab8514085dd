/** The loops of EquiDepthHistogram and buildEquiDepthHistogram of src/catalog/statistics.ts. */
module Histograms {
  import opened Wrappers
  import opened Sequences
  import opened HistogramSpec

  lemma {:induction false} FirstNotBelowIs(boundaries: seq<real>, value: real, b: nat)
    requires b <= |boundaries| && (forall k :: 0 <= k < b ==> boundaries[k] < value)
    requires b < |boundaries| ==> boundaries[b] >= value
    ensures b == FirstNotBelow(boundaries, value)
  {
    var first := FirstNotBelow(boundaries, value);
    assert first < |boundaries| ==> boundaries[first] >= value;
  }

  /** bucketOf: the binary search over the boundaries. */
  method BucketOf(boundaries: seq<real>, value: real) returns (bucket: nat)
    requires Ascending(boundaries)
    ensures bucket == FirstNotBelow(boundaries, value)
  {
    var lo, hi: int := 0, |boundaries| - 1;
    while lo <= hi
      invariant 0 <= lo <= hi + 1 <= |boundaries|
      invariant forall k :: 0 <= k < lo ==> boundaries[k] < value
      invariant forall k :: hi < k < |boundaries| ==> boundaries[k] >= value
      decreases hi - lo
    {
      var mid := (lo + hi) / 2;
      if boundaries[mid] < value { lo := mid + 1; } else { hi := mid - 1; }
    }
    bucket := lo;
    FirstNotBelowIs(boundaries, value, bucket);
  }

  /** prefixSums. */
  method PrefixSums(counts: seq<nat>) returns (sums: seq<nat>)
    ensures |sums| == |counts| && forall k :: 0 <= k < |counts| ==> sums[k] == SumTo(counts, k)
  {
    sums := [];
    var running := 0;
    for i := 0 to |counts|
      invariant |sums| == i && running == SumTo(counts, i)
      invariant forall k :: 0 <= k < i ==> sums[k] == SumTo(counts, k)
    {
      sums := sums + [running];
      running := running + counts[i];
    }
  }

  /** estimateLessThan; a missing target is one that has no numeric value. */
  method EstimateLessThan(h: Histogram, target: Option<real>) returns (fraction: real)
    requires Counted(h) && Ascending(h.boundaries)
    ensures 0.0 <= fraction <= 1.0
    ensures fraction == if h.boundaries == [] || target.None? then UNKNOWN_FRACTION else LessThan(h, target.value)
  {
    if h.boundaries == [] || target.None? { return UNKNOWN_FRACTION; }
    if target.value <= h.lowerBound { return 0.0; }
    var bucket := BucketOf(h.boundaries, target.value);
    fraction := EstimateFrom(h, target.value, bucket);
  }

  /** The values at positions lo to hi. */
  ghost function Values(sorted: seq<real>, lo: nat, hi: nat): set<real> {
    set p {:trigger sorted[p]} | lo <= p < hi && p < |sorted| :: sorted[p]
  }

  /** The next position of an ascending sample shows a new value exactly when it differs from the one before it. */
  lemma {:induction false} ValuesGrow(sorted: seq<real>, lo: nat, hi: nat)
    requires Ascending(sorted) && lo <= hi < |sorted|
    ensures |Values(sorted, lo, hi + 1)| == |Values(sorted, lo, hi)| + if lo == hi
            || sorted[hi] != sorted[hi - 1] then 1 else 0
  {
    assert Values(sorted, lo, hi + 1) == Values(sorted, lo, hi) + {sorted[hi]};
    if lo == hi || sorted[hi] != sorted[hi - 1] {
      assert forall p :: lo <= p < hi ==> sorted[p] <= sorted[hi - 1] <= sorted[hi];
      assert sorted[hi] !in Values(sorted, lo, hi);
    } else {
      assert sorted[hi - 1] in Values(sorted, lo, hi);
    }
  }

  /** The distinct values among the first n positions that fall into bucket b. */
  ghost function DistinctTo(sorted: seq<real>, b: nat, n: nat, step: nat, buckets: nat): nat {
    |Values(sorted, Start(b, step), Start(b, step) + Filled(b, n, step, buckets))|
  }

  /** What one pass over the first n positions has counted. */
  ghost predicate CountedTo(sorted: seq<real>, counts: seq<nat>, distincts: seq<nat>, n: nat, step: nat, buckets: nat) {
    && |counts| == |distincts| == buckets
    && (forall b {:trigger counts[b]} :: 0 <= b < buckets ==> counts[b] == Filled(b, n, step, buckets))
    && (forall b {:trigger distincts[b]} :: 0 <= b < buckets ==>
      distincts[b] == DistinctTo(sorted, b, n, step, buckets))
  }

  /** The test of the pass: the first position of a bucket, or a value that differs from the one before. */
  predicate ShowsNew(sorted: seq<real>, i: nat, step: nat, buckets: nat)
    requires i < |sorted| && step > 0 && buckets > 0
  {
    i == 0 || BucketOfPosition(i - 1, step, buckets) != BucketOfPosition(i, step, buckets) || sorted[i] != sorted[i - 1]
  }

  lemma {:induction false} FirstOfBucket(i: nat, step: nat, buckets: nat, b: nat)
    requires step > 0 && buckets > 0 && b == BucketOfPosition(i, step, buckets)
    ensures Start(b, step) <= i && Filled(b, i, step, buckets) == i - Start(b, step)
    ensures i == Start(b, step) <==> i == 0 || BucketOfPosition(i - 1, step, buckets) != b
  {
    PositionInBucket(i, step, buckets);
    if i > 0 {
      PositionInBucket(i - 1, step, buckets);
      FilledStep(b, i - 1, step, buckets);
    }
  }

  lemma {:induction false} DistinctOneMore(sorted: seq<real>, i: nat, step: nat, buckets: nat, k: nat)
    requires Ascending(sorted) && i < |sorted| && step > 0 && k < buckets
    ensures DistinctTo(sorted, k, i + 1, step, buckets) == DistinctTo(sorted, k, i, step, buckets)
         + if k == BucketOfPosition(i, step, buckets) && ShowsNew(sorted, i, step, buckets) then 1 else 0
  {
    FilledStep(k, i, step, buckets);
    if k == BucketOfPosition(i, step, buckets) {
      FirstOfBucket(i, step, buckets, k);
      ValuesGrow(sorted, Start(k, step), i);
    }
  }

  lemma {:induction false} CountOneMore(sorted: seq<real>, counts: seq<nat>, distincts: seq<nat>, i: nat, step: nat,
                                        buckets: nat,
                                        b: nat, more: nat)
    requires Ascending(sorted) && i < |sorted| && step > 0 && buckets > 0
    requires CountedTo(sorted, counts, distincts, i, step, buckets)
    requires b == BucketOfPosition(i, step, buckets) && more == if ShowsNew(sorted, i, step, buckets) then 1 else 0
    ensures CountedTo(sorted, counts[b := counts[b] + 1], distincts[b := distincts[b] + more], i + 1, step, buckets)
  {
    var counts', distincts' := counts[b := counts[b] + 1], distincts[b := distincts[b] + more];
    forall k {:trigger counts'[k]} | 0 <= k < buckets ensures counts'[k] == Filled(k, i + 1, step, buckets) {
      FilledStep(k, i, step, buckets);
      assert counts[k] == Filled(k, i, step, buckets);
    }
    forall k {:trigger distincts'[k]} | 0 <= k < buckets
      ensures distincts'[k] == DistinctTo(sorted, k, i + 1, step, buckets) {
      DistinctOneMore(sorted, i, step, buckets, k);
      assert distincts[k] == DistinctTo(sorted, k, i, step, buckets);
    }
  }

  /** The sample is cut into its buckets without more left over than there are buckets. */
  lemma {:induction false} BucketsFit(n: nat, buckets: nat)
    requires 0 < buckets
    ensures Start(buckets, n / buckets) + n % buckets == n && n % buckets < buckets
  {
    StartIs(buckets, n / buckets);
    assert n == buckets * (n / buckets) + n % buckets;
  }

  lemma {:induction false} StartGrows(b: nat, step: nat, more: nat)
    requires step <= more
    ensures Start(b, step) <= Start(b, more)
  {
    if b > 0 { StartGrows(b - 1, step, more); }
  }

  lemma {:induction false} NextStartIs(b: nat, step: nat)
    ensures Start(b, step + 1) == Start(b, step) + b
  {
    if b > 0 { NextStartIs(b - 1, step); }
  }

  /** Steps that fit into n are no longer than n allows. */
  lemma {:induction false} QuotientAtLeast(step: nat, buckets: nat, n: nat)
    requires buckets > 0 && Start(buckets, step) <= n
    ensures step <= n / buckets
  {
    BucketsFit(n, buckets);
    NextStartIs(buckets, n / buckets);
    if step > n / buckets { StartGrows(buckets, n / buckets + 1, step); }
  }

  /** The boundaries: the last value of every step. */
  method Boundaries(sorted: seq<real>, buckets: nat, step: nat) returns (boundaries: seq<real>)
    requires step > 0 && Start(buckets, step) <= |sorted|
    ensures |boundaries| == buckets
    ensures forall b {:trigger boundaries[b]} :: 0 <= b < buckets ==> LastIn(boundaries[b], sorted, step, b)
  {
    boundaries := [];
    for i := 1 to buckets + 1
      invariant |boundaries| == i - 1
      invariant forall b {:trigger boundaries[b]} :: 0 <= b < i - 1 ==> LastIn(boundaries[b], sorted, step, b)
    {
      StartIs(i, step);
      StartMonotone(i, buckets, step);
      boundaries := boundaries + [sorted[Min(i * step - 1, |sorted| - 1)]];
    }
  }

  method CountBuckets(sorted: seq<real>, buckets: nat, step: nat) returns (counts: seq<nat>, distincts: seq<nat>)
    requires Ascending(sorted) && step > 0 && buckets > 0
    ensures CountedTo(sorted, counts, distincts, |sorted|, step, buckets)
  {
    counts, distincts := seq(buckets, _ => 0), seq(buckets, _ => 0);
    for i := 0 to |sorted|
      invariant CountedTo(sorted, counts, distincts, i, step, buckets)
    {
      var b := BucketOfPosition(i, step, buckets);
      var more := if ShowsNew(sorted, i, step, buckets) then 1 else 0;
      CountOneMore(sorted, counts, distincts, i, step, buckets, b, more);
      counts := counts[b := counts[b] + 1];
      distincts := distincts[b := distincts[b] + more];
    }
  }

  // ---------- the depth ----------

  /** How n values are spread: every bucket holds four at least, no bucket more could, all but the last are alike, and
      the last holds what is left over besides. Fewer than four values make one bucket. */
  ghost predicate EquiDepth(counts: seq<nat>, n: nat, maxBuckets: nat) {
    var last := |counts| - 1;
    && 0 < |counts| <= maxBuckets && (|counts| == maxBuckets || 4 * (|counts| + 1) > n)
    && (if n < 4 then |counts| == 1 else forall b {:trigger counts[b]} :: 0 <= b <= last ==> counts[b] >= 4)
    && (forall b {:trigger counts[b]} :: 0 <= b < last ==> counts[b] == counts[0])
    && counts[0] <= counts[last] < counts[0] + |counts|
  }

  lemma {:induction false} DepthReached(counts: seq<nat>, step: nat, n: nat, maxBuckets: nat, buckets: nat)
    requires n > 0 && 0 < buckets <= maxBuckets && step == n / buckets && |counts| == buckets
    requires if n < 4 then buckets == 1 else 4 * buckets <= n && (buckets == maxBuckets || 4 * (buckets + 1) > n)
    requires forall b {:trigger counts[b]} :: 0 <= b < buckets ==> counts[b] == Filled(b, n, step, buckets)
    ensures EquiDepth(counts, n, maxBuckets) && counts[0] == if buckets == 1 then n else step
  {
    BucketsFit(n, buckets);
    if n >= 4 {
      StartIs(buckets, 4);
      QuotientAtLeast(4, buckets, n);
    }
    forall b | 0 <= b < buckets ensures counts[b] == if b == buckets - 1 then step + n % buckets else step {
      StartMonotone(b + 1, buckets, step);
      assert counts[b] == Filled(b, n, step, buckets);
    }
  }

  /** The most a bucket can hold. */
  function Deepest(n: nat, maxBuckets: nat): nat
    requires maxBuckets > 0
  {
    if n < 4 * maxBuckets then 7 else n / maxBuckets + maxBuckets - 1
  }

  lemma {:induction false} NoDeeper(h: Histogram, sorted: seq<real>, step: nat, maxBuckets: nat)
    requires Summarises(h, sorted, step) && EquiDepth(h.bucketCounts.value, |sorted|, maxBuckets)
    ensures Largest(h.bucketCounts.value) <= Deepest(|sorted|, maxBuckets)
  {
    var n, buckets := |sorted|, |h.boundaries|;
    CountIs(h, sorted, step, 0);
    CountIs(h, sorted, step, buckets - 1);
    QuotientAtLeast(step, buckets, n);
    if n >= 4 {
      assert h.bucketCounts.value[0] >= 4;
      StartGrows(buckets - 1, if buckets == 1 then 0 else 4, step);
      StartIs(buckets - 1, 4);
    }
  }

  /** buildEquiDepthHistogram. */
  method BuildEquiDepthHistogram(sampled: seq<real>, maxBuckets: nat) returns (h: Histogram, ghost step: nat)
    requires sampled != [] && maxBuckets > 0
    ensures Summarises(h, Sorted(sampled), step)
    ensures EquiDepth(h.bucketCounts.value, |sampled|, maxBuckets)
    ensures step == h.bucketCounts.value[0]
    ensures CountedTo(Sorted(sampled), h.bucketCounts.value, h.bucketDistincts, |sampled|, step, |h.boundaries|)
  {
    var sorted := Sorted(sampled);
    var quarter := |sorted| / 4;
    var buckets := Min(maxBuckets, if quarter > 1 then quarter else 1);
    BucketsFit(|sorted|, buckets);
    StartIs(buckets, 1);
    QuotientAtLeast(1, buckets, |sorted|);
    var width := |sorted| / buckets;
    step := width;
    var boundaries := Boundaries(sorted, buckets, width);
    var counts, distincts := CountBuckets(sorted, buckets, width);
    DepthReached(counts, step, |sorted|, maxBuckets, buckets);
    var cumulative := PrefixSums(counts);
    h := Histogram(boundaries, sorted[0], Some(counts), distincts, |sorted|, cumulative);
  }

  /** Built from a sample, the estimate is off from the true fraction of the sample by at most the share of the
      deepest bucket there can be; the counts add up to the sample. */
  lemma {:induction false} BuiltIsClose(h: Histogram, sampled: seq<real>, step: nat, maxBuckets: nat, target: real)
    requires sampled != [] && maxBuckets > 0 && Summarises(h, Sorted(sampled), step)
    requires EquiDepth(h.bucketCounts.value, |sampled|, maxBuckets)
    ensures var most := Share(Deepest(|sampled|, maxBuckets), |sampled|);
      -most <= LessThan(h, target) - Share(BelowTo(sampled, |sampled|, target), |sampled|) <= most
    ensures SumTo(h.bucketCounts.value, |h.boundaries|) == |sampled|
  {
    BelowSorted(sampled, target);
    EstimateIsClose(h, Sorted(sampled), step, target);
    NoDeeper(h, Sorted(sampled), step, maxBuckets);
    DivideMonotone(Largest(h.bucketCounts.value) as real, Deepest(|sampled|, maxBuckets) as real, |sampled| as real);
    CountsAddUp(h, Sorted(sampled), step);
  }
}
