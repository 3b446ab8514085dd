/** The meaning of EquiDepthHistogram of src/catalog/statistics.ts, over exact reals. */
module HistogramSpec {
  // A sample in ascending order is cut into buckets of `step` values, of which the last takes the remainder.
  import opened Wrappers

  const UNKNOWN_FRACTION := 0.5

  /** `bucketCounts` is missing when only the boundaries are known; `cumulative` are its prefix sums. */
  datatype Histogram = Histogram(boundaries: seq<real>, lowerBound: real, bucketCounts: Option<seq<nat>>,
                                 bucketDistincts: seq<nat>, total: nat, cumulative: seq<nat>)

  predicate Ascending(s: seq<real>) {
    forall i, j :: 0 <= i <= j < |s| ==> s[i] <= s[j]
  }

  /** How many of the first n values lie below v. */
  function BelowTo(s: seq<real>, n: nat, v: real): (count: nat)
    requires n <= |s|
    ensures count <= n
  {
    if n == 0 then 0 else BelowTo(s, n - 1, v) + if s[n - 1] < v then 1 else 0
  }

  function SumTo(counts: seq<nat>, n: nat): nat
    requires n <= |counts|
  {
    if n == 0 then 0 else SumTo(counts, n - 1) + counts[n - 1]
  }

  function Largest(counts: seq<nat>): (m: nat)
    requires counts != []
    ensures m in counts && forall k :: 0 <= k < |counts| ==> counts[k] <= m
  {
    var last := counts[|counts| - 1];
    if |counts| == 1 then last
    else
      var rest := Largest(counts[..|counts| - 1]);
      if last < rest then rest else last
  }

  lemma {:induction false} BelowAtLeast(s: seq<real>, n: nat, v: real, p: nat)
    requires p <= n <= |s| && forall i :: 0 <= i < p ==> s[i] < v
    ensures BelowTo(s, n, v) >= p
  {
    if p < n { BelowAtLeast(s, n - 1, v, p); } else if n > 0 { BelowAtLeast(s, n - 1, v, p - 1); }
  }

  lemma {:induction false} BelowAtMost(s: seq<real>, n: nat, v: real, p: nat)
    requires p <= n <= |s| && forall i :: p <= i < n ==> s[i] >= v
    ensures BelowTo(s, n, v) <= p
  {
    if p < n { BelowAtMost(s, n - 1, v, p); }
  }

  // ---------- buckets ----------

  /** The first position of bucket b. */
  function Start(b: nat, step: nat): nat {
    if b == 0 then 0 else Start(b - 1, step) + step
  }

  lemma {:induction false} StartIs(b: nat, step: nat)
    ensures Start(b, step) == b * step
  {
    if b > 0 { StartIs(b - 1, step); }
  }

  lemma {:induction false} StartMonotone(a: nat, b: nat, step: nat)
    requires a <= b
    ensures Start(a, step) <= Start(b, step)
  {
    if a < b { StartMonotone(a, b - 1, step); }
  }

  /** How many of the first n positions fall into bucket b of `buckets`. */
  function Filled(b: nat, n: nat, step: nat, buckets: nat): nat {
    if n <= Start(b, step) then 0
    else if b + 1 == buckets || n < Start(b + 1, step) then n - Start(b, step)
    else step
  }

  function BucketOfPosition(position: nat, step: nat, buckets: nat): (b: nat)
    requires step > 0 && buckets > 0
    ensures b < buckets
  {
    if position / step < buckets - 1 then position / step else buckets - 1
  }

  lemma {:induction false} PositionInBucket(position: nat, step: nat, buckets: nat)
    requires step > 0 && buckets > 0
    ensures var b := BucketOfPosition(position, step, buckets);
      Start(b, step) <= position && (b + 1 == buckets || position < Start(b + 1, step))
  {
    var q, b := position / step, BucketOfPosition(position, step, buckets);
    assert position == q * step + position % step;
    StartIs(q, step);
    assert Start(q + 1, step) == q * step + step;
    StartMonotone(b, q, step);
  }

  /** One more position goes to its bucket and to no other. */
  lemma {:induction false} FilledStep(k: nat, position: nat, step: nat, buckets: nat)
    requires step > 0 && k < buckets
    ensures Filled(k, position + 1, step, buckets)
         == Filled(k, position, step, buckets) + if k == BucketOfPosition(position, step, buckets) then 1 else 0
  {
    var b := BucketOfPosition(position, step, buckets);
    PositionInBucket(position, step, buckets);
    if k < b {
      StartMonotone(k + 1, b, step);
    } else if k > b {
      StartMonotone(b + 1, k, step);
    }
  }

  /** The summary of an ascending sample. */
  ghost predicate Summarises(h: Histogram, sorted: seq<real>, step: nat) {
    var buckets := |h.boundaries|;
    && Ascending(sorted) && step > 0 && 0 < buckets && Start(buckets, step) <= |sorted|
    && h.lowerBound == sorted[0] && h.total == |sorted| && |h.cumulative| == buckets
    && h.bucketCounts.Some? && |h.bucketCounts.value| == buckets
    && (forall b {:trigger h.boundaries[b]} :: 0 <= b < buckets ==> LastIn(h.boundaries[b], sorted, step, b))
    && (forall b {:trigger h.bucketCounts.value[b]} :: 0 <= b < buckets ==>
      h.bucketCounts.value[b] == Filled(b, |sorted|, step, buckets))
    && (forall b {:trigger h.cumulative[b]} :: 0 <= b < buckets ==> h.cumulative[b] == SumTo(h.bucketCounts.value, b))
  }

  /** The boundary of bucket b is its last value, for the last bucket before it takes the remainder. */
  ghost predicate LastIn(boundary: real, sorted: seq<real>, step: nat, b: nat) {
    0 < Start(b + 1, step) <= |sorted| && boundary == sorted[Start(b + 1, step) - 1]
  }

  lemma {:induction false} CountIs(h: Histogram, sorted: seq<real>, step: nat, b: nat)
    requires Summarises(h, sorted, step) && b < |h.boundaries|
    ensures h.bucketCounts.value[b] == if b + 1 == |h.boundaries| then |sorted| - Start(b, step) else step
    ensures Start(b, step) < Start(b + 1, step) == Start(b, step) + step <= |sorted|
  {
    StartMonotone(b + 1, |h.boundaries|, step);
    assert h.bucketCounts.value[b] == Filled(b, |sorted|, step, |h.boundaries|);
  }

  /** The buckets before b hold exactly b steps. */
  lemma {:induction false} CumulativeIs(h: Histogram, sorted: seq<real>, step: nat, b: nat)
    requires Summarises(h, sorted, step) && b < |h.boundaries|
    ensures SumTo(h.bucketCounts.value, b) == Start(b, step)
  {
    if b > 0 {
      CumulativeIs(h, sorted, step, b - 1);
      CountIs(h, sorted, step, b - 1);
    }
  }

  /** The counts of the buckets add up to the sample. */
  lemma {:induction false} CountsAddUp(h: Histogram, sorted: seq<real>, step: nat)
    requires Summarises(h, sorted, step)
    ensures SumTo(h.bucketCounts.value, |h.boundaries|) == |sorted| == h.total
  {
    CumulativeIs(h, sorted, step, |h.boundaries| - 1);
    CountIs(h, sorted, step, |h.boundaries| - 1);
  }

  lemma {:induction false} BoundariesAscend(h: Histogram, sorted: seq<real>, step: nat)
    requires Summarises(h, sorted, step)
    ensures Ascending(h.boundaries) && h.lowerBound <= h.boundaries[0]
  {
    forall i, j | 0 <= i <= j < |h.boundaries| ensures h.boundaries[i] <= h.boundaries[j] {
      assert LastIn(h.boundaries[i], sorted, step, i) && LastIn(h.boundaries[j], sorted, step, j);
      StartMonotone(i + 1, j + 1, step);
    }
    assert LastIn(h.boundaries[0], sorted, step, 0);
  }

  // ---------- the estimate ----------

  /** The first bucket whose boundary is not below v. */
  function FirstNotBelow(boundaries: seq<real>, v: real): (b: nat)
    ensures b <= |boundaries| && (b < |boundaries| ==> boundaries[b] >= v)
    ensures forall k :: 0 <= k < b ==> boundaries[k] < v
  {
    if boundaries == [] then 0
    else
      var n := |boundaries| - 1;
      var b := FirstNotBelow(boundaries[..n], v);
      if b < n || boundaries[n] >= v then b else |boundaries|
  }

  function Clamp(x: real): (r: real)
    ensures 0.0 <= r <= 1.0 && (0.0 <= x <= 1.0 ==> r == x)
  {
    if x < 0.0 then 0.0 else if x > 1.0 then 1.0 else x
  }

  function BucketLowerBound(h: Histogram, bucket: nat): real
    requires bucket < |h.boundaries|
  {
    if bucket == 0 then h.lowerBound else h.boundaries[bucket - 1]
  }

  function FractionWithin(h: Histogram, bucket: nat, target: real): (f: real)
    requires bucket < |h.boundaries|
    ensures 0.0 <= f <= 1.0
  {
    var low := BucketLowerBound(h, bucket);
    var range := h.boundaries[bucket] - low;
    if range > 0.0 then Clamp((target - low) / range) else UNKNOWN_FRACTION
  }

  ghost predicate Counted(h: Histogram) {
    h.bucketCounts.Some? ==> |h.bucketCounts.value| == |h.cumulative| == |h.boundaries|
  }

  /** A fraction of a count, written without a product: PortionIs. */
  function Portion(f: real, count: nat): (part: real)
    requires 0.0 <= f <= 1.0
    ensures 0.0 <= part <= count as real
  {
    if count == 0 then 0.0 else Portion(f, count - 1) + f
  }

  lemma {:induction false} PortionIs(f: real, count: nat)
    requires 0.0 <= f <= 1.0
    ensures Portion(f, count) == f * count as real
  {
    if count > 0 {
      PortionIs(f, count - 1);
      assert f * (count - 1) as real + f == f * ((count - 1) as real + 1.0);
    }
  }

  lemma {:induction false} PortionMonotone(f: real, g: real, count: nat)
    requires 0.0 <= f <= g <= 1.0
    ensures Portion(f, count) <= Portion(g, count)
  {
    if count > 0 { PortionMonotone(f, g, count - 1); }
  }

  /** The share of a total made up by the values before a bucket and a part of the bucket's own. */
  function ShareOf(before: nat, part: real, total: nat): (f: real)
    requires total > 0
    ensures 0.0 <= f <= 1.0
  {
    Clamp((before as real + part) / total as real)
  }

  function CumulativeFraction(h: Histogram, bucket: nat, within: real): (f: real)
    requires Counted(h) && bucket < |h.boundaries| && 0.0 <= within <= 1.0
    ensures 0.0 <= f <= 1.0
  {
    if h.bucketCounts.Some? && h.total > 0 then
      ShareOf(h.cumulative[bucket], Portion(within, h.bucketCounts.value[bucket]), h.total)
    else
      Clamp((bucket as real + within) / |h.boundaries| as real)
  }

  /** estimateLessThan, given the bucket found. */
  function EstimateFrom(h: Histogram, target: real, bucket: nat): (f: real)
    requires Counted(h)
    ensures 0.0 <= f <= 1.0
  {
    if target <= h.lowerBound then 0.0
    else if bucket >= |h.boundaries| then 1.0
    else CumulativeFraction(h, bucket, FractionWithin(h, bucket, target))
  }

  function LessThan(h: Histogram, target: real): (f: real)
    requires Counted(h)
    ensures 0.0 <= f <= 1.0
  {
    EstimateFrom(h, target, FirstNotBelow(h.boundaries, target))
  }

  /** A target above the lower bound lies inside the bucket found for it, whose range is not empty: the fraction is
      the linear one. */
  lemma {:induction false} LinearWithin(h: Histogram, target: real, b: nat)
    requires target > h.lowerBound && b == FirstNotBelow(h.boundaries, target) < |h.boundaries|
    ensures BucketLowerBound(h, b) < target <= h.boundaries[b]
    ensures FractionWithin(h, b, target)
            == (target - BucketLowerBound(h, b)) / (h.boundaries[b] - BucketLowerBound(h, b))
  {
    DivideInUnit(target - BucketLowerBound(h, b), h.boundaries[b] - BucketLowerBound(h, b));
  }

  lemma {:induction false} DivideInUnit(x: real, y: real)
    requires 0.0 <= x <= y && y > 0.0
    ensures 0.0 <= x / y <= 1.0
  {}

  lemma {:induction false} DivideMonotone(x: real, y: real, z: real)
    requires x <= y && z > 0.0
    ensures x / z <= y / z
  {
    assert y / z - x / z == (y - x) / z >= 0.0;
  }

  lemma {:induction false} FirstNotBelowMonotone(boundaries: seq<real>, v: real, w: real)
    requires v <= w
    ensures FirstNotBelow(boundaries, v) <= FirstNotBelow(boundaries, w)
  {
    assert forall k :: 0 <= k < FirstNotBelow(boundaries, v) ==> boundaries[k] < w;
  }

  // ---------- shares ----------

  function Share(rows: int, total: nat): real
    requires total > 0
  {
    rows as real / total as real
  }

  lemma {:induction false} ShareOfIs(before: nat, part: real, count: nat, total: nat)
    requires 0.0 <= part <= count as real && before + count <= total && total > 0
    ensures ShareOf(before, part, total) == (before as real + part) / total as real
    ensures Share(before, total) <= ShareOf(before, part, total) <= Share(before + count, total)
  {
    assert before as real + part <= (before + count) as real <= total as real;
    DivideInUnit(before as real + part, total as real);
    DivideMonotone(before as real, before as real + part, total as real);
    DivideMonotone(before as real + part, (before + count) as real, total as real);
  }

  lemma {:induction false} ShareGrowsWithin(before: nat, p: real, q: real, count: nat, total: nat)
    requires 0.0 <= p <= q <= count as real && before + count <= total && total > 0
    ensures ShareOf(before, p, total) <= ShareOf(before, q, total)
  {
    ShareOfIs(before, p, count, total);
    ShareOfIs(before, q, count, total);
    DivideMonotone(before as real + p, before as real + q, total as real);
  }

  lemma {:induction false} ShareGrowsAcross(before: nat, p: real, count: nat, before': nat, q: real, count': nat,
                                            total: nat)
    requires 0.0 <= p <= count as real && 0.0 <= q <= count' as real && total > 0
    requires before + count <= before' && before' + count' <= total
    ensures ShareOf(before, p, total) <= ShareOf(before', q, total)
  {
    ShareOfIs(before, p, count, total);
    ShareOfIs(before', q, count', total);
    DivideMonotone((before + count) as real, before' as real, total as real);
  }

  /** Two shares inside one bucket differ by its own share at most. */
  lemma {:induction false} OneBucketApart(share: real, below: nat, start: nat, count: nat, most: nat, n: nat)
    requires n > 0 && Share(start, n) <= share <= Share(start + count, n) && start <= below <= start + count
             && count <= most
    ensures -Share(most, n) <= share - Share(below, n) <= Share(most, n)
  {
    DivideMonotone(start as real, below as real, n as real);
    DivideMonotone(below as real, (start + count) as real, n as real);
    DivideMonotone(count as real, most as real, n as real);
    assert Share(start + count, n) == Share(start, n) + Share(count, n);
  }

  // ---------- what the estimate is worth ----------

  /** The part of bucket b's values taken to lie below a target. */
  function PartBelow(h: Histogram, b: nat, target: real): (part: real)
    requires b < |h.boundaries| && h.bucketCounts.Some? && b < |h.bucketCounts.value|
    ensures 0.0 <= part <= h.bucketCounts.value[b] as real
  {
    Portion(FractionWithin(h, b, target), h.bucketCounts.value[b])
  }

  /** The estimate, when counts are known, is the share of the buckets before and a part of the one found. */
  lemma {:induction false} LessThanIs(h: Histogram, sorted: seq<real>, step: nat, target: real, b: nat)
    requires Summarises(h, sorted, step) && target > h.lowerBound
             && b == FirstNotBelow(h.boundaries, target) < |h.boundaries|
    ensures Start(b, step) + h.bucketCounts.value[b] <= |sorted|
    ensures LessThan(h, target) == ShareOf(Start(b, step), PartBelow(h, b, target), |sorted|)
  {
    CountIs(h, sorted, step, b);
    CumulativeIs(h, sorted, step, b);
    assert h.cumulative[b] == Start(b, step);
  }

  lemma {:induction false} PartGrows(h: Histogram, v: real, w: real, b: nat)
    requires h.bucketCounts.Some? && b < |h.bucketCounts.value|
    requires h.lowerBound < v <= w && b == FirstNotBelow(h.boundaries, v)
             == FirstNotBelow(h.boundaries, w) < |h.boundaries|
    ensures PartBelow(h, b, v) <= PartBelow(h, b, w)
  {
    LinearWithin(h, v, b);
    LinearWithin(h, w, b);
    var low := BucketLowerBound(h, b);
    DivideMonotone(v - low, w - low, h.boundaries[b] - low);
    PortionMonotone(FractionWithin(h, b, v), FractionWithin(h, b, w), h.bucketCounts.value[b]);
  }

  /** The estimate grows with the value asked for. */
  lemma {:induction false} EstimateIsMonotone(h: Histogram, sorted: seq<real>, step: nat, v: real, w: real)
    requires Summarises(h, sorted, step) && v <= w
    ensures LessThan(h, v) <= LessThan(h, w)
  {
    FirstNotBelowMonotone(h.boundaries, v, w);
    var b, c := FirstNotBelow(h.boundaries, v), FirstNotBelow(h.boundaries, w);
    if v > h.lowerBound && c < |h.boundaries| {
      var p, q := PartBelow(h, b, v), PartBelow(h, c, w);
      LessThanIs(h, sorted, step, v, b);
      LessThanIs(h, sorted, step, w, c);
      if b == c {
        PartGrows(h, v, w, b);
        ShareGrowsWithin(Start(b, step), p, q, h.bucketCounts.value[b], |sorted|);
      } else {
        CountIs(h, sorted, step, b);
        StartMonotone(b + 1, c, step);
        ShareGrowsAcross(Start(b, step), p, h.bucketCounts.value[b], Start(c, step), q, h.bucketCounts.value[c],
          |sorted|);
      }
    }
  }

  /** How many values really lie below a target above the lower bound. */
  lemma {:induction false} TrueRowsBelow(h: Histogram, sorted: seq<real>, step: nat, target: real, b: nat)
    requires Summarises(h, sorted, step) && target > h.lowerBound && b == FirstNotBelow(h.boundaries, target)
    ensures Start(b, step) <= BelowTo(sorted, |sorted|, target)
    ensures b < |h.boundaries| ==> BelowTo(sorted, |sorted|, target) < Start(b, step) + step
  {
    if b > 0 {
      assert LastIn(h.boundaries[b - 1], sorted, step, b - 1);
      BelowAtLeast(sorted, |sorted|, target, Start(b, step));
    }
    if b < |h.boundaries| {
      assert LastIn(h.boundaries[b], sorted, step, b);
      BelowAtMost(sorted, |sorted|, target, Start(b, step) + step - 1);
    }
  }

  lemma {:induction false} InsideBucketIsClose(h: Histogram, sorted: seq<real>, step: nat, target: real, b: nat)
    requires Summarises(h, sorted, step) && target > h.lowerBound
             && b == FirstNotBelow(h.boundaries, target) < |h.boundaries|
    ensures var most := Share(Largest(h.bucketCounts.value), |sorted|);
      -most <= LessThan(h, target) - Share(BelowTo(sorted, |sorted|, target), |sorted|) <= most
  {
    TrueRowsBelow(h, sorted, step, target, b);
    CountIs(h, sorted, step, b);
    LessThanIs(h, sorted, step, target, b);
    ShareOfIs(Start(b, step), PartBelow(h, b, target), h.bucketCounts.value[b], |sorted|);
    OneBucketApart(LessThan(h, target), BelowTo(sorted, |sorted|, target), Start(b, step), h.bucketCounts.value[b],
                   Largest(h.bucketCounts.value), |sorted|);
  }

  lemma {:induction false} NothingBelow(below: nat, most: nat, n: nat)
    requires n > 0 && below == 0
    ensures -Share(most, n) <= 0.0 - Share(below, n) <= Share(most, n)
  {
    DivideMonotone(0.0, most as real, n as real);
  }

  lemma {:induction false} RestOf(x: real, n: real)
    requires n > 0.0
    ensures 1.0 - x / n == (n - x) / n
  {
    assert n / n == 1.0;
    assert n / n - x / n == (n - x) / n;
  }

  lemma {:induction false} AlmostAllBelow(below: nat, start: nat, most: nat, n: nat)
    requires n > 0 && start <= below <= n <= start + most
    ensures -Share(most, n) <= 1.0 - Share(below, n) <= Share(most, n)
  {
    var rest := n as real - below as real;
    RestOf(below as real, n as real);
    DivideMonotone(rest, most as real, n as real);
    DivideMonotone(-(most as real), rest, n as real);
  }

  /** What lies above the last boundary is part of the last bucket. */
  lemma {:induction false} AboveIsClose(h: Histogram, sorted: seq<real>, step: nat, target: real)
    requires Summarises(h, sorted, step) && target > h.lowerBound
             && FirstNotBelow(h.boundaries, target) == |h.boundaries|
    ensures var most := Share(Largest(h.bucketCounts.value), |sorted|);
      -most <= 1.0 - Share(BelowTo(sorted, |sorted|, target), |sorted|) <= most
  {
    var last := |h.boundaries| - 1;
    TrueRowsBelow(h, sorted, step, target, last + 1);
    CountIs(h, sorted, step, last);
    AlmostAllBelow(BelowTo(sorted, |sorted|, target), Start(last, step), Largest(h.bucketCounts.value), |sorted|);
  }

  /** The estimate is off by at most the share of the largest bucket. */
  lemma {:induction false} EstimateIsClose(h: Histogram, sorted: seq<real>, step: nat, target: real)
    requires Summarises(h, sorted, step)
    ensures var most := Share(Largest(h.bucketCounts.value), |sorted|);
      -most <= LessThan(h, target) - Share(BelowTo(sorted, |sorted|, target), |sorted|) <= most
  {
    var b := FirstNotBelow(h.boundaries, target);
    if target > h.lowerBound && b < |h.boundaries| {
      InsideBucketIsClose(h, sorted, step, target, b);
    } else if target > h.lowerBound {
      AboveIsClose(h, sorted, step, target);
    } else {
      BelowAtMost(sorted, |sorted|, target, 0);
      NothingBelow(BelowTo(sorted, |sorted|, target), Largest(h.bucketCounts.value), |sorted|);
    }
  }

  /** Without counts every bucket weighs the same, and the estimate grows all the same. */
  lemma {:induction false} UncountedIsMonotone(h: Histogram, v: real, w: real)
    requires h.bucketCounts.None? && v <= w
    ensures LessThan(h, v) <= LessThan(h, w)
  {
    FirstNotBelowMonotone(h.boundaries, v, w);
    var b, c, n := FirstNotBelow(h.boundaries, v), FirstNotBelow(h.boundaries, w), |h.boundaries|;
    if v > h.lowerBound && c < n {
      if b == c {
        LinearWithin(h, v, b);
        LinearWithin(h, w, b);
        var low := BucketLowerBound(h, b);
        DivideMonotone(v - low, w - low, h.boundaries[b] - low);
      }
      DivideMonotone(b as real + FractionWithin(h, b, v), c as real + FractionWithin(h, c, w), n as real);
    }
  }

  // ---------- samples in any order ----------

  function Inserted(s: seq<real>, x: real): (r: seq<real>)
    requires Ascending(s)
    ensures Ascending(r) && |r| == |s| + 1 && multiset(r) == multiset(s) + multiset{x}
  {
    var p := FirstNotBelow(s, x);
    InsertedAt(s, x, p);
    s[..p] + [x] + s[p..]
  }

  lemma {:induction false} InsertedAt(s: seq<real>, x: real, p: nat)
    requires Ascending(s) && p <= |s| && (p > 0 ==> s[p - 1] <= x) && (p < |s| ==> x <= s[p])
    ensures Ascending(s[..p] + [x] + s[p..])
    ensures multiset(s[..p] + [x] + s[p..]) == multiset(s) + multiset{x}
  {
    var low, high := s[..p], s[p..];
    assert s == low + high;
    BagAround(low, x, high);
    AscendingAround(low, x, high);
  }

  lemma {:induction false} BagAround(low: seq<real>, x: real, high: seq<real>)
    ensures multiset(low + [x] + high) == multiset(low + high) + multiset{x}
  {}

  lemma {:induction false} AscendingAround(low: seq<real>, x: real, high: seq<real>)
    requires Ascending(low) && Ascending(high)
    requires (low != [] ==> low[|low| - 1] <= x) && (high != [] ==> x <= high[0])
    ensures Ascending(low + [x] + high)
  {
    var n, r := |low|, low + [x] + high;
    assert r[n] == x;
    forall i, j | 0 <= i <= j < |r| ensures r[i] <= r[j] {
      if i < n { assert r[i] == low[i] <= low[n - 1]; }
      if j > n { assert r[j] == high[j - n - 1] >= high[0]; }
    }
  }

  /** The library sort. */
  function Sorted(s: seq<real>): (r: seq<real>)
    ensures Ascending(r) && |r| == |s| && multiset(r) == multiset(s)
  {
    if s == [] then []
    else
      assert s == s[..|s| - 1] + [s[|s| - 1]];
      Inserted(Sorted(s[..|s| - 1]), s[|s| - 1])
  }

  lemma {:induction false} BelowConcat(s: seq<real>, t: seq<real>, n: nat, v: real)
    requires n <= |t|
    ensures BelowTo(s + t, |s| + n, v) == BelowTo(s, |s|, v) + BelowTo(t, n, v)
  {
    if n == 0 { BelowToSlice(s + t, |s|, |s|, v); assert (s + t)[..|s|] == s; } else { BelowConcat(s, t, n - 1, v); }
  }

  lemma {:induction false} BelowToSlice(s: seq<real>, n: nat, k: nat, v: real)
    requires n <= k <= |s|
    ensures BelowTo(s[..k], n, v) == BelowTo(s, n, v)
  {
    if n > 0 { BelowToSlice(s, n - 1, k, v); }
  }

  lemma {:induction false} BelowAround(low: seq<real>, x: real, high: seq<real>, v: real)
    ensures BelowTo(low + [x] + high, |low| + 1 + |high|, v) == BelowTo(low + high, |low| + |high|, v)
            + if x < v then 1 else 0
  {
    BelowConcat(low, high, |high|, v);
    BelowConcat(low, [x], 1, v);
    BelowConcat(low + [x], high, |high|, v);
    assert BelowTo([x], 1, v) == BelowTo([x], 0, v) + if x < v then 1 else 0;
  }

  lemma {:induction false} BelowInserted(s: seq<real>, x: real, v: real)
    requires Ascending(s)
    ensures BelowTo(Inserted(s, x), |s| + 1, v) == BelowTo(s, |s|, v) + if x < v then 1 else 0
  {
    var p := FirstNotBelow(s, x);
    assert s == s[..p] + s[p..];
    BelowAround(s[..p], x, s[p..], v);
  }

  /** Sorting a sample does not change how many values lie below v. */
  lemma {:induction false} BelowSorted(s: seq<real>, v: real)
    ensures BelowTo(Sorted(s), |s|, v) == BelowTo(s, |s|, v)
  {
    if s != [] {
      var n := |s| - 1;
      BelowSorted(s[..n], v);
      BelowInserted(Sorted(s[..n]), s[n], v);
      BelowToSlice(s, n, n, v);
    }
  }
}
