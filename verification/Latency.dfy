/** The bucketed latency histogram against the samples it stands for. */
module Latency {
  import opened Arithmetic

  const U64_MAX: nat := 0xFFFF_FFFF_FFFF_FFFF

  const BUCKET_BOUNDS_NS: seq<nat> := [
    500, 1000, 2000, 5000, 10000, 20000, 50000, 100000, 200000, 500000,
    1000000, 2000000, 5000000, 10000000, 20000000, 50000000,
    100000000, 200000000, 500000000, 1000000000, U64_MAX]

  const BUCKETS: nat := 21

  /** A rank: how many of the samples are at most `x`. */
  function AtMost(samples: seq<nat>, x: nat): (k: nat)
    ensures k <= |samples|
  {
    if samples == [] then 0
    else AtMost(samples[..|samples| - 1], x) + (if samples[|samples| - 1] <= x then 1 else 0)
  }

  /** The first bucket whose bound is not exceeded. */
  function BucketOf(x: nat): (i: nat)
    requires x <= U64_MAX
    ensures i < BUCKETS && x <= BUCKET_BOUNDS_NS[i]
    ensures forall j :: 0 <= j < i ==> BUCKET_BOUNDS_NS[j] < x
  {
    FirstFrom(x, 0)
  }

  function FirstFrom(x: nat, i: nat): (r: nat)
    requires x <= U64_MAX && i < BUCKETS
    requires forall j :: 0 <= j < i ==> BUCKET_BOUNDS_NS[j] < x
    ensures i <= r < BUCKETS && x <= BUCKET_BOUNDS_NS[r]
    ensures forall j :: 0 <= j < r ==> BUCKET_BOUNDS_NS[j] < x
    decreases BUCKETS - i
  {
    if x <= BUCKET_BOUNDS_NS[i] then i else FirstFrom(x, i + 1)
  }

  lemma BoundsIncrease()
    ensures |BUCKET_BOUNDS_NS| == BUCKETS
    ensures forall i, j :: 0 <= i < j < BUCKETS ==> BUCKET_BOUNDS_NS[i] < BUCKET_BOUNDS_NS[j]
  {
  }

  /** How many samples fall in bucket `i`: those between its bound and the one before. */
  function InBucket(samples: seq<nat>, i: nat): nat
    requires i < BUCKETS
  {
    AtMost(samples, BUCKET_BOUNDS_NS[i]) - (if i == 0 then 0 else Below(samples, i))
  }

  function Below(samples: seq<nat>, i: nat): (k: nat)
    requires 0 < i < BUCKETS
    ensures k <= AtMost(samples, BUCKET_BOUNDS_NS[i])
  {
    BoundsIncrease();
    AtMostGrows(samples, BUCKET_BOUNDS_NS[i - 1], BUCKET_BOUNDS_NS[i]);
    AtMost(samples, BUCKET_BOUNDS_NS[i - 1])
  }

  lemma {:induction false} AtMostGrows(samples: seq<nat>, x: nat, y: nat)
    requires x <= y
    ensures AtMost(samples, x) <= AtMost(samples, y)
  {
    if samples != [] {
      AtMostGrows(samples[..|samples| - 1], x, y);
    }
  }

  lemma AtMostAppend(samples: seq<nat>, x: nat, b: nat)
    ensures AtMost(samples + [x], b) == AtMost(samples, b) + (if x <= b then 1 else 0)
  {
    assert (samples + [x])[..|samples|] == samples;
  }

  lemma {:induction false} AtMostAll(samples: seq<nat>, b: nat)
    requires forall i :: 0 <= i < |samples| ==> samples[i] <= b
    ensures AtMost(samples, b) == |samples|
  {
    if samples != [] {
      AtMostAll(samples[..|samples| - 1], b);
    }
  }

  lemma BucketIsFirst(x: nat, i: nat)
    requires x <= U64_MAX && i < BUCKETS && x <= BUCKET_BOUNDS_NS[i]
    requires forall j :: 0 <= j < i ==> BUCKET_BOUNDS_NS[j] < x
    ensures i == BucketOf(x)
  {
  }

  lemma ReachesFrom(bounds: seq<nat>, x: nat, b: nat, i: nat)
    requires b < |bounds| && i < |bounds| && forall j, k :: 0 <= j < k < |bounds| ==> bounds[j] < bounds[k]
    requires x <= bounds[b] && forall j :: 0 <= j < b ==> bounds[j] < x
    ensures x <= bounds[i] <==> b <= i
  {
  }

  lemma BoundReaches(x: nat, i: nat)
    requires x <= U64_MAX && i < BUCKETS
    ensures x <= BUCKET_BOUNDS_NS[i] <==> BucketOf(x) <= i
  {
    BoundsIncrease();
    ReachesFrom(BUCKET_BOUNDS_NS, x, BucketOf(x), i);
  }

  lemma InBucketAppend(samples: seq<nat>, x: nat, i: nat)
    requires i < BUCKETS && x <= U64_MAX
    ensures InBucket(samples + [x], i) == InBucket(samples, i) + (if i == BucketOf(x) then 1 else 0)
  {
    AtMostAppend(samples, x, BUCKET_BOUNDS_NS[i]);
    BoundReaches(x, i);
    if i > 0 {
      AtMostAppend(samples, x, BUCKET_BOUNDS_NS[i - 1]);
      BoundReaches(x, i - 1);
    }
  }

  /** The counters are the bucket sizes of the samples. */
  ghost predicate Tallies(counters: seq<nat>, samples: seq<nat>) {
    |counters| == BUCKETS && forall i :: 0 <= i < BUCKETS ==> counters[i] == InBucket(samples, i)
  }

  lemma TalliesAppend(counters: seq<nat>, samples: seq<nat>, x: nat, at: nat)
    requires Tallies(counters, samples) && x <= U64_MAX && at == BucketOf(x)
    ensures Tallies(counters[at := counters[at] + 1], samples + [x])
  {
    forall i | 0 <= i < BUCKETS
      ensures counters[at := counters[at] + 1][i] == InBucket(samples + [x], i)
    {
      InBucketAppend(samples, x, i);
    }
  }

  lemma NothingTallied(counters: seq<nat>)
    requires |counters| == BUCKETS && forall i :: 0 <= i < BUCKETS ==> counters[i] == 0
    ensures Tallies(counters, [])
  {
  }

  // ----- ranks and the sorted list -----

  ghost predicate IsSortingOf(sorted: seq<nat>, samples: seq<nat>) {
    && multiset(sorted) == multiset(samples)
    && forall i, j :: 0 <= i <= j < |sorted| ==> sorted[i] <= sorted[j]
  }

  lemma {:induction false} AtMostConcat(a: seq<nat>, b: seq<nat>, x: nat)
    ensures AtMost(a + b, x) == AtMost(a, x) + AtMost(b, x)
  {
    if b == [] {
      assert a + b == a;
    } else {
      var init, last := b[..|b| - 1], b[|b| - 1];
      AtMostConcat(a, init, x);
      AtMostAppend(a + init, last, x);
      assert a + b == (a + init) + [last];
    }
  }

  lemma AtMostWithout(a: seq<nat>, y: nat, b: seq<nat>, x: nat)
    ensures AtMost(a + [y] + b, x) == AtMost(a + b, x) + (if y <= x then 1 else 0)
  {
    AtMostConcat(a + [y], b, x);
    AtMostAppend(a, y, x);
    AtMostConcat(a, b, x);
  }

  lemma WithoutOne(a: seq<nat>, y: nat, b: seq<nat>)
    ensures multiset(a + [y] + b) == multiset(a + b) + multiset{y}
  {
  }

  lemma TakeOutLast(a: seq<nat>, b: seq<nat>) returns (j: nat)
    requires multiset(a) == multiset(b) && a != []
    ensures j < |b| && b[j] == a[|a| - 1]
    ensures multiset(a[..|a| - 1]) == multiset(b[..j] + b[j + 1..])
  {
    var last, init := a[|a| - 1], a[..|a| - 1];
    assert a == init + [last] + [];
    WithoutOne(init, last, []);
    assert init + [] == init;
    assert last in multiset(b);
    j :| 0 <= j < |b| && b[j] == last;
    assert b == b[..j] + [last] + b[j + 1..];
    WithoutOne(b[..j], last, b[j + 1..]);
    AddedOne(multiset(init), multiset(b[..j] + b[j + 1..]), last);
  }

  lemma AddedOne(a: multiset<nat>, b: multiset<nat>, y: nat)
    requires a + multiset{y} == b + multiset{y}
    ensures a == b
  {
    assert a == (a + multiset{y}) - multiset{y};
    assert b == (b + multiset{y}) - multiset{y};
  }

  lemma {:induction false} AtMostOfPermutation(a: seq<nat>, b: seq<nat>, x: nat)
    requires multiset(a) == multiset(b)
    ensures AtMost(a, x) == AtMost(b, x)
    decreases |a|
  {
    if a == [] {
      assert |b| == |multiset(b)| == 0;
    } else {
      var j := TakeOutLast(a, b);
      AtMostOfPermutation(a[..|a| - 1], b[..j] + b[j + 1..], x);
      AtMostWithout(b[..j], b[j], b[j + 1..], x);
      assert b == b[..j] + [b[j]] + b[j + 1..];
    }
  }

  lemma {:induction false} RankInSorted(sorted: seq<nat>, k: nat, x: nat)
    requires forall i, j :: 0 <= i <= j < |sorted| ==> sorted[i] <= sorted[j]
    requires 0 < k <= |sorted|
    ensures AtMost(sorted, x) >= k <==> sorted[k - 1] <= x
  {
    var n := |sorted| - 1;
    if sorted[n] <= x {
      AtMostAll(sorted, x);
    } else if k <= n {
      RankInSorted(sorted[..n], k, x);
    }
  }

  // ----- quantiles -----

  /** The rank asked for by the quantile num/den: its ceiling, and at least the first. */
  function Rank(count: nat, num: nat, den: nat): (k: nat)
    requires den > 0
    ensures k >= 1
  {
    var k := (count * num + den - 1) / den;
    if k < 1 then 1 else k
  }

  lemma TimesGrows(a: nat, b: nat, c: nat)
    requires b <= c
    ensures a * b <= a * c && (a > 0 && b > 0 ==> a * b > 0)
  {
  }

  lemma {:induction false} RankIsCeiling(count: nat, num: nat, den: nat)
    requires den > 0 && num <= den && count > 0
    ensures Rank(count, num, den) <= count
    ensures Rank(count, num, den) * den >= count * num
    ensures Rank(count, num, den) > 1 ==> (Rank(count, num, den) - 1) * den < count * num
  {
    TimesGrows(count, num, den);
    CeilingBounds(count * num, den, count);
  }

  lemma CeilingBounds(n: nat, den: nat, count: nat)
    requires den > 0 && n <= count * den
    ensures (n + den - 1) / den <= count
    ensures ((n + den - 1) / den) * den >= n
    ensures n > 0 ==> ((n + den - 1) / den - 1) * den < n
  {
    var q := (n + den - 1) / den;
    QuotientReaches(n + den - 1, den, count + 1);
    QuotientReaches(n + den - 1, den, q);
    QuotientReaches(n + den - 1, den, q + 1);
    assert (count + 1) * den == count * den + den;
    assert (q + 1) * den == q * den + den;
    assert (q - 1) * den == q * den - den;
  }

  lemma RankGrows(count: nat, num: nat, num': nat, den: nat)
    requires den > 0 && num <= num'
    ensures Rank(count, num, den) <= Rank(count, num', den)
  {
    var n, n' := count * num + den - 1, count * num' + den - 1;
    assert n <= n' by { assert count * (num' - num) >= 0; }
    QuotientReaches(n, den, n / den);
    QuotientReaches(n', den, n / den);
  }

  /** The bound of the bucket that holds the sample of rank `k`. */
  function BoundAt(samples: seq<nat>, k: nat, i: nat): (r: nat)
    requires i < BUCKETS
    decreases BUCKETS - i
  {
    if AtMost(samples, BUCKET_BOUNDS_NS[i]) >= k || i == BUCKETS - 1 then BUCKET_BOUNDS_NS[i]
    else BoundAt(samples, k, i + 1)
  }

  function Quantile(samples: seq<nat>, num: nat, den: nat): nat
    requires den > 0
  {
    if samples == [] then 0 else BoundAt(samples, Rank(|samples|, num, den), 0)
  }

  /** Where the bound stands: its bucket reaches rank `k` and the one before does not. */
  ghost predicate BoundHolds(samples: seq<nat>, k: nat, i: nat) {
    && i < BUCKETS
    && AtMost(samples, BUCKET_BOUNDS_NS[i]) >= k
    && (i > 0 ==> AtMost(samples, BUCKET_BOUNDS_NS[i - 1]) < k)
  }

  lemma {:induction false} BoundAtHolds(samples: seq<nat>, k: nat, from: nat) returns (i: nat)
    requires forall j :: 0 <= j < |samples| ==> samples[j] <= U64_MAX
    requires k <= |samples| && from < BUCKETS
    requires from > 0 ==> AtMost(samples, BUCKET_BOUNDS_NS[from - 1]) < k
    ensures BoundHolds(samples, k, i) && BoundAt(samples, k, from) == BUCKET_BOUNDS_NS[i]
    decreases BUCKETS - from
  {
    if AtMost(samples, BUCKET_BOUNDS_NS[from]) >= k {
      i := from;
    } else if from == BUCKETS - 1 {
      AtMostAll(samples, BUCKET_BOUNDS_NS[from]);
      assert false;
    } else {
      i := BoundAtHolds(samples, k, from + 1);
    }
  }

  /** The reported quantile is the upper bound of the bucket that holds the sample of its rank in the
      sorted list: that sample is at most the result and above every smaller bound. */
  lemma {:induction false} QuantileInSorted(samples: seq<nat>, sorted: seq<nat>, num: nat, den: nat)
    requires samples != [] && den > 0 && num <= den
    requires forall j :: 0 <= j < |samples| ==> samples[j] <= U64_MAX
    requires IsSortingOf(sorted, samples)
    ensures |sorted| == |samples| && Rank(|samples|, num, den) <= |samples|
    ensures
      var sample := sorted[Rank(|samples|, num, den) - 1];
      && sample <= Quantile(samples, num, den)
      && Quantile(samples, num, den) in BUCKET_BOUNDS_NS
      && forall b :: b in BUCKET_BOUNDS_NS && b < Quantile(samples, num, den) ==> b < sample
  {
    assert |sorted| == |multiset(sorted)| == |samples|;
    RankIsCeiling(|samples|, num, den);
    var k := Rank(|samples|, num, den);
    var i := BoundAtHolds(samples, k, 0);
    BoundsIncrease();
    AtMostOfPermutation(samples, sorted, BUCKET_BOUNDS_NS[i]);
    RankInSorted(sorted, k, BUCKET_BOUNDS_NS[i]);
    if i > 0 {
      AtMostOfPermutation(samples, sorted, BUCKET_BOUNDS_NS[i - 1]);
      RankInSorted(sorted, k, BUCKET_BOUNDS_NS[i - 1]);
    }
  }

  function PowerOfTen(k: nat): nat {
    if k == 0 then 1 else 10 * PowerOfTen(k - 1)
  }

  /** The bounds are 5, 10 and 20 times the powers of ten from 100 up to 10^8, less the last, and the largest
      64-bit word. */
  lemma BoundsAreRound(i: nat)
    requires i < BUCKETS
    ensures |BUCKET_BOUNDS_NS| == 21
    ensures i < 20 ==> BUCKET_BOUNDS_NS[i] == PowerOfTen(i / 3 + 2) * (match i % 3 case 0 => 5 case 1 => 10 case _ => 20)
    ensures i == 20 ==> BUCKET_BOUNDS_NS[i] == 0xFFFF_FFFF_FFFF_FFFF
  {
    assert PowerOfTen(2) == 100;
    assert PowerOfTen(3) == 1000;
    assert PowerOfTen(4) == 10000;
    assert PowerOfTen(5) == 100000;
    assert PowerOfTen(6) == 1000000;
    assert PowerOfTen(7) == 10000000;
    assert PowerOfTen(8) == 100000000;
  }

  lemma BoundsAreClose()
    ensures forall j :: 0 < j < 20 ==> 2 * BUCKET_BOUNDS_NS[j] <= 5 * BUCKET_BOUNDS_NS[j - 1]
    ensures BUCKET_BOUNDS_NS[0] == 500 && BUCKET_BOUNDS_NS[19] == 1000000000
    ensures BUCKET_BOUNDS_NS[20] == 0xFFFF_FFFF_FFFF_FFFF
  {
  }

  ghost predicate Close(sample: nat, r: nat) {
    if sample <= 500 then r == 500
    else if sample <= 1000000000 then sample <= r && 2 * r < 5 * sample
    else r == 0xFFFF_FFFF_FFFF_FFFF
  }

  lemma FirstBoundIsClose(bounds: seq<nat>, sample: nat, i: nat)
    requires |bounds| == 21 && i < 21 && sample <= bounds[i]
    requires forall j, k :: 0 <= j < k < 21 ==> bounds[j] < bounds[k]
    requires forall j :: 0 < j < 20 ==> 2 * bounds[j] <= 5 * bounds[j - 1]
    requires bounds[0] == 500 && bounds[19] == 1000000000 && bounds[20] == 0xFFFF_FFFF_FFFF_FFFF
    requires forall j :: 0 <= j < i ==> bounds[j] < sample
    ensures Close(sample, bounds[i])
  {
    assert i > 0 ==> bounds[0] < sample && bounds[i - 1] < sample;
    assert i < 19 ==> bounds[i] < bounds[19];
  }

  /** So between half a microsecond and a second a reported quantile is less than two and a half times the
      sample it stands for; a smaller sample is reported as 500 and a larger one as the largest word. */
  lemma QuantileIsClose(samples: seq<nat>, sorted: seq<nat>, num: nat, den: nat)
    requires samples != [] && den > 0 && num <= den
    requires forall j :: 0 <= j < |samples| ==> samples[j] <= U64_MAX
    requires IsSortingOf(sorted, samples)
    ensures |sorted| == |samples| && Rank(|samples|, num, den) <= |samples|
    ensures Close(sorted[Rank(|samples|, num, den) - 1], Quantile(samples, num, den))
  {
    QuantileInSorted(samples, sorted, num, den);
    var sample, r := sorted[Rank(|samples|, num, den) - 1], Quantile(samples, num, den);
    var bounds := BUCKET_BOUNDS_NS;
    var i :| 0 <= i < |bounds| && bounds[i] == r;
    BoundsIncrease();
    BoundsAreClose();
    forall j | 0 <= j < i
      ensures bounds[j] < sample
    {
      assert bounds[j] in bounds && bounds[j] < bounds[i];
    }
    FirstBoundIsClose(bounds, sample, i);
  }

  /** A larger quantile is never reported smaller. */
  lemma {:induction false} QuantileGrows(samples: seq<nat>, num: nat, num': nat, den: nat)
    requires den > 0 && num <= num'
    ensures Quantile(samples, num, den) <= Quantile(samples, num', den)
  {
    RankGrows(|samples|, num, num', den);
    BoundGrows(samples, Rank(|samples|, num, den), Rank(|samples|, num', den), 0);
  }

  lemma {:induction false} BoundGrows(samples: seq<nat>, k: nat, k': nat, i: nat)
    requires k <= k' && i < BUCKETS
    ensures BUCKET_BOUNDS_NS[i] <= BoundAt(samples, k, i) <= BoundAt(samples, k', i)
    decreases BUCKETS - i
  {
    BoundsIncrease();
    if i < BUCKETS - 1 {
      BoundGrows(samples, k, k', i + 1);
      BoundGrows(samples, k', k', i + 1);
    }
  }

  /** The first `i` buckets hold `cum` samples, too few to reach rank `k`. */
  ghost predicate Scanned(samples: seq<nat>, k: nat, i: nat, cum: nat) {
    && i <= BUCKETS && cum < k
    && cum == (if i == 0 then 0 else AtMost(samples, BUCKET_BOUNDS_NS[i - 1]))
    && (i < BUCKETS ==> BoundAt(samples, k, 0) == BoundAt(samples, k, i))
  }

  lemma ScanStep(counters: seq<nat>, samples: seq<nat>, k: nat, i: nat, cum: nat)
    requires Tallies(counters, samples) && i < BUCKETS && Scanned(samples, k, i, cum)
    ensures cum + counters[i] >= k ==> BoundAt(samples, k, 0) == BUCKET_BOUNDS_NS[i]
    ensures cum + counters[i] < k ==> Scanned(samples, k, i + 1, cum + counters[i])
  {
    assert cum + counters[i] == AtMost(samples, BUCKET_BOUNDS_NS[i]);
  }

  // ----- the histogram -----

  function Sum(samples: seq<nat>): nat {
    if samples == [] then 0 else Sum(samples[..|samples| - 1]) + samples[|samples| - 1]
  }

  lemma SumAppend(samples: seq<nat>, x: nat)
    ensures Sum(samples + [x]) == Sum(samples) + x
  {
    assert (samples + [x])[..|samples|] == samples;
  }

  lemma {:induction false} SumBetween(samples: seq<nat>, lo: nat, hi: nat)
    requires forall i :: 0 <= i < |samples| ==> lo <= samples[i] <= hi
    ensures |samples| * lo <= Sum(samples) <= |samples| * hi
  {
    if samples != [] {
      var n := |samples| - 1;
      SumBetween(samples[..n], lo, hi);
      assert (n + 1) * lo == n * lo + lo && (n + 1) * hi == n * hi + hi;
    }
  }

  lemma MeanBetween(sum: nat, count: nat, lo: nat, hi: nat)
    requires count > 0 && count * lo <= sum <= count * hi
    ensures lo <= sum / count <= hi
  {
    QuotientReaches(sum, count, lo);
    QuotientReaches(sum, count, hi + 1);
    assert lo * count == count * lo && (hi + 1) * count == count * hi + count;
  }

  datatype Summary = Summary(
    count: nat, minNs: nat, maxNs: nat, meanNs: nat, p50Ns: nat, p90Ns: nat, p99Ns: nat, p999Ns: nat)

  /** The least and the greatest sample; with none, the values that any sample replaces. */
  ghost predicate Extremes(lo: nat, hi: nat, samples: seq<nat>) {
    && (forall i :: 0 <= i < |samples| ==> lo <= samples[i] <= hi && samples[i] <= U64_MAX)
    && (if samples == [] then lo == U64_MAX && hi == 0 else lo in samples && hi in samples)
  }

  lemma ExtremesAppend(lo: nat, hi: nat, samples: seq<nat>, x: nat)
    requires Extremes(lo, hi, samples) && x <= U64_MAX
    ensures Extremes(if x < lo then x else lo, if x > hi then x else hi, samples + [x])
  {
    var all := samples + [x];
    assert all[|samples|] == x;
    assert forall y :: y in samples ==> y in all;
  }

  class LatencyHistogram {
    const buckets: array<nat>
    var minNs: nat
    var maxNs: nat
    var sumNs: nat
    var count: nat
    ghost var samples: seq<nat>

    ghost predicate Valid()
      reads this, buckets
    {
      && buckets.Length == BUCKETS
      && Tallies(buckets[..], samples)
      && Extremes(minNs, maxNs, samples)
      && sumNs == Sum(samples)
      && count == |samples|
    }

    constructor ()
      ensures Valid() && samples == [] && fresh(buckets)
    {
      buckets := new nat[BUCKETS](_ => 0);
      minNs, maxNs, sumNs, count := U64_MAX, 0, 0, 0;
      samples := [];
      new;
      NothingTallied(buckets[..]);
    }

    method Position(latencyNs: nat) returns (idx: nat)
      requires latencyNs <= U64_MAX
      ensures idx == BucketOf(latencyNs)
    {
      idx := 0;
      while idx < BUCKETS - 1 && latencyNs > BUCKET_BOUNDS_NS[idx]
        invariant idx < BUCKETS
        invariant forall j :: 0 <= j < idx ==> BUCKET_BOUNDS_NS[j] < latencyNs
      {
        idx := idx + 1;
      }
      BucketIsFirst(latencyNs, idx);
    }

    method Record(latencyNs: nat)
      requires Valid() && latencyNs <= U64_MAX
      modifies this, buckets
      ensures Valid() && samples == old(samples) + [latencyNs]
    {
      var idx := Position(latencyNs);
      ghost var all, tallies := samples + [latencyNs], buckets[..][idx := buckets[idx] + 1];
      TalliesAppend(buckets[..], samples, latencyNs, idx);
      ExtremesAppend(minNs, maxNs, samples, latencyNs);
      SumAppend(samples, latencyNs);
      buckets[idx] := buckets[idx] + 1;
      if latencyNs < minNs {
        minNs := latencyNs;
      }
      if latencyNs > maxNs {
        maxNs := latencyNs;
      }
      sumNs := sumNs + latencyNs;
      count := count + 1;
      samples := all;
      assert buckets[..] == tallies;
    }

    /** `num/den` is the quantile, between 0 and 1. */
    method QuantileNs(num: nat, den: nat) returns (r: nat)
      requires Valid() && den > 0 && num <= den
      ensures r == Quantile(samples, num, den)
    {
      if count == 0 {
        return 0;
      }
      var target := Rank(count, num, den);
      RankIsCeiling(count, num, den);
      var cum := 0;
      for i := 0 to BUCKETS
        invariant Scanned(samples, target, i, cum)
      {
        ScanStep(buckets[..], samples, target, i, cum);
        cum := cum + buckets[i];
        if cum >= target {
          return BUCKET_BOUNDS_NS[i];
        }
      }
      AtMostAll(samples, BUCKET_BOUNDS_NS[BUCKETS - 1]);
      r := maxNs;
      assert false;
    }

    method Summarise() returns (s: Summary)
      requires Valid()
      ensures s.count == |samples| && s.maxNs == maxNs
      ensures s.p50Ns == Quantile(samples, 50, 100) && s.p90Ns == Quantile(samples, 90, 100)
      ensures s.p99Ns == Quantile(samples, 99, 100) && s.p999Ns == Quantile(samples, 999, 1000)
      ensures s.p50Ns <= s.p90Ns <= s.p99Ns <= s.p999Ns
      ensures samples == [] ==> s == Summary(0, 0, 0, 0, 0, 0, 0, 0)
      ensures samples != [] ==>
                && s.minNs in samples && s.maxNs in samples
                && (forall x :: x in samples ==> s.minNs <= x <= s.maxNs)
                && s.minNs <= s.meanNs <= s.maxNs
                && s.meanNs == Sum(samples) / |samples|
    {
      var p50 := QuantileNs(50, 100);
      var p90 := QuantileNs(90, 100);
      var p99 := QuantileNs(99, 100);
      var p999 := QuantileNs(999, 1000);
      QuantileGrows(samples, 50, 90, 100);
      QuantileGrows(samples, 90, 99, 100);
      QuantileGrows(samples, 990, 999, 1000);
      assert Rank(|samples|, 99, 100) == Rank(|samples|, 990, 1000);
      if count > 0 {
        SumBetween(samples, minNs, maxNs);
        MeanBetween(sumNs, count, minNs, maxNs);
      }
      s := Summary(count, if count == 0 then 0 else minNs, maxNs,
                   if count == 0 then 0 else sumNs / count, p50, p90, p99, p999);
    }
  }
}
