/** Order statistics and bucket counts of a sequence of whole numbers. */
module Percentiles {
  import opened Common
  import Sorting

  ghost predicate Ascending(s: seq<int>) {
    forall i, j :: 0 <= i < j < |s| ==> s[i] <= s[j]
  }

  function Itself(x: int): int { x }

  function Sort(s: seq<int>): seq<int> { Sorting.Sort(s, Itself) }

  lemma SortSorted(s: seq<int>)
    ensures Ascending(Sort(s)) && multiset(Sort(s)) == multiset(s) && |Sort(s)| == |s|
  {
    Sorting.SortOrders(s, Itself);
    Sorting.SortPermutes(s, Itself);
    var sorted := Sort(s);
    forall i, j | 0 <= i < j < |sorted| ensures sorted[i] <= sorted[j] {
      assert Itself(sorted[i]) <= Itself(sorted[j]);
    }
  }

  /** How many values do not exceed `bound`. */
  function CountAtMost(s: seq<int>, bound: int): nat {
    if s == [] then 0 else (if s[0] <= bound then 1 else 0) + CountAtMost(s[1..], bound)
  }

  lemma {:induction false} CountInsert(x: int, s: seq<int>, bound: int)
    ensures CountAtMost(Sorting.Insert(x, s, Itself), bound) == CountAtMost(s, bound) + (if x <= bound then 1 else 0)
  {
    if s != [] && x > s[0] {
      CountInsert(x, s[1..], bound);
    }
  }

  lemma {:induction false} CountSort(s: seq<int>, bound: int)
    ensures CountAtMost(Sort(s), bound) == CountAtMost(s, bound)
  {
    if s != [] {
      CountSort(s[1..], bound);
      CountInsert(s[0], Sort(s[1..]), bound);
    }
  }

  /** In an ascending sequence the k-th value is within a bound exactly when more than k values are. */
  lemma {:induction false} RankWithin(s: seq<int>, k: nat, bound: int)
    requires Ascending(s) && k < |s|
    ensures s[k] <= bound <==> CountAtMost(s, bound) >= k + 1
  {
    if s[0] > bound {
      NoneWithin(s, bound);
    } else if k > 0 {
      RankWithin(s[1..], k - 1, bound);
    }
  }

  lemma {:induction false} NoneWithin(s: seq<int>, bound: int)
    requires forall i :: 0 <= i < |s| ==> s[i] > bound
    ensures CountAtMost(s, bound) == 0
  {
    if s != [] { NoneWithin(s[1..], bound); }
  }

  function CeilDiv(a: nat, b: nat): nat
    requires b > 0
  {
    (a + b - 1) / b
  }

  /** Both ranks exist, and the higher percentile has the higher one. */
  lemma RanksInRange(n: nat)
    requires n > 0
    ensures 1 <= CeilDiv(n * 19, 20) <= CeilDiv(n * 99, 100) <= n
  {
  }

  function Total(s: seq<int>): int {
    if s == [] then 0 else s[0] + Total(s[1..])
  }

  lemma {:induction false} TotalBounds(s: seq<int>, low: int, high: int)
    requires forall i :: 0 <= i < |s| ==> low <= s[i] <= high
    ensures low as real * |s| as real <= Total(s) as real <= high as real * |s| as real
  {
    if s != [] {
      TotalBounds(s[1..], low, high);
      Distribute(low as real, |s[1..]| as real, 1.0);
      Distribute(high as real, |s[1..]| as real, 1.0);
    }
  }

  lemma {:induction false} TotalPush(s: seq<int>, x: int)
    ensures Total(s + [x]) == Total(s) + x
  {
    if s != [] {
      assert (s + [x])[1..] == s[1..] + [x];
      TotalPush(s[1..], x);
    }
  }

  // ---- The summary and the histogram ----------------------------------------

  datatype Summary = NoData | Summary(min: int, avg: real, p95: int, p99: int)

  ghost predicate IsMean(avg: real, values: seq<int>) {
    avg * |values| as real == Total(values) as real
  }

  /** `p` is the smallest value that at least `rank` of the values do not exceed. */
  ghost predicate HasRank(p: int, values: seq<int>, rank: nat) {
    p in values && forall b :: p <= b <==> CountAtMost(values, b) >= rank
  }

  /** `p` is the smallest value that at least `percent` of a hundred of the values do not exceed. */
  ghost predicate IsPercentile(p: int, values: seq<int>, percent: nat) {
    p in values && forall b :: p <= b <==> 100 * CountAtMost(values, b) >= percent * |values|
  }

  /** Counting to a rounded-up rank is comparing shares. */
  lemma RankIsShare(count: nat, n: nat)
    ensures count >= CeilDiv(n * 19, 20) <==> 100 * count >= 95 * n
    ensures count >= CeilDiv(n * 99, 100) <==> 100 * count >= 99 * n
  {
  }

  lemma RanksArePercentiles(p95: int, p99: int, values: seq<int>)
    requires HasRank(p95, values, CeilDiv(|values| * 19, 20)) && HasRank(p99, values, CeilDiv(|values| * 99, 100))
    ensures IsPercentile(p95, values, 95) && IsPercentile(p99, values, 99)
  {
    forall b ensures p95 <= b <==> 100 * CountAtMost(values, b) >= 95 * |values| {
      RankIsShare(CountAtMost(values, b), |values|);
    }
    forall b ensures p99 <= b <==> 100 * CountAtMost(values, b) >= 99 * |values| {
      RankIsShare(CountAtMost(values, b), |values|);
    }
  }

  /** What a summary of `values` must say, with no reference to how it is computed. */
  ghost predicate Summarises(r: Summary, values: seq<int>) {
    if values == [] then r.NoData?
    else
      && r.Summary?
      && r.min in values && (forall v :: v in values ==> r.min <= v)
      && IsMean(r.avg, values)
      && IsPercentile(r.p95, values, 95)
      && IsPercentile(r.p99, values, 99)
  }

  method Mean(values: seq<int>) returns (avg: real)
    requires values != []
    ensures IsMean(avg, values)
  {
    var n := |values|;
    var sum := 0;
    for i := 0 to n
      invariant sum == Total(values[..i])
    {
      TotalPush(values[..i], values[i]);
      assert values[..i + 1] == values[..i] + [values[i]];
      sum := sum + values[i];
    }
    assert values[..n] == values;
    avg := sum as real / n as real;
  }

  /** Sorts, then reads the first value, the mean and the two ranks. */
  method Summarise(values: seq<int>) returns (r: Summary)
    ensures Summarises(r, values)
  {
    if values == [] {
      return NoData;
    }
    var sorted := Sort(values);
    SortSorted(values);
    var n := |values|;
    var avg := Mean(values);
    RanksInRange(n);
    var p95Idx, p99Idx := CeilDiv(n * 19, 20) - 1, CeilDiv(n * 99, 100) - 1;
    r := Summary(sorted[0], avg, sorted[p95Idx], sorted[p99Idx]);
    RankOfSorted(values, p95Idx);
    RankOfSorted(values, p99Idx);
    RanksArePercentiles(r.p95, r.p99, values);
    SortedMembers(values);
  }

  /** The k-th smallest value, told by counting. */
  lemma RankOfSorted(values: seq<int>, k: nat)
    requires k < |values|
    ensures |Sort(values)| == |values|
    ensures HasRank(Sort(values)[k], values, k + 1)
  {
    SortSorted(values);
    SortedMembers(values);
    forall b ensures Sort(values)[k] <= b <==> CountAtMost(values, b) >= k + 1 {
      RankWithin(Sort(values), k, b);
      CountSort(values, b);
    }
  }

  lemma SortedMembers(values: seq<int>)
    ensures |Sort(values)| == |values|
    ensures forall k :: 0 <= k < |values| ==> Sort(values)[k] in values
    ensures forall v :: v in values ==> Sort(values)[0] <= v
  {
    var sorted := Sort(values);
    SortSorted(values);
    forall k | 0 <= k < |values| ensures sorted[k] in values {
      assert sorted[k] in multiset(sorted);
    }
    forall v | v in values ensures sorted[0] <= v {
      assert v in multiset(sorted);
    }
  }

  const BOUNDS: seq<int> := [10, 25, 50, 100, 250, 500, 1000, 5000]

  /** The first bucket a value falls into, or none if it exceeds them all. */
  function BucketOf(value: int): nat
    ensures BucketOf(value) <= |BOUNDS|
    ensures forall i :: 0 <= i < |BOUNDS| ==> (BucketOf(value) <= i <==> value <= BOUNDS[i])
  {
    if value <= 10 then 0 else if value <= 25 then 1 else if value <= 50 then 2 else if value <= 100 then 3
    else if value <= 250 then 4 else if value <= 500 then 5 else if value <= 1000 then 6 else if value <= 5000 then 7
    else 8
  }

  /** The counts of the first `k` buckets together. */
  function Cumulative(counts: seq<nat>, k: nat): nat
    requires k <= |counts|
  {
    if k == 0 then 0 else Cumulative(counts, k - 1) + counts[k - 1]
  }

  lemma {:induction false} CumulativeBump(counts: seq<nat>, j: nat, k: nat)
    requires j < |counts| && k <= |counts|
    ensures Cumulative(counts[j := counts[j] + 1], k) == Cumulative(counts, k) + (if j < k then 1 else 0)
  {
    if k > 0 { CumulativeBump(counts, j, k - 1); }
  }

  /** How many values fall into one bucket. */
  function InBucket(values: seq<int>, bucket: nat): nat {
    if values == [] then 0
    else (if BucketOf(values[0]) == bucket then 1 else 0) + InBucket(values[1..], bucket)
  }

  function HistogramOf(values: seq<int>): seq<nat> {
    seq(|BOUNDS|, j requires 0 <= j => InBucket(values, j))
  }

  lemma {:induction false} InBucketPush(values: seq<int>, x: int, bucket: nat)
    ensures InBucket(values + [x], bucket) == InBucket(values, bucket) + (if BucketOf(x) == bucket then 1 else 0)
  {
    if values != [] {
      assert (values + [x])[1..] == values[1..] + [x];
      InBucketPush(values[1..], x, bucket);
    }
  }

  /** Finds, for each value, the first bucket that admits it, and counts it there only. */
  method Histogram(values: seq<int>) returns (counts: seq<nat>)
    ensures counts == HistogramOf(values)
  {
    counts := [0, 0, 0, 0, 0, 0, 0, 0];
    for n := 0 to |values|
      invariant counts == HistogramOf(values[..n])
    {
      var j := 0;
      while j < |BOUNDS| && values[n] > BOUNDS[j]
        invariant j <= |BOUNDS| && (j > 0 ==> values[n] > BOUNDS[j - 1])
      {
        j := j + 1;
      }
      assert j > 0 ==> BucketOf(values[n]) > j - 1;
      assert j < |BOUNDS| ==> BucketOf(values[n]) <= j;
      assert values[..n + 1] == values[..n] + [values[n]];
      forall k: nat | k < |BOUNDS|
        ensures InBucket(values[..n + 1], k) == InBucket(values[..n], k) + (if j == k then 1 else 0)
      {
        InBucketPush(values[..n], values[n], k);
      }
      if j < |BOUNDS| {
        counts := counts[j := counts[j] + 1];
      }
    }
    assert values[..|values|] == values;
  }

  /** Adding up buckets up to a bound counts the values within that bound. */
  lemma CumulativeCounts(values: seq<int>, i: nat)
    requires i < 8
    ensures |HistogramOf(values)| == 8
    ensures Cumulative(HistogramOf(values), i + 1)
            == CountAtMost(values, [10, 25, 50, 100, 250, 500, 1000, 5000][i])
  {
    CumulativeOfBounds(values, i);
  }

  lemma {:induction false} CumulativeOfBounds(values: seq<int>, i: nat)
    requires i < |BOUNDS|
    ensures Cumulative(HistogramOf(values), i + 1) == CountAtMost(values, BOUNDS[i])
  {
    if values == [] {
      CumulativeOfZeros(HistogramOf(values), i + 1);
    } else {
      var rest := HistogramOf(values[1..]);
      CumulativeOfBounds(values[1..], i);
      var j := BucketOf(values[0]);
      if j < |BOUNDS| {
        CumulativeBump(rest, j, i + 1);
        assert HistogramOf(values) == rest[j := rest[j] + 1];
      } else {
        assert HistogramOf(values) == rest;
      }
    }
  }

  lemma {:induction false} CumulativeOfZeros(counts: seq<nat>, k: nat)
    requires k <= |counts| && forall i :: 0 <= i < |counts| ==> counts[i] == 0
    ensures Cumulative(counts, k) == 0
  {
    if k > 0 { CumulativeOfZeros(counts, k - 1); }
  }

  /** The two reports on the same values agree at every bucket bound. */
  lemma PercentilesMatchHistogram(values: seq<int>, r: Summary, i: nat)
    requires values != [] && Summarises(r, values) && i < 8
    ensures var bound := [10, 25, 50, 100, 250, 500, 1000, 5000][i];
            var within := Cumulative(HistogramOf(values), i + 1);
            && (r.p95 <= bound <==> 100 * within >= 95 * |values|)
            && (r.p99 <= bound <==> 100 * within >= 99 * |values|)
  {
    CumulativeCounts(values, i);
  }

  /** min <= p95 <= p99 <= every upper bound of the values, and the mean lies between the extremes. */
  lemma SummaryOrdered(values: seq<int>, r: Summary, max: int)
    requires values != [] && Summarises(r, values)
    requires forall v :: v in values ==> v <= max
    ensures r.min <= r.p95 <= r.p99 <= max
    ensures r.min as real <= r.avg <= max as real
  {
    HigherPercentile(values, r.p95, 95, r.p99, 99);
    MeanWithin(values, r.avg, r.min, max);
  }

  lemma HigherPercentile(values: seq<int>, p: int, low: nat, q: int, high: nat)
    requires low <= high && IsPercentile(p, values, low) && IsPercentile(q, values, high)
    ensures p <= q
  {
    assert 100 * CountAtMost(values, q) >= high * |values|;
    assert high * |values| >= low * |values|;
  }

  lemma MeanWithin(values: seq<int>, avg: real, low: int, high: int)
    requires values != [] && IsMean(avg, values)
    requires forall v :: v in values ==> low <= v <= high
    ensures low as real <= avg <= high as real
  {
    var n, total := |values| as real, Total(values) as real;
    assert n > 0.0;
    TotalWithin(values, low, high);
    Between(low as real, avg, high as real, n, total);
  }

  lemma TotalWithin(values: seq<int>, low: int, high: int)
    requires forall v :: v in values ==> low <= v <= high
    ensures low as real * |values| as real <= Total(values) as real <= high as real * |values| as real
  {
    forall i | 0 <= i < |values| ensures low <= values[i] <= high {
      assert values[i] in values;
    }
    TotalBounds(values, low, high);
  }

  lemma Between(low: real, x: real, high: real, n: real, total: real)
    requires n > 0.0 && x * n == total && low * n <= total <= high * n
    ensures low <= x <= high
  {
  }
}
