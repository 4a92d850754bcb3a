/** Latency distributions: sorted samples, nearest-rank percentiles and the floor mean. Samples are
    integers; nothing below needs them to be non-negative. */
module Latency {
  import opened Arithmetic
  import opened StableSort

  datatype Distribution = Distribution(samples: nat, min: int, p50: int, p95: int, max: int, mean: int)

  predicate Ascending(a: int, b: int) {
    a <= b
  }

  function Sum(s: seq<int>): int {
    if s == [] then 0 else Sum(s[..|s| - 1]) + s[|s| - 1]
  }

  /** The rank is rounded up; the subtraction saturates at zero and the index is clamped. */
  function NearestRank(sorted: seq<int>, percentile: nat): int
    requires sorted != []
  {
    var rank := (percentile * |sorted| + 99) / 100;
    var position := if rank == 0 then 0 else rank - 1;
    sorted[if position < |sorted| - 1 then position else |sorted| - 1]
  }

  function Summarize(samples: seq<int>): Distribution
    requires samples != []
  {
    hide Sort, NearestRank, Sum;
    SortPermutes(samples, Ascending);
    var sorted := Sort(samples, Ascending);
    Distribution(
      |samples|, sorted[0], NearestRank(sorted, 50), NearestRank(sorted, 95), sorted[|sorted| - 1],
      Sum(sorted) / |sorted|)
  }

  /** Sort the samples in place and read the distribution off them. */
  method FromSamples(samples: array<int>) returns (d: Distribution)
    requires samples.Length > 0
    modifies samples
    ensures d == Summarize(old(samples[..]))
    ensures samples[..] == Sort(old(samples[..]), Ascending)
  {
    hide Sort, NearestRank;
    SortPermutes(samples[..], Ascending);
    var sorted := Sort(samples[..], Ascending);
    forall i | 0 <= i < samples.Length {
      samples[i] := sorted[i];
    }
    assert samples[..] == sorted;
    var sum := 0;
    for i := 0 to samples.Length
      invariant sum == Sum(sorted[..i])
    {
      assert sorted[..i + 1][..i] == sorted[..i];
      sum := sum + samples[i];
    }
    assert sorted[..samples.Length] == sorted;
    var count := samples.Length;
    d := Distribution(
      count, samples[0], NearestRank(samples[..], 50), NearestRank(samples[..], 95), samples[count - 1], sum / count);
  }

  // ---------- What a percentile means ----------

  function NotAbove(v: int): int -> bool {
    (x: int) => x <= v
  }

  /** How many samples are at most `v`. */
  function AtMost(samples: seq<int>, v: int): nat {
    |Filter(samples, NotAbove(v))|
  }

  /** At least `percentile` per cent of the samples are at most `v`. */
  ghost predicate Reaches(samples: seq<int>, percentile: nat, v: int) {
    100 * AtMost(samples, v) >= percentile * |samples|
  }

  lemma AscendingIsTotalOrder()
    ensures TotalOrder(Ascending)
  {
  }

  lemma {:induction false} FilterAllOrNone(s: seq<int>, v: int)
    ensures |Filter(s, NotAbove(v))| <= |s|
    ensures (forall i :: 0 <= i < |s| ==> s[i] <= v) ==> |Filter(s, NotAbove(v))| == |s|
    ensures (forall i :: 0 <= i < |s| ==> s[i] > v) ==> |Filter(s, NotAbove(v))| == 0
    decreases |s|
  {
    if s != [] {
      FilterAllOrNone(s[..|s| - 1], v);
    }
  }

  lemma CountAtLeastTo(sorted: seq<int>, i: nat, v: int)
    requires SortedBy(sorted, Ascending) && i < |sorted| && sorted[i] <= v
    ensures AtMost(sorted, v) > i
  {
    var low := sorted[..i + 1];
    forall j | 0 <= j < |low|
      ensures low[j] <= v
    {
      assert j == i || Ascending(sorted[j], sorted[i]);
    }
    FilterAllOrNone(low, v);
    FilterConcat(low, sorted[i + 1..], NotAbove(v));
    assert sorted == low + sorted[i + 1..];
  }

  lemma CountAtMostTo(sorted: seq<int>, i: nat, v: int)
    requires SortedBy(sorted, Ascending) && i < |sorted| && v < sorted[i]
    ensures AtMost(sorted, v) <= i
  {
    var low, high := sorted[..i], sorted[i..];
    forall j | 0 <= j < |high|
      ensures high[j] > v
    {
      assert j == 0 || Ascending(sorted[i], sorted[i + j]);
    }
    FilterAllOrNone(low, v);
    FilterAllOrNone(high, v);
    FilterConcat(low, high, NotAbove(v));
    assert sorted == low + high;
  }

  lemma RankBounds(percentile: nat, n: nat)
    requires 1 <= percentile <= 100 && n > 0
    ensures var rank := (percentile * n + 99) / 100;
            1 <= rank <= n && percentile * n <= 100 * rank < percentile * n + 100
  {
    ProductMonotone(1, percentile, n);
    ProductMonotone(percentile, 100, n);
    RoundedUp(percentile * n);
  }

  lemma RoundedUp(m: nat)
    ensures m <= 100 * ((m + 99) / 100) < m + 100
  {
  }

  /** On sorted samples the nearest rank is in bounds and gives the least sample that at least the given
      percentage of samples do not exceed. */
  lemma NearestRankExact(sorted: seq<int>, percentile: nat)
    requires sorted != [] && SortedBy(sorted, Ascending) && 1 <= percentile <= 100
    ensures var v := NearestRank(sorted, percentile);
            && v in sorted
            && Reaches(sorted, percentile, v)
            && forall w :: w < v ==> !Reaches(sorted, percentile, w)
  {
    RankBounds(percentile, |sorted|);
    var rank := (percentile * |sorted| + 99) / 100;
    var v := sorted[rank - 1];
    assert NearestRank(sorted, percentile) == v;
    CountAtLeastTo(sorted, rank - 1, v);
    forall w | w < v
      ensures !Reaches(sorted, percentile, w)
    {
      CountAtMostTo(sorted, rank - 1, w);
    }
  }

  lemma AtMostForgetsOrder(s: seq<int>, t: seq<int>, v: int)
    requires multiset(s) == multiset(t)
    ensures AtMost(s, v) == AtMost(t, v)
  {
    var a, b := Filter(s, NotAbove(v)), Filter(t, NotAbove(v));
    forall x
      ensures multiset(a)[x] == multiset(b)[x]
    {
      FilterCount(s, NotAbove(v), x);
      FilterCount(t, NotAbove(v), x);
    }
    assert multiset(a) == multiset(b);
    SameLength(a, b);
  }

  lemma SortedSamples(samples: seq<int>)
    ensures var sorted := Sort(samples, Ascending);
            && SortedBy(sorted, Ascending) && |sorted| == |samples|
            && (forall x :: x in sorted <==> x in samples)
            && forall v :: AtMost(sorted, v) == AtMost(samples, v)
  {
    AscendingIsTotalOrder();
    SortSorts(samples, Ascending);
    SortPermutes(samples, Ascending);
    SortMembers(samples, Ascending);
    forall v
      ensures AtMost(Sort(samples, Ascending), v) == AtMost(samples, v)
    {
      AtMostForgetsOrder(Sort(samples, Ascending), samples, v);
    }
  }

  ghost predicate IsPercentile(samples: seq<int>, percentile: nat, v: int) {
    && v in samples
    && Reaches(samples, percentile, v)
    && forall w :: w < v ==> !Reaches(samples, percentile, w)
  }

  lemma {:induction false} SumBounds(s: seq<int>, low: int, high: int)
    requires forall i :: 0 <= i < |s| ==> low <= s[i] <= high
    ensures |s| * low <= Sum(s) <= |s| * high
    decreases |s|
  {
    if s != [] {
      SumBounds(s[..|s| - 1], low, high);
      assert |s| * low == (|s| - 1) * low + low && |s| * high == (|s| - 1) * high + high;
    }
  }

  lemma FloorBounds(total: int, n: nat, low: int, high: int)
    requires n > 0 && n * low <= total <= n * high
    ensures low <= total / n <= high
  {
    var q := total / n;
    assert q * n <= total < q * n + n;
    if q < low {
      ProductMonotone(q + 1, low, n);
    } else if q > high {
      ProductMonotone(high + 1, q, n);
    }
  }

  lemma PercentileOfSamples(samples: seq<int>, percentile: nat)
    requires samples != [] && 1 <= percentile <= 100
    ensures Sort(samples, Ascending) != []
    ensures IsPercentile(samples, percentile, NearestRank(Sort(samples, Ascending), percentile))
  {
    hide Sort, NearestRank, AtMost;
    var sorted := Sort(samples, Ascending);
    SortedSamples(samples);
    NearestRankExact(sorted, percentile);
    forall w
      ensures Reaches(sorted, percentile, w) <==> Reaches(samples, percentile, w)
    {
    }
  }

  lemma Extremes(sorted: seq<int>)
    requires SortedBy(sorted, Ascending) && sorted != []
    ensures forall i :: 0 <= i < |sorted| ==> sorted[0] <= sorted[i] <= sorted[|sorted| - 1]
  {
    forall i | 0 <= i < |sorted|
      ensures sorted[0] <= sorted[i] <= sorted[|sorted| - 1]
    {
      assert i == 0 || Ascending(sorted[0], sorted[i]);
      assert i == |sorted| - 1 || Ascending(sorted[i], sorted[|sorted| - 1]);
    }
  }

  /** A higher percentage is reached no earlier. */
  lemma PercentilesOrdered(samples: seq<int>, p: nat, q: nat, v: int, w: int)
    requires p <= q && IsPercentile(samples, p, v) && IsPercentile(samples, q, w)
    ensures v <= w
  {
    hide AtMost;
    ProductMonotone(p, q, |samples|);
    assert Reaches(samples, p, w);
  }

  /** What the distribution says about the samples as they were handed in: true extremes, true
      percentiles, and everything in order. */
  lemma SummaryExact(samples: seq<int>)
    requires samples != []
    ensures var d := Summarize(samples);
            && d.samples == |samples|
            && d.min in samples && d.max in samples
            && (forall x :: x in samples ==> d.min <= x <= d.max)
            && IsPercentile(samples, 50, d.p50) && IsPercentile(samples, 95, d.p95)
            && d.min <= d.p50 <= d.p95 <= d.max
            && d.min <= d.mean <= d.max
  {
    hide Sort, NearestRank, Reaches, Sum;
    var d, sorted := Summarize(samples), Sort(samples, Ascending);
    SortedSamples(samples);
    Extremes(sorted);
    assert sorted[0] in sorted && sorted[|sorted| - 1] in sorted;
    forall x | x in samples
      ensures d.min <= x <= d.max
    {
      var i :| 0 <= i < |sorted| && sorted[i] == x;
    }
    PercentileOfSamples(samples, 50);
    PercentileOfSamples(samples, 95);
    PercentilesOrdered(samples, 50, 95, d.p50, d.p95);
    SumBounds(sorted, d.min, d.max);
    FloorBounds(Sum(sorted), |sorted|, d.min, d.max);
  }

  lemma {:induction false} SumConcat(a: seq<int>, b: seq<int>)
    ensures Sum(a + b) == Sum(a) + Sum(b)
    decreases |b|
  {
    if b == [] {
      assert a + b == a;
    } else {
      assert (a + b)[..|a + b| - 1] == a + b[..|b| - 1];
      SumConcat(a, b[..|b| - 1]);
    }
  }

  lemma {:induction false} SumForgetsOrder(s: seq<int>, t: seq<int>)
    requires multiset(s) == multiset(t)
    ensures Sum(s) == Sum(t)
    decreases |s|
  {
    if s == [] {
      assert |t| == |multiset(t)| == 0;
    } else {
      hide Sum;
      var before, after := TakeOut(s, t);
      SumForgetsOrder(s[1..], before + after);
      assert s == [s[0]] + s[1..];
      SumConcat([s[0]], s[1..]);
      SumConcat(before, after);
      SumConcat(before + [s[0]], after);
      SumConcat(before, [s[0]]);
    }
  }

  /** The mean is the sum of the samples over their number, rounded down. */
  lemma MeanExact(samples: seq<int>)
    requires samples != []
    ensures var mean, n := Summarize(samples).mean, |samples|;
            mean * n <= Sum(samples) < mean * n + n
  {
    hide Sort, NearestRank, Sum;
    SortPermutes(samples, Ascending);
    SumForgetsOrder(Sort(samples, Ascending), samples);
    QuotientRoundsDown(Sum(samples), |samples|);
  }

  lemma QuotientRoundsDown(total: int, n: nat)
    requires n > 0
    ensures total / n * n <= total < total / n * n + n
  {
  }

  /** The whole distribution is the same for any rearrangement of the samples. */
  lemma SummaryForgetsOrder(samples: seq<int>, rearranged: seq<int>)
    requires samples != [] && rearranged != [] && multiset(samples) == multiset(rearranged)
    ensures Summarize(samples) == Summarize(rearranged)
  {
    hide Sort, NearestRank, Sum;
    AscendingIsTotalOrder();
    SortForgetsOrder(samples, rearranged, Ascending);
    SameLength(samples, rearranged);
  }
}
