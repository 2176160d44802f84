/** The interpolated percentile and the latency histogram of `scripts/alb_latency_report.py`. */
module Quantiles {
  import opened Sorting
  import opened Wrappers

  ghost predicate Sorted(s: seq<real>) {
    forall i, j :: 0 <= i <= j < |s| ==> s[i] <= s[j]
  }

  // ----- sorting samples -----

  function Ascending(): (real, real) -> bool {
    (x: real, y: real) => x <= y
  }

  /** `sorted(values)`. */
  function Sort(values: seq<real>): seq<real> {
    SortBy(values, Ascending())
  }

  lemma SamplesAreSorted(values: seq<real>)
    ensures Sorted(Sort(values)) && multiset(Sort(values)) == multiset(values) && |Sort(values)| == |values|
  {
    hide SortBy;
    SortIsSorted(values, Ascending());
  }

  // ----- the percentile -----

  /** Linear interpolation between the two samples around the position. */
  function Between(s: seq<real>, position: real): real
    requires 0.0 <= position <= (|s| - 1) as real
  {
    var low := position.Floor;
    var high := if low + 1 <= |s| - 1 then low + 1 else |s| - 1;
    if low == high then s[low]
    else s[low] + (s[high] - s[low]) * (position - low as real)
  }

  function Percentile(s: seq<real>, quantile: real): Option<real>
    requires 0.0 <= quantile <= 1.0
  {
    if s == [] then None
    else if |s| == 1 then Some(s[0])
    else
      PositionInRange(|s| - 1, quantile);
      Some(Between(s, (|s| - 1) as real * quantile))
  }

  lemma PositionInRange(n: nat, q: real)
    requires 0.0 <= q <= 1.0
    ensures 0.0 <= n as real * q <= n as real
  {
    Scale(n as real, q, 1.0);
    Scale(n as real, 0.0, q);
  }

  lemma Scale(n: real, p: real, q: real)
    requires n >= 0.0 && p <= q
    ensures n * p <= n * q
  {
    assert n * (q - p) >= 0.0;
  }

  /** Between two samples the value stays between them, and at both ends it meets them. */
  lemma Blend(a: real, b: real, t: real)
    requires a <= b && 0.0 <= t <= 1.0
    ensures a <= a + (b - a) * t <= b
  {
    Scale(b - a, 0.0, t);
    Scale(b - a, t, 1.0);
  }

  lemma FloorParts(x: real)
    requires x >= 0.0
    ensures 0 <= x.Floor && 0.0 <= x - x.Floor as real < 1.0
  {
  }

  lemma BetweenBounds(s: seq<real>, p: real)
    requires Sorted(s) && 0.0 <= p <= (|s| - 1) as real
    ensures p.Floor <= |s| - 1
    ensures s[p.Floor] <= Between(s, p)
    ensures p.Floor + 1 <= |s| - 1 ==> Between(s, p) <= s[p.Floor + 1]
    ensures p.Floor == |s| - 1 ==> Between(s, p) == s[|s| - 1]
  {
    FloorParts(p);
    var low := p.Floor;
    if low + 1 <= |s| - 1 { Blend(s[low], s[low + 1], p - low as real); }
  }

  lemma BetweenAt(s: seq<real>, p: real, low: nat) returns (a: real, d: real, x: real)
    requires 0.0 <= p <= (|s| - 1) as real && low == p.Floor && low + 1 < |s|
    ensures a == s[low] && d == s[low + 1] - s[low] && x == p - low as real && Between(s, p) == a + d * x
  {
    a, d, x := s[low], s[low + 1] - s[low], p - low as real;
  }

  lemma SameCell(s: seq<real>, p: real, q: real, low: nat)
    requires 0.0 <= p <= q <= (|s| - 1) as real && low == p.Floor == q.Floor && low + 1 < |s| && s[low] <= s[low + 1]
    ensures Between(s, p) <= Between(s, q)
  {
    hide Between;
    var a, d, x := BetweenAt(s, p, low);
    var a', d', y := BetweenAt(s, q, low);
    Rise(a, d, x, a', d', y, Between(s, p), Between(s, q));
  }

  lemma Rise(a: real, d: real, x: real, a': real, d': real, y: real, u: real, v: real)
    requires d >= 0.0 && x <= y && a == a' && d == d' && u == a + d * x && v == a' + d' * y
    ensures u <= v
  {
    Scale(d, x, y);
  }

  lemma BetweenIsMonotone(s: seq<real>, p: real, q: real)
    requires Sorted(s) && 0.0 <= p <= q <= (|s| - 1) as real
    ensures Between(s, p) <= Between(s, q)
  {
    hide Between;
    BetweenBounds(s, p);
    BetweenBounds(s, q);
    var low := p.Floor;
    FloorParts(p);
    assert low <= q.Floor;
    if low == q.Floor && low + 1 < |s| {
      SameCell(s, p, q, low);
    } else if low < q.Floor {
      assert s[low + 1] <= s[q.Floor];
    }
  }

  lemma BetweenStaysInside(s: seq<real>, p: real)
    requires Sorted(s) && 0.0 <= p <= (|s| - 1) as real
    ensures s[0] <= Between(s, p) <= s[|s| - 1]
  {
    hide Between;
    FloorParts(p);
    BetweenBounds(s, p);
  }

  lemma PercentileAt(s: seq<real>, q: real, x: real)
    requires 0.0 <= q <= 1.0 && |s| > 1 && x == (|s| - 1) as real * q
    ensures 0.0 <= x <= (|s| - 1) as real && Percentile(s, q) == Some(Between(s, x))
  {
    hide Between;
    PositionInRange(|s| - 1, q);
  }

  /**
   The percentile exactly: at position `k + x` of the samples, counted from zero, it is the `k`-th
   sample and, `x` of the way, the next one.
   */
  lemma {:induction false} PercentileIs(s: seq<real>, q: real, k: nat, x: real)
    requires |s| > 1 && 0.0 <= q <= 1.0 && 0.0 <= x < 1.0 && (|s| - 1) as real * q == k as real + x
    ensures k < |s| && (x > 0.0 ==> k + 1 < |s|)
    ensures Percentile(s, q) == Some(if x == 0.0 then s[k] else (1.0 - x) * s[k] + x * s[k + 1])
  {
    hide Between, Percentile;
    PercentileAt(s, q, k as real + x);
    FloorIs(k, x);
    BetweenIs(s, k, x);
  }

  lemma FloorIs(k: nat, x: real)
    requires 0.0 <= x < 1.0
    ensures (k as real + x).Floor == k
  {
  }

  lemma BetweenIs(s: seq<real>, k: nat, x: real)
    requires 0.0 <= x < 1.0 && 0.0 <= k as real + x <= (|s| - 1) as real
    ensures k < |s| && (x > 0.0 ==> k + 1 < |s|)
    ensures Between(s, k as real + x) == if x == 0.0 then s[k] else (1.0 - x) * s[k] + x * s[k + 1]
  {
    FloorIs(k, x);
    if x > 0.0 { Mixed(s[k], s[k + 1], x); }
  }

  lemma Mixed(a: real, b: real, x: real)
    ensures a + (b - a) * x == (1.0 - x) * a + x * b
  {
  }

  lemma PercentileOfOne(s: seq<real>, q: real)
    requires |s| == 1 && 0.0 <= q <= 1.0
    ensures Percentile(s, q) == Some(s[0])
  {
  }

  /** On sorted input a larger quantile never gives a smaller value, and none exceeds the largest sample. */
  lemma PercentileIsMonotone(s: seq<real>, p: real, q: real)
    requires Sorted(s) && s != [] && 0.0 <= p <= q <= 1.0
    ensures Percentile(s, p).Some? && Percentile(s, q).Some?
    ensures s[0] <= Percentile(s, p).value <= Percentile(s, q).value <= s[|s| - 1]
  {
    hide Between, Sorted;
    if |s| > 1 {
      var n := (|s| - 1) as real;
      PercentileAt(s, p, n * p);
      PercentileAt(s, q, n * q);
      Scale(n, p, q);
      PositionsAgree(s, n * p, n * q);
    }
  }

  lemma PositionsAgree(s: seq<real>, x: real, y: real)
    requires Sorted(s) && 0.0 <= x <= y <= (|s| - 1) as real
    ensures s[0] <= Between(s, x) <= Between(s, y) <= s[|s| - 1]
  {
    hide Between, Sorted;
    BetweenIsMonotone(s, x, y);
    BetweenStaysInside(s, x);
    BetweenStaysInside(s, y);
  }

  // ----- the histogram -----

  /** The bucket of a value: how many upper edges lie strictly below it. */
  ghost predicate IsBucket(edges: seq<real>, x: real, b: nat) {
    && b <= |edges|
    && (forall i :: 0 <= i < b ==> edges[i] < x)
    && (forall i :: b <= i < |edges| ==> x <= edges[i])
  }

  /** `bisect_left`. */
  method BisectLeft(edges: seq<real>, x: real) returns (b: nat)
    requires Sorted(edges)
    ensures IsBucket(edges, x, b)
  {
    var lo, hi := 0, |edges|;
    while lo < hi
      invariant 0 <= lo <= hi <= |edges|
      invariant forall i :: 0 <= i < lo ==> edges[i] < x
      invariant forall i :: hi <= i < |edges| ==> x <= edges[i]
    {
      var mid := (lo + hi) / 2;
      if edges[mid] < x {
        lo := mid + 1;
      } else {
        hi := mid;
      }
    }
    b := lo;
  }

  /** How many of the values belong to a bucket. */
  ghost function InBucket(values: seq<real>, edges: seq<real>, b: nat): nat {
    if values == [] then 0
    else InBucket(values[..|values| - 1], edges, b) + if IsBucket(edges, values[|values| - 1], b) then 1 else 0
  }

  function Total(counts: seq<nat>): nat {
    if counts == [] then 0 else Total(counts[..|counts| - 1]) + counts[|counts| - 1]
  }

  lemma {:induction false} TotalOfZeros(n: nat)
    ensures Total(seq(n, _ => 0)) == 0
  {
    if n > 0 {
      assert seq(n, _ => 0)[..n - 1] == seq(n - 1, _ => 0);
      TotalOfZeros(n - 1);
    }
  }

  lemma {:induction false} TotalOfUpdate(counts: seq<nat>, k: nat, x: nat)
    requires k < |counts|
    ensures Total(counts[k := x]) + counts[k] == Total(counts) + x
    decreases |counts|
  {
    var n := |counts| - 1;
    if k == n {
      assert counts[k := x][..n] == counts[..n];
    } else {
      assert counts[k := x][..n] == counts[..n][k := x];
      TotalOfUpdate(counts[..n], k, x);
    }
  }

  lemma OneBucket(edges: seq<real>, x: real, b: nat, c: nat)
    requires IsBucket(edges, x, b) && IsBucket(edges, x, c)
    ensures b == c
  {
    assert b < |edges| ==> x <= edges[b];
    assert c < |edges| ==> x <= edges[c];
  }

  lemma {:induction false} InBucketNext(values: seq<real>, i: nat, edges: seq<real>, b: nat)
    requires i < |values|
    ensures InBucket(values[..i + 1], edges, b)
         == InBucket(values[..i], edges, b) + if IsBucket(edges, values[i], b) then 1 else 0
  {
    hide IsBucket;
    assert values[..i + 1][..i] == values[..i];
  }

  /** `histogram`: every value in the one bucket whose edges enclose it. */
  method Histogram(values: seq<real>, edges: seq<real>) returns (counts: seq<nat>)
    requires Sorted(edges)
    ensures |counts| == |edges| + 1 && Total(counts) == |values|
    ensures forall b :: 0 <= b <= |edges| ==> counts[b] == InBucket(values, edges, b)
  {
    hide Sorted, IsBucket, InBucket, Total;
    counts := seq(|edges| + 1, _ => 0);
    TotalOfZeros(|edges| + 1);
    forall b: nat ensures InBucket(values[..0], edges, b) == 0 { NoneInBucket(edges, b); }
    var i := 0;
    while i < |values|
      invariant 0 <= i <= |values| && |counts| == |edges| + 1 && Total(counts) == i
      invariant forall b :: 0 <= b <= |edges| ==> counts[b] == InBucket(values[..i], edges, b)
    {
      var k := BisectLeft(edges, values[i]);
      BucketBound(edges, values[i], k);
      TotalOfUpdate(counts, k, counts[k] + 1);
      forall b | 0 <= b <= |edges|
        ensures InBucket(values[..i + 1], edges, b) == InBucket(values[..i], edges, b) + if b == k then 1 else 0
      {
        InBucketNext(values, i, edges, b);
        if IsBucket(edges, values[i], b) { OneBucket(edges, values[i], b, k); }
      }
      counts := counts[k := counts[k] + 1];
      i := i + 1;
    }
    assert values[..i] == values;
  }

  lemma NoneInBucket(edges: seq<real>, b: nat)
    ensures InBucket([], edges, b) == 0
  {
  }

  lemma BucketBound(edges: seq<real>, x: real, b: nat)
    requires IsBucket(edges, x, b)
    ensures b <= |edges|
  {
  }
}
