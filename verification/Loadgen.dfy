/** The load generator's summary: percentiles by linear interpolation, over the reals. */
module Loadgen {
  import opened Text

  ghost predicate Ascending(s: seq<real>) { forall i, j :: 0 <= i < j < |s| ==> s[i] <= s[j] }

  function Rank(n: nat, percentile: real): real
    requires n > 0
  {
    percentile / 100.0 * (n - 1) as real
  }

  function CalculatePercentile(s: seq<real>, percentile: real): real
    requires 0.0 <= percentile <= 100.0
  {
    if s == [] then 0.0
    else if |s| == 1 then s[0]
    else
      RankInRange(|s|, percentile);
      At(s, Rank(|s|, percentile))
  }

  /** The value at a fractional rank. */
  function At(s: seq<real>, rank: real): real
    requires |s| > 0 && 0.0 <= rank <= (|s| - 1) as real
  {
    var lower := rank.Floor;
    var upper := if lower + 1 < |s| - 1 then lower + 1 else |s| - 1;
    var weight := rank - lower as real;
    s[lower] * (1.0 - weight) + s[upper] * weight
  }

  lemma ScaleLess(a: real, b: real, c: real)
    requires a <= b && c >= 0.0
    ensures a * c <= b * c
  {}

  lemma RankInRange(n: nat, percentile: real)
    requires n > 0 && 0.0 <= percentile <= 100.0
    ensures 0.0 <= Rank(n, percentile) <= (n - 1) as real
  {
    ScaleLess(percentile / 100.0, 1.0, (n - 1) as real);
    ScaleLess(0.0, percentile / 100.0, (n - 1) as real);
  }

  lemma RankGrows(n: nat, p: real, q: real)
    requires n > 0 && p <= q
    ensures Rank(n, p) <= Rank(n, q)
  {
    ScaleLess(p / 100.0, q / 100.0, (n - 1) as real);
  }

  /** A weighted mean lies between its two values, nearer the second as its weight grows. */
  lemma Between(a: real, b: real, v: real, w: real)
    requires a <= b && 0.0 <= v <= w <= 1.0
    ensures a <= a * (1.0 - v) + b * v <= a * (1.0 - w) + b * w <= b
  {
    var d := b - a;
    assert a * (1.0 - v) + b * v == a + d * v;
    assert a * (1.0 - w) + b * w == a + d * w;
    ScaleLess(v, w, d);
    ScaleLess(w, 1.0, d);
  }

  /** Within a segment the value stays between its two ends. */
  lemma AtInSegment(s: seq<real>, rank: real)
    requires |s| > 0 && Ascending(s) && 0.0 <= rank <= (|s| - 1) as real
    ensures var k := rank.Floor;
            s[k] <= At(s, rank) <= s[if k + 1 < |s| then k + 1 else k]
  {
    var k := rank.Floor;
    var upper := if k + 1 < |s| - 1 then k + 1 else |s| - 1;
    var w := rank - k as real;
    Between(s[k], s[upper], w, w);
  }

  lemma AtGrows(s: seq<real>, r: real, t: real)
    requires |s| > 0 && Ascending(s) && 0.0 <= r <= t <= (|s| - 1) as real
    ensures At(s, r) <= At(s, t)
  {
    var k, m := r.Floor, t.Floor;
    if k == m {
      Between(s[k], s[if k + 1 < |s| - 1 then k + 1 else |s| - 1], r - k as real, t - k as real);
    } else {
      assert k + 1 <= m;
      AtInSegment(s, r);
      AtInSegment(s, t);
    }
  }

  /** Monotone in the percentile, across segment boundaries. */
  lemma PercentileGrows(s: seq<real>, p: real, q: real)
    requires Ascending(s) && 0.0 <= p <= q <= 100.0
    ensures CalculatePercentile(s, p) <= CalculatePercentile(s, q)
  {
    if |s| > 1 {
      RankInRange(|s|, p);
      RankInRange(|s|, q);
      RankGrows(|s|, p, q);
      AtGrows(s, Rank(|s|, p), Rank(|s|, q));
    }
  }

  /** At an exact rank it is the element there; so it starts at the first and ends at the last. */
  lemma PercentileAtRank(s: seq<real>, k: nat, p: real)
    requires k < |s| && 0.0 <= p <= 100.0 && Rank(|s|, p) == k as real
    ensures CalculatePercentile(s, p) == s[if |s| == 1 then 0 else k]
  {
    if |s| > 1 {
      assert (k as real).Floor == k;
      assert CalculatePercentile(s, p) == At(s, k as real);
    }
  }

  /** Between two ranks it moves from one element to the next in proportion. */
  lemma PercentileBetweenRanks(s: seq<real>, k: nat, p: real)
    requires k + 1 < |s| && 0.0 <= p <= 100.0
    requires k as real <= p / 100.0 * (|s| - 1) as real <= k as real + 1.0
    ensures var rank := p / 100.0 * (|s| - 1) as real;
            CalculatePercentile(s, p) == s[k] + (rank - k as real) * (s[k + 1] - s[k])
  {
    var rank := p / 100.0 * (|s| - 1) as real;
    RankInRange(|s|, p);
    if rank == k as real + 1.0 {
      assert rank == (k + 1) as real;
      PercentileAtRank(s, k + 1, p);
    } else {
      assert rank.Floor == k;
      Mix(s[k], s[k + 1], rank - k as real);
    }
  }

  lemma Mix(a: real, b: real, w: real)
    ensures a * (1.0 - w) + b * w == a + w * (b - a)
  {}

  lemma PercentileEnds(s: seq<real>)
    requires |s| > 0
    ensures CalculatePercentile(s, 0.0) == s[0] && CalculatePercentile(s, 100.0) == s[|s| - 1]
  {
    PercentileAtRank(s, 0, 0.0);
    PercentileAtRank(s, |s| - 1, 100.0);
  }

  lemma PercentileInRange(s: seq<real>, p: real)
    requires Ascending(s) && |s| > 0 && 0.0 <= p <= 100.0
    ensures s[0] <= CalculatePercentile(s, p) <= s[|s| - 1]
  {
    PercentileEnds(s);
    PercentileGrows(s, 0.0, p);
    PercentileGrows(s, p, 100.0);
  }

  // ---------------------------------------------------------------- the aggregation

  datatype Outcome = Outcome(success: bool, latency: real)

  datatype Metrics = Metrics(total: nat, successful: nat, failed: nat, errorRate: real,
                             min: real, max: real, mean: real, p50: real, p90: real, p95: real, p99: real)

  function Sum(s: seq<real>): real { if s == [] then 0.0 else Sum(s[..|s| - 1]) + s[|s| - 1] }

  lemma SumOfOne(x: real)
    ensures Sum([]) == 0.0 && Sum([x]) == x
  {
    assert [x][..0] == [];
  }

  /** The mean times the count is the sum. */
  lemma MeanTimesCount(sum: real, n: nat)
    ensures n > 0 ==> Ratio(sum, n) * n as real == sum
    ensures n == 0 ==> Ratio(sum, n) == 0.0
  {}

  lemma {:induction false} SumInRange(s: seq<real>, lo: real, hi: real)
    requires forall i :: 0 <= i < |s| ==> lo <= s[i] <= hi
    ensures lo * |s| as real <= Sum(s) <= hi * |s| as real
  {
    if s != [] { SumInRange(s[..|s| - 1], lo, hi); }
  }

  function Latencies(results: seq<Outcome>): (r: seq<real>)
    ensures |r| == |results|
  {
    seq(|results|, i requires 0 <= i < |results| => results[i].latency)
  }

  lemma DivideBounds(sum: real, n: real, lo: real, hi: real)
    requires n > 0.0 && lo * n <= sum <= hi * n
    ensures lo <= sum / n <= hi
  {
    var q := sum / n;
    assert q * n == sum;
    if q < lo { ScaleStrict(q, lo, n); }
    if q > hi { ScaleStrict(hi, q, n); }
  }

  /** A ratio that is zero of nothing. */
  function Ratio(a: real, n: nat): real { if n == 0 then 0.0 else a / n as real }

  lemma ShareInRange(k: nat, n: nat)
    requires k <= n
    ensures 0.0 <= Ratio(k as real, n) <= 1.0 && Ratio(k as real, n) * n as real == k as real
  {
    if n > 0 { DivideBounds(k as real, n as real, 0.0, 1.0); }
  }

  lemma ScaleStrict(a: real, b: real, c: real)
    requires a < b && c > 0.0
    ensures a * c < b * c
  {}

  /** Counting by a loop; `latencies` is what `sorted` gave. */
  method Aggregate(results: seq<Outcome>, latencies: seq<real>) returns (m: Metrics)
    requires Ascending(latencies) && multiset(latencies) == multiset(Latencies(results))
    ensures m.total == |results| == m.successful + m.failed
    ensures m.failed == |set i | 0 <= i < |results| && !results[i].success|
    ensures m.errorRate == Ratio(m.failed as real, m.total) && 0.0 <= m.errorRate <= 1.0
    ensures m.mean == Ratio(Sum(Latencies(results)), |results|)
    ensures m.min <= m.p50 <= m.p90 <= m.p95 <= m.p99 <= m.max && m.min <= m.mean <= m.max
    ensures m.p50 == CalculatePercentile(latencies, 50.0) && m.p90 == CalculatePercentile(latencies, 90.0)
    ensures m.p95 == CalculatePercentile(latencies, 95.0) && m.p99 == CalculatePercentile(latencies, 99.0)
    ensures results != [] ==> (exists r :: r in results && r.latency == m.min)
    ensures results != [] ==> (exists r :: r in results && r.latency == m.max)
    ensures forall r :: r in results ==> m.min <= r.latency <= m.max
  {
    SameLength(latencies, Latencies(results));
    var successful := 0;
    ghost var bad: set<int> := {};
    for i := 0 to |results|
      invariant successful <= i
      invariant bad == set k | 0 <= k < i && !results[k].success
      invariant successful + |bad| == i
    {
      if results[i].success { successful := successful + 1; } else { bad := bad + {i}; }
    }
    var failed := |results| - successful;
    ShareInRange(failed, |results|);
    var n := |latencies|;
    if n == 0 {
      return Metrics(0, 0, 0, 0.0, 0.0, 0.0, 0.0, 0.0, 0.0, 0.0, 0.0);
    }
    SummaryOrdered(latencies);
    MeanInRange(latencies);
    EveryLatencyListed(results, latencies);
    SumOfPermutation(latencies, Latencies(results));
    m := Metrics(|results|, successful, failed, Ratio(failed as real, |results|),
                 latencies[0], latencies[n - 1], Ratio(Sum(latencies), n),
                 CalculatePercentile(latencies, 50.0), CalculatePercentile(latencies, 90.0),
                 CalculatePercentile(latencies, 95.0), CalculatePercentile(latencies, 99.0));
  }

  lemma {:induction false} SumConcat(a: seq<real>, b: seq<real>)
    ensures Sum(a + b) == Sum(a) + Sum(b)
  {
    if b == [] {
      assert a + b == a;
    } else {
      assert (a + b)[..|a + b| - 1] == a + b[..|b| - 1];
      SumConcat(a, b[..|b| - 1]);
    }
  }

  lemma SumOfThree(b: seq<real>, before: seq<real>, x: real, after: seq<real>)
    requires b == before + ([x] + after)
    ensures Sum(b) == Sum(before + after) + x
  {
    SumConcat(before, [x] + after);
    SumConcat([x], after);
    SumConcat(before, after);
    assert [x][..0] == [];
  }

  lemma SumWithout(b: seq<real>, i: nat)
    requires i < |b|
    ensures Sum(b) == Sum(Without(b, i)) + b[i]
  {
    var before, x, after := b[..i], b[i], b[i + 1..];
    SplitAt(b, i);
    SumOfThree(b, before, x, after);
  }

  /** The order of the values does not reach their sum. */
  lemma {:induction false} SumOfPermutation(a: seq<real>, b: seq<real>)
    requires multiset(a) == multiset(b)
    ensures Sum(a) == Sum(b)
    decreases |a|
  {
    SameLength(a, b);
    if a != [] {
      var n := |a| - 1;
      assert a[n] in multiset(b);
      var i :| 0 <= i < |b| && b[i] == a[n];
      MultisetWithout(a, n);
      MultisetWithout(b, i);
      SumWithout(a, n);
      SumWithout(b, i);
      SumOfPermutation(Without(a, n), Without(b, i));
    }
  }

  lemma EveryLatencyListed(results: seq<Outcome>, latencies: seq<real>)
    requires Ascending(latencies) && multiset(latencies) == multiset(Latencies(results)) && latencies != []
    ensures exists r :: r in results && r.latency == latencies[|latencies| - 1]
    ensures exists r :: r in results && r.latency == latencies[0]
    ensures forall r :: r in results ==> latencies[0] <= r.latency <= latencies[|latencies| - 1]
  {
    var ls := Latencies(results);
    assert latencies[|latencies| - 1] in multiset(ls);
    var i :| 0 <= i < |ls| && ls[i] == latencies[|latencies| - 1];
    assert results[i] in results;
    assert latencies[0] in multiset(ls);
    var first :| 0 <= first < |ls| && ls[first] == latencies[0];
    assert results[first] in results;
    forall r | r in results ensures latencies[0] <= r.latency <= latencies[|latencies| - 1] {
      var k :| 0 <= k < |results| && results[k] == r;
      assert ls[k] in multiset(latencies);
      var j :| 0 <= j < |latencies| && latencies[j] == ls[k];
    }
  }

  /** min <= p50 <= p90 <= p95 <= p99 <= max. */
  lemma SummaryOrdered(s: seq<real>)
    requires Ascending(s) && |s| > 0
    ensures s[0] <= CalculatePercentile(s, 50.0) <= CalculatePercentile(s, 90.0) <= CalculatePercentile(s, 95.0)
            <= CalculatePercentile(s, 99.0) <= s[|s| - 1]
  {
    PercentileInRange(s, 50.0);
    PercentileInRange(s, 99.0);
    PercentileGrows(s, 50.0, 90.0);
    PercentileGrows(s, 90.0, 95.0);
    PercentileGrows(s, 95.0, 99.0);
  }

  lemma MeanInRange(s: seq<real>)
    requires Ascending(s) && |s| > 0
    ensures s[0] <= Ratio(Sum(s), |s|) <= s[|s| - 1]
  {
    MeanWithin(s, s[0], s[|s| - 1]);
  }

  lemma MeanWithin(s: seq<real>, lo: real, hi: real)
    requires |s| > 0 && forall i :: 0 <= i < |s| ==> lo <= s[i] <= hi
    ensures lo <= Ratio(Sum(s), |s|) <= hi
  {
    SumInRange(s, lo, hi);
    RatioBounds(Sum(s), |s|, lo, hi);
  }

  lemma RatioBounds(sum: real, n: nat, lo: real, hi: real)
    requires n > 0 && lo * n as real <= sum <= hi * n as real
    ensures lo <= Ratio(sum, n) <= hi
  {
    DivideBounds(sum, n as real, lo, hi);
  }
}
