// The interpolated percentile of the benchmark, over the reals.
module Percentile {
  import opened Options
  import opened Sorting

  const VALUE: real -> real := x => x

  function Ceiling(x: real): int {
    if x == x.Floor as real then x.Floor else x.Floor + 1
  }

  // Linear interpolation between the neighbours of a fractional position.
  function Interpolate(ordered: seq<real>, position: real): real
    requires ordered != [] && 0.0 <= position <= (|ordered| - 1) as real
  {
    var lower, upper := position.Floor, Ceiling(position);
    if lower == upper then ordered[lower]
    else
      var fraction := position - lower as real;
      ordered[lower] * (1.0 - fraction) + ordered[upper] * fraction
  }

  function Position(n: nat, percentage: real): real {
    (n - 1) as real * percentage / 100.0
  }

  // None stands for the not-a-number result of an empty sample.
  function Percentile(values: seq<real>, percentage: real): (r: Option<real>)
    requires 0.0 <= percentage <= 100.0
    ensures r.None? <==> values == []
  {
    if values == [] then None
    else
      PositionInRange(|values|, percentage);
      Some(Interpolate(Sort(values, VALUE), Position(|values|, percentage)))
  }

  lemma {:induction false} PositionInRange(n: nat, p: real)
    requires n > 0 && 0.0 <= p <= 100.0
    ensures 0.0 <= Position(n, p) <= (n - 1) as real
    ensures p == 0.0 ==> Position(n, p) == 0.0
    ensures p == 100.0 ==> Position(n, p) == (n - 1) as real
  {
    var k := (n - 1) as real;
    ScaledWithin(k, p);
    ScaledBetween(k * p, k);
  }

  lemma {:induction false} ScaledWithin(k: real, p: real)
    requires k >= 0.0 && 0.0 <= p <= 100.0
    ensures 0.0 <= k * p <= k * 100.0
  {
    MulMonotone(k, 0.0, p);
    MulMonotone(k, p, 100.0);
  }

  lemma {:induction false} ScaledBetween(x: real, k: real)
    requires 0.0 <= x <= k * 100.0
    ensures 0.0 <= x / 100.0 <= k
    ensures x == k * 100.0 ==> x / 100.0 == k
  {
  }

  lemma {:induction false} MulMonotone(k: real, x: real, y: real)
    requires k >= 0.0 && x <= y
    ensures k * x <= k * y
  {
  }

  lemma {:induction false} PositionMonotone(n: nat, p: real, q: real)
    requires n > 0 && p <= q
    ensures Position(n, p) <= Position(n, q)
  {
    var k := (n - 1) as real;
    MulMonotone(k, p, q);
    ScaleDown(k * p, k * q);
  }

  lemma {:induction false} ScaleDown(x: real, y: real)
    requires x <= y
    ensures x / 100.0 <= y / 100.0
  {
  }

  // A weighted mean lies between its two values and moves toward the larger one.
  lemma {:induction false} WeightedMean(a: real, b: real, f: real, g: real)
    requires a <= b && 0.0 <= f <= g <= 1.0
    ensures a <= a * (1.0 - f) + b * f <= a * (1.0 - g) + b * g <= b
  {
    assert a * (1.0 - f) + b * f == a + (b - a) * f;
    assert a * (1.0 - g) + b * g == a + (b - a) * g;
    MulMonotone(b - a, 0.0, f);
    MulMonotone(b - a, f, g);
    MulMonotone(b - a, g, 1.0);
  }

  lemma {:induction false} InterpolateBetween(o: seq<real>, x: real)
    requires Sorted(o, VALUE) && o != [] && 0.0 <= x <= (|o| - 1) as real
    ensures o[x.Floor] <= Interpolate(o, x) <= o[Ceiling(x)]
  {
    var l, u := x.Floor, Ceiling(x);
    if l != u {
      WeightedMean(o[l], o[u], x - l as real, x - l as real);
    }
  }

  lemma {:induction false} InterpolateMonotone(o: seq<real>, x: real, y: real)
    requires Sorted(o, VALUE) && o != [] && 0.0 <= x <= y <= (|o| - 1) as real
    ensures Interpolate(o, x) <= Interpolate(o, y)
  {
    InterpolateBetween(o, x);
    InterpolateBetween(o, y);
    var l, u := x.Floor, Ceiling(x);
    if y.Floor == l {
      if l != Ceiling(y) {
        var f := if l == u then 0.0 else x - l as real;
        WeightedMean(o[l], o[Ceiling(y)], f, y - l as real);
      }
    } else {
      assert u <= y.Floor;
      assert o[u] <= o[y.Floor];
    }
  }

  // A fraction of the way from a to b.
  function OnLine(a: real, b: real, f: real): real { a + f * (b - a) }

  lemma {:induction false} LineForm(a: real, b: real, f: real)
    ensures a * (1.0 - f) + b * f == OnLine(a, b, f)
    ensures f == 1.0 ==> OnLine(a, b, f) == b
    ensures f == 0.0 ==> OnLine(a, b, f) == a
  {
    assert a * (1.0 - f) == a - f * a;
    assert f * (b - a) == f * b - f * a;
  }

  // On every closed interval between two ranks the interpolation is the straight
  // line between the two samples, so it is also continuous at the ranks.
  lemma {:induction false} InterpolateOnLine(o: seq<real>, x: real, k: nat, f: real)
    requires k + 1 < |o| && 0.0 <= f <= 1.0 && x == k as real + f
    ensures Interpolate(o, x) == OnLine(o[k], o[k + 1], f)
  {
    LineForm(o[k], o[k + 1], f);
    if f == 1.0 {
      assert x == (k + 1) as real && x.Floor == k + 1;
    } else {
      assert x.Floor == k;
    }
  }

  // The percentile grows with the percentage, stays between the least and the
  // greatest sample, and reaches both ends.
  lemma {:induction false} PercentileMonotone(values: seq<real>, p: real, q: real)
    requires values != [] && 0.0 <= p <= q <= 100.0
    ensures var sorted := Sort(values, VALUE);
            && Percentile(values, p).Some? && Percentile(values, q).Some?
            && sorted[0] <= Percentile(values, p).value <= Percentile(values, q).value <= sorted[|sorted| - 1]
            && Percentile(values, 0.0).value == sorted[0]
            && Percentile(values, 100.0).value == sorted[|sorted| - 1]
  {
    var n := |values|;
    PositionInRange(n, p);
    PositionInRange(n, q);
    PositionInRange(n, 0.0);
    PositionInRange(n, 100.0);
    PositionMonotone(n, p, q);
    InterpolateMonotone(Sort(values, VALUE), Position(n, p), Position(n, q));
    InterpolateMonotone(Sort(values, VALUE), 0.0, Position(n, p));
    InterpolateMonotone(Sort(values, VALUE), Position(n, q), (n - 1) as real);
  }

  lemma {:induction false} PercentileInterpolates(values: seq<real>, p: real, x: real)
    requires values != [] && 0.0 <= p <= 100.0 && x == Position(|values|, p)
    ensures 0.0 <= x <= (|values| - 1) as real
    ensures Percentile(values, p) == Some(Interpolate(Sort(values, VALUE), x))
  {
    PositionInRange(|values|, p);
  }

  // A percentage sits at its share of the way from the first to the last rank: at
  // rank k and a fraction f toward the next one, the percentile is the same fraction
  // of the way between the two samples.
  lemma {:induction false} PercentileAtRank(values: seq<real>, p: real, k: nat, f: real)
    requires 0.0 <= p <= 100.0 && 0.0 <= f <= 1.0 && k + 1 < |values|
    requires (|values| - 1) as real * p / 100.0 == k as real + f
    ensures var sorted := Sort(values, VALUE);
            Percentile(values, p) == Some(OnLine(sorted[k], sorted[k + 1], f))
  {
    var x := k as real + f;
    PercentileInterpolates(values, p, x);
    InterpolateOnLine(Sort(values, VALUE), x, k, f);
  }

  // The median of two samples is their mean.
  lemma {:induction false} MedianOfTwo(values: seq<real>, p: real, median: Option<real>)
    requires |values| == 2 && p == 50.0 && median == Percentile(values, p)
    ensures median == Some((values[0] + values[1]) / 2.0)
  {
    var f := p / 100.0;
    HalfPosition(|values|, p, f);
    PercentileAtRank(values, p, 0, f);
    SortTwo(values);
    Halfway(Sort(values, VALUE), values, f, median);
  }

  lemma {:induction false} HalfPosition(n: nat, p: real, f: real)
    requires n == 2 && p == 50.0 && f == p / 100.0
    ensures (n - 1) as real * p / 100.0 == 0 as real + f && 0.0 <= f <= 1.0
  {
  }

  lemma {:induction false} Halfway(s: seq<real>, values: seq<real>, f: real, r: Option<real>)
    requires |s| == |values| == 2 && s == (if values[0] <= values[1] then values else [values[1], values[0]])
    requires f == 50.0 / 100.0 && r == Some(OnLine(s[0], s[1], f))
    ensures r == Some((values[0] + values[1]) / 2.0)
  {
    assert s[0] + s[1] == values[0] + values[1];
    assert f * (s[1] - s[0]) == (s[1] - s[0]) / 2.0;
  }

  lemma {:induction false} SortTwo(s: seq<real>)
    requires |s| == 2
    ensures Sort(s, VALUE) == if s[0] <= s[1] then s else [s[1], s[0]]
  {
    assert s[1..] == [s[1]] && [s[1]][1..] == [];
    assert Sort([s[1]], VALUE) == [s[1]];
    assert s == [s[0], s[1]];
  }

  lemma {:induction false} PercentileIsOrderIndependent(a: seq<real>, b: seq<real>, p: real)
    requires multiset(a) == multiset(b) && 0.0 <= p <= 100.0
    ensures Percentile(a, p) == Percentile(b, p)
  {
    assert |a| == |multiset(a)| == |b|;
    SortKeeps(a, VALUE);
    SortKeeps(b, VALUE);
    SortedIsUnique(Sort(a, VALUE), Sort(b, VALUE), VALUE);
  }

  function Sum(values: seq<real>): real {
    if values == [] then 0.0 else Sum(values[..|values| - 1]) + values[|values| - 1]
  }

  lemma {:induction false} SumAdds(a: seq<real>, b: seq<real>)
    ensures Sum(a + b) == Sum(a) + Sum(b)
    ensures |a| == 1 ==> Sum(a) == a[0]
  {
    assert |a| == 1 ==> a[..0] == [];
    if b == [] {
      assert a + b == a;
    } else {
      assert (a + b)[..|a + b| - 1] == a + b[..|b| - 1];
      SumAdds(a, b[..|b| - 1]);
    }
  }

  lemma {:induction false} SumBetween(values: seq<real>, low: real, high: real)
    requires forall i :: 0 <= i < |values| ==> low <= values[i] <= high
    ensures |values| as real * low <= Sum(values) <= |values| as real * high
  {
    if values == [] {
    } else {
      SumBetween(values[..|values| - 1], low, high);
      AddOne(|values| - 1, low);
      AddOne(|values| - 1, high);
    }
  }

  lemma {:induction false} AddOne(n: nat, x: real)
    ensures (n + 1) as real * x == n as real * x + x
  {
    assert (n + 1) as real == n as real + 1.0;
  }

  lemma {:induction false} QuotientBetween(sum: real, n: real, low: real, high: real)
    requires n > 0.0 && n * low <= sum <= n * high
    ensures low <= sum / n <= high
  {
    var q := sum / n;
    assert n * q == sum;
    if q < low {
      ScaleStrict(n, q, low);
    }
    if q > high {
      ScaleStrict(n, high, q);
    }
  }

  lemma {:induction false} ScaleStrict(n: real, x: real, y: real)
    requires n > 0.0 && x < y
    ensures n * x < n * y
  {
    assert n * (y - x) > 0.0;
  }

  lemma {:induction false} SampleAtRank(values: seq<real>, m: nat) returns (i: nat)
    requires m < |values|
    ensures i < |values| && values[i] == Sort(values, VALUE)[m]
  {
    var x := Sort(values, VALUE)[m];
    SortKeeps(values, VALUE);
    assert x in multiset(Sort(values, VALUE));
    assert x in values;
    i :| 0 <= i < |values| && values[i] == x;
  }

  lemma {:induction false} RankOfSample(values: seq<real>, i: nat) returns (m: nat)
    requires i < |values|
    ensures m < |values| && values[i] == Sort(values, VALUE)[m]
  {
    var s := Sort(values, VALUE);
    SortKeeps(values, VALUE);
    assert values[i] in multiset(values);
    assert values[i] in s;
    m :| 0 <= m < |s| && s[m] == values[i];
  }

  // Where the least and the greatest sample are.
  lemma {:induction false} Extremes(values: seq<real>) returns (i: nat, j: nat)
    requires values != []
    ensures i < |values| && j < |values|
    ensures values[i] == Sort(values, VALUE)[0] && values[j] == Sort(values, VALUE)[|values| - 1]
    ensures forall k :: 0 <= k < |values| ==> values[i] <= values[k] <= values[j]
  {
    i := SampleAtRank(values, 0);
    j := SampleAtRank(values, |values| - 1);
    forall k | 0 <= k < |values| ensures values[i] <= values[k] <= values[j] {
      var m := RankOfSample(values, k);
    }
  }

  function Mean(values: seq<real>): real
    requires values != []
  {
    Sum(values) / |values| as real
  }

  lemma {:induction false} MeanBetween(values: seq<real>, low: real, high: real)
    requires values != [] && forall i :: 0 <= i < |values| ==> low <= values[i] <= high
    ensures low <= Mean(values) <= high && Mean(values) * |values| as real == Sum(values)
  {
    SumBetween(values, low, high);
    QuotientBetween(Sum(values), |values| as real, low, high);
  }

  datatype Summary = Summary(mean: real, p50: real, p95: real, p99: real)

  // All four numbers lie between two samples.
  ghost predicate Within(s: Summary, values: seq<real>, i: nat, j: nat)
    requires i < |values| && j < |values|
  {
    values[i] <= s.p50 && s.p99 <= values[j] && values[i] <= s.mean <= values[j]
  }

  // The summary line of a benchmark: its three percentiles are in order, and they
  // and the mean lie within the sample.  No value stands for the error that the
  // mean of an empty sample raises.
  method SummariseMs(values: seq<real>) returns (r: Option<Summary>)
    ensures r.None? <==> values == []
    ensures r.Some? ==>
              && r.value.mean == Mean(values)
              && Some(r.value.p50) == Percentile(values, 50.0) && Some(r.value.p95) == Percentile(values, 95.0)
              && Some(r.value.p99) == Percentile(values, 99.0)
              && r.value.p50 <= r.value.p95 <= r.value.p99
              && exists i: nat, j: nat :: i < |values| && j < |values| && Within(r.value, values, i, j)
  {
    if values == [] {
      return None;
    }
    PercentileMonotone(values, 50.0, 95.0);
    PercentileMonotone(values, 95.0, 99.0);
    var s := Summary(Mean(values), Percentile(values, 50.0).value, Percentile(values, 95.0).value,
                     Percentile(values, 99.0).value);
    ghost var i, j := Extremes(values);
    MeanBetween(values, values[i], values[j]);
    assert Within(s, values, i, j);
    return Some(s);
  }
}
