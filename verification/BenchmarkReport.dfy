/** The record that an aggregation leaves for a language, field by field. */
module BenchmarkReport {
  import opened Wrappers
  import opened BenchmarkStatistics
  import opened BenchmarkAggregation

  // ----- the population variance, in real numbers -----

  function Mean(s: seq<int>): real
    requires s != []
  {
    Sum(s) as real / |s| as real
  }

  function SquaredDeviations(s: seq<int>, mean: real): real {
    if s == [] then 0.0 else (s[0] as real - mean) * (s[0] as real - mean) + SquaredDeviations(s[1..], mean)
  }

  /** The mean of the squared deviations from the mean: the square of `statistics.pstdev`. */
  function MeanSquare(s: seq<int>): real
    requires s != []
  {
    SquaredDeviations(s, Mean(s)) / |s| as real
  }

  lemma ScaledSquare(n: int, x: int, sum: int, mean: real)
    requires n as real * mean == sum as real
    ensures ((n * x - sum) * (n * x - sum)) as real
         == (n as real * n as real) * ((x as real - mean) * (x as real - mean))
  {
    var d := x as real - mean;
    assert (n * x - sum) as real == n as real * d;
    assert ((n * x - sum) * (n * x - sum)) as real == (n as real * d) * (n as real * d);
    assert (n as real * d) * (n as real * d) == (n as real * n as real) * (d * d);
  }

  lemma {:induction false} ScaledDeviations(s: seq<int>, n: int, sum: int, mean: real)
    requires n as real * mean == sum as real
    ensures DeviationSum(s, n, sum) as real == (n as real * n as real) * SquaredDeviations(s, mean)
  {
    if s != [] {
      ScaledDeviations(s[1..], n, sum, mean);
      ScaledSquare(n, s[0], sum, mean);
      AddScaled((n * s[0] - sum) * (n * s[0] - sum), DeviationSum(s[1..], n, sum), n as real * n as real,
                (s[0] as real - mean) * (s[0] as real - mean), SquaredDeviations(s[1..], mean));
    }
  }

  lemma AddScaled(x: int, y: int, k: real, a: real, b: real)
    requires x as real == k * a && y as real == k * b
    ensures (x + y) as real == k * (a + b)
  {
  }

  /** The fraction the model works with is that number. */
  lemma VarianceIsMeanSquare(s: seq<int>)
    requires s != []
    ensures Variance(s).den > 0 && Variance(s).num as real == MeanSquare(s) * Variance(s).den as real
  {
    var n, q := |s| as real, SquaredDeviations(s, Mean(s));
    VarianceHasDenominator(s);
    assert n * Mean(s) == Sum(s) as real;
    ScaledDeviations(s, |s|, Sum(s), Mean(s));
    CubeInReals(|s|);
    DividedOnce(q, n);
  }

  lemma CubeInReals(n: int)
    ensures (n * n * n) as real == n as real * n as real * n as real
  {
    assert (n * n) as real == n as real * n as real;
  }

  lemma DividedOnce(q: real, n: real)
    requires n > 0.0
    ensures q / n * (n * n * n) == n * n * q
  {
    var r := q / n;
    assert r * n == q;
    assert r * (n * n * n) == (r * n) * (n * n);
  }

  // ----- sorting keeps the samples -----

  lemma {:induction false} InsertKeepsAll(x: int, s: seq<int>)
    ensures multiset(Insert(x, s)) == multiset{x} + multiset(s)
  {
    if !(s == [] || x <= s[0]) {
      InsertKeepsAll(x, s[1..]);
      assert s == [s[0]] + s[1..];
    }
  }

  lemma {:induction false} SortedKeepsAll(s: seq<int>)
    ensures multiset(Sorted(s)) == multiset(s)
  {
    if s != [] {
      SortedKeepsAll(s[1..]);
      InsertKeepsAll(s[0], Sorted(s[1..]));
      assert s == [s[0]] + s[1..];
    }
  }

  // ----- stable samples and outliers -----

  /** Samples are left aside when there are at least five and at least three remain. */
  predicate LeavesAside(n: nat, trim: TrimCount) {
    n >= 5 && n - 2 * trim(n) >= 3
  }

  /** The outliers are the `k` smallest and the `k` largest samples, the stable ones are the others,
      and all of them are in ascending order. */
  predicate AreSplit(medians: seq<int>, stable: seq<int>, outliers: seq<int>, k: nat) {
    && |outliers| == 2 * k
    && var all := outliers[..k] + stable + outliers[k..];
       IsSorted(all) && multiset(all) == multiset(medians)
  }

  lemma SplitOfSorted(medians: seq<int>, ordered: seq<int>, stable: seq<int>, outliers: seq<int>, k: nat)
    requires 2 * k <= |ordered| && ordered == Sorted(medians)
    requires stable == Trimmed(ordered, k) && outliers == ordered[..k] + ordered[|ordered| - k..]
    ensures AreSplit(medians, stable, outliers, k)
  {
    SortedSorts(medians);
    SortedKeepsAll(medians);
    assert ordered == outliers[..k] + stable + outliers[k..];
  }

  lemma StableAndOutliers(medians: seq<int>, trim: TrimCount)
    ensures var n, stable, outliers := |medians|, StableMedians(medians, trim), Outliers(medians, trim);
            if LeavesAside(n, trim) then AreSplit(medians, stable, outliers, trim(n))
            else stable == medians && outliers == []
  {
    if LeavesAside(|medians|, trim) {
      SplitOfSorted(medians, Sorted(medians), StableMedians(medians, trim), Outliers(medians, trim), trim(|medians|));
    }
  }

  /** `max(1, ceil(0.20 n))`, exactly. */
  function TwentyPercent(n: nat): nat {
    if n <= 5 then 1 else (n + 4) / 5
  }

  /** Twenty percent on each side are left aside from five samples on, but not of six. */
  lemma SixAreKept(medians: seq<int>)
    ensures Outliers(medians, TwentyPercent) != [] <==> |medians| >= 5 && |medians| != 6
    ensures |medians| >= 5 && |medians| != 6 ==> |Outliers(medians, TwentyPercent)| == 2 * ((|medians| + 4) / 5)
  {
    var n := |medians|;
    if n >= 7 {
      assert n - 2 * ((n + 4) / 5) >= 3;
    }
    StableAndOutliers(medians, TwentyPercent);
  }

  lemma SixExample(base: Measurement)
    ensures var r := AggregateLanguage([Some(1), Some(1), Some(1), Some(1), Some(1), Some(100)], base, TwentyPercent);
            r.outlierMedians == [] && r.stableMedians == [1, 1, 1, 1, 1, 100]
  {
    var samples := [Some(1), Some(1), Some(1), Some(1), Some(1), Some(100)];
    assert AllMeasured(samples) && Values(samples) == [1, 1, 1, 1, 1, 100];
    StableAndOutliers(Values(samples), TwentyPercent);
  }

  // ----- the record -----

  /** `d` is the integer part of the population standard deviation of `s`. */
  predicate IsDeviation(d: nat, s: seq<int>)
    requires s != []
  {
    (d * d) as real <= MeanSquare(s) < ((d + 1) * (d + 1)) as real
  }

  lemma VarianceInReals(s: seq<int>) returns (v: Ratio, q: real)
    requires s != []
    ensures v == Variance(s) && q == MeanSquare(s) && v.den > 0 && v.num >= 0 && v.num as real == q * v.den as real
  {
    VarianceIsMeanSquare(s);
    VarianceIsNonNegative(s);
    v, q := Variance(s), MeanSquare(s);
  }

  lemma RootOf(v: Ratio) returns (d: nat)
    requires v.den > 0 && v.num >= 0
    ensures d == RootFloor(v) && d * d * v.den <= v.num < (d + 1) * (d + 1) * v.den
  {
    d := RootFloor(v);
  }

  lemma DeviationOfStddev(s: seq<int>)
    requires s != []
    ensures IsDeviation(Stddev(s), s)
  {
    var v, q := VarianceInReals(s);
    var d := RootOf(v);
    RootBounds(d, v, q);
  }

  lemma RootBounds(d: nat, v: Ratio, q: real)
    requires v.den > 0 && d * d * v.den <= v.num < (d + 1) * (d + 1) * v.den && v.num as real == q * v.den as real
    ensures (d * d) as real <= q < ((d + 1) * (d + 1)) as real
  {
    Divided(d * d, (d + 1) * (d + 1), v.num, v.den, q);
  }

  lemma Divided(x: int, y: int, num: int, den: int, q: real)
    requires den > 0 && num as real == q * den as real && x * den <= num < y * den
    ensures x as real <= q < y as real
  {
    var e := den as real;
    assert (x * den) as real == x as real * e && (y * den) as real == y as real * e;
    OnlyIfSmaller(x as real, q, e);
    OnlyIfSmaller(y as real, q, e);
  }

  lemma OnlyIfSmaller(a: real, b: real, e: real)
    requires e > 0.0
    ensures a * e <= b * e <==> a <= b
  {
    assert (b - a) * e == b * e - a * e;
  }

  /** A language that every attempt measured: the samples in order, their median truncated to an
      integer, the outliers and the others, and the deviation of the others, which is not above that
      of all samples.  Everything else is the first attempt's entry. */
  lemma MeasuredRecord(tables: seq<Results>, language: Language, trim: TrimCount)
    requires tables != [] && AllMeasured(Samples(tables, language))
    ensures language in AggregateResults(tables, trim) && language in tables[0]
    ensures var r, medians := AggregateResults(tables, trim)[language], Values(Samples(tables, language));
            && |medians| == |tables| && r.independentMedians == medians
            && r.nsPerIter == Some(Halved(Median(medians)))
            && (if LeavesAside(|tables|, trim)
                then AreSplit(medians, r.stableMedians, r.outlierMedians, trim(|tables|))
                else r.stableMedians == medians && r.outlierMedians == [])
            && r.independentStddev.Some? && r.stableMedians != []
            && IsDeviation(r.independentStddev.value, r.stableMedians)
            && r.independentStddev.value <= Stddev(medians)
            && r.error == tables[0][language].error
  {
    EveryLanguage(language);
    var samples := Samples(tables, language);
    var medians := Values(samples);
    assert samples[0] == Sample(tables[0], language);
    ReportedMedian(samples, tables[0][language], trim);
    StableAndOutliers(medians, trim);
    DeviationOfStddev(StableMedians(medians, trim));
    TrimmingIsHonest(medians, trim);
  }

  /** A language that some attempt did not measure is reported as failed, with nothing else. */
  lemma FailedRecord(tables: seq<Results>, language: Language, trim: TrimCount)
    requires tables != [] && !AllMeasured(Samples(tables, language))
    ensures language in AggregateResults(tables, trim)
    ensures AggregateResults(tables, trim)[language]
         == Measurement(None, Some("independent attempt failed"), [], [], [], None)
  {
    EveryLanguage(language);
  }
}
