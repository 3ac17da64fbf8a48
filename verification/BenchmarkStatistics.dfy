/** Median and spread of independent benchmark medians, and what trimming the same number
    of samples from both ends does to them.  Exact rationals stand for the floats. */
module BenchmarkStatistics {

  function Sum(s: seq<int>): int {
    if s == [] then 0 else s[0] + Sum(s[1..])
  }

  function SumOfSquares(s: seq<int>): int {
    if s == [] then 0 else s[0] * s[0] + SumOfSquares(s[1..])
  }

  /** An exact fraction with a positive denominator. */
  datatype Ratio = Ratio(num: int, den: int)

  predicate AtMost(x: Ratio, y: Ratio) {
    x.num * y.den <= y.num * x.den
  }

  /** The sum of the squares of n x - sum, that is n² times the squared deviations from
      the mean when `n` is the number of values and `sum` their sum. */
  function DeviationSum(s: seq<int>, n: int, sum: int): int {
    if s == [] then 0 else (n * s[0] - sum) * (n * s[0] - sum) + DeviationSum(s[1..], n, sum)
  }

  /** The population variance, the square of `statistics.pstdev`: the mean of the squared
      deviations from the mean. */
  function Variance(s: seq<int>): Ratio
    requires s != []
  {
    Ratio(DeviationSum(s, |s|, Sum(s)), |s| * |s| * |s|)
  }

  predicate IsSorted(s: seq<int>) {
    forall i, j :: 0 <= i < j < |s| ==> s[i] <= s[j]
  }

  function Insert(x: int, s: seq<int>): (r: seq<int>)
    ensures |r| == |s| + 1
  {
    if s == [] || x <= s[0] then [x] + s else [s[0]] + Insert(x, s[1..])
  }

  /** `sorted` */
  function Sorted(s: seq<int>): (r: seq<int>)
    ensures |r| == |s|
  {
    if s == [] then [] else Insert(s[0], Sorted(s[1..]))
  }

  /** Twice the middle of a sorted list, as `statistics.median` picks it. */
  function Middle(ordered: seq<int>): int
    requires ordered != []
  {
    var n := |ordered|;
    if n % 2 == 1 then 2 * ordered[n / 2] else ordered[n / 2 - 1] + ordered[n / 2]
  }

  /** Twice the median. */
  function Median(s: seq<int>): int
    requires s != []
  {
    Middle(Sorted(s))
  }

  /** `ordered[trim:-trim]` */
  function Trimmed(ordered: seq<int>, trim: nat): (r: seq<int>)
    requires 2 * trim <= |ordered|
    ensures |r| == |ordered| - 2 * trim
  {
    ordered[trim..|ordered| - trim]
  }

  // ----- sorting -----

  lemma {:induction false} InsertSorts(x: int, s: seq<int>)
    requires IsSorted(s)
    ensures IsSorted(Insert(x, s))
    ensures forall y :: y in Insert(x, s) ==> y == x || y in s
  {
    if !(s == [] || x <= s[0]) {
      InsertSorts(x, s[1..]);
      var r := Insert(x, s[1..]);
      forall j | 0 <= j < |r| ensures s[0] <= r[j] {
        assert r[j] in r;
      }
    }
  }

  lemma {:induction false} SortedSorts(s: seq<int>)
    ensures IsSorted(Sorted(s))
  {
    if s != [] {
      SortedSorts(s[1..]);
      InsertSorts(s[0], Sorted(s[1..]));
    }
  }

  lemma {:induction false} InsertKeepsSums(x: int, s: seq<int>)
    ensures Sum(Insert(x, s)) == x + Sum(s)
    ensures SumOfSquares(Insert(x, s)) == x * x + SumOfSquares(s)
  {
    if !(s == [] || x <= s[0]) {
      InsertKeepsSums(x, s[1..]);
    }
  }

  lemma {:induction false} SortedKeepsSums(s: seq<int>)
    ensures Sum(Sorted(s)) == Sum(s) && SumOfSquares(Sorted(s)) == SumOfSquares(s)
  {
    if s != [] {
      SortedKeepsSums(s[1..]);
      InsertKeepsSums(s[0], Sorted(s[1..]));
    }
  }

  lemma {:induction false} SortedIsIdentityOnSorted(s: seq<int>)
    requires IsSorted(s)
    ensures Sorted(s) == s
  {
    if s != [] {
      SortedIsIdentityOnSorted(s[1..]);
      assert s == [s[0]] + s[1..];
    }
  }

  // ----- the median -----

  /** Trimming both ends alike leaves the median where it was. */
  lemma TrimmingKeepsMedian(s: seq<int>, trim: nat)
    requires 2 * trim < |s|
    ensures Median(Trimmed(Sorted(s), trim)) == Median(s)
  {
    var ordered := Sorted(s);
    SortedSorts(s);
    TrimmedIsSorted(ordered, trim);
    MedianOfSorted(Trimmed(ordered, trim));
    MiddleOfTrimmed(ordered, trim);
  }

  lemma TrimmedIsSorted(ordered: seq<int>, trim: nat)
    requires IsSorted(ordered) && 2 * trim <= |ordered|
    ensures IsSorted(Trimmed(ordered, trim))
  {
    var r := Trimmed(ordered, trim);
    forall i, j | 0 <= i < j < |r| ensures r[i] <= r[j] {
      assert r[i] == ordered[trim + i] && r[j] == ordered[trim + j];
    }
  }

  lemma MedianOfSorted(s: seq<int>)
    requires IsSorted(s) && s != []
    ensures Median(s) == Middle(s)
  {
    SortedIsIdentityOnSorted(s);
  }

  lemma MiddleOfTrimmed(ordered: seq<int>, trim: nat)
    requires 2 * trim < |ordered|
    ensures Middle(Trimmed(ordered, trim)) == Middle(ordered)
  {
    var r, n := Trimmed(ordered, trim), |ordered|;
    assert (n - 2 * trim) / 2 == n / 2 - trim && (n - 2 * trim) % 2 == n % 2;
    assert r[|r| / 2] == ordered[n / 2];
    if n % 2 == 0 {
      assert r[|r| / 2 - 1] == ordered[n / 2 - 1];
    }
  }

  // ----- the median of a list whose first element is exchanged -----

  /** `x`, moved up to `r[low]` or down to `r[high]`; an index outside `r` is no bound. */
  function Clamp(x: int, r: seq<int>, low: int, high: int): int {
    if 0 <= low < |r| && x < r[low] then r[low]
    else if 0 <= high < |r| && x > r[high] then r[high]
    else x
  }

  /** `x` as far as the median of `x` and the sorted list `r` depends on it. */
  function Clamped(x: int, r: seq<int>): int {
    var h := |r| / 2;
    if |r| % 2 == 0 then Clamp(x, r, h - 1, h) else Clamp(x, r, h - 1, h + 1)
  }

  /** Twice the median of `x` and the sorted list `r`. */
  function MedianWith(x: int, r: seq<int>): int {
    if |r| % 2 == 0 then 2 * Clamped(x, r) else r[|r| / 2] + Clamped(x, r)
  }

  lemma {:induction false} InsertedAt(x: int, s: seq<int>, i: nat)
    requires IsSorted(s) && i <= |s|
    ensures Insert(x, s)[i]
         == if i < |s| && s[i] < x then s[i] else if i > 0 && x <= s[i - 1] then s[i - 1] else x
  {
    if !(s == [] || x <= s[0]) && i > 0 {
      InsertedAt(x, s[1..], i - 1);
    }
  }

  lemma MiddleOfEven(x: int, r: seq<int>, h: nat)
    requires IsSorted(r) && |r| == 2 * h
    ensures Middle(Insert(x, r)) == 2 * Clamp(x, r, h - 1, h)
  {
    InsertedAt(x, r, h);
    assert (2 * h + 1) / 2 == h && (2 * h + 1) % 2 == 1;
  }

  lemma MiddleOfOdd(x: int, r: seq<int>, h: nat)
    requires IsSorted(r) && |r| == 2 * h + 1
    ensures Middle(Insert(x, r)) == r[h] + Clamp(x, r, h - 1, h + 1)
  {
    InsertedAt(x, r, h);
    InsertedAt(x, r, h + 1);
    assert (2 * h + 2) / 2 == h + 1 && (2 * h + 2) % 2 == 0;
  }

  lemma MedianOfFirst(x: int, rest: seq<int>)
    ensures Median([x] + rest) == MedianWith(x, Sorted(rest))
  {
    var r, h := Sorted(rest), |rest| / 2;
    SortedSorts(rest);
    assert ([x] + rest)[1..] == rest;
    if |rest| % 2 == 0 {
      MiddleOfEven(x, r, h);
    } else {
      MiddleOfOdd(x, r, h);
    }
  }

  /** Exchanging the first of several samples keeps their median exactly when both clamp to
      the same value around the middle of the others. */
  lemma FirstExchanged(m: int, raw: seq<int>)
    requires raw != []
    ensures var x, r := raw[0], Sorted(raw[1..]);
            && Median(raw) == MedianWith(x, r) && Median([m] + raw[1..]) == MedianWith(m, r)
            && (Median([m] + raw[1..]) == Median(raw) <==> Clamped(m, r) == Clamped(x, r))
  {
    assert raw == [raw[0]] + raw[1..];
    MedianOfFirst(raw[0], raw[1..]);
    MedianOfFirst(m, raw[1..]);
  }

  // ----- the variance -----

  /** n² times the variance, in integers. */
  function Spread(s: seq<int>): int {
    |s| * SumOfSquares(s) - Sum(s) * Sum(s)
  }

  lemma {:induction false} DeviationSumExpands(s: seq<int>, n: int, m: int)
    ensures DeviationSum(s, n, m) == n * n * SumOfSquares(s) - 2 * (n * m * Sum(s)) + |s| * (m * m)
  {
    if s != [] {
      DeviationSumExpands(s[1..], n, m);
      OneMoreDeviation(s[0], n, m, SumOfSquares(s[1..]), Sum(s[1..]), |s[1..]|);
    }
  }

  lemma OneMoreDeviation(x: int, n: int, m: int, squares: int, sum: int, k: int)
    ensures (n * x - m) * (n * x - m) + (n * n * squares - 2 * (n * m * sum) + k * (m * m))
         == n * n * (x * x + squares) - 2 * (n * m * (x + sum)) + (1 + k) * (m * m)
  {
    var y, nn, nm := n * x, n * n, n * m;
    assert (y - m) * (y - m) == y * y - 2 * (y * m) + m * m;
    assert y * y == nn * (x * x);
    assert y * m == nm * x;
    assert nn * (x * x + squares) == nn * (x * x) + nn * squares;
    assert nm * (x + sum) == nm * x + nm * sum;
    assert (1 + k) * (m * m) == m * m + k * (m * m);
  }

  lemma DeviationsAreSpread(s: seq<int>)
    ensures DeviationSum(s, |s|, Sum(s)) == |s| * Spread(s)
  {
    DeviationSumExpands(s, |s|, Sum(s));
    AtTheMean(|s|, SumOfSquares(s), Sum(s));
  }

  lemma AtTheMean(n: int, squares: int, sum: int)
    ensures n * n * squares - 2 * (n * sum * sum) + n * (sum * sum) == n * (n * squares - sum * sum)
  {
    assert n * sum * sum == n * (sum * sum);
    assert n * (n * squares - sum * sum) == n * (n * squares) - n * (sum * sum);
  }

  // ----- removing the smallest and the largest value -----

  lemma Distribute(k: int, a: int, b: int, c: int)
    ensures k * (a + b + c) == k * a + k * b + k * c
  {
  }

  lemma ExpandSpreads(n: int, x: int, q: int, r: int, w: int, v: int)
    requires x == n + 2
    ensures n * n * (x * (q + r) - w) - x * x * (n * q - v)
         == n * n * x * r - n * n * w + x * x * v - 2 * (n * x * q)
  {
    var k := n * x * q;
    assert n * n * (x * (q + r) - w) == n * k + n * n * x * r - n * n * w by {
      assert x * (q + r) == x * q + x * r;
      assert n * n * (x * q) == n * k;
      assert n * n * (x * r) == n * n * x * r;
    }
    assert x * x * (n * q - v) == x * k - x * x * v by {
      assert x * x * (n * q) == x * k;
    }
    assert n * k - x * k == (n - x) * k == -2 * k;
  }

  lemma SquareOfDifference(n: int, t: int, s: int)
    ensures (n * t - 2 * s) * (n * t - 2 * s) == n * n * (t * t) - 4 * (n * (t * s)) + 4 * (s * s)
  {
    var y := n * t;
    assert (y - 2 * s) * (y - 2 * s) == y * y - 4 * (y * s) + 4 * (s * s);
    assert y * y == n * n * (t * t);
    assert y * s == n * (t * s);
  }

  lemma CoefficientOfT(n: int, tt: int)
    ensures n * n * (n + 2) * tt - n * n * tt == (n + 1) * (n * n * tt)
  {
    var k := n * n * tt;
    assert n * n * (n + 2) * tt == (n + 2) * k;
  }

  lemma CoefficientOfS(n: int, ss: int)
    ensures (n + 2) * (n + 2) * ss - n * n * ss == (n + 1) * (4 * ss)
  {
    assert (n + 2) * (n + 2) == n * n + 4 * n + 4;
    assert (n * n + 4 * n + 4) * ss == n * n * ss + 4 * (n * ss) + 4 * ss;
  }

  lemma CoefficientOfTS(n: int, ts: int)
    ensures -2 * (n * n * ts) == (n + 1) * (-4 * (n * ts)) + 2 * (n * (n + 2) * ts)
  {
    var k := n * ts;
    assert n * n * ts == n * k;
    assert n * (n + 2) * ts == (n + 2) * k;
  }

  lemma CoefficientOfU(n: int, u: int)
    ensures n * n * (n + 2) * (2 * u) == 2 * (n * (n + 2) * (n * u))
  {
    var k := n * u;
    assert n * n * (n + 2) * (2 * u) == 2 * (n * (n + 2) * k);
  }

  lemma CollectSquare(n: int, tt: int, ss: int, ts: int, u: int)
    ensures n * n * (n + 2) * (tt - 2 * u) - n * n * (ss + 2 * ts + tt) + (n + 2) * (n + 2) * ss
         == (n + 1) * (n * n * tt - 4 * (n * ts) + 4 * ss) + 2 * (n * (n + 2) * ts) - 2 * (n * (n + 2) * (n * u))
  {
    CoefficientOfT(n, tt);
    CoefficientOfS(n, ss);
    CoefficientOfTS(n, ts);
    CoefficientOfU(n, u);
    var c, d := n * n * (n + 2), n * n;
    assert c * (tt - 2 * u) == c * tt - c * (2 * u);
    assert d * (ss + 2 * ts + tt) == d * ss + 2 * (d * ts) + d * tt;
    Distribute(n + 1, n * n * tt, -4 * (n * ts), 4 * ss);
  }

  /** With `n` values of sum `s` and square sum `q`, and `a` and `b` added:
      n² times the new spread minus (n+2)² times the old one, as two non-negative terms. */
  lemma SpreadIdentity(n: int, s: int, q: int, a: int, b: int)
    ensures n * n * ((n + 2) * (q + (a * a + b * b)) - (s + (a + b)) * (s + (a + b)))
            - (n + 2) * (n + 2) * (n * q - s * s)
         == (n + 1) * ((n * (a + b) - 2 * s) * (n * (a + b) - 2 * s))
            + 2 * (n * (n + 2) * ((a + b) * s - n * (a * b) - q))
  {
    var t, u, x := a + b, a * b, n + 2;
    var r, w := a * a + b * b, (s + t) * (s + t);
    assert r == t * t - 2 * u;
    assert w == s * s + 2 * (t * s) + t * t;
    ExpandSpreads(n, x, q, r, w, s * s);
    CollectSquare(n, t * t, s * s, t * s, u);
    SquareOfDifference(n, t, s);
    Distribute(n * x, t * s, -(n * u), -q);
  }

  /** The values between `a` and `b` satisfy (x - a)(b - x) >= 0, summed up. */
  lemma {:induction false} ChordBound(s: seq<int>, a: int, b: int)
    requires forall i :: 0 <= i < |s| ==> a <= s[i] <= b
    ensures (a + b) * Sum(s) - |s| * (a * b) - SumOfSquares(s) >= 0
  {
    if s != [] {
      ChordBound(s[1..], a, b);
      ChordStep(s[0], a, b, Sum(s[1..]), |s[1..]|, SumOfSquares(s[1..]));
    }
  }

  lemma ChordStep(x: int, a: int, b: int, sum: int, k: int, squares: int)
    requires a <= x <= b && (a + b) * sum - k * (a * b) - squares >= 0
    ensures (a + b) * (x + sum) - (1 + k) * (a * b) - (x * x + squares) >= 0
  {
    assert (x - a) * (b - x) >= 0;
    assert (x - a) * (b - x) == (a + b) * x - a * b - x * x;
    assert (a + b) * (x + sum) == (a + b) * x + (a + b) * sum;
    assert (1 + k) * (a * b) == a * b + k * (a * b);
  }

  lemma {:induction false} SumsOfAppend(s: seq<int>, x: int)
    ensures Sum(s + [x]) == Sum(s) + x
    ensures SumOfSquares(s + [x]) == SumOfSquares(s) + x * x
  {
    if s != [] {
      assert (s + [x])[1..] == s[1..] + [x];
      SumsOfAppend(s[1..], x);
    }
  }

  lemma SumsWithEnds(a: int, middle: seq<int>, b: int)
    ensures var s := [a] + middle + [b];
            && Sum(s) == Sum(middle) + (a + b)
            && SumOfSquares(s) == SumOfSquares(middle) + (a * a + b * b)
  {
    var s := [a] + middle + [b];
    assert s == [a] + (middle + [b]) && s[1..] == middle + [b];
    SumsOfAppend(middle, b);
  }

  lemma NonNegativeTerms(n: nat, y: int, z: int)
    requires z >= 0
    ensures (n + 1) * (y * y) + 2 * (n * (n + 2) * z) >= 0
  {
    assert y * y >= 0;
    assert n * (n + 2) >= 0;
    assert n * (n + 2) * z >= 0;
  }

  /** Adding a lower and an upper bound never brings the spread per squared count down. */
  lemma EndsWidenSpread(a: int, middle: seq<int>, b: int)
    requires forall i :: 0 <= i < |middle| ==> a <= middle[i] <= b
    ensures var n := |middle|;
            (n + 2) * (n + 2) * Spread(middle) <= n * n * Spread([a] + middle + [b])
  {
    var n, s, q := |middle|, Sum(middle), SumOfSquares(middle);
    ChordBound(middle, a, b);
    SumsWithEnds(a, middle, b);
    SpreadIdentity(n, s, q, a, b);
    NonNegativeTerms(n, n * (a + b) - 2 * s, (a + b) * s - n * (a * b) - q);
  }

  lemma Rearranged(n: int, m: int, z: int)
    ensures n * z * (m * m * m) == n * m * (m * m * z)
  {
    var mm := m * m;
    assert m * m * m == mm * m;
    assert n * z * (mm * m) == n * m * (mm * z);
  }

  lemma ScaleUp(k: nat, x: int, y: int)
    requires x <= y
    ensures k * x <= k * y
  {
  }

  lemma VarianceByScaling(x: seq<int>, y: seq<int>)
    requires x != [] && y != []
    requires |y| * |y| * Spread(x) <= |x| * |x| * Spread(y)
    ensures AtMost(Variance(x), Variance(y))
  {
    var n, m := |x|, |y|;
    DeviationsAreSpread(x);
    DeviationsAreSpread(y);
    Rearranged(n, m, Spread(x));
    Rearranged(m, n, Spread(y));
    assert m * n == n * m;
    ScaleUp(n * m, m * m * Spread(x), n * n * Spread(y));
  }

  /** Removing the smallest and the largest of at least three samples. */
  lemma OneTrimShrinks(s: seq<int>)
    requires IsSorted(s) && |s| >= 3
    ensures AtMost(Variance(s[1..|s| - 1]), Variance(s))
  {
    var a, middle, b := s[0], s[1..|s| - 1], s[|s| - 1];
    assert s == [a] + middle + [b];
    EndsWidenSpread(a, middle, b);
    VarianceByScaling(middle, s);
  }

  /** Trimming never increases the population variance, for any trim that leaves a sample. */
  lemma {:induction false} TrimmingShrinksVariance(ordered: seq<int>, trim: nat)
    requires IsSorted(ordered) && 2 * trim < |ordered|
    ensures AtMost(Variance(Trimmed(ordered, trim)), Variance(ordered))
  {
    if trim == 0 {
      assert Trimmed(ordered, 0) == ordered;
    } else {
      TrimmingShrinksVariance(ordered, trim - 1);
      OneMoreTrim(ordered, trim);
      VarianceHasDenominator(ordered);
      VarianceHasDenominator(Trimmed(ordered, trim - 1));
      VarianceHasDenominator(Trimmed(ordered, trim));
      AtMostIsTransitive(Variance(Trimmed(ordered, trim)), Variance(Trimmed(ordered, trim - 1)), Variance(ordered));
    }
  }

  lemma VarianceHasDenominator(s: seq<int>)
    requires s != []
    ensures Variance(s).den > 0
  {
    assert |s| * |s| > 0;
  }

  lemma AtMostIsTransitive(x: Ratio, y: Ratio, z: Ratio)
    requires x.den > 0 && y.den > 0 && z.den > 0
    requires AtMost(x, y) && AtMost(y, z)
    ensures AtMost(x, z)
  {
    ScaleUp(z.den, x.num * y.den, y.num * x.den);
    ScaleUp(x.den, y.num * z.den, z.num * y.den);
    Swap(z.den, x.num, y.den);
    Swap(z.den, y.num, x.den);
    Swap(x.den, y.num, z.den);
    Swap(x.den, z.num, y.den);
    assert y.num * (z.den * x.den) == y.num * (x.den * z.den);
    Cancel(y.den, x.num * z.den, z.num * x.den);
  }

  lemma Swap(a: int, b: int, c: int)
    ensures a * (b * c) == b * (a * c) == c * (b * a)
  {
  }

  lemma Cancel(k: int, x: int, y: int)
    requires k > 0 && k * x <= k * y
    ensures x <= y
  {
    assert k * (y - x) >= 0;
  }

  lemma OneMoreTrim(ordered: seq<int>, trim: nat)
    requires IsSorted(ordered) && 0 < 2 * trim < |ordered|
    ensures AtMost(Variance(Trimmed(ordered, trim)), Variance(Trimmed(ordered, trim - 1)))
  {
    SliceOfSlice(ordered, trim - 1, |ordered| - trim + 1);
    TrimmedIsSorted(ordered, trim - 1);
    OneTrimShrinks(Trimmed(ordered, trim - 1));
  }

  lemma SliceOfSlice(s: seq<int>, lo: nat, hi: nat)
    requires lo + 2 <= hi <= |s|
    ensures s[lo..hi][1..hi - lo - 1] == s[lo + 1..hi - 1]
  {
    var x, y := s[lo..hi][1..hi - lo - 1], s[lo + 1..hi - 1];
    assert forall i :: 0 <= i < |y| ==> x[i] == s[lo + 1 + i] == y[i];
  }

  lemma VarianceIgnoresOrder(s: seq<int>)
    requires s != []
    ensures Variance(Sorted(s)) == Variance(s)
  {
    SortedKeepsSums(s);
    DeviationsAreSpread(s);
    DeviationsAreSpread(Sorted(s));
  }

  // ----- the reported integers -----

  /** `int(statistics.median(...))`, from twice the median: truncation towards zero. */
  function Halved(doubled: int): int {
    if doubled >= 0 then doubled / 2 else -((-doubled) / 2)
  }

  /** Half of the number, cut towards zero. */
  lemma HalvedTruncates(doubled: int)
    ensures doubled >= 0 ==> 2 * Halved(doubled) <= doubled < 2 * Halved(doubled) + 2
    ensures doubled <= 0 ==> 2 * Halved(doubled) - 2 < doubled <= 2 * Halved(doubled)
  {
  }

  lemma HalvedEven(x: int)
    ensures Halved(2 * x) == x
  {
  }

  lemma SameReport(m: int, x: int, r: seq<int>)
    requires |r| % 2 == 0
    ensures Halved(MedianWith(m, r)) == Halved(MedianWith(x, r)) <==> Clamped(m, r) == Clamped(x, r)
  {
    HalvedEven(Clamped(m, r));
    HalvedEven(Clamped(x, r));
  }

  /** The largest integer whose square is at most `v`, searched upwards from `k`. */
  function RootFrom(v: Ratio, k: nat): (r: nat)
    requires v.den > 0 && k * k * v.den <= v.num
    ensures r * r * v.den <= v.num < (r + 1) * (r + 1) * v.den
    decreases v.num - k
  {
    if (k + 1) * (k + 1) * v.den <= v.num then
      RootIsSmall(k + 1, v);
      RootFrom(v, k + 1)
    else k
  }

  lemma RootIsSmall(k: nat, v: Ratio)
    requires v.den > 0 && k * k * v.den <= v.num
    ensures k <= v.num
  {
    assert k <= k * k;
    assert k * k <= k * k * v.den;
  }

  /** `int(statistics.pstdev(...))`, from the variance. */
  function RootFloor(v: Ratio): (r: nat)
    requires v.den > 0 && v.num >= 0
    ensures r * r * v.den <= v.num < (r + 1) * (r + 1) * v.den
  {
    RootFrom(v, 0)
  }

  lemma RootIsMonotone(v: Ratio, w: Ratio)
    requires v.den > 0 && w.den > 0 && v.num >= 0 && w.num >= 0
    requires AtMost(v, w)
    ensures RootFloor(v) <= RootFloor(w)
  {
    var r, q := RootFloor(v), RootFloor(w);
    BetweenRatios(r * r, (q + 1) * (q + 1), v.num, v.den, w.num, w.den);
    SmallerSquare(r, q + 1);
  }

  /** Integers below and above two ratios in order are themselves in order. */
  lemma BetweenRatios(x: int, y: int, a: int, b: int, c: int, d: int)
    requires b > 0 && d > 0 && x * b <= a && a * d <= c * b && c < y * d
    ensures x < y
  {
    Scaled(x * b, a, d);
    ScaledStrictly(c, y * d, b);
    assert x * b * d == x * (b * d) && y * d * b == y * (b * d);
    if x >= y {
      Scaled(y, x, b * d);
    }
  }

  lemma Scaled(x: int, y: int, k: int)
    requires x <= y && k >= 0
    ensures x * k <= y * k
  {
  }

  lemma ScaledStrictly(x: int, y: int, k: int)
    requires x < y && k > 0
    ensures x * k < y * k
  {
  }

  lemma SmallerSquare(a: nat, b: nat)
    requires a * a < b * b
    ensures a < b
  {
    if a >= b {
      Scaled(b, a, b);
      Scaled(b, a, a);
    }
  }

  lemma {:induction false} DeviationSumIsNonNegative(s: seq<int>, n: int, m: int)
    ensures DeviationSum(s, n, m) >= 0
  {
    if s != [] {
      DeviationSumIsNonNegative(s[1..], n, m);
      SquareIsNonNegative(n * s[0] - m);
    }
  }

  lemma SquareIsNonNegative(x: int)
    ensures x * x >= 0
  {
  }

  lemma VarianceIsNonNegative(s: seq<int>)
    requires s != []
    ensures Variance(s).num >= 0
  {
    DeviationSumIsNonNegative(s, |s|, Sum(s));
  }
}
