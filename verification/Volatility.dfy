/** Realized volatility and its percentile (market-regime/volatility.calculator.ts), and the
    thresholds that turn a percentile into a regime. Numbers are reals; the square root is a
    parameter `root`, about which most results need to know nothing. */
module Volatility {
  import opened Common

  type Root = real -> real

  /** A logarithm; all that is needed of it is that two has a positive one. */
  type Log = f: real -> real | f(2.0) > 0.0 witness (x: real) => x

  /** The volatility method; any other method string means Standard. */
  datatype Weighting = Standard | Exponential | Parkinson(log: Log)

  datatype Config = Config(rollingDays: nat, lookbackDays: nat, annualizationFactor: real, weighting: Weighting)

  datatype MarketRegimeType = LowVolatility | Normal | HighVolatility | Extreme

  // ---------------------------------------------------------------- returns

  function SimpleReturn(a: real, b: real): real
    requires a != 0.0
  {
    (b - a) / a
  }

  /** Simple returns; a step whose base price is zero yields none. */
  function Returns(prices: seq<real>): (r: seq<real>)
    ensures |r| <= |prices|
  {
    var n := |prices|;
    if n < 2 then []
    else Returns(prices[..n - 1])
         + if prices[n - 2] != 0.0 then [SimpleReturn(prices[n - 2], prices[n - 1])] else []
  }

  method CalculateReturns(prices: seq<real>) returns (rets: seq<real>)
    ensures rets == Returns(prices)
  {
    rets := [];
    if |prices| == 0 { return; }
    for i := 1 to |prices|
      invariant rets == Returns(prices[..i])
    {
      assert prices[..i + 1][..i] == prices[..i];
      if prices[i - 1] != 0.0 {
        rets := rets + [SimpleReturn(prices[i - 1], prices[i])];
      }
    }
    assert prices[..|prices|] == prices;
  }

  /** The returns of a series are those up to a price followed by those from that price on. */
  lemma {:induction false} ReturnsSplit(prices: seq<real>, k: nat)
    requires k < |prices|
    ensures Returns(prices) == Returns(prices[..k + 1]) + Returns(prices[k..])
  {
    var n := |prices|;
    if k == n - 1 {
      assert prices[..k + 1] == prices;
    } else {
      ReturnsSplit(prices[..n - 1], k);
      assert prices[..n - 1][..k + 1] == prices[..k + 1];
      assert prices[..n - 1][k..] == prices[k..][..n - 1 - k];
    }
  }

  lemma PriceTimesReturn(a: real, b: real)
    requires a != 0.0
    ensures Times(a, 1.0 + SimpleReturn(a, b)) == b
  {
    var q := (b - a) / a;
    assert q * a == b - a;
  }

  lemma {:induction false} ReturnAt(prices: seq<real>, i: nat)
    requires i + 1 < |prices| && forall k :: 0 <= k < |prices| - 1 ==> prices[k] != 0.0
    ensures |Returns(prices)| == |prices| - 1
    ensures Returns(prices)[i] == SimpleReturn(prices[i], prices[i + 1])
  {
    ReturnsCount(prices);
    var front := prices[..|prices| - 1];
    ReturnsCount(front);
    if i + 1 < |front| { ReturnAt(front, i); }
  }

  /** Without a zero base price the prices can be recovered: each is the one before times one plus its
      return. */
  lemma ReturnsLeadBack(prices: seq<real>, i: nat)
    requires i + 1 < |prices| && forall k :: 0 <= k < |prices| - 1 ==> prices[k] != 0.0
    ensures i < |Returns(prices)| && Times(prices[i], 1.0 + Returns(prices)[i]) == prices[i + 1]
  {
    ReturnAt(prices, i);
    PriceTimesReturn(prices[i], prices[i + 1]);
  }

  /** There is one return less than prices, fewer exactly when a base price is zero. */
  lemma {:induction false} ReturnsCount(prices: seq<real>)
    requires prices != []
    ensures |Returns(prices)| <= |prices| - 1
    ensures |Returns(prices)| == |prices| - 1 <==> forall i :: 0 <= i < |prices| - 1 ==> prices[i] != 0.0
  {
    if |prices| > 1 {
      var front := prices[..|prices| - 1];
      ReturnsCount(front);
      assert forall i :: 0 <= i < |front| ==> front[i] == prices[i];
    }
  }

  // ---------------------------------------------------------------- variances

  function Sum(s: seq<real>): real {
    if s == [] then 0.0 else Sum(s[..|s| - 1]) + s[|s| - 1]
  }

  function Mean(s: seq<real>): real
    requires s != []
  {
    Sum(s) / |s| as real
  }

  function Times(c: real, x: real): real {
    c * x
  }

  function SquaredDeviation(x: real, mean: real): real {
    Times(x - mean, x - mean)
  }

  function SquaredDeviations(s: seq<real>, mean: real): seq<real> {
    seq(|s|, i requires 0 <= i < |s| => SquaredDeviation(s[i], mean))
  }

  function StandardVariance(s: seq<real>): real {
    if s == [] then 0.0 else Mean(SquaredDeviations(s, Mean(s)))
  }

  function Power(b: real, e: nat): real {
    if e == 0 then 1.0 else b * Power(b, e - 1)
  }

  /** The first n terms of the weighted sum of squared deviations, and of the weights. */
  function WeightedSum(d: seq<real>, lambda: real, n: nat): real
    requires n <= |d|
  {
    if n == 0 then 0.0 else WeightedSum(d, lambda, n - 1) + Times(Power(lambda, |d| - n), d[n - 1])
  }

  function WeightSum(size: nat, lambda: real, n: nat): real
    requires n <= size
  {
    if n == 0 then 0.0 else WeightSum(size, lambda, n - 1) + Power(lambda, size - n)
  }

  function ExponentialVariance(s: seq<real>, lambda: real): real
    requires lambda > 0.0
  {
    if s == [] then 0.0
    else
      WeightSumPositive(|s|, lambda, |s|);
      WeightedSum(SquaredDeviations(s, Mean(s)), lambda, |s|) / WeightSum(|s|, lambda, |s|)
  }

  lemma {:induction false} PowerPositive(b: real, e: nat)
    requires b > 0.0
    ensures Power(b, e) > 0.0
  {
    if e > 0 { PowerPositive(b, e - 1); }
  }

  lemma {:induction false} WeightSumPositive(size: nat, lambda: real, n: nat)
    requires lambda > 0.0 && n <= size
    ensures WeightSum(size, lambda, n) >= 0.0
    ensures n > 0 ==> WeightSum(size, lambda, n) > 0.0
  {
    if n > 0 {
      WeightSumPositive(size, lambda, n - 1);
      PowerPositive(lambda, size - n);
    }
  }

  /** calculateExponentialVolatility before the square root. */
  method CalculateExponentialVariance(s: seq<real>, lambda: real) returns (variance: real)
    requires lambda > 0.0
    ensures variance == ExponentialVariance(s, lambda)
  {
    if |s| == 0 { return 0.0; }
    var mean := Mean(s);
    var weightedVariance, totalWeight := 0.0, 0.0;
    for i := 0 to |s|
      invariant weightedVariance == WeightedSum(SquaredDeviations(s, mean), lambda, i)
      invariant totalWeight == WeightSum(|s|, lambda, i)
    {
      var weight := Power(lambda, |s| - 1 - i);
      weightedVariance := weightedVariance + Times(weight, SquaredDeviation(s[i], mean));
      totalWeight := totalWeight + weight;
    }
    WeightSumPositive(|s|, lambda, |s|);
    return weightedVariance / totalWeight;
  }

  lemma {:induction false} SumOfNonnegatives(s: seq<real>)
    requires forall i :: 0 <= i < |s| ==> s[i] >= 0.0
    ensures Sum(s) >= 0.0
    ensures Sum(s) == 0.0 <==> forall i :: 0 <= i < |s| ==> s[i] == 0.0
  {
    if s != [] {
      var front := s[..|s| - 1];
      SumOfNonnegatives(front);
      assert (forall i :: 0 <= i < |s| ==> s[i] == 0.0) <==>
             s[|s| - 1] == 0.0 && forall i :: 0 <= i < |front| ==> front[i] == 0.0;
    }
  }

  lemma {:induction false} SumOfConstant(s: seq<real>, v: real)
    requires forall i :: 0 <= i < |s| ==> s[i] == v
    ensures Sum(s) == |s| as real * v
  {
    if s != [] {
      SumOfConstant(s[..|s| - 1], v);
      var k := (|s| - 1) as real;
      assert |s| as real == k + 1.0;
      assert (k + 1.0) * v == k * v + v;
    }
  }

  lemma {:induction false} SumConcat(s: seq<real>, t: seq<real>)
    ensures Sum(s + t) == Sum(s) + Sum(t)
  {
    if t == [] {
      assert s + t == s;
    } else {
      assert (s + t)[..|s + t| - 1] == s + t[..|t| - 1];
      SumConcat(s, t[..|t| - 1]);
    }
  }

  lemma SumSingle(x: real)
    ensures Sum([x]) == x
  {
    assert [x][..0] == [];
  }

  lemma SumAround(s: seq<real>, x: real, t: seq<real>)
    ensures Sum(s + ([x] + t)) == Sum(s + t) + x
  {
    SumConcat(s, [x] + t);
    SumConcat([x], t);
    SumConcat(s, t);
    SumSingle(x);
  }

  lemma SumWithout(s: seq<real>, i: nat)
    requires i < |s|
    ensures Sum(s) == Sum(s[..i] + s[i + 1..]) + s[i]
  {
    SplitAt(s, i);
    SumAround(s[..i], s[i], s[i + 1..]);
  }

  /** A sum counts every element, in any order. */
  lemma {:induction false} SumPermuted(s: seq<real>, t: seq<real>)
    requires multiset(s) == multiset(t)
    ensures Sum(s) == Sum(t)
    decreases |s|
  {
    if s == [] {
      assert |multiset(t)| == |multiset(s)|;
    } else {
      var i := TakeLastOut(s, t);
      SumPermuted(s[..|s| - 1], t[..i] + t[i + 1..]);
      SumWithout(t, i);
    }
  }

  /** The deviations from the mean cancel: the mean times the count is the sum. */
  lemma MeanTimesCount(s: seq<real>)
    requires s != []
    ensures Times(|s| as real, Mean(s)) == Sum(s)
  {
  }

  lemma ExpandSquare(x: real, mean: real)
    ensures SquaredDeviation(x, mean) == Times(x, x) - 2.0 * Times(mean, x) + Times(mean, mean)
  {
  }

  lemma TimesDistributes(c: real, x: real, y: real)
    ensures Times(c, x + y) == Times(c, x) + Times(c, y)
    ensures Times(x + y, c) == Times(x, c) + Times(y, c)
  {
  }

  function Squares(s: seq<real>): seq<real> {
    seq(|s|, i requires 0 <= i < |s| => Times(s[i], s[i]))
  }

  lemma {:induction false} SumOfSquaredDeviations(s: seq<real>, mean: real)
    ensures Sum(SquaredDeviations(s, mean))
         == Sum(Squares(s)) - 2.0 * Times(mean, Sum(s)) + Times(|s| as real, Times(mean, mean))
  {
    if s != [] {
      var front, last := s[..|s| - 1], s[|s| - 1];
      SumOfSquaredDeviations(front, mean);
      assert SquaredDeviations(s, mean)[..|front|] == SquaredDeviations(front, mean);
      assert Squares(s)[..|front|] == Squares(front);
      ExpandSquare(last, mean);
      TimesDistributes(mean, Sum(front), last);
      TimesDistributes(Times(mean, mean), |front| as real, 1.0);
    }
  }

  /** Standard variance is the mean of the squares less the square of the mean. */
  lemma VarianceByMoments(s: seq<real>)
    requires s != []
    ensures Times(|s| as real, StandardVariance(s))
         == Sum(Squares(s)) - Times(|s| as real, Times(Mean(s), Mean(s)))
  {
    var n, mean := |s| as real, Mean(s);
    SumOfSquaredDeviations(s, mean);
    MeanTimesCount(s);
    MeanTimesCount(SquaredDeviations(s, mean));
    TimesTwice(n, mean);
  }

  lemma TimesTwice(n: real, mean: real)
    ensures Times(mean, Times(n, mean)) == Times(n, Times(mean, mean))
  {
  }

  lemma DivideZero(x: real, y: real)
    requires x >= 0.0 && y > 0.0
    ensures x / y >= 0.0
    ensures x / y == 0.0 <==> x == 0.0
  {
  }

  lemma TimesSameSign(a: real, b: real)
    requires (a > 0.0 && b > 0.0) || (a < 0.0 && b < 0.0)
    ensures Times(a, b) > 0.0
  {
  }

  lemma TimesZero(a: real, b: real)
    requires a == 0.0
    ensures Times(a, b) == 0.0
  {
  }

  lemma MeanOfConstant(s: seq<real>, v: real)
    requires s != [] && forall i :: 0 <= i < |s| ==> s[i] == v
    ensures Mean(s) == v
  {
    SumOfConstant(s, v);
    assert Sum(s) == |s| as real * v;
    QuotientIs(Sum(s), |s| as real, v);
  }

  lemma QuotientIs(x: real, y: real, q: real)
    requires y != 0.0 && x == y * q
    ensures x / y == q
  {
    var r := x / y;
    assert r * y == x;
    if r != q { ProductNonzero(r - q, y); }
  }

  lemma ProductNonzero(a: real, b: real)
    requires a != 0.0 && b != 0.0
    ensures a * b != 0.0
  {
  }

  /** Standard variance is nonnegative, and zero exactly when all returns are equal. */
  lemma VarianceZeroIffConstant(s: seq<real>)
    ensures StandardVariance(s) >= 0.0
    ensures StandardVariance(s) == 0.0 <==> forall i, j :: 0 <= i < |s| && 0 <= j < |s| ==> s[i] == s[j]
  {
    if s != [] {
      var mean := Mean(s);
      var d := SquaredDeviations(s, mean);
      forall i | 0 <= i < |d| ensures 0.0 <= d[i] && (d[i] == 0.0 <==> s[i] == mean) {
        if s[i] == mean { TimesZero(s[i] - mean, s[i] - mean); } else { TimesSameSign(s[i] - mean, s[i] - mean); }
      }
      SumOfNonnegatives(d);
      DivideZero(Sum(d), |d| as real);
      assert StandardVariance(s) == 0.0 <==> forall i :: 0 <= i < |s| ==> s[i] == mean;
      if forall i, j :: 0 <= i < |s| && 0 <= j < |s| ==> s[i] == s[j] {
        MeanOfConstant(s, s[0]);
        assert StandardVariance(s) == 0.0;
      } else {
        assert exists i :: 0 <= i < |s| && s[i] != mean;
      }
    } else {
      assert StandardVariance(s) == 0.0;
    }
  }

  lemma ScaleBounds(w: real, d: real, lo: real, hi: real)
    requires w > 0.0 && lo <= d <= hi
    ensures lo * w <= w * d <= hi * w
  {
  }

  /** One more weighted term keeps a weighted sum between the bounds times the total weight. */
  lemma TermBounds(t: real, w: real, x: real, d: real, lo: real, hi: real)
    requires w > 0.0 && lo <= d <= hi
    requires Times(lo, t) <= x <= Times(hi, t)
    ensures Times(lo, t + w) <= x + Times(w, d) <= Times(hi, t + w)
  {
    ScaleBounds(w, d, lo, hi);
  }

  lemma {:induction false} WeightedSumBounds(d: seq<real>, lambda: real, n: nat, lo: real, hi: real)
    requires lambda > 0.0 && n <= |d|
    requires forall i :: 0 <= i < |d| ==> lo <= d[i] <= hi
    ensures Times(lo, WeightSum(|d|, lambda, n)) <= WeightedSum(d, lambda, n)
    ensures WeightedSum(d, lambda, n) <= Times(hi, WeightSum(|d|, lambda, n))
  {
    if n > 0 {
      WeightedSumBounds(d, lambda, n - 1, lo, hi);
      PowerPositive(lambda, |d| - n);
      TermBounds(WeightSum(|d|, lambda, n - 1), Power(lambda, |d| - n), WeightedSum(d, lambda, n - 1), d[n - 1],
                 lo, hi);
    }
  }

  lemma TimesAssociates(a: real, b: real, c: real)
    ensures Times(a, Times(b, c)) == Times(a * b, c)
  {
  }

  lemma {:induction false} OlderTermsDecay(d: seq<real>, x: real, lambda: real, n: nat)
    requires n <= |d|
    ensures WeightedSum(d + [x], lambda, n) == Times(lambda, WeightedSum(d, lambda, n))
    ensures WeightSum(|d| + 1, lambda, n) == Times(lambda, WeightSum(|d|, lambda, n))
  {
    if n > 0 {
      OlderTermsDecay(d, x, lambda, n - 1);
      var p := Power(lambda, |d| - n);
      assert Power(lambda, |d| + 1 - n) == lambda * p;
      TimesAssociates(lambda, p, d[n - 1]);
      TimesDistributes(lambda, WeightedSum(d, lambda, n - 1), Times(p, d[n - 1]));
      TimesDistributes(lambda, WeightSum(|d|, lambda, n - 1), p);
    } else {
      TimesZero(0.0, lambda);
    }
  }

  /** The newest term has weight one, and each new one makes all older terms count lambda times as much. */
  lemma NewestWeighsOne(d: seq<real>, x: real, lambda: real)
    ensures WeightedSum(d + [x], lambda, |d| + 1) == Times(lambda, WeightedSum(d, lambda, |d|)) + x
    ensures WeightSum(|d| + 1, lambda, |d| + 1) == Times(lambda, WeightSum(|d|, lambda, |d|)) + 1.0
  {
    OlderTermsDecay(d, x, lambda, |d|);
    assert Power(lambda, 0) == 1.0;
  }

  lemma DivideBounds(x: real, y: real, lo: real, hi: real)
    requires y > 0.0 && lo * y <= x <= hi * y
    ensures lo <= x / y <= hi
  {
    var q := x / y;
    assert q * y == x;
    if q < lo { StrictScale(q, lo, y); }
    if hi < q { StrictScale(hi, q, y); }
  }

  lemma StrictScale(a: real, b: real, y: real)
    requires a < b && y > 0.0
    ensures a * y < b * y
  {
  }

  /** Exponential variance lies between any bounds of the squared deviations, so between the least
      and the greatest of them. */
  lemma ExponentialVarianceBounds(s: seq<real>, lambda: real, lo: real, hi: real)
    requires s != [] && lambda > 0.0
    requires forall i :: 0 <= i < |s| ==> lo <= SquaredDeviation(s[i], Mean(s)) <= hi
    ensures lo <= ExponentialVariance(s, lambda) <= hi
  {
    WeightedSumBounds(SquaredDeviations(s, Mean(s)), lambda, |s|, lo, hi);
    WeightSumPositive(|s|, lambda, |s|);
    DivideBounds(WeightedSum(SquaredDeviations(s, Mean(s)), lambda, |s|), WeightSum(|s|, lambda, |s|), lo, hi);
  }

  // ---------------------------------------------------------------- Parkinson variance

  /** The squared logarithm of the ratio of two prices, the higher to the lower. */
  function SquaredRange(log: Log, a: real, b: real): real {
    var high, low := if a < b then b else a, if a < b then a else b;
    if low > 0.0 then Times(log(high / low), log(high / low)) else 0.0
  }

  function SquaredRanges(log: Log, prices: seq<real>): real {
    var n := |prices|;
    if n < 2 then 0.0
    else SquaredRanges(log, prices[..n - 1]) + SquaredRange(log, prices[n - 2], prices[n - 1])
  }

  function RangeDivisor(log: Log, n: nat): (d: real)
    ensures n > 0 ==> d > 0.0
  {
    4.0 * log(2.0) * n as real
  }

  function ParkinsonVariance(log: Log, prices: seq<real>): real {
    if |prices| < 2 then 0.0 else SquaredRanges(log, prices) / RangeDivisor(log, |prices| - 1)
  }

  method CalculateParkinsonVariance(log: Log, prices: seq<real>) returns (variance: real)
    ensures variance == ParkinsonVariance(log, prices)
  {
    if |prices| < 2 { return 0.0; }
    var sumSquaredLogs := 0.0;
    for i := 1 to |prices|
      invariant sumSquaredLogs == SquaredRanges(log, prices[..i])
    {
      assert prices[..i + 1][..i] == prices[..i];
      var high := if prices[i - 1] < prices[i] then prices[i] else prices[i - 1];
      var low := if prices[i - 1] < prices[i] then prices[i - 1] else prices[i];
      if low > 0.0 {
        sumSquaredLogs := sumSquaredLogs + Times(log(high / low), log(high / low));
      }
    }
    assert prices[..|prices|] == prices;
    return sumSquaredLogs / RangeDivisor(log, |prices| - 1);
  }

  /** The logarithm of a price ratio is zero exactly when the prices are equal. */
  ghost predicate ZeroAtOneOnly(log: Log) {
    forall x: real :: x > 0.0 ==> (log(x) == 0.0 <==> x == 1.0)
  }

  ghost predicate Flat(prices: seq<real>, i: nat)
    requires 0 < i < |prices|
  {
    prices[i - 1] <= 0.0 || prices[i] <= 0.0 || prices[i - 1] == prices[i]
  }

  ghost predicate AllFlat(prices: seq<real>) {
    forall i: nat :: 0 < i < |prices| ==> Flat(prices, i)
  }

  lemma SquaredRangeZeroIff(log: Log, a: real, b: real)
    requires ZeroAtOneOnly(log)
    ensures SquaredRange(log, a, b) >= 0.0
    ensures SquaredRange(log, a, b) == 0.0 <==> a <= 0.0 || b <= 0.0 || a == b
  {
    var high, low := if a < b then b else a, if a < b then a else b;
    if low > 0.0 {
      RatioOne(high, low);
      SquareZeroIff(log(high / low), log(high / low));
    }
  }

  lemma RatioOne(high: real, low: real)
    requires high >= low > 0.0
    ensures high / low > 0.0
    ensures high / low == 1.0 <==> high == low
  {
    var q := high / low;
    assert q * low == high;
  }

  lemma SquareZeroIff(x: real, y: real)
    requires x == y
    ensures Times(x, y) >= 0.0
    ensures Times(x, y) == 0.0 <==> x == 0.0
  {
    if x == 0.0 { TimesZero(x, y); } else { TimesSameSign(x, y); }
  }

  lemma {:induction false} SquaredRangesZeroIff(log: Log, prices: seq<real>)
    requires ZeroAtOneOnly(log)
    ensures SquaredRanges(log, prices) >= 0.0
    ensures SquaredRanges(log, prices) == 0.0 <==> AllFlat(prices)
  {
    var n := |prices|;
    if n >= 2 {
      var front := prices[..n - 1];
      SquaredRangesZeroIff(log, front);
      SquaredRangeZeroIff(log, prices[n - 2], prices[n - 1]);
      assert forall i: nat :: 0 < i < n - 1 ==> Flat(front, i) == Flat(prices, i);
      assert AllFlat(prices) <==> AllFlat(front) && Flat(prices, n - 1);
    }
  }

  /** Parkinson variance is nonnegative, and zero exactly when no step leads from a positive price to a
      different positive price. */
  lemma ParkinsonZeroIffFlat(log: Log, prices: seq<real>)
    requires ZeroAtOneOnly(log)
    ensures ParkinsonVariance(log, prices) >= 0.0
    ensures ParkinsonVariance(log, prices) == 0.0 <==> AllFlat(prices)
  {
    SquaredRangesZeroIff(log, prices);
    if |prices| >= 2 {
      QuotientSign(SquaredRanges(log, prices), RangeDivisor(log, |prices| - 1));
    }
  }

  /** Doubling prices have the Parkinson variance log(2) / 4: each squared range is log(2) squared. */
  lemma ParkinsonOfDoubling(log: Log, prices: seq<real>)
    requires |prices| >= 2 && prices[0] > 0.0
    requires forall i :: 0 < i < |prices| ==> prices[i] == 2.0 * prices[i - 1]
    ensures ParkinsonVariance(log, prices) == log(2.0) / 4.0
  {
    var steps, l := (|prices| - 1) as real, log(2.0);
    DoublingRanges(log, prices);
    DoublingQuotient(steps, l);
  }

  lemma DoublingQuotient(steps: real, l: real)
    requires steps > 0.0 && l > 0.0
    ensures 4.0 * l * steps != 0.0 && Times(steps, Times(l, l)) / (4.0 * l * steps) == l / 4.0
  {
    var d := 4.0 * l * steps;
    assert l * steps > 0.0;
    assert Times(steps, Times(l, l)) == d * (l / 4.0);
    QuotientIs(Times(steps, Times(l, l)), d, l / 4.0);
  }

  lemma {:induction false} DoublingRanges(log: Log, prices: seq<real>)
    requires prices != [] && prices[0] > 0.0
    requires forall i :: 0 < i < |prices| ==> prices[i] == 2.0 * prices[i - 1]
    ensures prices[|prices| - 1] > 0.0
    ensures SquaredRanges(log, prices) == Times((|prices| - 1) as real, Times(log(2.0), log(2.0)))
  {
    var n := |prices|;
    if n == 1 {
      TimesZero(0.0, Times(log(2.0), log(2.0)));
    } else {
      DoublingRanges(log, prices[..n - 1]);
      var a, b := prices[n - 2], prices[n - 1];
      QuotientIs(b, a, 2.0);
      TimesDistributes(Times(log(2.0), log(2.0)), (n - 2) as real, 1.0);
    }
  }

  lemma QuotientSign(x: real, y: real)
    requires x >= 0.0 && y > 0.0
    ensures x / y >= 0.0
    ensures x / y == 0.0 <==> x == 0.0
  {
  }

  // ---------------------------------------------------------------- realized volatility

  /** `s.slice(-n)`. */
  function SliceFromEnd(s: seq<real>, n: nat): seq<real> {
    if n == 0 || n >= |s| then s else s[|s| - n..]
  }

  const LAMBDA := 0.94

  function CurrentVariance(config: Config, prices: seq<real>): real {
    match config.weighting
    case Standard => StandardVariance(SliceFromEnd(Returns(prices), config.rollingDays))
    case Exponential => ExponentialVariance(SliceFromEnd(Returns(prices), config.rollingDays), LAMBDA)
    case Parkinson(log) => ParkinsonVariance(log, SliceFromEnd(prices, config.rollingDays + 1))
  }

  function Annualized(root: Root, config: Config, variance: real): real {
    root(variance) * root(config.annualizationFactor)
  }

  function CurrentVolatility(root: Root, config: Config, prices: seq<real>): real {
    Annualized(root, config, CurrentVariance(config, prices))
  }

  /** `root` is the square root at x. */
  ghost predicate IsRootAt(root: Root, x: real) {
    root(x) >= 0.0 && Times(root(x), root(x)) == x
  }

  /** The annualized volatility is the nonnegative number whose square is the variance times the factor. */
  lemma VolatilitySquared(root: Root, config: Config, prices: seq<real>)
    requires IsRootAt(root, CurrentVariance(config, prices)) && IsRootAt(root, config.annualizationFactor)
    ensures var v := CurrentVolatility(root, config, prices);
            v >= 0.0 && Times(v, v) == Times(CurrentVariance(config, prices), config.annualizationFactor)
  {
    SquareOfProduct(root(CurrentVariance(config, prices)), root(config.annualizationFactor));
  }

  lemma SquareOfProduct(a: real, b: real)
    requires a >= 0.0 && b >= 0.0
    ensures a * b >= 0.0
    ensures Times(a * b, a * b) == Times(Times(a, a), Times(b, b))
  {
    var p := a * b;
    calc {
      Times(p, p);
      p * (a * b);
      (p * a) * b;
      ((a * b) * a) * b;
      ((a * a) * b) * b;
      (a * a) * (b * b);
    }
  }

  /** The exponential method weighs each recent return 0.94 times as much as the next; no rolling days at all
      mean all returns. */
  lemma ExponentialMethod(config: Config, prices: seq<real>)
    requires config.weighting.Exponential?
    ensures var recent := if config.rollingDays == 0 then Returns(prices)
                          else SliceFromEnd(Returns(prices), config.rollingDays);
            recent != [] ==>
              Times(WeightSum(|recent|, 0.94, |recent|), CurrentVariance(config, prices))
              == WeightedSum(SquaredDeviations(recent, Mean(recent)), 0.94, |recent|)
  {
    var recent := SliceFromEnd(Returns(prices), config.rollingDays);
    if recent != [] {
      WeightSumPositive(|recent|, 0.94, |recent|);
      QuotientTimes(WeightedSum(SquaredDeviations(recent, Mean(recent)), 0.94, |recent|),
                    WeightSum(|recent|, 0.94, |recent|));
    }
  }

  /** The Parkinson method looks at the last rolling days and the price before them. */
  lemma ParkinsonMethod(config: Config, older: seq<real>, last: seq<real>)
    requires config.weighting.Parkinson? && |last| == config.rollingDays + 1
    ensures CurrentVariance(config, older + last) == ParkinsonVariance(config.weighting.log, last)
  {
    assert SliceFromEnd(older + last, |last|) == last;
  }

  lemma QuotientTimes(x: real, y: real)
    requires y != 0.0
    ensures Times(y, x / y) == x
  {
  }

  /** None stands for InsufficientDataException. */
  method CalculateRealizedVolatility(root: Root, prices: seq<real>, config: Config) returns (r: Option<real>)
    ensures r.None? <==> |prices| < config.rollingDays + 1
    ensures r.Some? ==> r.value == CurrentVolatility(root, config, prices)
  {
    if |prices| < config.rollingDays + 1 { return None; }
    var rets := CalculateReturns(prices);
    var recent := SliceFromEnd(rets, config.rollingDays);
    var variance;
    match config.weighting {
      case Standard => variance := StandardVariance(recent);
      case Exponential => variance := CalculateExponentialVariance(recent, LAMBDA);
      case Parkinson(log) =>
        variance := CalculateParkinsonVariance(log, SliceFromEnd(prices, config.rollingDays + 1));
    }
    return Some(Annualized(root, config, variance));
  }

  // ---------------------------------------------------------------- percentile

  function Window(prices: seq<real>, rollingDays: nat, i: nat): seq<real>
    requires rollingDays <= i < |prices|
  {
    prices[i - rollingDays..i + 1]
  }

  /** The volatility of the rolling window that ends at price i; always the standard method. */
  function WindowVolatility(root: Root, prices: seq<real>, config: Config, i: nat): real
    requires config.rollingDays <= i < |prices|
  {
    Annualized(root, config, StandardVariance(Returns(Window(prices, config.rollingDays, i))))
  }

  function Historical(root: Root, prices: seq<real>, config: Config): seq<real> {
    if |prices| <= config.rollingDays then []
    else seq(|prices| - config.rollingDays, k requires 0 <= k < |prices| - config.rollingDays =>
           WindowVolatility(root, prices, config, config.rollingDays + k))
  }

  function CountBelow(s: seq<real>, x: real): (c: nat)
    ensures c <= |s|
  {
    if s == [] then 0 else CountBelow(s[..|s| - 1], x) + if s[|s| - 1] < x then 1 else 0
  }

  /** NotANumber is the 0 / 0 of an empty history. */
  datatype Percentile = InsufficientData | NotANumber | Rank(value: real)

  function RankOf(historical: seq<real>, current: real): real
    requires historical != []
  {
    CountBelow(historical, current) as real / |historical| as real * 100.0
  }

  function PercentileOf(root: Root, current: real, prices: seq<real>, config: Config): Percentile {
    var historical := Historical(root, prices, config);
    if |prices| < config.lookbackDays then InsufficientData
    else if historical == [] then NotANumber
    else Rank(RankOf(historical, current))
  }

  method CalculateWindowVolatility(root: Root, prices: seq<real>, config: Config, i: nat) returns (volatility: real)
    requires config.rollingDays <= i < |prices|
    ensures volatility == WindowVolatility(root, prices, config, i)
  {
    var rets := CalculateReturns(prices[i - config.rollingDays..i + 1]);
    volatility := Annualized(root, config, StandardVariance(rets));
  }

  /** The loop over the rolling windows. */
  method CalculateHistorical(root: Root, prices: seq<real>, config: Config) returns (historical: seq<real>)
    ensures historical == Historical(root, prices, config)
  {
    historical := [];
    if |prices| <= config.rollingDays { return; }
    for i := config.rollingDays to |prices|
      invariant |historical| == i - config.rollingDays
      invariant forall k :: 0 <= k < |historical| ==>
                  historical[k] == WindowVolatility(root, prices, config, config.rollingDays + k)
    {
      var volatility := CalculateWindowVolatility(root, prices, config, i);
      historical := historical + [volatility];
    }
  }

  method CalculatePercentile(root: Root, current: real, prices: seq<real>, config: Config) returns (p: Percentile)
    ensures p == PercentileOf(root, current, prices, config)
  {
    if |prices| < config.lookbackDays { return InsufficientData; }
    var historical := CalculateHistorical(root, prices, config);
    if |historical| == 0 { return NotANumber; }
    return Rank(RankOf(historical, current));
  }

  ghost function PositionsBelow(s: seq<real>, x: real): set<nat> {
    set k: nat | k < |s| && s[k] < x
  }

  lemma {:induction false} CountBelowCounts(s: seq<real>, x: real)
    ensures CountBelow(s, x) == |PositionsBelow(s, x)|
  {
    if s == [] {
      assert PositionsBelow(s, x) == {};
    } else {
      var n := |s| - 1;
      CountBelowCounts(s[..n], x);
      assert PositionsBelow(s, x) == PositionsBelow(s[..n], x) + if s[n] < x then {n} else {};
    }
  }

  /** Window k, which ends k prices after the first window, has a lower volatility. */
  predicate IsLowerWindow(root: Root, prices: seq<real>, config: Config, current: real, k: nat) {
    k < |prices| - config.rollingDays && WindowVolatility(root, prices, config, config.rollingDays + k) < current
  }

  ghost function LowerWindows(root: Root, prices: seq<real>, config: Config, current: real): set<nat> {
    set k: nat | k < |prices| - config.rollingDays && IsLowerWindow(root, prices, config, current, k)
  }

  lemma RankCountsWindows(root: Root, current: real, prices: seq<real>, config: Config)
    requires config.rollingDays < |prices|
    ensures CountBelow(Historical(root, prices, config), current) == |LowerWindows(root, prices, config, current)|
  {
    var s, b := Historical(root, prices, config), LowerWindows(root, prices, config, current);
    forall k: nat | k < |s| ensures s[k] < current <==> k in b { HistoricalAt(root, current, prices, config, k); }
    CountIs(s, current, b);
  }

  lemma HistoricalAt(root: Root, current: real, prices: seq<real>, config: Config, k: nat)
    requires k < |prices| - config.rollingDays
    ensures k < |Historical(root, prices, config)|
    ensures Historical(root, prices, config)[k] < current <==> k in LowerWindows(root, prices, config, current)
  {
  }

  lemma CountIs(s: seq<real>, x: real, b: set<nat>)
    requires forall k: nat :: k < |s| ==> (s[k] < x <==> k in b)
    requires forall k :: k in b ==> k < |s|
    ensures CountBelow(s, x) == |b|
  {
    assert PositionsBelow(s, x) == b;
    CountBelowCounts(s, x);
  }

  /** The percentile is 100 times the number of rolling windows with a lower volatility over the number of
      rolling windows; it is refused on too few prices and undefined without windows. */
  lemma PercentileCountsWindows(root: Root, current: real, prices: seq<real>, config: Config)
    ensures var p := PercentileOf(root, current, prices, config);
            && (p == InsufficientData <==> |prices| < config.lookbackDays)
            && (p == NotANumber <==> config.lookbackDays <= |prices| <= config.rollingDays)
            && (p.Rank? ==> p.value == |LowerWindows(root, prices, config, current)| as real
                                       / (|prices| - config.rollingDays) as real * 100.0)
  {
    if |prices| > config.rollingDays { RankCountsWindows(root, current, prices, config); }
  }

  lemma {:induction false} CountBelowGrows(s: seq<real>, x: real, y: real)
    requires x <= y
    ensures CountBelow(s, x) <= CountBelow(s, y)
  {
    if s != [] { CountBelowGrows(s[..|s| - 1], x, y); }
  }

  /** A higher current volatility never has a lower percentile. */
  lemma PercentileGrows(root: Root, current: real, other: real, prices: seq<real>, config: Config)
    requires current <= other
    ensures var p, q := PercentileOf(root, current, prices, config), PercentileOf(root, other, prices, config);
            p.Rank? == q.Rank? && (p.Rank? ==> p.value <= q.value)
  {
    var historical := Historical(root, prices, config);
    CountBelowGrows(historical, current, other);
    if historical != [] {
      RatioGrows(CountBelow(historical, current) as real, CountBelow(historical, other) as real,
                 |historical| as real);
    }
  }

  lemma RatioGrows(x: real, y: real, n: real)
    requires x <= y && n > 0.0
    ensures x / n <= y / n
  {
  }

  lemma {:induction false} CountBelowMissesEqual(s: seq<real>, x: real, k: nat)
    requires k < |s| && s[k] == x
    ensures CountBelow(s, x) < |s|
  {
    if k < |s| - 1 { CountBelowMissesEqual(s[..|s| - 1], x, k); }
  }

  lemma RankRange(count: nat, total: nat)
    requires count < total
    ensures 0.0 <= count as real / total as real * 100.0 < 100.0
  {
    StrictScale(0.0, 1.0, total as real);
    DivideBounds(count as real, total as real, 0.0, 1.0);
    DivideBelow(count as real, total as real);
  }

  lemma DivideBelow(x: real, y: real)
    requires 0.0 <= x < y
    ensures x / y < 1.0
  {
  }

  lemma RankOfMember(historical: seq<real>, current: real, k: nat)
    requires k < |historical| && historical[k] == current
    ensures 0.0 <= RankOf(historical, current) < 100.0
  {
    CountBelowMissesEqual(historical, current, k);
    RankRange(CountBelow(historical, current), |historical|);
  }

  /** None of the last `rollingDays` returns has a zero base price. */
  ghost predicate NoRecentZero(prices: seq<real>, rollingDays: nat)
    requires rollingDays < |prices|
  {
    forall i :: |prices| - 1 - rollingDays <= i < |prices| - 1 ==> prices[i] != 0.0
  }

  /** The current volatility does not reach behind the last rolling window: none of its base prices is
      zero, or there are no earlier returns to reach for. */
  ghost predicate StaysInLastWindow(prices: seq<real>, rollingDays: nat)
    requires rollingDays < |prices|
  {
    NoRecentZero(prices, rollingDays) || Returns(prices[..|prices| - rollingDays]) == []
  }

  /** Exactly then it is computed from the returns of the last rolling window. */
  lemma RecentReturnsAreLastWindowIff(prices: seq<real>, rollingDays: nat)
    requires 1 <= rollingDays < |prices|
    ensures SliceFromEnd(Returns(prices), rollingDays) == Returns(Window(prices, rollingDays, |prices| - 1))
            <==> StaysInLastWindow(prices, rollingDays)
  {
    ReturnsAroundWindow(prices, rollingDays);
    WindowReturnsCount(prices, rollingDays);
    SuffixSliceIff(Returns(prices[..|prices| - rollingDays]), Returns(Window(prices, rollingDays, |prices| - 1)),
                   rollingDays);
  }

  lemma ReturnsAroundWindow(prices: seq<real>, rollingDays: nat)
    requires 1 <= rollingDays < |prices|
    ensures Returns(prices)
         == Returns(prices[..|prices| - rollingDays]) + Returns(Window(prices, rollingDays, |prices| - 1))
  {
    var from := |prices| - 1 - rollingDays;
    ReturnsSplit(prices, from);
    assert prices[from..] == Window(prices, rollingDays, |prices| - 1);
  }

  lemma WindowReturnsCount(prices: seq<real>, rollingDays: nat)
    requires 1 <= rollingDays < |prices|
    ensures var count := |Returns(Window(prices, rollingDays, |prices| - 1))|;
            count <= rollingDays && (count == rollingDays <==> NoRecentZero(prices, rollingDays))
  {
    ReturnsCount(Window(prices, rollingDays, |prices| - 1));
    WindowZeros(prices, rollingDays);
  }

  lemma WindowZeros(prices: seq<real>, rollingDays: nat)
    requires rollingDays < |prices|
    ensures var window := Window(prices, rollingDays, |prices| - 1);
            NoRecentZero(prices, rollingDays) <==> forall i :: 0 <= i < |window| - 1 ==> window[i] != 0.0
  {
    var from := |prices| - 1 - rollingDays;
    var window := Window(prices, rollingDays, |prices| - 1);
    if forall i :: 0 <= i < |window| - 1 ==> window[i] != 0.0 {
      forall i | from <= i < |prices| - 1 ensures prices[i] != 0.0 { assert window[i - from] == prices[i]; }
    }
  }

  lemma SuffixSliceIff(s: seq<real>, t: seq<real>, n: nat)
    requires n > 0 && |t| <= n
    ensures SliceFromEnd(s + t, n) == t <==> |t| == n || s == []
  {
    if |t| == n || s == [] {
      assert s == [] ==> s + t == t;
    } else {
      assert |SliceFromEnd(s + t, n)| > |t|;
    }
  }

  lemma LastWindowIsCurrent(root: Root, prices: seq<real>, config: Config)
    requires config.weighting.Standard? && 1 <= config.rollingDays < |prices|
    requires StaysInLastWindow(prices, config.rollingDays)
    ensures WindowVolatility(root, prices, config, |prices| - 1) == CurrentVolatility(root, config, prices)
  {
    RecentReturnsAreLastWindowIff(prices, config.rollingDays);
  }

  /** Whenever a detection reaches the percentile with the standard method and the current volatility
      stays in the last rolling window, as it does without a recent zero price, the history is not
      empty and the percentile is in [0, 100). Nothing about `root` is needed. */
  lemma PercentileInRange(root: Root, prices: seq<real>, config: Config)
    requires config.weighting.Standard? && 1 <= config.rollingDays < |prices| && config.lookbackDays <= |prices|
    requires StaysInLastWindow(prices, config.rollingDays)
    ensures var current := CurrentVolatility(root, config, prices);
            var p := PercentileOf(root, current, prices, config);
            p.Rank? && 0.0 <= p.value < 100.0
  {
    var current := CurrentVolatility(root, config, prices);
    LastWindowIsCurrent(root, prices, config);
    WindowRanks(root, prices, config, |prices| - 1, current);
  }

  /** The rank of a volatility that some rolling window has is below 100. */
  lemma WindowRanks(root: Root, prices: seq<real>, config: Config, i: nat, current: real)
    requires config.rollingDays <= i < |prices| && config.lookbackDays <= |prices|
    requires WindowVolatility(root, prices, config, i) == current
    ensures var p := PercentileOf(root, current, prices, config);
            p.Rank? && 0.0 <= p.value < 100.0
  {
    RankOfMember(Historical(root, prices, config), current, i - config.rollingDays);
  }

  // ---------------------------------------------------------------- scale invariance

  function Scaled(prices: seq<real>, c: real): seq<real> {
    seq(|prices|, i requires 0 <= i < |prices| => Times(c, prices[i]))
  }

  lemma ScaledReturn(a: real, b: real, c: real)
    requires a != 0.0 && c != 0.0
    ensures Times(c, a) != 0.0 && SimpleReturn(Times(c, a), Times(c, b)) == SimpleReturn(a, b)
  {
    var q := (b - a) / a;
    calc {
      c * b - c * a;
      c * (b - a);
      { assert b - a == a * q; }
      c * (a * q);
      (c * a) * q;
    }
    QuotientIs(c * b - c * a, c * a, q);
  }

  lemma ScaledRange(log: Log, a: real, b: real, c: real)
    requires c > 0.0
    ensures SquaredRange(log, Times(c, a), Times(c, b)) == SquaredRange(log, a, b)
  {
    var high, low := if a < b then b else a, if a < b then a else b;
    ScaledLess(a, b, c);
    ScaledLess(b, a, c);
    ScaledLess(0.0, low, c);
    ScaledLess(low, 0.0, c);
    if low > 0.0 { ScaledRatio(high, low, c); }
  }

  lemma ScaledLess(a: real, b: real, c: real)
    requires c > 0.0
    ensures a < b ==> Times(c, a) < Times(c, b)
    ensures Times(c, 0.0) == 0.0
  {
  }

  lemma ScaledRatio(high: real, low: real, c: real)
    requires low > 0.0 && c > 0.0
    ensures Times(c, low) > 0.0 && Times(c, high) / Times(c, low) == high / low
  {
    var q := high / low;
    calc {
      c * high;
      { assert high == low * q; }
      c * (low * q);
      (c * low) * q;
    }
    QuotientIs(c * high, c * low, q);
  }

  lemma {:induction false} RangesScaled(log: Log, prices: seq<real>, c: real)
    requires c > 0.0
    ensures SquaredRanges(log, Scaled(prices, c)) == SquaredRanges(log, prices)
  {
    var n := |prices|;
    if n >= 2 {
      RangesScaled(log, prices[..n - 1], c);
      assert Scaled(prices, c)[..n - 1] == Scaled(prices[..n - 1], c);
      ScaledRange(log, prices[n - 2], prices[n - 1], c);
    }
  }

  lemma CurrentVarianceScaled(config: Config, prices: seq<real>, c: real)
    requires c > 0.0
    ensures CurrentVariance(config, Scaled(prices, c)) == CurrentVariance(config, prices)
  {
    ReturnsScaled(prices, c);
    match config.weighting
    case Standard =>
    case Exponential =>
    case Parkinson(log) =>
      SliceScaled(prices, config.rollingDays + 1, c);
      ParkinsonScaled(log, SliceFromEnd(prices, config.rollingDays + 1), c);
  }

  lemma SliceScaled(prices: seq<real>, n: nat, c: real)
    ensures SliceFromEnd(Scaled(prices, c), n) == Scaled(SliceFromEnd(prices, n), c)
  {
  }

  lemma ParkinsonScaled(log: Log, prices: seq<real>, c: real)
    requires c > 0.0
    ensures ParkinsonVariance(log, Scaled(prices, c)) == ParkinsonVariance(log, prices)
  {
    RangesScaled(log, prices, c);
  }

  lemma {:induction false} ReturnsScaled(prices: seq<real>, c: real)
    requires c > 0.0
    ensures Returns(Scaled(prices, c)) == Returns(prices)
  {
    var n := |prices|;
    if n >= 2 {
      ReturnsScaled(prices[..n - 1], c);
      assert Scaled(prices, c)[..n - 1] == Scaled(prices[..n - 1], c);
      if prices[n - 2] != 0.0 {
        ScaledReturn(prices[n - 2], prices[n - 1], c);
      } else {
        assert Scaled(prices, c)[n - 2] == 0.0;
      }
    }
  }

  lemma HistoricalScaled(root: Root, prices: seq<real>, config: Config, c: real)
    requires c > 0.0
    ensures Historical(root, Scaled(prices, c), config) == Historical(root, prices, config)
  {
    forall i: nat | config.rollingDays <= i < |prices|
      ensures WindowVolatility(root, Scaled(prices, c), config, i) == WindowVolatility(root, prices, config, i)
    {
      WindowScaled(prices, config.rollingDays, i, c);
      ReturnsScaled(Window(prices, config.rollingDays, i), c);
    }
  }

  lemma WindowScaled(prices: seq<real>, rollingDays: nat, i: nat, c: real)
    requires rollingDays <= i < |prices|
    ensures Window(Scaled(prices, c), rollingDays, i) == Scaled(Window(prices, rollingDays, i), c)
  {
  }

  // ---------------------------------------------------------------- the detected regime

  /** REGIME_THRESHOLDS: the percentile range of each regime, upper end excluded but for 100. */
  predicate WithinThresholds(regime: MarketRegimeType, v: real) {
    match regime
    case LowVolatility => v < 25.0
    case Normal => 25.0 <= v < 75.0
    case HighVolatility => 75.0 <= v < 90.0
    case Extreme => 90.0 <= v
  }

  /** determineVolatilityRegime; a NaN percentile fails every comparison. */
  function DetermineRegime(p: Percentile): (regime: MarketRegimeType)
    ensures p.Rank? ==> WithinThresholds(regime, p.value)
    ensures !p.Rank? ==> regime == LowVolatility
  {
    if !p.Rank? then LowVolatility
    else if p.value >= 90.0 then Extreme
    else if p.value >= 75.0 then HighVolatility
    else if p.value >= 25.0 then Normal
    else LowVolatility
  }

  datatype Reading = Reading(volatility: real, percentile: Percentile, regime: MarketRegimeType)

  /** The pure part of detectRegime. None: one of the calculators threw. */
  function ReadingOf(root: Root, prices: seq<real>, config: Config): Option<Reading> {
    if |prices| < config.rollingDays + 1 || |prices| < config.lookbackDays then None
    else
      var volatility := CurrentVolatility(root, config, prices);
      var percentile := PercentileOf(root, volatility, prices, config);
      Some(Reading(volatility, percentile, DetermineRegime(percentile)))
  }

  method ReadMarket(root: Root, prices: seq<real>, config: Config) returns (r: Option<Reading>)
    ensures r == ReadingOf(root, prices, config)
  {
    var volatility := CalculateRealizedVolatility(root, prices, config);
    if volatility.None? { return None; }
    var percentile := CalculatePercentile(root, volatility.value, prices, config);
    if percentile == InsufficientData { return None; }
    return Some(Reading(volatility.value, percentile, DetermineRegime(percentile)));
  }

  /** Volatility, percentile and regime do not depend on the price unit, for any method. */
  lemma ReadingScaleInvariant(root: Root, prices: seq<real>, config: Config, c: real)
    requires c > 0.0
    ensures ReadingOf(root, Scaled(prices, c), config) == ReadingOf(root, prices, config)
  {
    CurrentVarianceScaled(config, prices, c);
    HistoricalScaled(root, prices, config, c);
  }

  // ---------------------------------------------------------------- a zero price

  /** With a zero among the recent prices the current volatility reaches back to returns that no
      rolling window holds together, and the percentile can be 100. */
  lemma ZeroPriceReaches100(root: Root, factor: real)
    requires root(4.0) > root(0.25) > root(0.0) && root(factor) > 0.0
    ensures var config := Config(2, 5, factor, Standard);
            var prices := [1.0, 1.0, 0.0, 1.0, 4.0];
            && !StaysInLastWindow(prices, 2)
            && ReadingOf(root, prices, config).Some?
            && ReadingOf(root, prices, config).value.percentile == Rank(100.0)
  {
    var config := Config(2, 5, factor, Standard);
    var prices := [1.0, 1.0, 0.0, 1.0, 4.0];
    assert prices[2] == 0.0;
    ZeroPriceHistory(root, config, prices);
    var h := Historical(root, prices, config);
    var current := CurrentVolatility(root, config, prices);
    StrictScale(root(0.25), root(4.0), root(factor));
    StrictScale(root(0.0), root(4.0), root(factor));
    RankOfLargest(h, current);
  }

  lemma RankOfLargest(historical: seq<real>, current: real)
    requires historical != [] && forall k :: 0 <= k < |historical| ==> historical[k] < current
    ensures RankOf(historical, current) == 100.0
  {
    CountAllBelow(historical, current);
    QuotientIs(|historical| as real, |historical| as real, 1.0);
  }

  lemma ZeroPriceHistory(root: Root, config: Config, prices: seq<real>)
    requires config.rollingDays == 2 && config.weighting.Standard? && prices == [1.0, 1.0, 0.0, 1.0, 4.0]
    ensures CurrentVolatility(root, config, prices) == Annualized(root, config, 4.0)
    ensures Historical(root, prices, config)
         == [Annualized(root, config, 0.25), Annualized(root, config, 0.0), Annualized(root, config, 0.0)]
  {
    ZeroPriceReturns(prices);
    VarianceOfPair(-1.0, 3.0, 1.0, 4.0);
    VarianceOfPair(0.0, -1.0, -0.5, 0.25);
    VarianceZeroIffConstant([-1.0]);
    VarianceZeroIffConstant([3.0]);
    assert WindowVolatility(root, prices, config, 2) == Annualized(root, config, 0.25);
    assert WindowVolatility(root, prices, config, 3) == Annualized(root, config, 0.0);
    assert WindowVolatility(root, prices, config, 4) == Annualized(root, config, 0.0);
  }

  lemma {:induction false} CountAllBelow(s: seq<real>, x: real)
    requires forall k :: 0 <= k < |s| ==> s[k] < x
    ensures CountBelow(s, x) == |s|
  {
    if s != [] { CountAllBelow(s[..|s| - 1], x); }
  }

  lemma ZeroPriceReturns(prices: seq<real>)
    requires prices == [1.0, 1.0, 0.0, 1.0, 4.0]
    ensures SliceFromEnd(Returns(prices), 2) == [-1.0, 3.0]
    ensures Returns(Window(prices, 2, 2)) == [0.0, -1.0]
    ensures Returns(Window(prices, 2, 3)) == [-1.0]
    ensures Returns(Window(prices, 2, 4)) == [3.0]
  {
    ThreePriceReturns(1.0, 1.0, 0.0);
    ThreePriceReturns(1.0, 0.0, 1.0);
    ThreePriceReturns(0.0, 1.0, 4.0);
    assert Window(prices, 2, 2) == [1.0, 1.0, 0.0];
    assert Window(prices, 2, 3) == [1.0, 0.0, 1.0];
    assert Window(prices, 2, 4) == [0.0, 1.0, 4.0];
    ReturnsSplit(prices, 2);
    assert prices[..3] == [1.0, 1.0, 0.0] && prices[2..] == [0.0, 1.0, 4.0];
  }

  lemma ThreePriceReturns(a: real, b: real, c: real)
    ensures Returns([a, b, c])
         == (if a != 0.0 then [SimpleReturn(a, b)] else []) + (if b != 0.0 then [SimpleReturn(b, c)] else [])
  {
    assert [a, b, c][..2] == [a, b];
    TwoPriceReturns(a, b);
  }

  lemma TwoPriceReturns(a: real, b: real)
    ensures Returns([a, b]) == if a != 0.0 then [SimpleReturn(a, b)] else []
  {
    assert [a, b][..1] == [a];
  }

  lemma VarianceOfPair(x: real, y: real, mean: real, variance: real)
    requires x + y == 2.0 * mean
    requires SquaredDeviation(x, mean) + SquaredDeviation(y, mean) == 2.0 * variance
    ensures StandardVariance([x, y]) == variance
  {
    SumOfPair(x, y);
    QuotientIs(x + y, 2.0, mean);
    assert Mean([x, y]) == mean;
    assert SquaredDeviations([x, y], mean) == [SquaredDeviation(x, mean), SquaredDeviation(y, mean)];
    SumOfPair(SquaredDeviation(x, mean), SquaredDeviation(y, mean));
    QuotientIs(SquaredDeviation(x, mean) + SquaredDeviation(y, mean), 2.0, variance);
  }

  lemma SumOfPair(x: real, y: real)
    ensures Sum([x, y]) == x + y
  {
    assert [x, y][..1] == [x] && [x][..0] == [];
    assert Sum([x]) == x;
  }
}
