/** Correlation-aware pruning of a ranked shortlist (coin/coin-diversity.service.ts) on top of the
    Pearson calculator (common/metrics/correlation.calculator.ts). Numbers are reals and the square
    root is a parameter. */
module CoinDiversity {
  import opened Common
  import V = Volatility

  type Root = V.Root

  const CORRELATION_THRESHOLD: real := 0.85
  const MIN_ALIGNED_RETURNS: nat := 30

  datatype Coin = Coin(id: string)

  datatype Candle = Candle(timestamp: int, close: real)

  // ---------------------------------------------------------------- price maps

  /** A JavaScript Map from timestamp to close: its keys in insertion order and its values. */
  datatype PriceMap = PriceMap(keys: seq<int>, closes: map<int, real>)

  ghost predicate Coherent(p: PriceMap) {
    forall t :: t in p.keys <==> t in p.closes
  }

  ghost predicate Ascending(s: seq<int>) {
    forall i, j :: 0 <= i < j < |s| ==> s[i] < s[j]
  }

  /** `m.set(timestamp, close)` for each candle in turn. */
  function PricesOf(candles: seq<Candle>): (p: PriceMap)
    ensures Coherent(p)
  {
    if candles == [] then PriceMap([], map[])
    else
      var last := candles[|candles| - 1];
      var p := PricesOf(candles[..|candles| - 1]);
      PriceMap(if last.timestamp in p.closes then p.keys else p.keys + [last.timestamp],
               p.closes[last.timestamp := last.close])
  }

  ghost predicate InTimeOrder(candles: seq<Candle>) {
    forall i, j :: 0 <= i < j < |candles| ==> candles[i].timestamp <= candles[j].timestamp
  }

  lemma {:induction false} KeysAscend(candles: seq<Candle>)
    requires InTimeOrder(candles)
    ensures Ascending(PricesOf(candles).keys)
    ensures forall t :: t in PricesOf(candles).keys ==> candles != [] && t <= candles[|candles| - 1].timestamp
  {
    if candles != [] {
      KeysAscend(candles[..|candles| - 1]);
      var keys := PricesOf(candles[..|candles| - 1]).keys;
      assert forall i :: 0 <= i < |keys| ==> keys[i] in keys;
    }
  }

  /** Candle i is the last one with its timestamp. */
  ghost predicate IsLastAt(candles: seq<Candle>, i: nat) {
    i < |candles| && forall j :: i < j < |candles| ==> candles[j].timestamp != candles[i].timestamp
  }

  /** Each timestamp has the close of its last candle. */
  lemma {:induction false} LastCloseWins(candles: seq<Candle>, i: nat)
    requires IsLastAt(candles, i)
    ensures var closes := PricesOf(candles).closes;
            candles[i].timestamp in closes && closes[candles[i].timestamp] == candles[i].close
  {
    var front := candles[..|candles| - 1];
    if i < |front| {
      assert IsLastAt(front, i);
      LastCloseWins(front, i);
    }
  }

  type PriceMaps = map<string, PriceMap>

  ghost predicate CoherentMaps(maps: PriceMaps) {
    forall id :: id in maps ==> Coherent(maps[id])
  }

  ghost predicate AscendingMaps(maps: PriceMaps) {
    forall id :: id in maps ==> Ascending(maps[id].keys)
  }

  function PriceMapsOf(candlesByCoin: map<string, seq<Candle>>): (maps: PriceMaps)
    ensures CoherentMaps(maps)
  {
    map id | id in candlesByCoin && candlesByCoin[id] != [] :: PricesOf(candlesByCoin[id])
  }

  // ---------------------------------------------------------------- Pearson correlation

  /** The sum of (x - mx) * (y - my) over the first n positions. */
  function CrossSum(xs: seq<real>, ys: seq<real>, mx: real, my: real, n: nat): real
    requires n <= |xs| && n <= |ys|
  {
    if n == 0 then 0.0
    else CrossSum(xs, ys, mx, my, n - 1) + V.Times(xs[n - 1] - mx, ys[n - 1] - my)
  }

  function Pearson(root: Root, xs: seq<real>, ys: seq<real>): real
    requires |xs| == |ys|
  {
    if |xs| == 0 then 0.0
    else
      var mx, my := V.Mean(xs), V.Mean(ys);
      var n := |xs|;
      var denominator := root(V.Times(CrossSum(xs, xs, mx, mx, n), CrossSum(ys, ys, my, my, n)));
      if denominator == 0.0 then 0.0 else CrossSum(xs, ys, mx, my, n) / denominator
  }

  lemma ProductCommutes(x: real, y: real)
    ensures V.Times(x, y) == V.Times(y, x)
  {
  }

  lemma {:induction false} CrossSumSymmetric(xs: seq<real>, ys: seq<real>, mx: real, my: real, n: nat)
    requires n <= |xs| && n <= |ys|
    ensures CrossSum(xs, ys, mx, my, n) == CrossSum(ys, xs, my, mx, n)
  {
    if n > 0 {
      CrossSumSymmetric(xs, ys, mx, my, n - 1);
      ProductCommutes(xs[n - 1] - mx, ys[n - 1] - my);
    }
  }

  lemma PearsonSymmetric(root: Root, xs: seq<real>, ys: seq<real>)
    requires |xs| == |ys|
    ensures Pearson(root, xs, ys) == Pearson(root, ys, xs)
  {
    if |xs| > 0 {
      var n, mx, my := |xs|, V.Mean(xs), V.Mean(ys);
      CrossSumSymmetric(xs, ys, mx, my, n);
      ProductCommutes(CrossSum(xs, xs, mx, mx, n), CrossSum(ys, ys, my, my, n));
    }
  }

  lemma {:induction false} SquareSumNonnegative(xs: seq<real>, mx: real, n: nat)
    requires n <= |xs|
    ensures CrossSum(xs, xs, mx, mx, n) >= 0.0
  {
    if n > 0 {
      SquareSumNonnegative(xs, mx, n - 1);
      V.SquareZeroIff(xs[n - 1] - mx, xs[n - 1] - mx);
    }
  }

  /** `root` is the square root of squares. */
  ghost predicate RootOfSquares(root: Root) {
    forall x: real :: 0.0 <= x ==> root(V.Times(x, x)) == x
  }

  /** A series that is not constant correlates perfectly with itself. */
  lemma PearsonOfSame(root: Root, xs: seq<real>)
    requires RootOfSquares(root) && xs != [] && CrossSum(xs, xs, V.Mean(xs), V.Mean(xs), |xs|) != 0.0
    ensures Pearson(root, xs, xs) == 1.0
  {
    var c := CrossSum(xs, xs, V.Mean(xs), V.Mean(xs), |xs|);
    SquareSumNonnegative(xs, V.Mean(xs), |xs|);
    RootOfSquare(root, c);
    SelfQuotient(c);
  }

  lemma RootOfSquare(root: Root, c: real)
    requires RootOfSquares(root) && c >= 0.0
    ensures root(V.Times(c, c)) == c
  {
  }

  lemma SelfQuotient(c: real)
    requires c != 0.0
    ensures c / c == 1.0
  {
  }

  // ---------------------------------------------------------------- the range of a correlation

  function Residual(x: real, y: real, t: real, u: real): real {
    t * x - u * y
  }

  /** The sum of the squares of t * (x - mx) - u * (y - my). */
  function ResidualSum(xs: seq<real>, ys: seq<real>, mx: real, my: real, t: real, u: real, n: nat): real
    requires n <= |xs| && n <= |ys|
  {
    if n == 0 then 0.0
    else
      var r := Residual(xs[n - 1] - mx, ys[n - 1] - my, t, u);
      ResidualSum(xs, ys, mx, my, t, u, n - 1) + V.Times(r, r)
  }

  lemma {:induction false} ResidualSumNonnegative(xs: seq<real>, ys: seq<real>, mx: real, my: real,
                                                 t: real, u: real, n: nat)
    requires n <= |xs| && n <= |ys|
    ensures ResidualSum(xs, ys, mx, my, t, u, n) >= 0.0
  {
    if n > 0 {
      ResidualSumNonnegative(xs, ys, mx, my, t, u, n - 1);
      var r := Residual(xs[n - 1] - mx, ys[n - 1] - my, t, u);
      V.SquareZeroIff(r, r);
    }
  }

  function Quadratic(t: real, u: real, xx: real, xy: real, yy: real): real {
    V.Times(t * t, xx) - 2.0 * V.Times(t * u, xy) + V.Times(u * u, yy)
  }

  lemma SquaredResidual(x: real, y: real, t: real, u: real)
    ensures V.Times(Residual(x, y, t, u), Residual(x, y, t, u))
         == Quadratic(t, u, V.Times(x, x), V.Times(x, y), V.Times(y, y))
  {
  }

  lemma QuadraticAdds(t: real, u: real, a: real, b: real, c: real, x: real, y: real, z: real)
    ensures Quadratic(t, u, a + x, b + y, c + z) == Quadratic(t, u, a, b, c) + Quadratic(t, u, x, y, z)
  {
    V.TimesDistributes(t * t, a, x);
    V.TimesDistributes(t * u, b, y);
    V.TimesDistributes(u * u, c, z);
  }

  lemma {:induction false} ResidualSumIsQuadratic(xs: seq<real>, ys: seq<real>, mx: real, my: real,
                                                 t: real, u: real, n: nat)
    requires n <= |xs| && n <= |ys|
    ensures ResidualSum(xs, ys, mx, my, t, u, n)
         == Quadratic(t, u, CrossSum(xs, xs, mx, mx, n), CrossSum(xs, ys, mx, my, n), CrossSum(ys, ys, my, my, n))
  {
    if n == 0 {
      V.TimesZero(0.0, t * t);
    } else {
      ResidualSumIsQuadratic(xs, ys, mx, my, t, u, n - 1);
      var x, y := xs[n - 1] - mx, ys[n - 1] - my;
      SquaredResidual(x, y, t, u);
      QuadraticAdds(t, u, CrossSum(xs, xs, mx, mx, n - 1), CrossSum(xs, ys, mx, my, n - 1),
                    CrossSum(ys, ys, my, my, n - 1), V.Times(x, x), V.Times(x, y), V.Times(y, y));
    }
  }

  lemma QuadraticAtSums(xx: real, xy: real, yy: real)
    ensures Quadratic(yy, xy, xx, xy, yy) == V.Times(yy, V.Times(xx, yy) - V.Times(xy, xy))
  {
  }

  lemma FactorNonnegative(a: real, b: real)
    requires a > 0.0 && V.Times(a, b) >= 0.0
    ensures b >= 0.0
  {
  }

  /** The square of the cross sum is at most the product of the two sums of squares. */
  lemma CauchySchwarz(xs: seq<real>, ys: seq<real>, mx: real, my: real, n: nat)
    requires n <= |xs| && n <= |ys| && CrossSum(ys, ys, my, my, n) > 0.0
    ensures V.Times(CrossSum(xs, ys, mx, my, n), CrossSum(xs, ys, mx, my, n))
         <= V.Times(CrossSum(xs, xs, mx, mx, n), CrossSum(ys, ys, my, my, n))
  {
    var xx, xy, yy := CrossSum(xs, xs, mx, mx, n), CrossSum(xs, ys, mx, my, n), CrossSum(ys, ys, my, my, n);
    ResidualSumNonnegative(xs, ys, mx, my, yy, xy, n);
    ResidualSumIsQuadratic(xs, ys, mx, my, yy, xy, n);
    QuadraticAtSums(xx, xy, yy);
    FactorNonnegative(yy, V.Times(xx, yy) - V.Times(xy, xy));
  }

  lemma BoundedQuotient(x: real, d: real)
    requires d > 0.0 && V.Times(x, x) <= V.Times(d, d)
    ensures -1.0 <= x / d <= 1.0
  {
    if x > d { SquaresAscend(d, x); }
    if -x > d { SquaresAscend(d, -x); }
    V.DivideBounds(x, d, -1.0, 1.0);
  }

  lemma SquaresAscend(a: real, b: real)
    requires 0.0 < a < b
    ensures V.Times(a, a) < V.Times(b, b)
  {
  }

  lemma RootPositive(root: Root, x: real)
    requires V.IsRootAt(root, x) && root(x) != 0.0
    ensures root(x) > 0.0 && x > 0.0
  {
    V.SquareZeroIff(root(x), root(x));
  }

  lemma SecondFactorPositive(x: real, y: real)
    requires x >= 0.0 && y >= 0.0 && V.Times(x, y) > 0.0
    ensures y > 0.0
  {
  }

  /** A correlation lies between -1 and 1. */
  lemma PearsonBounded(root: Root, xs: seq<real>, ys: seq<real>)
    requires |xs| == |ys|
    requires xs != [] ==> V.IsRootAt(root, V.Times(CrossSum(xs, xs, V.Mean(xs), V.Mean(xs), |xs|),
                                                   CrossSum(ys, ys, V.Mean(ys), V.Mean(ys), |ys|)))
    ensures -1.0 <= Pearson(root, xs, ys) <= 1.0
  {
    if xs != [] {
      var n, mx, my := |xs|, V.Mean(xs), V.Mean(ys);
      var xx, yy := CrossSum(xs, xs, mx, mx, n), CrossSum(ys, ys, my, my, n);
      var d := root(V.Times(xx, yy));
      if d != 0.0 {
        RootPositive(root, V.Times(xx, yy));
        SquareSumNonnegative(xs, mx, n);
        SquareSumNonnegative(ys, my, n);
        SecondFactorPositive(xx, yy);
        CauchySchwarz(xs, ys, mx, my, n);
        BoundedQuotient(CrossSum(xs, ys, mx, my, n), d);
      }
    }
  }

  // ---------------------------------------------------------------- scale, shift and sign of a correlation

  function Affine(xs: seq<real>, a: real, b: real): seq<real> {
    seq(|xs|, i requires 0 <= i < |xs| => V.Times(a, xs[i]) + b)
  }

  lemma {:induction false} SumOfAffine(xs: seq<real>, a: real, b: real)
    ensures V.Sum(Affine(xs, a, b)) == V.Times(a, V.Sum(xs)) + V.Times(|xs| as real, b)
  {
    if xs == [] {
      V.TimesZero(0.0, b);
      V.TimesDistributes(a, 0.0, 0.0);
    } else {
      var front, last := xs[..|xs| - 1], xs[|xs| - 1];
      SumOfAffine(front, a, b);
      assert Affine(xs, a, b)[..|front|] == Affine(front, a, b);
      V.TimesDistributes(a, V.Sum(front), last);
      V.TimesDistributes(b, |front| as real, 1.0);
    }
  }

  lemma MeanOfAffine(xs: seq<real>, a: real, b: real)
    requires xs != []
    ensures V.Mean(Affine(xs, a, b)) == V.Times(a, V.Mean(xs)) + b
  {
    SumOfAffine(xs, a, b);
    V.MeanTimesCount(xs);
    AffineQuotient(|xs| as real, a, V.Mean(xs), b);
    V.QuotientIs(V.Sum(Affine(xs, a, b)), |xs| as real, V.Times(a, V.Mean(xs)) + b);
  }

  lemma AffineQuotient(n: real, a: real, mean: real, b: real)
    ensures V.Times(a, V.Times(n, mean)) + V.Times(n, b) == n * (V.Times(a, mean) + b)
  {
  }

  lemma AffineTerm(a: real, x: real, mean: real, y: real, z: real, mz: real)
    requires z - mz == V.Times(a, x) - V.Times(a, mean)
    ensures V.Times(z - mz, y) == V.Times(a, V.Times(x - mean, y))
  {
    var d := z - mz;
    calc {
      d;
      a * x - a * mean;
      a * (x - mean);
    }
  }

  lemma CrossSumStep(xs: seq<real>, ys: seq<real>, mx: real, my: real, n: nat)
    requires 0 < n <= |xs| && n <= |ys|
    ensures CrossSum(xs, ys, mx, my, n)
         == CrossSum(xs, ys, mx, my, n - 1) + V.Times(xs[n - 1] - mx, ys[n - 1] - my)
  {
  }

  lemma AffineStep(xs: seq<real>, ys: seq<real>, mx: real, my: real, a: real, b: real, n: nat)
    requires 0 < n <= |xs| && n <= |ys|
    ensures CrossSum(Affine(xs, a, b), ys, V.Times(a, mx) + b, my, n)
         == CrossSum(Affine(xs, a, b), ys, V.Times(a, mx) + b, my, n - 1)
            + V.Times(a, V.Times(xs[n - 1] - mx, ys[n - 1] - my))
  {
    var zs, mz := Affine(xs, a, b), V.Times(a, mx) + b;
    CrossSumStep(zs, ys, mz, my, n);
    AffineTerm(a, xs[n - 1], mx, ys[n - 1] - my, zs[n - 1], mz);
  }

  lemma {:induction false} CrossSumAffine(xs: seq<real>, ys: seq<real>, mx: real, my: real, a: real, b: real, n: nat)
    requires n <= |xs| && n <= |ys|
    ensures CrossSum(Affine(xs, a, b), ys, V.Times(a, mx) + b, my, n) == V.Times(a, CrossSum(xs, ys, mx, my, n))
  {
    if n == 0 {
      V.TimesDistributes(a, 0.0, 0.0);
    } else {
      CrossSumAffine(xs, ys, mx, my, a, b, n - 1);
      CrossSumStep(xs, ys, mx, my, n);
      AffineStep(xs, ys, mx, my, a, b, n);
      V.TimesDistributes(a, CrossSum(xs, ys, mx, my, n - 1), V.Times(xs[n - 1] - mx, ys[n - 1] - my));
    }
  }

  /** Both series changed: the sum of squares grows by the square of the factor. */
  lemma SquareSumAffine(xs: seq<real>, mx: real, a: real, b: real)
    ensures CrossSum(Affine(xs, a, b), Affine(xs, a, b), V.Times(a, mx) + b, V.Times(a, mx) + b, |xs|)
         == V.Times(a, V.Times(a, CrossSum(xs, xs, mx, mx, |xs|)))
  {
    var zs, mz := Affine(xs, a, b), V.Times(a, mx) + b;
    CrossSumAffine(xs, zs, mx, mz, a, b, |xs|);
    CrossSumSymmetric(xs, zs, mx, mz, |xs|);
    CrossSumAffine(xs, xs, mx, mx, a, b, |xs|);
  }

  /** `root` takes a square factor out: root(a * a * x) is the size of a times root(x). */
  ghost predicate TakesOut(root: Root, a: real, x: real) {
    root(V.Times(a, V.Times(a, x))) == V.Times(if a < 0.0 then -a else a, root(x))
  }

  lemma ScaledQuotient(a: real, c: real, d: real)
    requires a != 0.0 && d != 0.0
    ensures var size := if a < 0.0 then -a else a;
            V.Times(size, d) != 0.0 && V.Times(a, c) / V.Times(size, d) == if a < 0.0 then -(c / d) else c / d
  {
    var size, q := if a < 0.0 then -a else a, c / d;
    assert q * d == c;
    V.ProductNonzero(size, d);
    V.QuotientIs(V.Times(a, c), V.Times(size, d), if a < 0.0 then -q else q);
  }

  lemma ScaledProduct(a: real, x: real, y: real)
    ensures V.Times(V.Times(a, V.Times(a, x)), y) == V.Times(a, V.Times(a, V.Times(x, y)))
  {
  }

  /** Scaling and shifting a series does not change its correlations, and turning it around changes their
      sign. */
  lemma PearsonAffine(root: Root, xs: seq<real>, ys: seq<real>, a: real, b: real)
    requires |xs| == |ys| && a != 0.0
    requires xs != [] ==> TakesOut(root, a, V.Times(CrossSum(xs, xs, V.Mean(xs), V.Mean(xs), |xs|),
                                                    CrossSum(ys, ys, V.Mean(ys), V.Mean(ys), |ys|)))
    ensures Pearson(root, Affine(xs, a, b), ys) == if a < 0.0 then -Pearson(root, xs, ys) else Pearson(root, xs, ys)
  {
    if xs != [] {
      var n, mx, my := |xs|, V.Mean(xs), V.Mean(ys);
      var xx, yy := CrossSum(xs, xs, mx, mx, n), CrossSum(ys, ys, my, my, n);
      MeanOfAffine(xs, a, b);
      CrossSumAffine(xs, ys, mx, my, a, b, n);
      SquareSumAffine(xs, mx, a, b);
      ScaledProduct(a, xx, yy);
      var d := root(V.Times(xx, yy));
      if d != 0.0 { ScaledQuotient(a, CrossSum(xs, ys, mx, my, n), d); } else { V.TimesDistributes(a, 0.0, 0.0); }
    }
  }

  // ---------------------------------------------------------------- aligned returns

  /** The timestamps of `keys` that the other coin has as well. */
  function Shared(keys: seq<int>, other: map<int, real>): seq<int> {
    if keys == [] then []
    else
      var last := keys[|keys| - 1];
      Shared(keys[..|keys| - 1], other) + if last in other then [last] else []
  }

  function ClosesAt(closes: map<int, real>, at: seq<int>): seq<real>
    requires forall i :: 0 <= i < |at| ==> at[i] in closes
  {
    seq(|at|, i requires 0 <= i < |at| => closes[at[i]])
  }

  function SimpleReturn(a: real, b: real): real
    requires a != 0.0
  {
    b / a - 1.0
  }

  /** The simple returns of both series over the steps where neither base price is zero. */
  function AlignedReturns(a: seq<real>, b: seq<real>): (r: (seq<real>, seq<real>))
    requires |a| == |b|
    ensures |r.0| == |r.1|
  {
    var n := |a|;
    if n < 2 then ([], [])
    else
      var r := AlignedReturns(a[..n - 1], b[..n - 1]);
      if a[n - 2] == 0.0 || b[n - 2] == 0.0 then r
      else (r.0 + [SimpleReturn(a[n - 2], a[n - 1])], r.1 + [SimpleReturn(b[n - 2], b[n - 1])])
  }

  lemma ReturnOfSteps(a: real, b: real)
    requires a != 0.0
    ensures SimpleReturn(a, b) == V.SimpleReturn(a, b)
  {
    var q := b / a;
    assert q * a == b;
    V.QuotientIs(b - a, a, q - 1.0);
  }

  /** Without a zero base price the aligned returns are the returns of the two series. */
  lemma {:induction false} AlignedWithoutZeros(a: seq<real>, b: seq<real>)
    requires |a| == |b| && forall i :: 0 <= i < |a| - 1 ==> a[i] != 0.0 && b[i] != 0.0
    ensures AlignedReturns(a, b) == (V.Returns(a), V.Returns(b))
  {
    var n := |a|;
    if n >= 2 {
      AlignedWithoutZeros(a[..n - 1], b[..n - 1]);
      ReturnOfSteps(a[n - 2], a[n - 1]);
      ReturnOfSteps(b[n - 2], b[n - 1]);
    }
  }

  /** The steps where both base prices can be divided by. */
  ghost function UsableSteps(a: seq<real>, b: seq<real>): set<nat>
    requires |a| == |b|
  {
    set i: nat | i < |a| - 1 && a[i] != 0.0 && b[i] != 0.0
  }

  lemma {:induction false} OneReturnPerUsableStep(a: seq<real>, b: seq<real>)
    requires |a| == |b|
    ensures |AlignedReturns(a, b).0| == |UsableSteps(a, b)|
  {
    var n := |a|;
    if n < 2 {
      assert UsableSteps(a, b) == {};
    } else {
      OneReturnPerUsableStep(a[..n - 1], b[..n - 1]);
      UsableStepsStep(a, b);
    }
  }

  lemma UsableStepsStep(a: seq<real>, b: seq<real>)
    requires |a| == |b| >= 2
    ensures var n := |a|;
            var newest := if a[n - 2] == 0.0 || b[n - 2] == 0.0 then {} else {n - 2};
            UsableSteps(a, b) == UsableSteps(a[..n - 1], b[..n - 1]) + newest
  {
  }

  ghost function CommonTimes(keys: seq<int>, other: map<int, real>): set<int> {
    set t | t in keys && t in other
  }

  lemma {:induction false} SharedCount(keys: seq<int>, other: map<int, real>)
    requires Ascending(keys)
    ensures |Shared(keys, other)| == |CommonTimes(keys, other)|
  {
    if keys == [] {
      assert CommonTimes(keys, other) == {};
    } else {
      SharedCount(keys[..|keys| - 1], other);
      CommonTimesStep(keys, other);
    }
  }

  lemma CommonTimesStep(keys: seq<int>, other: map<int, real>)
    requires keys != [] && Ascending(keys)
    ensures var front, last := keys[..|keys| - 1], keys[|keys| - 1];
            && last !in CommonTimes(front, other)
            && CommonTimes(keys, other) == CommonTimes(front, other) + if last in other then {last} else {}
  {
    var front, last := keys[..|keys| - 1], keys[|keys| - 1];
    assert keys == front + [last];
    if last in front { MemberBelowLast(keys, last); }
  }

  lemma {:induction false} AlignedReturnsSwap(a: seq<real>, b: seq<real>)
    requires |a| == |b|
    ensures AlignedReturns(b, a) == (AlignedReturns(a, b).1, AlignedReturns(a, b).0)
  {
    if |a| >= 2 { AlignedReturnsSwap(a[..|a| - 1], b[..|a| - 1]); }
  }

  lemma {:induction false} SharedMember(keys: seq<int>, other: map<int, real>, t: int)
    ensures t in Shared(keys, other) <==> t in keys && t in other
  {
    if keys != [] {
      assert keys == keys[..|keys| - 1] + [keys[|keys| - 1]];
      SharedMember(keys[..|keys| - 1], other, t);
    }
  }

  lemma {:induction false} SharedAscends(keys: seq<int>, other: map<int, real>)
    requires Ascending(keys)
    ensures Ascending(Shared(keys, other))
  {
    if keys != [] {
      var front := keys[..|keys| - 1];
      SharedAscends(front, other);
      var s := Shared(front, other);
      forall i | 0 <= i < |s| ensures s[i] < keys[|keys| - 1] {
        SharedMember(front, other, s[i]);
        MemberBelowLast(keys, s[i]);
      }
    }
  }

  lemma MemberBelowLast(keys: seq<int>, t: int)
    requires keys != [] && Ascending(keys) && t in keys[..|keys| - 1]
    ensures t < keys[|keys| - 1]
  {
    var i :| 0 <= i < |keys| - 1 && keys[i] == t;
  }

  ghost predicate MembersIn(s: seq<int>, t: seq<int>) {
    forall i :: 0 <= i < |s| ==> s[i] in t
  }

  lemma DropLastMembers(s: seq<int>, t: seq<int>)
    requires Ascending(s) && s != [] && t != [] && MembersIn(s, t) && s[|s| - 1] == t[|t| - 1]
    ensures MembersIn(s[..|s| - 1], t[..|t| - 1])
  {
    forall k | 0 <= k < |s| - 1 ensures s[k] in t[..|t| - 1] {
      var l :| 0 <= l < |t| && t[l] == s[k];
      assert t[..|t| - 1][l] == s[k];
    }
  }

  lemma LastMemberBelow(s: seq<int>, t: seq<int>)
    requires Ascending(t) && s != [] && MembersIn(s, t)
    ensures t != [] && s[|s| - 1] <= t[|t| - 1]
  {
    assert s[|s| - 1] in t;
    var i :| 0 <= i < |t| && t[i] == s[|s| - 1];
  }

  /** Ascending sequences with the same members are equal. */
  lemma {:induction false} AscendingUnique(s: seq<int>, t: seq<int>)
    requires Ascending(s) && Ascending(t) && MembersIn(s, t) && MembersIn(t, s)
    ensures s == t
  {
    if s != [] { LastMemberBelow(s, t); }
    if t != [] { LastMemberBelow(t, s); }
    if s != [] {
      var m, n := |s| - 1, |t| - 1;
      DropLastMembers(s, t);
      DropLastMembers(t, s);
      AscendingUnique(s[..m], t[..n]);
      assert s == s[..m] + [s[m]] && t == t[..n] + [t[n]];
    }
  }

  lemma SharedInBoth(a: PriceMap, b: PriceMap)
    requires Coherent(a)
    ensures forall i :: 0 <= i < |Shared(a.keys, b.closes)| ==>
              Shared(a.keys, b.closes)[i] in a.closes && Shared(a.keys, b.closes)[i] in b.closes
  {
    var s := Shared(a.keys, b.closes);
    forall i | 0 <= i < |s| ensures s[i] in a.closes && s[i] in b.closes {
      SharedMember(a.keys, b.closes, s[i]);
    }
  }

  lemma SharedSymmetric(a: PriceMap, b: PriceMap)
    requires Coherent(a) && Coherent(b) && Ascending(a.keys) && Ascending(b.keys)
    ensures Shared(a.keys, b.closes) == Shared(b.keys, a.closes)
  {
    var s, t := Shared(a.keys, b.closes), Shared(b.keys, a.closes);
    forall i | 0 <= i < |s| ensures s[i] in t {
      SharedMember(a.keys, b.closes, s[i]);
      SharedMember(b.keys, a.closes, s[i]);
    }
    forall i | 0 <= i < |t| ensures t[i] in s {
      SharedMember(a.keys, b.closes, t[i]);
      SharedMember(b.keys, a.closes, t[i]);
    }
    SharedAscends(a.keys, b.closes);
    SharedAscends(b.keys, a.closes);
    AscendingUnique(s, t);
  }

  function CorrelationOf(root: Root, a: PriceMap, b: PriceMap): Option<real>
    requires Coherent(a) && Coherent(b)
  {
    var shared := Shared(a.keys, b.closes);
    SharedInBoth(a, b);
    if |shared| < MIN_ALIGNED_RETURNS + 1 then None
    else
      var r := AlignedReturns(ClosesAt(a.closes, shared), ClosesAt(b.closes, shared));
      if |r.0| < MIN_ALIGNED_RETURNS then None else Some(Pearson(root, r.0, r.1))
  }

  lemma CorrelationOfSymmetric(root: Root, a: PriceMap, b: PriceMap)
    requires Coherent(a) && Coherent(b) && Ascending(a.keys) && Ascending(b.keys)
    ensures CorrelationOf(root, a, b) == CorrelationOf(root, b, a)
  {
    SharedSymmetric(a, b);
    SharedInBoth(a, b);
    var shared := Shared(a.keys, b.closes);
    var r := AlignedReturns(ClosesAt(a.closes, shared), ClosesAt(b.closes, shared));
    AlignedReturnsSwap(ClosesAt(a.closes, shared), ClosesAt(b.closes, shared));
    PearsonSymmetric(root, r.0, r.1);
  }

  lemma {:induction false} AllShared(keys: seq<int>, other: map<int, real>)
    requires forall i :: 0 <= i < |keys| ==> keys[i] in other
    ensures Shared(keys, other) == keys
  {
    if keys != [] {
      AllShared(keys[..|keys| - 1], other);
      assert keys == keys[..|keys| - 1] + [keys[|keys| - 1]];
    }
  }

  /** Two coins with the same 31 or more timestamps and no zero price have the correlation of the returns of
      their price series. */
  lemma SameTimesCorrelation(root: Root, a: PriceMap, b: PriceMap, xs: seq<real>, ys: seq<real>)
    requires Coherent(a) && Coherent(b) && a.keys == b.keys && |a.keys| == |xs| == |ys| >= 31
    requires forall i :: 0 <= i < |xs| ==> a.keys[i] in a.closes && a.closes[a.keys[i]] == xs[i] != 0.0
    requires forall i :: 0 <= i < |ys| ==> b.keys[i] in b.closes && b.closes[b.keys[i]] == ys[i] != 0.0
    ensures |V.Returns(xs)| == |V.Returns(ys)|
    ensures CorrelationOf(root, a, b) == Some(Pearson(root, V.Returns(xs), V.Returns(ys)))
  {
    SharedInBoth(a, b);
    AllShared(a.keys, b.closes);
    assert ClosesAt(a.closes, a.keys) == xs && ClosesAt(b.closes, a.keys) == ys;
    AlignedWithoutZeros(xs, ys);
    V.ReturnsCount(xs);
    V.ReturnsCount(ys);
  }

  /** None: unknown, no veto. */
  function Correlation(root: Root, maps: PriceMaps, a: Coin, b: Coin): Option<real>
    requires CoherentMaps(maps)
  {
    if a.id !in maps || b.id !in maps then None else CorrelationOf(root, maps[a.id], maps[b.id])
  }

  predicate Vetoes(root: Root, maps: PriceMaps, a: Coin, b: Coin)
    requires CoherentMaps(maps)
  {
    TooHigh(Correlation(root, maps, a, b))
  }

  predicate TooHigh(c: Option<real>) {
    c.Some? && c.value > CORRELATION_THRESHOLD
  }

  /** Exactly when the correlation of two coins is known: both have prices, at 31 common times or more, with
      30 usable steps or more between them. Exactly then a value above 0.85 is a veto. */
  lemma KnownIff(root: Root, maps: PriceMaps, a: Coin, b: Coin)
    requires CoherentMaps(maps) && AscendingMaps(maps)
    ensures Correlation(root, maps, a, b).Some?
            <==> a.id in maps && b.id in maps && Comparable(maps[a.id], maps[b.id])
    ensures Vetoes(root, maps, a, b) <==> exists c :: Correlation(root, maps, a, b) == Some(c) && 0.85 < c
  {
    if a.id in maps && b.id in maps {
      var p, q := maps[a.id], maps[b.id];
      SharedCount(p.keys, q.closes);
      SharedInBoth(p, q);
      var shared := Shared(p.keys, q.closes);
      OneReturnPerUsableStep(ClosesAt(p.closes, shared), ClosesAt(q.closes, shared));
    }
  }

  ghost predicate Comparable(p: PriceMap, q: PriceMap)
    requires Coherent(p) && Coherent(q)
  {
    && |CommonTimes(p.keys, q.closes)| >= 31
    && (SharedInBoth(p, q);
        var shared := Shared(p.keys, q.closes);
        |UsableSteps(ClosesAt(p.closes, shared), ClosesAt(q.closes, shared))| >= 30)
  }

  lemma VetoesSymmetric(root: Root, maps: PriceMaps, a: Coin, b: Coin)
    requires CoherentMaps(maps) && AscendingMaps(maps)
    ensures Vetoes(root, maps, a, b) <==> Vetoes(root, maps, b, a)
  {
    if a.id in maps && b.id in maps { CorrelationOfSymmetric(root, maps[a.id], maps[b.id]); }
  }

  /** Two coins with the same price history veto each other, if the history has enough returns that
      are not all alike. */
  lemma SameHistoryVetoes(root: Root, maps: PriceMaps, a: Coin, b: Coin)
    requires CoherentMaps(maps) && RootOfSquares(root)
    requires a.id in maps && b.id in maps && maps[a.id] == maps[b.id]
    requires var p := maps[a.id];
             var shared := Shared(p.keys, p.closes);
             && |shared| > MIN_ALIGNED_RETURNS
             && (SharedInBoth(p, p);
                 var closes := ClosesAt(p.closes, shared);
                 var xs := AlignedReturns(closes, closes).0;
                 |xs| >= MIN_ALIGNED_RETURNS && CrossSum(xs, xs, V.Mean(xs), V.Mean(xs), |xs|) != 0.0)
    ensures Vetoes(root, maps, a, b)
  {
    var p := maps[a.id];
    SharedInBoth(p, p);
    var closes := ClosesAt(p.closes, Shared(p.keys, p.closes));
    AlignedReturnsSwap(closes, closes);
    PearsonOfSame(root, AlignedReturns(closes, closes).0);
  }

  method SharedTimestamps(a: PriceMap, b: PriceMap) returns (shared: seq<int>)
    ensures shared == Shared(a.keys, b.closes)
  {
    shared := [];
    for i := 0 to |a.keys|
      invariant shared == Shared(a.keys[..i], b.closes)
    {
      assert a.keys[..i + 1][..i] == a.keys[..i];
      if a.keys[i] in b.closes { shared := shared + [a.keys[i]]; }
    }
    assert a.keys[..|a.keys|] == a.keys;
  }

  method ReturnsOf(closesA: seq<real>, closesB: seq<real>) returns (returnsA: seq<real>, returnsB: seq<real>)
    requires |closesA| == |closesB|
    ensures AlignedReturns(closesA, closesB) == (returnsA, returnsB)
  {
    returnsA, returnsB := [], [];
    if |closesA| == 0 { return; }
    for i := 1 to |closesA|
      invariant AlignedReturns(closesA[..i], closesB[..i]) == (returnsA, returnsB)
    {
      assert closesA[..i + 1][..i] == closesA[..i] && closesB[..i + 1][..i] == closesB[..i];
      if closesA[i - 1] != 0.0 && closesB[i - 1] != 0.0 {
        returnsA := returnsA + [SimpleReturn(closesA[i - 1], closesA[i])];
        returnsB := returnsB + [SimpleReturn(closesB[i - 1], closesB[i])];
      }
    }
    assert closesA[..|closesA|] == closesA && closesB[..|closesB|] == closesB;
  }

  /** computePairwiseCorrelation. */
  method ComputePairwiseCorrelation(root: Root, maps: PriceMaps, a: Coin, b: Coin) returns (r: Option<real>)
    requires CoherentMaps(maps)
    ensures r == Correlation(root, maps, a, b)
  {
    if a.id !in maps || b.id !in maps { return None; }
    var mapA, mapB := maps[a.id], maps[b.id];
    SharedInBoth(mapA, mapB);
    var shared := SharedTimestamps(mapA, mapB);
    if |shared| < MIN_ALIGNED_RETURNS + 1 { return None; }
    var returnsA, returnsB := ReturnsOf(ClosesAt(mapA.closes, shared), ClosesAt(mapB.closes, shared));
    if |returnsA| < MIN_ALIGNED_RETURNS { return None; }
    return Some(Pearson(root, returnsA, returnsB));
  }

  // ---------------------------------------------------------------- greedy selection

  /** Which coin refuses which. */
  type Veto = (Coin, Coin) -> bool

  ghost predicate Symmetric(veto: Veto) {
    forall a, b :: veto(a, b) ==> veto(b, a)
  }

  function VetoIn(root: Root, maps: PriceMaps): Veto
    requires CoherentMaps(maps)
  {
    (a: Coin, b: Coin) => Vetoes(root, maps, a, b)
  }

  lemma VetoInSymmetric(root: Root, maps: PriceMaps)
    requires CoherentMaps(maps) && AscendingMaps(maps)
    ensures Symmetric(VetoIn(root, maps))
  {
    forall a, b | VetoIn(root, maps)(a, b) ensures VetoIn(root, maps)(b, a) {
      VetoesSymmetric(root, maps, a, b);
    }
  }

  /** May the coin at position i join the picks? Position 1 asks the locked first coin; later
      positions ask all picks. */
  predicate Admitted(veto: Veto, shortlist: seq<Coin>, picks: seq<Coin>, i: nat)
    requires 1 <= i < |shortlist|
  {
    if i == 1 then !veto(shortlist[0], shortlist[1])
    else forall k :: 0 <= k < |picks| ==> !veto(shortlist[i], picks[k])
  }

  /** The picks after positions 0, ..., i - 1. */
  function Greedy(veto: Veto, shortlist: seq<Coin>, take: int, i: nat): (picks: seq<Coin>)
    requires 1 <= i <= |shortlist|
    ensures 1 <= |picks| <= i && picks[0] == shortlist[0]
    ensures |picks| <= take || picks == [shortlist[0]]
  {
    if i == 1 then [shortlist[0]]
    else
      var picks := Greedy(veto, shortlist, take, i - 1);
      if |picks| < take && Admitted(veto, shortlist, picks, i - 1) then picks + [shortlist[i - 1]] else picks
  }

  function Ids(coins: seq<Coin>): set<string> {
    set c | c in coins :: c.id
  }

  /** The first n shortlisted coins whose id is not among the picks, appended until `take` is reached. */
  function Backfill(picks: seq<Coin>, shortlist: seq<Coin>, take: int, n: nat): (r: seq<Coin>)
    requires n <= |shortlist|
    ensures |r| >= |picks| && r[..|picks|] == picks
    ensures |r| <= take || r == picks
  {
    if n == 0 then picks
    else
      var r := Backfill(picks, shortlist, take, n - 1);
      if |r| < take && shortlist[n - 1].id !in Ids(picks) then r + [shortlist[n - 1]] else r
  }

  /** `s.slice(0, take)`. */
  function SliceTo(s: seq<Coin>, take: int): seq<Coin> {
    if take >= |s| then s else if take >= 0 then s[..take]
    else if |s| + take > 0 then s[..|s| + take] else []
  }

  function Picks(veto: Veto, shortlist: seq<Coin>, take: int): seq<Coin>
    requires shortlist != []
  {
    Greedy(veto, shortlist, take, |shortlist|)
  }

  /** pruneByDiversity with the price maps given. */
  function Pruned(root: Root, maps: PriceMaps, shortlist: seq<Coin>, take: int): seq<Coin>
    requires CoherentMaps(maps)
  {
    if |shortlist| <= take then shortlist
    else if maps == map[] || shortlist == [] then SliceTo(shortlist, take)
    else
      var picks := Picks(VetoIn(root, maps), shortlist, take);
      if |picks| < take then Backfill(picks, shortlist, take, |shortlist|) else picks
  }

  ghost function PriceMapsAmong(candlesByCoin: map<string, seq<Candle>>, ids: set<string>): PriceMaps {
    map id | id in candlesByCoin && id in ids && candlesByCoin[id] != [] :: PricesOf(candlesByCoin[id])
  }

  lemma AllPriceMaps(candlesByCoin: map<string, seq<Candle>>, ids: set<string>)
    requires ids == candlesByCoin.Keys
    ensures PriceMapsAmong(candlesByCoin, ids) == PriceMapsOf(candlesByCoin)
  {
  }

  lemma OnePriceMapMore(candlesByCoin: map<string, seq<Candle>>, ids: set<string>, id: string)
    requires id in candlesByCoin && id !in ids
    ensures var maps, p := PriceMapsAmong(candlesByCoin, ids), PricesOf(candlesByCoin[id]);
            PriceMapsAmong(candlesByCoin, ids + {id}) == if |p.keys| > 0 then maps[id := p] else maps
  {
    NonemptyPrices(candlesByCoin[id]);
  }

  method AddPriceMap(maps: PriceMaps, candlesByCoin: map<string, seq<Candle>>, ghost visited: set<string>, id: string)
    returns (grown: PriceMaps, count: nat)
    requires maps == PriceMapsAmong(candlesByCoin, visited) && id in candlesByCoin && id !in visited
    ensures grown == PriceMapsAmong(candlesByCoin, visited + {id})
    ensures grown == map[] <==> maps == map[] && count == 0
  {
    var p := PricesOf(candlesByCoin[id]);
    OnePriceMapMore(candlesByCoin, visited, id);
    grown, count := maps, |p.keys|;
    if |p.keys| > 0 {
      grown := maps[id := p];
      assert id in grown;
    }
  }

  method BuildPriceMaps(candlesByCoin: map<string, seq<Candle>>) returns (maps: PriceMaps, totalCandles: nat)
    ensures maps == PriceMapsOf(candlesByCoin)
    ensures totalCandles == 0 <==> maps == map[]
  {
    maps, totalCandles := map[], 0;
    var remaining := candlesByCoin.Keys;
    ghost var visited: set<string> := {};
    while remaining != {}
      invariant Splits(candlesByCoin.Keys, visited, remaining)
      invariant maps == PriceMapsAmong(candlesByCoin, visited)
      invariant totalCandles == 0 <==> maps == map[]
      decreases |remaining|
    {
      var id :| id in remaining;
      MoveOne(candlesByCoin.Keys, visited, remaining, id);
      var count;
      maps, count := AddPriceMap(maps, candlesByCoin, visited, id);
      remaining := remaining - {id};
      visited := visited + {id};
      totalCandles := totalCandles + count;
    }
    AllPriceMaps(candlesByCoin, visited);
  }

  ghost predicate Splits(all: set<string>, visited: set<string>, remaining: set<string>) {
    visited + remaining == all && visited !! remaining
  }

  lemma MoveOne(all: set<string>, visited: set<string>, remaining: set<string>, id: string)
    requires Splits(all, visited, remaining) && id in remaining
    ensures Splits(all, visited + {id}, remaining - {id}) && id in all && id !in visited
  {
  }

  /** The loop over the picks that looks for a veto. */
  method IsRejected(root: Root, maps: PriceMaps, candidate: Coin, picked: seq<Coin>) returns (rejected: bool)
    requires CoherentMaps(maps)
    ensures rejected <==> exists k :: 0 <= k < |picked| && Vetoes(root, maps, candidate, picked[k])
  {
    for k := 0 to |picked|
      invariant forall j :: 0 <= j < k ==> !Vetoes(root, maps, candidate, picked[j])
    {
      var corr := ComputePairwiseCorrelation(root, maps, candidate, picked[k]);
      if TooHigh(corr) {
        assert Vetoes(root, maps, candidate, picked[k]);
        return true;
      }
    }
    return false;
  }

  /** The picks among the first two coins: rank 1 is locked, rank 2 joins unless it is known to correlate. */
  method ChooseFirstTwo(root: Root, maps: PriceMaps, shortlist: seq<Coin>, take: int) returns (picked: seq<Coin>)
    requires CoherentMaps(maps) && |shortlist| >= 2
    ensures picked == Greedy(VetoIn(root, maps), shortlist, take, 2)
  {
    picked := [shortlist[0]];
    assert picked == Greedy(VetoIn(root, maps), shortlist, take, 1);
    if |picked| < take {
      var corr := ComputePairwiseCorrelation(root, maps, shortlist[0], shortlist[1]);
      if corr.None? || corr.value <= CORRELATION_THRESHOLD {
        picked := picked + [shortlist[1]];
      }
    }
  }

  /** A later candidate: without prices it joins unasked. */
  method IsAdmitted(root: Root, maps: PriceMaps, shortlist: seq<Coin>, picked: seq<Coin>, i: nat)
    returns (admitted: bool)
    requires CoherentMaps(maps) && 2 <= i < |shortlist|
    ensures admitted == Admitted(VetoIn(root, maps), shortlist, picked, i)
  {
    if shortlist[i].id !in maps { return true; }
    var rejected := IsRejected(root, maps, shortlist[i], picked);
    return !rejected;
  }

  method SelectGreedily(root: Root, maps: PriceMaps, shortlist: seq<Coin>, take: int) returns (picked: seq<Coin>)
    requires CoherentMaps(maps) && shortlist != []
    ensures picked == Picks(VetoIn(root, maps), shortlist, take)
  {
    if |shortlist| == 1 { return [shortlist[0]]; }
    picked := ChooseFirstTwo(root, maps, shortlist, take);
    var i := 2;
    while i < |shortlist| && |picked| < take
      invariant 2 <= i <= |shortlist|
      invariant picked == Greedy(VetoIn(root, maps), shortlist, take, i)
    {
      var admitted := IsAdmitted(root, maps, shortlist, picked, i);
      if admitted { picked := picked + [shortlist[i]]; }
      i := i + 1;
    }
    FullPicksStay(VetoIn(root, maps), shortlist, take, i);
  }

  method FillUp(picks: seq<Coin>, shortlist: seq<Coin>, take: int) returns (picked: seq<Coin>)
    ensures picked == Backfill(picks, shortlist, take, |shortlist|)
  {
    picked := picks;
    var pickedIds := Ids(picks);
    for n := 0 to |shortlist|
      invariant picked == Backfill(picks, shortlist, take, n)
    {
      if |picked| < take && shortlist[n].id !in pickedIds {
        picked := picked + [shortlist[n]];
      }
    }
  }

  /** pruneByDiversity. The candle query returns candles for shortlisted ids only. */
  method PruneByDiversity(root: Root, shortlist: seq<Coin>, take: int, candlesByCoin: map<string, seq<Candle>>)
    returns (picked: seq<Coin>)
    requires forall id :: id in candlesByCoin ==> id in Ids(shortlist)
    ensures picked == Pruned(root, PriceMapsOf(candlesByCoin), shortlist, take)
  {
    if |shortlist| <= take { return shortlist; }
    var maps, totalCandles := BuildPriceMaps(candlesByCoin);
    if totalCandles == 0 { return SliceTo(shortlist, take); }
    PricesNeedCoins(shortlist, candlesByCoin);
    picked := SelectGreedily(root, maps, shortlist, take);
    if |picked| < take {
      picked := FillUp(picked, shortlist, take);
    }
  }

  lemma PricesNeedCoins(shortlist: seq<Coin>, candlesByCoin: map<string, seq<Candle>>)
    requires forall id :: id in candlesByCoin ==> id in Ids(shortlist)
    requires PriceMapsOf(candlesByCoin) != map[]
    ensures shortlist != []
  {
    assert exists id :: id in PriceMapsOf(candlesByCoin);
  }

  lemma {:induction false} NonemptyPrices(candles: seq<Candle>)
    ensures |PricesOf(candles).keys| == 0 <==> candles == []
  {
    if candles != [] {
      assert candles[|candles| - 1].timestamp in PricesOf(candles).closes;
    }
  }

  /** Once `take` coins are picked, or all positions are visited, the picks are final. */
  lemma {:induction false} FullPicksStay(veto: Veto, shortlist: seq<Coin>, take: int, i: nat)
    requires 1 <= i <= |shortlist|
    requires i == |shortlist| || |Greedy(veto, shortlist, take, i)| >= take
    ensures Picks(veto, shortlist, take) == Greedy(veto, shortlist, take, i)
    decreases |shortlist| - i
  {
    if i < |shortlist| { FullPicksStay(veto, shortlist, take, i + 1); }
  }

  // ---------------------------------------------------------------- what pruning guarantees

  ghost predicate DistinctIds(coins: seq<Coin>) {
    forall i, j :: 0 <= i < j < |coins| ==> coins[i].id != coins[j].id
  }

  ghost predicate AllFrom(coins: seq<Coin>, shortlist: seq<Coin>) {
    forall c :: c in coins ==> c in shortlist
  }

  lemma {:induction false} GreedyDistinct(veto: Veto, shortlist: seq<Coin>, take: int, i: nat)
    requires 1 <= i <= |shortlist| && DistinctIds(shortlist)
    ensures DistinctIds(Greedy(veto, shortlist, take, i))
    ensures AllFrom(Greedy(veto, shortlist, take, i), shortlist[..i])
  {
    if i > 1 {
      GreedyDistinct(veto, shortlist, take, i - 1);
      var picks := Greedy(veto, shortlist, take, i - 1);
      assert forall k :: 0 <= k < |picks| ==> picks[k] in picks && picks[k] in shortlist[..i - 1];
    }
  }

  ghost predicate BackfillInv(picks: seq<Coin>, r: seq<Coin>, shortlist: seq<Coin>, n: nat)
    requires n <= |shortlist|
  {
    && DistinctIds(r) && AllFrom(r, shortlist)
    && forall c :: c in r ==> c in picks || (c in shortlist[..n] && c.id !in Ids(picks))
  }

  lemma {:induction false} BackfillDistinct(picks: seq<Coin>, shortlist: seq<Coin>, take: int, n: nat)
    requires n <= |shortlist| && DistinctIds(shortlist) && DistinctIds(picks) && AllFrom(picks, shortlist)
    ensures BackfillInv(picks, Backfill(picks, shortlist, take, n), shortlist, n)
  {
    if n > 0 {
      BackfillDistinct(picks, shortlist, take, n - 1);
      var r := Backfill(picks, shortlist, take, n - 1);
      var coin := shortlist[n - 1];
      if |r| < take && coin.id !in Ids(picks) {
        forall c | c in r ensures c.id != coin.id {
          if c in picks { assert c.id in Ids(picks); }
        }
      }
    }
  }

  /** A backfill that ends short of `take` has added every coin, so the shortlist was short. */
  lemma {:induction false} BackfillCovers(picks: seq<Coin>, shortlist: seq<Coin>, take: int, n: nat)
    requires n <= |shortlist|
    requires |Backfill(picks, shortlist, take, n)| < take
    ensures forall k :: 0 <= k < n ==> shortlist[k].id in Ids(Backfill(picks, shortlist, take, n))
  {
    if n > 0 {
      BackfillCovers(picks, shortlist, take, n - 1);
      var r, s := Backfill(picks, shortlist, take, n - 1), Backfill(picks, shortlist, take, n);
      assert forall c :: c in r ==> c in s;
      if shortlist[n - 1].id in Ids(picks) {
        var c :| c in picks && c.id == shortlist[n - 1].id;
        assert c in r[..|picks|];
      } else {
        assert shortlist[n - 1] in s;
      }
    }
  }

  lemma LastIdIsNew(coins: seq<Coin>)
    requires coins != [] && DistinctIds(coins)
    ensures coins[|coins| - 1].id !in Ids(coins[..|coins| - 1])
  {
    var front, last := coins[..|coins| - 1], coins[|coins| - 1];
    forall c | c in front ensures c.id != last.id {
      var k :| 0 <= k < |front| && front[k] == c;
      assert coins[k] == c;
    }
  }

  lemma IdsOfLast(coins: seq<Coin>)
    requires coins != []
    ensures Ids(coins) == Ids(coins[..|coins| - 1]) + {coins[|coins| - 1].id}
  {
    assert coins == coins[..|coins| - 1] + [coins[|coins| - 1]];
  }

  lemma {:induction false} IdsCount(coins: seq<Coin>)
    ensures |Ids(coins)| <= |coins|
    ensures DistinctIds(coins) ==> |Ids(coins)| == |coins|
  {
    if coins == [] {
      assert Ids(coins) == {};
    } else {
      IdsOfLast(coins);
      IdsCount(coins[..|coins| - 1]);
      if DistinctIds(coins) { LastIdIsNew(coins); }
    }
  }

  lemma BackfillReachesTake(picks: seq<Coin>, shortlist: seq<Coin>, take: int)
    requires DistinctIds(shortlist) && |picks| < take < |shortlist|
    ensures |Backfill(picks, shortlist, take, |shortlist|)| == take
  {
    var r := Backfill(picks, shortlist, take, |shortlist|);
    if |r| < take {
      BackfillCovers(picks, shortlist, take, |shortlist|);
      IdsCount(r);
      IdsCount(shortlist);
      SubsetSize(Ids(shortlist), Ids(r));
    }
  }

  lemma {:induction false} SubsetSize(a: set<string>, b: set<string>)
    requires a <= b
    ensures |a| <= |b|
  {
    assert b == a + (b - a);
  }

  /** For distinct ids and take >= 1, pruning returns exactly min(take, shortlist size) distinct
      shortlisted coins, led by rank 1. */
  lemma PrunedSelection(root: Root, maps: PriceMaps, shortlist: seq<Coin>, take: int)
    requires CoherentMaps(maps) && shortlist != [] && DistinctIds(shortlist) && take >= 1
    ensures var r := Pruned(root, maps, shortlist, take);
            && |r| == (if take < |shortlist| then take else |shortlist|)
            && DistinctIds(r) && AllFrom(r, shortlist) && r[0] == shortlist[0]
  {
    if take < |shortlist| && maps != map[] {
      var n := |shortlist|;
      GreedyDistinct(VetoIn(root, maps), shortlist, take, n);
      var picks := Picks(VetoIn(root, maps), shortlist, take);
      assert shortlist[..n] == shortlist;
      if |picks| < take {
        BackfillDistinct(picks, shortlist, take, n);
        BackfillReachesTake(picks, shortlist, take);
        assert Backfill(picks, shortlist, take, n)[..|picks|][0] == shortlist[0];
      }
    }
  }

  /** Without price data, or when all coins are asked for, the list is cut in rank order. */
  lemma CutInRankOrder(root: Root, maps: PriceMaps, shortlist: seq<Coin>, take: nat)
    requires CoherentMaps(maps) && (maps == map[] || |shortlist| <= take)
    ensures Pruned(root, maps, shortlist, take) == if take < |shortlist| then shortlist[..take] else shortlist
  {
  }

  lemma {:induction false} FullBackfillStays(picks: seq<Coin>, shortlist: seq<Coin>, take: int, k: nat, n: nat)
    requires k <= n <= |shortlist| && |Backfill(picks, shortlist, take, k)| >= take
    ensures Backfill(picks, shortlist, take, n) == Backfill(picks, shortlist, take, k)
  {
    if k < n { FullBackfillStays(picks, shortlist, take, k, n - 1); }
  }

  lemma {:induction false} BackfillGrows(picks: seq<Coin>, shortlist: seq<Coin>, take: int, k: nat, n: nat)
    requires k <= n <= |shortlist|
    ensures Backfill(picks, shortlist, take, k) <= Backfill(picks, shortlist, take, n)
  {
    if k < n {
      BackfillGrows(picks, shortlist, take, k, n - 1);
      BackfillStep(picks, shortlist, take, n);
      PrefixOfPrefix(Backfill(picks, shortlist, take, k), Backfill(picks, shortlist, take, n - 1),
                     Backfill(picks, shortlist, take, n));
    }
  }

  lemma BackfillStep(picks: seq<Coin>, shortlist: seq<Coin>, take: int, n: nat)
    requires 0 < n <= |shortlist|
    ensures Backfill(picks, shortlist, take, n - 1) <= Backfill(picks, shortlist, take, n)
  {
  }

  lemma JoinsBackfill(picks: seq<Coin>, shortlist: seq<Coin>, take: int, k: nat)
    requires k < |shortlist| && |Backfill(picks, shortlist, take, k)| < take && shortlist[k].id !in Ids(picks)
    ensures shortlist[k] in Backfill(picks, shortlist, take, |shortlist|)
  {
    var after := Backfill(picks, shortlist, take, k + 1);
    BackfillGrows(picks, shortlist, take, k + 1, |shortlist|);
    assert Backfill(picks, shortlist, take, |shortlist|)[|after| - 1] == after[|after| - 1] == shortlist[k];
  }

  /** Backfill goes by rank: if it leaves a coin out, the coins it adds all rank before that one. */
  lemma BackfillFollowsRank(picks: seq<Coin>, shortlist: seq<Coin>, take: int, k: nat, c: Coin)
    requires DistinctIds(shortlist) && DistinctIds(picks) && AllFrom(picks, shortlist) && k < |shortlist|
    requires var r := Backfill(picks, shortlist, take, |shortlist|);
             c in r && c !in picks && shortlist[k] !in r
    ensures c in shortlist[..k]
  {
    var n := |shortlist|;
    LeftOutIsNoPick(picks, shortlist, Backfill(picks, shortlist, take, n), k);
    if |Backfill(picks, shortlist, take, k)| < take {
      JoinsBackfill(picks, shortlist, take, k);
      assert false;
    }
    FullBackfillStays(picks, shortlist, take, k, n);
    BackfillDistinct(picks, shortlist, take, k);
  }

  lemma LeftOutIsNoPick(picks: seq<Coin>, shortlist: seq<Coin>, r: seq<Coin>, k: nat)
    requires k < |shortlist| && shortlist[k] !in r && |picks| <= |r| && r[..|picks|] == picks
    requires DistinctIds(shortlist) && AllFrom(picks, shortlist)
    ensures shortlist[k].id !in Ids(picks)
  {
    forall c | c in picks ensures c.id != shortlist[k].id {
      assert c in r[..|picks|];
      var i :| 0 <= i < |shortlist| && shortlist[i] == c;
    }
  }

  /** `take` coins, but no fewer than none and no more than there are. */
  function SizeFor(take: int, size: nat): nat {
    if take <= 0 then 0 else if take < size then take else size
  }

  /** Exactly when the size is as asked for, for any `take`: always from one on. Otherwise only if the list
      is empty, or if there is no price data and the slice comes out empty: once there is price data rank 1
      is returned all the same, and without it a negative `take` counts from the end. */
  lemma SizeIsAsAskedIff(root: Root, maps: PriceMaps, shortlist: seq<Coin>, take: int)
    requires CoherentMaps(maps) && DistinctIds(shortlist)
    ensures |Pruned(root, maps, shortlist, take)| == SizeFor(take, |shortlist|)
            <==> (take >= 1 || shortlist == [] || (maps == map[] && (take == 0 || |shortlist| + take <= 0)))
  {
    if take >= 1 && shortlist != [] {
      PrunedSelection(root, maps, shortlist, take);
    } else if shortlist != [] && maps != map[] {
      FullPicksStay(VetoIn(root, maps), shortlist, take, 1);
    }
  }

  /** The coins at positions below i that were offered a place. */
  ghost predicate Offered(veto: Veto, shortlist: seq<Coin>, take: int, k: nat)
    requires 1 <= k < |shortlist|
  {
    |Greedy(veto, shortlist, take, k)| < take
  }

  ghost predicate PairwiseFree(veto: Veto, picks: seq<Coin>)
  {
    forall i, j :: 0 <= i < |picks| && 0 <= j < |picks| && i != j ==> !veto(picks[i], picks[j])
  }

  lemma {:induction false} GreedyPairwiseFree(veto: Veto, shortlist: seq<Coin>, take: int, i: nat)
    requires Symmetric(veto) && 1 <= i <= |shortlist|
    ensures PairwiseFree(veto, Greedy(veto, shortlist, take, i))
  {
    if i > 1 {
      GreedyPairwiseFree(veto, shortlist, take, i - 1);
      var picks := Greedy(veto, shortlist, take, i - 1);
      if |picks| < take && Admitted(veto, shortlist, picks, i - 1) {
        var coin := shortlist[i - 1];
        assert forall k :: 0 <= k < |picks| ==> !veto(coin, picks[k]) && !veto(picks[k], coin);
      }
    }
  }

  /** When the shortlist is longer than `take` and no backfill ran, no two picks have a known
      correlation above the threshold, in either argument order. */
  lemma NoCorrelatedPicks(root: Root, maps: PriceMaps, shortlist: seq<Coin>, take: int)
    requires CoherentMaps(maps) && AscendingMaps(maps) && shortlist != [] && 1 <= take < |shortlist|
    requires |Picks(VetoIn(root, maps), shortlist, take)| >= take
    ensures PairwiseFree(VetoIn(root, maps), Pruned(root, maps, shortlist, take))
  {
    VetoInSymmetric(root, maps);
    if maps != map[] { GreedyPairwiseFree(VetoIn(root, maps), shortlist, take, |shortlist|); }
  }

  lemma {:induction false} GreedyGrows(veto: Veto, shortlist: seq<Coin>, take: int, i: nat, j: nat)
    requires 1 <= i <= j <= |shortlist|
    ensures Greedy(veto, shortlist, take, i) <= Greedy(veto, shortlist, take, j)
  {
    if i < j { GreedyGrows(veto, shortlist, take, i, j - 1); }
  }

  lemma RefusedHasVeto(veto: Veto, shortlist: seq<Coin>, take: int, k: nat) returns (p: nat)
    requires Symmetric(veto) && DistinctIds(shortlist)
    requires 1 <= k < |shortlist| && Offered(veto, shortlist, take, k)
    requires shortlist[k] !in Picks(veto, shortlist, take)
    ensures p < k && shortlist[p] in Picks(veto, shortlist, take)
    ensures veto(shortlist[k], shortlist[p])
  {
    var before := Greedy(veto, shortlist, take, k);
    GreedyGrows(veto, shortlist, take, k, |shortlist|);
    GreedyGrows(veto, shortlist, take, k + 1, |shortlist|);
    GreedyDistinct(veto, shortlist, take, k);
    var after := Greedy(veto, shortlist, take, k + 1);
    assert after[|after| - 1] in after;
    assert !Admitted(veto, shortlist, before, k);
    var j := VetoingPick(veto, shortlist, before, k);
    assert before[j] in before;
    p :| 0 <= p < k && shortlist[..k][p] == before[j];
  }

  /** Every coin that was offered a place and is not a pick has an earlier-ranked pick that vetoes it. */
  lemma VetoedByEarlierPick(root: Root, maps: PriceMaps, shortlist: seq<Coin>, take: int, k: nat) returns (p: nat)
    requires CoherentMaps(maps) && AscendingMaps(maps) && DistinctIds(shortlist)
    requires 1 <= k < |shortlist| && Offered(VetoIn(root, maps), shortlist, take, k)
    requires shortlist[k] !in Picks(VetoIn(root, maps), shortlist, take)
    ensures p < k && shortlist[p] in Picks(VetoIn(root, maps), shortlist, take)
    ensures Vetoes(root, maps, shortlist[k], shortlist[p])
  {
    VetoInSymmetric(root, maps);
    p := RefusedHasVeto(VetoIn(root, maps), shortlist, take, k);
  }

  lemma VetoingPick(veto: Veto, shortlist: seq<Coin>, picks: seq<Coin>, k: nat) returns (j: nat)
    requires Symmetric(veto) && 1 <= k < |shortlist| && picks != [] && picks[0] == shortlist[0]
    requires !Admitted(veto, shortlist, picks, k)
    ensures j < |picks| && veto(shortlist[k], picks[j])
  {
    if k == 1 {
      j := 0;
    } else {
      j :| 0 <= j < |picks| && veto(shortlist[k], picks[j]);
    }
  }

  /** The guarantee is exact: with price data and a shortlist longer than `take`, the selection is free
      of known high correlations if and only if no backfill was needed. */
  lemma UncorrelatedIffNoBackfill(root: Root, maps: PriceMaps, shortlist: seq<Coin>, take: int)
    requires CoherentMaps(maps) && AscendingMaps(maps) && DistinctIds(shortlist)
    requires maps != map[] && 1 <= take < |shortlist|
    ensures PairwiseFree(VetoIn(root, maps), Pruned(root, maps, shortlist, take))
            <==> |Picks(VetoIn(root, maps), shortlist, take)| >= take
  {
    VetoInSymmetric(root, maps);
    if |Picks(VetoIn(root, maps), shortlist, take)| >= take {
      NoCorrelatedPicks(root, maps, shortlist, take);
    } else {
      BackfillAddsVetoedCoin(VetoIn(root, maps), shortlist, take);
    }
  }

  lemma BackfillAddsVetoedCoin(veto: Veto, shortlist: seq<Coin>, take: int)
    requires Symmetric(veto) && DistinctIds(shortlist)
    requires 1 <= take < |shortlist| && |Picks(veto, shortlist, take)| < take
    ensures !PairwiseFree(veto, Backfill(Picks(veto, shortlist, take), shortlist, take, |shortlist|))
  {
    var n, picks := |shortlist|, Picks(veto, shortlist, take);
    var r := Backfill(picks, shortlist, take, n);
    GreedyDistinct(veto, shortlist, take, n);
    assert shortlist[..n] == shortlist;
    BackfillDistinct(picks, shortlist, take, n);
    BackfillReachesTake(picks, shortlist, take);
    var coin := r[|picks|];
    assert coin in r;
    var k :| 0 <= k < n && shortlist[k] == coin;
    FreshCoin(picks, r);
    assert r[0] == shortlist[0] by { assert r[..|picks|][0] == shortlist[0]; }
    GreedyGrows(veto, shortlist, take, if k > 0 then k else 1, n);
    var p := RefusedHasVeto(veto, shortlist, take, k);
    var i :| 0 <= i < |picks| && picks[i] == shortlist[p];
    assert r[i] == r[..|picks|][i];
    assert veto(r[|picks|], r[i]);
  }

  lemma FreshCoin(picks: seq<Coin>, r: seq<Coin>)
    requires |picks| < |r| && r[..|picks|] == picks && DistinctIds(r)
    ensures r[|picks|] !in picks
  {
    forall i | 0 <= i < |picks| ensures picks[i] != r[|picks|] {
      assert picks[i] == r[..|picks|][i] == r[i];
    }
  }

  /** The price maps that pruneByDiversity builds satisfy what the guarantees above assume. */
  lemma QueriedMapsAscend(candlesByCoin: map<string, seq<Candle>>)
    requires forall id :: id in candlesByCoin ==> InTimeOrder(candlesByCoin[id])
    ensures CoherentMaps(PriceMapsOf(candlesByCoin)) && AscendingMaps(PriceMapsOf(candlesByCoin))
  {
    forall id | id in candlesByCoin ensures Ascending(PricesOf(candlesByCoin[id]).keys) {
      KeysAscend(candlesByCoin[id]);
    }
  }
}
