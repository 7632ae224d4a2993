/** Pairwise covariance, portfolio variance, and what one aligned panel guarantees about them. */
module Covariance {
  import opened Wrappers
  import opened Series
  import opened Calendar
  import Arith

  const TRADING_DAYS_PER_YEAR := 252.0
  const MIN_OBSERVATIONS := 60

  type Dated = map<int, real>

  /** What `math.sqrt` is used as. */
  ghost predicate IsSqrt(sqrt: real -> real) {
    forall x :: x >= 0.0 ==> sqrt(x) >= 0.0 && sqrt(x) * sqrt(x) == x
  }

  // ---------------------------------------------------------------- one pair

  function Pick(r: Dated, dates: seq<int>): (x: seq<real>)
    requires forall j :: 0 <= j < |dates| ==> dates[j] in r
    ensures |x| == |dates| && forall j :: 0 <= j < |x| ==> x[j] == r[dates[j]]
  {
    seq(|dates|, j requires 0 <= j < |dates| => r[dates[j]])
  }

  /** Two series on their common dates, in date order. */
  function AlignReturns(r1: Dated, r2: Dated): (a: (seq<real>, seq<real>))
    ensures |a.0| == |a.1| == |r1.Keys * r2.Keys|
  {
    var dates := SortDates(r1.Keys * r2.Keys);
    assert forall j :: 0 <= j < |dates| ==> dates[j] in dates;
    (Pick(r1, dates), Pick(r2, dates))
  }

  function PairwiseCovariance(x: seq<real>, y: seq<real>, sqrt: real -> real): (r: (real, real)) {
    var n := |x|;
    if n < 2 || |y| != n then (0.0, 0.0)
    else
      var std1 := if Var(x) > 0.0 then sqrt(Var(x)) else 0.0;
      var std2 := if Var(y) > 0.0 then sqrt(Var(y)) else 0.0;
      (Cov(x, y), if std1 > 0.0 && std2 > 0.0 then Cov(x, y) / (std1 * std2) else 0.0)
  }

  function Volatility(x: seq<real>, sqrt: real -> real): real {
    if |x| < 2 then 0.0 else sqrt(Var(x)) * sqrt(TRADING_DAYS_PER_YEAR)
  }

  /** A correlation lies between -1 and 1, and is the same both ways. */
  lemma CorrelationRange(x: seq<real>, y: seq<real>, sqrt: real -> real)
    requires IsSqrt(sqrt)
    ensures -1.0 <= PairwiseCovariance(x, y, sqrt).1 <= 1.0
    ensures PairwiseCovariance(x, y, sqrt) == PairwiseCovariance(y, x, sqrt)
  {
    hide Var, Cov;
    if |x| == |y| >= 2 {
      CovSymmetric(x, y);
      if Var(x) > 0.0 && Var(y) > 0.0 {
        CauchySchwarz(x, y);
        var s, t, c := sqrt(Var(x)), sqrt(Var(y)), Cov(x, y);
        RootsPositive(Var(x), s);
        RootsPositive(Var(y), t);
        RatioWithinOne(c, s, t, Var(x), Var(y), c / (s * t));
        assert s * t == t * s;
      }
    }
  }

  lemma RootsPositive(v: real, s: real)
    requires v > 0.0 && s >= 0.0 && s * s == v
    ensures s > 0.0
  {
    Arith.SquareSign(s, v);
  }

  lemma RatioWithinOne(c: real, s: real, t: real, v: real, w: real, r: real)
    requires s > 0.0 && t > 0.0 && s * s == v && t * t == w && c * c <= v * w && r == c / (s * t)
    ensures -1.0 <= r <= 1.0
  {
    var p := s * t;
    Arith.ProductSign(s, t);
    Arith.QuotientTimes(c, p);
    assert p * p == v * w;
    SquareOrder(c, p, c * c, p * p);
    SquareOrder(-c, p, c * c, p * p);
    Arith.CancelOrder(r, 1.0, p);
    Arith.CancelOrder(-1.0, r, p);
  }

  /** On non-negative numbers squares order as their roots do. */
  lemma SquareOrder(a: real, b: real, a2: real, b2: real)
    requires b >= 0.0 && a2 == a * a && b2 == b * b && a2 <= b2
    ensures a <= b
  {
    var d, t := a - b, a + b;
    assert d * t == a2 - b2;
    if d > 0.0 {
      Arith.ProductSign(d, t);
    }
  }

  // ---------------------------------------------------------------- portfolio variance

  type Weights = seq<(string, real)>
  type Matrix = map<(string, string), real>

  function Entry(m: Matrix, a: string, b: string): real {
    if (a, b) in m then m[(a, b)] else 0.0
  }

  /** The terms of one row, for the first `j` columns. */
  function RowSum(w: Weights, m: Matrix, i: nat, j: nat): real
    requires i < |w| && j <= |w|
  {
    if j == 0 then 0.0 else RowSum(w, m, i, j - 1) + w[i].1 * w[j - 1].1 * Entry(m, w[i].0, w[j - 1].0)
  }

  /** The double sum of the first `i` rows. */
  function QuadraticForm(w: Weights, m: Matrix, i: nat): real
    requires i <= |w|
  {
    if i == 0 then 0.0 else QuadraticForm(w, m, i - 1) + RowSum(w, m, i - 1, |w|)
  }

  function PortfolioVolatility(w: Weights, m: Matrix, sqrt: real -> real): real {
    if |w| == 0 then 0.0
    else if |w| == 1 then sqrt(Entry(m, w[0].0, w[0].0)) * sqrt(TRADING_DAYS_PER_YEAR)
    else
      var v := QuadraticForm(w, m, |w|);
      sqrt((if v < 0.0 then 0.0 else v) * TRADING_DAYS_PER_YEAR)
  }

  method CalculatePortfolioVolatility(w: Weights, m: Matrix, sqrt: real -> real) returns (volatility: real)
    ensures volatility == PortfolioVolatility(w, m, sqrt)
  {
    if |w| == 0 {
      return 0.0;
    }
    if |w| == 1 {
      return sqrt(Entry(m, w[0].0, w[0].0)) * sqrt(TRADING_DAYS_PER_YEAR);
    }
    var portfolioVariance := 0.0;
    for i := 0 to |w|
      invariant portfolioVariance == QuadraticForm(w, m, i)
    {
      for j := 0 to |w|
        invariant portfolioVariance == QuadraticForm(w, m, i) + RowSum(w, m, i, j)
      {
        portfolioVariance := portfolioVariance + w[i].1 * w[j].1 * Entry(m, w[i].0, w[j].0);
      }
    }
    if portfolioVariance < 0.0 {
      portfolioVariance := 0.0;
    }
    volatility := sqrt(portfolioVariance * TRADING_DAYS_PER_YEAR);
  }

  function Amounts(w: Weights): (ws: seq<real>)
    ensures |ws| == |w| && forall i :: 0 <= i < |w| ==> ws[i] == w[i].1
  {
    seq(|w|, i requires 0 <= i < |w| => w[i].1)
  }

  /** Every entry is the covariance of the two series of one panel. */
  ghost predicate FromPanel(w: Weights, m: Matrix, xs: seq<seq<real>>, n: nat) {
    && |xs| == |w| && n > 0
    && (forall i :: 0 <= i < |xs| ==> |xs[i]| == n)
    && (forall i, j :: 0 <= i < |xs| && 0 <= j < |xs| ==> Entry(m, w[i].0, w[j].0) == Cov(xs[i], xs[j]))
  }

  /** The covariance with `z`, summed over the first `k` weighted series. */
  function LinearSum(ws: seq<real>, xs: seq<seq<real>>, z: seq<real>, k: nat): real
    requires |ws| == |xs| && k <= |ws| && |z| > 0 && forall i :: 0 <= i < |xs| ==> |xs[i]| == |z|
  {
    if k == 0 then 0.0 else LinearSum(ws, xs, z, k - 1) + ws[k - 1] * Cov(xs[k - 1], z)
  }

  lemma {:induction false} ZerosHaveNoCov(n: nat, z: seq<real>)
    requires |z| == n > 0
    ensures Cov(Const(n, 0.0), z) == 0.0
  {
    var o := Const(n, 0.0);
    assert Axpy(1.0, o, o) == o;
    CovLinear(1.0, o, o, z);
  }

  lemma {:induction false} CombineCov(ws: seq<real>, xs: seq<seq<real>>, z: seq<real>, k: nat)
    requires |ws| == |xs| && k <= |ws| && |z| > 0 && forall i :: 0 <= i < |xs| ==> |xs[i]| == |z|
    ensures Cov(Combine(ws[..k], xs[..k], |z|), z) == LinearSum(ws, xs, z, k)
  {
    hide Cov;
    if k == 0 {
      ZerosHaveNoCov(|z|, z);
    } else {
      CombineCov(ws, xs, z, k - 1);
      assert ws[..k][..k - 1] == ws[..k - 1] && xs[..k][..k - 1] == xs[..k - 1];
      CovLinear(ws[k - 1], xs[k - 1], Combine(ws[..k - 1], xs[..k - 1], |z|), z);
    }
  }

  lemma {:induction false} RowIsLinear(w: Weights, m: Matrix, xs: seq<seq<real>>, n: nat, i: nat, j: nat)
    requires FromPanel(w, m, xs, n) && i < |w| && j <= |w|
    ensures RowSum(w, m, i, j) == w[i].1 * LinearSum(Amounts(w), xs, xs[i], j)
  {
    hide Cov;
    if j > 0 {
      RowIsLinear(w, m, xs, n, i, j - 1);
      CovSymmetric(xs[i], xs[j - 1]);
      RowStep(w[i].1, w[j - 1].1, Cov(xs[j - 1], xs[i]), LinearSum(Amounts(w), xs, xs[i], j - 1));
    }
  }

  lemma RowStep(a: real, b: real, c: real, s: real)
    ensures a * (s + b * c) == a * s + a * b * c
  {
  }

  lemma {:induction false} RowsAreLinear(w: Weights, m: Matrix, xs: seq<seq<real>>, n: nat, p: seq<real>, i: nat)
    requires FromPanel(w, m, xs, n) && i <= |w| && p == Combine(Amounts(w), xs, n)
    ensures QuadraticForm(w, m, i) == LinearSum(Amounts(w), xs, p, i)
  {
    hide Cov, Combine;
    if i > 0 {
      RowsAreLinear(w, m, xs, n, p, i - 1);
      RowIsLinear(w, m, xs, n, i - 1, |w|);
      var ws := Amounts(w);
      CombineCov(ws, xs, xs[i - 1], |ws|);
      assert ws[..|ws|] == ws && xs[..|xs|] == xs;
      CovSymmetric(xs[i - 1], p);
    }
  }

  /** On one panel the double sum is the variance of the weighted return series, so it is never negative. */
  lemma QuadraticFormIsVariance(w: Weights, m: Matrix, xs: seq<seq<real>>, n: nat)
    requires FromPanel(w, m, xs, n)
    ensures QuadraticForm(w, m, |w|) == Var(Combine(Amounts(w), xs, n)) >= 0.0
  {
    hide Cov, Combine, LinearSum, QuadraticForm;
    var ws := Amounts(w);
    var p := Combine(ws, xs, n);
    RowsAreLinear(w, m, xs, n, p, |w|);
    CombineCov(ws, xs, p, |ws|);
    assert ws[..|ws|] == ws && xs[..|xs|] == xs;
    VarNonNegative(p);
  }

  // ---------------------------------------------------------------- diversification

  /** The weighted average of the holdings' deviations, over the first `k`. */
  function SigmaSum(ws: seq<real>, sigmas: seq<real>, k: nat): real
    requires |ws| == |sigmas| && k <= |ws|
  {
    if k == 0 then 0.0 else SigmaSum(ws, sigmas, k - 1) + ws[k - 1] * sigmas[k - 1]
  }

  ghost predicate Deviations(xs: seq<seq<real>>, sigmas: seq<real>, n: nat) {
    && |sigmas| == |xs| && n > 0 && (forall i :: 0 <= i < |xs| ==> |xs[i]| == n)
    && (forall i :: 0 <= i < |xs| ==> sigmas[i] >= 0.0 && sigmas[i] * sigmas[i] == Var(xs[i]))
  }

  /** A long-only portfolio is never more volatile than its holdings on average. */
  lemma {:induction false} VarianceBelowAverage(ws: seq<real>, xs: seq<seq<real>>, sigmas: seq<real>, n: nat, k: nat)
    requires |ws| == |xs| && Deviations(xs, sigmas, n) && k <= |ws|
    requires forall i :: 0 <= i < |ws| ==> ws[i] >= 0.0
    ensures SigmaSum(ws, sigmas, k) >= 0.0
    ensures Var(Combine(ws[..k], xs[..k], n)) <= SigmaSum(ws, sigmas, k) * SigmaSum(ws, sigmas, k)
  {
    hide Var, Cov;
    if k == 0 {
      ZerosHaveNoCov(n, Const(n, 0.0));
      VarIsSelfCov(Const(n, 0.0));
    } else {
      VarianceBelowAverage(ws, xs, sigmas, n, k - 1);
      assert ws[..k][..k - 1] == ws[..k - 1] && xs[..k][..k - 1] == xs[..k - 1];
      var a, x, y := ws[k - 1], xs[k - 1], Combine(ws[..k - 1], xs[..k - 1], n);
      VarAxpy(a, x, y);
      CauchySchwarz(x, y);
      VarNonNegative(y);
      AddOne(a, sigmas[k - 1], SigmaSum(ws, sigmas, k - 1), Var(x), Var(y), Cov(x, y), Var(Axpy(a, x, y)));
    }
  }

  lemma VarIsSelfCov(x: seq<real>)
    requires |x| > 0
    ensures Var(x) == Cov(x, x)
  {
  }

  lemma AddOne(a: real, s: real, t: real, vx: real, vy: real, c: real, v: real)
    requires a >= 0.0 && s >= 0.0 && t >= 0.0 && s * s == vx && 0.0 <= vy <= t * t && c * c <= vx * vy
    requires v == a * a * vx + 2.0 * a * c + vy
    ensures t + a * s >= 0.0
    ensures v <= (t + a * s) * (t + a * s)
  {
    Arith.ProductSign(a, s);
    Arith.ProductSign(s, t);
    var p := s * t;
    Arith.SquareSign(s, vx);
    Arith.MultiplyOrder(vy, t * t, vx);
    assert p * p == vx * (t * t);
    SquareOrder(c, p, c * c, p * p);
    Arith.MultiplyOrder(c, p, a);
    assert (t + a * s) * (t + a * s) == a * a * vx + 2.0 * (a * p) + t * t;
  }

  /** The weighted average of annual deviations read off the diagonal, over the first `k` holdings. */
  function WeightedVolatility(w: Weights, m: Matrix, sqrt: real -> real, k: nat): real
    requires k <= |w|
  {
    if k == 0 then 0.0
    else WeightedVolatility(w, m, sqrt, k - 1)
         + w[k - 1].1 * (sqrt(Entry(m, w[k - 1].0, w[k - 1].0)) * sqrt(TRADING_DAYS_PER_YEAR))
  }

  function Benefit(w: Weights, m: Matrix, sqrt: real -> real): real {
    var average := WeightedVolatility(w, m, sqrt, |w|);
    if average > 0.0 then 1.0 - PortfolioVolatility(w, m, sqrt) / average else 0.0
  }

  /** The entries of one row of the matrix, in the order of the holdings. */
  function MatrixRow(w: Weights, m: Matrix, a: string): (r: seq<real>)
    ensures |r| == |w| && forall j :: 0 <= j < |w| ==> r[j] == Entry(m, a, w[j].0)
  {
    seq(|w|, j requires 0 <= j < |w| => Entry(m, a, w[j].0))
  }

  /** The matrix applied to the weights. */
  function MatrixTimes(w: Weights, m: Matrix): (r: seq<real>)
    ensures |r| == |w| && forall i :: 0 <= i < |w| ==> r[i] == Dot(Amounts(w), MatrixRow(w, m, w[i].0))
  {
    seq(|w|, i requires 0 <= i < |w| => Dot(Amounts(w), MatrixRow(w, m, w[i].0)))
  }

  function Times(a: real, b: real): real {
    a * b
  }

  lemma DotStep(x: seq<real>, y: seq<real>, k: nat, a: real, b: real)
    requires 0 < k <= |x| == |y| && a == x[k - 1] && b == y[k - 1]
    ensures Dot(x[..k], y[..k]) == Dot(x[..k - 1], y[..k - 1]) + Times(a, b)
  {
    assert x[..k][..k - 1] == x[..k - 1] && y[..k][..k - 1] == y[..k - 1];
  }

  lemma RowTerm(w: Weights, m: Matrix, i: nat, j: nat, before: real, s: real)
    requires i < |w| && 0 < j <= |w| && before == RowSum(w, m, i, j - 1) == Times(w[i].1, s)
    ensures RowSum(w, m, i, j) == Times(w[i].1, s + Times(w[j - 1].1, Entry(m, w[i].0, w[j - 1].0)))
  {
    hide Entry;
    RowStep(w[i].1, w[j - 1].1, Entry(m, w[i].0, w[j - 1].0), s);
  }

  lemma {:induction false} RowSumIsDot(w: Weights, m: Matrix, i: nat, j: nat)
    requires i < |w| && j <= |w|
    ensures RowSum(w, m, i, j) == Times(w[i].1, Dot(Amounts(w)[..j], MatrixRow(w, m, w[i].0)[..j]))
  {
    if j > 0 {
      hide *;
      RowSumIsDot(w, m, i, j - 1);
      var ws, row := Amounts(w), MatrixRow(w, m, w[i].0);
      DotStep(ws, row, j, w[j - 1].1, Entry(m, w[i].0, w[j - 1].0));
      RowTerm(w, m, i, j, RowSum(w, m, i, j - 1), Dot(ws[..j - 1], row[..j - 1]));
    }
  }

  lemma FormStep(w: Weights, m: Matrix, i: nat)
    requires 0 < i <= |w|
    ensures QuadraticForm(w, m, i) == QuadraticForm(w, m, i - 1) + RowSum(w, m, i - 1, |w|)
    ensures QuadraticForm(w, m, 0) == 0.0 == Dot(Amounts(w)[..0], MatrixTimes(w, m)[..0])
  {
    hide RowSum;
  }

  /** The double loop computes the weights against the matrix applied to them. */
  lemma {:induction false} QuadraticFormIsDot(w: Weights, m: Matrix, i: nat)
    requires 0 < |w| && i <= |w|
    ensures QuadraticForm(w, m, i) == Dot(Amounts(w)[..i], MatrixTimes(w, m)[..i])
  {
    hide *;
    if i == 0 {
      FormStep(w, m, 1);
    } else {
      QuadraticFormIsDot(w, m, i - 1);
      FormStep(w, m, i);
      var ws, row := Amounts(w), MatrixRow(w, m, w[i - 1].0);
      RowSumIsDot(w, m, i - 1, |w|);
      assert ws[..|w|] == ws && row[..|w|] == row;
      DotStep(ws, MatrixTimes(w, m), i, w[i - 1].1, Dot(ws, row));
    }
  }

  /** Annual deviations read off the diagonal. */
  ghost predicate IsAnnual(w: Weights, m: Matrix, sigmas: seq<real>) {
    && |sigmas| == |w|
    && forall i :: 0 <= i < |w| && Entry(m, w[i].0, w[i].0) >= 0.0 ==>
         sigmas[i] >= 0.0 && sigmas[i] * sigmas[i] == Entry(m, w[i].0, w[i].0) * 252.0
  }

  lemma AnnualRoot(v: real, s: real, r: real)
    requires v >= 0.0 && s >= 0.0 && s * s == v && r >= 0.0 && r * r == 252.0
    ensures s * r >= 0.0 && (s * r) * (s * r) == v * 252.0
  {
    Arith.ProductSign(s, r);
    assert (s * r) * (s * r) == (s * s) * (r * r);
  }

  function AnnualSigmas(w: Weights, m: Matrix, sqrt: real -> real): (r: seq<real>)
    ensures |r| == |w|
    ensures forall i :: 0 <= i < |w| ==> r[i] == sqrt(Entry(m, w[i].0, w[i].0)) * sqrt(TRADING_DAYS_PER_YEAR)
  {
    seq(|w|, i requires 0 <= i < |w| => sqrt(Entry(m, w[i].0, w[i].0)) * sqrt(TRADING_DAYS_PER_YEAR))
  }

  lemma {:induction false} WeightedVolatilityIsDot(w: Weights, m: Matrix, sqrt: real -> real, k: nat)
    requires k <= |w|
    ensures WeightedVolatility(w, m, sqrt, k) == Dot(Amounts(w)[..k], AnnualSigmas(w, m, sqrt)[..k])
  {
    if k > 0 {
      hide Dot, Entry;
      WeightedVolatilityIsDot(w, m, sqrt, k - 1);
      DotStep(Amounts(w), AnnualSigmas(w, m, sqrt), k, w[k - 1].1, AnnualSigmas(w, m, sqrt)[k - 1]);
    }
  }

  lemma SigmasAreAnnual(w: Weights, m: Matrix, sqrt: real -> real)
    requires IsSqrt(sqrt)
    ensures IsAnnual(w, m, AnnualSigmas(w, m, sqrt))
  {
    hide Entry;
    var annual := AnnualSigmas(w, m, sqrt);
    forall i | 0 <= i < |w| && Entry(m, w[i].0, w[i].0) >= 0.0
      ensures annual[i] >= 0.0 && annual[i] * annual[i] == Entry(m, w[i].0, w[i].0) * 252.0
    {
      var v := Entry(m, w[i].0, w[i].0);
      AnnualRoot(v, sqrt(v), sqrt(TRADING_DAYS_PER_YEAR));
    }
  }

  /** The average is the weights against the holdings' annual deviations. */
  lemma AverageIsWeighted(w: Weights, m: Matrix, sqrt: real -> real) returns (annual: seq<real>)
    requires IsSqrt(sqrt)
    ensures IsAnnual(w, m, annual) && WeightedVolatility(w, m, sqrt, |w|) == Dot(Amounts(w), annual)
  {
    hide WeightedVolatility, IsAnnual, IsSqrt, Dot;
    annual := AnnualSigmas(w, m, sqrt);
    SigmasAreAnnual(w, m, sqrt);
    WeightedVolatilityIsDot(w, m, sqrt, |w|);
    assert Amounts(w)[..|w|] == Amounts(w) && annual[..|w|] == annual;
  }

  /** Volatility, weighted average and benefit of two or more holdings: the annual root of the double sum, or of zero
      where it is negative, the weighted annual deviations, and the share of the average that is saved. */
  ghost predicate Measures(w: Weights, m: Matrix, r: (real, real, real)) {
    var variance := Dot(Amounts(w), MatrixTimes(w, m));
    && r.0 >= 0.0 && r.0 * r.0 == (if variance < 0.0 then 0.0 else variance) * 252.0
    && (exists annual :: IsAnnual(w, m, annual) && r.1 == Dot(Amounts(w), annual))
    && (r.1 > 0.0 ==> r.2 * r.1 == r.1 - r.0)
    && (r.1 <= 0.0 ==> r.2 == 0.0)
  }

  lemma AnswerMeasures(w: Weights, m: Matrix, sqrt: real -> real)
    requires IsSqrt(sqrt) && |w| >= 2
    ensures Measures(w, m, (PortfolioVolatility(w, m, sqrt), WeightedVolatility(w, m, sqrt, |w|), Benefit(w, m, sqrt)))
  {
    hide WeightedVolatility, QuadraticForm, IsAnnual, Dot;
    var p, average := PortfolioVolatility(w, m, sqrt), WeightedVolatility(w, m, sqrt, |w|);
    QuadraticFormIsDot(w, m, |w|);
    assert Amounts(w)[..|w|] == Amounts(w) && MatrixTimes(w, m)[..|w|] == MatrixTimes(w, m);
    var annual := AverageIsWeighted(w, m, sqrt);
    if average > 0.0 {
      SavedShare(p, average);
    }
  }

  lemma SavedShare(p: real, average: real)
    requires average != 0.0
    ensures (1.0 - p / average) * average == average - p
  {
    Arith.QuotientTimes(p, average);
    Arith.Distribute(1.0, p / average, average);
  }

  function Sigmas(w: Weights, m: Matrix, sqrt: real -> real): (r: seq<real>)
    ensures |r| == |w| && forall i :: 0 <= i < |w| ==> r[i] == sqrt(Entry(m, w[i].0, w[i].0))
  {
    seq(|w|, i requires 0 <= i < |w| => sqrt(Entry(m, w[i].0, w[i].0)))
  }

  lemma {:induction false} WeightedVolatilityScales(w: Weights, m: Matrix, sqrt: real -> real, k: nat)
    requires k <= |w|
    ensures WeightedVolatility(w, m, sqrt, k)
         == SigmaSum(Amounts(w), Sigmas(w, m, sqrt), k) * sqrt(TRADING_DAYS_PER_YEAR)
  {
    if k > 0 {
      WeightedVolatilityScales(w, m, sqrt, k - 1);
      ScaleStep(SigmaSum(Amounts(w), Sigmas(w, m, sqrt), k - 1), w[k - 1].1, Sigmas(w, m, sqrt)[k - 1],
                sqrt(TRADING_DAYS_PER_YEAR));
    }
  }

  lemma ScaleStep(s: real, a: real, x: real, r: real)
    ensures (s + a * x) * r == s * r + a * (x * r)
  {
  }

  lemma PanelDeviations(w: Weights, m: Matrix, xs: seq<seq<real>>, n: nat, sqrt: real -> real)
    requires FromPanel(w, m, xs, n) && IsSqrt(sqrt)
    ensures Deviations(xs, Sigmas(w, m, sqrt), n)
  {
    hide Var, Cov;
    forall i | 0 <= i < |xs|
      ensures Sigmas(w, m, sqrt)[i] >= 0.0 && Sigmas(w, m, sqrt)[i] * Sigmas(w, m, sqrt)[i] == Var(xs[i])
    {
      VarNonNegative(xs[i]);
      VarIsSelfCov(xs[i]);
    }
  }

  /** A long-only portfolio on one panel is at most as volatile as its holdings on average. */
  lemma VolatilityBelowAverage(w: Weights, m: Matrix, xs: seq<seq<real>>, n: nat, sqrt: real -> real)
    requires FromPanel(w, m, xs, n) && IsSqrt(sqrt) && |w| >= 2
    requires forall i :: 0 <= i < |w| ==> w[i].1 >= 0.0
    ensures 0.0 <= PortfolioVolatility(w, m, sqrt) <= WeightedVolatility(w, m, sqrt, |w|)
  {
    hide Deviations, Var, Cov, Combine, QuadraticForm, SigmaSum, WeightedVolatility;
    var ws, sigmas := Amounts(w), Sigmas(w, m, sqrt);
    QuadraticFormIsVariance(w, m, xs, n);
    PanelDeviations(w, m, xs, n, sqrt);
    VarianceBelowAverage(ws, xs, sigmas, n, |ws|);
    assert ws[..|ws|] == ws && xs[..|xs|] == xs;
    WeightedVolatilityScales(w, m, sqrt, |w|);
    var v := QuadraticForm(w, m, |w|);
    AnnualOrder(v, SigmaSum(ws, sigmas, |w|), sqrt(TRADING_DAYS_PER_YEAR), sqrt(v * TRADING_DAYS_PER_YEAR),
                WeightedVolatility(w, m, sqrt, |w|));
  }

  /** For a long-only portfolio on one panel, diversification never hurts and never helps by more than everything. */
  lemma BenefitInUnitInterval(w: Weights, m: Matrix, xs: seq<seq<real>>, n: nat, sqrt: real -> real)
    requires FromPanel(w, m, xs, n) && IsSqrt(sqrt) && |w| >= 2
    requires forall i :: 0 <= i < |w| ==> w[i].1 >= 0.0
    ensures 0.0 <= Benefit(w, m, sqrt) <= 1.0
  {
    hide FromPanel, PortfolioVolatility, WeightedVolatility;
    VolatilityBelowAverage(w, m, xs, n, sqrt);
    var p, average := PortfolioVolatility(w, m, sqrt), WeightedVolatility(w, m, sqrt, |w|);
    if average > 0.0 {
      Arith.QuotientTimes(p, average);
      Arith.CancelOrder(0.0, p / average, average);
      Arith.CancelOrder(p / average, 1.0, average);
    }
  }

  lemma AnnualOrder(v: real, s: real, r: real, p: real, average: real)
    requires v >= 0.0 && s >= 0.0 && v <= s * s && r >= 0.0 && r * r == TRADING_DAYS_PER_YEAR
    requires p >= 0.0 && p * p == v * TRADING_DAYS_PER_YEAR && average == s * r
    ensures p <= average
  {
    Arith.ProductSign(s, r);
    Arith.MultiplyOrder(v, s * s, TRADING_DAYS_PER_YEAR);
    assert average * average == (s * s) * (r * r);
    SquareOrder(p, average, p * p, average * average);
  }

  /** The single-asset shortcut gives the general formula's answer exactly when the weight is one in size or nothing
      moves. */
  lemma SingleAssetShortcutIff(w: Weights, m: Matrix, sqrt: real -> real)
    requires |w| == 1 && IsSqrt(sqrt) && Entry(m, w[0].0, w[0].0) >= 0.0
    ensures var general := QuadraticForm(w, m, 1) * TRADING_DAYS_PER_YEAR;
            PortfolioVolatility(w, m, sqrt) * PortfolioVolatility(w, m, sqrt) == general
            <==> w[0].1 * w[0].1 == 1.0 || Entry(m, w[0].0, w[0].0) == 0.0
  {
    var a, v := w[0].1, Entry(m, w[0].0, w[0].0);
    assert RowSum(w, m, 0, 1) == RowSum(w, m, 0, 0) + a * a * v;
    assert QuadraticForm(w, m, 1) == QuadraticForm(w, m, 0) + RowSum(w, m, 0, 1);
    ShortcutArithmetic(a * a, v, sqrt(v), sqrt(TRADING_DAYS_PER_YEAR));
  }

  lemma ShortcutArithmetic(a2: real, v: real, s: real, r: real)
    requires v >= 0.0 && s * s == v && r * r == TRADING_DAYS_PER_YEAR
    ensures (s * r) * (s * r) == a2 * v * TRADING_DAYS_PER_YEAR <==> a2 == 1.0 || v == 0.0
  {
    assert (s * r) * (s * r) == v * TRADING_DAYS_PER_YEAR;
    if v > 0.0 && a2 * v * TRADING_DAYS_PER_YEAR == v * TRADING_DAYS_PER_YEAR {
      Arith.CancelEqual(a2, 1.0, v);
    }
  }
}
