/** Pairs aligned on different dates: when the refreshed matrix keeps every long-only variance non-negative, and when
    it does not. */
module RaggedPanel {
  import opened Wrappers
  import opened Series
  import opened Calendar
  import opened Covariance
  import opened CovarianceStorage
  import RiskMetrics
  import Arith

  type Prices = RiskMetrics.Dated
  type Closes = map<string, Prices>

  // ---------------------------------------------------------------- closes and the returns they give

  /** One close a date, in date order, all positive. */
  ghost predicate History(prices: Prices) {
    && (forall i, j :: 0 <= i < j < |prices| ==> prices[i].0 < prices[j].0)
    && (forall i :: 0 <= i < |prices| ==> prices[i].1 > 0.0)
  }

  function ReturnsOf(closes: Closes): AllReturns {
    map s | s in closes :: RiskMetrics.ToDict(RiskMetrics.DailyReturns(closes[s]))
  }

  /** A close that steps up by the fraction `a` on day `u`, back down by it on day `v`, and is flat otherwise. */
  function Level(d: int, u: int, v: int, a: real): real {
    if d < u then 1.0 else if d < v then 1.0 + a else (1.0 + a) * (1.0 - a)
  }

  function Step(d: int, u: int, v: int, a: real): real {
    if d == u then a else if d == v then -a else 0.0
  }

  function Path(days: seq<int>, u: int, v: int, a: real): (prices: Prices)
    ensures |prices| == |days|
  {
    seq(|days|, i requires 0 <= i < |days| => (days[i], Level(days[i], u, v, a)))
  }

  /** No step over the day `u` misses it. */
  ghost predicate Hits(days: seq<int>, u: int) {
    forall k :: 1 <= k < |days| && days[k - 1] < u <= days[k] ==> days[k] == u
  }

  lemma LevelChange(prev: int, d: int, u: int, v: int, a: real)
    requires -1.0 < a < 1.0 && u < v && prev < d
    requires a != 0.0 ==> (prev < u <= d ==> d == u) && (prev < v <= d ==> d == v)
    ensures Level(prev, u, v, a) > 0.0
    ensures (Level(d, u, v, a) - Level(prev, u, v, a)) / Level(prev, u, v, a) == Step(d, u, v, a)
  {
    Arith.ProductSign(1.0 + a, 1.0 - a);
    StepDown(a, 1.0 + a, (1.0 + a) * (1.0 - a));
  }

  lemma StepDown(a: real, high: real, low: real)
    requires high > 0.0 && low == high * (1.0 - a)
    ensures (low - high) / high == -a
  {
    Arith.QuotientTimes(low - high, high);
    assert -a * high == low - high;
    Arith.CancelEqual((low - high) / high, -a, high);
  }

  ghost predicate Stepped(r: Dated, u: int, v: int, a: real) {
    forall d :: d in r ==> r[d] == Step(d, u, v, a)
  }

  lemma DictLast(r: Prices, last: (int, real))
    ensures RiskMetrics.ToDict(r + [last]) == RiskMetrics.ToDict(r)[last.0 := last.1]
  {
    assert (r + [last])[..|r|] == r;
  }

  lemma PathLast(days: seq<int>, u: int, v: int, a: real)
    requires Ascending(days) && |days| > 1 && -1.0 < a < 1.0 && u < v && (a != 0.0 ==> Hits(days, u) && Hits(days, v))
    ensures var n := |days| - 1;
            RiskMetrics.ToDict(RiskMetrics.DailyReturns(Path(days, u, v, a)))
            == RiskMetrics.ToDict(RiskMetrics.DailyReturns(Path(days[..n], u, v, a)))[days[n] := Step(days[n], u, v, a)]
  {
    hide Level, Step, RiskMetrics.DailyReturns, RiskMetrics.ToDict;
    var n := |days| - 1;
    var prices := Path(days, u, v, a);
    assert prices[..n] == Path(days[..n], u, v, a);
    LevelChange(days[n - 1], days[n], u, v, a);
    RiskMetrics.DailyReturnsLast(prices);
    DictLast(RiskMetrics.DailyReturns(prices[..n]), (days[n], Step(days[n], u, v, a)));
  }

  /** What the returns of a stepping close are: one on every day but the first, up on `u`, down on `v`. */
  lemma {:induction false} PathReturns(days: seq<int>, u: int, v: int, a: real)
    requires Ascending(days) && |days| > 0 && -1.0 < a < 1.0 && u < v && (a != 0.0 ==> Hits(days, u) && Hits(days, v))
    ensures var r := RiskMetrics.ToDict(RiskMetrics.DailyReturns(Path(days, u, v, a)));
            && (forall d :: d in r <==> d in days[1..])
            && Stepped(r, u, v, a)
  {
    var n := |days| - 1;
    if n > 0 {
      PathReturns(days[..n], u, v, a);
      PathLast(days, u, v, a);
      DaysNext(days);
      hide Step, Path, RiskMetrics.DailyReturns, RiskMetrics.ToDict, Level;
    }
  }

  lemma DaysNext(days: seq<int>)
    requires |days| > 1
    ensures var n := |days| - 1; forall d :: d in days[1..] <==> d in days[..n][1..] || d == days[n]
  {
    var n := |days| - 1;
    assert days[1..] == days[..n][1..] + [days[n]];
  }

  lemma PathIsHistory(days: seq<int>, u: int, v: int, a: real)
    requires Ascending(days) && -1.0 < a < 1.0
    ensures History(Path(days, u, v, a))
  {
    forall i | 0 <= i < |days|
      ensures Level(days[i], u, v, a) > 0.0
    {
      Arith.ProductSign(1.0 + a, 1.0 - a);
    }
  }

  // ---------------------------------------------------------------- two steps in a series

  lemma {:induction false} NothingElse(x: seq<real>)
    requires forall k :: 0 <= k < |x| ==> x[k] == 0.0
    ensures Sum(x) == 0.0
  {
    if |x| > 0 {
      NothingElse(x[..|x| - 1]);
    }
  }

  lemma {:induction false} OneTerm(x: seq<real>, i: nat)
    requires i < |x| && forall k :: 0 <= k < |x| && k != i ==> x[k] == 0.0
    ensures Sum(x) == x[i]
  {
    var n := |x| - 1;
    if i == n {
      NothingElse(x[..n]);
    } else {
      OneTerm(x[..n], i);
    }
  }

  lemma {:induction false} TwoTerms(x: seq<real>, i: nat, j: nat)
    requires i < j < |x| && forall k :: 0 <= k < |x| && k != i && k != j ==> x[k] == 0.0
    ensures Sum(x) == x[i] + x[j]
  {
    var n := |x| - 1;
    if j == n {
      OneTerm(x[..n], i);
    } else {
      TwoTerms(x[..n], i, j);
    }
  }

  function Products(x: seq<real>, y: seq<real>): (z: seq<real>)
    requires |x| == |y|
    ensures |z| == |x| && forall k :: 0 <= k < |z| ==> z[k] == x[k] * y[k]
  {
    seq(|x|, k requires 0 <= k < |x| => x[k] * y[k])
  }

  lemma {:induction false} DotIsSum(x: seq<real>, y: seq<real>)
    requires |x| == |y|
    ensures Dot(x, y) == Sum(Products(x, y))
  {
    if |x| > 0 {
      var n := |x| - 1;
      DotIsSum(x[..n], y[..n]);
      var p, q := Products(x, y)[..n], Products(x[..n], y[..n]);
      assert p == q by {
        forall k | 0 <= k < n
          ensures p[k] == q[k]
        {
          assert x[..n][k] == x[k] && y[..n][k] == y[k];
        }
      }
    }
  }

  /** Two series that step up and down at the same two places co-vary by twice the product of their steps. */
  lemma SteppedCov(x: seq<real>, y: seq<real>, i: nat, j: nat, a: real, b: real)
    requires |x| == |y| && i < j < |x| && x[i] == a && x[j] == -a && y[i] == b && y[j] == -b
    requires forall k :: 0 <= k < |x| && k != i && k != j ==> x[k] == 0.0 && y[k] == 0.0
    ensures Over(Cov(x, y), |x|) == 2.0 * (a * b)
  {
    hide Cov, Mean, Sum, Dot;
    TwoTerms(x, i, j);
    TwoTerms(y, i, j);
    DotIsSum(x, y);
    TwoTerms(Products(x, y), i, j);
    MeanTimes(x);
    Arith.CancelEqual(Mean(x), 0.0, |x| as real);
    CovExpanded(x, y);
    assert Products(x, y)[i] == a * b && Products(x, y)[j] == a * b;
  }

  lemma AlignListed(r: Dated, s: Dated, dates: seq<int>)
    requires SortDates(r.Keys * s.Keys) == dates
    ensures forall j :: 0 <= j < |dates| ==> dates[j] in r && dates[j] in s
    ensures AlignReturns(r, s) == (Pick(r, dates), Pick(s, dates))
  {
    hide SortDates;
    assert forall j :: 0 <= j < |dates| ==> dates[j] in dates;
  }

  lemma SteppedPick(r: Dated, dates: seq<int>, u: int, v: int, a: real, i: nat, j: nat)
    requires Stepped(r, u, v, a) && u < v && Ascending(dates) && forall k :: 0 <= k < |dates| ==> dates[k] in r
    requires i < |dates| && dates[i] == u && j < |dates| && dates[j] == v
    ensures i < j && Pick(r, dates)[i] == a && Pick(r, dates)[j] == -a
    ensures forall k :: 0 <= k < |dates| && k != i && k != j ==> Pick(r, dates)[k] == 0.0
  {
  }

  lemma CovarianceIsCov(x: seq<real>, y: seq<real>, sqrt: real -> real)
    requires |x| == |y| >= 2
    ensures PairwiseCovariance(x, y, sqrt).0 == Cov(x, y)
  {
    hide Cov, Var;
  }

  /** The covariance of two symbols on the days they share. */
  function PairCov(r: Dated, s: Dated, sqrt: real -> real): real {
    var (x, y) := AlignReturns(r, s);
    PairwiseCovariance(x, y, sqrt).0
  }

  lemma PairCovIs(r: Dated, s: Dated, dates: seq<int>, sqrt: real -> real)
    requires SortDates(r.Keys * s.Keys) == dates && |dates| >= 2
    ensures forall j :: 0 <= j < |dates| ==> dates[j] in r && dates[j] in s
    ensures PairCov(r, s, sqrt) == Cov(Pick(r, dates), Pick(s, dates)) && |dates| == |r.Keys * s.Keys|
  {
    hide Cov, PairwiseCovariance, AlignReturns, SortDates;
    AlignListed(r, s, dates);
    CovarianceIsCov(Pick(r, dates), Pick(s, dates), sqrt);
  }

  ghost function PlaceOf(dates: seq<int>, d: int): (i: nat)
    requires d in dates
    ensures i < |dates| && dates[i] == d
  {
    var i :| 0 <= i < |dates| && dates[i] == d;
    i
  }

  lemma SteppedPair(r: Dated, s: Dated, u: int, v: int, a: real, b: real, sqrt: real -> real)
    requires u < v && u in r.Keys * s.Keys && v in r.Keys * s.Keys && Stepped(r, u, v, a) && Stepped(s, u, v, b)
    ensures Over(PairCov(r, s, sqrt), |r.Keys * s.Keys|) == 2.0 * (a * b)
  {
    hide *;
    var dates := SortDates(r.Keys * s.Keys);
    var i, j := PlaceOf(dates, u), PlaceOf(dates, v);
    PairCovIs(r, s, dates, sqrt);
    SteppedPick(r, dates, u, v, a, i, j);
    SteppedPick(s, dates, u, v, b, i, j);
    SteppedCov(Pick(r, dates), Pick(s, dates), i, j, a, b);
  }

  // ---------------------------------------------------------------- a portfolio of two

  function Term(w: Weights, m: Matrix, i: nat, j: nat): real
    requires i < |w| && j < |w|
  {
    w[i].1 * w[j].1 * Entry(m, w[i].0, w[j].0)
  }

  lemma RowSumStep(w: Weights, m: Matrix, i: nat, j: nat)
    requires i < |w| && j < |w|
    ensures RowSum(w, m, i, j + 1) == RowSum(w, m, i, j) + Term(w, m, i, j)
    ensures w[i].1 == 0.0 || w[j].1 == 0.0 ==> Term(w, m, i, j) == 0.0
    ensures w[i].1 == 0.5 && w[j].1 == 0.5 ==> 4.0 * Term(w, m, i, j) == Entry(m, w[i].0, w[j].0)
  {
    var e := Entry(m, w[i].0, w[j].0);
    assert 0.5 * 0.5 * e == 0.25 * e;
  }

  lemma {:induction false} RowOfTwo(w: Weights, m: Matrix, i: nat, p: nat, q: nat, j: nat)
    requires i < |w| && p < q < |w| && j <= |w| && forall k :: 0 <= k < |w| && k != p && k != q ==> w[k].1 == 0.0
    ensures RowSum(w, m, i, j) == (if p < j then Term(w, m, i, p) else 0.0) + (if q < j then Term(w, m, i, q) else 0.0)
  {
    if j > 0 {
      RowOfTwo(w, m, i, p, q, j - 1);
      RowSumStep(w, m, i, j - 1);
      hide RowSum, Term;
    } else {
      assert RowSum(w, m, i, 0) == 0.0;
    }
  }

  /** With two halves and nothing else, the double sum is a quarter of four entries. */
  lemma {:induction false} FormOfTwo(w: Weights, m: Matrix, p: nat, q: nat, i: nat)
    requires p < q < |w| && i <= |w| && (forall k :: 0 <= k < |w| && k != p && k != q ==> w[k].1 == 0.0)
    requires w[p].1 == 0.5 && w[q].1 == 0.5
    ensures 4.0 * QuadraticForm(w, m, i)
         == (if p < i then Entry(m, w[p].0, w[p].0) + Entry(m, w[p].0, w[q].0) else 0.0)
          + (if q < i then Entry(m, w[q].0, w[p].0) + Entry(m, w[q].0, w[q].0) else 0.0)
  {
    hide Entry, RowSum, Term;
    if i > 0 {
      FormOfTwo(w, m, p, q, i - 1);
      RowOfTwo(w, m, i - 1, p, q, |w|);
      RowSumStep(w, m, i - 1, p);
      RowSumStep(w, m, i - 1, q);
    }
  }

  /** What a mean over `n` days sums to. */
  function Over(e: real, n: nat): real {
    e * n as real
  }

  /** Means over more days than the shared ones cannot make up for the shared covariance. */
  lemma NegativeSum(t: real, pp: real, qq: real, pq: real, np: nat, nq: nat, n: nat)
    requires t > 0.0 && 0 < n <= np && n <= nq && (n < np || n < nq)
    requires Over(pp, np) == t && Over(qq, nq) == t && Over(pq, n) == -t
    ensures pp + qq + 2.0 * pq < 0.0
  {
    ShareBound(t, pp, np, n);
    ShareBound(t, qq, nq, n);
    assert (pp + pq) * n as real <= 0.0 && (qq + pq) * n as real <= 0.0;
    assert (pp + qq + 2.0 * pq) * n as real < 0.0;
    Arith.CancelStrict(pp + qq + 2.0 * pq, 0.0, n as real);
  }

  lemma ShareBound(t: real, e: real, np: nat, n: nat)
    requires t > 0.0 && 0 < n <= np && e * np as real == t
    ensures e * n as real <= t && (n < np ==> e * n as real < t)
  {
    Arith.CancelStrict(0.0, e, np as real);
    Arith.MultiplyOrder(n as real, np as real, e);
  }

  // ---------------------------------------------------------------- the exact condition

  /** Positive closes for exactly these symbols, whose returns fall on exactly these days. */
  ghost predicate Priced(closes: Closes, symbols: Symbols, days: map<string, set<int>>) {
    && (forall s :: s in closes ==> s in symbols)
    && (forall s :: s in symbols ==>
         s in closes && s in days && History(closes[s]) && ReturnsOf(closes)[s].Keys == days[s])
  }

  /** Weights that are not negative and add up to one. */
  ghost predicate FullyInvested(w: Weights, symbols: Symbols) {
    Names(w) == symbols && (forall i :: 0 <= i < |w| ==> w[i].1 >= 0.0) && Sum(Amounts(w)) == 1.0
  }

  /** Every pair of symbols shares enough days for a covariance. */
  ghost predicate Overlapping(symbols: Symbols, days: map<string, set<int>>) {
    forall a, b :: a in symbols && b in symbols ==> a in days && b in days && |days[a] * days[b]| >= MIN_OBSERVATIONS
  }

  /** The matrix read back after a refresh. */
  ghost function AfterRefresh(f: Refresh, t: Table, symbols: Symbols, cutoff: int): Option<Matrix> {
    MatrixOf(t + RowsFor(f, AllPairs(f, symbols)), symbols, cutoff)
  }

  /** The matrix read back after a refresh gives this portfolio a variance that is not negative. */
  ghost predicate VarianceHolds(f: Refresh, t: Table, w: Weights, cutoff: int) {
    var m := AfterRefresh(f, t, Names(w), cutoff);
    m.Some? && QuadraticForm(w, m.value, |w|) >= 0.0
  }

  lemma RefreshedEntries(f: Refresh, t: Table, symbols: Symbols, cutoff: int)
    requires |symbols| >= 2 && Distinct(symbols) && f.now >= cutoff
    requires forall a, b :: a in symbols && b in symbols ==> Enough(f, a, b)
    ensures var m := AfterRefresh(f, t, symbols, cutoff);
            && m.Some?
            && forall a, b :: a in symbols && b in symbols ==> Entry(m.value, a, b) == RowOf(f, a, b).covariance
  {
    hide Enough, RowOf, Distinct;
    var after := t + RowsFor(f, AllPairs(f, symbols));
    forall a, b | a in symbols && b in symbols
      ensures (a, b) in after && after[(a, b)] == RowOf(f, a, b) && after[(a, b)].calculatedAt >= cutoff
    {
      RowTime(f, a, b);
      assert (a, b) in AllPairs(f, symbols);
    }
    assert AllFresh(after, symbols, cutoff);
    MatrixAvailableIff(after, symbols, cutoff);
    var m := MatrixOf(after, symbols, cutoff).value;
    forall a, b | a in symbols && b in symbols
      ensures Entry(m, a, b) == RowOf(f, a, b).covariance
    {
      assert (a, b) in m;
    }
  }

  /** One day before the first return there must be a close. */
  function WithBase(dates: set<int>): (days: seq<int>)
    requires dates != {}
    ensures |days| == |dates| + 1 && Ascending(days)
    ensures forall d :: d in days[1..] <==> d in dates
  {
    var sorted := SortDates(dates);
    assert |sorted| > 0;
    assert ([sorted[0] - 1] + sorted)[1..] == sorted;
    [sorted[0] - 1] + sorted
  }

  lemma MembersAreHit(days: seq<int>, u: int)
    requires |days| > 0 && Ascending(days) && u in days[1..]
    ensures Hits(days, u)
  {
    var i :| 0 <= i < |days| - 1 && days[1..][i] == u;
    assert days[i + 1] == u;
  }

  lemma SameKeys(r: Dated, days: seq<int>, dates: set<int>)
    requires |days| > 0 && (forall d :: d in r <==> d in days[1..]) && (forall d :: d in days[1..] <==> d in dates)
    ensures r.Keys == dates
  {
    forall d
      ensures d in r.Keys <==> d in dates
    {
      assert d in r <==> d in days[1..];
    }
  }

  lemma PathOnDates(dates: set<int>, u: int, v: int, a: real)
    requires dates != {} && -1.0 < a < 1.0 && u < v && (a != 0.0 ==> u in dates && v in dates)
    ensures History(Path(WithBase(dates), u, v, a))
    ensures var r := RiskMetrics.ToDict(RiskMetrics.DailyReturns(Path(WithBase(dates), u, v, a)));
            r.Keys == dates && Stepped(r, u, v, a)
  {
    hide WithBase, Hits, Path, History, Stepped, RiskMetrics.DailyReturns, RiskMetrics.ToDict;
    var days := WithBase(dates);
    if a != 0.0 {
      MembersAreHit(days, u);
      MembersAreHit(days, v);
    }
    PathReturns(days, u, v, a);
    PathIsHistory(days, u, v, a);
    SameKeys(RiskMetrics.ToDict(RiskMetrics.DailyReturns(Path(days, u, v, a))), days, dates);
  }

  function Amplitude(s: string, up: string, other: string, y: real): real {
    if s == up then 0.01 else if s == other then y else 0.0
  }

  /** One symbol steps up and back, another by `y` and back, on the same two days; the rest never move. */
  function Stepping(symbols: Symbols, days: map<string, set<int>>, up: string, other: string, y: real, u: int,
                    v: int): Closes
    requires forall s :: s in symbols ==> s in days && days[s] != {}
  {
    map s | s in symbols :: Path(WithBase(days[s]), u, v, Amplitude(s, up, other, y))
  }

  lemma SteppingIsPriced(symbols: Symbols, days: map<string, set<int>>, up: string, other: string, y: real, u: int,
                         v: int)
    requires forall s :: s in symbols ==> s in days && days[s] != {}
    requires up in symbols && other in symbols && up != other && u < v && -1.0 < y < 1.0
    requires u in days[up] * days[other] && v in days[up] * days[other]
    ensures Priced(Stepping(symbols, days, up, other, y, u, v), symbols, days)
    ensures var r := ReturnsOf(Stepping(symbols, days, up, other, y, u, v));
            Stepped(r[up], u, v, 0.01) && Stepped(r[other], u, v, y)
  {
    hide WithBase, Path, History, Stepped, RiskMetrics.DailyReturns, RiskMetrics.ToDict;
    forall s | s in symbols
      ensures History(Path(WithBase(days[s]), u, v, Amplitude(s, up, other, y)))
      ensures var r := RiskMetrics.ToDict(RiskMetrics.DailyReturns(Path(WithBase(days[s]), u, v,
                                    Amplitude(s, up, other, y))));
              r.Keys == days[s] && Stepped(r, u, v, Amplitude(s, up, other, y))
    {
      PathOnDates(days[s], u, v, Amplitude(s, up, other, y));
    }
  }

  function Halves(symbols: Symbols, p: nat, q: nat): (w: Weights)
    ensures |w| == |symbols| && forall i :: 0 <= i < |w| ==> w[i] == (symbols[i], if i == p || i == q then 0.5 else 0.0)
  {
    seq(|symbols|, i requires 0 <= i < |symbols| => (symbols[i], if i == p || i == q then 0.5 else 0.0))
  }

  lemma HalvesAreInvested(symbols: Symbols, p: nat, q: nat)
    requires p < q < |symbols|
    ensures FullyInvested(Halves(symbols, p, q), symbols)
  {
    var w := Halves(symbols, p, q);
    TwoTerms(Amounts(w), p, q);
    assert Names(w) == symbols;
  }

  lemma SteppedRow(f: Refresh, a: string, b: string, u: int, v: int, x: real, y: real)
    requires Enough(f, a, b) && u < v && Stepped(f.series[a], u, v, x) && Stepped(f.series[b], u, v, y)
    requires u in f.series[a].Keys * f.series[b].Keys && v in f.series[a].Keys * f.series[b].Keys
    ensures RowOf(f, a, b).covariance * |f.series[a].Keys * f.series[b].Keys| as real == 2.0 * (x * y)
  {
    hide PairwiseCovariance, AlignReturns, Volatility, Stepped;
    SteppedPair(f.series[a], f.series[b], u, v, x, y, f.sqrt);
  }

  /** Two symbols that step on the same two days, the second with the first or against it. */
  ghost predicate SteppingPair(f: Refresh, a: string, b: string, y: real, u: int, v: int) {
    && u < v && (y == 0.01 || y == -0.01)
    && Enough(f, a, a) && Enough(f, a, b) && Enough(f, b, a) && Enough(f, b, b)
    && u in f.series[a].Keys * f.series[b].Keys && v in f.series[a].Keys * f.series[b].Keys
    && Stepped(f.series[a], u, v, 0.01) && Stepped(f.series[b], u, v, y)
  }

  lemma SteppingRows(f: Refresh, a: string, b: string, y: real, u: int, v: int)
    requires SteppingPair(f, a, b, y, u, v)
    ensures Over(RowOf(f, a, a).covariance, |f.series[a].Keys|) == 0.0002
    ensures Over(RowOf(f, b, b).covariance, |f.series[b].Keys|) == 0.0002
    ensures Over(RowOf(f, a, b).covariance, |f.series[a].Keys * f.series[b].Keys|) == if y > 0.0 then 0.0002
            else -0.0002
    ensures RowOf(f, b, a).covariance == RowOf(f, a, b).covariance
    ensures |f.series[a].Keys * f.series[b].Keys| > 0
  {
    hide RowOf, Stepped;
    var da, db := f.series[a].Keys, f.series[b].Keys;
    assert da * da == da && db * db == db && da * db == db * da;
    SteppedRow(f, a, a, u, v, 0.01, 0.01);
    SteppedRow(f, b, b, u, v, y, y);
    SteppedRow(f, a, b, u, v, 0.01, y);
    SteppedRow(f, b, a, u, v, y, 0.01);
    Arith.CancelEqual(RowOf(f, a, b).covariance, RowOf(f, b, a).covariance, |da * db| as real);
  }

  lemma SteppingIsEnough(f: Refresh, a: string, b: string, y: real, u: int, v: int)
    requires SteppingPair(f, a, b, y, u, v)
    ensures Enough(f, a, a) && Enough(f, a, b) && Enough(f, b, a) && Enough(f, b, b)
    ensures a in f.series && b in f.series
  {
  }

  lemma OpposedSum(f: Refresh, a: string, b: string, u: int, v: int)
    requires SteppingPair(f, a, b, -0.01, u, v) && f.series[a].Keys != f.series[b].Keys
    ensures RowOf(f, a, a).covariance + RowOf(f, b, b).covariance + 2.0 * RowOf(f, a, b).covariance < 0.0
  {
    hide Enough, SteppingPair, RowOf, Over;
    SteppingIsEnough(f, a, b, -0.01, u, v);
    SteppingRows(f, a, b, -0.01, u, v);
    SmallerShare(f.series[a].Keys, f.series[b].Keys);
    NegativeSum(0.0002, RowOf(f, a, a).covariance, RowOf(f, b, b).covariance, RowOf(f, a, b).covariance,
                |f.series[a].Keys|, |f.series[b].Keys|, |f.series[a].Keys * f.series[b].Keys|);
  }

  /** Half in each of two symbols, and a matrix that holds their refreshed rows. */
  ghost predicate Halved(f: Refresh, w: Weights, m: Matrix, p: nat, q: nat, a: string, b: string) {
    && p < q < |w| && w[p] == (a, 0.5) && w[q] == (b, 0.5)
    && (forall k :: 0 <= k < |w| && k != p && k != q ==> w[k].1 == 0.0)
    && Enough(f, a, a) && Enough(f, a, b) && Enough(f, b, a) && Enough(f, b, b)
    && Entry(m, a, a) == RowOf(f, a, a).covariance && Entry(m, b, b) == RowOf(f, b, b).covariance
    && Entry(m, a, b) == RowOf(f, a, b).covariance && Entry(m, b, a) == RowOf(f, b, a).covariance
  }

  lemma HalvedForm(f: Refresh, w: Weights, m: Matrix, p: nat, q: nat, a: string, b: string, y: real, u: int, v: int)
    requires Halved(f, w, m, p, q, a, b) && SteppingPair(f, a, b, y, u, v)
    ensures 4.0 * QuadraticForm(w, m, |w|) == Entry(m, a, a) + Entry(m, b, b) + 2.0 * Entry(m, a, b)
  {
    hide RowOf, QuadraticForm, Entry, Enough, SteppingPair;
    SteppingRows(f, a, b, y, u, v);
    FormOfTwo(w, m, p, q, |w|);
  }

  /** Two symbols that step against each other, on different sets of days, make a negative variance. */
  lemma OpposedIsNegative(f: Refresh, w: Weights, m: Matrix, p: nat, q: nat, a: string, b: string, u: int, v: int)
    requires Halved(f, w, m, p, q, a, b) && SteppingPair(f, a, b, -0.01, u, v) && f.series[a].Keys != f.series[b].Keys
    ensures QuadraticForm(w, m, |w|) < 0.0
  {
    HalvedForm(f, w, m, p, q, a, b, -0.01, u, v);
    hide RowOf, QuadraticForm, Entry, Enough, SteppingPair;
    OpposedSum(f, a, b, u, v);
  }

  lemma SmallerShare(a: set<int>, b: set<int>)
    ensures |a * b| <= |a| && |a * b| <= |b|
    ensures a != b ==> |a * b| < |a| || |a * b| < |b|
  {
    SubsetCount(a * b, a);
    SubsetCount(a * b, b);
  }

  lemma PricedIsEnough(f: Refresh, closes: Closes, symbols: Symbols, days: map<string, set<int>>)
    requires Priced(closes, symbols, days) && Overlapping(symbols, days) && f.series == ReturnsOf(closes)
    ensures forall a, b :: a in symbols && b in symbols ==> Enough(f, a, b)
    ensures forall s :: s in symbols ==> f.series[s].Keys == days[s]
  {
    hide History, RiskMetrics.DailyReturns, RiskMetrics.ToDict;
    forall a, b | a in symbols && b in symbols
      ensures Enough(f, a, b)
    {
      assert f.series[a].Keys * f.series[b].Keys == days[a] * days[b];
    }
  }

  /** Closes that step on two days which both symbols share. */
  lemma SteppingCloses(symbols: Symbols, days: map<string, set<int>>, up: string, other: string, y: real)
    returns (closes: Closes, u: int, v: int)
    requires Overlapping(symbols, days) && up in symbols && other in symbols && up != other && (y == 0.01 || y == -0.01)
    ensures Priced(closes, symbols, days) && up in closes && other in closes && up in days && other in days
    ensures u < v && u in days[up] * days[other] && v in days[up] * days[other]
    ensures var r := ReturnsOf(closes); Stepped(r[up], u, v, 0.01) && Stepped(r[other], u, v, y)
  {
    hide Stepped, Stepping, ReturnsOf, History;
    var shared := SortDates(days[up] * days[other]);
    u, v := shared[0], shared[1];
    assert u in shared && v in shared;
    forall s | s in symbols
      ensures s in days && days[s] != {}
    {
      assert |days[s] * days[s]| >= MIN_OBSERVATIONS;
    }
    closes := Stepping(symbols, days, up, other, y, u, v);
    SteppingIsPriced(symbols, days, up, other, y, u, v);
  }

  lemma HalvesAreHalved(f: Refresh, t: Table, symbols: Symbols, cutoff: int, p: nat, q: nat)
    requires Distinct(symbols) && f.now >= cutoff && p < q < |symbols|
    requires forall a, b :: a in symbols && b in symbols ==> Enough(f, a, b)
    ensures var m := AfterRefresh(f, t, symbols, cutoff);
            m.Some? && Halved(f, Halves(symbols, p, q), m.value, p, q, symbols[p], symbols[q])
  {
    hide Enough, RowOf, Entry, AfterRefresh, Distinct;
    assert symbols[p] in symbols && symbols[q] in symbols;
    RefreshedEntries(f, t, symbols, cutoff);
  }

  /** Closes that step on two shared days, and the half-and-half portfolio of the two symbols that step. */
  lemma SteppingWitness(symbols: Symbols, days: map<string, set<int>>, t: Table, f0: Refresh, cutoff: int, p: nat,
                        q: nat, y: real)
    returns (closes: Closes, w: Weights, u: int, v: int)
    requires Distinct(symbols) && Overlapping(symbols, days) && f0.now >= cutoff && p < q < |symbols|
             && (y == 0.01 || y == -0.01)
    requires symbols[p] in days && symbols[q] in days && days[symbols[p]] != days[symbols[q]]
    ensures Priced(closes, symbols, days) && FullyInvested(w, symbols) && Names(w) == symbols
    ensures var f := f0.(series := ReturnsOf(closes));
            var m := AfterRefresh(f, t, symbols, cutoff);
            && SteppingPair(f, symbols[p], symbols[q], y, u, v)
            && symbols[p] in f.series && symbols[q] in f.series
               && f.series[symbols[p]].Keys != f.series[symbols[q]].Keys
            && m.Some? && Halved(f, w, m.value, p, q, symbols[p], symbols[q])
  {
    hide Priced, FullyInvested, Stepped, Enough, ReturnsOf, AfterRefresh, Halved, Distinct;
    var up, other := symbols[p], symbols[q];
    DistinctAt(symbols, p, q);
    assert up in symbols && other in symbols;
    closes, u, v := SteppingCloses(symbols, days, up, other, y);
    w := Halves(symbols, p, q);
    HalvesAreInvested(symbols, p, q);
    assert Names(w) == symbols;
    var f := f0.(series := ReturnsOf(closes));
    PricedIsEnough(f, closes, symbols, days);
    SeriesCover(f, symbols);
    HalvesAreHalved(f, t, symbols, cutoff, p, q);
  }

  lemma DistinctAt(symbols: Symbols, p: nat, q: nat)
    requires Distinct(symbols) && p < q < |symbols|
    ensures symbols[p] != symbols[q]
  {
  }

  lemma DifferentDaysFail(symbols: Symbols, days: map<string, set<int>>, t: Table, f0: Refresh, cutoff: int, p: nat,
                          q: nat)
    requires Distinct(symbols) && Overlapping(symbols, days) && f0.now >= cutoff && p < q < |symbols|
    requires symbols[p] in days && symbols[q] in days && days[symbols[p]] != days[symbols[q]]
    ensures exists closes, w :: Priced(closes, symbols, days) && FullyInvested(w, symbols)
                                && !VarianceHolds(f0.(series := ReturnsOf(closes)), t, w, cutoff)
  {
    hide Priced, FullyInvested, SteppingPair, Halved, Overlapping, ReturnsOf, AfterRefresh, QuadraticForm, Distinct;
    var closes, w, u, v := SteppingWitness(symbols, days, t, f0, cutoff, p, q, -0.01);
    var f := f0.(series := ReturnsOf(closes));
    OpposedIsNegative(f, w, AfterRefresh(f, t, symbols, cutoff).value, p, q, symbols[p], symbols[q], u, v);
    assert !VarianceHolds(f, t, w, cutoff);
  }

  lemma SeriesCover(f: Refresh, symbols: Symbols)
    requires forall a, b :: a in symbols && b in symbols ==> Enough(f, a, b)
    ensures forall s :: s in symbols ==> s in f.series
  {
    forall s | s in symbols
      ensures s in f.series
    {
      assert Enough(f, s, s);
    }
  }

  /** Aligning pair by pair keeps every fully invested long-only variance non-negative, whatever the closes, exactly
      when all symbols have their returns on the same days. */
  lemma PairwiseDatesSafeIff(symbols: Symbols, days: map<string, set<int>>, t: Table, f0: Refresh, cutoff: int)
    requires |symbols| >= 2 && Distinct(symbols) && Overlapping(symbols, days) && f0.now >= cutoff
    ensures (forall closes, w :: Priced(closes, symbols, days) && FullyInvested(w, symbols) ==>
               VarianceHolds(f0.(series := ReturnsOf(closes)), t, w, cutoff))
       <==> (forall a, b :: a in symbols && b in symbols ==> days[a] == days[b])
  {
    hide Priced, FullyInvested, VarianceHolds, Distinct, ReturnsOf;
    if forall a, b :: a in symbols && b in symbols ==> days[a] == days[b] {
      forall closes, w | Priced(closes, symbols, days) && FullyInvested(w, symbols)
        ensures VarianceHolds(f0.(series := ReturnsOf(closes)), t, w, cutoff)
      {
        SameDaysHold(symbols, days, t, f0.(series := ReturnsOf(closes)), closes, w, cutoff);
      }
    } else {
      var a, b :| a in symbols && b in symbols && days[a] != days[b];
      var i :| 0 <= i < |symbols| && symbols[i] == a;
      var j :| 0 <= j < |symbols| && symbols[j] == b;
      if i < j {
        DifferentDaysFail(symbols, days, t, f0, cutoff, i, j);
      } else {
        DifferentDaysFail(symbols, days, t, f0, cutoff, j, i);
      }
    }
  }

  lemma SameDaysHold(symbols: Symbols, days: map<string, set<int>>, t: Table, f: Refresh, closes: Closes, w: Weights,
                     cutoff: int)
    requires |symbols| >= 2 && Distinct(symbols) && Overlapping(symbols, days) && f.now >= cutoff
    requires forall a, b :: a in symbols && b in symbols ==> a in days && b in days && days[a] == days[b]
    requires f.series == ReturnsOf(closes) && Priced(closes, symbols, days) && FullyInvested(w, symbols)
    ensures VarianceHolds(f, t, w, cutoff)
  {
    hide Priced, Distinct, ReturnsOf, QuadraticForm, MatrixOf, RowsFor, AllPairs;
    assert symbols[0] in symbols;
    var dates := days[symbols[0]];
    assert dates * dates == dates;
    PricedIsEnough(f, closes, symbols, days);
    SeriesCover(f, symbols);
    assert OnePanel(f, Names(w), dates);
    RefreshedMatrixIsPanel(f, t, w, dates, cutoff);
    var m := MatrixOf(t + RowsFor(f, AllPairs(f, Names(w))), Names(w), cutoff).value;
    QuadraticFormIsNonNegative(w, m, SeriesOf(f, w, dates), |dates|);
  }

  // ---------------------------------------------------------------- the diversification benefit

  function VolTerm(w: Weights, m: Matrix, sqrt: real -> real, k: nat): real
    requires k < |w|
  {
    w[k].1 * (sqrt(Entry(m, w[k].0, w[k].0)) * sqrt(TRADING_DAYS_PER_YEAR))
  }

  lemma VolStep(w: Weights, m: Matrix, sqrt: real -> real, k: nat)
    requires k < |w|
    ensures WeightedVolatility(w, m, sqrt, k + 1) == WeightedVolatility(w, m, sqrt, k) + VolTerm(w, m, sqrt, k)
    ensures w[k].1 == 0.0 ==> VolTerm(w, m, sqrt, k) == 0.0
    ensures w[k].1 == 0.5 ==>
              2.0 * VolTerm(w, m, sqrt, k) == sqrt(Entry(m, w[k].0, w[k].0)) * sqrt(TRADING_DAYS_PER_YEAR)
  {
  }

  lemma {:induction false} VolOfTwo(w: Weights, m: Matrix, sqrt: real -> real, p: nat, q: nat, k: nat)
    requires p < q < |w| && k <= |w| && forall x :: 0 <= x < |w| && x != p && x != q ==> w[x].1 == 0.0
    ensures WeightedVolatility(w, m, sqrt, k)
         == (if p < k then VolTerm(w, m, sqrt, p) else 0.0) + (if q < k then VolTerm(w, m, sqrt, q) else 0.0)
  {
    if k > 0 {
      VolOfTwo(w, m, sqrt, p, q, k - 1);
      VolStep(w, m, sqrt, k - 1);
      hide WeightedVolatility, VolTerm;
    }
  }

  lemma HalvedAverage(f: Refresh, w: Weights, m: Matrix, p: nat, q: nat, a: string, b: string)
    requires Halved(f, w, m, p, q, a, b)
    ensures 2.0 * WeightedVolatility(w, m, f.sqrt, |w|)
         == Scaled(f.sqrt(Entry(m, a, a)), f.sqrt(Entry(m, b, b)), f.sqrt(TRADING_DAYS_PER_YEAR))
  {
    hide WeightedVolatility, VolTerm, Entry, RowOf, Enough;
    VolOfTwo(w, m, f.sqrt, p, q, |w|);
    VolStep(w, m, f.sqrt, p);
    VolStep(w, m, f.sqrt, q);
  }

  /** Means over more days than the shared ones are smaller than the shared covariance of equal steps. */
  lemma SmallerMeans(t: real, pp: real, qq: real, pq: real, np: nat, nq: nat, n: nat)
    requires t > 0.0 && 0 < n <= np && n <= nq && (n < np || n < nq)
    requires Over(pp, np) == t && Over(qq, nq) == t && Over(pq, n) == t
    ensures Excessive(pp, qq, pq)
  {
    ShareBound(t, pp, np, n);
    ShareBound(t, qq, nq, n);
    Arith.CancelStrict(0.0, pp, np as real);
    Arith.CancelStrict(0.0, qq, nq as real);
    Arith.CancelOrder(pp, pq, n as real);
    Arith.CancelOrder(qq, pq, n as real);
    if n < np {
      Arith.CancelStrict(pp, pq, n as real);
    } else {
      Arith.CancelStrict(qq, pq, n as real);
    }
    StrictProduct(pp, qq, pq, pq);
  }

  lemma StrictProduct(x: real, y: real, z: real, z': real)
    requires 0.0 < x <= z && 0.0 < y <= z' && (x < z || y < z')
    ensures x * y < z * z'
  {
    Arith.MultiplyOrder(x, z, y);
    Arith.MultiplyOrder(y, z', z);
  }

  predicate IsRoot(s: real, x: real) {
    s >= 0.0 && s * s == x
  }

  /** A covariance larger than both of two variances can explain: no correlation within one panel gives it. */
  predicate Excessive(pp: real, qq: real, pq: real) {
    0.0 < pp <= pq && 0.0 < qq <= pq && pp * qq < pq * pq
  }

  function Scaled(sp: real, sq: real, r: real): real {
    sp * r + sq * r
  }

  /** If the covariance exceeds the product of the deviations, the volatility exceeds their average. */
  lemma HarmfulMix(pp: real, qq: real, pq: real, sp: real, sq: real, r: real, form: real, vol: real, average: real)
    requires IsRoot(sp, pp) && IsRoot(sq, qq) && Excessive(pp, qq, pq)
    requires IsRoot(r, TRADING_DAYS_PER_YEAR) && 4.0 * form == pp + qq + 2.0 * pq
    requires IsRoot(vol, form * TRADING_DAYS_PER_YEAR) && 2.0 * average == Scaled(sp, sq, r)
    ensures 0.0 < average < vol
  {
    RootsPositive(pp, sp);
    RootsPositive(qq, sq);
    RootsPositive(TRADING_DAYS_PER_YEAR, r);
    Arith.ProductSign(sp, r);
    Arith.ProductSign(sq, r);
    BelowCovariance(pp, qq, pq, sp, sq);
    var x := sp + sq;
    assert 2.0 * average == x * r;
    assert x * x == pp + qq + 2.0 * (sp * sq);
    SquaredAverage(average, x, r);
    if vol <= average {
      Arith.MultiplyOrder(vol, average, vol);
      Arith.MultiplyOrder(vol, average, average);
    }
  }

  lemma SquaredAverage(average: real, x: real, r: real)
    requires 2.0 * average == x * r && r * r == TRADING_DAYS_PER_YEAR
    ensures 4.0 * (average * average) == x * x * TRADING_DAYS_PER_YEAR
  {
    assert (x * r) * (x * r) == x * x * (r * r);
  }

  lemma BelowCovariance(pp: real, qq: real, pq: real, sp: real, sq: real)
    requires sp >= 0.0 && sq >= 0.0 && sp * sp == pp && sq * sq == qq && pq > 0.0 && pp * qq < pq * pq
    ensures sp * sq < pq
  {
    var z := sp * sq;
    assert z * z == pp * qq;
    if pq <= z {
      SquareOrderStrict(pq, z);
    }
  }

  lemma SquareOrderStrict(a: real, b: real)
    requires 0.0 < a <= b
    ensures a * a <= b * b
  {
    Arith.MultiplyOrder(a, b, a);
    Arith.MultiplyOrder(a, b, b);
  }

  /** The matrix read back after a refresh gives this portfolio a benefit between 0 and 1. */
  ghost predicate BenefitHolds(f: Refresh, t: Table, w: Weights, cutoff: int) {
    var m := AfterRefresh(f, t, Names(w), cutoff);
    m.Some? && 0.0 <= Benefit(w, m.value, f.sqrt) <= 1.0
  }

  lemma RootOf(sqrt: real -> real, x: real)
    requires IsSqrt(sqrt) && x >= 0.0
    ensures IsRoot(sqrt(x), x)
  {
  }

  lemma HarmIsNegative(w: Weights, m: Matrix, sqrt: real -> real)
    requires 0.0 < WeightedVolatility(w, m, sqrt, |w|) < PortfolioVolatility(w, m, sqrt)
    ensures Benefit(w, m, sqrt) < 0.0
  {
    hide WeightedVolatility, PortfolioVolatility;
    var vol, average := PortfolioVolatility(w, m, sqrt), WeightedVolatility(w, m, sqrt, |w|);
    Arith.QuotientTimes(vol, average);
    Arith.CancelStrict(1.0, vol / average, average);
  }

  lemma PositiveVolatility(w: Weights, m: Matrix, sqrt: real -> real)
    requires |w| >= 2 && QuadraticForm(w, m, |w|) > 0.0 && IsSqrt(sqrt)
    ensures IsRoot(PortfolioVolatility(w, m, sqrt), QuadraticForm(w, m, |w|) * TRADING_DAYS_PER_YEAR)
  {
    hide QuadraticForm, IsSqrt;
    RootOf(sqrt, QuadraticForm(w, m, |w|) * TRADING_DAYS_PER_YEAR);
  }

  lemma ExcessiveArePositive(pp: real, qq: real, pq: real)
    requires Excessive(pp, qq, pq)
    ensures pp > 0.0 && qq > 0.0 && pq > 0.0
  {
  }

  lemma TradingYear()
    ensures TRADING_DAYS_PER_YEAR > 0.0
  {
  }

  lemma MixHarms(w: Weights, m: Matrix, sqrt: real -> real, pp: real, qq: real, pq: real)
    requires |w| >= 2 && IsSqrt(sqrt) && Excessive(pp, qq, pq)
    requires 4.0 * QuadraticForm(w, m, |w|) == pp + qq + 2.0 * pq
    requires 2.0 * WeightedVolatility(w, m, sqrt, |w|) == Scaled(sqrt(pp), sqrt(qq), sqrt(TRADING_DAYS_PER_YEAR))
    ensures Benefit(w, m, sqrt) < 0.0
  {
    ExcessiveArePositive(pp, qq, pq);
    hide *;
    RootOf(sqrt, pp);
    RootOf(sqrt, qq);
    assert TRADING_DAYS_PER_YEAR >= 0.0 by { TradingYear(); }
    RootOf(sqrt, TRADING_DAYS_PER_YEAR);
    PositiveVolatility(w, m, sqrt);
    HarmfulMix(pp, qq, pq, sqrt(pp), sqrt(qq), sqrt(TRADING_DAYS_PER_YEAR), QuadraticForm(w, m, |w|),
               PortfolioVolatility(w, m, sqrt), WeightedVolatility(w, m, sqrt, |w|));
    HarmIsNegative(w, m, sqrt);
  }

  /** Two symbols that step together, on different sets of days, make a negative benefit. */
  lemma TogetherIsHarmful(f: Refresh, w: Weights, m: Matrix, p: nat, q: nat, a: string, b: string, u: int, v: int)
    requires Halved(f, w, m, p, q, a, b) && SteppingPair(f, a, b, 0.01, u, v) && f.series[a].Keys != f.series[b].Keys
    requires IsSqrt(f.sqrt)
    ensures Benefit(w, m, f.sqrt) < 0.0
  {
    HalvedForm(f, w, m, p, q, a, b, 0.01, u, v);
    HalvedAverage(f, w, m, p, q, a, b);
    TogetherRows(f, a, b, u, v);
    hide RowOf, QuadraticForm, WeightedVolatility, Entry, Enough, SteppingPair, IsSqrt, Benefit, Excessive, Scaled;
    MixHarms(w, m, f.sqrt, Entry(m, a, a), Entry(m, b, b), Entry(m, a, b));
  }

  lemma TogetherRows(f: Refresh, a: string, b: string, u: int, v: int)
    requires SteppingPair(f, a, b, 0.01, u, v) && f.series[a].Keys != f.series[b].Keys
    ensures var pp, qq, pq := RowOf(f, a, a).covariance, RowOf(f, b, b).covariance, RowOf(f, a, b).covariance;
            Excessive(pp, qq, pq)
  {
    hide Enough, SteppingPair, RowOf, Over;
    SteppingIsEnough(f, a, b, 0.01, u, v);
    SteppingRows(f, a, b, 0.01, u, v);
    SmallerShare(f.series[a].Keys, f.series[b].Keys);
    SmallerMeans(0.0002, RowOf(f, a, a).covariance, RowOf(f, b, b).covariance, RowOf(f, a, b).covariance,
                 |f.series[a].Keys|, |f.series[b].Keys|, |f.series[a].Keys * f.series[b].Keys|);
  }

  lemma DifferentDaysHarm(symbols: Symbols, days: map<string, set<int>>, t: Table, f0: Refresh, cutoff: int, p: nat,
                          q: nat)
    requires Distinct(symbols) && Overlapping(symbols, days) && f0.now >= cutoff && p < q < |symbols| && IsSqrt(f0.sqrt)
    requires symbols[p] in days && symbols[q] in days && days[symbols[p]] != days[symbols[q]]
    ensures exists closes, w :: Priced(closes, symbols, days) && FullyInvested(w, symbols)
                                && !BenefitHolds(f0.(series := ReturnsOf(closes)), t, w, cutoff)
  {
    hide Priced, FullyInvested, SteppingPair, Halved, Overlapping, ReturnsOf, AfterRefresh, Benefit, Distinct, IsSqrt;
    var closes, w, u, v := SteppingWitness(symbols, days, t, f0, cutoff, p, q, 0.01);
    var f := f0.(series := ReturnsOf(closes));
    TogetherIsHarmful(f, w, AfterRefresh(f, t, symbols, cutoff).value, p, q, symbols[p], symbols[q], u, v);
    assert !BenefitHolds(f, t, w, cutoff);
  }

  lemma SameDaysBenefit(symbols: Symbols, days: map<string, set<int>>, t: Table, f: Refresh, closes: Closes,
                        w: Weights, cutoff: int)
    requires |symbols| >= 2 && Distinct(symbols) && Overlapping(symbols, days) && f.now >= cutoff && IsSqrt(f.sqrt)
    requires forall a, b :: a in symbols && b in symbols ==> a in days && b in days && days[a] == days[b]
    requires f.series == ReturnsOf(closes) && Priced(closes, symbols, days) && FullyInvested(w, symbols)
    ensures BenefitHolds(f, t, w, cutoff)
  {
    hide Priced, Distinct, ReturnsOf, Benefit, MatrixOf, RowsFor, AllPairs, IsSqrt;
    assert symbols[0] in symbols;
    var dates := days[symbols[0]];
    assert dates * dates == dates;
    PricedIsEnough(f, closes, symbols, days);
    SeriesCover(f, symbols);
    assert OnePanel(f, Names(w), dates);
    RefreshedAnswerIsSound(f, t, w, dates, cutoff);
  }

  /** The same condition for the benefit: it stays between 0 and 1, whatever the closes, exactly when all symbols have
      their returns on the same days. */
  lemma PairwiseBenefitSafeIff(symbols: Symbols, days: map<string, set<int>>, t: Table, f0: Refresh, cutoff: int)
    requires |symbols| >= 2 && Distinct(symbols) && Overlapping(symbols, days) && f0.now >= cutoff && IsSqrt(f0.sqrt)
    ensures (forall closes, w :: Priced(closes, symbols, days) && FullyInvested(w, symbols) ==>
               BenefitHolds(f0.(series := ReturnsOf(closes)), t, w, cutoff))
       <==> (forall a, b :: a in symbols && b in symbols ==> days[a] == days[b])
  {
    hide Priced, FullyInvested, BenefitHolds, Distinct, ReturnsOf, IsSqrt;
    if forall a, b :: a in symbols && b in symbols ==> days[a] == days[b] {
      forall closes, w | Priced(closes, symbols, days) && FullyInvested(w, symbols)
        ensures BenefitHolds(f0.(series := ReturnsOf(closes)), t, w, cutoff)
      {
        SameDaysBenefit(symbols, days, t, f0.(series := ReturnsOf(closes)), closes, w, cutoff);
      }
    } else {
      var a, b :| a in symbols && b in symbols && days[a] != days[b];
      var i :| 0 <= i < |symbols| && symbols[i] == a;
      var j :| 0 <= j < |symbols| && symbols[j] == b;
      if i < j {
        DifferentDaysHarm(symbols, days, t, f0, cutoff, i, j);
      } else {
        DifferentDaysHarm(symbols, days, t, f0, cutoff, j, i);
      }
    }
  }

  // ---------------------------------------------------------------- one missing day

  function Consecutive(n: nat): (days: seq<int>)
    ensures |days| == n && forall i :: 0 <= i < n ==> days[i] == i
  {
    seq(n, i => i)
  }

  /** Closes 1, 1.01, 0.9999, 0.9999, ... for days 0 to 61, and 1, 0.99, 0.9999, 0.9999, ... for days 0 to 60. */
  const ONE_DAY_SHORT: Closes :=
      map["A" := Path(Consecutive(62), 1, 2, 0.01), "B" := Path(Consecutive(61), 1, 2, -0.01)]

  const HALF_AND_HALF: Weights := [("A", 0.5), ("B", 0.5)]

  lemma ConsecutivePath(n: nat, a: real)
    requires n >= 3 && -1.0 < a < 1.0
    ensures History(Path(Consecutive(n), 1, 2, a))
    ensures var r := RiskMetrics.ToDict(RiskMetrics.DailyReturns(Path(Consecutive(n), 1, 2, a)));
            (forall d :: d in r.Keys <==> 1 <= d < n) && Stepped(r, 1, 2, a)
  {
    hide Path, History, Stepped, RiskMetrics.DailyReturns, RiskMetrics.ToDict;
    var days := Consecutive(n);
    PathReturns(days, 1, 2, a);
    PathIsHistory(days, 1, 2, a);
    forall d
      ensures d in days[1..] <==> 1 <= d < n
    {
      if 1 <= d < n {
        assert days[1..][d - 1] == d;
      }
    }
  }

  lemma DayCount(dates: set<int>, n: nat)
    requires forall d :: d in dates <==> 1 <= d < n + 1
    ensures |dates| == n
  {
    var listed := seq(n, i => i + 1);
    forall d | d in dates
      ensures d in listed
    {
      assert listed[d - 1] == d;
    }
    AscendingUnique(SortDates(dates), listed);
  }

  lemma OneDayShort(f: Refresh)
    requires f.series == ReturnsOf(ONE_DAY_SHORT)
    ensures SteppingPair(f, "A", "B", -0.01, 1, 2)
    ensures |f.series["A"].Keys| == 61 && |f.series["B"].Keys| == 60 && |f.series["A"].Keys * f.series["B"].Keys| == 60
  {
    hide Path, Stepped, RiskMetrics.DailyReturns, RiskMetrics.ToDict;
    ConsecutivePath(62, 0.01);
    ConsecutivePath(61, -0.01);
    var a, b := f.series["A"].Keys, f.series["B"].Keys;
    DayCount(a, 61);
    DayCount(b, 60);
    assert a * a == a && b * b == b && a * b == b && b * a == b;
  }

  lemma ShortArithmetic(q: real, pp: real, qq: real, pq: real)
    requires Over(pp, 61) == 0.0002 && Over(qq, 60) == 0.0002 && Over(pq, 60) == -0.0002
    requires 4.0 * q == pp + qq + 2.0 * pq
    ensures q * 3660.0 == -0.00005
  {
  }

  lemma ShortInputs()
    ensures History(ONE_DAY_SHORT["A"]) && History(ONE_DAY_SHORT["B"]) && FullyInvested(HALF_AND_HALF, ["A", "B"])
  {
    hide Path, History, Stepped, RiskMetrics.DailyReturns, RiskMetrics.ToDict;
    ConsecutivePath(62, 0.01);
    ConsecutivePath(61, -0.01);
    TwoTerms(Amounts(HALF_AND_HALF), 0, 1);
    assert Names(HALF_AND_HALF) == ["A", "B"];
  }

  lemma ClampHides(w: Weights, m: Matrix, sqrt: real -> real)
    requires |w| >= 2 && QuadraticForm(w, m, |w|) < 0.0
    ensures PortfolioVolatility(w, m, sqrt) == sqrt(0.0)
  {
    hide QuadraticForm;
  }

  lemma ShortEntries(f: Refresh, t: Table, cutoff: int)
    requires f.series == ReturnsOf(ONE_DAY_SHORT) && f.now >= cutoff && SteppingPair(f, "A", "B", -0.01, 1, 2)
    ensures var m := AfterRefresh(f, t, ["A", "B"], cutoff);
            m.Some? && Halved(f, HALF_AND_HALF, m.value, 0, 1, "A", "B")
  {
    SteppingIsEnough(f, "A", "B", -0.01, 1, 2);
    hide AfterRefresh, Halved, ReturnsOf, SteppingPair, Enough;
    assert Halves(["A", "B"], 0, 1) == HALF_AND_HALF;
    HalvesAreHalved(f, t, ["A", "B"], cutoff, 0, 1);
  }

  /** One symbol's history is a day shorter: half of each, and the matrix of one refresh gives a negative variance,
      which the clamp hides. */
  lemma PairwiseDatesCanGoNegative(t: Table, now: int, cutoff: int, sqrt: real -> real)
    requires now >= cutoff
    ensures History(ONE_DAY_SHORT["A"]) && History(ONE_DAY_SHORT["B"]) && FullyInvested(HALF_AND_HALF, ["A", "B"])
    ensures var m := AfterRefresh(Refresh(ReturnsOf(ONE_DAY_SHORT), 252, now, sqrt), t, ["A", "B"], cutoff);
            && m.Some?
            && QuadraticForm(HALF_AND_HALF, m.value, 2) * 3660.0 == -0.00005
            && PortfolioVolatility(HALF_AND_HALF, m.value, sqrt) == sqrt(0.0)
  {
    ShortInputs();
    hide FullyInvested, Path, History, Stepped, RowOf, AfterRefresh, Entry, QuadraticForm, Over, ReturnsOf,
         SteppingPair, PortfolioVolatility;
    var f := Refresh(ReturnsOf(ONE_DAY_SHORT), 252, now, sqrt);
    OneDayShort(f);
    ShortEntries(f, t, cutoff);
    var m := AfterRefresh(f, t, ["A", "B"], cutoff).value;
    HalvedForm(f, HALF_AND_HALF, m, 0, 1, "A", "B", -0.01, 1, 2);
    SteppingRows(f, "A", "B", -0.01, 1, 2);
    ShortArithmetic(QuadraticForm(HALF_AND_HALF, m, 2), Entry(m, "A", "A"), Entry(m, "B", "B"), Entry(m, "A", "B"));
    ClampHides(HALF_AND_HALF, m, sqrt);
  }
}
