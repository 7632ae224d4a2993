/** A stored matrix whose rows come from two refreshes, each of one panel, with a negative variance all the same. */
module MixedRefreshes {
  import opened Wrappers
  import opened Series
  import opened Calendar
  import opened Covariance
  import opened CovarianceStorage
  import opened RaggedPanel
  import RiskMetrics
  import Arith

  /** A step at one place co-varies with itself by no more than its square, spread over all days. */
  lemma LoneStepCov(x: seq<real>, i: nat, b: real)
    requires i < |x| && x[i] == b && forall k :: 0 <= k < |x| && k != i ==> x[k] == 0.0
    ensures Over(Cov(x, x), |x|) <= b * b
  {
    hide Cov, Mean, Sum, Dot;
    DotIsSum(x, x);
    OneTerm(Products(x, x), i);
    CovExpanded(x, x);
    MeanSquare(Mean(x), |x| as real);
  }

  lemma MeanSquare(mean: real, n: real)
    requires n >= 0.0
    ensures n * (mean * mean) >= 0.0
  {
    Arith.SquareSign(mean, mean * mean);
    Arith.ProductSign(n, mean * mean);
  }

  /** The same closes seen a day later, when the oldest has left the window. */
  function DayLater(prices: Prices): Prices
    requires |prices| > 0
  {
    prices[1..]
  }

  const UP := Path(Consecutive(62), 1, 2, 0.01)
  const DOWN := Path(Consecutive(62), 1, 2, -0.01)
  const FLAT := Path(Consecutive(62), 1, 2, 0.0)

  function FirstRefresh(sqrt: real -> real): Refresh {
    Refresh(ReturnsOf(map["A" := UP, "B" := DOWN]), 252, 0, sqrt)
  }

  function SecondRefresh(sqrt: real -> real): Refresh {
    Refresh(ReturnsOf(map["A" := DayLater(UP), "C" := DayLater(FLAT)]), 252, 1, sqrt)
  }

  /** One refresh for A and B, and the next day one for A and C. */
  ghost function TwoRefreshes(sqrt: real -> real): seq<Call> {
    [(FirstRefresh(sqrt), ["A", "B"]), (SecondRefresh(sqrt), ["A", "C"])]
  }

  lemma LaterPath(a: real)
    requires -1.0 < a < 1.0
    ensures History(DayLater(Path(Consecutive(62), 1, 2, a)))
    ensures var r := RiskMetrics.ToDict(RiskMetrics.DailyReturns(DayLater(Path(Consecutive(62), 1, 2, a))));
            (forall d :: d in r.Keys <==> 2 <= d < 62) && Stepped(r, 1, 2, a)
  {
    hide History, Stepped, RiskMetrics.DailyReturns, RiskMetrics.ToDict, Level;
    var days := Consecutive(62)[1..];
    assert DayLater(Path(Consecutive(62), 1, 2, a)) == Path(days, 1, 2, a);
    PathReturns(days, 1, 2, a);
    PathIsHistory(days, 1, 2, a);
    forall d
      ensures d in days[1..] <==> 2 <= d < 62
    {
      if 2 <= d < 62 {
        assert days[1..][d - 2] == d;
      }
    }
  }

  function Listed(first: int, last: int): (days: seq<int>)
    requires first <= last
    ensures |days| == last - first + 1 && Ascending(days)
    ensures forall d :: d in days <==> first <= d <= last
  {
    var days := seq(last - first + 1, i => first + i);
    ListedMembers(first, last, days);
    days
  }

  lemma ListedMembers(first: int, last: int, days: seq<int>)
    requires first <= last && |days| == last - first + 1 && forall i :: 0 <= i < |days| ==> days[i] == first + i
    ensures forall d :: d in days <==> first <= d <= last
  {
    forall d | first <= d <= last
      ensures d in days
    {
      assert days[d - first] == d;
    }
  }

  function Days(first: int, last: int): (days: set<int>)
    requires first <= last
    ensures forall d :: d in days <==> first <= d <= last
  {
    set d | d in Listed(first, last)
  }

  lemma DaysCount(first: int, last: int)
    requires first <= last
    ensures |Days(first, last)| == last - first + 1
  {
    AscendingUnique(SortDates(Days(first, last)), Listed(first, last));
  }

  lemma SameDays(dates: set<int>, first: int, last: int)
    requires first <= last && forall d :: d in dates <==> first <= d < last + 1
    ensures dates == Days(first, last) && |dates| == last - first + 1
  {
    hide Days;
    forall d
      ensures d in dates <==> d in Days(first, last)
    {
    }
    DaysCount(first, last);
  }

  lemma FirstSeries(sqrt: real -> real)
    ensures var f := FirstRefresh(sqrt);
            && f.series.Keys == {"A", "B"}
            && f.series["A"].Keys == Days(1, 61) && f.series["B"].Keys == Days(1, 61)
            && Stepped(f.series["A"], 1, 2, 0.01) && Stepped(f.series["B"], 1, 2, -0.01)
  {
    hide Path, Stepped, History, RiskMetrics.DailyReturns, RiskMetrics.ToDict;
    ConsecutivePath(62, 0.01);
    ConsecutivePath(62, -0.01);
    hide Days;
    var f := FirstRefresh(sqrt);
    SameDays(f.series["A"].Keys, 1, 61);
    SameDays(f.series["B"].Keys, 1, 61);
  }

  lemma SecondSeries(sqrt: real -> real)
    ensures var f := SecondRefresh(sqrt);
            && f.series.Keys == {"A", "C"}
            && f.series["A"].Keys == Days(2, 61) && f.series["C"].Keys == Days(2, 61)
            && Stepped(f.series["A"], 1, 2, 0.01)
  {
    hide Path, DayLater, Stepped, History, RiskMetrics.DailyReturns, RiskMetrics.ToDict;
    LaterPath(0.01);
    LaterPath(0.0);
    hide Days;
    var f := SecondRefresh(sqrt);
    SameDays(f.series["A"].Keys, 2, 61);
    SameDays(f.series["C"].Keys, 2, 61);
  }

  /** Each refresh saw one panel. */
  lemma BothPanels(sqrt: real -> real)
    ensures OnePanel(FirstRefresh(sqrt), ["A", "B"], Days(1, 61))
            && OnePanel(SecondRefresh(sqrt), ["A", "C"], Days(2, 61))
    ensures SteppingPair(FirstRefresh(sqrt), "A", "B", -0.01, 1, 2)
    ensures |FirstRefresh(sqrt).series| == 2 && |SecondRefresh(sqrt).series| == 2
  {
    hide Days, Listed, FirstRefresh, SecondRefresh, Stepped;
    FirstSeries(sqrt);
    SecondSeries(sqrt);
    DaysCount(1, 61);
    DaysCount(2, 61);
    assert Days(1, 61) * Days(1, 61) == Days(1, 61);
    assert |FirstRefresh(sqrt).series.Keys| == 2 && |SecondRefresh(sqrt).series.Keys| == 2;
  }

  /** A symbol that moves on one day only. */
  lemma LoneVariance(f: Refresh, a: string, day: int, b: real)
    requires a in f.series && |f.series[a].Keys| >= MIN_OBSERVATIONS && day in f.series[a] && f.series[a][day] == b
    requires forall d :: d in f.series[a] && d != day ==> f.series[a][d] == 0.0
    ensures Enough(f, a, a) && Over(RowOf(f, a, a).covariance, |f.series[a].Keys|) <= b * b
  {
    hide Cov, Over, SortDates, AlignReturns, Volatility, PairwiseCovariance;
    var r := f.series[a];
    assert r.Keys * r.Keys == r.Keys;
    var dates := SortDates(r.Keys);
    PairCovIs(r, r, dates, f.sqrt);
    assert day in dates;
    LoneStepCov(Pick(r, dates), PlaceOf(dates, day), b);
  }

  lemma LaterVariance(sqrt: real -> real)
    ensures Enough(SecondRefresh(sqrt), "A", "A")
    ensures Over(RowOf(SecondRefresh(sqrt), "A", "A").covariance, 60) <= 0.0001
  {
    hide Days, Listed, FirstRefresh, SecondRefresh, Over, RowOf, Enough;
    SecondSeries(sqrt);
    DaysCount(2, 61);
    LoneVariance(SecondRefresh(sqrt), "A", 2, -0.01);
  }

  ghost function TwoRefreshTable(sqrt: real -> real): Table {
    RowsFor(FirstRefresh(sqrt), AllPairs(FirstRefresh(sqrt), ["A", "B"]))
    + RowsFor(SecondRefresh(sqrt), AllPairs(SecondRefresh(sqrt), ["A", "C"]))
  }

  lemma TableOfTwo(sqrt: real -> real)
    ensures TableAfter(TwoRefreshes(sqrt)) == TwoRefreshTable(sqrt)
  {
    hide Days, Listed, FirstRefresh, SecondRefresh, RowsFor, AllPairs;
    BothPanels(sqrt);
    var calls := TwoRefreshes(sqrt);
    assert calls[..1] == [calls[0]] && calls[..1][..0] == [];
    assert TableAfter(calls[..1]) == map[] + RowsFor(FirstRefresh(sqrt), AllPairs(FirstRefresh(sqrt), ["A", "B"]));
  }

  lemma FirstRowStays(f: Refresh, g: Refresh, before: Symbols, after: Symbols, a: string, b: string)
    requires Enough(f, a, b) && a in before && b in before && (a !in after || b !in after)
    ensures var t := RowsFor(f, AllPairs(f, before)) + RowsFor(g, AllPairs(g, after));
            (a, b) in t && t[(a, b)] == RowOf(f, a, b)
  {
    hide Enough, RowOf;
    assert (a, b) in AllPairs(f, before);
  }

  lemma SecondRowWins(f: Refresh, g: Refresh, before: Symbols, after: Symbols, a: string, b: string)
    requires Enough(g, a, b) && a in after && b in after
    ensures var t := RowsFor(f, AllPairs(f, before)) + RowsFor(g, AllPairs(g, after));
            (a, b) in t && t[(a, b)] == RowOf(g, a, b)
  {
    hide Enough, RowOf;
    assert (a, b) in AllPairs(g, after);
  }

  /** The row of A is the second refresh's, the other three are the first's. */
  lemma MixedRows(sqrt: real -> real)
    ensures SteppingPair(FirstRefresh(sqrt), "A", "B", -0.01, 1, 2)
    ensures var f, g, t := FirstRefresh(sqrt), SecondRefresh(sqrt), TwoRefreshTable(sqrt);
            && Enough(g, "A", "A") && ("A", "A") in t && t[("A", "A")] == RowOf(g, "A", "A")
            && Enough(f, "A", "B") && ("A", "B") in t && t[("A", "B")] == RowOf(f, "A", "B")
            && Enough(f, "B", "A") && ("B", "A") in t && t[("B", "A")] == RowOf(f, "B", "A")
            && Enough(f, "B", "B") && ("B", "B") in t && t[("B", "B")] == RowOf(f, "B", "B")
  {
    BothPanels(sqrt);
    LaterVariance(sqrt);
    hide Days, FirstRefresh, SecondRefresh, SteppingPair, RowOf, Enough, RowsFor, AllPairs, OnePanel;
    var f, g := FirstRefresh(sqrt), SecondRefresh(sqrt);
    SteppingIsEnough(f, "A", "B", -0.01, 1, 2);
    SecondRowWins(f, g, ["A", "B"], ["A", "C"], "A", "A");
    FirstRowStays(f, g, ["A", "B"], ["A", "C"], "A", "B");
    FirstRowStays(f, g, ["A", "B"], ["A", "C"], "B", "A");
    FirstRowStays(f, g, ["A", "B"], ["A", "C"], "B", "B");
  }

  lemma MixedEntries(sqrt: real -> real)
    ensures var f, m := FirstRefresh(sqrt), MatrixOf(TwoRefreshTable(sqrt), ["A", "B"], 0);
            && SteppingPair(f, "A", "B", -0.01, 1, 2) && Enough(f, "A", "B") && Enough(f, "B", "B")
               && Enough(f, "B", "A")
            && Enough(SecondRefresh(sqrt), "A", "A")
            && m.Some?
            && Entry(m.value, "A", "A") == RowOf(SecondRefresh(sqrt), "A", "A").covariance
            && Entry(m.value, "A", "B") == RowOf(f, "A", "B").covariance
            && Entry(m.value, "B", "A") == RowOf(f, "B", "A").covariance
            && Entry(m.value, "B", "B") == RowOf(f, "B", "B").covariance
  {
    hide Days, Listed, FirstRefresh, SecondRefresh, TwoRefreshTable, SteppingPair, RowOf, Enough;
    MixedRows(sqrt);
    SteppingIsEnough(FirstRefresh(sqrt), "A", "B", -0.01, 1, 2);
    var t := TwoRefreshTable(sqrt);
    MixedTimes(sqrt);
    assert AllFresh(t, ["A", "B"], 0);
    MatrixAvailableIff(t, ["A", "B"], 0);
  }

  lemma MixedTimes(sqrt: real -> real)
    requires Enough(SecondRefresh(sqrt), "A", "A") && Enough(FirstRefresh(sqrt), "A", "B")
    requires Enough(FirstRefresh(sqrt), "B", "A") && Enough(FirstRefresh(sqrt), "B", "B")
    ensures RowOf(SecondRefresh(sqrt), "A", "A").calculatedAt == 1
    ensures RowOf(FirstRefresh(sqrt), "A", "B").calculatedAt == 0
    ensures RowOf(FirstRefresh(sqrt), "B", "A").calculatedAt == 0
    ensures RowOf(FirstRefresh(sqrt), "B", "B").calculatedAt == 0
  {
    hide RowOf, Enough;
    RowTime(SecondRefresh(sqrt), "A", "A");
    RowTime(FirstRefresh(sqrt), "A", "B");
    RowTime(FirstRefresh(sqrt), "B", "A");
    RowTime(FirstRefresh(sqrt), "B", "B");
  }

  lemma MixedSum(q: real, pp: real, pq: real, qq: real)
    requires Over(pp, 60) <= 0.0001 && Over(pq, 61) == -0.0002 && Over(qq, 61) == 0.0002
    requires 4.0 * q == pp + pq + (pq + qq)
    ensures q < 0.0
  {
  }

  lemma MixedForm(sqrt: real -> real)
    ensures var m := MatrixOf(TwoRefreshTable(sqrt), ["A", "B"], 0);
            m.Some? && QuadraticForm(HALF_AND_HALF, m.value, 2) < 0.0
  {
    MixedEntries(sqrt);
    LaterVariance(sqrt);
    FirstCounts(sqrt);
    hide Days, FirstRefresh, SecondRefresh, TwoRefreshTable, MatrixOf, SteppingPair, RowOf, Enough, Entry,
         QuadraticForm, Over;
    SteppingRows(FirstRefresh(sqrt), "A", "B", -0.01, 1, 2);
    var m := MatrixOf(TwoRefreshTable(sqrt), ["A", "B"], 0).value;
    FormOfTwo(HALF_AND_HALF, m, 0, 1, 2);
    MixedSum(QuadraticForm(HALF_AND_HALF, m, 2), Entry(m, "A", "A"), Entry(m, "A", "B"), Entry(m, "B", "B"));
  }

  /** Two refreshes of the same closes a day apart, each from one panel, and half of each of two symbols: the stored
      rows carry both times, the table still answers, and the double sum is negative. */
  lemma MixedTimesCanGoNegative(sqrt: real -> real)
    ensures History(UP) && History(DOWN) && History(FLAT) && History(DayLater(UP)) && History(DayLater(FLAT))
    ensures Clocked(TwoRefreshes(sqrt))
    ensures OnePanel(FirstRefresh(sqrt), ["A", "B"], Days(1, 61))
            && OnePanel(SecondRefresh(sqrt), ["A", "C"], Days(2, 61))
    ensures var m := MatrixOf(TableAfter(TwoRefreshes(sqrt)), ["A", "B"], 0);
            m.Some? && QuadraticForm(HALF_AND_HALF, m.value, 2) < 0.0
  {
    TwoClocks(sqrt);
    hide *;
    MixedHistories();
    BothPanels(sqrt);
    TableOfTwo(sqrt);
    MixedForm(sqrt);
  }

  lemma TwoClocks(sqrt: real -> real)
    ensures Clocked(TwoRefreshes(sqrt))
  {
  }

  lemma FirstCounts(sqrt: real -> real)
    ensures var f := FirstRefresh(sqrt);
            && "A" in f.series && "B" in f.series
            && |f.series["B"].Keys| == 61 && |f.series["A"].Keys * f.series["B"].Keys| == 61
  {
    hide Days, Listed, FirstRefresh, Stepped;
    FirstSeries(sqrt);
    DaysCount(1, 61);
    assert Days(1, 61) * Days(1, 61) == Days(1, 61);
  }

  lemma MixedHistories()
    ensures History(UP) && History(DOWN) && History(FLAT) && History(DayLater(UP)) && History(DayLater(FLAT))
  {
    hide Path, History, DayLater, Stepped, RiskMetrics.DailyReturns, RiskMetrics.ToDict;
    ConsecutivePath(62, 0.01);
    ConsecutivePath(62, -0.01);
    ConsecutivePath(62, 0.0);
    LaterPath(0.01);
    LaterPath(0.0);
  }
}
