/** The day loop of a backtest as a function of the bars, and what holds over every run of it. */
module Replay {
  import opened Wrappers
  import opened Ledger
  import opened Calendar
  import Metrics
  import Arith

  const INDICATOR_LOOKBACK_DAYS := 365
  const FETCH_LIMIT := 10000
  const WINDOW := 300

  type Indicators = map<string, real>

  /** A strategy decides from what it is shown and nothing else. */
  datatype Strategy = Strategy(
    indicators: seq<Bar> -> Indicators,
    shouldEnter: (string, int, Indicators, Bar) -> bool,
    shouldExit: (Holding, int, Indicators, Bar) -> (bool, string))

  datatype Run = Run(symbol: string, strategy: Strategy, sizingMethod: string, sizeValue: real)

  // ---------------------------------------------------------------- bars

  /** Bars of one symbol, one a date, closes positive. */
  ghost predicate Series(bars: seq<Bar>) {
    && (forall i, j :: 0 <= i < j < |bars| ==> bars[i].date < bars[j].date)
    && (forall i :: 0 <= i < |bars| ==> bars[i].close > 0.0)
  }

  /** The rows dated no later than `d`. */
  function Upto(bars: seq<Bar>, d: int): (r: seq<Bar>)
    ensures |r| <= |bars|
  {
    if |bars| == 0 then []
    else if bars[|bars| - 1].date <= d then Upto(bars[..|bars| - 1], d) + [bars[|bars| - 1]]
    else Upto(bars[..|bars| - 1], d)
  }

  function LastN(bars: seq<Bar>, n: nat): (r: seq<Bar>)
    ensures |r| == if |bars| > n then n else |bars|
  {
    if |bars| > n then bars[|bars| - n..] else bars
  }

  /** What a strategy may see on day `d`: at most the last `WINDOW` rows up to that day. */
  function Window(df: seq<Bar>, d: int): seq<Bar> {
    LastN(Upto(df, d), WINDOW)
  }

  function TradingDays(df: seq<Bar>, start: int, end: int): seq<int> {
    if |df| == 0 then []
    else
      var d := df[|df| - 1].date;
      TradingDays(df[..|df| - 1], start, end) + if start <= d <= end then [d] else []
  }

  function Fetched(bars: seq<Bar>, asOf: int): seq<Bar> {
    LastN(Upto(bars, asOf), FETCH_LIMIT)
  }

  function FindBar(bars: seq<Bar>, d: int): Option<Bar> {
    if |bars| == 0 then None
    else if bars[|bars| - 1].date == d then Some(bars[|bars| - 1])
    else FindBar(bars[..|bars| - 1], d)
  }

  // ---------------------------------------------------------------- one day

  ghost predicate GoodHolding(run: Run, h: Holding) {
    h.symbol == run.symbol && h.entryPrice > 0.0 && h.shares > 0
  }

  /** At most one position, in the symbol of the run. */
  ghost predicate GoodBook(run: Run, b: Book) {
    |b.holdings| <= 1 && forall i :: 0 <= i < |b.holdings| ==> GoodHolding(run, b.holdings[i])
  }

  function Revaluation(run: Run, b: Book, price: real): (r: Book)
    requires GoodBook(run, b)
    ensures GoodBook(run, r)
  {
    b.(holdings := RevaluedAll(b.holdings, price))
  }

  function ExitIfAsked(run: Run, b: Book, d: int, ind: Indicators, bar: Bar): (r: Book)
    requires GoodBook(run, b)
    ensures GoodBook(run, r)
  {
    if |b.holdings| == 0 then b
    else
      var h := b.holdings[0];
      var (exit, reason) := run.strategy.shouldExit(h, d, ind, bar);
      if exit then Exited(b, h.symbol, d, bar.close, reason) else b
  }

  function EnterIfAsked(run: Run, b: Book, d: int, ind: Indicators, bar: Bar): (r: Book)
    requires GoodBook(run, b) && bar.close > 0.0
    ensures GoodBook(run, r)
  {
    if IndexOf(b.holdings, run.symbol) < 0 && run.strategy.shouldEnter(run.symbol, d, ind, bar) then
      var shares := PositionSize(b.cash, bar.close, run.sizingMethod, run.sizeValue);
      if shares > 0 then Entered(b, run.symbol, d, bar.close, shares) else b
    else b
  }

  /** Excursions, exits and entries of one day. */
  function Traded(run: Run, b: Book, d: int, ind: Indicators, bar: Bar): (r: Book)
    requires GoodBook(run, b) && bar.close > 0.0
    ensures GoodBook(run, r)
  {
    EnterIfAsked(run, ExitIfAsked(run, Revaluation(run, b, bar.close), d, ind, bar), d, ind, bar)
  }

  lemma {:induction false} UptoCloses(bars: seq<Bar>, d: int)
    requires forall i :: 0 <= i < |bars| ==> bars[i].close > 0.0
    ensures forall i :: 0 <= i < |Upto(bars, d)| ==> Upto(bars, d)[i].close > 0.0
  {
    if |bars| > 0 {
      UptoCloses(bars[..|bars| - 1], d);
    }
  }

  lemma WindowCloses(df: seq<Bar>, d: int)
    requires forall i :: 0 <= i < |df| ==> df[i].close > 0.0
    ensures forall i :: 0 <= i < |Window(df, d)| ==> Window(df, d)[i].close > 0.0
  {
    UptoCloses(df, d);
  }

  function Day(run: Run, df: seq<Bar>, b: Book, d: int): (r: Book)
    requires GoodBook(run, b) && forall i :: 0 <= i < |df| ==> df[i].close > 0.0
    ensures GoodBook(run, r)
  {
    var w := Window(df, d);
    if |w| == 0 then b
    else
      WindowCloses(df, d);
      var bar := w[|w| - 1];
      Recorded(Traded(run, b, d, run.strategy.indicators(w), bar), d, map[run.symbol := bar.close])
  }

  function Days(run: Run, df: seq<Bar>, days: seq<int>, b: Book): (r: Book)
    requires GoodBook(run, b) && forall i :: 0 <= i < |df| ==> df[i].close > 0.0
    ensures GoodBook(run, r)
  {
    if |days| == 0 then b else Day(run, df, Days(run, df, days[..|days| - 1], b), days[|days| - 1])
  }

  function Start(capital: real): Book {
    Book(capital, [], [], [], capital)
  }

  // ---------------------------------------------------------------- the whole backtest

  datatype Failure = InsufficientData | NoTradingData

  datatype Outcome = Completed(book: Book) | Failed(reason: Failure)

  function CloseOut(run: Run, b: Book, d: int, price: real): Book
    requires GoodBook(run, b)
  {
    if |b.holdings| == 0 then b else Exited(b, b.holdings[0].symbol, d, price, "eod")
  }

  function Backtest(run: Run, bars: seq<Bar>, start: int, end: int, capital: real): Outcome
    requires Series(bars)
  {
    if |bars| == 0 then Failed(InsufficientData)
    else
      var dataMin, dataMax := bars[0].date, bars[|bars| - 1].date;
      var actualStart := if start < dataMin then dataMin else start;
      var actualEnd := if end > dataMax then dataMax else end;
      if actualStart >= actualEnd || dataMin > actualStart - INDICATOR_LOOKBACK_DAYS then Failed(InsufficientData)
      else
        var df := Fetched(bars, actualEnd);
        FetchedCloses(bars, actualEnd);
        var days := TradingDays(df, actualStart, actualEnd);
        if |days| == 0 then Failed(NoTradingData)
        else
          var b := Days(run, df, days, Start(capital));
          var last := days[|days| - 1];
          match FindBar(bars, last)
          case None => Completed(b)
          case Some(bar) => Completed(CloseOut(run, b, last, bar.close))
  }

  lemma FetchedCloses(bars: seq<Bar>, asOf: int)
    requires forall i :: 0 <= i < |bars| ==> bars[i].close > 0.0
    ensures forall i :: 0 <= i < |Fetched(bars, asOf)| ==> Fetched(bars, asOf)[i].close > 0.0
  {
    UptoCloses(bars, asOf);
  }

  /** Moving a start before the first bar forward never rescues a request: a year of history before the start is still
      missing. */
  lemma EarlyStartIsInsufficient(run: Run, bars: seq<Bar>, start: int, end: int, capital: real)
    requires Series(bars) && |bars| > 0 && start < bars[0].date + INDICATOR_LOOKBACK_DAYS
    ensures Backtest(run, bars, start, end, capital) == Failed(InsufficientData)
  {
  }

  // ---------------------------------------------------------------- trades and money, over every run

  ghost predicate GoodTrade(t: Trade) {
    && t.maxAdversePct <= t.pnlPct <= t.maxFavorablePct
    && t.maxAdversePct <= 0.0 <= t.maxFavorablePct
    && t.entryDate <= t.exitDate
  }

  /** An open position's excursions span its return at the price `c`. */
  ghost predicate Spans(h: Holding, c: real)
    requires h.entryPrice > 0.0
  {
    && h.maxAdversePct <= ReturnPct(h.entryPrice, c) <= h.maxFavorablePct
    && h.maxAdversePct <= 0.0 <= h.maxFavorablePct
  }

  /** The trade log up to day `d`: good trades, one after the other. */
  ghost predicate GoodLog(ts: seq<Trade>, d: int) {
    && (forall i :: 0 <= i < |ts| ==> GoodTrade(ts[i]) && ts[i].exitDate <= d)
    && (forall i, j :: 0 <= i < j < |ts| ==> ts[i].exitDate <= ts[j].entryDate)
  }

  ghost predicate OpenAfterLog(b: Book, d: int) {
    forall i, k :: 0 <= i < |b.trades| && 0 <= k < |b.holdings| ==>
      b.trades[i].exitDate <= b.holdings[k].entryDate <= d
  }

  /** What holds between days: `d` is the last day done and `c` its close. */
  ghost predicate Invariant(run: Run, capital: real, b: Book, d: int, c: real) {
    && GoodBook(run, b)
    && PaidIn(b) == capital
    && (capital >= 0.0 ==> b.cash >= 0.0)
    && GoodLog(b.trades, d)
    && OpenAfterLog(b, d)
    && (forall k :: 0 <= k < |b.holdings| ==> b.holdings[k].entryDate <= d && Spans(b.holdings[k], c))
  }

  lemma RevaluationKeeps(run: Run, capital: real, b: Book, d0: int, c0: real, d: int, c: real)
    requires Invariant(run, capital, b, d0, c0) && d0 <= d
    ensures Invariant(run, capital, Revaluation(run, b, c), d, c)
  {
    hide ReturnPct;
    var r := Revaluation(run, b, c);
    if |b.holdings| == 1 {
      RevaluedCost(b.holdings[0], c);
      assert b.holdings == [b.holdings[0]] && r.holdings == [r.holdings[0]];
      CostBasisOne(b.holdings[0]);
      CostBasisOne(r.holdings[0]);
    } else {
      assert r.holdings == b.holdings;
    }
  }

  lemma RevaluedCost(h: Holding, c: real)
    requires h.entryPrice > 0.0
    ensures Cost(Revalued(h, c)) == Cost(h)
  {
  }

  lemma ExitKeeps(run: Run, capital: real, b: Book, d: int, price: real, reason: string)
    requires Invariant(run, capital, b, d, price) && |b.holdings| == 1 && price > 0.0
    ensures Invariant(run, capital, Exited(b, b.holdings[0].symbol, d, price, reason), d, price)
    ensures |Exited(b, b.holdings[0].symbol, d, price, reason).holdings| == 0
  {
    hide ReturnPct, Cost, CostBasis, Realized;
    var h := b.holdings[0];
    ExitConserves(b, h.symbol, d, price, reason);
    Arith.ProductSign(h.shares as real, price);
    assert IndexOf(b.holdings, h.symbol) == 0;
    var e := Exited(b, h.symbol, d, price, reason);
    assert e.trades == b.trades + [TradeOf(h, d, price, reason)];
    assert GoodTrade(TradeOf(h, d, price, reason));
  }

  lemma EnterKeeps(run: Run, capital: real, b: Book, d: int, price: real, shares: int)
    requires Invariant(run, capital, b, d, price) && |b.holdings| == 0
    requires price > 0.0 && shares > 0 && shares as real * price <= b.cash
    ensures Invariant(run, capital, Entered(b, run.symbol, d, price, shares), d, price)
  {
    hide Cost, CostBasis, Realized;
    EnterConservesIff(b, run.symbol, d, price, shares);
    var e := Entered(b, run.symbol, d, price, shares);
    assert IndexOf(b.holdings, run.symbol) == -1;
    assert e.holdings == [Opened(run.symbol, d, price, shares)];
    assert ReturnPct(price, price) == 0.0;
  }

  /** One day of trading keeps the invariant. */
  lemma TradedKeeps(run: Run, capital: real, b: Book, d0: int, c0: real, d: int, ind: Indicators, bar: Bar)
    requires Invariant(run, capital, b, d0, c0) && d0 <= d && bar.close > 0.0
    ensures Invariant(run, capital, Traded(run, b, d, ind, bar), d, bar.close)
  {
    hide Invariant, Entered, Exited, Revaluation;
    assert GoodBook(run, b) by { InvariantIsGood(run, capital, b, d0, c0); }
    var b1 := Revaluation(run, b, bar.close);
    RevaluationKeeps(run, capital, b, d0, c0, d, bar.close);
    if |b1.holdings| > 0 {
      var (exit, reason) := run.strategy.shouldExit(b1.holdings[0], d, ind, bar);
      ExitKeeps(run, capital, b1, d, bar.close, reason);
    }
    var b2 := ExitIfAsked(run, b1, d, ind, bar);
    assert Invariant(run, capital, b2, d, bar.close);
    NoHoldingIffAbsent(run, b2);
    var shares := PositionSize(b2.cash, bar.close, run.sizingMethod, run.sizeValue);
    if |b2.holdings| == 0 && shares > 0 {
      SizeIsLargestAffordable(b2.cash, bar.close, run.sizingMethod, run.sizeValue);
      EnterKeeps(run, capital, b2, d, bar.close, shares);
    }
  }

  lemma InvariantIsGood(run: Run, capital: real, b: Book, d: int, c: real)
    requires Invariant(run, capital, b, d, c)
    ensures GoodBook(run, b)
  {
  }

  lemma NoHoldingIffAbsent(run: Run, b: Book)
    requires GoodBook(run, b)
    ensures IndexOf(b.holdings, run.symbol) < 0 <==> |b.holdings| == 0
  {
  }

  // ---------------------------------------------------------------- the equity curve, over every run

  function Shares(b: Book): int {
    if |b.holdings| == 0 then 0 else b.holdings[0].shares
  }

  /** Equity when every share is worth `c`. */
  function Worth(b: Book, c: real): real {
    b.cash + Shares(b) as real * c
  }

  lemma WorthIsEquity(run: Run, b: Book, c: real)
    requires GoodBook(run, b)
    ensures Equity(b, map[run.symbol := c]) == Worth(b, c)
    ensures MarketValue(b.holdings, map[run.symbol := c]) == Shares(b) as real * c
  {
    if |b.holdings| == 1 {
      assert b.holdings == [b.holdings[0]];
      MarketValueOne(b.holdings[0], map[run.symbol := c]);
    }
  }

  /** A day's trading at the close leaves equity at that close unchanged. */
  lemma TradedIsNeutral(run: Run, b: Book, d: int, ind: Indicators, bar: Bar)
    requires GoodBook(run, b) && bar.close > 0.0
    ensures Worth(Traded(run, b, d, ind, bar), bar.close) == Worth(b, bar.close)
  {
    hide Equity, Worth, Exited, Entered, MarketValue, PositionSize, ReturnPct;
    var prices := map[run.symbol := bar.close];
    var b1 := Revaluation(run, b, bar.close);
    RevaluationIsNeutral(run, b, bar.close);
    var b2 := ExitIfAsked(run, b1, d, ind, bar);
    WorthIsEquity(run, b1, bar.close);
    WorthIsEquity(run, b2, bar.close);
    if |b1.holdings| > 0 {
      var (exit, reason) := run.strategy.shouldExit(b1.holdings[0], d, ind, bar);
      if exit {
        ExitIsEquityNeutral(b1, b1.holdings[0].symbol, d, bar.close, reason, prices);
      }
    }
    assert Worth(b2, bar.close) == Worth(b1, bar.close);
    NoHoldingIffAbsent(run, b2);
    var b3 := EnterIfAsked(run, b2, d, ind, bar);
    WorthIsEquity(run, b3, bar.close);
    if |b2.holdings| == 0 {
      EnterIsEquityNeutral(b2, run.symbol, d, bar.close,
                           PositionSize(b2.cash, bar.close, run.sizingMethod, run.sizeValue), prices);
    }
  }

  lemma RevaluationIsNeutral(run: Run, b: Book, c: real)
    requires GoodBook(run, b)
    ensures Worth(Revaluation(run, b, c), c) == Worth(b, c)
  {
    hide ReturnPct;
  }

  /** The largest drawdown a run records day by day. */
  function LargestRecorded(curve: seq<Snapshot>): real {
    if |curve| == 0 then 0.0 else Max(LargestRecorded(curve[..|curve| - 1]), curve[|curve| - 1].drawdownPct)
  }

  /** The drawdown of day `k` is measured from the highest equity so far. */
  ghost predicate DrawdownTold(curve: seq<Snapshot>, k: nat)
    requires k < |curve|
  {
    exists p :: 0 <= p <= k && DrawdownFrom(curve, p, k)
  }

  ghost predicate DrawdownFrom(curve: seq<Snapshot>, p: nat, k: nat)
    requires p <= k < |curve|
  {
    var high, low, drawdown := curve[p].equity, curve[k].equity, curve[k].drawdownPct;
    && (forall i :: 0 <= i <= k ==> curve[i].equity <= high)
    && if high > 0.0 then drawdown * high == (high - low) * 100.0 else drawdown == 0.0
  }

  lemma TodayDrawdown(curve: seq<Snapshot>)
    requires |curve| > 0
    requires curve[|curve| - 1].drawdownPct
          == DrawdownPct(Metrics.Peak(Metrics.Equities(curve)), curve[|curve| - 1].equity)
    ensures DrawdownTold(curve, |curve| - 1)
  {
    hide Metrics.Peak;
    var e := Metrics.Equities(curve);
    var p := Metrics.PeakIsLargest(e);
    if e[p] > 0.0 {
      Arith.QuotientTimes(e[p] - e[|e| - 1], e[p]);
    }
    assert DrawdownFrom(curve, p, |curve| - 1);
  }

  lemma EarlierDrawdown(curve: seq<Snapshot>, longer: seq<Snapshot>, k: nat)
    requires k < |curve| && curve <= longer && DrawdownTold(curve, k)
    ensures DrawdownTold(longer, k)
  {
    var p :| 0 <= p <= k && DrawdownFrom(curve, p, k);
    assert DrawdownFrom(longer, p, k);
  }

  /** The curve starts at the capital, its peak is the engine's peak, and both drawdowns agree. */
  ghost predicate GoodCurve(capital: real, b: Book) {
    var e := Metrics.Equities(b.curve);
    && (|e| == 0 ==> b.peak == capital)
    && (|e| > 0 ==> e[0] == capital && b.peak == Metrics.Peak(e)
                    && LargestRecorded(b.curve) == Metrics.MaxDrawdown(e))
    && forall k :: 0 <= k < |e| ==> DrawdownTold(b.curve, k)
  }

  lemma {:induction false} RecordedKeepsCurve(capital: real, b: Book, d: int, prices: map<string, real>)
    requires forall i :: 0 <= i < |b.holdings| ==> b.holdings[i].symbol in prices
    requires GoodCurve(capital, b)
    requires |b.curve| == 0 ==> Equity(b, prices) == capital
    ensures GoodCurve(capital, Recorded(b, d, prices))
  {
    hide DrawdownPct, MarketValue, DrawdownTold;
    var r := Recorded(b, d, prices);
    var n := |b.curve|;
    var e, f := Metrics.Equities(b.curve), Metrics.Equities(r.curve);
    assert r.curve[..n] == b.curve && f[..n] == e;
    assert f[n] == Equity(b, prices);
    if n == 0 {
      assert Metrics.MaxDrawdown(e) == 0.0 && LargestRecorded(b.curve) == 0.0;
      assert Metrics.Peak(f) == f[0];
    }
    TodayDrawdown(r.curve);
    forall k | 0 <= k < |r.curve|
      ensures DrawdownTold(r.curve, k)
    {
      if k < n {
        EarlierDrawdown(b.curve, r.curve, k);
      }
    }
  }

  /** The state between days: `d` is the last day done and `c` its close; before the first day nothing has happened. */
  ghost predicate RunState(run: Run, capital: real, b: Book, d: int, c: real) {
    && Invariant(run, capital, b, d, c)
    && GoodCurve(capital, b)
    && (if |b.curve| == 0 then b == Start(capital)
        else b.curve[|b.curve| - 1].equity == Worth(b, c) && b.curve[|b.curve| - 1].date == d)
    && (capital >= 0.0 ==> Metrics.NonNegative(Metrics.Equities(b.curve)) && CashNeverNegative(b.curve))
  }

  ghost predicate CashNeverNegative(curve: seq<Snapshot>) {
    forall i :: 0 <= i < |curve| ==> curve[i].cash >= 0.0
  }

  ghost predicate HasBar(df: seq<Bar>, d: int) {
    |Window(df, d)| > 0 && Window(df, d)[|Window(df, d)| - 1].date == d
  }

  ghost function CloseOn(df: seq<Bar>, d: int): real
    requires HasBar(df, d)
  {
    var w := Window(df, d);
    w[|w| - 1].close
  }

  lemma RecordedWorth(run: Run, b: Book, d: int, c: real)
    requires GoodBook(run, b)
    ensures var r := Recorded(b, d, map[run.symbol := c]);
            && |r.curve| == |b.curve| + 1 && r.curve[..|b.curve|] == b.curve
            && r.curve[|b.curve|].equity == Worth(b, c) && r.curve[|b.curve|].date == d
               && r.curve[|b.curve|].cash == b.cash
            && r.holdings == b.holdings && r.cash == b.cash && r.trades == b.trades
  {
    hide DrawdownPct;
    WorthIsEquity(run, b, c);
  }

  lemma WorthNonNegative(run: Run, b: Book, c: real)
    requires GoodBook(run, b) && b.cash >= 0.0 && c > 0.0
    ensures Worth(b, c) >= 0.0
  {
    Arith.ProductSign(Shares(b) as real, c);
  }

  /** One day of the loop: the state is kept, and equity moves by the shares held overnight. */
  lemma DayKeeps(run: Run, df: seq<Bar>, capital: real, b: Book, d0: int, c0: real, d: int)
    requires RunState(run, capital, b, d0, c0) && d0 <= d && HasBar(df, d)
    requires forall i :: 0 <= i < |df| ==> df[i].close > 0.0
    ensures GoodBook(run, b)
    ensures var r, c := Day(run, df, b, d), CloseOn(df, d);
            && RunState(run, capital, r, d, c)
            && |r.curve| == |b.curve| + 1 && r.curve[..|b.curve|] == b.curve
            && r.curve[|b.curve|].equity == Worth(b, c) && r.curve[|b.curve|].date == d
  {
    hide Invariant, Traded, Recorded, Worth, Window, Metrics.Peak, Metrics.MaxDrawdown, LargestRecorded;
    InvariantIsGood(run, capital, b, d0, c0);
    WindowCloses(df, d);
    var w, c := Window(df, d), CloseOn(df, d);
    var bar, ind := w[|w| - 1], run.strategy.indicators(w);
    var t := Traded(run, b, d, ind, bar);
    TradedKeeps(run, capital, b, d0, c0, d, ind, bar);
    TradedIsNeutral(run, b, d, ind, bar);
    TradedCurve(run, b, d, ind, bar);
    var prices := map[run.symbol := c];
    var r := Recorded(t, d, prices);
    assert r == Day(run, df, b, d);
    WorthIsEquity(run, t, c);
    if |b.curve| == 0 {
      StartWorth(capital, c);
    }
    RecordedKeepsCurve(capital, t, d, prices);
    RecordedWorth(run, t, d, c);
    SameHoldingsKeep(run, capital, t, r, d, c);
    WorthSame(t, r, c);
    if capital >= 0.0 {
      CashNonNegative(run, capital, t, d, c);
      WorthNonNegative(run, t, c);
      var e := Metrics.Equities(r.curve);
      forall i | 0 <= i < |e|
        ensures e[i] >= 0.0
      {
        if i < |b.curve| {
          assert r.curve[..|b.curve|][i] == r.curve[i];
          assert Metrics.Equities(b.curve)[i] >= 0.0;
        }
      }
      forall i | 0 <= i < |r.curve|
        ensures r.curve[i].cash >= 0.0
      {
        if i < |b.curve| {
          assert r.curve[..|b.curve|][i] == r.curve[i];
        }
      }
    }
  }

  lemma TradedCurve(run: Run, b: Book, d: int, ind: Indicators, bar: Bar)
    requires GoodBook(run, b) && bar.close > 0.0
    ensures Traded(run, b, d, ind, bar).curve == b.curve && Traded(run, b, d, ind, bar).peak == b.peak
  {
  }

  lemma StartWorth(capital: real, c: real)
    ensures Worth(Start(capital), c) == capital
  {
  }

  lemma SameHoldingsKeep(run: Run, capital: real, b: Book, r: Book, d: int, c: real)
    requires Invariant(run, capital, b, d, c)
    requires r.holdings == b.holdings && r.cash == b.cash && r.trades == b.trades
    ensures Invariant(run, capital, r, d, c)
  {
  }

  lemma WorthSame(b: Book, r: Book, c: real)
    requires r.holdings == b.holdings && r.cash == b.cash
    ensures Worth(r, c) == Worth(b, c)
  {
  }

  lemma CashNonNegative(run: Run, capital: real, b: Book, d: int, c: real)
    requires Invariant(run, capital, b, d, c) && capital >= 0.0
    ensures b.cash >= 0.0
  {
  }

  // ---------------------------------------------------------------- what the bars show

  /** On ascending dates the rows up to a day are a prefix. */
  lemma {:induction false} UptoIsPrefix(bars: seq<Bar>, d: int)
    requires Series(bars)
    ensures var n := |Upto(bars, d)|;
            && Upto(bars, d) == bars[..n]
            && (forall i :: 0 <= i < n ==> bars[i].date <= d)
            && (forall i :: n <= i < |bars| ==> bars[i].date > d)
  {
    if |bars| > 0 {
      var m := |bars| - 1;
      var before := bars[..m];
      UptoIsPrefix(before, d);
      var n := |Upto(before, d)|;
      assert forall i :: 0 <= i < m ==> before[i] == bars[i];
      assert before[..n] == bars[..n];
      assert n < m ==> before[m - 1].date > d;
      if bars[m].date <= d {
        assert n == m && bars == before + [bars[m]];
      }
    }
  }

  lemma UptoAt(bars: seq<Bar>, i: nat)
    requires Series(bars) && i < |bars|
    ensures Upto(bars, bars[i].date) == bars[..i + 1]
  {
    UptoIsPrefix(bars, bars[i].date);
    var n := |Upto(bars, bars[i].date)|;
    var here := bars[i];
    if i + 1 < |bars| {
      assert bars[i + 1].date > here.date;
    }
  }

  ghost predicate Scheduled(df: seq<Bar>, days: seq<int>) {
    Ascending(days) && forall i :: 0 <= i < |days| ==> HasBar(df, days[i])
  }

  ghost predicate HasDate(bars: seq<Bar>, d: int) {
    exists i :: 0 <= i < |bars| && bars[i].date == d
  }

  lemma HasDateAppend(bars: seq<Bar>, bar: Bar, d: int)
    ensures HasDate(bars + [bar], d) <==> HasDate(bars, d) || bar.date == d
  {
    var all := bars + [bar];
    if HasDate(bars, d) {
      var i :| 0 <= i < |bars| && bars[i].date == d;
      assert all[i].date == d;
    }
    assert all[|bars|] == bar;
  }

  lemma {:induction false} TradingDaysMember(df: seq<Bar>, start: int, end: int, d: int)
    ensures d in TradingDays(df, start, end) <==> start <= d <= end && HasDate(df, d)
  {
    if |df| > 0 {
      var m := |df| - 1;
      TradingDaysMember(df[..m], start, end, d);
      assert df == df[..m] + [df[m]];
      HasDateAppend(df[..m], df[m], d);
    }
  }

  lemma {:induction false} TradingDaysIncrease(df: seq<Bar>, start: int, end: int)
    requires Series(df)
    ensures Ascending(TradingDays(df, start, end))
  {
    if |df| > 0 {
      var m := |df| - 1;
      var before := TradingDays(df[..m], start, end);
      TradingDaysIncrease(df[..m], start, end);
      forall k | 0 <= k < |before|
        ensures before[k] < df[m].date
      {
        assert before[k] in before;
        TradingDaysMember(df[..m], start, end, before[k]);
        var i :| 0 <= i < m && df[..m][i].date == before[k];
        assert df[i].date == before[k];
      }
    }
  }

  lemma DatesHaveBars(df: seq<Bar>, i: nat)
    requires Series(df) && i < |df|
    ensures HasBar(df, df[i].date) && CloseOn(df, df[i].date) == df[i].close
  {
    UptoAt(df, i);
  }

  lemma TradingDaysAreScheduled(df: seq<Bar>, start: int, end: int)
    requires Series(df)
    ensures Scheduled(df, TradingDays(df, start, end))
  {
    TradingDaysIncrease(df, start, end);
    var days := TradingDays(df, start, end);
    forall k | 0 <= k < |days|
      ensures HasBar(df, days[k])
    {
      assert days[k] in days;
      TradingDaysMember(df, start, end, days[k]);
      var i :| 0 <= i < |df| && df[i].date == days[k];
      DatesHaveBars(df, i);
    }
  }

  lemma {:induction false} FindBarAt(bars: seq<Bar>, i: nat)
    requires Series(bars) && i < |bars|
    ensures FindBar(bars, bars[i].date) == Some(bars[i])
  {
    var m := |bars| - 1;
    if i < m {
      assert bars[..m][i] == bars[i];
      FindBarAt(bars[..m], i);
    }
  }

  /** The fetched frame is a slice of the table, so its rows are the table's rows. */
  lemma FetchedIsSlice(bars: seq<Bar>, asOf: int) returns (lo: nat, hi: nat)
    requires Series(bars)
    ensures lo <= hi <= |bars| && hi == |Upto(bars, asOf)| && Fetched(bars, asOf) == bars[lo..hi]
    ensures lo == if hi > FETCH_LIMIT then hi - FETCH_LIMIT else 0
    ensures Series(Fetched(bars, asOf))
  {
    UptoIsPrefix(bars, asOf);
    hi := |Upto(bars, asOf)|;
    lo := if hi > FETCH_LIMIT then hi - FETCH_LIMIT else 0;
    assert bars[..hi][lo..] == bars[lo..hi];
  }

  // ---------------------------------------------------------------- whole runs

  /** After any number of days the state is sound and the curve has one snapshot a day. */
  lemma {:induction false} DaysKeep(run: Run, df: seq<Bar>, days: seq<int>, capital: real)
    requires (forall i :: 0 <= i < |df| ==> df[i].close > 0.0) && Scheduled(df, days)
    ensures var b := Days(run, df, days, Start(capital));
            && |b.curve| == |days|
            && (forall i :: 0 <= i < |days| ==> b.curve[i].date == days[i])
            && (|days| == 0 ==> b == Start(capital))
            && (|days| > 0 ==> RunState(run, capital, b, days[|days| - 1], CloseOn(df, days[|days| - 1])))
  {
    hide RunState, HasBar, Window, Day;
    if |days| > 0 {
      var n := |days| - 1;
      assert Scheduled(df, days[..n]);
      DaysKeep(run, df, days[..n], capital);
      var b := Days(run, df, days[..n], Start(capital));
      assert HasBar(df, days[n]);
      if n == 0 {
        StartState(run, capital, days[n], 0.0);
        DayKeeps(run, df, capital, b, days[n], 0.0, days[n]);
      } else {
        assert days[..n][n - 1] == days[n - 1] < days[n];
        DayKeeps(run, df, capital, b, days[n - 1], CloseOn(df, days[n - 1]), days[n]);
      }
      var r := Day(run, df, b, days[n]);
      assert Days(run, df, days, Start(capital)) == r;
      forall i | 0 <= i < |days|
        ensures r.curve[i].date == days[i]
      {
        if i < n {
          assert r.curve[..n][i] == r.curve[i];
        }
      }
    }
  }

  lemma StartState(run: Run, capital: real, d: int, c: real)
    ensures RunState(run, capital, Start(capital), d, c)
  {
  }

  /** Each day only appends to the curve. */
  lemma {:induction false} CurvePrefix(run: Run, df: seq<Bar>, days: seq<int>, capital: real, k: nat)
    requires (forall i :: 0 <= i < |df| ==> df[i].close > 0.0) && Scheduled(df, days) && k <= |days|
    ensures |Days(run, df, days[..k], Start(capital)).curve| == k
    ensures |Days(run, df, days, Start(capital)).curve| == |days|
    ensures Days(run, df, days, Start(capital)).curve[..k] == Days(run, df, days[..k], Start(capital)).curve
  {
    hide Days, RunState, CloseOn, Window, HasBar;
    DaysKeep(run, df, days, capital);
    assert Scheduled(df, days[..k]);
    DaysKeep(run, df, days[..k], capital);
    if k == |days| {
      assert days[..k] == days;
    } else {
      var n := |days| - 1;
      assert Scheduled(df, days[..n]) && days[..n][..k] == days[..k];
      CurvePrefix(run, df, days[..n], capital, k);
      DaysKeep(run, df, days[..n], capital);
      LastDayAppends(run, df, days, capital);
      var r := Days(run, df, days, Start(capital)).curve;
      assert r[..n][..k] == r[..k];
    }
  }

  lemma LastDayAppends(run: Run, df: seq<Bar>, days: seq<int>, capital: real)
    requires (forall i :: 0 <= i < |df| ==> df[i].close > 0.0) && Scheduled(df, days) && |days| > 0
    ensures var n := |days| - 1;
            var b, r := Days(run, df, days[..n], Start(capital)), Days(run, df, days, Start(capital));
            && |b.curve| == n && |r.curve| == n + 1 && r.curve[..n] == b.curve
            && HasBar(df, days[n]) && r.curve[n].equity == Worth(b, CloseOn(df, days[n]))
  {
    hide RunState, HasBar, Window, Day, Worth;
    var n := |days| - 1;
    assert Scheduled(df, days[..n]);
    DaysKeep(run, df, days[..n], capital);
    var b := Days(run, df, days[..n], Start(capital));
    assert HasBar(df, days[n]);
    if n == 0 {
      StartState(run, capital, days[n], 0.0);
      DayKeeps(run, df, capital, b, days[n], 0.0, days[n]);
    } else {
      assert days[..n][n - 1] == days[n - 1] < days[n];
      DayKeeps(run, df, capital, b, days[n - 1], CloseOn(df, days[n - 1]), days[n]);
    }
  }

  /** Equity starts at the capital, and then moves each day by the shares held overnight times the change in close. */
  lemma EquityMovesByOvernightShares(run: Run, df: seq<Bar>, days: seq<int>, capital: real, k: nat)
    requires (forall i :: 0 <= i < |df| ==> df[i].close > 0.0) && Scheduled(df, days) && k < |days|
    ensures |Days(run, df, days, Start(capital)).curve| == |days|
    ensures HasBar(df, days[k]) && (k > 0 ==> HasBar(df, days[k - 1]))
    ensures var curve := Days(run, df, days, Start(capital)).curve;
            if k == 0 then curve[0].equity == capital
            else curve[k].equity - curve[k - 1].equity
                 == Shares(Days(run, df, days[..k], Start(capital))) as real
                    * (CloseOn(df, days[k]) - CloseOn(df, days[k - 1]))
  {
    hide Days, Window, HasBar, Invariant;
    var some := days[..k + 1];
    assert some[..k] == days[..k] && Scheduled(df, some) && Scheduled(df, days[..k]);
    CurvePrefix(run, df, days, capital, k + 1);
    LastDayAppends(run, df, some, capital);
    var b := Days(run, df, days[..k], Start(capital));
    DaysKeep(run, df, days[..k], capital);
    var curve := Days(run, df, days, Start(capital)).curve;
    var upto := Days(run, df, some, Start(capital)).curve;
    assert curve[..k + 1] == upto;
    assert curve[k] == upto[k];
    if k == 0 {
      StartWorth(capital, CloseOn(df, days[0]));
    } else {
      assert curve[k - 1] == upto[k - 1] && upto[..k][k - 1] == upto[k - 1];
      assert days[..k][k - 1] == days[k - 1];
      Arith.Distribute(CloseOn(df, days[k]), CloseOn(df, days[k - 1]), Shares(b) as real);
    }
  }

  lemma CloseOutKeeps(run: Run, capital: real, b: Book, d: int, c: real)
    requires RunState(run, capital, b, d, c) && c > 0.0 && |b.curve| > 0
    ensures GoodBook(run, b)
    ensures var r := CloseOut(run, b, d, c);
            && Invariant(run, capital, r, d, c) && |r.holdings| == 0 && r.curve == b.curve
            && r.cash == Worth(b, c)
  {
    hide Cost, CostBasis, Realized, GoodCurve, GoodLog, OpenAfterLog, Spans;
    if |b.holdings| > 0 {
      ExitKeeps(run, capital, b, d, c, "eod");
      assert IndexOf(b.holdings, b.holdings[0].symbol) == 0;
    }
  }

  /** The bar the end-of-data close reads is the bar of the last trading day. */
  lemma LastBarFound(bars: seq<Bar>, asOf: int, start: int)
    requires Series(bars)
    ensures var df := Fetched(bars, asOf);
            var days := TradingDays(df, start, asOf);
            && Scheduled(df, days)
            && (forall i :: 0 <= i < |df| ==> df[i].close > 0.0)
            && (forall k :: 0 <= k < |days| ==>
                  HasBar(df, days[k]) && FindBar(bars, days[k]).Some?
                  && FindBar(bars, days[k]).value.close == CloseOn(df, days[k]) > 0.0)
  {
    hide FindBar, HasBar, Window;
    var lo, hi := FetchedIsSlice(bars, asOf);
    var df := Fetched(bars, asOf);
    var days := TradingDays(df, start, asOf);
    TradingDaysAreScheduled(df, start, asOf);
    forall k | 0 <= k < |days|
      ensures HasBar(df, days[k]) && FindBar(bars, days[k]).Some?
      ensures FindBar(bars, days[k]).value.close == CloseOn(df, days[k]) > 0.0
    {
      assert days[k] in days;
      TradingDaysMember(df, start, asOf, days[k]);
      var i :| 0 <= i < |df| && df[i].date == days[k];
      DatesHaveBars(df, i);
      assert df[i] == bars[lo + i];
      FindBarAt(bars, lo + i);
    }
  }

  /** What a completed backtest reports. */
  ghost predicate SoundReport(capital: real, b: Book) {
    var e := Metrics.Equities(b.curve);
    && |b.holdings| == 0
    && |e| > 0 && e[0] == capital
    && b.cash == e[|e| - 1] == capital + Realized(b.trades)
    && (Metrics.ProfitFactor(b.trades) > 1.0 <==> b.cash > capital)
    && LargestRecorded(b.curve) == Metrics.MaxDrawdown(e)
    && (forall k :: 0 <= k < |e| ==> DrawdownTold(b.curve, k))
    && GoodLog(b.trades, b.curve[|e| - 1].date)
    && Ascending(Dates(b.curve))
    && (capital >= 0.0 ==> Metrics.NonNegative(e) && CashNeverNegative(b.curve) && b.cash >= 0.0)
  }

  function Dates(curve: seq<Snapshot>): (r: seq<int>)
    ensures |r| == |curve| && forall i :: 0 <= i < |r| ==> r[i] == curve[i].date
  {
    seq(|curve|, i requires 0 <= i < |curve| => curve[i].date)
  }

  /** Every completed backtest, for any strategy, sizing, bars and capital, reports soundly. */
  lemma BacktestIsSound(run: Run, bars: seq<Bar>, start: int, end: int, capital: real)
    requires Series(bars) && Backtest(run, bars, start, end, capital).Completed?
    ensures SoundReport(capital, Backtest(run, bars, start, end, capital).book)
  {
    var actualEnd := if end > bars[|bars| - 1].date then bars[|bars| - 1].date else end;
    var df := Fetched(bars, actualEnd);
    var days := TradingDays(df, start, actualEnd);
    LastBarFound(bars, actualEnd, start);
    LoopThenClose(run, df, days, capital);
  }

  lemma LoopThenClose(run: Run, df: seq<Bar>, days: seq<int>, capital: real)
    requires (forall i :: 0 <= i < |df| ==> df[i].close > 0.0) && Scheduled(df, days) && |days| > 0
    requires HasBar(df, days[|days| - 1]) && CloseOn(df, days[|days| - 1]) > 0.0
    ensures var b := Days(run, df, days, Start(capital));
            var d := days[|days| - 1];
            SoundReport(capital, CloseOut(run, b, d, CloseOn(df, d)))
  {
    hide Days, HasBar, CloseOn, CloseOut, Invariant, Metrics.ProfitFactor, Metrics.MaxDrawdown, LargestRecorded,
         Realized, CostBasis, GoodLog;
    var b, d := Days(run, df, days, Start(capital)), days[|days| - 1];
    var c := CloseOn(df, d);
    DaysKeep(run, df, days, capital);
    CloseOutKeeps(run, capital, b, d, c);
    var r := CloseOut(run, b, d, c);
    FlatBookAccounts(run, capital, r, d, c);
    Metrics.ProfitFactorAboveOneIff(r.trades);
    assert Dates(r.curve) == days;
    assert Ascending(days);
  }

  lemma FlatBookAccounts(run: Run, capital: real, b: Book, d: int, c: real)
    requires Invariant(run, capital, b, d, c) && |b.holdings| == 0
    ensures b.cash == capital + Realized(b.trades) && GoodLog(b.trades, d)
  {
  }

  /** With non-negative capital the largest drawdown recorded day by day is the worst drop between any two days, and
      within 0 and 100. */
  lemma RecordedDrawdownIsWorstPair(run: Run, bars: seq<Bar>, start: int, end: int, capital: real)
    returns (i: nat, j: nat)
    requires Series(bars) && Backtest(run, bars, start, end, capital).Completed? && capital >= 0.0
    ensures var curve := Backtest(run, bars, start, end, capital).book.curve;
            var e := Metrics.Equities(curve);
            && i <= j < |e| && DrawdownPct(e[i], e[j]) == LargestRecorded(curve)
            && (forall a, b :: 0 <= a <= b < |e| ==> DrawdownPct(e[a], e[b]) <= LargestRecorded(curve))
            && 0.0 <= LargestRecorded(curve) <= 100.0
  {
    hide Backtest, DrawdownPct, LargestRecorded, Metrics.MaxDrawdown, Metrics.PeakStarts, GoodLog, Metrics.ProfitFactor;
    BacktestIsSound(run, bars, start, end, capital);
    var e := Metrics.Equities(Backtest(run, bars, start, end, capital).book.curve);
    Metrics.NonNegativeStarts(e);
    i, j := Metrics.MaxDrawdownIsWorstPair(e);
  }
}
