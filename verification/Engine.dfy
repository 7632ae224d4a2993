/** The backtest engine: a portfolio updated in place, trade by trade and day by day. */
module Engine {
  import opened Wrappers
  import opened Ledger
  import opened Replay
  import opened Discipline

  /** An open position; its excursions are the only part that changes. */
  class Position {
    const symbol: string
    const shares: int
    const entryPrice: real
    const entryDate: int
    var maxFavorablePct: real
    var maxAdversePct: real

    constructor (symbol: string, shares: int, entryPrice: real, entryDate: int)
      ensures View() == Opened(symbol, entryDate, entryPrice, shares)
    {
      this.symbol, this.shares, this.entryPrice, this.entryDate := symbol, shares, entryPrice, entryDate;
      maxFavorablePct, maxAdversePct := 0.0, 0.0;
    }

    function View(): Holding
      reads this
    {
      Holding(symbol, shares, entryPrice, entryDate, maxFavorablePct, maxAdversePct)
    }

    method UpdateExcursions(currentPrice: real)
      requires entryPrice != 0.0
      modifies this
      ensures View() == Revalued(old(View()), currentPrice)
    {
      var returnPct := (currentPrice - entryPrice) / entryPrice * 100.0;
      maxFavorablePct := Max(maxFavorablePct, returnPct);
      maxAdversePct := Min(maxAdversePct, returnPct);
    }

    /** The record of closing this position. */
    method ToTrade(date: int, price: real, reason: string) returns (t: Trade)
      requires entryPrice != 0.0
      ensures t == TradeOf(View(), date, price, reason)
    {
      var proceeds := shares as real * price;
      var pnl := proceeds - shares as real * entryPrice;
      var pnlPct := (price - entryPrice) / entryPrice * 100.0;
      t := Trade(symbol, entryDate, entryPrice, date, price, shares, pnl, pnlPct, reason,
                 maxFavorablePct, maxAdversePct);
    }
  }

  ghost function Views(ps: seq<Position>): (hs: seq<Holding>)
    reads ps
    ensures |hs| == |ps|
    ensures forall i :: 0 <= i < |ps| ==> hs[i] == ps[i].View()
  {
    if |ps| == 0 then [] else Views(ps[..|ps| - 1]) + [ps[|ps| - 1].View()]
  }

  ghost predicate Separate(ps: seq<Position>) {
    forall i, j :: 0 <= i < j < |ps| ==> ps[i] != ps[j] && ps[i].symbol != ps[j].symbol
  }

  class BacktestState {
    var cash: real
    var positions: seq<Position>
    var trades: seq<Trade>
    var equityCurve: seq<Snapshot>
    var peakEquity: real

    /** No position object is shared and no symbol is held twice. */
    ghost predicate Valid()
      reads this
    {
      Separate(positions)
    }

    ghost function Value(): Book
      reads this, positions
    {
      Book(cash, Views(positions), trades, equityCurve, peakEquity)
    }

    constructor (capital: real)
      ensures Valid() && Value() == Start(capital) && positions == []
    {
      cash, peakEquity := capital, capital;
      positions, trades, equityCurve := [], [], [];
    }

    method IndexOfSymbol(symbol: string) returns (i: int)
      requires Valid()
      ensures -1 <= i < |positions| && i == IndexOf(Value().holdings, symbol)
    {
      i := |positions| - 1;
      ghost var hs := Views(positions);
      while i >= 0 && positions[i].symbol != symbol
        invariant -1 <= i < |positions|
        invariant IndexOf(hs, symbol) == IndexOf(hs[..i + 1], symbol)
      {
        assert hs[..i + 1][..i] == hs[..i];
        i := i - 1;
      }
      if i >= 0 {
        assert hs[..i + 1][i].symbol == symbol;
      }
    }

    method HasPosition(symbol: string) returns (held: bool)
      requires Valid()
      ensures held <==> exists k :: 0 <= k < |positions| && positions[k].symbol == symbol
    {
      var i := IndexOfSymbol(symbol);
      held := i >= 0;
      assert forall k :: 0 <= k < |positions| ==> Value().holdings[k].symbol == positions[k].symbol;
    }

    method UpdateAllExcursions(price: real)
      requires Valid() && forall p :: p in positions ==> p.entryPrice != 0.0
      modifies positions
      ensures Valid()
      ensures Value() == old(Value()).(holdings := RevaluedAll(old(Value()).holdings, price))
    {
      ghost var before := Views(positions);
      for i := 0 to |positions|
        invariant forall k :: 0 <= k < i ==> positions[k].View() == Revalued(before[k], price)
        invariant forall k :: i <= k < |positions| ==> positions[k].View() == before[k]
      {
        positions[i].UpdateExcursions(price);
      }
      assert Views(positions) == RevaluedAll(before, price);
    }

    method PositionValue(prices: map<string, real>) returns (value: real)
      requires Valid() && forall p :: p in positions ==> p.symbol in prices
      ensures (forall i :: 0 <= i < |Value().holdings| ==> Value().holdings[i].symbol in prices)
              && value == MarketValue(Value().holdings, prices)
    {
      ghost var hs := Views(positions);
      value := 0.0;
      for i := 0 to |positions|
        invariant forall k :: 0 <= k < |hs| ==> hs[k].symbol in prices
        invariant value == MarketValue(hs[..i], prices)
      {
        assert hs[..i + 1][..i] == hs[..i];
        value := value + positions[i].shares as real * prices[positions[i].symbol];
      }
      assert hs[..|hs|] == hs;
    }

    method RecordEquitySnapshot(date: int, prices: map<string, real>)
      requires Valid() && forall p :: p in positions ==> p.symbol in prices
      modifies this
      ensures Valid() && positions == old(positions)
      ensures (forall i :: 0 <= i < |old(Value()).holdings| ==> old(Value()).holdings[i].symbol in prices)
              && Value() == Recorded(old(Value()), date, prices)
    {
      var positionValue := PositionValue(prices);
      var equity := cash + positionValue;
      peakEquity := Max(peakEquity, equity);
      var drawdownPct := if peakEquity > 0.0 then (peakEquity - equity) / peakEquity * 100.0 else 0.0;
      equityCurve := equityCurve + [Snapshot(date, equity, cash, positionValue, drawdownPct)];
    }
  }

  method EnterTrade(state: BacktestState, symbol: string, date: int, price: real, shares: int)
    requires state.Valid()
    modifies state
    ensures state.Valid()
    ensures state.Value() == Entered(old(state.Value()), symbol, date, price, shares)
    ensures forall p :: p in state.positions ==> p in old(state.positions) || fresh(p)
  {
    hide IndexOf, Views;
    ghost var before := Views(state.positions);
    state.cash := state.cash - shares as real * price;
    var position := new Position(symbol, shares, price, date);
    var i := state.IndexOfSymbol(symbol);
    if i < 0 {
      assert forall k :: 0 <= k < |before| ==> before[k].symbol == state.positions[k].symbol;
      state.positions := state.positions + [position];
    } else {
      state.positions := state.positions[i := position];
    }
    assert Views(state.positions) == if i < 0 then before + [position.View()] else before[i := position.View()];
  }

  lemma ViewsWithout(ps: seq<Position>, i: nat)
    requires i < |ps|
    ensures Views(ps[..i] + ps[i + 1..]) == Views(ps)[..i] + Views(ps)[i + 1..]
  {
    hide *;
    var some, views := ps[..i] + ps[i + 1..], Views(ps);
    var a, b := Views(some), views[..i] + views[i + 1..];
    assert |some| == |ps| - 1 && |views| == |ps|;
    forall k | 0 <= k < |some|
      ensures a[k] == b[k]
    {
      var j := if k < i then k else k + 1;
      assert some[k] == ps[j] && b[k] == views[j];
    }
  }

  lemma SeparateWithout(ps: seq<Position>, i: nat)
    requires i < |ps| && Separate(ps)
    ensures Separate(ps[..i] + ps[i + 1..])
    ensures forall p :: p in ps[..i] + ps[i + 1..] ==> p in ps
  {
    var r := ps[..i] + ps[i + 1..];
    assert forall k :: 0 <= k < |r| ==> r[k] == if k < i then ps[k] else ps[k + 1];
  }

  method ExitTrade(state: BacktestState, symbol: string, date: int, price: real, reason: string)
    returns (trade: Option<Trade>)
    requires state.Valid() && forall p :: p in state.positions ==> p.entryPrice != 0.0
    modifies state
    ensures state.Valid()
    ensures (forall i :: 0 <= i < |old(state.Value()).holdings| ==> old(state.Value()).holdings[i].entryPrice != 0.0)
            && state.Value() == Exited(old(state.Value()), symbol, date, price, reason)
    ensures trade == if IndexOf(old(state.Value()).holdings, symbol) < 0 then None
                     else Some(state.trades[|state.trades| - 1])
    ensures forall p :: p in state.positions ==> p in old(state.positions)
  {
    hide IndexOf, Views, TradeOf, Separate;
    ghost var before, ps := Views(state.positions), state.positions;
    assert forall k :: 0 <= k < |ps| ==> before[k].entryPrice == ps[k].entryPrice && ps[k] in ps;
    var i := state.IndexOfSymbol(symbol);
    if i < 0 {
      return None;
    }
    ViewsWithout(ps, i);
    SeparateWithout(ps, i);
    var position := state.positions[i];
    state.positions := state.positions[..i] + state.positions[i + 1..];
    state.cash := state.cash + position.shares as real * price;
    var t := position.ToTrade(date, price, reason);
    state.trades := state.trades + [t];
    trade := Some(t);
  }

  /** One day of the loop: excursions, exits, entry, snapshot. */
  method TradeDay(state: BacktestState, run: Run, df: seq<Bar>, date: int)
    requires state.Valid() && GoodBook(run, state.Value())
    requires forall i :: 0 <= i < |df| ==> df[i].close > 0.0
    modifies state, state.positions
    ensures state.Valid()
    ensures state.Value() == Day(run, df, old(state.Value()), date)
    ensures HasBar(df, date) ==> DayFollowed(run, old(state.Value()), SightOn(run, df, date), state.Value())
    ensures forall p :: p in state.positions ==> p in old(state.positions) || fresh(p)
  {
    hide Views, Window, Traded, DayDone, SnapshotTaken, HasBar, SightOn;
    ghost var b := state.Value();
    if HasBar(df, date) {
      DayIsDone(run, df, b, date);
    }
    var w := Window(df, date);
    if |w| == 0 {
      return;
    }
    WindowCloses(df, date);
    var bar := w[|w| - 1];
    TradeAtClose(state, run, date, run.strategy.indicators(w), bar);
    SameSymbols(run, state.positions);
    state.RecordEquitySnapshot(date, map[run.symbol := bar.close]);
  }

  /** A day done as the strategy asked, and told by its snapshot. */
  ghost predicate DayFollowed(run: Run, b: Book, s: Sight, r: Book)
    requires GoodBook(run, b)
  {
    s.bar.close > 0.0 && DayDone(run, b, s, r) && SnapshotTaken(b, s, r)
  }

  lemma SameSymbols(run: Run, ps: seq<Position>)
    requires forall i :: 0 <= i < |Views(ps)| ==> GoodHolding(run, Views(ps)[i])
    ensures forall p :: p in ps ==> p.symbol == run.symbol && p.entryPrice > 0.0
  {
    forall p | p in ps
      ensures p.symbol == run.symbol && p.entryPrice > 0.0
    {
      var k :| 0 <= k < |ps| && ps[k] == p;
      assert GoodHolding(run, Views(ps)[k]);
    }
  }

  method TradeAtClose(state: BacktestState, run: Run, date: int, indicators: Indicators, bar: Bar)
    requires state.Valid() && GoodBook(run, state.Value()) && bar.close > 0.0
    modifies state, state.positions
    ensures state.Valid()
    ensures state.Value() == Traded(run, old(state.Value()), date, indicators, bar)
    ensures forall p :: p in state.positions ==> p in old(state.positions) || fresh(p)
  {
    hide Views, ExitIfAsked, EnterIfAsked;
    SameSymbols(run, state.positions);
    state.UpdateAllExcursions(bar.close);
    CheckExits(state, run, date, indicators, bar);
    CheckEntry(state, run, date, indicators, bar);
  }

  /** Every held symbol is offered to the strategy's exit rule. */
  method CheckExits(state: BacktestState, run: Run, date: int, indicators: Indicators, bar: Bar)
    requires state.Valid() && GoodBook(run, state.Value())
    modifies state
    ensures state.Valid()
    ensures state.Value() == ExitIfAsked(run, old(state.Value()), date, indicators, bar)
    ensures forall p :: p in state.positions ==> p in old(state.positions)
  {
    hide Views;
    ghost var b := state.Value();
    var keys := state.positions;
    assert forall k :: 0 <= k < |keys| ==> b.holdings[k] == keys[k].View();
    for i := 0 to |keys|
      invariant state.Valid()
      invariant i == 0 ==> state.Value() == b && state.positions == keys
      invariant i == 1 ==> state.Value() == ExitIfAsked(run, b, date, indicators, bar)
      invariant forall p :: p in state.positions ==> p in keys
    {
      var position := keys[i];
      var (shouldExit, exitReason) := run.strategy.shouldExit(position.View(), date, indicators, bar);
      if shouldExit {
        var _ := ExitTrade(state, position.symbol, date, bar.close, exitReason);
      }
    }
  }

  method CheckEntry(state: BacktestState, run: Run, date: int, indicators: Indicators, bar: Bar)
    requires state.Valid() && GoodBook(run, state.Value()) && bar.close > 0.0
    modifies state
    ensures state.Valid()
    ensures state.Value() == EnterIfAsked(run, old(state.Value()), date, indicators, bar)
    ensures forall p :: p in state.positions ==> p in old(state.positions) || fresh(p)
  {
    var i := state.IndexOfSymbol(run.symbol);
    if i < 0 && run.strategy.shouldEnter(run.symbol, date, indicators, bar) {
      var shares := PositionSize(state.cash, bar.close, run.sizingMethod, run.sizeValue);
      if shares > 0 {
        EnterTrade(state, run.symbol, date, bar.close, shares);
      }
    }
  }

  /** The engine, run on the bars of one symbol, leaves the book that `Backtest` describes. */
  method ReplayBacktest(run: Run, bars: seq<Bar>, start: int, end: int, capital: real)
    returns (failure: Option<Failure>, state: BacktestState?)
    requires Series(bars)
    ensures failure.None? <==> state != null
    ensures state != null ==> fresh(state) && state.Valid()
    ensures Backtest(run, bars, start, end, capital)
         == if state == null then Failed(failure.value) else Completed(state.Value())
    ensures state != null ==> exists first, sights, stays ::
              RowsShown(run, bars, start, end, first, sights)
              && Follows(run, capital, sights, state.trades, state.equityCurve, stays)
  {
    hide Views, Upto, TradingDays, FindBar, Day, DayFollowed, Follows, RowsShown;
    if |bars| == 0 {
      return Some(InsufficientData), null;
    }
    var dataMin, dataMax := bars[0].date, bars[|bars| - 1].date;
    var actualStart := if start < dataMin then dataMin else start;
    var actualEnd := if end > dataMax then dataMax else end;
    if actualStart >= actualEnd || dataMin > actualStart - INDICATOR_LOOKBACK_DAYS {
      return Some(InsufficientData), null;
    }
    var df := Fetched(bars, actualEnd);
    FetchedCloses(bars, actualEnd);
    var tradingDays := TradingDays(df, actualStart, actualEnd);
    if |tradingDays| == 0 {
      return Some(NoTradingData), null;
    }
    var st := new BacktestState(capital);
    for i := 0 to |tradingDays|
      invariant st.Valid() && st.Value() == Days(run, df, tradingDays[..i], Start(capital))
      invariant fresh(st) && forall p :: p in st.positions ==> fresh(p)
    {
      assert forall k :: 0 <= k < |st.positions| ==> st.positions[k] in st.positions;
      assert tradingDays[..i + 1][..i] == tradingDays[..i];
      TradeDay(st, run, df, tradingDays[i]);
    }
    assert tradingDays[..|tradingDays|] == tradingDays;
    var finalDate := tradingDays[|tradingDays| - 1];
    var finalBar := FindBar(bars, finalDate);
    if finalBar.Some? {
      CloseAll(st, run, finalDate, finalBar.value.close);
    }
    failure, state := None, st;
    ghost var first, sights, stays := StrategyIsFollowed(run, bars, start, end, capital);
  }

  /** Close whatever is still open at the end of the data. */
  method CloseAll(state: BacktestState, run: Run, date: int, price: real)
    requires state.Valid() && GoodBook(run, state.Value())
    modifies state
    ensures state.Valid()
    ensures state.Value() == CloseOut(run, old(state.Value()), date, price)
  {
    hide Views;
    ghost var b := state.Value();
    var keys := state.positions;
    assert forall k :: 0 <= k < |keys| ==> b.holdings[k] == keys[k].View();
    for i := 0 to |keys|
      invariant state.Valid()
      invariant i == 0 ==> state.Value() == b && state.positions == keys
      invariant i == 1 ==> state.Value() == CloseOut(run, b, date, price)
    {
      var _ := ExitTrade(state, keys[i].symbol, date, price, "eod");
    }
  }
}
