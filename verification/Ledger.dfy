/** The values a backtest works on, and what each operation of the engine does to them. */
module Ledger {
  import opened Wrappers
  import Arith

  datatype Bar = Bar(date: int, open: real, high: real, low: real, close: real, volume: real)

  datatype Holding = Holding(symbol: string, shares: int, entryPrice: real, entryDate: int,
                             maxFavorablePct: real, maxAdversePct: real)

  datatype Trade = Trade(symbol: string, entryDate: int, entryPrice: real, exitDate: int, exitPrice: real,
                         shares: int, pnl: real, pnlPct: real, exitReason: string,
                         maxFavorablePct: real, maxAdversePct: real)

  datatype Snapshot = Snapshot(date: int, equity: real, cash: real, positionValue: real, drawdownPct: real)

  /** `holdings` lists the open positions in the order they were opened; no two share a symbol. */
  datatype Book = Book(cash: real, holdings: seq<Holding>, trades: seq<Trade>, curve: seq<Snapshot>, peak: real)

  function Max(a: real, b: real): real {
    if a >= b then a else b
  }

  function Min(a: real, b: real): real {
    if a <= b then a else b
  }

  function ReturnPct(entry: real, price: real): real
    requires entry != 0.0
  {
    (price - entry) / entry * 100.0
  }

  // ---------------------------------------------------------------- operations

  function IndexOf(hs: seq<Holding>, symbol: string): (i: int)
    ensures -1 <= i < |hs|
    ensures i >= 0 ==> hs[i].symbol == symbol
    ensures i == -1 <==> forall k :: 0 <= k < |hs| ==> hs[k].symbol != symbol
  {
    if |hs| == 0 then -1
    else if hs[|hs| - 1].symbol == symbol then |hs| - 1
    else IndexOf(hs[..|hs| - 1], symbol)
  }

  function Revalued(h: Holding, price: real): Holding
    requires h.entryPrice != 0.0
  {
    var r := ReturnPct(h.entryPrice, price);
    h.(maxFavorablePct := Max(h.maxFavorablePct, r), maxAdversePct := Min(h.maxAdversePct, r))
  }

  function RevaluedAll(hs: seq<Holding>, price: real): (r: seq<Holding>)
    requires forall i :: 0 <= i < |hs| ==> hs[i].entryPrice != 0.0
    ensures |r| == |hs|
    ensures forall i :: 0 <= i < |hs| ==> r[i] == Revalued(hs[i], price)
  {
    seq(|hs|, i requires 0 <= i < |hs| => Revalued(hs[i], price))
  }

  function TradeOf(h: Holding, date: int, price: real, reason: string): Trade
    requires h.entryPrice != 0.0
  {
    Trade(h.symbol, h.entryDate, h.entryPrice, date, price, h.shares,
          h.shares as real * price - h.shares as real * h.entryPrice, ReturnPct(h.entryPrice, price), reason,
          h.maxFavorablePct, h.maxAdversePct)
  }

  function Exited(b: Book, symbol: string, date: int, price: real, reason: string): Book
    requires forall i :: 0 <= i < |b.holdings| ==> b.holdings[i].entryPrice != 0.0
  {
    var i := IndexOf(b.holdings, symbol);
    if i < 0 then b
    else
      var h := b.holdings[i];
      b.(cash := b.cash + h.shares as real * price,
         holdings := b.holdings[..i] + b.holdings[i + 1..],
         trades := b.trades + [TradeOf(h, date, price, reason)])
  }

  function Opened(symbol: string, date: int, price: real, shares: int): Holding {
    Holding(symbol, shares, price, date, 0.0, 0.0)
  }

  /** Opening a symbol that is already held replaces its position, as a dictionary assignment does. */
  function Entered(b: Book, symbol: string, date: int, price: real, shares: int): Book {
    var i := IndexOf(b.holdings, symbol);
    var h := Opened(symbol, date, price, shares);
    b.(cash := b.cash - shares as real * price,
       holdings := if i < 0 then b.holdings + [h] else b.holdings[i := h])
  }

  function MarketValue(hs: seq<Holding>, prices: map<string, real>): real
    requires forall i :: 0 <= i < |hs| ==> hs[i].symbol in prices
  {
    if |hs| == 0 then 0.0
    else MarketValue(hs[..|hs| - 1], prices) + hs[|hs| - 1].shares as real * prices[hs[|hs| - 1].symbol]
  }

  function DrawdownPct(peak: real, equity: real): real {
    if peak > 0.0 then (peak - equity) / peak * 100.0 else 0.0
  }

  function Recorded(b: Book, date: int, prices: map<string, real>): Book
    requires forall i :: 0 <= i < |b.holdings| ==> b.holdings[i].symbol in prices
  {
    var value := MarketValue(b.holdings, prices);
    var equity := b.cash + value;
    var peak := Max(b.peak, equity);
    b.(peak := peak, curve := b.curve + [Snapshot(date, equity, b.cash, value, DrawdownPct(peak, equity))])
  }

  function PositionSize(cash: real, price: real, sizingMethod: string, sizeValue: real): int
    requires price != 0.0
  {
    var shares := if sizingMethod == "fixed_shares" then Arith.Truncate(sizeValue)
        else Arith.Truncate(sizeValue / price);
    if shares as real * price > cash then 0 else shares
  }

  // ---------------------------------------------------------------- conservation

  /** What the open positions cost. */
  function CostBasis(hs: seq<Holding>): real {
    if |hs| == 0 then 0.0 else CostBasis(hs[..|hs| - 1]) + Cost(hs[|hs| - 1])
  }

  function Cost(h: Holding): real {
    h.shares as real * h.entryPrice
  }

  function Realized(ts: seq<Trade>): real {
    if |ts| == 0 then 0.0 else Realized(ts[..|ts| - 1]) + ts[|ts| - 1].pnl
  }

  /** Cash plus the cost of what is held, less what closed trades made: the money paid in. */
  function PaidIn(b: Book): real {
    b.cash + CostBasis(b.holdings) - Realized(b.trades)
  }

  lemma {:induction false} CostBasisConcat(a: seq<Holding>, b: seq<Holding>)
    ensures CostBasis(a + b) == CostBasis(a) + CostBasis(b)
  {
    if |b| == 0 {
      assert a + b == a;
    } else {
      var n := |b| - 1;
      assert (a + b)[..|a + b| - 1] == a + b[..n];
      CostBasisConcat(a, b[..n]);
    }
  }

  lemma CostBasisAt(hs: seq<Holding>, i: nat)
    requires i < |hs|
    ensures CostBasis(hs) == CostBasis(hs[..i]) + Cost(hs[i]) + CostBasis(hs[i + 1..])
  {
    assert hs == hs[..i] + [hs[i]] + hs[i + 1..];
    CostBasisConcat(hs[..i] + [hs[i]], hs[i + 1..]);
    CostBasisConcat(hs[..i], [hs[i]]);
    assert [hs[i]][..0] == [];
  }

  /** Closing any position, at any price, conserves the money paid in. */
  lemma ExitConserves(b: Book, symbol: string, date: int, price: real, reason: string)
    requires forall i :: 0 <= i < |b.holdings| ==> b.holdings[i].entryPrice != 0.0
    ensures PaidIn(Exited(b, symbol, date, price, reason)) == PaidIn(b)
  {
    hide TradeOf, ReturnPct, Cost, CostBasis, IndexOf;
    var i := IndexOf(b.holdings, symbol);
    if i >= 0 {
      CostBasisAt(b.holdings, i);
      CostBasisConcat(b.holdings[..i], b.holdings[i + 1..]);
      var t := TradeOf(b.holdings[i], date, price, reason);
      PnlIsProceedsLessCost(b.holdings[i], date, price, reason);
      assert (b.trades + [t])[..|b.trades|] == b.trades;
    }
  }

  lemma PnlIsProceedsLessCost(h: Holding, date: int, price: real, reason: string)
    requires h.entryPrice != 0.0
    ensures TradeOf(h, date, price, reason).pnl == h.shares as real * price - Cost(h)
  {
  }

  /** Opening a position conserves the money paid in exactly when no position of non-zero cost is overwritten. */
  lemma EnterConservesIff(b: Book, symbol: string, date: int, price: real, shares: int)
    ensures var i := IndexOf(b.holdings, symbol);
            PaidIn(Entered(b, symbol, date, price, shares)) == PaidIn(b)
            <==> i < 0 || Cost(b.holdings[i]) == 0.0
  {
    hide IndexOf, CostBasis, Cost, Realized;
    var i := IndexOf(b.holdings, symbol);
    var h := Opened(symbol, date, price, shares);
    OpenedCost(symbol, date, price, shares);
    if i < 0 {
      CostBasisConcat(b.holdings, [h]);
      CostBasisOne(h);
    } else {
      var hs := b.holdings[i := h];
      CostBasisAt(b.holdings, i);
      CostBasisAt(hs, i);
      assert hs[..i] == b.holdings[..i] && hs[i + 1..] == b.holdings[i + 1..];
    }
  }

  lemma OpenedCost(symbol: string, date: int, price: real, shares: int)
    ensures Cost(Opened(symbol, date, price, shares)) == shares as real * price
  {
  }

  lemma CostBasisOne(h: Holding)
    ensures CostBasis([h]) == Cost(h)
  {
    assert [h][..0] == [];
  }

  function Equity(b: Book, prices: map<string, real>): real
    requires forall i :: 0 <= i < |b.holdings| ==> b.holdings[i].symbol in prices
  {
    b.cash + MarketValue(b.holdings, prices)
  }

  lemma {:induction false} MarketValueConcat(a: seq<Holding>, b: seq<Holding>, prices: map<string, real>)
    requires forall i :: 0 <= i < |a| ==> a[i].symbol in prices
    requires forall i :: 0 <= i < |b| ==> b[i].symbol in prices
    ensures MarketValue(a + b, prices) == MarketValue(a, prices) + MarketValue(b, prices)
  {
    if |b| == 0 {
      assert a + b == a;
    } else {
      var n := |b| - 1;
      assert (a + b)[..|a + b| - 1] == a + b[..n];
      MarketValueConcat(a, b[..n], prices);
    }
  }

  /** Selling at the price that values the position leaves equity unchanged. */
  lemma ExitIsEquityNeutral(b: Book, symbol: string, date: int, price: real, reason: string, prices: map<string, real>)
    requires forall i :: 0 <= i < |b.holdings| ==> b.holdings[i].entryPrice != 0.0 && b.holdings[i].symbol in prices
    requires symbol in prices && prices[symbol] == price
    ensures var e := Exited(b, symbol, date, price, reason);
            (forall i :: 0 <= i < |e.holdings| ==> e.holdings[i].symbol in prices)
            && Equity(e, prices) == Equity(b, prices)
  {
    hide TradeOf, ReturnPct, MarketValue, IndexOf;
    var i := IndexOf(b.holdings, symbol);
    if i >= 0 {
      MarketValueWithout(b.holdings, i, prices);
    }
  }

  lemma MarketValueWithout(hs: seq<Holding>, i: nat, prices: map<string, real>)
    requires i < |hs| && forall k :: 0 <= k < |hs| ==> hs[k].symbol in prices
    ensures MarketValue(hs[..i] + hs[i + 1..], prices) + hs[i].shares as real * prices[hs[i].symbol]
         == MarketValue(hs, prices)
  {
    hide MarketValue;
    assert hs == hs[..i] + [hs[i]] + hs[i + 1..];
    MarketValueConcat(hs[..i] + [hs[i]], hs[i + 1..], prices);
    MarketValueConcat(hs[..i], [hs[i]], prices);
    MarketValueConcat(hs[..i], hs[i + 1..], prices);
    MarketValueOne(hs[i], prices);
  }

  lemma MarketValueOne(h: Holding, prices: map<string, real>)
    requires h.symbol in prices
    ensures MarketValue([h], prices) == h.shares as real * prices[h.symbol]
  {
    assert [h][..0] == [];
  }

  /** Buying a symbol that is not held, at the price that values it, leaves equity unchanged. */
  lemma EnterIsEquityNeutral(b: Book, symbol: string, date: int, price: real, shares: int, prices: map<string, real>)
    requires forall i :: 0 <= i < |b.holdings| ==> b.holdings[i].symbol in prices && b.holdings[i].symbol != symbol
    requires symbol in prices && prices[symbol] == price
    ensures var e := Entered(b, symbol, date, price, shares);
            (forall i :: 0 <= i < |e.holdings| ==> e.holdings[i].symbol in prices)
            && Equity(e, prices) == Equity(b, prices)
  {
    var h := Opened(symbol, date, price, shares);
    hide MarketValue;
    MarketValueConcat(b.holdings, [h], prices);
    MarketValueOne(h, prices);
  }

  /** A size is affordable, and a negative size value buys nothing. In shares it is the whole part of the size value,
      in dollars the largest whole number of shares within the budget, unless cash is short. */
  lemma SizeIsLargestAffordable(cash: real, price: real, sizingMethod: string, sizeValue: real)
    requires price > 0.0
    ensures var n := PositionSize(cash, price, sizingMethod, sizeValue);
            && (n > 0 ==> n as real * price <= cash)
            && (sizeValue < 0.0 ==> n <= 0)
            && (sizingMethod == "fixed_shares" && sizeValue >= 0.0 ==>
                  var k := sizeValue.Floor;
                  n == if k as real * price <= cash then k else 0)
            && (sizingMethod != "fixed_shares" && sizeValue >= 0.0 ==>
                  var k := (sizeValue / price).Floor;
                  && k as real * price <= sizeValue < (k + 1) as real * price
                  && n == if k as real * price <= cash then k else 0)
  {
    var q := sizeValue / price;
    Arith.QuotientTimes(sizeValue, price);
    if sizeValue >= 0.0 {
      var k := q.Floor;
      Arith.CancelOrder(0.0, q, price);
      BudgetBounds(k as real, q, (k + 1) as real, price, sizeValue);
    } else {
      Arith.CancelStrict(q, 0.0, price);
    }
  }

  lemma BudgetBounds(k: real, q: real, next: real, price: real, budget: real)
    requires price > 0.0 && k <= q < next && q * price == budget
    ensures k * price <= budget < next * price
  {
    Arith.MultiplyOrder(k, q, price);
    Arith.MultiplyOrder(q, next, price);
  }
}
