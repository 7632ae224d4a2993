/** Every completed backtest trades exactly when its strategy says so, told from its trades and snapshots alone. */
module Discipline {
  import opened Wrappers
  import opened Ledger
  import opened Replay
  import opened Calendar
  import LookAhead
  import Arith

  /** What the strategy is shown on one traded day. */
  datatype Sight = Sight(date: int, bar: Bar, indicators: Indicators)

  /** A position held over the snapshots `enter` to `leave - 1`; one still open has `leave` at the number of days. */
  datatype Stay = Stay(enter: nat, leave: nat, shares: int)

  predicate Wants(run: Run, s: Sight) {
    run.strategy.shouldEnter(run.symbol, s.date, s.indicators, s.bar)
  }

  function Verdict(run: Run, h: Holding, s: Sight): (bool, string) {
    run.strategy.shouldExit(h, s.date, s.indicators, s.bar)
  }

  function Size(run: Run, cash: real, s: Sight): int
    requires s.bar.close != 0.0
  {
    PositionSize(cash, s.bar.close, run.sizingMethod, run.sizeValue)
  }

  // ---------------------------------------------------------------- one day

  /** The book after a day that ends with nothing held before its entry and this much cash. */
  ghost predicate Opens(run: Run, cash: real, s: Sight, r: Book)
    requires s.bar.close > 0.0
  {
    var n, c := Size(run, cash, s), s.bar.close;
    if Wants(run, s) && n > 0 then
      r.holdings == [Holding(run.symbol, n, c, s.date, 0.0, 0.0)] && r.cash == cash - n as real * c
    else r.holdings == [] && r.cash == cash
  }

  /** A position held in the morning is sold at the close exactly when the strategy, shown it revalued, says so; a
      position is bought exactly when none is held then, the strategy wants one and it can be afforded. */
  ghost predicate DayDone(run: Run, b: Book, s: Sight, r: Book)
    requires GoodBook(run, b) && s.bar.close > 0.0
  {
    var c := s.bar.close;
    if |b.holdings| == 0 then r.trades == b.trades && Opens(run, b.cash, s, r)
    else
      var h := Revalued(b.holdings[0], c);
      if Verdict(run, h, s).0 then
        && r.trades == b.trades + [TradeOf(h, s.date, c, Verdict(run, h, s).1)]
        && Opens(run, b.cash + h.shares as real * c, s, r)
      else r.trades == b.trades && r.holdings == [h] && r.cash == b.cash
  }

  ghost predicate SnapshotTaken(b: Book, s: Sight, r: Book) {
    && |r.curve| == |b.curve| + 1 && r.curve[..|b.curve|] == b.curve
    && var now := r.curve[|b.curve|];
    && now.date == s.date && now.cash == r.cash
    && now.positionValue == Shares(r) as real * s.bar.close
    && now.equity == r.cash + now.positionValue
  }

  lemma ExitDone(run: Run, b: Book, s: Sight)
    requires GoodBook(run, b) && s.bar.close > 0.0
    ensures var r := ExitIfAsked(run, b, s.date, s.indicators, s.bar);
            if |b.holdings| == 0 || !Verdict(run, b.holdings[0], s).0 then r == b
            else
              && r.holdings == [] && r.cash == b.cash + b.holdings[0].shares as real * s.bar.close
              && r.trades == b.trades + [TradeOf(b.holdings[0], s.date, s.bar.close, Verdict(run, b.holdings[0], s).1)]
  {
    hide TradeOf;
    if |b.holdings| == 1 {
      assert IndexOf(b.holdings, b.holdings[0].symbol) == 0;
    }
  }

  lemma EntryDone(run: Run, b: Book, s: Sight)
    requires GoodBook(run, b) && s.bar.close > 0.0
    ensures var r := EnterIfAsked(run, b, s.date, s.indicators, s.bar);
            && r.trades == b.trades
            && if |b.holdings| == 0 then Opens(run, b.cash, s, r) else r == b
  {
    hide PositionSize;
    NoHoldingIffAbsent(run, b);
  }

  lemma TradingDone(run: Run, b: Book, s: Sight)
    requires GoodBook(run, b) && s.bar.close > 0.0
    ensures var r := Traded(run, b, s.date, s.indicators, s.bar);
            DayDone(run, b, s, r) && r.curve == b.curve
  {
    hide ExitIfAsked, EnterIfAsked, TradeOf, Revalued, Opens;
    var b1 := Revaluation(run, b, s.bar.close);
    ExitDone(run, b1, s);
    EntryDone(run, ExitIfAsked(run, b1, s.date, s.indicators, s.bar), s);
    TradedCurve(run, b, s.date, s.indicators, s.bar);
    if |b.holdings| == 1 {
      assert b1.holdings == [b1.holdings[0]];
    }
  }

  ghost function SightOn(run: Run, df: seq<Bar>, d: int): Sight
    requires HasBar(df, d)
  {
    var w := Window(df, d);
    Sight(d, w[|w| - 1], run.strategy.indicators(w))
  }

  /** One pass of the loop on a day with a bar. */
  lemma DayIsDone(run: Run, df: seq<Bar>, b: Book, d: int)
    requires GoodBook(run, b) && (forall i :: 0 <= i < |df| ==> df[i].close > 0.0) && HasBar(df, d)
    ensures SightOn(run, df, d).bar.close > 0.0
    ensures DayDone(run, b, SightOn(run, df, d), Day(run, df, b, d))
    ensures SnapshotTaken(b, SightOn(run, df, d), Day(run, df, b, d))
  {
    hide Window, Traded, TradeOf, Revalued, Recorded;
    WindowCloses(df, d);
    var s := SightOn(run, df, d);
    var t := Traded(run, b, d, s.indicators, s.bar);
    TradingDone(run, b, s);
    RecordedWorth(run, t, d, s.bar.close);
    RecordedValue(run, t, d, s.bar.close);
  }

  lemma RecordedValue(run: Run, b: Book, d: int, c: real)
    requires GoodBook(run, b)
    ensures var r := Recorded(b, d, map[run.symbol := c]);
            |r.curve| == |b.curve| + 1 && r.curve[|b.curve|].positionValue == Shares(b) as real * c
  {
    hide DrawdownPct;
    WorthIsEquity(run, b, c);
  }

  // ---------------------------------------------------------------- what a run must look like

  ghost predicate Priced(sights: seq<Sight>) {
    forall k :: 0 <= k < |sights| ==> sights[k].bar.close > 0.0
  }

  /** The best return since the entry on day `i`, seen at the closes of the days after it up to `m`. */
  function Best(sights: seq<Sight>, i: nat, m: nat): real
    requires i <= m < |sights| && sights[i].bar.close != 0.0
  {
    if m == i then 0.0 else Max(Best(sights, i, m - 1), ReturnPct(sights[i].bar.close, sights[m].bar.close))
  }

  function Worst(sights: seq<Sight>, i: nat, m: nat): real
    requires i <= m < |sights| && sights[i].bar.close != 0.0
  {
    if m == i then 0.0 else Min(Worst(sights, i, m - 1), ReturnPct(sights[i].bar.close, sights[m].bar.close))
  }

  /** What is held at the close of day `m` of `shares` bought on day `i`. */
  function Held(run: Run, sights: seq<Sight>, i: nat, shares: int, m: nat): Holding
    requires i <= m < |sights| && sights[i].bar.close != 0.0
  {
    Holding(run.symbol, shares, sights[i].bar.close, sights[i].date, Best(sights, i, m), Worst(sights, i, m))
  }

  /** What the strategy answers on day `m` to the position of this stay. */
  function Answer(run: Run, sights: seq<Sight>, stay: Stay, m: nat): (bool, string)
    requires stay.enter <= m < |sights| && sights[stay.enter].bar.close != 0.0
  {
    Verdict(run, Held(run, sights, stay.enter, stay.shares, m), sights[m])
  }

  ghost predicate Holds(stay: Stay, k: nat) {
    stay.enter <= k < stay.leave
  }

  /** Bought on a day the strategy wanted it, in the size its rule gives for the cash before the purchase, and kept
      for as long as the strategy does not say otherwise. */
  ghost predicate Proper(run: Run, sights: seq<Sight>, curve: seq<Snapshot>, stay: Stay)
    requires Priced(sights)
  {
    && stay.enter < stay.leave <= |curve| <= |sights| && stay.shares > 0
    && var s := sights[stay.enter];
    && Wants(run, s)
    && stay.shares == Size(run, curve[stay.enter].cash + stay.shares as real * s.bar.close, s)
    && forall m :: stay.enter < m < stay.leave ==> !Answer(run, sights, stay, m).0
  }

  /** The record of selling this stay's shares at the close of day `m`. */
  ghost predicate Tells(run: Run, sights: seq<Sight>, stay: Stay, m: nat, reason: string, t: Trade)
    requires Priced(sights) && stay.enter <= m < |sights|
  {
    && t.symbol == run.symbol && t.shares == stay.shares
    && t.entryDate == sights[stay.enter].date && t.entryPrice == sights[stay.enter].bar.close
    && t.exitDate == sights[m].date && t.exitPrice == sights[m].bar.close && t.exitReason == reason
    && t.pnl == stay.shares as real * t.exitPrice - stay.shares as real * t.entryPrice
    && t.pnlPct * t.entryPrice == (t.exitPrice - t.entryPrice) * 100.0
    && t.maxFavorablePct == Best(sights, stay.enter, m) && t.maxAdversePct == Worst(sights, stay.enter, m)
  }

  /** Sold on the day the strategy said so, with its reason. */
  ghost predicate SoldWhenAsked(run: Run, sights: seq<Sight>, stay: Stay, t: Trade)
    requires Priced(sights)
  {
    && stay.enter < stay.leave < |sights|
    && Answer(run, sights, stay, stay.leave).0
    && Tells(run, sights, stay, stay.leave, Answer(run, sights, stay, stay.leave).1, t)
  }

  ghost predicate InOrder(stays: seq<Stay>) {
    forall i, j :: 0 <= i < j < |stays| ==> stays[i].leave <= stays[j].enter
  }

  ghost predicate Idle(stays: seq<Stay>, k: nat) {
    forall i :: 0 <= i < |stays| ==> !Holds(stays[i], k)
  }

  /** A snapshot values exactly what is held; where nothing is, the strategy did not want or could not afford it. */
  ghost predicate Shows(run: Run, s: Sight, now: Snapshot, stays: seq<Stay>, k: nat)
    requires s.bar.close > 0.0
  {
    && now.date == s.date && now.equity == now.cash + now.positionValue
    && (forall i :: 0 <= i < |stays| && Holds(stays[i], k) ==>
          now.positionValue == stays[i].shares as real * s.bar.close)
    && (Idle(stays, k) ==> now.positionValue == 0.0 && !(Wants(run, s) && Size(run, now.cash, s) > 0))
  }

  /** What is held over a night earns its shares times the change in close, and nothing else moves equity. */
  ghost predicate Earns(sights: seq<Sight>, curve: seq<Snapshot>, stays: seq<Stay>, k: nat)
    requires 0 < k < |curve| <= |sights|
  {
    var change := curve[k].equity - curve[k - 1].equity;
    && (forall i :: 0 <= i < |stays| && Holds(stays[i], k - 1) ==>
          change == stays[i].shares as real * (sights[k].bar.close - sights[k - 1].bar.close))
    && (Idle(stays, k - 1) ==> change == 0.0)
  }

  ghost predicate CurveTells(run: Run, capital: real, sights: seq<Sight>, curve: seq<Snapshot>, stays: seq<Stay>)
    requires Priced(sights)
  {
    && |curve| <= |sights|
    && (forall k :: 0 <= k < |curve| ==> Shows(run, sights[k], curve[k], stays, k))
    && (|curve| > 0 ==> curve[0].equity == capital)
    && (forall k :: 0 < k < |curve| ==> Earns(sights, curve, stays, k))
  }

  /** A finished run: every stay is told by one trade. All but one that lasts to the end are sold when the strategy
      says so, and that one is sold at the last close. */
  ghost predicate Follows(run: Run, capital: real, sights: seq<Sight>, trades: seq<Trade>, curve: seq<Snapshot>,
                          stays: seq<Stay>)
  {
    && Priced(sights) && |curve| == |sights| && |trades| == |stays| && InOrder(stays)
    && (forall n :: 0 <= n < |stays| ==> Proper(run, sights, curve, stays[n]))
    && (forall n :: 0 <= n < |stays| && stays[n].leave < |sights| ==> SoldWhenAsked(run, sights, stays[n], trades[n]))
    && (forall n :: 0 <= n < |stays| && stays[n].leave == |sights| ==>
          Tells(run, sights, stays[n], |sights| - 1, "eod", trades[n]))
    && CurveTells(run, capital, sights, curve, stays)
  }

  /** The excursions a position carries are the extremes of zero and its returns at the closes since its entry. */
  lemma {:induction false} ExcursionsAreExtremes(sights: seq<Sight>, i: nat, m: nat)
    requires Priced(sights) && i <= m < |sights|
    ensures var entry, best, worst := sights[i].bar.close, Best(sights, i, m), Worst(sights, i, m);
            && worst <= 0.0 <= best
            && (forall k :: i < k <= m ==> worst <= ReturnPct(entry, sights[k].bar.close) <= best)
            && (best == 0.0 || exists k :: i < k <= m && ReturnPct(entry, sights[k].bar.close) == best)
            && (worst == 0.0 || exists k :: i < k <= m && ReturnPct(entry, sights[k].bar.close) == worst)
  {
    hide ReturnPct;
    if m > i {
      ExcursionsAreExtremes(sights, i, m - 1);
    }
  }

  // ---------------------------------------------------------------- the loop follows the strategy

  /** The book after the first days: every stay but the one still open is told by a trade. */
  ghost predicate Positions(run: Run, sights: seq<Sight>, b: Book, stays: seq<Stay>) {
    var k := |b.curve|;
    && Priced(sights) && GoodBook(run, b) && k <= |sights| && InOrder(stays)
    && |stays| == |b.trades| + |b.holdings|
    && (forall n :: 0 <= n < |stays| ==> Proper(run, sights, b.curve, stays[n]))
    && (forall n :: 0 <= n < |b.trades| ==> stays[n].leave < k && SoldWhenAsked(run, sights, stays[n], b.trades[n]))
    && (|b.holdings| > 0 ==> IsOpen(run, sights, b, stays[|stays| - 1]))
  }

  ghost predicate IsOpen(run: Run, sights: seq<Sight>, b: Book, stay: Stay)
    requires Priced(sights) && |b.curve| <= |sights|
  {
    && stay.enter < stay.leave == |b.curve|
    && b.holdings == [Held(run, sights, stay.enter, stay.shares, |b.curve| - 1)]
  }

  ghost predicate Followed(run: Run, capital: real, sights: seq<Sight>, b: Book, stays: seq<Stay>) {
    Positions(run, sights, b, stays) && CurveTells(run, capital, sights, b.curve, stays)
  }

  /** Nothing is changed about the days before `k`. */
  ghost predicate SamePast(stays: seq<Stay>, after: seq<Stay>, k: nat) {
    && |stays| <= |after|
    && (forall i :: 0 <= i < |stays| ==>
          after[i].enter == stays[i].enter && after[i].shares == stays[i].shares
          && (after[i].leave == stays[i].leave || after[i].leave > stays[i].leave == k))
    && (forall i :: |stays| <= i < |after| ==> after[i].enter >= k)
  }

  /** How the stays go on after a day: the open one lasts a day more unless it is sold, and a purchase starts one. */
  ghost function NextStays(b: Book, stays: seq<Stay>, r: Book): seq<Stay>
    requires |b.holdings| > 0 ==> |stays| > 0
  {
    var k := |b.curve|;
    var kept := |b.holdings| > 0 && |r.trades| == |b.trades|;
    var mid := if kept then stays[|stays| - 1 := stays[|stays| - 1].(leave := k + 1)] else stays;
    if |r.holdings| > 0 && !kept then mid + [Stay(k, k + 1, r.holdings[0].shares)] else mid
  }

  lemma NextSamePast(run: Run, sights: seq<Sight>, b: Book, stays: seq<Stay>, r: Book)
    requires Positions(run, sights, b, stays)
    ensures SamePast(stays, NextStays(b, stays, r), |b.curve|)
  {
    hide Proper, SoldWhenAsked;
  }

  /** A stay that has begun is judged by the days behind it. */
  lemma ProperLater(run: Run, sights: seq<Sight>, b: Book, r: Book, stay: Stay)
    requires Priced(sights) && Proper(run, sights, b.curve, stay)
    requires b.curve <= r.curve && |r.curve| <= |sights|
    ensures Proper(run, sights, r.curve, stay)
  {
    hide Answer, Wants, Size;
  }

  /** The open position as the strategy is shown it today. */
  lemma OpenRevalued(run: Run, sights: seq<Sight>, b: Book, stay: Stay, s: Sight)
    requires Priced(sights) && |b.curve| < |sights| && s == sights[|b.curve|]
    requires IsOpen(run, sights, b, stay) && GoodBook(run, b)
    ensures Revalued(b.holdings[0], s.bar.close) == Held(run, sights, stay.enter, stay.shares, |b.curve|)
    ensures Verdict(run, Revalued(b.holdings[0], s.bar.close), s) == Answer(run, sights, stay, |b.curve|)
  {
    hide ReturnPct;
  }

  lemma SaleTells(run: Run, sights: seq<Sight>, stay: Stay, m: nat, reason: string)
    requires Priced(sights) && stay.enter <= m < |sights|
    ensures Tells(run, sights, stay, m, reason,
                  TradeOf(Held(run, sights, stay.enter, stay.shares, m), sights[m].date, sights[m].bar.close, reason))
  {
    hide Best, Worst, ReturnPct;
    ReturnTimesEntry(sights[stay.enter].bar.close, sights[m].bar.close);
  }

  lemma ReturnTimesEntry(entry: real, price: real)
    requires entry != 0.0
    ensures ReturnPct(entry, price) * entry == (price - entry) * 100.0
  {
    Arith.QuotientTimes(price - entry, entry);
  }

  /** A stay that begins today. */
  lemma Begins(run: Run, b: Book, cash: real, sights: seq<Sight>, r: Book)
    requires Priced(sights) && |b.curve| < |sights| && |r.holdings| > 0
    requires Opens(run, cash, sights[|b.curve|], r) && SnapshotTaken(b, sights[|b.curve|], r)
    ensures var stay := Stay(|b.curve|, |b.curve| + 1, r.holdings[0].shares);
            Proper(run, sights, r.curve, stay) && IsOpen(run, sights, r, stay)
  {
    hide PositionSize;
  }

  /** Nothing was held, or what was held is sold. */
  lemma AfterFlat(run: Run, sights: seq<Sight>, b: Book, stays: seq<Stay>, r: Book, cash: real)
    requires Positions(run, sights, b, stays) && |b.curve| < |sights|
    requires GoodBook(run, r) && SnapshotTaken(b, sights[|b.curve|], r) && Opens(run, cash, sights[|b.curve|], r)
    requires |r.trades| == |stays| && b.trades <= r.trades
    requires forall n :: |b.trades| <= n < |stays| ==> SoldWhenAsked(run, sights, stays[n], r.trades[n])
    requires |b.holdings| > 0 ==> |r.trades| > |b.trades|
    ensures Positions(run, sights, r, NextStays(b, stays, r))
  {
    hide Proper, SoldWhenAsked, Opens;
    var k, s, next := |b.curve|, sights[|b.curve|], NextStays(b, stays, r);
    forall n | 0 <= n < |stays|
      ensures stays[n].leave <= k && Proper(run, sights, r.curve, stays[n])
    {
      ProperLater(run, sights, b, r, stays[n]);
    }
    if |r.holdings| > 0 {
      Begins(run, b, cash, sights, r);
    }
  }

  /** What is held is kept. */
  lemma AfterHolding(run: Run, sights: seq<Sight>, b: Book, stays: seq<Stay>, r: Book)
    requires Positions(run, sights, b, stays) && |b.curve| < |sights| && |b.holdings| > 0
    requires GoodBook(run, r) && SnapshotTaken(b, sights[|b.curve|], r)
    requires r.trades == b.trades && r.holdings == [Revalued(b.holdings[0], sights[|b.curve|].bar.close)]
    requires !Verdict(run, Revalued(b.holdings[0], sights[|b.curve|].bar.close), sights[|b.curve|]).0
    ensures Positions(run, sights, r, NextStays(b, stays, r))
  {
    hide SoldWhenAsked, Revalued, Held, Verdict, Size, Wants;
    var k, last := |b.curve|, |stays| - 1;
    var open := stays[last];
    OpenRevalued(run, sights, b, open, sights[k]);
    var next := NextStays(b, stays, r);
    forall n | 0 <= n < |stays|
      ensures Proper(run, sights, r.curve, next[n])
    {
      ProperLater(run, sights, b, r, stays[n]);
      if n == last {
        ProperLonger(run, sights, r, open);
      }
    }
  }

  lemma ProperLonger(run: Run, sights: seq<Sight>, r: Book, stay: Stay)
    requires Priced(sights) && Proper(run, sights, r.curve, stay) && stay.leave < |r.curve| <= |sights|
    requires !Answer(run, sights, stay, stay.leave).0
    ensures Proper(run, sights, r.curve, stay.(leave := stay.leave + 1))
  {
    hide Size, Wants, Held, Verdict;
    var longer := stay.(leave := stay.leave + 1);
    forall m | longer.enter < m < longer.leave
      ensures !Answer(run, sights, longer, m).0
    {
      assert Answer(run, sights, longer, m) == Answer(run, sights, stay, m);
    }
  }

  lemma DayKeepsPositions(run: Run, sights: seq<Sight>, b: Book, stays: seq<Stay>, r: Book)
    requires Positions(run, sights, b, stays) && |b.curve| < |sights| && GoodBook(run, r)
    requires DayDone(run, b, sights[|b.curve|], r) && SnapshotTaken(b, sights[|b.curve|], r)
    ensures Positions(run, sights, r, NextStays(b, stays, r))
  {
    hide Proper, Opens, TradeOf, Revalued, Held, Tells, Verdict;
    var k, s := |b.curve|, sights[|b.curve|];
    if |b.holdings| == 0 {
      AfterFlat(run, sights, b, stays, r, b.cash);
    } else {
      var open, h := stays[|stays| - 1], Revalued(b.holdings[0], s.bar.close);
      OpenRevalued(run, sights, b, open, s);
      if Verdict(run, h, s).0 {
        SaleTells(run, sights, open, k, Verdict(run, h, s).1);
        assert SoldWhenAsked(run, sights, open, r.trades[|b.trades|]);
        AfterFlat(run, sights, b, stays, r, b.cash + h.shares as real * s.bar.close);
      } else {
        AfterHolding(run, sights, b, stays, r);
      }
    }
  }

  // ---------------------------------------------------------------- the curve tells what is held

  /** On day `k` exactly this many shares are held. */
  ghost predicate Overnight(stays: seq<Stay>, k: nat, shares: int) {
    && (forall i :: 0 <= i < |stays| && Holds(stays[i], k) ==> stays[i].shares == shares)
    && (Idle(stays, k) ==> shares == 0)
  }

  lemma LastNight(run: Run, sights: seq<Sight>, b: Book, stays: seq<Stay>)
    requires Positions(run, sights, b, stays) && |b.curve| > 0
    ensures Overnight(stays, |b.curve| - 1, Shares(b))
  {
    hide SoldWhenAsked;
    if |b.holdings| > 0 {
      assert Holds(stays[|stays| - 1], |b.curve| - 1);
    }
  }

  lemma PastShows(run: Run, s: Sight, now: Snapshot, stays: seq<Stay>, after: seq<Stay>, k: nat, j: nat)
    requires s.bar.close > 0.0 && SamePast(stays, after, k) && j < k && Shows(run, s, now, stays, j)
    ensures Shows(run, s, now, after, j)
  {
    hide Wants, Size;
    forall i | 0 <= i < |stays|
      ensures Holds(after[i], j) <==> Holds(stays[i], j)
    {
    }
  }

  lemma PastEarns(sights: seq<Sight>, curve: seq<Snapshot>, longer: seq<Snapshot>, stays: seq<Stay>, after: seq<Stay>,
                  k: nat, j: nat)
    requires 0 < j < |curve| <= |sights| && curve <= longer && |longer| <= |sights| && j <= k
    requires SamePast(stays, after, k) && Earns(sights, curve, stays, j)
    ensures Earns(sights, longer, after, j)
  {
    forall i | 0 <= i < |stays|
      ensures Holds(after[i], j - 1) <==> Holds(stays[i], j - 1)
    {
    }
  }

  /** Today's snapshot. */
  lemma TodayShows(run: Run, sights: seq<Sight>, b: Book, r: Book, next: seq<Stay>)
    requires Priced(sights) && GoodBook(run, b) && |b.curve| < |sights|
    requires DayDone(run, b, sights[|b.curve|], r) && SnapshotTaken(b, sights[|b.curve|], r)
    requires Overnight(next, |b.curve|, Shares(r)) && GoodBook(run, r)
    ensures Shows(run, sights[|b.curve|], r.curve[|b.curve|], next, |b.curve|)
  {
    hide TradeOf, PositionSize, Wants;
    var s := sights[|b.curve|];
    if Idle(next, |b.curve|) {
      assert |r.holdings| == 0;
      assert exists cash :: Opens(run, cash, s, r) by {
        if |b.holdings| == 0 {
          assert Opens(run, b.cash, s, r);
        } else {
          var h := Revalued(b.holdings[0], s.bar.close);
          assert Verdict(run, h, s).0 ==> Opens(run, b.cash + h.shares as real * s.bar.close, s, r);
          assert !Verdict(run, h, s).0 ==> r.holdings == [h];
        }
      }
    }
  }

  /** What was held over the night earns today's change in close. */
  lemma TodayEarns(sights: seq<Sight>, b: Book, stays: seq<Stay>, next: seq<Stay>, curve: seq<Snapshot>)
    requires 0 < |b.curve| < |sights| && |curve| == |b.curve| + 1 && curve[..|b.curve|] == b.curve
    requires curve[|b.curve| - 1].equity == Worth(b, sights[|b.curve| - 1].bar.close)
    requires curve[|b.curve|].equity == Worth(b, sights[|b.curve|].bar.close)
    requires SamePast(stays, next, |b.curve|) && Overnight(stays, |b.curve| - 1, Shares(b))
    ensures Earns(sights, curve, next, |b.curve|)
  {
    var k := |b.curve|;
    forall i | 0 <= i < |stays|
      ensures Holds(next[i], k - 1) <==> Holds(stays[i], k - 1)
    {
    }
    Arith.Distribute(sights[k].bar.close, sights[k - 1].bar.close, Shares(b) as real);
  }

  lemma PositionsArePriced(run: Run, sights: seq<Sight>, b: Book, stays: seq<Stay>)
    requires Positions(run, sights, b, stays)
    ensures Priced(sights) && GoodBook(run, b) && (|b.holdings| > 0 ==> |stays| > 0)
  {
  }

  /** One more day of a run that has followed the strategy so far. */
  lemma DayFollows(run: Run, capital: real, sights: seq<Sight>, b: Book, stays: seq<Stay>, r: Book)
    returns (next: seq<Stay>)
    requires Followed(run, capital, sights, b, stays) && |b.curve| < |sights| && GoodBook(run, r)
    requires DayDone(run, b, sights[|b.curve|], r) && SnapshotTaken(b, sights[|b.curve|], r)
    requires r.curve[|b.curve|].equity == Worth(b, sights[|b.curve|].bar.close)
    requires if |b.curve| == 0 then r.curve[0].equity == capital
             else r.curve[|b.curve| - 1].equity == Worth(b, sights[|b.curve| - 1].bar.close)
    ensures Followed(run, capital, sights, r, next)
  {
    hide Positions, DayDone, Shows, Earns, Worth, NextStays, SamePast, Overnight;
    var k := |b.curve|;
    PositionsArePriced(run, sights, b, stays);
    next := NextStays(b, stays, r);
    NextSamePast(run, sights, b, stays, r);
    DayKeepsPositions(run, sights, b, stays, r);
    LastNight(run, sights, r, next);
    TodayShows(run, sights, b, r, next);
    if k > 0 {
      LastNight(run, sights, b, stays);
      TodayEarns(sights, b, stays, next, r.curve);
    }
    forall j | 0 <= j < |r.curve|
      ensures Shows(run, sights[j], r.curve[j], next, j)
    {
      if j < k {
        assert r.curve[..k][j] == r.curve[j];
        PastShows(run, sights[j], b.curve[j], stays, next, k, j);
      }
    }
    forall j | 0 < j < |r.curve|
      ensures Earns(sights, r.curve, next, j)
    {
      if j < k {
        PastEarns(sights, b.curve, r.curve, stays, next, k, j);
      }
    }
  }

  // ---------------------------------------------------------------- whole runs

  ghost predicate AllSights(run: Run, df: seq<Bar>, days: seq<int>, sights: seq<Sight>) {
    && |sights| == |days|
    && forall k :: 0 <= k < |days| ==> HasBar(df, days[k]) && sights[k] == SightOn(run, df, days[k])
  }

  lemma SightsArePriced(run: Run, df: seq<Bar>, days: seq<int>, sights: seq<Sight>)
    requires AllSights(run, df, days, sights) && forall i :: 0 <= i < |df| ==> df[i].close > 0.0
    ensures Priced(sights)
    ensures forall k :: 0 <= k < |days| ==> sights[k].bar.close == CloseOn(df, days[k])
  {
    hide Window;
    forall k | 0 <= k < |days|
      ensures sights[k].bar.close == CloseOn(df, days[k]) > 0.0
    {
      WindowCloses(df, days[k]);
    }
  }

  lemma StartFollows(run: Run, capital: real, sights: seq<Sight>)
    requires Priced(sights)
    ensures Followed(run, capital, sights, Start(capital), [])
  {
  }

  /** The loop follows the strategy on every day it passes. */
  lemma {:induction false} LoopFollows(run: Run, df: seq<Bar>, days: seq<int>, capital: real, sights: seq<Sight>,
                                       k: nat) returns (stays: seq<Stay>)
    requires (forall i :: 0 <= i < |df| ==> df[i].close > 0.0) && Scheduled(df, days)
    requires AllSights(run, df, days, sights) && k <= |days|
    ensures |Days(run, df, days[..k], Start(capital)).curve| == k
    ensures Followed(run, capital, sights, Days(run, df, days[..k], Start(capital)), stays)
  {
    hide Day, Window, HasBar, RunState, Followed, SightOn, DayDone, Worth;
    SightsArePriced(run, df, days, sights);
    var some := days[..k];
    assert Scheduled(df, some);
    DaysKeep(run, df, some, capital);
    if k == 0 {
      stays := [];
      StartFollows(run, capital, sights);
    } else {
      var before := LoopFollows(run, df, days, capital, sights, k - 1);
      assert some[..k - 1] == days[..k - 1] && Scheduled(df, some[..k - 1]);
      var b := Days(run, df, some[..k - 1], Start(capital));
      var r := Days(run, df, some, Start(capital));
      assert r == Day(run, df, b, days[k - 1]) && HasBar(df, days[k - 1]);
      DayIsDone(run, df, b, days[k - 1]);
      LastDayAppends(run, df, some, capital);
      DaysKeep(run, df, some[..k - 1], capital);
      if k == 1 {
        StartWorth(capital, CloseOn(df, days[0]));
      } else {
        LastEquity(run, capital, b, days[k - 2], CloseOn(df, days[k - 2]));
        assert r.curve[..k - 1][k - 2] == r.curve[k - 2];
      }
      stays := DayFollows(run, capital, sights, b, before, r);
    }
  }

  lemma LastEquity(run: Run, capital: real, b: Book, d: int, c: real)
    requires RunState(run, capital, b, d, c) && |b.curve| > 0
    ensures b.curve[|b.curve| - 1].equity == Worth(b, c)
  {
  }

  /** Closing what is left after the last day. */
  lemma CloseFollows(run: Run, capital: real, sights: seq<Sight>, b: Book, stays: seq<Stay>, d: int, price: real)
    requires Followed(run, capital, sights, b, stays) && |b.curve| == |sights| > 0
    requires d == sights[|sights| - 1].date && price == sights[|sights| - 1].bar.close
    ensures GoodBook(run, b)
    ensures var r := CloseOut(run, b, d, price); Follows(run, capital, sights, r.trades, r.curve, stays)
  {
    hide Tells, Held, TradeOf, CurveTells, Answer;
    var r := CloseOut(run, b, d, price);
    if |b.holdings| > 0 {
      var open := stays[|stays| - 1];
      assert IndexOf(b.holdings, b.holdings[0].symbol) == 0;
      SaleTells(run, sights, open, |sights| - 1, "eod");
      assert r.trades == b.trades + [TradeOf(b.holdings[0], d, price, "eod")];
    }
  }

  // ---------------------------------------------------------------- the completed backtest

  function LargestOf(a: int, b: int, c: int): (m: nat)
    requires a >= 0
    ensures m >= a && m >= b && m >= c && (m == a || m == b || m == c)
  {
    if a >= b && a >= c then a else if b >= c then b else c
  }

  /** What the strategy is shown on the day of row `i` when `hi` rows are dated no later than the request's end: the
      row and at most 300 rows that end with it, of the last 10000. */
  ghost predicate RowShown(run: Run, bars: seq<Bar>, hi: nat, i: nat, s: Sight) {
    && i < hi <= |bars|
    && var lo := LargestOf(0, i - 299, hi - 10000);
    && lo <= i
    && s == Sight(bars[i].date, bars[i], run.strategy.indicators(bars[lo..i + 1]))
  }

  /** A request is served from the rows of the table from its start to its end, but for those with 10000 or more of
      the rows up to its end behind them. */
  ghost predicate RowsShown(run: Run, bars: seq<Bar>, start: int, end: int, first: nat, sights: seq<Sight>) {
    && 0 < |sights| && RowsServed(bars, start, end, first, |sights|)
    && forall k :: 0 <= k < |sights| ==> RowShown(run, bars, first + |sights|, first + k, sights[k])
  }

  ghost predicate RowsServed(bars: seq<Bar>, start: int, end: int, first: nat, n: nat) {
    var hi := first + n;
    && hi <= |bars|
    && (forall i :: 0 <= i < |bars| ==> (bars[i].date <= end <==> i < hi))
    && (forall i :: 0 <= i < hi ==> (bars[i].date >= start && hi - i <= 10000 <==> first <= i))
  }

  /** When the rows from a start on are the last ones, the days from that start are their dates. */
  lemma {:induction false} TradingDaysFrom(df: seq<Bar>, start: int, end: int, n: nat)
    requires n <= |df| && forall i :: 0 <= i < |df| ==> df[i].date <= end && (df[i].date >= start <==> n <= i)
    ensures |TradingDays(df, start, end)| == |df| - n
    ensures forall k :: 0 <= k < |df| - n ==> TradingDays(df, start, end)[k] == df[n + k].date
  {
    if |df| > 0 {
      var m := |df| - 1;
      TradingDaysFrom(df[..m], start, end, if n < m then n else m);
    }
  }

  lemma TradingDaysAreLast(df: seq<Bar>, start: int, end: int) returns (n: nat)
    requires Series(df) && forall i :: 0 <= i < |df| ==> df[i].date <= end
    ensures n <= |df| && |TradingDays(df, start, end)| == |df| - n
    ensures forall i :: 0 <= i < |df| ==> (df[i].date >= start <==> n <= i)
    ensures forall k :: 0 <= k < |df| - n ==> TradingDays(df, start, end)[k] == df[n + k].date
  {
    hide TradingDays, Upto;
    UptoIsPrefix(df, start - 1);
    n := |Upto(df, start - 1)|;
    TradingDaysFrom(df, start, end, n);
  }

  /** The days of a request are the dates of neighbouring rows. */
  lemma RequestRows(bars: seq<Bar>, start: int, end: int, asOf: int) returns (first: nat)
    requires Series(bars) && |bars| > 0 && asOf == if end > bars[|bars| - 1].date then bars[|bars| - 1].date else end
    ensures var days := TradingDays(Fetched(bars, asOf), start, asOf);
            var hi := first + |days|;
            && hi == |Upto(bars, asOf)| <= |bars| && LookAhead.Skipped(bars, asOf) <= first
            && RowsServed(bars, start, end, first, |days|)
            && (forall k :: 0 <= k < |days| ==> days[k] == bars[first + k].date)
  {
    hide Upto, Fetched, TradingDays;
    var df := Fetched(bars, asOf);
    var lo, hi := FetchedIsSlice(bars, asOf);
    UptoIsPrefix(bars, asOf);
    var n := TradingDaysAreLast(df, start, asOf);
    first := lo + n;
    forall i | 0 <= i < |bars|
      ensures bars[i].date <= end <==> i < hi
    {
      assert bars[i].date <= bars[|bars| - 1].date;
    }
    forall i | 0 <= i < hi
      ensures bars[i].date >= start && hi - i <= 10000 <==> first <= i
    {
      if lo <= i {
        assert df[i - lo] == bars[i];
      }
    }
  }

  /** What each day of a request is shown. */
  lemma RequestSights(run: Run, bars: seq<Bar>, start: int, end: int, asOf: int)
    returns (first: nat, sights: seq<Sight>)
    requires Series(bars) && |bars| > 0 && asOf == if end > bars[|bars| - 1].date then bars[|bars| - 1].date else end
    requires |TradingDays(Fetched(bars, asOf), start, asOf)| > 0
    ensures RowsShown(run, bars, start, end, first, sights)
    ensures AllSights(run, Fetched(bars, asOf), TradingDays(Fetched(bars, asOf), start, asOf), sights)
  {
    hide Upto, Fetched, TradingDays, HasBar, SightOn, LookAhead.Skipped, RowShown, RowsServed;
    var df := Fetched(bars, asOf);
    var days := TradingDays(df, start, asOf);
    first := RequestRows(bars, start, end, asOf);
    LastBarFound(bars, asOf, start);
    var hi := first + |days|;
    assert forall k :: 0 <= k < |days| ==> HasBar(df, days[k]);
    sights := seq(|days|, k requires 0 <= k < |days| && HasBar(df, days[k]) => SightOn(run, df, days[k]));
    forall k | 0 <= k < |sights|
      ensures RowShown(run, bars, hi, first + k, sights[k])
    {
      var d := days[k];
      assert HasBar(df, d);
      RowIsShown(run, bars, asOf, first + k);
    }
  }

  lemma RowIsShown(run: Run, bars: seq<Bar>, asOf: int, i: nat)
    requires Series(bars) && LookAhead.Skipped(bars, asOf) <= i < |Upto(bars, asOf)| <= |bars|
    requires HasBar(Fetched(bars, asOf), bars[i].date)
    ensures RowShown(run, bars, |Upto(bars, asOf)|, i, SightOn(run, Fetched(bars, asOf), bars[i].date))
  {
    hide Upto, Fetched, Window;
    LookAhead.WindowAt(bars, asOf, i);
  }

  /** A request is served exactly when the table reaches a year behind its start, its start is before its end and
      before the last row, and a row lies between the two. Without such a row there is nothing to trade on; otherwise
      what fails is the reach of the data. */
  lemma CompletedIff(run: Run, bars: seq<Bar>, start: int, end: int, capital: real)
    requires Series(bars)
    ensures var r := Backtest(run, bars, start, end, capital);
            var reaches := |bars| > 0 && bars[0].date + 365 <= start < end && start < bars[|bars| - 1].date;
            var within := exists i :: 0 <= i < |bars| && start <= bars[i].date <= end;
            && (r.Completed? <==> reaches && within)
            && (r == Failed(NoTradingData) <==> reaches && !within)
            && (r == Failed(InsufficientData) <==> !reaches)
  {
    hide Days, CloseOut, FindBar, TradingDays, Fetched, Upto;
    if |bars| > 0 && bars[0].date + 365 <= start < end && start < bars[|bars| - 1].date {
      var asOf := if end > bars[|bars| - 1].date then bars[|bars| - 1].date else end;
      var lo, hi := FetchedIsSlice(bars, asOf);
      UptoIsPrefix(bars, asOf);
      var df := Fetched(bars, asOf);
      var n := TradingDaysAreLast(df, start, asOf);
      if i :| 0 <= i < |bars| && start <= bars[i].date <= end {
        assert i < hi && bars[hi - 1].date >= bars[i].date;
        assert df[|df| - 1] == bars[hi - 1];
      }
      if n < |df| {
        assert df[n] == bars[lo + n];
      }
    }
  }

  /** Every completed backtest, for any strategy, sizing, bars and capital: what it traded and what each day's
      snapshot shows is what the strategy asked for when shown the rows of the table. */
  lemma StrategyIsFollowed(run: Run, bars: seq<Bar>, start: int, end: int, capital: real)
    returns (first: nat, sights: seq<Sight>, stays: seq<Stay>)
    requires Series(bars) && Backtest(run, bars, start, end, capital).Completed?
    ensures RowsShown(run, bars, start, end, first, sights)
    ensures var b := Backtest(run, bars, start, end, capital).book;
            Follows(run, capital, sights, b.trades, b.curve, stays)
  {
    hide Days, CloseOut, FindBar, TradingDays, Fetched, RowsShown, Follows, Followed, HasBar, SightOn;
    var asOf := if end > bars[|bars| - 1].date then bars[|bars| - 1].date else end;
    var df := Fetched(bars, asOf);
    var days := TradingDays(df, start, asOf);
    first, sights := RequestSights(run, bars, start, end, asOf);
    LastBarFound(bars, asOf, start);
    stays := LoopFollows(run, df, days, capital, sights, |days|);
    assert days[..|days|] == days;
    SightsArePriced(run, df, days, sights);
    var last := |days| - 1;
    SightDate(run, df, days[last]);
    CloseFollows(run, capital, sights, Days(run, df, days, Start(capital)), stays, days[last], CloseOn(df, days[last]));
  }

  lemma SightDate(run: Run, df: seq<Bar>, d: int)
    requires HasBar(df, d)
    ensures SightOn(run, df, d).date == d
  {
  }
}
