/** No look-ahead: when what comes after a day can change what was recorded up to it, and when it cannot. */
module LookAhead {
  import opened Wrappers
  import opened Ledger
  import opened Calendar
  import opened Replay
  import Arith

  // ---------------------------------------------------------------- days and records

  /** The days up to `cut`, on ascending days. */
  function Until(days: seq<int>, cut: int): (r: seq<int>)
    ensures |r| <= |days| && r == days[..|r|]
  {
    if |days| == 0 then []
    else if days[|days| - 1] <= cut then days
    else
      var r := Until(days[..|days| - 1], cut);
      assert days[..|days| - 1][..|r|] == days[..|r|];
      r
  }

  lemma {:induction false} UntilSplits(days: seq<int>, cut: int)
    requires Ascending(days)
    ensures var k := |Until(days, cut)|;
            (forall i :: 0 <= i < k ==> days[i] <= cut) && (forall i :: k <= i < |days| ==> days[i] > cut)
  {
    if |days| > 0 && days[|days| - 1] > cut {
      var n := |days| - 1;
      UntilSplits(days[..n], cut);
      assert forall i :: 0 <= i < n ==> days[..n][i] == days[i];
    }
  }

  lemma UntilMember(days: seq<int>, cut: int, d: int)
    requires Ascending(days)
    ensures d in Until(days, cut) <==> d in days && d <= cut
  {
    UntilSplits(days, cut);
    var k := |Until(days, cut)|;
    if d in days && d <= cut {
      var i :| 0 <= i < |days| && days[i] == d;
      assert i < k;
      assert days[..k][i] == d;
    }
  }

  lemma {:induction false} SameWindowsSameBook(run: Run, df1: seq<Bar>, df2: seq<Bar>, days: seq<int>, b: Book)
    requires GoodBook(run, b)
    requires (forall i :: 0 <= i < |df1| ==> df1[i].close > 0.0) && (forall i :: 0 <= i < |df2| ==> df2[i].close > 0.0)
    requires forall i :: 0 <= i < |days| ==> Window(df1, days[i]) == Window(df2, days[i])
    ensures Days(run, df1, days, b) == Days(run, df2, days, b)
  {
    hide Window, Traded, Recorded;
    if |days| > 0 {
      SameWindowsSameBook(run, df1, df2, days[..|days| - 1], b);
    }
  }

  /** Each day only appends trades, dated that day. */
  lemma {:induction false} TradesAppend(run: Run, df: seq<Bar>, days: seq<int>, b: Book, k: nat)
    requires GoodBook(run, b) && (forall i :: 0 <= i < |df| ==> df[i].close > 0.0) && k <= |days|
    ensures var before, after := Days(run, df, days[..k], b).trades, Days(run, df, days, b).trades;
            && |before| <= |after| && after[..|before|] == before
            && (forall i :: |before| <= i < |after| ==> after[i].exitDate in days[k..])
  {
    hide Day;
    if k == |days| {
      assert days[..k] == days;
    } else {
      var n := |days| - 1;
      assert days[..n][..k] == days[..k];
      TradesAppend(run, df, days[..n], b, k);
      DayTrades(run, df, Days(run, df, days[..n], b), days[n]);
      assert days[n] in days[k..] by {
        assert days[k..][n - k] == days[n];
      }
      assert forall d :: d in days[..n][k..] ==> d in days[k..];
      var before, mid, after := Days(run, df, days[..k], b).trades, Days(run, df, days[..n], b).trades,
                                Days(run, df, days, b).trades;
      assert after[..|mid|][..|before|] == after[..|before|];
      forall i | |before| <= i < |after|
        ensures after[i].exitDate in days[k..]
      {
        if i < |mid| {
          assert after[..|mid|][i] == mid[i];
        }
      }
    }
  }

  lemma DayTrades(run: Run, df: seq<Bar>, b: Book, d: int)
    requires GoodBook(run, b) && forall i :: 0 <= i < |df| ==> df[i].close > 0.0
    ensures var before, after := b.trades, Day(run, df, b, d).trades;
            && |before| <= |after| <= |before| + 1 && after[..|before|] == before
            && (|after| > |before| ==> after[|before|].exitDate == d)
  {
    hide Window, Traded;
    WindowCloses(df, d);
    var w := Window(df, d);
    if |w| > 0 {
      var bar := w[|w| - 1];
      TradedTrades(run, b, d, run.strategy.indicators(w), bar);
    }
  }

  lemma TradedTrades(run: Run, b: Book, d: int, ind: Indicators, bar: Bar)
    requires GoodBook(run, b) && bar.close > 0.0
    ensures var before, after := b.trades, Traded(run, b, d, ind, bar).trades;
            && |before| <= |after| <= |before| + 1 && after[..|before|] == before
            && (|after| > |before| ==> after[|before|].exitDate == d)
  {
    hide PositionSize, ReturnPct, IndexOf;
  }

  /** The state after the loop of a backtest. */
  function Looped(run: Run, bars: seq<Bar>, start: int, asOf: int, capital: real): Book
    requires Series(bars)
  {
    FetchedCloses(bars, asOf);
    var df := Fetched(bars, asOf);
    Days(run, df, TradingDays(df, start, asOf), Start(capital))
  }

  /** What a run has recorded about the days up to `cut`: its first snapshots and its first trades. */
  ghost predicate RecordUntil(b: Book, cut: int, curve: seq<Snapshot>, trades: seq<Trade>) {
    && |curve| <= |b.curve| && b.curve[..|curve|] == curve
    && (forall i :: 0 <= i < |curve| ==> curve[i].date <= cut)
    && (forall i :: |curve| <= i < |b.curve| ==> b.curve[i].date > cut)
    && |trades| <= |b.trades| && b.trades[..|trades|] == trades
    && (forall i :: 0 <= i < |trades| ==> trades[i].exitDate <= cut)
    && (forall i :: |trades| <= i < |b.trades| ==> b.trades[i].exitDate > cut)
  }

  /** A run's record up to a day is the record of the loop stopped after that day. */
  lemma LoopRecordUntil(run: Run, df: seq<Bar>, days: seq<int>, capital: real, cut: int)
    requires (forall i :: 0 <= i < |df| ==> df[i].close > 0.0) && Scheduled(df, days)
    ensures var stopped := Days(run, df, Until(days, cut), Start(capital));
            RecordUntil(Days(run, df, days, Start(capital)), cut, stopped.curve, stopped.trades)
  {
    hide Days, HasBar, RunState, CloseOn, Until, Spans;
    var k := |Until(days, cut)|;
    UntilSplits(days, cut);
    CurvePrefix(run, df, days, capital, k);
    TradesAppend(run, df, days, Start(capital), k);
    DaysKeep(run, df, days, capital);
    assert Scheduled(df, days[..k]);
    DaysKeep(run, df, days[..k], capital);
    var b := Days(run, df, days[..k], Start(capital));
    if k > 0 {
      RunLog(run, capital, b, days[k - 1], CloseOn(df, days[k - 1]));
    }
  }

  lemma RunLog(run: Run, capital: real, b: Book, d: int, c: real)
    requires RunState(run, capital, b, d, c)
    ensures forall i :: 0 <= i < |b.trades| ==> b.trades[i].exitDate <= d
  {
  }

  // ---------------------------------------------------------------- what the fetch leaves of the table

  /** On ascending dates the rows of a slice dated no later than `d` are the slice of the rows dated no later than
      `d`. */
  lemma SliceUpto(bars: seq<Bar>, lo: nat, hi: nat, d: int)
    requires Series(bars) && lo <= |Upto(bars, d)| && lo <= hi <= |bars|
    ensures var n := |Upto(bars, d)|;
            Upto(bars[lo..hi], d) == bars[lo..if hi < n then hi else n]
  {
    hide Upto;
    var s, n := bars[lo..hi], |Upto(bars, d)|;
    var k := (if hi < n then hi else n) - lo;
    UptoIsPrefix(bars, d);
    UptoIsPrefix(s, d);
    var m := |Upto(s, d)|;
    assert m < |s| ==> (s[m].date <= d <==> m < k);
    assert k < |s| ==> (s[k].date <= d <==> k < m);
    assert s[..k] == bars[lo..lo + k];
  }

  lemma RankMonotone(bars: seq<Bar>, c: int, d: int)
    requires Series(bars) && c <= d
    ensures |Upto(bars, c)| <= |Upto(bars, d)|
    ensures (exists i :: 0 <= i < |bars| && c < bars[i].date <= d) ==> |Upto(bars, c)| < |Upto(bars, d)|
  {
    hide Upto;
    UptoIsPrefix(bars, c);
    UptoIsPrefix(bars, d);
    var m, n := |Upto(bars, c)|, |Upto(bars, d)|;
    if n < |bars| {
      assert bars[n].date > d;
    }
    if i :| 0 <= i < |bars| && c < bars[i].date <= d {
      assert m <= i < n;
    }
  }

  /** How many of the oldest rows the fetch limit cuts off. */
  function Skipped(bars: seq<Bar>, asOf: int): nat {
    var n := |Upto(bars, asOf)|;
    if n > FETCH_LIMIT then n - FETCH_LIMIT else 0
  }

  /** The first row of the window that ends at row `i`, when the first `lo` rows are cut off. */
  function WindowStart(lo: nat, i: nat): nat {
    if i < WINDOW || i - (WINDOW - 1) < lo then lo else i - (WINDOW - 1)
  }

  /** The window of a row is the slice of the table that the window length and the fetch leave. */
  lemma WindowAt(bars: seq<Bar>, asOf: int, i: nat)
    requires Series(bars) && Skipped(bars, asOf) <= i < |Upto(bars, asOf)|
    ensures |Upto(bars, asOf)| <= |bars| && WindowStart(Skipped(bars, asOf), i) <= i
    ensures Window(Fetched(bars, asOf), bars[i].date) == bars[WindowStart(Skipped(bars, asOf), i)..i + 1]
  {
    hide Upto, Fetched;
    var lo, hi := FetchedIsSlice(bars, asOf);
    UptoAt(bars, i);
    SliceUpto(bars, lo, hi, bars[i].date);
    var some := bars[lo..i + 1];
    assert Upto(Fetched(bars, asOf), bars[i].date) == some;
    if |some| > WINDOW {
      assert some[|some| - WINDOW..] == bars[i + 1 - WINDOW..i + 1];
    }
  }

  /** A day is traded exactly when the table has a row for it that the fetch does not cut off. */
  lemma TradedDayIff(bars: seq<Bar>, start: int, asOf: int, d: int)
    requires Series(bars)
    ensures |Upto(bars, asOf)| <= |bars|
    ensures d in TradingDays(Fetched(bars, asOf), start, asOf)
       <==> start <= d && exists i :: Skipped(bars, asOf) <= i < |Upto(bars, asOf)| && bars[i].date == d
  {
    hide Upto, Fetched, TradingDays;
    var df := Fetched(bars, asOf);
    var lo, hi := FetchedIsSlice(bars, asOf);
    TradingDaysMember(df, start, asOf, d);
    UptoIsPrefix(bars, asOf);
    if i :| 0 <= i < |df| && df[i].date == d {
      assert bars[lo + i].date == d;
    }
    if i :| lo <= i < hi && bars[i].date == d {
      assert df[i - lo] == bars[i];
    }
  }

  /** Without room in the fetch, a day is lost exactly when `FETCH_LIMIT` or more rows follow it: later data then
      changes earlier days. */
  lemma DayLostToFetchLimitIff(bars: seq<Bar>, start: int, asOf: int, i: nat)
    requires Series(bars) && i < |bars| && start <= bars[i].date <= asOf
    ensures bars[i].date !in TradingDays(Fetched(bars, asOf), start, asOf)
       <==> |Upto(bars, asOf)| - i > FETCH_LIMIT
  {
    hide Upto, Fetched, TradingDays;
    var df, d := Fetched(bars, asOf), bars[i].date;
    var lo, hi := FetchedIsSlice(bars, asOf);
    TradingDaysMember(df, start, asOf, d);
    UptoIsPrefix(bars, asOf);
    assert i < hi;
    if lo <= i {
      assert df[i - lo] == bars[i];
    } else {
      forall k | 0 <= k < |df|
        ensures df[k].date != d
      {
        assert df[k] == bars[lo + k];
      }
    }
  }

  // ---------------------------------------------------------------- the exact condition

  /** Rows `r` to `n` are the days asked for; `lo1` and `lo2` rows are cut off. Either there are no such days, or both
      fetches cut all of them, or both cut the same, or both leave every window whole. */
  predicate SameReachOf(r: nat, n: nat, lo1: nat, lo2: nat) {
    n <= r || (n <= lo1 && n <= lo2) || lo1 == lo2 || (lo1 + WINDOW - 1 <= r && lo2 + WINDOW - 1 <= r)
  }

  /** Two runs reach back to the same rows for every day from `start` to `cut`: a matter of counting rows. */
  predicate SameReach(bars1: seq<Bar>, bars2: seq<Bar>, start: int, end1: int, end2: int, cut: int) {
    SameReachOf(|Upto(bars1, start - 1)|, |Upto(bars1, cut)|, Skipped(bars1, end1), Skipped(bars2, end2))
  }

  lemma SameReachGives(r: nat, n: nat, lo1: nat, lo2: nat, i: nat)
    requires SameReachOf(r, n, lo1, lo2) && r <= i < n
    ensures lo1 <= i <==> lo2 <= i
    ensures lo1 <= i ==> WindowStart(lo1, i) == WindowStart(lo2, i)
  {
  }

  /** Otherwise the first day the further-reaching run trades is either not traded by the other, or seen through a
      shorter window. */
  lemma OtherReachDiffers(r: nat, n: nat, lo1: nat, lo2: nat) returns (i: nat)
    requires !SameReachOf(r, n, lo1, lo2) && lo2 < lo1
    ensures r <= i < n && lo2 <= i && (i < lo1 || (i == r && WindowStart(lo1, i) > WindowStart(lo2, i)))
  {
    i := if r < lo2 then lo2 else r;
  }

  /** The tables of two runs that agree up to `cut`. */
  ghost predicate AgreeUpto(bars1: seq<Bar>, bars2: seq<Bar>, end1: int, end2: int, cut: int) {
    Series(bars1) && Series(bars2) && Upto(bars1, cut) == Upto(bars2, cut) && cut <= end1 && cut <= end2
  }

  lemma AgreeingRows(bars1: seq<Bar>, bars2: seq<Bar>, start: int, end1: int, end2: int, cut: int)
    requires AgreeUpto(bars1, bars2, end1, end2, cut)
    ensures var n := |Upto(bars1, cut)|;
            && n <= |bars1| && n <= |bars2| && bars1[..n] == bars2[..n]
            && n <= |Upto(bars1, end1)| && n <= |Upto(bars2, end2)|
            && (forall i :: 0 <= i < |bars1| ==> (bars1[i].date <= cut <==> i < n))
            && (forall i :: 0 <= i < |bars2| ==> (bars2[i].date <= cut <==> i < n))
            && (forall i :: 0 <= i < n ==> (start <= bars1[i].date <==> |Upto(bars1, start - 1)| <= i))
  {
    hide Upto;
    UptoIsPrefix(bars1, cut);
    UptoIsPrefix(bars2, cut);
    UptoIsPrefix(bars1, start - 1);
    RankMonotone(bars1, cut, end1);
    RankMonotone(bars2, cut, end2);
  }

  /** The days up to `cut` that a run trades are those of the rows from `start` on that its fetch leaves. */
  lemma DayOfRow(bars: seq<Bar>, start: int, asOf: int, cut: int, d: int)
    requires Series(bars) && cut <= asOf
    ensures |Upto(bars, cut)| <= |bars|
    ensures d in Until(TradingDays(Fetched(bars, asOf), start, asOf), cut)
       <==> start <= d && exists i :: Skipped(bars, asOf) <= i < |Upto(bars, cut)| && bars[i].date == d
  {
    hide Upto, Fetched, TradingDays, Until;
    var _, _ := FetchedIsSlice(bars, asOf);
    TradingDaysIncrease(Fetched(bars, asOf), start, asOf);
    UntilMember(TradingDays(Fetched(bars, asOf), start, asOf), cut, d);
    TradedDayIff(bars, start, asOf, d);
    UptoIsPrefix(bars, cut);
    RankMonotone(bars, cut, asOf);
  }

  lemma SameDaysUntil(bars1: seq<Bar>, bars2: seq<Bar>, start: int, end1: int, end2: int, cut: int)
    requires AgreeUpto(bars1, bars2, end1, end2, cut) && SameReach(bars1, bars2, start, end1, end2, cut)
    ensures Until(TradingDays(Fetched(bars1, end1), start, end1), cut)
            == Until(TradingDays(Fetched(bars2, end2), start, end2), cut)
  {
    hide Upto, Fetched, TradingDays, Until, Skipped, SameReachOf;
    var days1, days2 := TradingDays(Fetched(bars1, end1), start, end1), TradingDays(Fetched(bars2, end2), start, end2);
    var a, b := Until(days1, cut), Until(days2, cut);
    var _, _ := FetchedIsSlice(bars1, end1);
    var _, _ := FetchedIsSlice(bars2, end2);
    TradingDaysIncrease(Fetched(bars1, end1), start, end1);
    TradingDaysIncrease(Fetched(bars2, end2), start, end2);
    AgreeingRows(bars1, bars2, start, end1, end2, cut);
    var r, n := |Upto(bars1, start - 1)|, |Upto(bars1, cut)|;
    var lo1, lo2 := Skipped(bars1, end1), Skipped(bars2, end2);
    forall d
      ensures d in a <==> d in b
    {
      DayOfRow(bars1, start, end1, cut, d);
      DayOfRow(bars2, start, end2, cut, d);
      assert forall i :: 0 <= i < n ==> bars1[i] == bars1[..n][i] == bars2[..n][i] == bars2[i];
      if start <= d {
        if i :| lo1 <= i < n && bars1[i].date == d {
          SameReachGives(r, n, lo1, lo2, i);
          assert bars2[i].date == d;
        }
        if i :| lo2 <= i < n && bars2[i].date == d {
          assert bars1[i].date == d;
          SameReachGives(r, n, lo1, lo2, i);
        }
      }
    }
    AscendingUnique(a, b);
  }

  lemma SameSlice(a: seq<Bar>, b: seq<Bar>, n: nat, k: nat, m: nat)
    requires n <= |a| && n <= |b| && a[..n] == b[..n] && k <= m <= n
    ensures a[k..m] == b[k..m]
  {
    assert a[k..m] == a[..n][k..m] && b[k..m] == b[..n][k..m];
  }

  lemma SameWindow(bars1: seq<Bar>, bars2: seq<Bar>, start: int, end1: int, end2: int, cut: int, d: int)
    requires AgreeUpto(bars1, bars2, end1, end2, cut) && SameReach(bars1, bars2, start, end1, end2, cut)
    requires d in Until(TradingDays(Fetched(bars1, end1), start, end1), cut)
    ensures Window(Fetched(bars1, end1), d) == Window(Fetched(bars2, end2), d)
  {
    hide Upto, Fetched, TradingDays, Until, Skipped, SameReachOf, Window, WindowStart;
    AgreeingRows(bars1, bars2, start, end1, end2, cut);
    DayOfRow(bars1, start, end1, cut, d);
    var n := |Upto(bars1, cut)|;
    var i :| Skipped(bars1, end1) <= i < n && bars1[i].date == d;
    SameReachGives(|Upto(bars1, start - 1)|, n, Skipped(bars1, end1), Skipped(bars2, end2), i);
    assert bars1[i] == bars1[..n][i] == bars2[..n][i] == bars2[i];
    WindowAt(bars1, end1, i);
    WindowAt(bars2, end2, i);
    var k := WindowStart(Skipped(bars1, end1), i);
    SameSlice(bars1, bars2, n, k, i + 1);
  }

  /** The snapshots and trades up to `cut` are the same. */
  ghost predicate SameRecord(run: Run, bars1: seq<Bar>, bars2: seq<Bar>, start: int, end1: int, end2: int, cut: int,
                             capital: real)
    requires Series(bars1) && Series(bars2)
  {
    exists curve, trades ::
      && RecordUntil(Looped(run, bars1, start, end1, capital), cut, curve, trades)
      && RecordUntil(Looped(run, bars2, start, end2, capital), cut, curve, trades)
  }

  /** No look-ahead: whatever comes after `cut`, the snapshots and trades up to `cut` are the same. */
  lemma NoLookAhead(run: Run, bars1: seq<Bar>, bars2: seq<Bar>, start: int, end1: int, end2: int, cut: int,
                    capital: real)
    requires AgreeUpto(bars1, bars2, end1, end2, cut) && SameReach(bars1, bars2, start, end1, end2, cut)
    ensures SameRecord(run, bars1, bars2, start, end1, end2, cut, capital)
  {
    hide Days, Upto, TradingDays, Until, RecordUntil, SameReach;
    FetchedCloses(bars1, end1);
    FetchedCloses(bars2, end2);
    var df1, df2 := Fetched(bars1, end1), Fetched(bars2, end2);
    var days1, days2 := TradingDays(df1, start, end1), TradingDays(df2, start, end2);
    LastBarFound(bars1, end1, start);
    LastBarFound(bars2, end2, start);
    SameDaysUntil(bars1, bars2, start, end1, end2, cut);
    var days := Until(days1, cut);
    forall i | 0 <= i < |days|
      ensures Window(df1, days[i]) == Window(df2, days[i])
    {
      SameWindow(bars1, bars2, start, end1, end2, cut, days[i]);
    }
    SameWindowsSameBook(run, df1, df2, days, Start(capital));
    var stopped := Days(run, df1, days, Start(capital));
    LoopRecordUntil(run, df1, days1, capital, cut);
    LoopRecordUntil(run, df2, days2, capital, cut);
    assert RecordUntil(Looped(run, bars1, start, end1, capital), cut, stopped.curve, stopped.trades);
    assert RecordUntil(Looped(run, bars2, start, end2, capital), cut, stopped.curve, stopped.trades);
  }

  // ---------------------------------------------------------------- when it fails

  /** Enters with all its capital on a window of exactly `length` rows, and never leaves. */
  function Detector(length: nat): Run {
    Run("X",
        Strategy(w => if |w| == length then map["seen" := 1.0] else map[],
                 (symbol: string, d: int, ind: Indicators, bar: Bar) => "seen" in ind,
                 (h: Holding, d: int, ind: Indicators, bar: Bar) => (false, "")),
        "fixed_shares", 1.0)
  }

  lemma DetectorTrades(length: nat, d: int, w: seq<Bar>, bar: Bar)
    requires bar.close > 0.0
    ensures Traded(Detector(length), Start(bar.close), d, Detector(length).strategy.indicators(w), bar).cash
         == if |w| == length then 0.0 else bar.close
  {
    var run := Detector(length);
    var b := Start(bar.close);
    assert Revaluation(run, b, bar.close) == b;
    assert Arith.Truncate(1.0) == 1;
    assert PositionSize(bar.close, bar.close, "fixed_shares", 1.0) == 1;
  }

  /** What the detector's first snapshot shows of its window. */
  lemma DetectorSees(length: nat, df: seq<Bar>, days: seq<int>, capital: real)
    requires (forall i :: 0 <= i < |df| ==> df[i].close > 0.0) && Scheduled(df, days) && |days| > 0
    requires capital == CloseOn(df, days[0])
    ensures |Days(Detector(length), df, days, Start(capital)).curve| == |days|
    ensures Days(Detector(length), df, days, Start(capital)).curve[0].cash
         == if |Window(df, days[0])| == length then 0.0 else capital
  {
    hide Window, Traded, Detector;
    var run := Detector(length);
    CurvePrefix(run, df, days, capital, 1);
    var one := days[..1];
    assert one[..0] == [] && one == [days[0]];
    var w := Window(df, days[0]);
    WindowCloses(df, days[0]);
    var bar := w[|w| - 1];
    DetectorTrades(length, days[0], w, bar);
    var curve := Days(run, df, days, Start(capital)).curve;
    var first := Days(run, df, one, Start(capital));
    assert Days(run, df, one[..0], Start(capital)) == Start(capital);
    assert first == Day(run, df, Start(capital), days[0]);
    assert curve[..1] == first.curve;
    FirstSnapshot(run, df, days[0], capital);
    assert curve[0] == curve[..1][0];
  }

  lemma FirstSnapshot(run: Run, df: seq<Bar>, d: int, capital: real)
    requires (forall i :: 0 <= i < |df| ==> df[i].close > 0.0) && |Window(df, d)| > 0
    ensures var w := Window(df, d);
            var bar := w[|w| - 1];
            && bar.close > 0.0
            && |Day(run, df, Start(capital), d).curve| == 1
            && Day(run, df, Start(capital), d).curve[0].cash
               == Traded(run, Start(capital), d, run.strategy.indicators(w), bar).cash
  {
    hide Window, Traded;
    WindowCloses(df, d);
    var w := Window(df, d);
    var bar := w[|w| - 1];
    TradedCurve(run, Start(capital), d, run.strategy.indicators(w), bar);
    RecordedWorth(run, Traded(run, Start(capital), d, run.strategy.indicators(w), bar), d, bar.close);
  }

  lemma DaysOfRun(bars: seq<Bar>, start: int, asOf: int)
    requires Series(bars)
    ensures var df := Fetched(bars, asOf);
            (forall i :: 0 <= i < |df| ==> df[i].close > 0.0) && Scheduled(df, TradingDays(df, start, asOf))
  {
    FetchedCloses(bars, asOf);
    LastBarFound(bars, asOf, start);
  }

  /** A recorded snapshot up to `cut` has the same place in both curves. */
  lemma SharedSnapshot(run: Run, bars1: seq<Bar>, bars2: seq<Bar>, start: int, end1: int, end2: int, cut: int,
                       capital: real, j: nat)
    requires Series(bars1) && Series(bars2) && SameRecord(run, bars1, bars2, start, end1, end2, cut, capital)
    requires j < |TradingDays(Fetched(bars2, end2), start, end2)|
             && TradingDays(Fetched(bars2, end2), start, end2)[j] <= cut
    ensures var b1, b2 := Looped(run, bars1, start, end1, capital), Looped(run, bars2, start, end2, capital);
            && j < |b1.curve| && j < |b2.curve| && b1.curve[j] == b2.curve[j]
            && |b1.curve| == |TradingDays(Fetched(bars1, end1), start, end1)|
            && b1.curve[j].date == TradingDays(Fetched(bars1, end1), start, end1)[j]
                == TradingDays(Fetched(bars2, end2), start, end2)[j]
  {
    DaysOfRun(bars1, start, end1);
    DaysOfRun(bars2, start, end2);
    hide Days, Fetched, TradingDays, Scheduled, RunState, HasBar, CloseOn;
    DaysKeep(run, Fetched(bars1, end1), TradingDays(Fetched(bars1, end1), start, end1), capital);
    DaysKeep(run, Fetched(bars2, end2), TradingDays(Fetched(bars2, end2), start, end2), capital);
    var b1, b2 := Looped(run, bars1, start, end1, capital), Looped(run, bars2, start, end2, capital);
    var curve, trades :| RecordUntil(b1, cut, curve, trades) && RecordUntil(b2, cut, curve, trades);
    assert b2.curve[j].date <= cut;
    assert j < |curve|;
    assert b1.curve[j] == b1.curve[..|curve|][j] && b2.curve[j] == b2.curve[..|curve|][j];
  }

  /** A day that only the second run trades is missing from the first record, whatever the strategy. */
  lemma UntradedShows(run: Run, bars1: seq<Bar>, bars2: seq<Bar>, start: int, end1: int, end2: int, cut: int,
                      capital: real, d: int)
    requires Series(bars1) && Series(bars2) && d <= cut
    requires d in TradingDays(Fetched(bars2, end2), start, end2) && d !in TradingDays(Fetched(bars1, end1), start, end1)
    ensures !SameRecord(run, bars1, bars2, start, end1, end2, cut, capital)
  {
    hide Fetched, TradingDays, SameRecord, Looped;
    var days2 := TradingDays(Fetched(bars2, end2), start, end2);
    var j :| 0 <= j < |days2| && days2[j] == d;
    if SameRecord(run, bars1, bars2, start, end1, end2, cut, capital) {
      SharedSnapshot(run, bars1, bars2, start, end1, end2, cut, capital, j);
    }
  }

  /** The first row from `start` on, if the fetch leaves it, is the first day, and the detector's first cash tells its
      window's length. */
  lemma FirstDayCash(bars: seq<Bar>, start: int, asOf: int, r: nat, length: nat)
    requires Series(bars) && Skipped(bars, asOf) <= r < |Upto(bars, asOf)| && |Upto(bars, asOf)| <= |bars|
    requires (forall k :: 0 <= k < r ==> bars[k].date < start) && start <= bars[r].date
    ensures var days := TradingDays(Fetched(bars, asOf), start, asOf); |days| > 0 && days[0] == bars[r].date
    ensures WindowStart(Skipped(bars, asOf), r) <= r
    ensures var b := Looped(Detector(length), bars, start, asOf, bars[r].close);
            && |b.curve| > 0
            && b.curve[0].cash == if r + 1 - WindowStart(Skipped(bars, asOf), r) == length then 0.0 else bars[r].close
  {
    hide Upto, Fetched, TradingDays, Skipped, WindowStart, Window, Detector;
    var df := Fetched(bars, asOf);
    var days := TradingDays(df, start, asOf);
    FirstDay(bars, start, asOf, r);
    DaysOfRun(bars, start, asOf);
    WindowAt(bars, asOf, r);
    assert HasBar(df, days[0]);
    DetectorSees(length, df, days, bars[r].close);
  }

  lemma FirstDay(bars: seq<Bar>, start: int, asOf: int, r: nat)
    requires Series(bars) && Skipped(bars, asOf) <= r < |Upto(bars, asOf)| && |Upto(bars, asOf)| <= |bars|
    requires (forall k :: 0 <= k < r ==> bars[k].date < start) && start <= bars[r].date
    ensures var days := TradingDays(Fetched(bars, asOf), start, asOf); |days| > 0 && days[0] == bars[r].date
  {
    hide Upto, Fetched, TradingDays, Skipped;
    var days := TradingDays(Fetched(bars, asOf), start, asOf);
    var _, _ := FetchedIsSlice(bars, asOf);
    TradingDaysIncrease(Fetched(bars, asOf), start, asOf);
    TradedDayIff(bars, start, asOf, bars[r].date);
    var j :| 0 <= j < |days| && days[j] == bars[r].date;
    assert days[0] in days;
    TradedDayIff(bars, start, asOf, days[0]);
    var k :| Skipped(bars, asOf) <= k < |Upto(bars, asOf)| && bars[k].date == days[0];
    assert r <= k;
  }

  /** When both trade the first day but see windows of different lengths, the detector tells them apart. */
  lemma ShorterWindowShows(bars1: seq<Bar>, bars2: seq<Bar>, start: int, end1: int, end2: int, cut: int, r: nat)
    requires Series(bars1) && Series(bars2) && |Upto(bars1, end1)| <= |bars1| && |Upto(bars2, end2)| <= |bars2|
    requires Skipped(bars1, end1) <= r < |Upto(bars1, end1)| && Skipped(bars2, end2) <= r < |Upto(bars2, end2)|
    requires bars1[..r + 1] == bars2[..r + 1] && bars1[r].date <= cut
    requires (forall k :: 0 <= k < r ==> bars1[k].date < start) && start <= bars1[r].date
    requires WindowStart(Skipped(bars1, end1), r) > WindowStart(Skipped(bars2, end2), r)
    ensures WindowStart(Skipped(bars2, end2), r) <= r
    ensures !SameRecord(Detector(r + 1 - WindowStart(Skipped(bars2, end2), r)), bars1, bars2, start, end1, end2, cut,
                        bars1[r].close)
  {
    hide Upto, Fetched, TradingDays, Skipped, WindowStart, Detector, SameRecord, Looped;
    assert forall k :: 0 <= k <= r ==> bars1[k] == bars1[..r + 1][k] == bars2[..r + 1][k] == bars2[k];
    WindowAt(bars2, end2, r);
    var length := r + 1 - WindowStart(Skipped(bars2, end2), r);
    FirstDayCash(bars1, start, end1, r, length);
    FirstDayCash(bars2, start, end2, r, length);
    if SameRecord(Detector(length), bars1, bars2, start, end1, end2, cut, bars1[r].close) {
      SharedSnapshot(Detector(length), bars1, bars2, start, end1, end2, cut, bars1[r].close, 0);
    }
  }

  /** When the second run reaches back further, some run and capital tell the two apart. */
  lemma FurtherReachShows(bars1: seq<Bar>, bars2: seq<Bar>, start: int, end1: int, end2: int, cut: int)
    requires AgreeUpto(bars1, bars2, end1, end2, cut) && !SameReach(bars1, bars2, start, end1, end2, cut)
    requires Skipped(bars2, end2) < Skipped(bars1, end1)
    ensures exists run, capital :: !SameRecord(run, bars1, bars2, start, end1, end2, cut, capital)
  {
    hide Upto, Fetched, TradingDays, Skipped, SameReachOf, SameRecord, WindowStart, Window, Detector, Looped;
    AgreeingRows(bars1, bars2, start, end1, end2, cut);
    var r, n := |Upto(bars1, start - 1)|, |Upto(bars1, cut)|;
    var i := OtherReachDiffers(r, n, Skipped(bars1, end1), Skipped(bars2, end2));
    assert bars1[i] == bars1[..n][i] == bars2[..n][i] == bars2[i];
    TradedDayIff(bars1, start, end1, bars1[i].date);
    TradedDayIff(bars2, start, end2, bars2[i].date);
    if i < Skipped(bars1, end1) {
      UntradedShows(Detector(0), bars1, bars2, start, end1, end2, cut, 0.0, bars1[i].date);
    } else {
      assert bars1[..i + 1] == bars1[..n][..i + 1] == bars2[..n][..i + 1] == bars2[..i + 1];
      ShorterWindowShows(bars1, bars2, start, end1, end2, cut, i);
    }
  }

  lemma RecordsSwap(run: Run, bars1: seq<Bar>, bars2: seq<Bar>, start: int, end1: int, end2: int, cut: int,
                    capital: real)
    requires Series(bars1) && Series(bars2)
    ensures SameRecord(run, bars1, bars2, start, end1, end2, cut, capital)
       <==> SameRecord(run, bars2, bars1, start, end2, end1, cut, capital)
  {
    hide RecordUntil, Looped;
  }

  lemma ReachSwaps(bars1: seq<Bar>, bars2: seq<Bar>, start: int, end1: int, end2: int, cut: int)
    requires AgreeUpto(bars1, bars2, end1, end2, cut)
    ensures SameReach(bars1, bars2, start, end1, end2, cut) <==> SameReach(bars2, bars1, start, end2, end1, cut)
  {
    hide Upto, Skipped;
    AgreeingRows(bars1, bars2, start, end1, end2, cut);
    AgreeingRows(bars2, bars1, start, end2, end1, cut);
    var n, r1, r2 := |Upto(bars1, cut)|, |Upto(bars1, start - 1)|, |Upto(bars2, start - 1)|;
    assert forall i :: 0 <= i < n ==> bars1[i] == bars1[..n][i] == bars2[..n][i] == bars2[i];
    if r1 < n {
      assert start <= bars1[r1].date;
    }
    if r2 < n {
      assert start <= bars2[r2].date;
    }
  }

  /** For every strategy and capital the record up to `cut` is the same, exactly when the two runs reach back alike. */
  lemma NoLookAheadIff(bars1: seq<Bar>, bars2: seq<Bar>, start: int, end1: int, end2: int, cut: int)
    requires AgreeUpto(bars1, bars2, end1, end2, cut)
    ensures (forall run, capital :: SameRecord(run, bars1, bars2, start, end1, end2, cut, capital))
       <==> SameReach(bars1, bars2, start, end1, end2, cut)
  {
    hide SameRecord, Skipped, Upto;
    if SameReach(bars1, bars2, start, end1, end2, cut) {
      forall run, capital
        ensures SameRecord(run, bars1, bars2, start, end1, end2, cut, capital)
      {
        NoLookAhead(run, bars1, bars2, start, end1, end2, cut, capital);
      }
    } else if Skipped(bars2, end2) < Skipped(bars1, end1) {
      FurtherReachShows(bars1, bars2, start, end1, end2, cut);
    } else {
      ReachSwaps(bars1, bars2, start, end1, end2, cut);
      FurtherReachShows(bars2, bars1, start, end2, end1, cut);
      var run, capital :| !SameRecord(run, bars2, bars1, start, end2, end1, cut, capital);
      RecordsSwap(run, bars1, bars2, start, end1, end2, cut, capital);
    }
  }

  /** A table that fits the fetch never looks ahead: later rows change nothing as long as all rows together are within
      the limit. */
  lemma SmallTablesNeverLookAhead(run: Run, bars1: seq<Bar>, bars2: seq<Bar>, start: int, end1: int, end2: int,
                                  cut: int, capital: real)
    requires AgreeUpto(bars1, bars2, end1, end2, cut)
    requires |Upto(bars1, end1)| <= FETCH_LIMIT && |Upto(bars2, end2)| <= FETCH_LIMIT
    ensures SameRecord(run, bars1, bars2, start, end1, end2, cut, capital)
  {
    NoLookAhead(run, bars1, bars2, start, end1, end2, cut, capital);
  }

  // ---------------------------------------------------------------- one such pair of tables

  /** A flat price on days 0 to n - 1. */
  function Daily(n: nat): (bars: seq<Bar>)
    ensures |bars| == n && forall i :: 0 <= i < n ==> bars[i] == Bar(i, 1.0, 1.0, 1.0, 1.0, 0.0)
  {
    seq(n, i => Bar(i, 1.0, 1.0, 1.0, 1.0, 0.0))
  }

  lemma DailyUpto(n: nat, d: nat)
    requires d < n
    ensures Series(Daily(n)) && |Upto(Daily(n), d)| == d + 1 && Upto(Daily(n), d) == Daily(n)[..d + 1]
  {
    hide Upto;
    var bars := Daily(n);
    UptoAt(bars, d);
    assert bars[d].date == d;
  }

  /** A backtest within the data has the curve of its loop. */
  lemma BacktestCurve(run: Run, bars: seq<Bar>, start: int, end: int, capital: real)
    requires Series(bars) && |bars| > 0
             && bars[0].date + INDICATOR_LOOKBACK_DAYS <= start < end <= bars[|bars| - 1].date
    requires |TradingDays(Fetched(bars, end), start, end)| > 0
    ensures Backtest(run, bars, start, end, capital).Completed?
    ensures Backtest(run, bars, start, end, capital).book.curve == Looped(run, bars, start, end, capital).curve
  {
    hide Upto, Fetched, TradingDays, Days, FindBar;
    FetchedCloses(bars, end);
  }

  /** From day 400 on, with rows to day 499 or to day 10499: both backtests complete, and the longer table leaves none
      of the first's days. */
  lemma LaterRowsEraseEarlierDays(run: Run, capital: real)
    ensures AgreeUpto(Daily(10500), Daily(500), 10499, 499, 499)
    ensures Backtest(run, Daily(10500), 400, 10499, capital).Completed?
            && Backtest(run, Daily(500), 400, 499, capital).Completed?
    ensures var full := Backtest(run, Daily(10500), 400, 10499, capital).book.curve;
            var early := Backtest(run, Daily(500), 400, 499, capital).book.curve;
            && |early| > 0 && early[0].date == 400
            && forall i :: 0 <= i < |full| ==> full[i].date > 499
  {
    var bars1, bars2 := Daily(10500), Daily(500);
    DailyUpto(10500, 499);
    DailyUpto(500, 499);
    DailyUpto(10500, 10499);
    assert bars1[..500] == bars2[..500];
    ErasedDays(run, capital);
    KeptDays(run, capital);
  }

  lemma ErasedDays(run: Run, capital: real)
    ensures Series(Daily(10500)) && Backtest(run, Daily(10500), 400, 10499, capital).Completed?
    ensures var full := Backtest(run, Daily(10500), 400, 10499, capital).book.curve;
            forall i :: 0 <= i < |full| ==> full[i].date > 499
  {
    hide Upto, Fetched, TradingDays, Looped, Backtest, Days, RunState, Scheduled, CloseOn;
    var bars := Daily(10500);
    DailyUpto(10500, 10499);
    var days := TradingDays(Fetched(bars, 10499), 400, 10499);
    TradedDayIff(bars, 400, 10499, 500);
    assert bars[500].date == 500;
    assert 500 in days;
    BacktestCurve(run, bars, 400, 10499, capital);
    DaysOfRun(bars, 400, 10499);
    LoopedDates(run, bars, 400, 10499, capital);
    forall i | 0 <= i < |days|
      ensures days[i] > 499
    {
      assert days[i] in days;
      TradedDayIff(bars, 400, 10499, days[i]);
    }
  }

  lemma LoopedDates(run: Run, bars: seq<Bar>, start: int, asOf: int, capital: real)
    requires Series(bars)
    ensures var curve, days := Looped(run, bars, start, asOf, capital).curve,
            TradingDays(Fetched(bars, asOf), start, asOf);
            |curve| == |days| && forall i :: 0 <= i < |days| ==> curve[i].date == days[i]
  {
    DaysOfRun(bars, start, asOf);
    hide Days, Fetched, TradingDays, Scheduled, RunState, HasBar, CloseOn;
    DaysKeep(run, Fetched(bars, asOf), TradingDays(Fetched(bars, asOf), start, asOf), capital);
  }

  lemma KeptDays(run: Run, capital: real)
    ensures Series(Daily(500)) && Backtest(run, Daily(500), 400, 499, capital).Completed?
    ensures var early := Backtest(run, Daily(500), 400, 499, capital).book.curve;
            |early| > 0 && early[0].date == 400
  {
    hide Upto, Fetched, TradingDays, Looped, Backtest;
    var bars := Daily(500);
    DailyUpto(500, 499);
    FirstDay(bars, 400, 499, 400);
    BacktestCurve(run, bars, 400, 499, capital);
    LoopedDates(run, bars, 400, 499, capital);
  }
}
