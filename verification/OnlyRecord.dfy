/** A strategy leaves no choice: on the days of a request only one record of trades and snapshots follows it. */
module OnlyRecord {
  import opened Ledger
  import opened Replay
  import opened Calendar
  import opened Discipline
  import Arith

  datatype Record = Record(trades: seq<Trade>, curve: seq<Snapshot>, stays: seq<Stay>)

  ghost predicate Obeys(run: Run, capital: real, sights: seq<Sight>, r: Record) {
    Follows(run, capital, sights, r.trades, r.curve, r.stays)
  }

  /** Some stay that began on day `i` holds this many shares on day `k`. */
  ghost predicate HeldBy(stays: seq<Stay>, k: nat, i: nat, shares: int) {
    exists n :: 0 <= n < |stays| && Holds(stays[n], k) && stays[n].enter == i && stays[n].shares == shares
  }

  ghost predicate SameHeld(a: seq<Stay>, b: seq<Stay>, k: nat) {
    forall i, shares :: HeldBy(a, k, i, shares) <==> HeldBy(b, k, i, shares)
  }

  // ---------------------------------------------------------------- one record

  lemma ObeysStay(run: Run, capital: real, sights: seq<Sight>, r: Record, n: nat)
    requires Obeys(run, capital, sights, r) && n < |r.stays|
    ensures Priced(sights) && |r.curve| == |sights| && Proper(run, sights, r.curve, r.stays[n])
  {
    hide Proper, Shows, Earns, SoldWhenAsked, Tells, InOrder;
  }

  lemma ObeysDay(run: Run, capital: real, sights: seq<Sight>, r: Record, k: nat)
    requires Obeys(run, capital, sights, r) && k < |sights|
    ensures |r.curve| == |sights| && sights[k].bar.close > 0.0 && Shows(run, sights[k], r.curve[k], r.stays, k)
    ensures if k == 0 then r.curve[k].equity == capital else Earns(sights, r.curve, r.stays, k)
  {
    hide Proper, Shows, Earns, SoldWhenAsked, Tells, InOrder;
  }

  lemma ObeysOrder(run: Run, capital: real, sights: seq<Sight>, r: Record)
    requires Obeys(run, capital, sights, r)
    ensures Priced(sights) && InOrder(r.stays) && |r.trades| == |r.stays| && |r.curve| == |sights|
  {
    hide Proper, Shows, Earns, SoldWhenAsked, Tells;
  }

  lemma OneHolder(stays: seq<Stay>, n: nat, m: nat, k: nat)
    requires InOrder(stays) && n < |stays| && m < |stays| && Holds(stays[n], k) && Holds(stays[m], k)
    ensures n == m
  {
  }

  /** A position the strategy does not want sold is still held. */
  lemma StaysUnsold(run: Run, capital: real, sights: seq<Sight>, r: Record, n: nat, k: nat)
    requires Obeys(run, capital, sights, r) && n < |r.stays| && 0 < k < |sights| && Holds(r.stays[n], k - 1)
    requires Priced(sights) && !Answer(run, sights, r.stays[n], k).0
    ensures Holds(r.stays[n], k)
  {
    hide CurveTells, Tells, Answer, Proper;
  }

  /** A position held before and after a day was not wanted sold on it. */
  lemma HeldIsUnsold(run: Run, capital: real, sights: seq<Sight>, r: Record, n: nat, k: nat)
    requires Obeys(run, capital, sights, r) && n < |r.stays| && r.stays[n].enter < k && Holds(r.stays[n], k)
    ensures Priced(sights) && k < |sights| && !Answer(run, sights, r.stays[n], k).0
  {
    hide Obeys, Answer, Size, Wants;
    ObeysStay(run, capital, sights, r, n);
  }

  /** A stay that begins on a day holds what the whole equity of that day buys. */
  lemma Bought(run: Run, capital: real, sights: seq<Sight>, r: Record, n: nat)
    requires Obeys(run, capital, sights, r) && n < |r.stays|
    ensures var k := r.stays[n].enter;
            && k < |sights| == |r.curve| && sights[k].bar.close > 0.0 && Holds(r.stays[n], k)
            && Wants(run, sights[k]) && r.stays[n].shares == Size(run, r.curve[k].equity, sights[k]) > 0
  {
    hide Obeys, PositionSize, Answer, Earns, Wants, Idle;
    ObeysStay(run, capital, sights, r, n);
    ObeysDay(run, capital, sights, r, r.stays[n].enter);
    assert Holds(r.stays[n], r.stays[n].enter);
  }

  /** A day on which the whole equity would buy what the strategy wants is not idle. */
  lemma NotIdle(run: Run, capital: real, sights: seq<Sight>, r: Record, k: nat)
    requires Obeys(run, capital, sights, r) && k < |sights| == |r.curve| && sights[k].bar.close > 0.0
    requires Wants(run, sights[k]) && Size(run, r.curve[k].equity, sights[k]) > 0
    ensures !Idle(r.stays, k)
  {
    hide Obeys, Size, Earns, Wants, Holds;
    ObeysDay(run, capital, sights, r, k);
  }

  // ---------------------------------------------------------------- two records

  /** What is held over a day without a sale is held in both records. */
  lemma KeptInBoth(run: Run, capital: real, sights: seq<Sight>, a: Record, b: Record, k: nat, n: nat)
    returns (m: nat)
    requires Obeys(run, capital, sights, a) && Obeys(run, capital, sights, b)
    requires 0 < k && SameHeld(a.stays, b.stays, k - 1)
    requires n < |a.stays| && Holds(a.stays[n], k) && a.stays[n].enter < k
    ensures m < |b.stays| && Holds(b.stays[m], k)
            && b.stays[m].enter == a.stays[n].enter && b.stays[m].shares == a.stays[n].shares
  {
    hide Obeys, Verdict, Held;
    HeldIsUnsold(run, capital, sights, a, n, k);
    assert Holds(a.stays[n], k - 1);
    assert HeldBy(a.stays, k - 1, a.stays[n].enter, a.stays[n].shares);
    m :| 0 <= m < |b.stays| && Holds(b.stays[m], k - 1)
         && b.stays[m].enter == a.stays[n].enter && b.stays[m].shares == a.stays[n].shares;
    StaysUnsold(run, capital, sights, b, m, k);
  }

  lemma HeldSwap(a: seq<Stay>, b: seq<Stay>, k: nat)
    requires SameHeld(a, b, k)
    ensures SameHeld(b, a, k)
  {
  }

  /** What is bought in one record is bought in the other. */
  lemma BoughtInBoth(run: Run, capital: real, sights: seq<Sight>, a: Record, b: Record, k: nat, n: nat)
    requires Obeys(run, capital, sights, a) && Obeys(run, capital, sights, b)
    requires k < |a.curve| && k < |b.curve| && a.curve[k].equity == b.curve[k].equity
    requires k > 0 ==> SameHeld(a.stays, b.stays, k - 1)
    requires n < |a.stays| && a.stays[n].enter == k
    ensures HeldBy(b.stays, k, k, a.stays[n].shares)
  {
    hide Obeys, Size, Wants, InOrder, SameHeld;
    ObeysOrder(run, capital, sights, a);
    ObeysOrder(run, capital, sights, b);
    Bought(run, capital, sights, a, n);
    NotIdle(run, capital, sights, b, k);
    var m :| 0 <= m < |b.stays| && Holds(b.stays[m], k);
    if b.stays[m].enter < k {
      HeldSwap(a.stays, b.stays, k - 1);
      var other := KeptInBoth(run, capital, sights, b, a, k, m);
      OneHolder(a.stays, n, other, k);
    } else {
      Bought(run, capital, sights, b, m);
    }
  }

  lemma HeldInOther(run: Run, capital: real, sights: seq<Sight>, a: Record, b: Record, k: nat, i: nat, shares: int)
    requires Obeys(run, capital, sights, a) && Obeys(run, capital, sights, b)
    requires k < |a.curve| && k < |b.curve| && a.curve[k].equity == b.curve[k].equity
    requires k > 0 ==> SameHeld(a.stays, b.stays, k - 1)
    requires HeldBy(a.stays, k, i, shares)
    ensures HeldBy(b.stays, k, i, shares)
  {
    hide Obeys, SameHeld;
    var n :| 0 <= n < |a.stays| && Holds(a.stays[n], k) && a.stays[n].enter == i && a.stays[n].shares == shares;
    if i < k {
      var m := KeptInBoth(run, capital, sights, a, b, k, n);
    } else {
      BoughtInBoth(run, capital, sights, a, b, k, n);
    }
  }

  lemma NothingHeld(a: seq<Stay>, b: seq<Stay>, k: nat)
    requires SameHeld(a, b, k)
    ensures Idle(a, k) <==> Idle(b, k)
  {
    if n :| 0 <= n < |a| && Holds(a[n], k) {
      assert HeldBy(a, k, a[n].enter, a[n].shares);
    }
    if n :| 0 <= n < |b| && Holds(b[n], k) {
      assert HeldBy(b, k, b[n].enter, b[n].shares);
    }
  }

  /** Equity moves alike over a night with the same shares held. */
  lemma SameNight(sights: seq<Sight>, ca: seq<Snapshot>, a: seq<Stay>, cb: seq<Snapshot>, b: seq<Stay>, k: nat)
    requires 0 < k < |ca| == |cb| <= |sights| && Earns(sights, ca, a, k) && Earns(sights, cb, b, k)
    requires SameHeld(a, b, k - 1) && ca[k - 1].equity == cb[k - 1].equity
    ensures ca[k].equity == cb[k].equity
  {
    NothingHeld(a, b, k - 1);
    if n :| 0 <= n < |a| && Holds(a[n], k - 1) {
      assert HeldBy(a, k - 1, a[n].enter, a[n].shares);
      var m :| 0 <= m < |b| && Holds(b[m], k - 1) && b[m].enter == a[n].enter && b[m].shares == a[n].shares;
    }
  }

  /** Both records show the same equity and hold the same shares on every day. */
  lemma {:induction false} DaysAgree(run: Run, capital: real, sights: seq<Sight>, a: Record, b: Record, k: nat)
    requires Obeys(run, capital, sights, a) && Obeys(run, capital, sights, b) && k < |sights|
    ensures |a.curve| == |b.curve| == |sights|
    ensures a.curve[k].equity == b.curve[k].equity && SameHeld(a.stays, b.stays, k)
  {
    hide Obeys, HeldBy, Shows, Earns, InOrder, SameHeld;
    ObeysDay(run, capital, sights, a, k);
    ObeysDay(run, capital, sights, b, k);
    if k > 0 {
      DaysAgree(run, capital, sights, a, b, k - 1);
      SameNight(sights, a.curve, a.stays, b.curve, b.stays, k);
      HeldSwap(a.stays, b.stays, k - 1);
    }
    forall i, shares
      ensures HeldBy(a.stays, k, i, shares) <==> HeldBy(b.stays, k, i, shares)
    {
      if HeldBy(a.stays, k, i, shares) {
        HeldInOther(run, capital, sights, a, b, k, i, shares);
      }
      if HeldBy(b.stays, k, i, shares) {
        HeldInOther(run, capital, sights, b, a, k, i, shares);
      }
    }
    HeldAlike(a.stays, b.stays, k);
  }

  lemma HeldAlike(a: seq<Stay>, b: seq<Stay>, k: nat)
    requires forall i, shares :: HeldBy(a, k, i, shares) <==> HeldBy(b, k, i, shares)
    ensures SameHeld(a, b, k)
  {
    hide HeldBy;
  }

  // ---------------------------------------------------------------- the records are one

  lemma Leaves(run: Run, capital: real, sights: seq<Sight>, a: Record, b: Record, n: nat, m: nat)
    requires Obeys(run, capital, sights, a) && Obeys(run, capital, sights, b)
    requires n < |a.stays| && m < |b.stays|
    requires a.stays[n].enter == b.stays[m].enter && a.stays[n].shares == b.stays[m].shares
    ensures a.stays[n].leave >= b.stays[m].leave
  {
    hide Obeys, Proper, HeldBy, InOrder;
    ObeysStay(run, capital, sights, a, n);
    ObeysStay(run, capital, sights, b, m);
    ProperEnds(run, sights, a.curve, a.stays[n]);
    ProperEnds(run, sights, b.curve, b.stays[m]);
    var k := a.stays[n].leave;
    if k < b.stays[m].leave {
      DaysAgree(run, capital, sights, a, b, k);
      OtherHolds(a.stays, b.stays, m, k);
      var other :| 0 <= other < |a.stays| && Holds(a.stays[other], k) && a.stays[other].enter == a.stays[n].enter;
      ObeysOrder(run, capital, sights, a);
      OneHolder(a.stays, n, other, a.stays[n].enter);
    }
  }

  lemma ProperEnds(run: Run, sights: seq<Sight>, curve: seq<Snapshot>, stay: Stay)
    requires Priced(sights) && Proper(run, sights, curve, stay)
    ensures stay.enter < stay.leave <= |sights|
  {
  }

  lemma OtherHolds(a: seq<Stay>, b: seq<Stay>, m: nat, k: nat)
    requires SameHeld(a, b, k) && m < |b| && Holds(b[m], k)
    ensures exists n :: 0 <= n < |a| && Holds(a[n], k) && a[n].enter == b[m].enter && a[n].shares == b[m].shares
  {
    assert HeldBy(b, k, b[m].enter, b[m].shares);
    assert HeldBy(a, k, b[m].enter, b[m].shares);
  }

  /** Every stay of one record is one of the other. */
  lemma SameStay(run: Run, capital: real, sights: seq<Sight>, a: Record, b: Record, n: nat) returns (m: nat)
    requires Obeys(run, capital, sights, a) && Obeys(run, capital, sights, b) && n < |a.stays|
    ensures m < |b.stays| && b.stays[m] == a.stays[n]
  {
    hide Obeys, Proper, HeldBy, SameHeld;
    ObeysStay(run, capital, sights, a, n);
    ProperEnds(run, sights, a.curve, a.stays[n]);
    var k := a.stays[n].enter;
    DaysAgree(run, capital, sights, b, a, k);
    OtherHolds(b.stays, a.stays, n, k);
    m :| 0 <= m < |b.stays| && Holds(b.stays[m], k) && b.stays[m].enter == k && b.stays[m].shares == a.stays[n].shares;
    Leaves(run, capital, sights, a, b, n, m);
    Leaves(run, capital, sights, b, a, m, n);
  }

  function Enters(stays: seq<Stay>): (r: seq<int>)
    ensures |r| == |stays| && forall n :: 0 <= n < |r| ==> r[n] == stays[n].enter
  {
    seq(|stays|, n requires 0 <= n < |stays| => stays[n].enter)
  }

  lemma EntersAscend(run: Run, capital: real, sights: seq<Sight>, r: Record)
    requires Obeys(run, capital, sights, r)
    ensures Ascending(Enters(r.stays))
  {
    hide Obeys, Proper;
    ObeysOrder(run, capital, sights, r);
    forall i, j | 0 <= i < j < |r.stays|
      ensures Enters(r.stays)[i] < Enters(r.stays)[j]
    {
      ObeysStay(run, capital, sights, r, i);
      ProperEnds(run, sights, r.curve, r.stays[i]);
    }
  }

  lemma EntersIncluded(run: Run, capital: real, sights: seq<Sight>, a: Record, b: Record)
    requires Obeys(run, capital, sights, a) && Obeys(run, capital, sights, b)
    ensures forall d :: d in Enters(a.stays) ==> d in Enters(b.stays)
  {
    hide Obeys;
    forall d | d in Enters(a.stays)
      ensures d in Enters(b.stays)
    {
      var n :| 0 <= n < |a.stays| && Enters(a.stays)[n] == d;
      var m := SameStay(run, capital, sights, a, b, n);
      assert Enters(b.stays)[m] == d;
    }
  }

  lemma SameStays(run: Run, capital: real, sights: seq<Sight>, a: Record, b: Record)
    requires Obeys(run, capital, sights, a) && Obeys(run, capital, sights, b)
    ensures a.stays == b.stays
  {
    hide Obeys;
    EntersAscend(run, capital, sights, a);
    EntersAscend(run, capital, sights, b);
    EntersIncluded(run, capital, sights, a, b);
    EntersIncluded(run, capital, sights, b, a);
    var e := Enters(a.stays);
    AscendingUnique(e, Enters(b.stays));
    forall n | 0 <= n < |a.stays|
      ensures a.stays[n] == b.stays[n]
    {
      var m := SameStay(run, capital, sights, a, b, n);
      assert e[n] == a.stays[n].enter && e[m] == b.stays[m].enter;
    }
  }

  lemma SameTelling(run: Run, sights: seq<Sight>, stay: Stay, m: nat, reason: string, t: Trade, u: Trade)
    requires Priced(sights) && stay.enter <= m < |sights|
    requires Tells(run, sights, stay, m, reason, t) && Tells(run, sights, stay, m, reason, u)
    ensures t == u
  {
    hide Best, Worst;
    Arith.CancelEqual(t.pnlPct, u.pnlPct, t.entryPrice);
  }

  lemma TradeTold(run: Run, capital: real, sights: seq<Sight>, r: Record, n: nat)
    requires Obeys(run, capital, sights, r) && n < |r.stays|
    ensures Priced(sights) && n < |r.trades| && r.stays[n].enter < r.stays[n].leave <= |sights|
    ensures if r.stays[n].leave < |sights| then
              Tells(run, sights, r.stays[n], r.stays[n].leave, Answer(run, sights, r.stays[n], r.stays[n].leave).1,
                    r.trades[n])
            else Tells(run, sights, r.stays[n], |sights| - 1, "eod", r.trades[n])
  {
    hide CurveTells, Tells, Answer, Wants, Size;
  }

  lemma SameTrades(run: Run, capital: real, sights: seq<Sight>, a: Record, b: Record)
    requires Obeys(run, capital, sights, a) && Obeys(run, capital, sights, b) && a.stays == b.stays
    ensures a.trades == b.trades
  {
    hide Obeys, Tells, Answer;
    ObeysOrder(run, capital, sights, a);
    ObeysOrder(run, capital, sights, b);
    forall n | 0 <= n < |a.stays|
      ensures a.trades[n] == b.trades[n]
    {
      TradeTold(run, capital, sights, a, n);
      TradeTold(run, capital, sights, b, n);
      var stay := a.stays[n];
      if stay.leave < |sights| {
        SameTelling(run, sights, stay, stay.leave, Answer(run, sights, stay, stay.leave).1, a.trades[n], b.trades[n]);
      } else {
        SameTelling(run, sights, stay, |sights| - 1, "eod", a.trades[n], b.trades[n]);
      }
    }
  }

  /** Snapshots alike but for the drawdown, which is a matter of the equities. */
  ghost predicate SameCurve(a: seq<Snapshot>, b: seq<Snapshot>) {
    && |a| == |b|
    && forall k :: 0 <= k < |a| ==>
         && a[k].date == b[k].date && a[k].equity == b[k].equity
         && a[k].cash == b[k].cash && a[k].positionValue == b[k].positionValue
  }

  lemma SameSnapshots(run: Run, capital: real, sights: seq<Sight>, a: Record, b: Record)
    requires Obeys(run, capital, sights, a) && Obeys(run, capital, sights, b) && a.stays == b.stays
    ensures SameCurve(a.curve, b.curve)
  {
    hide Obeys, Wants, Size, Earns, SameHeld;
    ObeysOrder(run, capital, sights, a);
    ObeysOrder(run, capital, sights, b);
    forall k | 0 <= k < |sights|
      ensures a.curve[k].date == b.curve[k].date && a.curve[k].equity == b.curve[k].equity
      ensures a.curve[k].cash == b.curve[k].cash && a.curve[k].positionValue == b.curve[k].positionValue
    {
      DaysAgree(run, capital, sights, a, b, k);
      ObeysDay(run, capital, sights, a, k);
      ObeysDay(run, capital, sights, b, k);
    }
  }

  /** Two records that follow one strategy on the same days are the same. */
  lemma OneRecord(run: Run, capital: real, sights: seq<Sight>, a: Record, b: Record)
    requires Obeys(run, capital, sights, a) && Obeys(run, capital, sights, b)
    ensures a.trades == b.trades && SameCurve(a.curve, b.curve)
  {
    hide *;
    SameStays(run, capital, sights, a, b);
    SameTrades(run, capital, sights, a, b);
    SameSnapshots(run, capital, sights, a, b);
  }

  /** What a completed backtest reports is the one record of the request's days that follows the strategy: any other
      trades or snapshots, of whatever stays, do not. */
  lemma BacktestIsOnlyRecord(run: Run, bars: seq<Bar>, start: int, end: int, capital: real, other: Record)
    returns (first: nat, sights: seq<Sight>)
    requires Series(bars) && Backtest(run, bars, start, end, capital).Completed?
    ensures RowsShown(run, bars, start, end, first, sights)
    ensures var b := Backtest(run, bars, start, end, capital).book;
            && (exists stays :: Follows(run, capital, sights, b.trades, b.curve, stays))
            && (Obeys(run, capital, sights, other) ==>
                  other.trades == b.trades && SameCurve(other.curve, b.curve))
  {
    hide Follows, RowsShown, Backtest, SameCurve;
    var stays;
    first, sights, stays := StrategyIsFollowed(run, bars, start, end, capital);
    var b := Backtest(run, bars, start, end, capital).book;
    var mine := Record(b.trades, b.curve, stays);
    if Obeys(run, capital, sights, other) {
      OneRecord(run, capital, sights, other, mine);
    }
  }
}
