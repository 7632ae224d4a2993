/** Drawdown and profit factor of a finished backtest. */
module Metrics {
  import opened Ledger
  import Arith

  // ---------------------------------------------------------------- drawdown

  function Equities(curve: seq<Snapshot>): (e: seq<real>)
    ensures |e| == |curve|
    ensures forall i :: 0 <= i < |e| ==> e[i] == curve[i].equity
  {
    seq(|curve|, i requires 0 <= i < |curve| => curve[i].equity)
  }

  function Peak(e: seq<real>): real
    requires |e| > 0
  {
    if |e| == 1 then e[0] else Max(Peak(e[..|e| - 1]), e[|e| - 1])
  }

  /** The largest drop from the running peak, in percent of the peak. */
  function MaxDrawdown(e: seq<real>): real {
    if |e| == 0 then 0.0 else Max(MaxDrawdown(e[..|e| - 1]), DrawdownPct(Peak(e), e[|e| - 1]))
  }

  method CalculateMaxDrawdown(curve: seq<Snapshot>) returns (maxDd: real)
    ensures maxDd == MaxDrawdown(Equities(curve))
  {
    if |curve| == 0 {
      return 0.0;
    }
    ghost var e := Equities(curve);
    maxDd := 0.0;
    var peakEquity := curve[0].equity;
    for i := 0 to |curve|
      invariant peakEquity == if i == 0 then e[0] else Peak(e[..i])
      invariant maxDd == MaxDrawdown(e[..i])
    {
      assert e[..i + 1][..i] == e[..i];
      peakEquity := Max(peakEquity, curve[i].equity);
      var drawdown := if peakEquity > 0.0 then (peakEquity - curve[i].equity) / peakEquity * 100.0 else 0.0;
      maxDd := Max(maxDd, drawdown);
    }
    assert e[..|e|] == e;
  }

  ghost predicate NonNegative(e: seq<real>) {
    forall i :: 0 <= i < |e| ==> e[i] >= 0.0
  }

  lemma {:induction false} PeakIsLargest(e: seq<real>) returns (k: nat)
    requires |e| > 0
    ensures k < |e| && Peak(e) == e[k]
    ensures forall i :: 0 <= i < |e| ==> e[i] <= Peak(e)
  {
    if |e| == 1 {
      k := 0;
    } else {
      var n := |e| - 1;
      k := PeakIsLargest(e[..n]);
      assert forall i :: 0 <= i < n ==> e[i] == e[..n][i];
      if e[k] < e[n] {
        k := n;
      }
    }
  }

  /** A higher peak makes a deeper drawdown, as long as equity is not negative. */
  lemma DrawdownMonotone(p: real, q: real, x: real)
    requires p <= q && x <= q && x >= 0.0
    ensures DrawdownPct(p, x) <= DrawdownPct(q, x)
  {
    if p > 0.0 {
      var a, b := (p - x) / p, (q - x) / q;
      Arith.QuotientTimes(p - x, p);
      Arith.QuotientTimes(q - x, q);
      HigherIsDeeper(a, b, p, q, x);
    } else if q > 0.0 {
      Arith.QuotientTimes(q - x, q);
      Arith.CancelOrder(0.0, (q - x) / q, q);
    }
  }

  lemma HigherIsDeeper(a: real, b: real, p: real, q: real, x: real)
    requires 0.0 < p <= q && x >= 0.0 && a * p == p - x && b * q == q - x
    ensures a <= b
  {
    var d := q - p;
    Arith.Distribute(q, p, b);
    Arith.CancelOrder(b, 1.0, q);
    Arith.MultiplyOrder(b, 1.0, d);
    Arith.CancelOrder(a, b, p);
  }

  lemma DrawdownRange(p: real, x: real)
    requires x <= p && x >= 0.0
    ensures 0.0 <= DrawdownPct(p, x) <= 100.0
  {
    if p > 0.0 {
      var a := (p - x) / p;
      Arith.QuotientTimes(p - x, p);
      Arith.CancelOrder(0.0, a, p);
      Arith.CancelOrder(a, 1.0, p);
    }
  }

  lemma DrawdownNonNegative(p: real, x: real)
    requires x <= p
    ensures DrawdownPct(p, x) >= 0.0
  {
    if p > 0.0 {
      Arith.QuotientTimes(p - x, p);
      Arith.CancelOrder(0.0, (p - x) / p, p);
    }
  }

  /** Below zero a lower positive level makes the deeper drawdown. */
  lemma NegativeIsDeeper(p: real, q: real, x: real)
    requires 0.0 < p < q && x < 0.0
    ensures DrawdownPct(p, x) > DrawdownPct(q, x)
  {
    var a, b := (p - x) / p, (q - x) / q;
    Arith.QuotientTimes(p - x, p);
    Arith.QuotientTimes(q - x, q);
    LowerIsDeeper(a, b, p, q, x);
  }

  lemma LowerIsDeeper(a: real, b: real, p: real, q: real, x: real)
    requires 0.0 < p < q && x < 0.0 && a * p == p - x && b * q == q - x
    ensures b < a
  {
    Arith.Distribute(q, p, b);
    assert (b - 1.0) * q == -x;
    Arith.CancelStrict(1.0, b, q);
    Arith.MultiplyOrder(1.0, b, q - p);
    Arith.CancelStrict(b, a, p);
  }

  /** The guard of a day: equity is not negative, or no positive level below the running peak comes before it. */
  ghost predicate PeakStarts(e: seq<real>, j: nat)
    requires j < |e|
  {
    e[j] >= 0.0 || forall a :: 0 <= a <= j && e[a] > 0.0 ==> e[a] == Peak(e[..j + 1])
  }

  /** The running peak is the worst starting day exactly under the guard. */
  lemma PeakIsWorstStartIff(e: seq<real>, j: nat)
    requires j < |e|
    ensures (forall a :: 0 <= a <= j ==> DrawdownPct(e[a], e[j]) <= DrawdownPct(Peak(e[..j + 1]), e[j]))
       <==> PeakStarts(e, j)
  {
    hide DrawdownPct;
    var some, p, x := e[..j + 1], Peak(e[..j + 1]), e[j];
    var k := PeakIsLargest(some);
    assert some[j] == x && some[k] == e[k] == p;
    DrawdownNonNegative(p, x);
    forall a | 0 <= a <= j
      ensures x >= 0.0 || e[a] <= 0.0 || e[a] == p ==> DrawdownPct(e[a], x) <= DrawdownPct(p, x)
      ensures x < 0.0 && 0.0 < e[a] && e[a] != p ==> DrawdownPct(e[a], x) > DrawdownPct(p, x)
    {
      assert some[a] == e[a];
      if x >= 0.0 {
        DrawdownMonotone(e[a], p, x);
      } else if 0.0 < e[a] < p {
        NegativeIsDeeper(e[a], p, x);
      } else if e[a] <= 0.0 {
        NoDrawdown(e[a], x);
      }
    }
  }

  lemma NoDrawdown(p: real, x: real)
    requires p <= 0.0
    ensures DrawdownPct(p, x) == 0.0
  {
  }

  /** On a whole curve: every day's drawdown is the worst from any earlier day exactly when every day meets the
      guard. */
  lemma CurveFromPeakIff(e: seq<real>)
    ensures (forall j, a :: 0 <= a <= j < |e| ==> DrawdownPct(e[a], e[j]) <= DrawdownPct(Peak(e[..j + 1]), e[j]))
       <==> (forall j :: 0 <= j < |e| ==> PeakStarts(e, j))
  {
    hide DrawdownPct, PeakStarts;
    forall j | 0 <= j < |e|
      ensures (forall a :: 0 <= a <= j ==> DrawdownPct(e[a], e[j]) <= DrawdownPct(Peak(e[..j + 1]), e[j]))
         <==> PeakStarts(e, j)
    {
      PeakIsWorstStartIff(e, j);
    }
  }

  /** No day is further below its running peak than the maximum drawdown, and some day is as far, if any is below at
      all. */
  lemma {:induction false} DaysWithinMax(e: seq<real>) returns (d: nat)
    requires |e| > 0
    ensures d < |e| && DrawdownPct(Peak(e[..d + 1]), e[d]) == MaxDrawdown(e) >= 0.0
    ensures forall j :: 0 <= j < |e| ==> DrawdownPct(Peak(e[..j + 1]), e[j]) <= MaxDrawdown(e)
  {
    hide DrawdownPct, Peak;
    var n := |e| - 1;
    assert e[..n + 1] == e;
    var k := PeakIsLargest(e);
    DrawdownNonNegative(Peak(e), e[n]);
    if n == 0 {
      assert e[..n] == [];
      d := 0;
    } else {
      d := DaysWithinMax(e[..n]);
      forall j | 0 <= j < n
        ensures DrawdownPct(Peak(e[..j + 1]), e[j]) == DrawdownPct(Peak(e[..n][..j + 1]), e[..n][j])
      {
        assert e[..n][..j + 1] == e[..j + 1];
      }
      if MaxDrawdown(e[..n]) <= DrawdownPct(Peak(e), e[n]) {
        d := n;
      }
    }
  }

  /** From positive levels, one drop is no deeper than another exactly when it keeps at least the same share of its
      level. */
  lemma DropOrder(m: real, x: real, p: real, y: real)
    requires m > 0.0 && p > 0.0
    ensures DrawdownPct(m, x) <= DrawdownPct(p, y) <==> y * m <= x * p
  {
    var a, b := (m - x) / m, (p - y) / p;
    Arith.QuotientTimes(m - x, m);
    Arith.QuotientTimes(p - y, p);
    ShareOrder(a, b, m, x, p, y);
  }

  lemma ShareOrder(a: real, b: real, m: real, x: real, p: real, y: real)
    requires m > 0.0 && p > 0.0 && a * m == m - x && b * p == p - y
    ensures a <= b <==> y * m <= x * p
  {
    var k, u, v := m * p, y * m, x * p;
    Arith.ProductSign(m, p);
    assert a * k == (a * m) * p == k - v;
    assert b * k == (b * p) * m == k - u;
    ScaledOrder(a, b, k, u, v);
  }

  lemma ScaledOrder(a: real, b: real, k: real, u: real, v: real)
    requires k > 0.0 && a * k == k - v && b * k == k - u
    ensures a <= b <==> u <= v
  {
    if a <= b {
      Arith.MultiplyOrder(a, b, k);
    } else {
      Arith.MultiplyOrder(b, a, k);
    }
  }

  /** Day `j` keeps no larger share of its running peak than day `b` keeps of the level of day `a`. */
  ghost predicate Deeper(e: seq<real>, a: nat, b: nat, j: nat)
    requires a < |e| && b < |e| && j < |e|
  {
    Peak(e[..j + 1]) > 0.0 && e[j] * e[a] <= e[b] * Peak(e[..j + 1])
  }

  ghost predicate DeeperDay(e: seq<real>, a: nat, b: nat)
    requires a < |e| && b < |e|
  {
    exists j :: 0 <= j < |e| && Deeper(e, a, b, j)
  }

  lemma DeeperIs(e: seq<real>, a: nat, b: nat, j: nat)
    requires a < |e| && b < |e| && j < |e| && e[b] < 0.0 < e[a]
    ensures Deeper(e, a, b, j) <==> DrawdownPct(e[a], e[b]) <= DrawdownPct(Peak(e[..j + 1]), e[j])
  {
    hide Peak, DrawdownPct;
    if Peak(e[..j + 1]) > 0.0 {
      DropOrder(e[a], e[b], Peak(e[..j + 1]), e[j]);
    } else {
      NoDrawdown(Peak(e[..j + 1]), e[j]);
      PositiveDrop(e[a], e[b]);
    }
  }

  /** A pair that starts at a positive level and ends below zero is within the maximum drawdown exactly when some day
      is deeper. */
  lemma NegativePairIff(e: seq<real>, a: nat, b: nat)
    requires a < |e| && b < |e| && e[b] < 0.0 < e[a]
    ensures DrawdownPct(e[a], e[b]) <= MaxDrawdown(e) <==> DeeperDay(e, a, b)
  {
    hide MaxDrawdown, Peak, Deeper, DrawdownPct;
    var d := DaysWithinMax(e);
    DeeperIs(e, a, b, d);
    if j :| 0 <= j < |e| && Deeper(e, a, b, j) {
      DeeperIs(e, a, b, j);
    }
  }

  lemma PositiveDrop(p: real, x: real)
    requires x < 0.0 < p
    ensures DrawdownPct(p, x) > 0.0
  {
    Arith.QuotientTimes(p - x, p);
    Arith.CancelStrict(0.0, (p - x) / p, p);
  }

  /** The maximum drawdown bounds every pair of days exactly when, for each pair from a positive level below the
      running peak to below zero, some day keeps no larger share of its running peak: a matter of the curve's levels
      alone. */
  lemma MaxDrawdownBoundsPairsIff(e: seq<real>)
    ensures (forall a, b :: 0 <= a <= b < |e| ==> DrawdownPct(e[a], e[b]) <= MaxDrawdown(e))
       <==> (forall a, b :: 0 <= a <= b < |e| && e[b] < 0.0 < e[a] < Peak(e[..b + 1]) ==> DeeperDay(e, a, b))
  {
    hide DrawdownPct, MaxDrawdown, DeeperDay;
    forall a, b | 0 <= a <= b < |e|
      ensures if e[b] < 0.0 < e[a] < Peak(e[..b + 1]) then DrawdownPct(e[a], e[b]) <= MaxDrawdown(e)
         <==> DeeperDay(e, a, b)
              else DrawdownPct(e[a], e[b]) <= MaxDrawdown(e)
    {
      if e[b] < 0.0 < e[a] < Peak(e[..b + 1]) {
        NegativePairIff(e, a, b);
      } else {
        var _ := DaysWithinMax(e);
        OtherPairsFromPeak(e, a, b);
      }
    }
  }

  /** The maximum drawdown stays within 100 percent exactly when no day with a positive peak behind it is below zero. */
  lemma MaxDrawdownWithinHundredIff(e: seq<real>)
    ensures MaxDrawdown(e) <= 100.0 <==> forall j :: 0 <= j < |e| && Peak(e[..j + 1]) > 0.0 ==> e[j] >= 0.0
  {
    hide DrawdownPct, Peak;
    if |e| > 0 {
      hide MaxDrawdown;
      var d := DaysWithinMax(e);
      forall j | 0 <= j < |e|
        ensures DrawdownPct(Peak(e[..j + 1]), e[j]) <= 100.0 <==> (Peak(e[..j + 1]) > 0.0 ==> e[j] >= 0.0)
      {
        WithinHundred(Peak(e[..j + 1]), e[j]);
      }
    }
  }

  lemma WithinHundred(p: real, x: real)
    ensures DrawdownPct(p, x) <= 100.0 <==> (p > 0.0 ==> x >= 0.0)
  {
    if p > 0.0 {
      var a := (p - x) / p;
      Arith.QuotientTimes(p - x, p);
      if x >= 0.0 {
        Arith.CancelOrder(a, 1.0, p);
      } else {
        Arith.CancelStrict(1.0, a, p);
      }
    }
  }

  /** So a drawdown over trade results is a fraction exactly when the running totals never fall below zero after being
      positive. */
  lemma FractionIff(pnls: seq<real>, drawdown: real)
    requires drawdown * 100.0 == MaxDrawdown(Totals(pnls))
    ensures var e := Totals(pnls);
            0.0 <= drawdown
            && (drawdown <= 1.0 <==> forall j :: 0 <= j < |e| && Peak(e[..j + 1]) > 0.0 ==> e[j] >= 0.0)
  {
    hide MaxDrawdown, Totals, Peak;
    MaxDrawdownWithinHundredIff(Totals(pnls));
    var _ := DaysWithinMax(Totals(pnls));
  }

  lemma OtherPairsFromPeak(e: seq<real>, a: nat, b: nat)
    requires a <= b < |e| && !(e[b] < 0.0 < e[a] < Peak(e[..b + 1]))
    ensures DrawdownPct(e[a], e[b]) <= DrawdownPct(Peak(e[..b + 1]), e[b])
  {
    hide DrawdownPct;
    var some := e[..b + 1];
    var k := PeakIsLargest(some);
    assert some[a] == e[a] && some[b] == e[b];
    DrawdownNonNegative(Peak(some), e[b]);
    if e[b] >= 0.0 {
      DrawdownMonotone(e[a], Peak(some), e[b]);
    } else if e[a] <= 0.0 {
      NoDrawdown(e[a], e[b]);
    }
  }

  /** Where every day meets the guard, as on a curve that is never negative, no pair of days drops further than the
      maximum drawdown, and some pair drops as far. */
  lemma MaxDrawdownIsWorstPair(e: seq<real>) returns (i: nat, j: nat)
    requires |e| > 0 && forall k :: 0 <= k < |e| ==> PeakStarts(e, k)
    ensures i <= j < |e| && DrawdownPct(e[i], e[j]) == MaxDrawdown(e)
    ensures forall a, b :: 0 <= a <= b < |e| ==> DrawdownPct(e[a], e[b]) <= MaxDrawdown(e)
    ensures 0.0 <= MaxDrawdown(e) && (NonNegative(e) ==> MaxDrawdown(e) <= 100.0)
  {
    hide DrawdownPct, MaxDrawdown, PeakStarts;
    CurveFromPeakIff(e);
    j := DaysWithinMax(e);
    i := PeakIsLargest(e[..j + 1]);
    assert e[..j + 1][i] == e[i] && e[..j + 1][j] == e[j];
    if NonNegative(e) {
      DrawdownRange(e[i], e[j]);
    }
  }

  lemma NonNegativeStarts(e: seq<real>)
    requires NonNegative(e)
    ensures forall k :: 0 <= k < |e| ==> PeakStarts(e, k)
  {
  }

  /** Profits of 1 and 1 and a loss of 3: the running totals fall below zero, and the first gain is a worse start than
      the peak. */
  lemma NegativeEquityBreaksPairs()
    ensures var e := Totals([1.0, 1.0, -3.0]);
            && e == [0.0, 1.0, 2.0, -1.0]
            && MaxDrawdown(e) == 150.0 && DrawdownPct(e[1], e[3]) == 200.0
            && !PeakStarts(e, 3)
  {
    TotalsOfThree(1.0, 1.0, -3.0);
    var e := [0.0, 1.0, 2.0, -1.0];
    assert e[..3] == [0.0, 1.0, 2.0] && e[..3][..2] == [0.0, 1.0] && e[..3][..2][..1] == [0.0]
        && e[..3][..2][..1][..0] == [];
    assert Peak(e[..3][..2][..1]) == 0.0 && Peak(e[..3][..2]) == 1.0 && Peak(e[..3]) == 2.0 && Peak(e) == 2.0;
    assert MaxDrawdown(e[..3][..2][..1]) == 0.0;
    assert MaxDrawdown(e[..3][..2]) == 0.0;
    assert MaxDrawdown(e[..3]) == 0.0;
    assert e[..4] == e;
  }

  lemma TotalsOfThree(a: real, b: real, c: real)
    ensures Totals([a, b, c]) == [0.0, a, a + b, a + b + c]
  {
    var all := [a, b, c];
    assert all[..2] == [a, b] && all[..2][..1] == [a] && all[..2][..1][..0] == [];
    assert Totals(all[..2][..1]) == [0.0, a];
    assert Totals(all[..2]) == [0.0, a, a + b];
  }

  /** The running totals of a list of profits and losses, starting from zero. */
  function Totals(pnls: seq<real>): (e: seq<real>)
    ensures |e| == |pnls| + 1
  {
    if |pnls| == 0 then [0.0]
    else
      var e := Totals(pnls[..|pnls| - 1]);
      e + [e[|pnls| - 1] + pnls[|pnls| - 1]]
  }

  /** The drawdown over trade results is the curve drawdown of their running totals, as a fraction. */
  method CalculateSimpleMaxDrawdown(pnls: seq<real>) returns (maxDrawdown: real)
    ensures maxDrawdown * 100.0 == MaxDrawdown(Totals(pnls))
  {
    if |pnls| == 0 {
      assert Totals(pnls)[..0] == [];
      return 0.0;
    }
    var cumulativePnl, peakPnl := 0.0, 0.0;
    maxDrawdown := 0.0;
    assert pnls[..0] == [] && Totals([])[..0] == [];
    for i := 0 to |pnls|
      invariant cumulativePnl == Totals(pnls[..i])[i]
      invariant peakPnl == Peak(Totals(pnls[..i]))
      invariant maxDrawdown * 100.0 == MaxDrawdown(Totals(pnls[..i]))
    {
      assert pnls[..i + 1][..i] == pnls[..i];
      assert Totals(pnls[..i + 1])[..i + 1] == Totals(pnls[..i]);
      cumulativePnl := cumulativePnl + pnls[i];
      peakPnl := Max(peakPnl, cumulativePnl);
      var drawdown := if peakPnl > 0.0 then (peakPnl - cumulativePnl) / peakPnl else 0.0;
      maxDrawdown := Max(maxDrawdown, drawdown);
    }
    assert pnls[..|pnls|] == pnls;
  }

  // ---------------------------------------------------------------- profit factor

  function Wins(ts: seq<Trade>): real {
    if |ts| == 0 then 0.0
    else Wins(ts[..|ts| - 1]) + if ts[|ts| - 1].pnl > 0.0 then ts[|ts| - 1].pnl else 0.0
  }

  function Losses(ts: seq<Trade>): real {
    if |ts| == 0 then 0.0
    else Losses(ts[..|ts| - 1]) + if ts[|ts| - 1].pnl < 0.0 then ts[|ts| - 1].pnl else 0.0
  }

  function ProfitFactor(ts: seq<Trade>): real {
    if |ts| == 0 then 0.0
    else
      var wins, losses := Wins(ts), if Losses(ts) < 0.0 then -Losses(ts) else Losses(ts);
      if losses == 0.0 then (if wins > 0.0 then 999.0 else 0.0) else wins / losses
  }

  lemma {:induction false} RealizedIsWinsPlusLosses(ts: seq<Trade>)
    ensures Realized(ts) == Wins(ts) + Losses(ts)
    ensures Wins(ts) >= 0.0 && Losses(ts) <= 0.0
  {
    if |ts| > 0 {
      RealizedIsWinsPlusLosses(ts[..|ts| - 1]);
    }
  }

  /** The profit factor is what the losses must be multiplied by to give the wins, or 999 where there are only wins;
      it is above one exactly when the total profit is positive. */
  lemma ProfitFactorAboveOneIff(ts: seq<Trade>)
    ensures ProfitFactor(ts) > 1.0 <==> Realized(ts) > 0.0
    ensures Losses(ts) < 0.0 ==> ProfitFactor(ts) * -Losses(ts) == Wins(ts)
    ensures Losses(ts) == 0.0 ==> ProfitFactor(ts) == if Wins(ts) > 0.0 then 999.0 else 0.0
    ensures ProfitFactor(ts) >= 0.0
  {
    RealizedIsWinsPlusLosses(ts);
    if |ts| > 0 && Losses(ts) < 0.0 {
      var w, l := Wins(ts), -Losses(ts);
      Arith.QuotientTimes(w, l);
      QuotientAboveOne(w, l, w / l);
    }
  }

  lemma QuotientAboveOne(w: real, l: real, r: real)
    requires w >= 0.0 && l > 0.0 && r * l == w
    ensures r >= 0.0 && (r > 1.0 <==> w > l)
  {
    Arith.CancelOrder(0.0, r, l);
    if r > 1.0 {
      Arith.MultiplyOrder(1.0, r, l);
    } else {
      Arith.MultiplyOrder(r, 1.0, l);
    }
  }
}
