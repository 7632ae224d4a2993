/** Flow-adjusted (Modified Dietz) returns over a fixed set of accounts. Dictionaries are association lists in
    insertion order. */
module PortfolioPerformance {
  import opened Wrappers
  import opened Calendar
  import Arith

  datatype Account = Account(id: string, history: map<int, real>)
  datatype Flow = Flow(account: string, day: int, amount: real)

  datatype Reason = NoValuations | NoOverlap | MissingValuation | NonpositiveBase | Unreconciled
  datatype Aligned = Aligned(dates: seq<int>, values: seq<real>) | Withheld(reason: Reason)

  // ---------------------------------------------------------------- one interval

  /** What all accounts together are worth on a day. */
  function ValueOn(snapshots: seq<Account>, d: int): real
    requires forall i :: 0 <= i < |snapshots| ==> d in snapshots[i].history
  {
    if |snapshots| == 0 then 0.0
    else ValueOn(snapshots[..|snapshots| - 1], d) + snapshots[|snapshots| - 1].history[d]
  }

  /** What accounts are worth together is the sum of what each is worth. */
  lemma {:induction false} ValueAdds(a: seq<Account>, b: seq<Account>, d: int)
    requires forall s :: s in a || s in b ==> d in s.history
    ensures ValueOn(a + b, d) == ValueOn(a, d) + ValueOn(b, d)
    ensures |b| == 1 ==> ValueOn(b, d) == b[0].history[d]
  {
    if |b| == 0 {
      assert a + b == a;
    } else {
      var n := |b| - 1;
      assert (a + b)[..|a| + n] == a + b[..n];
      ValueAdds(a, b[..n], d);
    }
  }

  predicate Selected(snapshots: seq<Account>, id: string) {
    exists i :: 0 <= i < |snapshots| && snapshots[i].id == id
  }

  /** Net flow of the selected accounts after `before`, up to and including `after`. */
  function FlowBetween(snapshots: seq<Account>, flows: seq<Flow>, before: int, after: int): real {
    if |flows| == 0 then 0.0
    else
      var f := flows[|flows| - 1];
      FlowBetween(snapshots, flows[..|flows| - 1], before, after)
      + if Selected(snapshots, f.account) && before < f.day <= after then f.amount else 0.0
  }

  function Base(snapshots: seq<Account>, flows: seq<Flow>, before: int, after: int): real
    requires forall i :: 0 <= i < |snapshots| ==> before in snapshots[i].history
  {
    ValueOn(snapshots, before) + 0.5 * FlowBetween(snapshots, flows, before, after)
  }

  datatype Step = Return(value: real) | Stop(reason: Reason)

  function IntervalReturn(snapshots: seq<Account>, flows: seq<Flow>, before: int, after: int): Step
    requires forall i :: 0 <= i < |snapshots| ==>
      before in snapshots[i].history && after in snapshots[i].history
  {
    var start, end := ValueOn(snapshots, before), ValueOn(snapshots, after);
    var base := Base(snapshots, flows, before, after);
    if base <= 0.0 || start < 0.0 || end < 0.0 then Stop(NonpositiveBase)
    else
      var value := (end - start - FlowBetween(snapshots, flows, before, after)) / base;
      if value < -1.0 then Stop(Unreconciled) else Return(value)
  }

  // ---------------------------------------------------------------- the whole series

  ghost predicate Covers(snapshots: seq<Account>, days: seq<int>) {
    forall i, k :: 0 <= i < |snapshots| && 0 <= k < |days| ==> days[k] in snapshots[i].history
  }

  /** The returns over consecutive days, stopping at the first interval that has none. */
  function IntervalReturns(snapshots: seq<Account>, flows: seq<Flow>, days: seq<int>): Aligned
    requires forall i, k :: 0 <= i < |snapshots| && 0 <= k < |days| ==> days[k] in snapshots[i].history
  {
    if |days| < 2 then Aligned(days, [])
    else
      var n := |days| - 1;
      match IntervalReturns(snapshots, flows, days[..n])
      case Withheld(reason) => Withheld(reason)
      case Aligned(_, values) =>
        match IntervalReturn(snapshots, flows, days[n - 1], days[n])
        case Stop(reason) => Withheld(reason)
        case Return(value) => Aligned(days, values + [value])
  }

  function Common(snapshots: seq<Account>, sessions: seq<int>): set<int>
    requires |snapshots| > 0
  {
    set d | d in sessions && forall i :: 0 <= i < |snapshots| ==> d in snapshots[i].history
  }

  function Between(sessions: seq<int>, first: int, last: int): seq<int> {
    if |sessions| == 0 then []
    else
      var d := sessions[|sessions| - 1];
      Between(sessions[..|sessions| - 1], first, last) + if first <= d <= last then [d] else []
  }

  function AlignedReturns(snapshots: seq<Account>, flows: seq<Flow>, sessions: seq<int>): Aligned {
    if |snapshots| == 0 || |sessions| == 0 then Withheld(NoValuations)
    else
      var common := Common(snapshots, sessions);
      if |common| < 2 then Withheld(NoOverlap)
      else
        var sorted := SortDates(common);
        var days := Between(sessions, sorted[0], sorted[|sorted| - 1]);
        if exists d :: d in days && d !in common then Withheld(MissingValuation)
        else
          assert forall k :: 0 <= k < |days| ==> days[k] in days;
          IntervalReturns(snapshots, flows, days)
  }

  method SumValues(snapshots: seq<Account>, d: int) returns (total: real)
    requires forall i :: 0 <= i < |snapshots| ==> d in snapshots[i].history
    ensures total == ValueOn(snapshots, d)
  {
    total := 0.0;
    for i := 0 to |snapshots|
      invariant total == ValueOn(snapshots[..i], d)
    {
      assert snapshots[..i + 1][..i] == snapshots[..i];
      total := total + snapshots[i].history[d];
    }
    assert snapshots[..|snapshots|] == snapshots;
  }

  method SumFlows(snapshots: seq<Account>, flows: seq<Flow>, before: int, after: int) returns (total: real)
    ensures total == FlowBetween(snapshots, flows, before, after)
  {
    total := 0.0;
    for i := 0 to |flows|
      invariant total == FlowBetween(snapshots, flows[..i], before, after)
    {
      assert flows[..i + 1][..i] == flows[..i];
      if Selected(snapshots, flows[i].account) && before < flows[i].day <= after {
        total := total + flows[i].amount;
      }
    }
    assert flows[..|flows|] == flows;
  }

  /** The loop over neighbouring days, with its early exits. */
  method PairwiseReturns(snapshots: seq<Account>, flows: seq<Flow>, days: seq<int>) returns (r: Aligned)
    requires |days| > 0 && Covers(snapshots, days)
    ensures r == IntervalReturns(snapshots, flows, days)
  {
    var values: seq<real> := [];
    for k := 1 to |days|
      invariant |values| == k - 1 && IntervalReturns(snapshots, flows, days[..k]) == Aligned(days[..k], values)
    {
      var before, after := days[k - 1], days[k];
      var start := SumValues(snapshots, before);
      var end := SumValues(snapshots, after);
      var flow := SumFlows(snapshots, flows, before, after);
      var denominator := start + 0.5 * flow;
      assert days[..k + 1][..k] == days[..k];
      if denominator <= 0.0 || start < 0.0 || end < 0.0 {
        StopsForGood(snapshots, flows, days, k + 1);
        return Withheld(NonpositiveBase);
      }
      var value := (end - start - flow) / denominator;
      if value < -1.0 {
        StopsForGood(snapshots, flows, days, k + 1);
        return Withheld(Unreconciled);
      }
      values := values + [value];
    }
    assert days[..|days|] == days;
    r := Aligned(days, values);
  }

  method CalculateAlignedReturns(snapshots: seq<Account>, flows: seq<Flow>, sessions: seq<int>) returns (r: Aligned)
    ensures r == AlignedReturns(snapshots, flows, sessions)
  {
    if |snapshots| == 0 || |sessions| == 0 {
      return Withheld(NoValuations);
    }
    var common := Common(snapshots, sessions);
    if |common| < 2 {
      return Withheld(NoOverlap);
    }
    var sorted := SortDates(common);
    var first, last := sorted[0], sorted[|sorted| - 1];
    var days := Between(sessions, first, last);
    if exists d :: d in days && d !in common {
      return Withheld(MissingValuation);
    }
    assert forall k :: 0 <= k < |days| ==> days[k] in days;
    assert sorted[0] in sorted;
    BetweenMember(sessions, first, last, first);
    r := PairwiseReturns(snapshots, flows, days);
  }

  lemma {:induction false} StopsForGood(snapshots: seq<Account>, flows: seq<Flow>, days: seq<int>, k: nat)
    requires Covers(snapshots, days) && k <= |days|
    requires IntervalReturns(snapshots, flows, days[..k]).Withheld?
    ensures IntervalReturns(snapshots, flows, days) == IntervalReturns(snapshots, flows, days[..k])
  {
    if k < |days| {
      var n := |days| - 1;
      assert days[..n][..k] == days[..k];
      StopsForGood(snapshots, flows, days[..n], k);
    } else {
      assert days[..k] == days;
    }
  }

  lemma {:induction false} BetweenMember(sessions: seq<int>, first: int, last: int, d: int)
    ensures d in Between(sessions, first, last) <==> d in sessions && first <= d <= last
  {
    if |sessions| > 0 {
      BetweenMember(sessions[..|sessions| - 1], first, last, d);
      assert sessions == sessions[..|sessions| - 1] + [sessions[|sessions| - 1]];
    }
  }

  lemma {:induction false} BetweenAscends(sessions: seq<int>, first: int, last: int)
    requires Ascending(sessions)
    ensures Ascending(Between(sessions, first, last))
  {
    if |sessions| > 0 {
      var n := |sessions| - 1;
      var before := Between(sessions[..n], first, last);
      BetweenAscends(sessions[..n], first, last);
      forall k | 0 <= k < |before|
        ensures before[k] < sessions[n]
      {
        assert before[k] in before;
        BetweenMember(sessions[..n], first, last, before[k]);
        var i :| 0 <= i < n && sessions[..n][i] == before[k];
      }
    }
  }

  // ---------------------------------------------------------------- accounting

  lemma {:induction false} FlowSplits(snapshots: seq<Account>, flows: seq<Flow>, a: int, b: int, c: int)
    requires a <= b <= c
    ensures FlowBetween(snapshots, flows, a, c)
         == FlowBetween(snapshots, flows, a, b) + FlowBetween(snapshots, flows, b, c)
  {
    if |flows| > 0 {
      FlowSplits(snapshots, flows[..|flows| - 1], a, b, c);
    }
  }

  /** Gains in money: each return times the capital base it was earned on. */
  function Gains(snapshots: seq<Account>, flows: seq<Flow>, days: seq<int>, values: seq<real>): real
    requires |values| + 1 == |days|
    requires forall i, k :: 0 <= i < |snapshots| && 0 <= k < |days| ==> days[k] in snapshots[i].history
  {
    if |values| == 0 then 0.0
    else
      var n := |values|;
      Gains(snapshots, flows, days[..n], values[..n - 1])
      + values[n - 1] * Base(snapshots, flows, days[n - 1], days[n])
  }

  /** Compounded growth factor. */
  function Growth(values: seq<real>): real {
    if |values| == 0 then 1.0 else Growth(values[..|values| - 1]) * (1.0 + values[|values| - 1])
  }

  lemma {:induction false} ReturnsShape(snapshots: seq<Account>, flows: seq<Flow>, days: seq<int>)
    requires |days| > 0 && Covers(snapshots, days) && IntervalReturns(snapshots, flows, days).Aligned?
    ensures var r := IntervalReturns(snapshots, flows, days);
            r.dates == days && |r.values| + 1 == |days| && forall i :: 0 <= i < |r.values| ==> r.values[i] >= -1.0
  {
    if |days| > 1 {
      ReturnsShape(snapshots, flows, days[..|days| - 1]);
    }
  }

  /** Gains are exactly the change in value that the flows do not explain. */
  lemma {:induction false} GainsAccount(snapshots: seq<Account>, flows: seq<Flow>, days: seq<int>)
    requires |days| > 0 && Ascending(days) && Covers(snapshots, days)
    requires IntervalReturns(snapshots, flows, days).Aligned?
    ensures |IntervalReturns(snapshots, flows, days).values| + 1 == |days|
    ensures Gains(snapshots, flows, days, IntervalReturns(snapshots, flows, days).values)
         == ValueOn(snapshots, days[|days| - 1]) - ValueOn(snapshots, days[0])
            - FlowBetween(snapshots, flows, days[0], days[|days| - 1])
  {
    hide IntervalReturn, ValueOn, FlowBetween, Base;
    ReturnsShape(snapshots, flows, days);
    if |days| == 1 {
      EmptyInterval(snapshots, flows, days[0]);
    } else {
      var n := |days| - 1;
      GainsAccount(snapshots, flows, days[..n]);
      ReturnsShape(snapshots, flows, days[..n]);
      FlowSplits(snapshots, flows, days[0], days[n - 1], days[n]);
      IntervalEarns(snapshots, flows, days[n - 1], days[n]);
    }
  }

  lemma {:induction false} EmptyInterval(snapshots: seq<Account>, flows: seq<Flow>, d: int)
    ensures FlowBetween(snapshots, flows, d, d) == 0.0
  {
    if |flows| > 0 {
      EmptyInterval(snapshots, flows[..|flows| - 1], d);
    }
  }

  lemma IntervalEarns(snapshots: seq<Account>, flows: seq<Flow>, before: int, after: int)
    requires forall i :: 0 <= i < |snapshots| ==>
      before in snapshots[i].history && after in snapshots[i].history
    ensures var s := IntervalReturn(snapshots, flows, before, after);
            s.Return? ==> s.value * Base(snapshots, flows, before, after)
                          == ValueOn(snapshots, after) - ValueOn(snapshots, before)
                             - FlowBetween(snapshots, flows, before, after)
  {
    hide ValueOn, FlowBetween, Base;
    var base := Base(snapshots, flows, before, after);
    if base > 0.0 {
      Arith.QuotientTimes(ValueOn(snapshots, after) - ValueOn(snapshots, before)
                          - FlowBetween(snapshots, flows, before, after), base);
    }
  }

  lemma {:induction false} GrowthNonNegative(values: seq<real>)
    requires forall i :: 0 <= i < |values| ==> values[i] >= -1.0
    ensures Growth(values) >= 0.0
  {
    if |values| > 0 {
      GrowthNonNegative(values[..|values| - 1]);
      Arith.ProductSign(Growth(values[..|values| - 1]), 1.0 + values[|values| - 1]);
    }
  }

  /** A value that grows by this factor. */
  ghost predicate Grows(from: real, factor: real, to: real) {
    from * factor == to
  }

  lemma LastReturn(snapshots: seq<Account>, flows: seq<Flow>, days: seq<int>)
    requires |days| >= 2 && Covers(snapshots, days) && IntervalReturns(snapshots, flows, days).Aligned?
    requires FlowBetween(snapshots, flows, days[|days| - 2], days[|days| - 1]) == 0.0
    ensures var n, values := |days| - 1, IntervalReturns(snapshots, flows, days).values;
            && Covers(snapshots, days[..n]) && IntervalReturns(snapshots, flows, days[..n]).Aligned?
            && |values| > 0 && values[..|values| - 1] == IntervalReturns(snapshots, flows, days[..n]).values
            && Grows(ValueOn(snapshots, days[n - 1]), 1.0 + values[|values| - 1], ValueOn(snapshots, days[n]))
  {
    hide ValueOn, FlowBetween, Grows;
    var n := |days| - 1;
    IntervalEarns(snapshots, flows, days[n - 1], days[n]);
    var r := IntervalReturn(snapshots, flows, days[n - 1], days[n]);
    QuietInterval(ValueOn(snapshots, days[n - 1]), ValueOn(snapshots, days[n]), r.value);
  }

  lemma QuietInterval(start: real, end: real, value: real)
    requires value * (start + 0.5 * 0.0) == end - start - 0.0
    ensures Grows(start, 1.0 + value, end)
  {
    assert value * start == end - start;
  }

  lemma NoGrowth(snapshots: seq<Account>, flows: seq<Flow>, days: seq<int>)
    requires |days| == 1 && Covers(snapshots, days)
    ensures IntervalReturns(snapshots, flows, days) == Aligned(days, []) && Growth([]) == 1.0
  {
  }

  /** Without flows the cumulative growth is the growth in value. */
  lemma {:induction false} GrowthIsOfValue(snapshots: seq<Account>, flows: seq<Flow>, days: seq<int>)
    requires |days| > 0 && Covers(snapshots, days) && IntervalReturns(snapshots, flows, days).Aligned?
    requires forall k :: 0 < k < |days| ==> FlowBetween(snapshots, flows, days[k - 1], days[k]) == 0.0
    ensures Grows(ValueOn(snapshots, days[0]), Growth(IntervalReturns(snapshots, flows, days).values),
                  ValueOn(snapshots, days[|days| - 1]))
  {
    hide ValueOn, FlowBetween, IntervalReturns, Growth;
    if |days| == 1 {
      NoGrowth(snapshots, flows, days);
    } else {
      hide Grows;
      var n := |days| - 1;
      var before := days[..n];
      LastReturn(snapshots, flows, days);
      assert forall k :: 0 <= k < n ==> before[k] == days[k];
      assert forall k :: 0 < k < n ==> FlowBetween(snapshots, flows, before[k - 1], before[k]) == 0.0;
      GrowthIsOfValue(snapshots, flows, before);
      var values := IntervalReturns(snapshots, flows, days).values;
      GrowthStep(values, ValueOn(snapshots, days[0]), ValueOn(snapshots, days[n - 1]), ValueOn(snapshots, days[n]));
    }
  }

  lemma GrowthStep(values: seq<real>, first: real, earlier: real, last: real)
    requires |values| > 0 && Grows(first, Growth(values[..|values| - 1]), earlier)
    requires Grows(earlier, 1.0 + values[|values| - 1], last)
    ensures Grows(first, Growth(values), last)
  {
    hide Grows;
    Compounds(first, Growth(values[..|values| - 1]), 1.0 + values[|values| - 1], earlier, last, Growth(values));
  }

  lemma Compounds(first: real, growth: real, factor: real, earlier: real, last: real, all: real)
    requires Grows(first, growth, earlier) && Grows(earlier, factor, last) && all == growth * factor
    ensures Grows(first, all, last)
  {
    assert first * (growth * factor) == (first * growth) * factor;
  }

  /** Each day after the first lies in exactly one interval. */
  lemma {:induction false} OneInterval(days: seq<int>, d: int) returns (k: nat)
    requires |days| > 0 && Ascending(days) && days[0] < d <= days[|days| - 1]
    ensures 0 < k < |days| && days[k - 1] < d <= days[k]
    ensures forall j :: 0 < j < |days| && days[j - 1] < d <= days[j] ==> j == k
  {
    k := 1;
    while days[k] < d
      invariant 0 < k < |days| && days[k - 1] < d
    {
      k := k + 1;
    }
    forall j | 0 <= j < k
      ensures days[j] < d
    {
      if j < k - 1 {
        assert days[j] < days[k - 1];
      }
    }
    forall j | k <= j < |days|
      ensures d <= days[j]
    {
      if k < j {
        assert days[k] < days[j];
      }
    }
  }

  /** What a published series means. */
  ghost predicate Accounts(snapshots: seq<Account>, flows: seq<Flow>, sessions: seq<int>, dates: seq<int>,
                           values: seq<real>) {
    && |snapshots| > 0 && |dates| >= 2 && |values| + 1 == |dates| && Ascending(dates) && Covers(snapshots, dates)
    && (forall d :: d in dates <==> d in sessions && dates[0] <= d <= dates[|dates| - 1])
    && (forall d :: d in sessions && (forall i :: 0 <= i < |snapshots| ==> d in snapshots[i].history) ==> d in dates)
    && (forall i :: 0 <= i < |values| ==> values[i] >= -1.0)
    && Growth(values) - 1.0 >= -1.0
    && Gains(snapshots, flows, dates, values)
       == ValueOn(snapshots, dates[|dates| - 1]) - ValueOn(snapshots, dates[0])
          - FlowBetween(snapshots, flows, dates[0], dates[|dates| - 1])
  }

  /** Every published series reconciles: no session is skipped, no commonly valued session is left out, and gains plus
      flows explain the change in value. */
  lemma PublishedSeriesReconciles(snapshots: seq<Account>, flows: seq<Flow>, sessions: seq<int>)
    requires Ascending(sessions) && AlignedReturns(snapshots, flows, sessions).Aligned?
    ensures var r := AlignedReturns(snapshots, flows, sessions);
            Accounts(snapshots, flows, sessions, r.dates, r.values)
  {
    hide IntervalReturns, Gains, ValueOn, FlowBetween, Between, Growth;
    var common := Common(snapshots, sessions);
    var sorted := SortDates(common);
    var first, last := sorted[0], sorted[|sorted| - 1];
    assert first in sorted && last in sorted;
    var days := Between(sessions, first, last);
    BetweenAscends(sessions, first, last);
    forall d
      ensures d in days <==> d in sessions && first <= d <= last
    {
      BetweenMember(sessions, first, last, d);
    }
    assert first in days && last in days;
    EndsOfDays(days, first, last);
    assert forall k :: 0 <= k < |days| ==> days[k] in days;
    var r := IntervalReturns(snapshots, flows, days);
    ReturnsShape(snapshots, flows, days);
    GainsAccount(snapshots, flows, days);
    GrowthNonNegative(r.values);
    forall d | d in common
      ensures d in days
    {
      assert d in sorted;
      var k :| 0 <= k < |sorted| && sorted[k] == d;
    }
  }

  lemma EndsOfDays(days: seq<int>, first: int, last: int)
    requires Ascending(days) && first in days && last in days && first < last
    requires forall d :: d in days ==> first <= d <= last
    ensures |days| >= 2 && days[0] == first && days[|days| - 1] == last
  {
    assert days[0] in days && days[|days| - 1] in days;
    var i :| 0 <= i < |days| && days[i] == first;
    var j :| 0 <= j < |days| && days[j] == last;
  }

  /** An interval has a return exactly when its base is positive and what came in midway does not exceed what is there
      at the end. */
  lemma IntervalReturnIff(snapshots: seq<Account>, flows: seq<Flow>, before: int, after: int)
    requires forall i :: 0 <= i < |snapshots| ==>
      before in snapshots[i].history && after in snapshots[i].history
    ensures IntervalReturn(snapshots, flows, before, after).Return? <==> Sound(snapshots, flows, before, after)
  {
    hide ValueOn, FlowBetween;
    var start, end := ValueOn(snapshots, before), ValueOn(snapshots, after);
    var flow := FlowBetween(snapshots, flows, before, after);
    var base := Base(snapshots, flows, before, after);
    if base > 0.0 {
      var value := (end - start - flow) / base;
      Arith.QuotientTimes(end - start - flow, base);
      if value < -1.0 {
        Arith.MultiplyOrder(value, -1.0, base);
      } else {
        Arith.MultiplyOrder(-1.0, value, base);
      }
    }
  }

  ghost predicate Sound(snapshots: seq<Account>, flows: seq<Flow>, before: int, after: int)
    requires forall i :: 0 <= i < |snapshots| ==>
      before in snapshots[i].history && after in snapshots[i].history
  {
    var half := 0.5 * FlowBetween(snapshots, flows, before, after);
    && ValueOn(snapshots, before) >= 0.0 && ValueOn(snapshots, before) + half > 0.0
    && ValueOn(snapshots, after) >= 0.0 && ValueOn(snapshots, after) >= half
  }

  /** A series is published exactly when every interval is sound. */
  lemma {:induction false} PublishedIff(snapshots: seq<Account>, flows: seq<Flow>, days: seq<int>)
    requires Covers(snapshots, days)
    ensures IntervalReturns(snapshots, flows, days).Aligned?
       <==> forall k :: 0 < k < |days| ==> Sound(snapshots, flows, days[k - 1], days[k])
  {
    hide IntervalReturn, Sound, FlowBetween, ValueOn;
    if |days| >= 2 {
      var n := |days| - 1;
      PublishedIff(snapshots, flows, days[..n]);
      IntervalReturnIff(snapshots, flows, days[n - 1], days[n]);
      SoundUpto(snapshots, flows, days);
    }
  }

  lemma SoundUpto(snapshots: seq<Account>, flows: seq<Flow>, days: seq<int>)
    requires Covers(snapshots, days) && |days| >= 2
    ensures var n := |days| - 1;
            (forall k :: 0 < k < |days| ==> Sound(snapshots, flows, days[k - 1], days[k]))
            <==> (forall k :: 0 < k < n ==> Sound(snapshots, flows, days[..n][k - 1], days[..n][k]))
                 && Sound(snapshots, flows, days[n - 1], days[n])
  {
    hide Sound;
    var n := |days| - 1;
    assert forall k :: 0 <= k < n ==> days[..n][k] == days[k];
    if forall k :: 0 < k < n ==> Sound(snapshots, flows, days[..n][k - 1], days[..n][k]) {
      forall k | 0 < k < n
        ensures Sound(snapshots, flows, days[k - 1], days[k])
      {
        assert Sound(snapshots, flows, days[..n][k - 1], days[..n][k]);
      }
    }
    if forall k :: 0 < k < |days| ==> Sound(snapshots, flows, days[k - 1], days[k]) {
      forall k | 0 < k < n
        ensures Sound(snapshots, flows, days[..n][k - 1], days[..n][k])
      {
        assert Sound(snapshots, flows, days[k - 1], days[k]);
      }
    }
  }

  /** The first unsound interval: everything before it has a return. */
  ghost predicate StopsAt(snapshots: seq<Account>, flows: seq<Flow>, days: seq<int>, k: nat)
    requires Covers(snapshots, days) && 0 < k < |days|
  {
    && !Sound(snapshots, flows, days[k - 1], days[k])
    && forall j :: 0 < j < k ==> Sound(snapshots, flows, days[j - 1], days[j])
  }

  /** A series without all its returns is withheld for its first unsound interval: for its capital base if that is not
      positive or a value is negative, else as unreconciled. */
  lemma {:induction false} StopsForReason(snapshots: seq<Account>, flows: seq<Flow>, days: seq<int>) returns (k: nat)
    requires Covers(snapshots, days) && IntervalReturns(snapshots, flows, days).Withheld?
    ensures 0 < k < |days| && StopsAt(snapshots, flows, days, k)
    ensures var start, end := ValueOn(snapshots, days[k - 1]), ValueOn(snapshots, days[k]);
            var base := start + 0.5 * FlowBetween(snapshots, flows, days[k - 1], days[k]);
            IntervalReturns(snapshots, flows, days)
            == Withheld(if base <= 0.0 || start < 0.0 || end < 0.0 then NonpositiveBase else Unreconciled)
  {
    hide Sound, ValueOn, FlowBetween;
    var n := |days| - 1;
    var before := days[..n];
    assert forall j :: 0 <= j < n ==> before[j] == days[j];
    if IntervalReturns(snapshots, flows, before).Withheld? {
      k := StopsForReason(snapshots, flows, before);
      assert forall j :: 0 < j < k ==> Sound(snapshots, flows, before[j - 1], before[j]);
    } else {
      k := n;
      PublishedIff(snapshots, flows, before);
      IntervalReturnIff(snapshots, flows, days[n - 1], days[n]);
      assert forall j :: 0 < j < k ==> Sound(snapshots, flows, before[j - 1], before[j]);
    }
  }

  lemma CommonCovers(snapshots: seq<Account>, sessions: seq<int>, days: seq<int>)
    requires |snapshots| > 0 && forall d :: d in days ==> d in Common(snapshots, sessions)
    ensures Covers(snapshots, days)
  {
    forall i, k | 0 <= i < |snapshots| && 0 <= k < |days|
      ensures days[k] in snapshots[i].history
    {
      var d := days[k];
      assert d in days && d in Common(snapshots, sessions);
    }
  }

  /** A session between two of these days is not one of them. */
  ghost predicate Gap(days: set<int>, sessions: seq<int>) {
    exists a, d, b :: a in days && b in days && a < d < b && d in sessions && d !in days
  }

  lemma GapNeedsTwo(days: set<int>, sessions: seq<int>)
    requires Gap(days, sessions)
    ensures |days| >= 2
  {
    var a, d, b :| a in days && b in days && a < d < b && d in sessions && d !in days;
    assert |days - {a}| == |days| - 1 && b in days - {a};
  }

  lemma GapIsMissing(common: set<int>, sessions: seq<int>, sorted: seq<int>)
    requires |common| >= 2 && sorted == SortDates(common)
    ensures Gap(common, sessions)
       <==> exists d :: d in Between(sessions, sorted[0], sorted[|sorted| - 1]) && d !in common
  {
    hide Between, SortDates;
    var first, last := sorted[0], sorted[|sorted| - 1];
    assert first in sorted && last in sorted;
    forall d | d in common
      ensures first <= d <= last
    {
      var i :| 0 <= i < |sorted| && sorted[i] == d;
    }
    forall d
      ensures d in Between(sessions, first, last) <==> d in sessions && first <= d <= last
    {
      BetweenMember(sessions, first, last, d);
    }
    if d :| d in Between(sessions, first, last) && d !in common {
      assert first < d < last;
    }
  }

  /** Before any return is computed: no accounts or sessions, fewer than two days valued for every account, or a
      session between two such days that is not. */
  lemma WithheldFor(snapshots: seq<Account>, flows: seq<Flow>, sessions: seq<int>)
    ensures var r := AlignedReturns(snapshots, flows, sessions);
            && (r == Withheld(NoValuations) <==> |snapshots| == 0 || |sessions| == 0)
            && (|snapshots| > 0 && |sessions| > 0 ==>
                  && (r == Withheld(NoOverlap) <==> |Common(snapshots, sessions)| < 2)
                  && (r == Withheld(MissingValuation) <==> Gap(Common(snapshots, sessions), sessions)))
  {
    hide IntervalReturns, Between, Common, Gap;
    if |snapshots| > 0 && |sessions| > 0 {
      var common := Common(snapshots, sessions);
      if |common| < 2 {
        if Gap(common, sessions) {
          GapNeedsTwo(common, sessions);
        }
      } else {
        var sorted := SortDates(common);
        GapIsMissing(common, sessions, sorted);
        var days := Between(sessions, sorted[0], sorted[|sorted| - 1]);
        if forall d :: d in days ==> d in common {
          CommonCovers(snapshots, sessions, days);
          if IntervalReturns(snapshots, flows, days).Withheld? {
            var _ := StopsForReason(snapshots, flows, days);
          }
        }
      }
    }
  }

  // ---------------------------------------------------------------- sessions and flows of a report

  /** Every trading day between two dates, in order. */
  method BuildSessions(first: int, last: int, isTradingDay: int -> bool) returns (sessions: seq<int>)
    ensures Ascending(sessions)
    ensures forall d :: d in sessions <==> first <= d <= last && isTradingDay(d)
  {
    sessions := [];
    var d := first;
    while d <= last
      invariant d >= first && (if first <= last then d <= last + 1 else d == first)
      invariant Ascending(sessions)
      invariant forall x :: x in sessions <==> first <= x < d && isTradingDay(x)
      decreases last - d
    {
      if isTradingDay(d) {
        forall i | 0 <= i < |sessions|
          ensures sessions[i] < d
        {
          assert sessions[i] in sessions;
        }
        sessions := sessions + [d];
      }
      d := d + 1;
    }
  }

  datatype Activity = Activity(account: string, day: int, kind: Option<string>, amount: Option<real>,
                               currency: Option<string>)

  datatype Flows = Flows(flows: seq<Flow>) | Unclassified | MissingAmount

  const RETURN_ACTIVITY_TYPES: set<string> :=
    {"BUY", "SELL", "DIVIDEND", "SUBSTITUTE_DIVIDEND", "REI", "STOCK_DIVIDEND", "INTEREST", "FEE", "TAX",
     "OPTIONEXPIRATION", "OPTIONASSIGNMENT", "OPTIONEXERCISE", "SPLIT"}

  function UpperChar(c: char): char {
    if 'a' <= c <= 'z' then c - 'a' + 'A' else c
  }

  /** Python's `upper`, on the ASCII letters activity names use. */
  function Upper(s: string): string {
    seq(|s|, i requires 0 <= i < |s| => UpperChar(s[i]))
  }

  function KindOf(a: Activity): string {
    match a.kind case None => "" case Some(k) => Upper(k)
  }

  predicate External(kind: string) {
    kind == "CONTRIBUTION" || kind == "WITHDRAWAL"
  }

  predicate Classified(a: Activity) {
    (a.currency.None? || a.currency == Some("USD"))
    && (KindOf(a) in RETURN_ACTIVITY_TYPES || External(KindOf(a)))
  }

  function Abs(x: real): real {
    if x < 0.0 then -x else x
  }

  /** Money in is positive and money out negative, whatever sign the provider reports. */
  function Signed(a: Activity): real {
    if External(KindOf(a)) && a.amount.Some?
    then (if KindOf(a) == "CONTRIBUTION" then Abs(a.amount.value) else -Abs(a.amount.value))
    else 0.0
  }

  /** `flows[key] = flows.get(key, 0) + amount` */
  function AddFlow(flows: seq<Flow>, account: string, day: int, amount: real): seq<Flow> {
    if |flows| == 0 then [Flow(account, day, amount)]
    else
      var n := |flows| - 1;
      var f := flows[n];
      if f.account == account && f.day == day then flows[..n] + [f.(amount := f.amount + amount)]
      else AddFlow(flows[..n], account, day, amount) + [f]
  }

  function FlowsOf(activities: seq<Activity>, first: int, last: int): Flows {
    if |activities| == 0 then Flows([])
    else
      var a := activities[|activities| - 1];
      match FlowsOf(activities[..|activities| - 1], first, last)
      case Unclassified => Unclassified
      case MissingAmount => MissingAmount
      case Flows(flows) =>
        if !(first < a.day <= last) then Flows(flows)
        else if !Classified(a) then Unclassified
        else if !External(KindOf(a)) then Flows(flows)
        else if a.amount.None? then MissingAmount
        else Flows(AddFlow(flows, a.account, a.day, Signed(a)))
  }

  method BuildFlows(activities: seq<Activity>, first: int, last: int) returns (r: Flows)
    ensures r == FlowsOf(activities, first, last)
    ensures Outcome(activities, first, last, r)
    ensures r.Flows? ==> InLessOut(activities, first, last, r.flows)
  {
    hide Outcome, InLessOut, AddFlow, Upper;
    FlowsOutcome(activities, first, last);
    FlowsAreInLessOut(activities, first, last);
    var flows: seq<Flow> := [];
    for i := 0 to |activities|
      invariant FlowsOf(activities[..i], first, last) == Flows(flows)
    {
      var a := activities[i];
      assert activities[..i + 1][..i] == activities[..i];
      if first < a.day <= last {
        var kind := KindOf(a);
        if (a.currency.Some? && a.currency != Some("USD")) || (kind !in RETURN_ACTIVITY_TYPES && !External(kind)) {
          FlowsStop(activities, first, last, i + 1);
          return Unclassified;
        }
        if External(kind) {
          if a.amount.None? {
            FlowsStop(activities, first, last, i + 1);
            return MissingAmount;
          }
          var flow := Abs(a.amount.value) * (if kind == "CONTRIBUTION" then 1.0 else -1.0);
          flows := AddFlow(flows, a.account, a.day, flow);
        }
      }
    }
    assert activities[..|activities|] == activities;
    r := Flows(flows);
  }

  lemma {:induction false} FlowsStop(activities: seq<Activity>, first: int, last: int, k: nat)
    requires k <= |activities| && !FlowsOf(activities[..k], first, last).Flows?
    ensures FlowsOf(activities, first, last) == FlowsOf(activities[..k], first, last)
  {
    if k < |activities| {
      assert activities[..|activities| - 1][..k] == activities[..k];
      FlowsStop(activities[..|activities| - 1], first, last, k);
    } else {
      assert activities[..k] == activities;
    }
  }

  /** The letters of an upper-case name in either case. */
  predicate Spells(text: string, name: string) {
    && |text| == |name|
    && forall i :: 0 <= i < |name| ==>
         text[i] == name[i] || ('A' <= name[i] <= 'Z' && text[i] as int == name[i] as int + 32)
  }

  lemma UpperSpells(text: string, name: string)
    requires forall i :: 0 <= i < |name| ==> !('a' <= name[i] <= 'z')
    ensures Upper(text) == name <==> Spells(text, name)
  {
    forall i | 0 <= i < |name| && |text| == |name|
      ensures UpperChar(text[i]) == name[i] <==>
              text[i] == name[i] || ('A' <= name[i] <= 'Z' && text[i] as int == name[i] as int + 32)
    {
    }
    if Upper(text) == name {
      assert forall i :: 0 <= i < |name| ==> Upper(text)[i] == name[i];
    }
  }

  function Magnitude(x: real): (m: real)
    ensures m >= 0.0 && (m == x || m == -x)
  {
    if x < 0.0 then -x else x
  }

  /** The size of an activity of this name; its provider's sign does not matter. */
  function AmountAs(a: Activity, name: string): real {
    if a.kind.Some? && Spells(a.kind.value, name) && a.amount.Some? then Magnitude(a.amount.value) else 0.0
  }

  /** What activities of this name moved in the selected accounts after `before`, up to and including `after`. */
  function Moved(snapshots: seq<Account>, activities: seq<Activity>, name: string, before: int, after: int): real {
    if |activities| == 0 then 0.0
    else
      var a := activities[|activities| - 1];
      Moved(snapshots, activities[..|activities| - 1], name, before, after)
      + if a.account in (set s | s in snapshots :: s.id) && before < a.day <= after then AmountAs(a, name) else 0.0
  }

  lemma MovedLast(snapshots: seq<Account>, activities: seq<Activity>, name: string, before: int, after: int)
    requires |activities| > 0
    ensures var a, rest := activities[|activities| - 1], activities[..|activities| - 1];
            Moved(snapshots, activities, name, before, after)
            == Moved(snapshots, rest, name, before, after)
               + if Selected(snapshots, a.account) && before < a.day <= after then AmountAs(a, name) else 0.0
  {
    hide AmountAs, Selected;
    SelectedIsListed(snapshots, activities[|activities| - 1].account);
  }

  lemma SelectedIsListed(snapshots: seq<Account>, id: string)
    ensures Selected(snapshots, id) <==> id in (set s | s in snapshots :: s.id)
  {
    if Selected(snapshots, id) {
      var i :| 0 <= i < |snapshots| && snapshots[i].id == id;
      assert snapshots[i] in snapshots;
    }
  }

  lemma KindSpells(a: Activity)
    ensures KindOf(a) == "CONTRIBUTION" <==> a.kind.Some? && Spells(a.kind.value, "CONTRIBUTION")
    ensures KindOf(a) == "WITHDRAWAL" <==> a.kind.Some? && Spells(a.kind.value, "WITHDRAWAL")
    ensures !(KindOf(a) == "CONTRIBUTION" && KindOf(a) == "WITHDRAWAL")
  {
    hide Spells, Upper;
    assert |"CONTRIBUTION"| != |"WITHDRAWAL"|;
    if a.kind.Some? {
      UpperSpells(a.kind.value, "CONTRIBUTION");
      UpperSpells(a.kind.value, "WITHDRAWAL");
    }
  }

  /** Contributions come in and withdrawals go out. */
  lemma SignedIsInLessOut(a: Activity)
    ensures Signed(a) == AmountAs(a, "CONTRIBUTION") - AmountAs(a, "WITHDRAWAL")
  {
    hide Spells, KindOf;
    KindSpells(a);
  }

  lemma {:induction false} AddFlowAdds(snapshots: seq<Account>, flows: seq<Flow>, account: string, day: int,
                                       amount: real, before: int, after: int)
    ensures FlowBetween(snapshots, AddFlow(flows, account, day, amount), before, after)
         == FlowBetween(snapshots, flows, before, after)
            + if Selected(snapshots, account) && before < day <= after then amount else 0.0
  {
    var r := AddFlow(flows, account, day, amount);
    if |flows| == 0 {
      assert r[..0] == [];
    } else {
      var n := |flows| - 1;
      if flows[n].account == account && flows[n].day == day {
        assert r[..n] == flows[..n];
      } else {
        AddFlowAdds(snapshots, flows[..n], account, day, amount, before, after);
        assert r[..|r| - 1] == AddFlow(flows[..n], account, day, amount);
      }
    }
  }

  /** Grouping by account and day loses no money: over every interval inside the period the grouped flows are the
      contributions less the withdrawals. */
  lemma {:induction false} GroupedFlowsAreActivities(snapshots: seq<Account>, activities: seq<Activity>, first: int,
                                                     last: int, before: int, after: int)
    requires first <= before && after <= last && FlowsOf(activities, first, last).Flows?
    ensures FlowBetween(snapshots, FlowsOf(activities, first, last).flows, before, after)
         == Moved(snapshots, activities, "CONTRIBUTION", before, after)
            - Moved(snapshots, activities, "WITHDRAWAL", before, after)
  {
    if |activities| > 0 {
      hide Classified, AddFlow, Selected, AmountAs, Signed, KindOf, Moved;
      var n := |activities| - 1;
      GroupedFlowsAreActivities(snapshots, activities[..n], first, last, before, after);
      MovedLast(snapshots, activities, "CONTRIBUTION", before, after);
      MovedLast(snapshots, activities, "WITHDRAWAL", before, after);
      SignedIsInLessOut(activities[n]);
      NotExternal(activities[n]);
      AddFlowAdds(snapshots, FlowsOf(activities[..n], first, last).flows, activities[n].account, activities[n].day,
                  Signed(activities[n]), before, after);
    }
  }

  lemma NotExternal(a: Activity)
    ensures !External(KindOf(a)) ==> Signed(a) == 0.0
  {
    hide KindOf;
  }

  /** Over every interval inside the period, of whatever accounts, the flows are contributions less withdrawals. */
  ghost predicate InLessOut(activities: seq<Activity>, first: int, last: int, flows: seq<Flow>) {
    forall snapshots, before, after :: first <= before && after <= last ==>
      FlowBetween(snapshots, flows, before, after)
      == Moved(snapshots, activities, "CONTRIBUTION", before, after)
         - Moved(snapshots, activities, "WITHDRAWAL", before, after)
  }

  lemma FlowsAreInLessOut(activities: seq<Activity>, first: int, last: int)
    ensures FlowsOf(activities, first, last).Flows? ==>
              InLessOut(activities, first, last, FlowsOf(activities, first, last).flows)
  {
    hide FlowsOf, FlowBetween, Moved;
    if FlowsOf(activities, first, last).Flows? {
      forall snapshots, before, after | first <= before && after <= last
        ensures FlowBetween(snapshots, FlowsOf(activities, first, last).flows, before, after)
             == Moved(snapshots, activities, "CONTRIBUTION", before, after)
                - Moved(snapshots, activities, "WITHDRAWAL", before, after)
      {
        GroupedFlowsAreActivities(snapshots, activities, first, last, before, after);
      }
    }
  }

  /** Dated in the period and fit to be used: in dollars, of a known name, and with an amount if it is money from
      outside. */
  predicate Usable(a: Activity) {
    && (a.currency.None? || a.currency.value == "USD")
    && (KindOf(a) in RETURN_ACTIVITY_TYPES || (External(KindOf(a)) && a.amount.Some?))
  }

  /** Flows come of activities that are all usable; otherwise the first that is not decides what is reported: that its
      amount is missing, or that it cannot be classified. */
  ghost predicate Outcome(activities: seq<Activity>, first: int, last: int, r: Flows) {
    if forall i :: 0 <= i < |activities| && first < activities[i].day <= last ==> Usable(activities[i]) then r.Flows?
    else exists i :: 0 <= i < |activities| && FirstUnusable(activities, first, last, i)
                     && r == if Classified(activities[i]) then MissingAmount else Unclassified
  }

  ghost predicate FirstUnusable(activities: seq<Activity>, first: int, last: int, i: nat)
    requires i < |activities|
  {
    && first < activities[i].day <= last && !Usable(activities[i])
    && forall k :: 0 <= k < i && first < activities[k].day <= last ==> Usable(activities[k])
  }

  lemma UsableIs(a: Activity)
    ensures Usable(a) <==> Classified(a) && (External(KindOf(a)) ==> a.amount.Some?)
  {
    hide KindOf;
    assert "CONTRIBUTION" !in RETURN_ACTIVITY_TYPES && "WITHDRAWAL" !in RETURN_ACTIVITY_TYPES;
  }

  lemma OutcomeNext(activities: seq<Activity>, first: int, last: int, before: Flows, r: Flows)
    requires |activities| > 0 && Outcome(activities[..|activities| - 1], first, last, before)
    requires !before.Flows? ==> r == before
    requires before.Flows? ==>
               var a := activities[|activities| - 1];
               if first < a.day <= last && !Usable(a) then r == (if Classified(a) then MissingAmount else Unclassified)
               else r.Flows?
    ensures Outcome(activities, first, last, r)
  {
    hide Usable, Classified;
    var n := |activities| - 1;
    assert forall k :: 0 <= k < n ==> activities[..n][k] == activities[k];
    if before.Flows? {
      if first < activities[n].day <= last && !Usable(activities[n]) {
        assert FirstUnusable(activities, first, last, n);
      }
    } else {
      var i :| 0 <= i < n && FirstUnusable(activities[..n], first, last, i)
               && before == if Classified(activities[..n][i]) then MissingAmount else Unclassified;
      assert FirstUnusable(activities, first, last, i);
    }
  }

  lemma {:induction false} FlowsOutcome(activities: seq<Activity>, first: int, last: int)
    ensures Outcome(activities, first, last, FlowsOf(activities, first, last))
  {
    hide AddFlow, KindOf, Signed, Usable, Classified;
    if |activities| > 0 {
      hide Outcome;
      var n := |activities| - 1;
      UsableIs(activities[n]);
      FlowsOutcome(activities[..n], first, last);
      OutcomeNext(activities, first, last, FlowsOf(activities[..n], first, last), FlowsOf(activities, first, last));
    }
  }

  /** End to end: gains of a published report are the change in value less the external money in the activities. */
  lemma ReportReconciles(snapshots: seq<Account>, activities: seq<Activity>, first: int, last: int, sessions: seq<int>)
    requires Ascending(sessions) && forall d :: d in sessions ==> first <= d <= last
    requires FlowsOf(activities, first, last).Flows?
    requires AlignedReturns(snapshots, FlowsOf(activities, first, last).flows, sessions).Aligned?
    ensures var flows := FlowsOf(activities, first, last).flows;
            var r := AlignedReturns(snapshots, flows, sessions);
            && Accounts(snapshots, flows, sessions, r.dates, r.values)
            && Gains(snapshots, flows, r.dates, r.values)
               == ValueOn(snapshots, r.dates[|r.dates| - 1]) - ValueOn(snapshots, r.dates[0])
                  - (Moved(snapshots, activities, "CONTRIBUTION", r.dates[0], r.dates[|r.dates| - 1])
                     - Moved(snapshots, activities, "WITHDRAWAL", r.dates[0], r.dates[|r.dates| - 1]))
  {
    hide AlignedReturns, FlowsOf, Gains, ValueOn, FlowBetween, Moved;
    var flows := FlowsOf(activities, first, last).flows;
    PublishedSeriesReconciles(snapshots, flows, sessions);
    var dates := AlignedReturns(snapshots, flows, sessions).dates;
    assert dates[0] in dates && dates[|dates| - 1] in dates;
    GroupedFlowsAreActivities(snapshots, activities, first, last, dates[0], dates[|dates| - 1]);
  }
}
