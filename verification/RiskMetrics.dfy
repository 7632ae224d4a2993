/** Historical VaR and CVaR of one series and of a weighted portfolio, and the market beta regression. */
module RiskMetrics {
  import opened Wrappers
  import opened Series
  import opened Calendar
  import Arith

  const MIN_OBSERVATIONS := 30
  const CONFIDENCE_95 := 0.95

  // ---------------------------------------------------------------- sorting

  ghost predicate Nondecreasing(s: seq<real>) {
    forall i, j :: 0 <= i < j < |s| ==> s[i] <= s[j]
  }

  function Insert(v: real, s: seq<real>): (r: seq<real>)
    ensures multiset(r) == multiset(s) + multiset{v}
  {
    if |s| == 0 || s[|s| - 1] <= v then s + [v]
    else
      assert s == s[..|s| - 1] + [s[|s| - 1]];
      Insert(v, s[..|s| - 1]) + [s[|s| - 1]]
  }

  /** Python's `sorted` on a list of returns. */
  function Sorted(s: seq<real>): (r: seq<real>)
    ensures multiset(r) == multiset(s)
    ensures |r| == |s|
  {
    if |s| == 0 then []
    else
      assert s == s[..|s| - 1] + [s[|s| - 1]];
      var r := Insert(s[|s| - 1], Sorted(s[..|s| - 1]));
      assert |multiset(r)| == |r| && |multiset(s)| == |s|;
      r
  }

  lemma {:induction false} InsertKeepsOrder(v: real, s: seq<real>)
    requires Nondecreasing(s)
    ensures Nondecreasing(Insert(v, s))
  {
    if |s| == 0 || s[|s| - 1] <= v {
    } else {
      var n := |s| - 1;
      InsertKeepsOrder(v, s[..n]);
      InsertBelow(v, s[..n], s[n]);
    }
  }

  lemma {:induction false} InsertBelow(v: real, s: seq<real>, top: real)
    requires v <= top && forall i :: 0 <= i < |s| ==> s[i] <= top
    ensures forall i :: 0 <= i < |Insert(v, s)| ==> Insert(v, s)[i] <= top
  {
    if |s| == 0 || s[|s| - 1] <= v {
    } else {
      InsertBelow(v, s[..|s| - 1], top);
    }
  }

  lemma {:induction false} SortedIsNondecreasing(s: seq<real>)
    ensures Nondecreasing(Sorted(s))
  {
    if |s| > 0 {
      SortedIsNondecreasing(s[..|s| - 1]);
      InsertKeepsOrder(s[|s| - 1], Sorted(s[..|s| - 1]));
    }
  }

  // ---------------------------------------------------------------- VaR and CVaR

  function VarIndex(confidence: real, n: nat): (k: nat)
    requires n > 0
    ensures k < n
  {
    var raw := Arith.Truncate((1.0 - confidence) * n as real);
    if raw < 0 then 0 else if raw > n - 1 then n - 1 else raw
  }

  /** The sum of the `k` worst returns. */
  function TailSum(s: seq<real>, k: nat): real
    requires k <= |s|
  {
    Sum(Sorted(s)[..k])
  }

  datatype Risk = Risk(valueAtRisk: real, cvar: real)

  function CalculateVarCvar(series: seq<real>, confidence: real): (r: Option<Risk>)
    ensures r.Some? <==> |series| >= MIN_OBSERVATIONS
  {
    var n := |series|;
    if n < MIN_OBSERVATIONS then None
    else
      var i := VarIndex(confidence, n);
      Some(Risk(-Sorted(series)[i], -TailSum(series, i + 1) / (i + 1) as real))
  }

  function Positive(x: real): real {
    if x > 0.0 then x else 0.0
  }

  /** The sum of the shortfalls below `t`. */
  function Shortfall(t: real, s: seq<real>): real {
    if |s| == 0 then 0.0 else Shortfall(t, s[..|s| - 1]) + Positive(t - s[|s| - 1])
  }

  lemma {:induction false} ShortfallInsert(t: real, v: real, s: seq<real>)
    ensures Shortfall(t, Insert(v, s)) == Shortfall(t, s) + Positive(t - v)
  {
    var r := Insert(v, s);
    if |s| == 0 || s[|s| - 1] <= v {
      assert r[..|r| - 1] == s;
    } else {
      ShortfallInsert(t, v, s[..|s| - 1]);
      assert r[..|r| - 1] == Insert(v, s[..|s| - 1]);
    }
  }

  lemma {:induction false} ShortfallSorted(t: real, s: seq<real>)
    ensures Shortfall(t, Sorted(s)) == Shortfall(t, s)
  {
    if |s| > 0 {
      ShortfallSorted(t, s[..|s| - 1]);
      ShortfallInsert(t, s[|s| - 1], Sorted(s[..|s| - 1]));
    }
  }

  /** Every threshold bounds the first `k` elements from below. */
  lemma {:induction false} ThresholdBound(t: real, s: seq<real>, k: nat)
    requires k <= |s|
    ensures k as real * t - Shortfall(t, s) <= Sum(s[..k])
  {
    if |s| > 0 {
      var n := |s| - 1;
      if k <= n {
        ThresholdBound(t, s[..n], k);
        assert s[..n][..k] == s[..k];
      } else {
        ThresholdBound(t, s[..n], n);
        assert s[..n][..n] == s[..n] && s[..k] == s;
        assert k as real * t == n as real * t + t;
      }
    }
  }

  /** On an ordered sequence the k-th element attains the bound. */
  lemma {:induction false} ThresholdAttained(s: seq<real>, k: nat, t: real)
    requires Nondecreasing(s) && k <= |s|
    requires forall i :: 0 <= i < k ==> s[i] <= t
    requires forall i :: k <= i < |s| ==> t <= s[i]
    ensures k as real * t - Shortfall(t, s) == Sum(s[..k])
  {
    if |s| > 0 {
      var n := |s| - 1;
      if k <= n {
        ThresholdAttained(s[..n], k, t);
        assert s[..n][..k] == s[..k];
      } else {
        ThresholdAttained(s[..n], n, t);
        assert s[..n][..n] == s[..n] && s[..k] == s;
        assert k as real * t == n as real * t + t;
      }
    }
  }

  lemma TailThreshold(s: seq<real>, k: nat) returns (t: real)
    requires 1 <= k <= |s|
    ensures t == Sorted(s)[k - 1]
    ensures k as real * t - Shortfall(t, s) == TailSum(s, k)
  {
    t := Sorted(s)[k - 1];
    SortedIsNondecreasing(s);
    ThresholdAttained(Sorted(s), k, t);
    ShortfallSorted(t, s);
  }

  /** A choice of elements, one flag an element. */
  function Chosen(s: seq<real>, pick: seq<bool>): real
    requires |s| == |pick|
  {
    if |s| == 0 then 0.0
    else Chosen(s[..|s| - 1], pick[..|s| - 1]) + if pick[|s| - 1] then s[|s| - 1] else 0.0
  }

  function Count(pick: seq<bool>): nat {
    if |pick| == 0 then 0 else Count(pick[..|pick| - 1]) + if pick[|pick| - 1] then 1 else 0
  }

  lemma {:induction false} ChosenBound(t: real, s: seq<real>, pick: seq<bool>)
    requires |s| == |pick|
    ensures Count(pick) as real * t - Shortfall(t, s) <= Chosen(s, pick)
  {
    if |s| > 0 {
      var n := |s| - 1;
      ChosenBound(t, s[..n], pick[..n]);
      assert (Count(pick[..n]) + 1) as real * t == Count(pick[..n]) as real * t + t;
    }
  }

  /** The tail is the cheapest choice of `k` observations: no other choice has a smaller sum. */
  lemma TailIsLeast(s: seq<real>, pick: seq<bool>)
    requires |s| == |pick| && Count(pick) >= 1 && Count(pick) <= |s|
    ensures TailSum(s, Count(pick)) <= Chosen(s, pick)
  {
    hide *;
    var t := TailThreshold(s, Count(pick));
    ChosenBound(t, s, pick);
  }

  lemma SumLast(s: seq<real>, k: nat)
    requires 0 < k <= |s|
    ensures Sum(s[..k]) == Sum(s[..k - 1]) + s[k - 1]
  {
    assert s[..k][..k - 1] == s[..k - 1];
  }

  lemma InsertLength(v: real, s: seq<real>)
    ensures |Insert(v, s)| == |s| + 1
  {
    assert |multiset(Insert(v, s))| == |Insert(v, s)|;
  }

  /** The first elements of `r` sum to the first of `s`, or to one fewer of them and `v`. */
  ghost predicate HeadSum(v: real, s: seq<real>, r: seq<real>, k: nat) {
    && k <= |r| == |s| + 1
    && ((k <= |s| && Sum(r[..k]) == Sum(s[..k])) || (k > 0 && Sum(r[..k]) == Sum(s[..k - 1]) + v))
  }

  lemma AppendedHead(v: real, s: seq<real>, k: nat)
    requires k <= |s| + 1
    ensures HeadSum(v, s, s + [v], k)
  {
    hide Sum;
    var r := s + [v];
    if k <= |s| {
      assert r[..k] == s[..k];
    } else {
      assert r[..k - 1] == s[..k - 1];
      SumLast(r, k);
    }
  }

  lemma LowerHead(v: real, s: seq<real>, some: seq<real>, k: nat)
    requires 0 < |s| == |some| && k <= |s| + 1
    requires HeadSum(v, s[..|s| - 1], some, if k <= |s| then k else |s|)
    ensures HeadSum(v, s, some + [s[|s| - 1]], k)
  {
    hide Sum;
    var m := |s| - 1;
    var before, r := s[..m], some + [s[m]];
    if k <= |s| {
      assert r[..k] == some[..k];
      assert k <= m ==> before[..k] == s[..k];
      assert k > 0 ==> before[..k - 1] == s[..k - 1];
    } else {
      assert r[..k - 1] == some[..|s|] && before[..m] == s[..m];
      SumLast(r, k);
      SumLast(s, |s|);
    }
  }

  /** The first elements with one more inserted are the first of the old ones, with it or without it. */
  lemma {:induction false} InsertHead(v: real, s: seq<real>, k: nat)
    requires k <= |s| + 1
    ensures HeadSum(v, s, Insert(v, s), k)
  {
    hide HeadSum;
    if |s| == 0 || s[|s| - 1] <= v {
      AppendedHead(v, s, k);
    } else {
      var before := s[..|s| - 1];
      InsertLength(v, before);
      InsertHead(v, before, if k <= |s| then k else |s|);
      LowerHead(v, s, Insert(v, before), k);
    }
  }

  lemma PickAppend(s: seq<real>, pick: seq<bool>, last: bool)
    requires |s| > 0 && |pick| == |s| - 1
    ensures Count(pick + [last]) == Count(pick) + if last then 1 else 0
    ensures Chosen(s, pick + [last]) == Chosen(s[..|s| - 1], pick) + if last then s[|s| - 1] else 0.0
  {
    assert (pick + [last])[..|pick|] == pick;
  }

  /** Some choice of `k` observations has the sum of the tail. */
  lemma {:induction false} TailAttained(s: seq<real>, k: nat) returns (pick: seq<bool>)
    requires k <= |s|
    ensures |pick| == |s| && Count(pick) == k && Chosen(s, pick) == TailSum(s, k)
  {
    if |s| == 0 {
      pick := [];
    } else {
      hide Count, Chosen, Insert;
      var n := |s| - 1;
      var before := Sorted(s[..n]);
      InsertHead(s[n], before, k);
      if k <= n && TailSum(s, k) == Sum(before[..k]) {
        pick := TailAttained(s[..n], k);
        PickAppend(s, pick, false);
        pick := pick + [false];
      } else {
        pick := TailAttained(s[..n], k - 1);
        PickAppend(s, pick, true);
        pick := pick + [true];
      }
    }
  }

  /** How many returns are strictly below `v`. */
  function Below(v: real, s: seq<real>): nat {
    if |s| == 0 then 0 else Below(v, s[..|s| - 1]) + if s[|s| - 1] < v then 1 else 0
  }

  /** How many returns are at `v` or below. */
  function NotAbove(v: real, s: seq<real>): nat {
    if |s| == 0 then 0 else NotAbove(v, s[..|s| - 1]) + if s[|s| - 1] <= v then 1 else 0
  }

  lemma {:induction false} CountsInsert(t: real, v: real, s: seq<real>)
    ensures Below(t, Insert(v, s)) == Below(t, s) + if v < t then 1 else 0
    ensures NotAbove(t, Insert(v, s)) == NotAbove(t, s) + if v <= t then 1 else 0
  {
    var r := Insert(v, s);
    if |s| == 0 || s[|s| - 1] <= v {
      assert r[..|r| - 1] == s;
    } else {
      CountsInsert(t, v, s[..|s| - 1]);
      assert r[..|r| - 1] == Insert(v, s[..|s| - 1]);
    }
  }

  lemma {:induction false} CountsSorted(t: real, s: seq<real>)
    ensures Below(t, Sorted(s)) == Below(t, s) && NotAbove(t, Sorted(s)) == NotAbove(t, s)
  {
    if |s| > 0 {
      CountsSorted(t, s[..|s| - 1]);
      CountsInsert(t, s[|s| - 1], Sorted(s[..|s| - 1]));
    }
  }

  lemma {:induction false} CountsCut(t: real, s: seq<real>, k: nat)
    requires k <= |s|
    ensures (forall i :: k <= i < |s| ==> t <= s[i]) ==> Below(t, s) <= k
    ensures (forall i :: 0 <= i < k ==> s[i] <= t) ==> NotAbove(t, s) >= k
  {
    if |s| > 0 {
      CountsCut(t, s[..|s| - 1], if k < |s| then k else k - 1);
    }
  }

  lemma {:induction false} ShortfallNonNegative(t: real, s: seq<real>)
    ensures Shortfall(t, s) >= 0.0
  {
    if |s| > 0 {
      ShortfallNonNegative(t, s[..|s| - 1]);
    }
  }

  /** How many of `n` returns, in theory, lie beyond the confidence. */
  function Share(confidence: real, n: nat): real {
    (1.0 - confidence) * n as real
  }

  /** The number of returns in the tail: the whole part of their share, and one more, within 1 and all of them. */
  ghost predicate TailCount(confidence: real, n: nat, k: nat) {
    && 1 <= k <= n
    && (k == 1 || (k - 1) as real <= Share(confidence, n))
    && (k == n || Share(confidence, n) < k as real)
  }

  /** No choice of `k` returns has a smaller sum, and some choice has this one. */
  ghost predicate LeastChoice(s: seq<real>, k: nat, least: real) {
    && (forall pick :: |pick| == |s| && Count(pick) == k ==> least <= Chosen(s, pick))
    && exists pick :: |pick| == |s| && Count(pick) == k && Chosen(s, pick) == least
  }

  /** The loss `valueAtRisk` is one of the series: fewer than the tail are worse, and the tail is no better. The loss
      `cvar` is the average of the worst returns there are as many of. */
  ghost predicate TailRisk(s: seq<real>, confidence: real, risk: Risk) {
    var worst := -risk.valueAtRisk;
    && worst in s && risk.cvar >= risk.valueAtRisk
    && (0.0 < confidence < 1.0 ==>
          Below(worst, s) as real <= Share(confidence, |s|) < NotAbove(worst, s) as real)
    && exists k: nat, least ::
         && TailCount(confidence, |s|, k) && Below(worst, s) < k <= NotAbove(worst, s)
         && LeastChoice(s, k, least) && AverageLoss(risk.cvar, k, least)
  }

  lemma TailIsLeastChoice(s: seq<real>, k: nat)
    requires 1 <= k <= |s|
    ensures LeastChoice(s, k, TailSum(s, k))
  {
    hide Count, Chosen, TailSum;
    forall pick | |pick| == |s| && Count(pick) == k
      ensures TailSum(s, k) <= Chosen(s, pick)
    {
      TailIsLeast(s, pick);
    }
    var pick := TailAttained(s, k);
  }

  lemma IndexIsTailCount(confidence: real, n: nat)
    requires n > 0
    ensures TailCount(confidence, n, VarIndex(confidence, n) + 1)
  {
    CutIsTailCount(confidence, Share(confidence, n), n, VarIndex(confidence, n) + 1);
  }

  lemma CutIsTailCount(confidence: real, share: real, n: nat, k: nat)
    requires n > 0 && share == Share(confidence, n)
    requires k == (if Arith.Truncate(share) < 0 then 0 else if Arith.Truncate(share) > n - 1 then n - 1
                   else Arith.Truncate(share)) + 1
    ensures TailCount(confidence, n, k)
  {
    hide Share;
  }

  lemma ShareWithin(confidence: real, n: nat)
    requires n > 0 && 0.0 < confidence < 1.0
    ensures 0.0 < Share(confidence, n) < n as real
  {
    var m := n as real;
    Arith.ProductSign(1.0 - confidence, m);
    Arith.ProductSign(confidence, m);
    Arith.Distribute(1.0, confidence, m);
  }

  lemma CutCounts(s: seq<real>, k: nat) returns (t: real)
    requires 1 <= k <= |s|
    ensures t == Sorted(s)[k - 1] && t in s
    ensures Below(t, s) < k <= NotAbove(t, s)
  {
    hide Sorted, Below, NotAbove;
    t := Sorted(s)[k - 1];
    SortedIsNondecreasing(s);
    CountsSorted(t, s);
    CountsCut(t, Sorted(s), k - 1);
    CountsCut(t, Sorted(s), k);
    assert t in multiset(Sorted(s));
  }

  lemma TailBelow(s: seq<real>, k: nat)
    requires 1 <= k <= |s|
    ensures TailSum(s, k) <= k as real * Sorted(s)[k - 1]
  {
    hide *;
    var t := TailThreshold(s, k);
    ShortfallNonNegative(t, s);
  }

  lemma IsTailRisk(s: seq<real>, confidence: real, risk: Risk, k: nat, worst: real, least: real)
    requires worst == -risk.valueAtRisk && worst in s && risk.cvar >= risk.valueAtRisk
    requires TailCount(confidence, |s|, k) && Below(worst, s) < k <= NotAbove(worst, s)
    requires LeastChoice(s, k, least) && AverageLoss(risk.cvar, k, least)
    ensures TailRisk(s, confidence, risk)
  {
    hide Below, NotAbove, LeastChoice, Share, AverageLoss;
    if 0.0 < confidence < 1.0 {
      ShareWithin(confidence, |s|);
    }
  }

  lemma RiskIs(s: seq<real>, confidence: real)
    requires |s| >= 30
    ensures var r, k := CalculateVarCvar(s, confidence), VarIndex(confidence, |s|) + 1;
            && r.Some? && k <= |s|
            && r.value.cvar == -TailSum(s, k) / k as real && r.value.valueAtRisk == -Sorted(s)[k - 1]
  {
    hide VarIndex, TailSum, Sorted;
  }

  /** By counting: the value at risk is the return that cuts the tail off, and the conditional one is the tail's
      average, never the smaller of the two. */
  lemma CutsOffTail(s: seq<real>, confidence: real)
    requires |s| >= 30
    ensures CalculateVarCvar(s, confidence).Some?
    ensures TailRisk(s, confidence, CalculateVarCvar(s, confidence).value)
  {
    hide *;
    RiskIs(s, confidence);
    var k, risk := VarIndex(confidence, |s|) + 1, CalculateVarCvar(s, confidence).value;
    var t := CutCounts(s, k);
    TailBelow(s, k);
    TailIsLeastChoice(s, k);
    IndexIsTailCount(confidence, |s|);
    AverageOf(TailSum(s, k), k, t, risk.cvar);
    IsTailRisk(s, confidence, risk, k, t, TailSum(s, k));
  }

  lemma AverageOf(sum: real, k: nat, t: real, average: real)
    requires k > 0 && sum <= k as real * t && average == -sum / k as real
    ensures AverageLoss(average, k, sum) && average >= -t
  {
    var n := k as real;
    Arith.QuotientTimes(-sum, n);
    assert -t * n == -(n * t);
    Arith.CancelOrder(-t, average, n);
  }

  lemma {:induction false} ShortfallConvex(a: real, t: real, x: seq<real>, u: real, y: seq<real>)
    requires |x| == |y| && a >= 0.0
    ensures Shortfall(a * t + u, Axpy(a, x, y)) <= a * Shortfall(t, x) + Shortfall(u, y)
  {
    if |x| > 0 {
      var n := |x| - 1;
      ShortfallConvex(a, t, x[..n], u, y[..n]);
      AxpyPrefix(a, x, y, n);
      ShortfallStep(a, t, x, u, y, Shortfall(a * t + u, Axpy(a, x[..n], y[..n])));
    }
  }

  lemma ShortfallStep(a: real, t: real, x: seq<real>, u: real, y: seq<real>, s: real)
    requires |x| == |y| > 0 && a >= 0.0
    requires Shortfall(a * t + u, Axpy(a, x, y)[..|x| - 1]) == s
    requires s <= a * Shortfall(t, x[..|x| - 1]) + Shortfall(u, y[..|x| - 1])
    ensures Shortfall(a * t + u, Axpy(a, x, y)) <= a * Shortfall(t, x) + Shortfall(u, y)
  {
    hide *;
    var n := |x| - 1;
    var p, q := t - x[n], u - y[n];
    PositiveConvex(a, p, q);
    ShortfallUnfold(t, x);
    ShortfallUnfold(u, y);
    ShortfallUnfold(a * t + u, Axpy(a, x, y));
    PointsAdd(a, t, x[n], u, y[n]);
    assert Axpy(a, x, y)[n] == a * x[n] + y[n];
    assert a * t + u - Axpy(a, x, y)[n] == a * p + q;
    assert Positive(a * t + u - Axpy(a, x, y)[n]) <= a * Positive(p) + Positive(q);
    ScaleSum(a, Shortfall(t, x[..n]), Positive(p));
    assert Shortfall(a * t + u, Axpy(a, x, y)) == s + Positive(a * t + u - Axpy(a, x, y)[n]);
    assert a * Shortfall(t, x) == a * (Shortfall(t, x[..n]) + Positive(p));
    assert Shortfall(u, y) == Shortfall(u, y[..n]) + Positive(q);
  }

  lemma PointsAdd(a: real, t: real, xn: real, u: real, yn: real)
    ensures a * t + u - (a * xn + yn) == a * (t - xn) + (u - yn)
  {
  }

  lemma ScaleSum(a: real, s: real, h: real)
    ensures a * (s + h) == a * s + a * h
  {
  }

  lemma ShortfallUnfold(t: real, s: seq<real>)
    requires |s| > 0
    ensures Shortfall(t, s) == Shortfall(t, s[..|s| - 1]) + Positive(t - s[|s| - 1])
  {
  }

  lemma PositiveConvex(a: real, p: real, q: real)
    requires a >= 0.0
    ensures Positive(a * p + q) <= a * Positive(p) + Positive(q)
  {
    if p <= 0.0 {
      assert a * p <= 0.0;
    }
  }

  /** The tail sum is super-additive, so losses in the tail are sub-additive. */
  lemma TailSuperadditive(a: real, x: seq<real>, y: seq<real>, k: nat)
    requires |x| == |y| && a >= 0.0 && 1 <= k <= |x|
    ensures TailSum(Axpy(a, x, y), k) >= a * TailSum(x, k) + TailSum(y, k)
  {
    hide *;
    var t := TailThreshold(x, k);
    var u := TailThreshold(y, k);
    var p, v := Axpy(a, x, y), a * t + u;
    TailBound(v, p, k);
    ShortfallConvex(a, t, x, u, y);
    ThresholdsAdd(a, k as real, t, u, v, Shortfall(t, x), Shortfall(u, y), Shortfall(v, p),
                  TailSum(x, k), TailSum(y, k), TailSum(p, k));
  }

  lemma ThresholdsAdd(a: real, r: real, t: real, u: real, v: real, sx: real, sy: real, sp: real, tx: real, ty: real,
                      tp: real)
    requires v == a * t + u && r * v - sp <= tp && sp <= a * sx + sy
    requires r * t - sx == tx && r * u - sy == ty
    ensures tp >= a * tx + ty
  {
    assert a * tx == a * (r * t) - a * sx;
    assert r * v == a * (r * t) + r * u;
  }

  lemma TailBound(t: real, s: seq<real>, k: nat)
    requires k <= |s|
    ensures k as real * t - Shortfall(t, s) <= TailSum(s, k)
  {
    ThresholdBound(t, Sorted(s), k);
    ShortfallSorted(t, s);
  }

  function WeightedTails(ws: seq<real>, xs: seq<seq<real>>, k: nat): real
    requires |ws| == |xs| && forall i :: 0 <= i < |xs| ==> k <= |xs[i]|
  {
    if |ws| == 0 then 0.0
    else WeightedTails(ws[..|ws| - 1], xs[..|xs| - 1], k) + ws[|ws| - 1] * TailSum(xs[|xs| - 1], k)
  }

  lemma {:induction false} ShortfallZeros(n: nat)
    ensures Shortfall(0.0, Const(n, 0.0)) == 0.0
  {
    if n > 0 {
      assert Const(n, 0.0)[..n - 1] == Const(n - 1, 0.0);
      ShortfallZeros(n - 1);
    }
  }

  lemma {:induction false} CombinedTail(ws: seq<real>, xs: seq<seq<real>>, n: nat, k: nat)
    requires |ws| == |xs| && 1 <= k <= n
    requires forall i :: 0 <= i < |xs| ==> |xs[i]| == n
    requires forall i :: 0 <= i < |ws| ==> ws[i] >= 0.0
    ensures TailSum(Combine(ws, xs, n), k) >= WeightedTails(ws, xs, k)
  {
    if |ws| == 0 {
      TailBound(0.0, Const(n, 0.0), k);
      ShortfallZeros(n);
    } else {
      CombinedTail(ws[..|ws| - 1], xs[..|xs| - 1], n, k);
      CombinedTailStep(ws, xs, n, k);
    }
  }

  lemma CombinedTailStep(ws: seq<real>, xs: seq<seq<real>>, n: nat, k: nat)
    requires |ws| == |xs| > 0 && ws[|ws| - 1] >= 0.0 && 1 <= k <= n
    requires forall i :: 0 <= i < |xs| ==> |xs[i]| == n
    requires TailSum(Combine(ws[..|ws| - 1], xs[..|ws| - 1], n), k) >= WeightedTails(ws[..|ws| - 1], xs[..|ws| - 1], k)
    ensures TailSum(Combine(ws, xs, n), k) >= WeightedTails(ws, xs, k)
  {
    hide *;
    var m := |ws| - 1;
    var rest := Combine(ws[..m], xs[..m], n);
    TailSuperadditive(ws[m], xs[m], rest, k);
    CombinedTailUnfold(ws, xs, n, k);
    assert Combine(ws, xs, n) == Axpy(ws[m], xs[m], rest);
    assert TailSum(rest, k) >= WeightedTails(ws[..m], xs[..m], k);
    assert WeightedTails(ws, xs, k) == WeightedTails(ws[..m], xs[..m], k) + ws[m] * TailSum(xs[m], k);
  }

  lemma CombinedTailUnfold(ws: seq<real>, xs: seq<seq<real>>, n: nat, k: nat)
    requires |ws| == |xs| > 0 && k <= n && forall i :: 0 <= i < |xs| ==> |xs[i]| == n
    ensures Combine(ws, xs, n) == Axpy(ws[|ws| - 1], xs[|xs| - 1], Combine(ws[..|ws| - 1], xs[..|xs| - 1], n))
    ensures WeightedTails(ws, xs, k)
         == WeightedTails(ws[..|ws| - 1], xs[..|xs| - 1], k) + ws[|ws| - 1] * TailSum(xs[|xs| - 1], k)
  {
  }

  // ---------------------------------------------------------------- portfolio VaR

  type Dated = seq<(int, real)>

  function DailyReturns(prices: Dated): (r: Dated) {
    if |prices| < 2 then []
    else
      var n := |prices| - 1;
      var prev := prices[n - 1].1;
      DailyReturns(prices[..n])
      + if prev > 0.0 then [(prices[n].0, (prices[n].1 - prev) / prev)] else []
  }

  method GetDailyReturns(prices: Dated) returns (r: Dated)
    ensures r == DailyReturns(prices)
  {
    r := [];
    var i := 1;
    while i < |prices|
      invariant 1 <= i && (|prices| > 0 ==> i <= |prices|)
      invariant r == DailyReturns(if |prices| == 0 then prices else prices[..i])
    {
      var prevPrice, currPrice := prices[i - 1].1, prices[i].1;
      assert prices[..i + 1][..i] == prices[..i];
      if prevPrice > 0.0 {
        r := r + [(prices[i].0, (currPrice - prevPrice) / prevPrice)];
      }
      i := i + 1;
    }
    assert |prices| > 0 ==> prices[..|prices|] == prices;
  }

  function Growth(r: Dated): real {
    if |r| == 0 then 1.0 else Growth(r[..|r| - 1]) * (1.0 + r[|r| - 1].1)
  }

  /** Compounding the daily returns of positive closes gives back the price path. */
  lemma {:induction false} ReturnsCompoundToPrices(prices: Dated)
    requires |prices| > 0 && forall i :: 0 <= i < |prices| ==> prices[i].1 > 0.0
    ensures |DailyReturns(prices)| == |prices| - 1
    ensures prices[0].1 * Growth(DailyReturns(prices)) == prices[|prices| - 1].1
  {
    if |prices| > 1 {
      var n := |prices| - 1;
      ReturnsCompoundToPrices(prices[..n]);
      CompoundLast(prices);
    }
  }

  lemma CompoundLast(prices: Dated)
    requires |prices| > 1 && prices[|prices| - 2].1 > 0.0
    requires prices[0].1 * Growth(DailyReturns(prices[..|prices| - 1])) == prices[|prices| - 2].1
    ensures prices[0].1 * Growth(DailyReturns(prices)) == prices[|prices| - 1].1
  {
    hide Growth, DailyReturns;
    var n := |prices| - 1;
    var r := (prices[n].1 - prices[n - 1].1) / prices[n - 1].1;
    DailyReturnsLast(prices);
    CompoundOne(DailyReturns(prices[..n]), prices[n].0, r);
    CompoundStep(prices[0].1, Growth(DailyReturns(prices[..n])), prices[n - 1].1, prices[n].1, r);
  }

  lemma DailyReturnsLast(prices: Dated)
    requires |prices| > 1 && prices[|prices| - 2].1 > 0.0
    ensures var n := |prices| - 1;
            DailyReturns(prices)
            == DailyReturns(prices[..n]) + [(prices[n].0, (prices[n].1 - prices[n - 1].1) / prices[n - 1].1)]
  {
  }

  lemma CompoundOne(r: Dated, date: int, ret: real)
    ensures Growth(r + [(date, ret)]) == Growth(r) * (1.0 + ret)
  {
    assert (r + [(date, ret)])[..|r|] == r;
  }

  lemma CompoundStep(first: real, growth: real, prev: real, curr: real, r: real)
    requires prev > 0.0 && first * growth == prev && r == (curr - prev) / prev
    ensures first * (growth * (1.0 + r)) == curr
  {
    assert prev * r == curr - prev;
    assert first * (growth * (1.0 + r)) == (first * growth) * (1.0 + r);
  }

  /** Python's `dict` on a list of pairs: a later pair replaces an earlier one. */
  function ToDict(pairs: Dated): map<int, real> {
    if |pairs| == 0 then map[]
    else ToDict(pairs[..|pairs| - 1])[pairs[|pairs| - 1].0 := pairs[|pairs| - 1].1]
  }

  ghost predicate DatesAscend(prices: Dated) {
    forall i, j :: 0 <= i < j < |prices| ==> prices[i].0 < prices[j].0
  }

  /** A day has a return exactly when a positive close comes just before it: the change as a share of that close. */
  ghost predicate ReturnsOf(prices: Dated, h: map<int, real>) {
    && (forall j :: 0 < j < |prices| && prices[j - 1].1 > 0.0 ==> EarnedOn(prices, h, j))
    && (forall d :: d in h ==> exists j :: 0 < j < |prices| && prices[j].0 == d && prices[j - 1].1 > 0.0)
  }

  ghost predicate EarnedOn(prices: Dated, h: map<int, real>, j: nat)
    requires 0 < j < |prices|
  {
    prices[j].0 in h && h[prices[j].0] * prices[j - 1].1 == prices[j].1 - prices[j - 1].1
  }

  lemma {:induction false} HistoryIsReturns(prices: Dated)
    requires DatesAscend(prices)
    ensures ReturnsOf(prices, ToDict(DailyReturns(prices)))
  {
    if |prices| >= 2 {
      hide ReturnsOf, ToDict, DailyReturns;
      var n := |prices| - 1;
      HistoryIsReturns(prices[..n]);
      var before := ToDict(DailyReturns(prices[..n]));
      if prices[n - 1].1 > 0.0 {
        var r := HistoryStep(prices);
        MoreReturns(prices, before, r);
      } else {
        NoReturn(prices);
        SameReturns(prices, before);
      }
    }
  }

  lemma HistoryStep(prices: Dated) returns (r: real)
    requires |prices| >= 2 && prices[|prices| - 2].1 > 0.0
    ensures var n := |prices| - 1;
            && r * prices[n - 1].1 == prices[n].1 - prices[n - 1].1
            && ToDict(DailyReturns(prices)) == ToDict(DailyReturns(prices[..n]))[prices[n].0 := r]
  {
    DailyReturnsLast(prices);
    hide DailyReturns;
    var n := |prices| - 1;
    r := (prices[n].1 - prices[n - 1].1) / prices[n - 1].1;
    var some, all := DailyReturns(prices[..n]), DailyReturns(prices);
    assert all[..|some|] == some && all[|some|] == (prices[n].0, r);
    Arith.QuotientTimes(prices[n].1 - prices[n - 1].1, prices[n - 1].1);
  }

  lemma MoreReturns(prices: Dated, before: map<int, real>, r: real)
    requires |prices| >= 2 && DatesAscend(prices) && prices[|prices| - 2].1 > 0.0
    requires ReturnsOf(prices[..|prices| - 1], before)
    requires r * prices[|prices| - 2].1 == prices[|prices| - 1].1 - prices[|prices| - 2].1
    ensures ReturnsOf(prices, before[prices[|prices| - 1].0 := r])
  {
    var n := |prices| - 1;
    var some, after := prices[..n], before[prices[n].0 := r];
    forall j | 0 < j < |prices| && prices[j - 1].1 > 0.0
      ensures EarnedOn(prices, after, j)
    {
      if j < n {
        assert some[j] == prices[j] && some[j - 1] == prices[j - 1];
        assert EarnedOn(some, before, j) && prices[j].0 < prices[n].0;
      }
    }
    forall d | d in after
      ensures exists j :: 0 < j < |prices| && prices[j].0 == d && prices[j - 1].1 > 0.0
    {
      if d != prices[n].0 {
        var j :| 0 < j < n && some[j].0 == d && some[j - 1].1 > 0.0;
        assert prices[j].0 == d && prices[j - 1].1 > 0.0;
      }
    }
  }

  lemma NoReturn(prices: Dated)
    requires |prices| >= 2 && prices[|prices| - 2].1 <= 0.0
    ensures DailyReturns(prices) == DailyReturns(prices[..|prices| - 1])
  {
  }

  lemma SameReturns(prices: Dated, before: map<int, real>)
    requires |prices| >= 2 && prices[|prices| - 2].1 <= 0.0 && ReturnsOf(prices[..|prices| - 1], before)
    ensures ReturnsOf(prices, before)
  {
    var some := prices[..|prices| - 1];
    forall j | 0 < j < |prices| && prices[j - 1].1 > 0.0
      ensures EarnedOn(prices, before, j)
    {
      assert some[j] == prices[j] && some[j - 1] == prices[j - 1];
      assert EarnedOn(some, before, j);
    }
    forall d | d in before
      ensures exists j :: 0 < j < |prices| && prices[j].0 == d && prices[j - 1].1 > 0.0
    {
      var j :| 0 < j < |some| && some[j].0 == d && some[j - 1].1 > 0.0;
      assert prices[j].0 == d && prices[j - 1].1 > 0.0;
    }
  }

  type Positions = seq<(string, real)>

  type Histories = seq<map<int, real>>

  /** One date-to-return dictionary a position. */
  function HistoriesOf(bars: string -> Dated, positions: Positions): (hs: Histories)
    ensures |hs| == |positions|
    ensures forall i :: 0 <= i < |hs| ==> hs[i] == ToDict(DailyReturns(bars(positions[i].0)))
  {
    seq(|positions|, i requires 0 <= i < |positions| => ToDict(DailyReturns(bars(positions[i].0))))
  }

  function Weights(positions: Positions): (ws: seq<real>)
    ensures |ws| == |positions|
    ensures forall i :: 0 <= i < |ws| ==> ws[i] == positions[i].1
  {
    seq(|positions|, i requires 0 <= i < |positions| => positions[i].1)
  }

  function CommonDates(hs: Histories): set<int>
    requires |hs| > 0
  {
    set d | d in hs[0] && forall i :: 0 <= i < |hs| ==> d in hs[i]
  }

  ghost predicate Covered(hs: Histories, dates: seq<int>) {
    forall i, j :: 0 <= i < |hs| && 0 <= j < |dates| ==> dates[j] in hs[i]
  }

  /** The weighted return of one date, summed over the positions in order. */
  function WeightedReturn(ws: seq<real>, hs: Histories, d: int): real
    requires |ws| == |hs| && forall i :: 0 <= i < |hs| ==> d in hs[i]
  {
    if |ws| == 0 then 0.0
    else WeightedReturn(ws[..|ws| - 1], hs[..|hs| - 1], d) + ws[|ws| - 1] * hs[|hs| - 1][d]
  }

  function PortfolioSeries(ws: seq<real>, hs: Histories, dates: seq<int>): (r: seq<real>)
    requires |ws| == |hs|
    requires forall i, j :: 0 <= i < |hs| && 0 <= j < |dates| ==> dates[j] in hs[i]
    ensures |r| == |dates|
    ensures forall j :: 0 <= j < |dates| ==> r[j] == WeightedReturn(ws, hs, dates[j])
  {
    seq(|dates|, j requires 0 <= j < |dates| => WeightedReturn(ws, hs, dates[j]))
  }

  function PortfolioVar(ws: seq<real>, hs: Histories): Option<Risk>
    requires |ws| == |hs|
  {
    if |hs| == 0 || |CommonDates(hs)| < MIN_OBSERVATIONS then None
    else
      var dates := SortDates(CommonDates(hs));
      assert forall j :: 0 <= j < |dates| ==> dates[j] in dates;
      CalculateVarCvar(PortfolioSeries(ws, hs, dates), CONFIDENCE_95)
  }

  /** The tail risk at 95% of the weighted returns on the dates that all histories share. */
  ghost predicate PortfolioRisk(ws: seq<real>, hs: Histories, risk: Risk)
    requires |ws| == |hs|
  {
    exists dates ::
      && Ascending(dates) && |dates| >= 30 && Covered(hs, dates)
      && (forall d :: (forall i :: 0 <= i < |hs| ==> d in hs[i]) ==> d in dates)
      && TailRisk(PortfolioSeries(ws, hs, dates), 0.95, risk)
  }

  lemma PortfolioVarIsRisk(ws: seq<real>, hs: Histories)
    requires |ws| == |hs|
    ensures PortfolioVar(ws, hs).Some? ==> PortfolioRisk(ws, hs, PortfolioVar(ws, hs).value)
    ensures PortfolioVar(ws, hs).None? <==> |hs| == 0 || |CommonDates(hs)| < 30
  {
    hide CalculateVarCvar, TailRisk;
    if |hs| > 0 && |CommonDates(hs)| >= 30 {
      var dates := SortDates(CommonDates(hs));
      assert forall j :: 0 <= j < |dates| ==> dates[j] in dates;
      assert Covered(hs, dates);
      CutsOffTail(PortfolioSeries(ws, hs, dates), CONFIDENCE_95);
    }
  }

  method CalculatePortfolioVar(bars: string -> Dated, positions: Positions) returns (r: Option<Risk>)
    ensures r == PortfolioVar(Weights(positions), HistoriesOf(bars, positions))
    ensures r.None? <==> |positions| == 0 || |CommonDates(HistoriesOf(bars, positions))| < 30
    ensures r.Some? ==> PortfolioRisk(Weights(positions), HistoriesOf(bars, positions), r.value)
  {
    hide PortfolioRisk, WeightedReturn;
    PortfolioVarIsRisk(Weights(positions), HistoriesOf(bars, positions));
    if |positions| == 0 {
      return None;
    }
    hide CalculateVarCvar, ToDict, DailyReturns;
    ghost var hs := HistoriesOf(bars, positions);
    var allReturns := FetchReturns(bars, positions);
    var common := set d | d in allReturns[positions[0].0] && forall s :: s in allReturns ==> d in allReturns[s];
    assert common == CommonDates(hs);
    if |common| < MIN_OBSERVATIONS {
      return None;
    }
    var dates := SortDates(common);
    assert forall j :: 0 <= j < |dates| ==> dates[j] in dates;
    var portfolioReturns := DayReturns(positions, allReturns, dates, hs);
    r := CalculateVarCvar(portfolioReturns, CONFIDENCE_95);
  }

  method DayReturns(positions: Positions, allReturns: map<string, map<int, real>>, dates: seq<int>, ghost hs: Histories)
    returns (portfolioReturns: seq<real>)
    requires |hs| == |positions| && Covered(hs, dates)
    requires forall i :: 0 <= i < |positions| ==>
      positions[i].0 in allReturns && allReturns[positions[i].0] == hs[i]
    ensures portfolioReturns == PortfolioSeries(Weights(positions), hs, dates)
  {
    portfolioReturns := [];
    for j := 0 to |dates|
      invariant |portfolioReturns| == j
      invariant forall k :: 0 <= k < j ==> portfolioReturns[k] == WeightedReturn(Weights(positions), hs, dates[k])
    {
      var portReturn := DayReturn(positions, allReturns, dates[j], hs);
      portfolioReturns := portfolioReturns + [portReturn];
    }
    assert portfolioReturns == PortfolioSeries(Weights(positions), hs, dates);
  }

  method DayReturn(positions: Positions, allReturns: map<string, map<int, real>>, d: int, ghost hs: Histories)
    returns (portReturn: real)
    requires |hs| == |positions|
    requires forall i :: 0 <= i < |positions| ==>
      positions[i].0 in allReturns && allReturns[positions[i].0] == hs[i] && d in hs[i]
    ensures portReturn == WeightedReturn(Weights(positions), hs, d)
  {
    ghost var ws := Weights(positions);
    portReturn := 0.0;
    for i := 0 to |positions|
      invariant portReturn == WeightedReturn(ws[..i], hs[..i], d)
    {
      assert ws[..i + 1][..i] == ws[..i] && hs[..i + 1][..i] == hs[..i];
      portReturn := portReturn + positions[i].1 * allReturns[positions[i].0][d];
    }
    assert ws[..|ws|] == ws && hs[..|hs|] == hs;
  }

  method FetchReturns(bars: string -> Dated, positions: Positions) returns (allReturns: map<string, map<int, real>>)
    ensures forall k :: 0 <= k < |positions| ==> positions[k].0 in allReturns
    ensures forall k :: 0 <= k < |positions| ==> allReturns[positions[k].0] == HistoriesOf(bars, positions)[k]
    ensures forall s :: s in allReturns ==> exists k :: 0 <= k < |positions| && positions[k].0 == s
  {
    allReturns := map[];
    for i := 0 to |positions|
      invariant forall k :: 0 <= k < i ==> positions[k].0 in allReturns
      invariant forall s :: s in allReturns ==> allReturns[s] == ToDict(DailyReturns(bars(s)))
      invariant forall s :: s in allReturns ==> exists k :: 0 <= k < i && positions[k].0 == s
    {
      var daily := GetDailyReturns(bars(positions[i].0));
      allReturns := allReturns[positions[i].0 := ToDict(daily)];
    }
  }

  /** One holding's returns on the given dates. */
  function HoldingSeries(h: map<int, real>, dates: seq<int>): (r: seq<real>)
    requires forall j :: 0 <= j < |dates| ==> dates[j] in h
    ensures |r| == |dates|
    ensures forall j :: 0 <= j < |dates| ==> r[j] == h[dates[j]]
  {
    seq(|dates|, j requires 0 <= j < |dates| => h[dates[j]])
  }

  function Holdings(hs: Histories, dates: seq<int>): (xs: seq<seq<real>>)
    requires forall i, j :: 0 <= i < |hs| && 0 <= j < |dates| ==> dates[j] in hs[i]
    ensures |xs| == |hs|
    ensures forall i :: 0 <= i < |xs| ==> |xs[i]| == |dates| && xs[i] == HoldingSeries(hs[i], dates)
  {
    seq(|hs|, i requires 0 <= i < |hs| => HoldingSeries(hs[i], dates))
  }

  lemma {:induction false} CombineAt(ws: seq<real>, hs: Histories, dates: seq<int>, j: nat)
    requires |ws| == |hs| && Covered(hs, dates) && j < |dates|
    ensures Combine(ws, Holdings(hs, dates), |dates|)[j] == WeightedReturn(ws, hs, dates[j])
  {
    if |ws| > 0 {
      var n := |ws| - 1;
      CombineAt(ws[..n], hs[..n], dates, j);
      assert Holdings(hs, dates)[..n] == Holdings(hs[..n], dates);
    }
  }

  /** The day-by-day weighted sum is the weighted combination of the holdings' series. */
  lemma PortfolioIsCombination(ws: seq<real>, hs: Histories, dates: seq<int>)
    requires |ws| == |hs| && Covered(hs, dates)
    ensures PortfolioSeries(ws, hs, dates) == Combine(ws, Holdings(hs, dates), |dates|)
  {
    hide Combine, WeightedReturn;
    var p, c := PortfolioSeries(ws, hs, dates), Combine(ws, Holdings(hs, dates), |dates|);
    forall j | 0 <= j < |dates|
      ensures p[j] == c[j]
    {
      CombineAt(ws, hs, dates, j);
    }
  }

  function WeightedCvars(ws: seq<real>, xs: seq<seq<real>>, confidence: real): real
    requires |ws| == |xs| && forall i :: 0 <= i < |xs| ==> |xs[i]| >= MIN_OBSERVATIONS
  {
    if |ws| == 0 then 0.0
    else WeightedCvars(ws[..|ws| - 1], xs[..|xs| - 1], confidence)
         + ws[|ws| - 1] * CalculateVarCvar(xs[|xs| - 1], confidence).value.cvar
  }

  lemma CvarIsTail(x: seq<real>, confidence: real)
    requires |x| >= MIN_OBSERVATIONS
    ensures var k := VarIndex(confidence, |x|) + 1;
            AverageLoss(CalculateVarCvar(x, confidence).value.cvar, k, TailSum(x, k))
  {
  }

  lemma {:induction false} WeightedCvarsAreTails(ws: seq<real>, xs: seq<seq<real>>, n: nat, confidence: real)
    requires |ws| == |xs| && n >= MIN_OBSERVATIONS
    requires forall i :: 0 <= i < |xs| ==> |xs[i]| == n
    ensures var k := VarIndex(confidence, n) + 1;
            AverageLoss(WeightedCvars(ws, xs, confidence), k, WeightedTails(ws, xs, k))
  {
    hide CalculateVarCvar, TailSum, VarIndex, Arith.Truncate, AverageLoss;
    if |ws| == 0 {
      NoLoss(VarIndex(confidence, n) + 1);
    } else {
      var k, m := VarIndex(confidence, n) + 1, |ws| - 1;
      WeightedCvarsAreTails(ws[..m], xs[..m], n, confidence);
      CvarIsTail(xs[m], confidence);
      var cs, ts := WeightedCvars(ws[..m], xs[..m], confidence), WeightedTails(ws[..m], xs[..m], k);
      var c, t := CalculateVarCvar(xs[m], confidence).value.cvar, TailSum(xs[m], k);
      CvarStep(cs, ts, ws[m], t, c, WeightedCvars(ws, xs, confidence), WeightedTails(ws, xs, k), k);
    }
  }

  /** `c` is the average loss of `k` returns that sum to `t`. */
  ghost predicate AverageLoss(c: real, k: nat, t: real) {
    c * k as real == -t
  }

  lemma NoLoss(k: nat)
    ensures AverageLoss(0.0, k, 0.0)
  {
  }

  lemma CvarStep(cs: real, ts: real, w: real, t: real, c: real, cvars: real, tails: real, k: nat)
    requires cvars == cs + w * c && tails == ts + w * t
    requires AverageLoss(c, k, t) && AverageLoss(cs, k, ts)
    ensures AverageLoss(cvars, k, tails)
  {
    CvarArithmetic(cs, ts, w, t, c, k as real);
  }

  lemma CvarArithmetic(cs: real, ts: real, w: real, t: real, c: real, k: real)
    requires c * k == -t && cs * k == -ts
    ensures (cs + w * c) * k == -(ts + w * t)
  {
    assert (w * c) * k == w * (c * k);
  }

  /** Historical CVaR is sub-additive on one set of dates, for any non-negative weights. */
  lemma CvarSubadditive(ws: seq<real>, xs: seq<seq<real>>, n: nat, confidence: real)
    requires |ws| == |xs| && n >= MIN_OBSERVATIONS
    requires forall i :: 0 <= i < |xs| ==> |xs[i]| == n && ws[i] >= 0.0
    ensures CalculateVarCvar(Combine(ws, xs, n), confidence).Some?
    ensures CalculateVarCvar(Combine(ws, xs, n), confidence).value.cvar <= WeightedCvars(ws, xs, confidence)
  {
    hide VarIndex, Arith.Truncate, WeightedCvars, WeightedTails, TailSum, Combine;
    var k := VarIndex(confidence, n) + 1;
    CombinedTail(ws, xs, n, k);
    WeightedCvarsAreTails(ws, xs, n, confidence);
    var p := Combine(ws, xs, n);
    CvarIsTail(p, confidence);
    Arith.CancelOrder(CalculateVarCvar(p, confidence).value.cvar, WeightedCvars(ws, xs, confidence), k as real);
  }

  /** What the portfolio function returns never exceeds the weighted CVaRs of its holdings on the shared dates. */
  lemma PortfolioCvarSubadditive(ws: seq<real>, hs: Histories)
    requires |ws| == |hs| > 0 && forall i :: 0 <= i < |ws| ==> ws[i] >= 0.0
    requires |CommonDates(hs)| >= MIN_OBSERVATIONS
    ensures var dates := SortDates(CommonDates(hs));
            && Covered(hs, dates)
            && PortfolioVar(ws, hs).Some?
            && PortfolioVar(ws, hs).value.cvar <= WeightedCvars(ws, Holdings(hs, dates), CONFIDENCE_95)
  {
    hide WeightedCvars, CalculateVarCvar, Combine;
    var dates := SortDates(CommonDates(hs));
    assert forall j :: 0 <= j < |dates| ==> dates[j] in dates;
    PortfolioIsCombination(ws, hs, dates);
    CvarSubadditive(ws, Holdings(hs, dates), |dates|, CONFIDENCE_95);
  }

  // ---------------------------------------------------------------- market beta

  /** Stock returns on the dates the market also has, with the market's returns beside them. */
  function Aligned(stock: Dated, market: map<int, real>): (r: (seq<real>, seq<real>))
    ensures |r.0| == |r.1|
  {
    if |stock| == 0 then ([], [])
    else
      var n := |stock| - 1;
      var (s, m) := Aligned(stock[..n], market);
      if stock[n].0 in market then (s + [stock[n].1], m + [market[stock[n].0]]) else (s, m)
  }

  /** The observations behind two aligned series: all dated returns of the stock whose date the market has, in order. */
  ghost predicate Matched(stock: Dated, market: map<int, real>, picks: seq<nat>, s: seq<real>, m: seq<real>) {
    && |picks| == |s| == |m|
    && (forall j, k :: 0 <= j < k < |picks| ==> picks[j] < picks[k])
    && (forall j :: 0 <= j < |picks| ==>
          && picks[j] < |stock| && stock[picks[j]].0 in market
          && s[j] == stock[picks[j]].1 && m[j] == market[stock[picks[j]].0])
    && (forall i: nat :: i < |stock| && stock[i].0 in market ==> i in picks)
  }

  lemma {:induction false} AlignedIsMatched(stock: Dated, market: map<int, real>) returns (picks: seq<nat>)
    ensures Matched(stock, market, picks, Aligned(stock, market).0, Aligned(stock, market).1)
  {
    picks := [];
    if |stock| > 0 {
      var n := |stock| - 1;
      picks := AlignedIsMatched(stock[..n], market);
      if stock[n].0 in market {
        assert forall i :: i in picks ==> i in picks + [n];
        picks := picks + [n];
        assert picks[|picks| - 1] == n;
      }
    }
  }

  datatype Fit = Fit(beta: Option<real>, rSquared: Option<real>, observations: nat)

  function Slope(cov: real, varMarket: real): real
    requires varMarket > 0.0
  {
    cov / varMarket
  }

  function ExplainedShare(cov: real, varStock: real, varMarket: real): real
    requires varMarket > 0.0
  {
    if varStock > 0.0 then
      Arith.ProductSign(varStock, varMarket);
      cov * cov / (varStock * varMarket)
    else 0.0
  }

  function FitOf(s: seq<real>, m: seq<real>): Fit
    requires |s| == |m|
  {
    var n := |s|;
    if n < MIN_OBSERVATIONS || Var(m) == 0.0 then Fit(None, None, n)
    else
      VarNonNegative(m);
      Fit(Some(Slope(Cov(s, m), Var(m))), Some(ExplainedShare(Cov(s, m), Var(s), Var(m))), n)
  }

  method AlignByDate(stock: Dated, market: map<int, real>) returns (alignedStock: seq<real>, alignedMarket: seq<real>)
    ensures (alignedStock, alignedMarket) == Aligned(stock, market)
    ensures exists picks :: Matched(stock, market, picks, alignedStock, alignedMarket)
  {
    hide Matched;
    ghost var _ := AlignedIsMatched(stock, market);
    alignedStock, alignedMarket := [], [];
    for i := 0 to |stock|
      invariant (alignedStock, alignedMarket) == Aligned(stock[..i], market)
    {
      assert stock[..i + 1][..i] == stock[..i];
      var (date, ret) := stock[i];
      if date in market {
        alignedStock := alignedStock + [ret];
        alignedMarket := alignedMarket + [market[date]];
      }
    }
    assert stock[..|stock|] == stock;
  }

  /** The residual sum of squares of the line `a + b * m`. */
  function Residuals(s: seq<real>, m: seq<real>, a: real, b: real): real
    requires |s| == |m|
  {
    if |s| == 0 then 0.0
    else
      var n := |s| - 1;
      var e := s[n] - a - b * m[n];
      Residuals(s[..n], m[..n], a, b) + e * e
  }

  lemma {:induction false} ResidualsAreDeviations(s: seq<real>, m: seq<real>, a: real, b: real)
    requires |s| == |m|
    ensures Residuals(s, m, a, b) == CrossDev(Axpy(-b, m, s), a, Axpy(-b, m, s), a)
  {
    if |s| > 0 {
      var n := |s| - 1;
      ResidualsAreDeviations(s[..n], m[..n], a, b);
      AxpyPrefix(-b, m, s, n);
      assert s[n] - a - b * m[n] == -b * m[n] + s[n] - a;
    }
  }

  /** The intercept that puts a line of slope `b` through both means. */
  function Intercept(s: seq<real>, m: seq<real>, b: real): real
    requires |s| == |m| > 0
  {
    Mean(s) - b * Mean(m)
  }

  /** Residuals split into the offset of the line from the means and the spread about it. */
  lemma ResidualsExpanded(s: seq<real>, m: seq<real>, a: real, b: real)
    requires |s| == |m| > 0
    ensures var off := Intercept(s, m, b) - a;
            Residuals(s, m, a, b)
            == |s| as real * (off * off + (b * b * Var(m) - 2.0 * b * Cov(s, m) + Var(s)))
  {
    hide Mean, Var, Cov, Residuals, Dot, Sum, CrossDev, Axpy;
    var e, n := Axpy(-b, m, s), |s| as real;
    ResidualsAreDeviations(s, m, a, b);
    CrossDevExpanded(e, a, e, a);
    CovExpanded(e, e);
    MeanAxpy(-b, m, s);
    MeanTimes(e);
    VarAxpy(-b, m, s);
    CovSymmetric(m, s);
    VarIsCov(e);
    var mean := Mean(e);
    var off := Intercept(s, m, b) - a;
    assert mean - a == off;
    SpreadArithmetic(Residuals(s, m, a, b), Dot(e, e), Sum(e), n, mean, a, Var(e));
    assert -b * -b * Var(m) + 2.0 * -b * Cov(m, s) == b * b * Var(m) - 2.0 * b * Cov(s, m);
  }

  lemma ResidualsThroughMeans(s: seq<real>, m: seq<real>, b: real)
    requires |s| == |m| > 0
    ensures Residuals(s, m, Intercept(s, m, b), b)
         == |s| as real * (b * b * Var(m) - 2.0 * b * Cov(s, m) + Var(s))
  {
    hide Mean, Var, Cov, Residuals;
    ResidualsExpanded(s, m, Intercept(s, m, b), b);
  }

  lemma VarIsCov(x: seq<real>)
    requires |x| > 0
    ensures Var(x) == Cov(x, x)
  {
  }

  lemma SpreadArithmetic(res: real, dot: real, sum: real, n: real, mean: real, a: real, v: real)
    requires res == dot - a * sum - a * sum + n * (a * a)
    requires mean * n == sum && v * n == dot - n * (mean * mean)
    ensures res == n * ((mean - a) * (mean - a) + v)
  {
    assert a * sum == n * (a * mean);
    assert (mean - a) * (mean - a) == mean * mean - 2.0 * (a * mean) + a * a;
  }

  /** The fitted slope, with the intercept through the means, has the least residuals of all lines, and is the only
      one. */
  lemma BetaIsLeastSquares(s: seq<real>, m: seq<real>, a: real, b: real)
    requires |s| == |m| >= MIN_OBSERVATIONS && Var(m) != 0.0
    ensures FitOf(s, m).beta.Some?
    ensures var beta := FitOf(s, m).beta.value;
            var alpha := Intercept(s, m, beta);
            Residuals(s, m, alpha, beta) <= Residuals(s, m, a, b)
            && (Residuals(s, m, alpha, beta) == Residuals(s, m, a, b) <==> a == alpha && b == beta)
  {
    FitUnfold(s, m);
    LeastSquaresFit(s, m, a, b);
  }

  lemma LeastSquaresFit(s: seq<real>, m: seq<real>, a: real, b: real)
    requires |s| == |m| >= MIN_OBSERVATIONS && Var(m) != 0.0 && FitOf(s, m).beta.Some?
    requires FitOf(s, m).beta.value * Var(m) == Cov(s, m)
    ensures var beta := FitOf(s, m).beta.value;
            var alpha := Intercept(s, m, beta);
            Residuals(s, m, alpha, beta) <= Residuals(s, m, a, b)
            && (Residuals(s, m, alpha, beta) == Residuals(s, m, a, b) <==> a == alpha && b == beta)
  {
    hide FitOf, Var, Cov, Mean, Residuals, Intercept;
    var beta := FitOf(s, m).beta.value;
    LeastSquaresStep(s, m, a, b, beta);
  }

  lemma FitUnfold(s: seq<real>, m: seq<real>)
    requires |s| == |m| >= MIN_OBSERVATIONS && Var(m) != 0.0
    ensures var fit := FitOf(s, m);
            && fit.beta.Some? && fit.rSquared.Some? && fit.beta.value * Var(m) == Cov(s, m)
            && (Var(s) > 0.0 ==> fit.rSquared.value * (Var(s) * Var(m)) == Cov(s, m) * Cov(s, m))
            && (Var(s) <= 0.0 ==> fit.rSquared.value == 0.0)
  {
    hide Var, Cov;
    VarNonNegative(m);
    Arith.QuotientTimes(Cov(s, m), Var(m));
    if Var(s) > 0.0 {
      assert Var(s) * Var(m) > 0.0;
      Arith.QuotientTimes(Cov(s, m) * Cov(s, m), Var(s) * Var(m));
    }
  }

  lemma LeastSquaresStep(s: seq<real>, m: seq<real>, a: real, b: real, beta: real)
    requires |s| == |m| > 0 && Var(m) != 0.0 && beta * Var(m) == Cov(s, m)
    ensures var alpha := Intercept(s, m, beta);
            Residuals(s, m, alpha, beta) <= Residuals(s, m, a, b)
            && (Residuals(s, m, alpha, beta) == Residuals(s, m, a, b) <==> a == alpha && b == beta)
  {
    hide *;
    var alpha := Intercept(s, m, beta);
    ResidualsExpanded(s, m, a, b);
    ResidualsThroughMeans(s, m, beta);
    VarNonNegative(m);
    var off := Intercept(s, m, b) - a;
    ParabolaMinimum(Var(m), Cov(s, m), Var(s), beta, b, off, |s| as real,
                    Residuals(s, m, alpha, beta), Residuals(s, m, a, b));
  }

  lemma ParabolaMinimum(v: real, c: real, w: real, beta: real, b: real, off: real, n: real, best: real, other: real)
    requires v > 0.0 && n > 0.0 && beta * v == c
    requires best == n * (beta * beta * v - 2.0 * beta * c + w)
    requires other == n * (off * off + (b * b * v - 2.0 * b * c + w))
    ensures best <= other && (best == other <==> off == 0.0 && b == beta)
  {
    var d := b - beta;
    var p, q := off * off, d * d;
    GapExpanded(v, c, w, beta, b, d, off, n, p, q, best, other);
    Arith.SquareSign(off, p);
    Arith.SquareSign(d, q);
    Arith.ProductSign(q, v);
    Arith.ProductSign(p + q * v, n);
  }

  lemma GapExpanded(v: real, c: real, w: real, beta: real, b: real, d: real, off: real, n: real, p: real, q: real,
                    best: real, other: real)
    requires d == b - beta && beta * v == c && p == off * off && q == d * d
    requires best == n * (beta * beta * v - 2.0 * beta * c + w)
    requires other == n * (off * off + (b * b * v - 2.0 * b * c + w))
    ensures other - best == (p + q * v) * n
  {
    assert b * c == b * beta * v;
    assert beta * c == beta * beta * v;
    assert q * v == b * b * v - 2.0 * (b * beta * v) + beta * beta * v;
  }

  /** R-squared lies in [0, 1], and is one minus the unexplained share of the variation. */
  lemma RSquaredIsExplainedShare(s: seq<real>, m: seq<real>)
    requires |s| == |m| >= MIN_OBSERVATIONS && Var(m) != 0.0
    ensures FitOf(s, m).beta.Some? && FitOf(s, m).rSquared.Some?
    ensures var fit := FitOf(s, m);
            var beta := fit.beta.value;
            var alpha := Intercept(s, m, beta);
            && 0.0 <= fit.rSquared.value <= 1.0
            && (Var(s) > 0.0 ==>
                  Residuals(s, m, alpha, beta) == (1.0 - fit.rSquared.value) * Residuals(s, m, Mean(s), 0.0))
  {
    hide FitOf, Var, Cov, Mean, Residuals, Intercept;
    VarNonNegative(m);
    VarNonNegative(s);
    CauchySchwarz(s, m);
    FitUnfold(s, m);
    var beta := FitOf(s, m).beta.value;
    if Var(s) > 0.0 {
      var alpha := Intercept(s, m, beta);
      ResidualsThroughMeans(s, m, beta);
      FlatResiduals(s, m);
      ShareArithmetic(Var(m), Var(s), Cov(s, m), beta, FitOf(s, m).rSquared.value, |s| as real,
                      Residuals(s, m, alpha, beta), Residuals(s, m, Mean(s), 0.0));
    }
  }

  /** What a fit tells about its two series: least residuals of all lines, and the explained share of the variation. */
  ghost predicate Explains(r: Fit, s: seq<real>, m: seq<real>)
    requires |s| == |m|
  {
    && r.observations == |s|
    && (r.beta.Some? <==> |s| >= 30 && Var(m) != 0.0)
    && (r.rSquared.Some? <==> r.beta.Some?)
    && (r.beta.Some? ==>
          && (forall a, b :: Residuals(s, m, Intercept(s, m, r.beta.value), r.beta.value) <= Residuals(s, m, a, b))
          && 0.0 <= r.rSquared.value <= 1.0
          && Residuals(s, m, Intercept(s, m, r.beta.value), r.beta.value)
             == (1.0 - r.rSquared.value) * Residuals(s, m, Mean(s), 0.0))
  }

  lemma FitExplains(s: seq<real>, m: seq<real>)
    requires |s| == |m|
    ensures Explains(FitOf(s, m), s, m)
  {
    hide Var, Cov, Mean, Residuals, Intercept;
    if |s| >= MIN_OBSERVATIONS && Var(m) != 0.0 {
      RSquaredIsExplainedShare(s, m);
      var beta := FitOf(s, m).beta.value;
      FlatStock(s, m);
      hide FitOf;
      forall a, b
        ensures Residuals(s, m, Intercept(s, m, beta), beta) <= Residuals(s, m, a, b)
      {
        BetaIsLeastSquares(s, m, a, b);
      }
    }
  }

  /** A stock that never moves is fitted without residuals, and none are explained. */
  lemma FlatStock(s: seq<real>, m: seq<real>)
    requires |s| == |m| >= MIN_OBSERVATIONS && Var(m) != 0.0
    ensures FitOf(s, m).beta.Some? && FitOf(s, m).rSquared.Some?
    ensures Var(s) <= 0.0 ==>
              && FitOf(s, m).rSquared.value == 0.0
              && Residuals(s, m, Intercept(s, m, FitOf(s, m).beta.value), FitOf(s, m).beta.value) == 0.0
              && Residuals(s, m, Mean(s), 0.0) == 0.0
  {
    hide FitOf, Var, Cov, Mean, Residuals, Intercept;
    FitUnfold(s, m);
    VarNonNegative(s);
    VarNonNegative(m);
    if Var(s) <= 0.0 {
      var beta := FitOf(s, m).beta.value;
      VarIsCov(s);
      ZeroVarZeroCov(s, m);
      ResidualsThroughMeans(s, m, beta);
      FlatResiduals(s, m);
      Arith.CancelEqual(beta, 0.0, Var(m));
    }
  }

  /** The regression over the dates both have: means, covariance and variances, then slope and R-squared. */
  method CalculateBeta(stock: Dated, market: map<int, real>) returns (r: Fit)
    ensures Explains(r, Aligned(stock, market).0, Aligned(stock, market).1)
    ensures r == FitOf(Aligned(stock, market).0, Aligned(stock, market).1)
    ensures exists s, m, picks :: Matched(stock, market, picks, s, m) && Explains(r, s, m)
  {
    hide Matched;
    var s, m := AlignByDate(stock, market);
    FitExplains(s, m);
    hide Explains, CrossDev, Mean, Slope, ExplainedShare;
    var n := |s|;
    if n < MIN_OBSERVATIONS {
      return Fit(None, None, n);
    }
    var meanStock, meanMarket := Mean(s), Mean(m);
    var cov := CrossDev(s, meanStock, m, meanMarket) / n as real;
    var varMarket := CrossDev(m, meanMarket, m, meanMarket) / n as real;
    if varMarket == 0.0 {
      return Fit(None, None, n);
    }
    VarNonNegative(m);
    var beta := Slope(cov, varMarket);
    var varStock := CrossDev(s, meanStock, s, meanStock) / n as real;
    var rSquared := ExplainedShare(cov, varStock, varMarket);
    r := Fit(Some(beta), Some(rSquared), n);
  }

  /** The horizontal line through the mean leaves the whole variation. */
  lemma FlatResiduals(s: seq<real>, m: seq<real>)
    requires |s| == |m| > 0
    ensures Residuals(s, m, Mean(s), 0.0) == |s| as real * Var(s)
  {
    hide Mean, Var, Cov, Residuals;
    ResidualsThroughMeans(s, m, 0.0);
    assert Intercept(s, m, 0.0) == Mean(s);
    assert 0.0 * 0.0 * Var(m) - 2.0 * 0.0 * Cov(s, m) + Var(s) == Var(s);
  }

  lemma ShareArithmetic(v: real, w: real, c: real, beta: real, r: real, n: real, res: real, total: real)
    requires total == n * w
    requires res == n * (beta * beta * v - 2.0 * beta * c + w)
    requires v > 0.0 && w > 0.0 && beta * v == c && r * (w * v) == c * c && c * c <= v * w
    ensures 0.0 <= r <= 1.0
    ensures res == (1.0 - r) * total
  {
    var p := w * v;
    Arith.SquareSign(c, c * c);
    Arith.CancelOrder(0.0, r, p);
    Arith.CancelOrder(r, 1.0, p);
    Arith.CancelEqual(beta * c, r * w, v);
    assert beta * beta * v == beta * c;
    assert (1.0 - r) * total == n * (w - r * w);
  }
}
