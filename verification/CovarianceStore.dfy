/** The covariance table: refreshed pair by pair in both directions, and read back as a matrix. */
module CovarianceStorage {
  import opened Wrappers
  import opened Series
  import opened Calendar
  import opened Covariance
  import Arith

  type Symbols = seq<string>
  type AllReturns = map<string, Dated>

  datatype Row = Row(covariance: real, correlation: real, volatility1: real, volatility2: real,
                     observations: nat, lookbackDays: int, calculatedAt: int)

  type Table = map<(string, string), Row>

  /** The row of the opposite direction. */
  function Mirror(r: Row): Row {
    r.(volatility1 := r.volatility2, volatility2 := r.volatility1)
  }

  /** What the refreshes share: the returns, the lookback they cover, the time, and the square root. */
  datatype Refresh = Refresh(series: AllReturns, lookbackDays: int, now: int, sqrt: real -> real)

  predicate Enough(f: Refresh, a: string, b: string) {
    a in f.series && b in f.series && |f.series[a].Keys * f.series[b].Keys| >= MIN_OBSERVATIONS
  }

  function RowOf(f: Refresh, a: string, b: string): Row
    requires Enough(f, a, b)
  {
    var (x, y) := AlignReturns(f.series[a], f.series[b]);
    var (cov, corr) := PairwiseCovariance(x, y, f.sqrt);
    Row(cov, corr, Volatility(x, f.sqrt), Volatility(y, f.sqrt), |x|, f.lookbackDays, f.now)
  }

  /** What a row says of two symbols: on their shared dates, in order, the covariance, the annual deviation of each
      and the correlation that ties the three, zero where either does not move. */
  ghost predicate RowMeasures(f: Refresh, a: string, b: string, dates: seq<int>, row: Row)
    requires a in f.series && b in f.series
  {
    && Ascending(dates) && |dates| >= 60
    && (forall d :: d in dates <==> d in f.series[a] && d in f.series[b])
    && (forall j :: 0 <= j < |dates| ==> dates[j] in dates)
    && var x, y := Pick(f.series[a], dates), Pick(f.series[b], dates);
    && row.covariance == Cov(x, y)
    && row.volatility1 >= 0.0 && row.volatility1 * row.volatility1 == Var(x) * 252.0
    && row.volatility2 >= 0.0 && row.volatility2 * row.volatility2 == Var(y) * 252.0
    && row.correlation * (row.volatility1 * row.volatility2) == row.covariance * 252.0
    && (row.volatility1 * row.volatility2 == 0.0 ==> row.correlation == 0.0)
    && row.observations == |dates| && row.lookbackDays == f.lookbackDays && row.calculatedAt == f.now
  }

  lemma RowOfMeasures(f: Refresh, a: string, b: string) returns (dates: seq<int>)
    requires Enough(f, a, b) && IsSqrt(f.sqrt)
    ensures RowMeasures(f, a, b, dates, RowOf(f, a, b))
  {
    hide Var, Cov, IsSqrt, PairwiseCovariance, Volatility;
    dates := SortDates(f.series[a].Keys * f.series[b].Keys);
    assert forall j :: 0 <= j < |dates| ==> dates[j] in dates;
    var x, y := Pick(f.series[a], dates), Pick(f.series[b], dates);
    PairMeasures(x, y, f.sqrt);
  }

  lemma PairMeasures(x: seq<real>, y: seq<real>, sqrt: real -> real)
    requires |x| == |y| >= 2 && IsSqrt(sqrt)
    ensures var (c, r) := PairwiseCovariance(x, y, sqrt);
            var p, q := Volatility(x, sqrt), Volatility(y, sqrt);
            && c == Cov(x, y) && p >= 0.0 && p * p == Var(x) * 252.0 && q >= 0.0 && q * q == Var(y) * 252.0
            && r * (p * q) == c * 252.0 && (p * q == 0.0 ==> r == 0.0)
  {
    hide Var, Cov;
    VarNonNegative(x);
    VarNonNegative(y);
    CauchySchwarz(x, y);
    var s, t, root := sqrt(Var(x)), sqrt(Var(y)), sqrt(TRADING_DAYS_PER_YEAR);
    AnnualRoot(Var(x), s, root);
    AnnualRoot(Var(y), t, root);
    CorrelationTies(Cov(x, y), s, t, Var(x), Var(y), root, PairwiseCovariance(x, y, sqrt).1);
  }

  lemma CorrelationTies(c: real, s: real, t: real, v: real, w: real, root: real, r: real)
    requires s >= 0.0 && t >= 0.0 && s * s == v && t * t == w && c * c <= v * w && root >= 0.0 && root * root == 252.0
    requires r == if v > 0.0 && w > 0.0 && s > 0.0 && t > 0.0 then c / (s * t) else 0.0
    ensures r * ((s * root) * (t * root)) == c * 252.0
    ensures (s * root) * (t * root) == 0.0 ==> r == 0.0
  {
    var p := s * t;
    assert (s * root) * (t * root) == p * 252.0;
    Arith.SquareSign(s, v);
    Arith.SquareSign(t, w);
    if v > 0.0 && w > 0.0 {
      Arith.ProductSign(s, t);
      Arith.QuotientTimes(c, p);
    } else {
      Arith.SquareSign(c, c * c);
    }
  }

  lemma RowsMirror(f: Refresh, a: string, b: string)
    requires Enough(f, a, b) && IsSqrt(f.sqrt)
    ensures Enough(f, b, a) && RowOf(f, b, a) == Mirror(RowOf(f, a, b))
  {
    hide Var, Cov, Volatility, IsSqrt, PairwiseCovariance;
    var r, s := f.series[a], f.series[b];
    assert r.Keys * s.Keys == s.Keys * r.Keys;
    var (x, y) := AlignReturns(r, s);
    CorrelationRange(x, y, f.sqrt);
  }

  /** Fresh rows for the pairs of a set that have enough common dates. */
  ghost function RowsFor(f: Refresh, pairs: set<(string, string)>): Table {
    map p | p in pairs && Enough(f, p.0, p.1) :: RowOf(f, p.0, p.1)
  }

  ghost function AllPairs(f: Refresh, symbols: Symbols): set<(string, string)> {
    set a, b | a in symbols && b in symbols && Enough(f, a, b) :: (a, b)
  }

  ghost predicate Distinct(symbols: Symbols) {
    forall i, j :: 0 <= i < j < |symbols| ==> symbols[i] != symbols[j]
  }

  ghost predicate Symmetric(t: Table) {
    forall a, b :: (a, b) in t ==> (b, a) in t && t[(b, a)] == Mirror(t[(a, b)])
  }

  /** Pairs of positions the nested loops have passed: the first `i` rows, and row `i` up to column `j`. */
  ghost predicate Passed(x: nat, y: nat, i: nat, j: nat) {
    var lo, hi := if x < y then x else y, if x < y then y else x;
    lo < i || (lo == i && hi < j)
  }

  ghost predicate FromPassed(symbols: Symbols, p: (string, string), i: nat, j: nat) {
    exists x, y :: 0 <= x < |symbols| && 0 <= y < |symbols| && Passed(x, y, i, j)
                   && symbols[x] == p.0 && symbols[y] == p.1
  }

  ghost predicate DoneUpto(f: Refresh, symbols: Symbols, done: set<(string, string)>, i: nat, j: nat) {
    && (forall x, y ::
          0 <= x < |symbols| && 0 <= y < |symbols| && Passed(x, y, i, j) && Enough(f, symbols[x], symbols[y]) ==>
            (symbols[x], symbols[y]) in done)
    && (forall p :: p in done ==> Enough(f, p.0, p.1) && FromPassed(symbols, p, i, j))
  }

  class CovarianceStore {
    var table: Table

    constructor ()
      ensures table == map[] && Symmetric(table)
    {
      table := map[];
    }

    /** One upsert in each direction. */
    method UpsertPair(f: Refresh, a: string, b: string) returns (updated: nat)
      requires Enough(f, a, b) && IsSqrt(f.sqrt)
      modifies this
      ensures Enough(f, b, a) && table == old(table)[(a, b) := RowOf(f, a, b)][(b, a) := RowOf(f, b, a)]
      ensures updated == if a == b then 1 else 2
    {
      hide RowOf, Enough, IsSqrt;
      var r := RowOf(f, a, b);
      RowsMirror(f, a, b);
      table := table[(a, b) := r];
      updated := 1;
      if a != b {
        table := table[(b, a) := Mirror(r)];
        updated := updated + 1;
      }
    }

    /** The inner loop: the pairs of row `i`, from the diagonal on. */
    method UpdateRow(f: Refresh, symbols: Symbols, i: nat, ghost t: Table, ghost before: set<(string, string)>)
      returns (updated: nat, ghost done: set<(string, string)>)
      requires IsSqrt(f.sqrt) && i < |symbols| && DoneUpto(f, symbols, before, i, i)
      requires table == t + RowsFor(f, before)
      modifies this
      ensures DoneUpto(f, symbols, done, i + 1, i + 1) && table == t + RowsFor(f, done)
      ensures Distinct(symbols) ==> |before| + updated == |done|
    {
      hide DoneUpto, RowsFor, RowOf, Distinct, IsSqrt;
      updated, done := 0, before;
      if symbols[i] !in f.series {
        RowSkipped(f, symbols, done, i);
        return;
      }
      for j := i to |symbols|
        invariant DoneUpto(f, symbols, done, i, j) && table == t + RowsFor(f, done)
        invariant Distinct(symbols) ==> |before| + updated == |done|
      {
        if symbols[j] in f.series && |f.series[symbols[i]].Keys * f.series[symbols[j]].Keys| >= MIN_OBSERVATIONS {
          var n := UpsertPair(f, symbols[i], symbols[j]);
          updated := updated + n;
          DoneStep(f, symbols, done, i, j);
          RowsAdd(f, t, done, symbols[i], symbols[j]);
          if Distinct(symbols) {
            DoneCount(f, symbols, done, i, j);
          }
          done := done + {(symbols[i], symbols[j]), (symbols[j], symbols[i])};
        } else {
          DoneSkip(f, symbols, done, i, j);
        }
      }
      RowFinished(f, symbols, done, i);
    }

    /** Afterwards exactly the pairs with enough common dates carry the fresh row of their direction. */
    method UpdateCovarianceMatrix(f: Refresh, symbols: Symbols) returns (pairsUpdated: nat)
      requires IsSqrt(f.sqrt) && forall s :: s in f.series ==> s in symbols
      modifies this
      ensures table == Updated(f, old(table), symbols)
      ensures |symbols| < 2 || |f.series| < 2 ==> table == old(table) && pairsUpdated == 0
      ensures |symbols| >= 2 && |f.series| >= 2 ==>
        && table == old(table) + RowsFor(f, AllPairs(f, symbols))
        && (Distinct(symbols) ==> pairsUpdated == |AllPairs(f, symbols)|)
    {
      if |symbols| < 2 || |f.series| < 2 {
        return 0;
      }
      hide DoneUpto, RowsFor, RowOf, Distinct, AllPairs, IsSqrt;
      ghost var done: set<(string, string)> := {};
      pairsUpdated := 0;
      NothingDone(f, symbols, table);
      for i := 0 to |symbols|
        invariant DoneUpto(f, symbols, done, i, i) && table == old(table) + RowsFor(f, done)
        invariant Distinct(symbols) ==> pairsUpdated == |done|
      {
        var updated;
        updated, done := UpdateRow(f, symbols, i, old(table), done);
        pairsUpdated := pairsUpdated + updated;
      }
      AllDone(f, symbols, done);
    }

    /** The rows the query returns, one dictionary entry each. */
    method ReadFresh(symbols: Symbols, cutoff: int) returns (matrix: Matrix)
      ensures matrix == FreshEntries(table, symbols, cutoff)
    {
      var result := set p | p in table && p.0 in symbols && p.1 in symbols && table[p].calculatedAt >= cutoff;
      var rest := result;
      matrix := map[];
      while rest != {}
        invariant rest <= result && matrix.Keys == result - rest
        invariant forall p :: p in matrix ==> matrix[p] == table[p].covariance
        decreases |rest|
      {
        var p :| p in rest;
        matrix := matrix[p := table[p].covariance];
        rest := rest - {p};
      }
    }

    /** Answers exactly for two or more distinct symbols whose pairs are all fresh, and then with the stored
        covariances. */
    method GetCovarianceMatrix(symbols: Symbols, cutoff: int) returns (m: Option<Matrix>)
      ensures m.Some? <==> |symbols| >= 2 && Distinct(symbols) && AllFresh(table, symbols, cutoff)
      ensures m.Some? ==>
        && (forall a, b :: (a, b) in m.value <==> a in symbols && b in symbols)
        && (forall a, b :: (a, b) in m.value ==> m.value[(a, b)] == table[(a, b)].covariance)
      ensures m == MatrixOf(table, symbols, cutoff)
    {
      MatrixAvailableIff(table, symbols, cutoff);
      hide FreshEntries, AllFresh, Distinct;
      if |symbols| < 2 {
        return None;
      }
      var matrix := ReadFresh(symbols, cutoff);
      if |matrix| == 0 || |matrix| < |symbols| * |symbols| {
        return None;
      }
      m := Some(matrix);
      FreshPairs(table, symbols, cutoff, matrix);
    }

    /** Volatility, weighted average and benefit, refreshing the table when it cannot answer; the result cache is left
        out. */
    method GetPortfolioVolatility(w: Weights, f: Refresh, dayAgo: int, hourAgo: int)
      returns (r: Option<(real, real, real)>)
      requires IsSqrt(f.sqrt) && forall s :: s in f.series ==> s in Names(w)
      modifies this
      ensures |w| < 2 ==> r == None
      ensures MatrixOf(old(table), Names(w), dayAgo).Some? ==>
        table == old(table) && r == Some(Answer(w, MatrixOf(table, Names(w), dayAgo).value, f.sqrt))
      ensures |w| == 0 ==> table == old(table)
      ensures |w| > 0 && MatrixOf(old(table), Names(w), dayAgo).None? ==>
        && table == Updated(f, old(table), Names(w))
        && match MatrixOf(table, Names(w), hourAgo)
           case None => r == None
           case Some(m) => r == Some(Answer(w, m, f.sqrt))
      ensures MatrixOf(old(table), Names(w), dayAgo).None? && LongOnlyPanel(f, w, hourAgo) ==>
        r.Some? && 0.0 <= r.value.0 <= r.value.1 && 0.0 <= r.value.2 <= 1.0
      ensures r.Some? ==>
        AnsweredFrom(table, w, if MatrixOf(old(table), Names(w), dayAgo).Some? then dayAgo else hourAgo, r.value)
    {
      hide Answer, FreshEntries, RowsFor, AllPairs, MatrixOf, LongOnlyPanel, Distinct, AllFresh, AnsweredFrom,
           Measures, IsSqrt;
      if |w| == 0 {
        NoPanel(f, w, hourAgo);
        NoMatrix(table, w, dayAgo);
        return None;
      }
      var symbols := Names(w);
      var matrix := GetCovarianceMatrix(symbols, dayAgo);
      if matrix == None {
        if LongOnlyPanel(f, w, hourAgo) {
          UpdatedAnswerIsSound(f, table, w, hourAgo);
        }
        var _ := UpdateCovarianceMatrix(f, symbols);
        matrix := GetCovarianceMatrix(symbols, hourAgo);
      }
      if matrix == None {
        return None;
      }
      var answer := ComputeAnswer(w, matrix.value, f.sqrt);
      r := Some(answer);
      StoredAnswer(table, w, if MatrixOf(old(table), symbols, dayAgo).Some? then dayAgo else hourAgo, matrix.value,
                   answer);
    }
  }

  /** The table after a refresh; fewer than two symbols or series leave it alone. */
  ghost function Updated(f: Refresh, t: Table, symbols: Symbols): Table {
    if |symbols| < 2 || |f.series| < 2 then t else t + RowsFor(f, AllPairs(f, symbols))
  }

  /** Each pair with 60 or more shared dates is measured anew, and nothing else in the table changes. */
  lemma RefreshWrites(f: Refresh, t: Table, symbols: Symbols, a: string, b: string)
    requires IsSqrt(f.sqrt) && |symbols| >= 2 && |f.series| >= 2
    ensures var after := Updated(f, t, symbols);
            if a in symbols && b in symbols && a in f.series && b in f.series
               && |f.series[a].Keys * f.series[b].Keys| >= 60 then
              (a, b) in after && exists dates :: RowMeasures(f, a, b, dates, after[(a, b)])
            else
              && ((a, b) in after <==> (a, b) in t)
              && ((a, b) in t ==> after[(a, b)] == t[(a, b)])
  {
    hide RowMeasures, RowOf, IsSqrt;
    if a in symbols && b in symbols && Enough(f, a, b) {
      var dates := RowOfMeasures(f, a, b);
      assert (a, b) in AllPairs(f, symbols);
    }
  }

  /** A long-only portfolio of distinct symbols with returns on one set of dates, refreshed late enough to be read
      back. */
  ghost predicate LongOnlyPanel(f: Refresh, w: Weights, cutoff: int) {
    && |w| >= 2 && Distinct(Names(w)) && f.now >= cutoff && IsSqrt(f.sqrt)
    && (forall i :: 0 <= i < |w| ==> w[i].1 >= 0.0)
    && exists dates :: OnePanel(f, Names(w), dates)
  }

  lemma NoPanel(f: Refresh, w: Weights, cutoff: int)
    requires |w| == 0
    ensures !LongOnlyPanel(f, w, cutoff)
  {
  }

  lemma NoMatrix(t: Table, w: Weights, cutoff: int)
    requires |w| < 2
    ensures MatrixOf(t, Names(w), cutoff).None?
  {
  }

  lemma FreshPairs(t: Table, symbols: Symbols, cutoff: int, m: Matrix)
    requires m == FreshEntries(t, symbols, cutoff) && AllFresh(t, symbols, cutoff)
    ensures forall a, b :: (a, b) in m <==> a in symbols && b in symbols
    ensures forall a, b :: (a, b) in m ==> (a, b) in t && m[(a, b)] == t[(a, b)].covariance
  {
  }

  /** The matrix holds the stored covariances of the holdings, none older than the cut-off. */
  ghost predicate Stored(t: Table, w: Weights, cutoff: int, m: Matrix) {
    forall i, j :: 0 <= i < |w| && 0 <= j < |w| ==>
      var p := (w[i].0, w[j].0);
      p in t && t[p].calculatedAt >= cutoff && Entry(m, w[i].0, w[j].0) == t[p].covariance
  }

  ghost predicate AnsweredFrom(t: Table, w: Weights, cutoff: int, r: (real, real, real)) {
    exists m :: Stored(t, w, cutoff, m) && Measures(w, m, r)
  }

  lemma StoredAnswer(t: Table, w: Weights, cutoff: int, m: Matrix, r: (real, real, real))
    requires MatrixOf(t, Names(w), cutoff) == Some(m) && Measures(w, m, r)
    ensures AnsweredFrom(t, w, cutoff, r)
  {
    hide Measures, Distinct, FreshEntries;
    MatrixAvailableIff(t, Names(w), cutoff);
    FreshPairs(t, Names(w), cutoff, m);
    forall i, j | 0 <= i < |w| && 0 <= j < |w|
      ensures var p := (w[i].0, w[j].0);
              p in t && t[p].calculatedAt >= cutoff && Entry(m, w[i].0, w[j].0) == t[p].covariance
    {
      assert Names(w)[i] == w[i].0 && Names(w)[j] == w[j].0;
    }
  }

  method ComputeAnswer(w: Weights, m: Matrix, sqrt: real -> real) returns (r: (real, real, real))
    ensures r == Answer(w, m, sqrt)
    ensures IsSqrt(sqrt) && |w| >= 2 ==> Measures(w, m, r)
  {
    hide PortfolioVolatility, IsSqrt, Measures;
    if IsSqrt(sqrt) && |w| >= 2 {
      AnswerMeasures(w, m, sqrt);
    }
    var portfolioVol := CalculatePortfolioVolatility(w, m, sqrt);
    var weightedAvgVol := 0.0;
    for i := 0 to |w|
      invariant weightedAvgVol == WeightedVolatility(w, m, sqrt, i)
    {
      var vol := sqrt(Entry(m, w[i].0, w[i].0)) * sqrt(TRADING_DAYS_PER_YEAR);
      weightedAvgVol := weightedAvgVol + w[i].1 * vol;
    }
    var divBenefit := 0.0;
    if weightedAvgVol > 0.0 {
      divBenefit := 1.0 - portfolioVol / weightedAvgVol;
    }
    r := (portfolioVol, weightedAvgVol, divBenefit);
  }

  function Answer(w: Weights, m: Matrix, sqrt: real -> real): (real, real, real) {
    (PortfolioVolatility(w, m, sqrt), WeightedVolatility(w, m, sqrt, |w|), Benefit(w, m, sqrt))
  }

  function Names(w: Weights): (s: Symbols)
    ensures |s| == |w| && forall i :: 0 <= i < |w| ==> s[i] == w[i].0
  {
    seq(|w|, i requires 0 <= i < |w| => w[i].0)
  }

  function FreshEntries(t: Table, symbols: Symbols, cutoff: int): Matrix {
    map p | p in t && p.0 in symbols && p.1 in symbols && t[p].calculatedAt >= cutoff :: t[p].covariance
  }

  function MatrixOf(t: Table, symbols: Symbols, cutoff: int): Option<Matrix> {
    var m := FreshEntries(t, symbols, cutoff);
    if |symbols| < 2 || |m| == 0 || |m| < |symbols| * |symbols| then None else Some(m)
  }

  // ---------------------------------------------------------------- the loops

  lemma NothingDone(f: Refresh, symbols: Symbols, t: Table)
    ensures DoneUpto(f, symbols, {}, 0, 0)
    ensures t == t + RowsFor(f, {})
  {
  }

  lemma PassedGrows(symbols: Symbols, p: (string, string), i: nat, j: nat, i': nat, j': nat)
    requires FromPassed(symbols, p, i, j) && (i < i' || (i == i' && j <= j'))
    requires i < i' ==> j <= |symbols| && (j <= i || i + 1 <= i')
    ensures FromPassed(symbols, p, i', j')
  {
    var x, y :| 0 <= x < |symbols| && 0 <= y < |symbols| && Passed(x, y, i, j) && symbols[x] == p.0
        && symbols[y] == p.1;
    assert Passed(x, y, i', j');
  }

  lemma DoneStep(f: Refresh, symbols: Symbols, done: set<(string, string)>, i: nat, j: nat)
    requires i <= j < |symbols| && DoneUpto(f, symbols, done, i, j) && Enough(f, symbols[i], symbols[j])
    ensures DoneUpto(f, symbols, done + {(symbols[i], symbols[j]), (symbols[j], symbols[i])}, i, j + 1)
  {
    hide Enough, FromPassed;
    var a, b := symbols[i], symbols[j];
    NotEnoughEitherWay(f, a, b);
    var more := done + {(a, b), (b, a)};
    NewlyPassed(symbols, i, j);
    forall p | p in more
      ensures Enough(f, p.0, p.1) && FromPassed(symbols, p, i, j + 1)
    {
      if p in done {
        PassedGrows(symbols, p, i, j, i, j + 1);
      }
    }
  }

  lemma NewlyPassed(symbols: Symbols, i: nat, j: nat)
    requires i <= j < |symbols|
    ensures FromPassed(symbols, (symbols[i], symbols[j]), i, j + 1)
    ensures FromPassed(symbols, (symbols[j], symbols[i]), i, j + 1)
  {
    assert Passed(i, j, i, j + 1) && Passed(j, i, i, j + 1);
  }

  lemma NotYetPassed(symbols: Symbols, i: nat, j: nat)
    requires i <= j < |symbols| && Distinct(symbols)
    ensures !FromPassed(symbols, (symbols[i], symbols[j]), i, j)
    ensures !FromPassed(symbols, (symbols[j], symbols[i]), i, j)
  {
    forall x, y | 0 <= x < |symbols| && 0 <= y < |symbols| && Passed(x, y, i, j)
      ensures !(symbols[x] == symbols[i] && symbols[y] == symbols[j])
      ensures !(symbols[x] == symbols[j] && symbols[y] == symbols[i])
    {
      assert symbols[x] == symbols[i] ==> x == i;
      assert symbols[x] == symbols[j] ==> x == j;
      assert symbols[y] == symbols[i] ==> y == i;
      assert symbols[y] == symbols[j] ==> y == j;
    }
  }

  /** With distinct symbols each upsert is a new pair. */
  lemma DoneCount(f: Refresh, symbols: Symbols, done: set<(string, string)>, i: nat, j: nat)
    requires i <= j < |symbols| && DoneUpto(f, symbols, done, i, j) && Distinct(symbols)
    ensures |done + {(symbols[i], symbols[j]), (symbols[j], symbols[i])}|
         == |done| + if symbols[i] == symbols[j] then 1 else 2
  {
    hide Enough, FromPassed, Distinct;
    var p, q := (symbols[i], symbols[j]), (symbols[j], symbols[i]);
    NotYetPassed(symbols, i, j);
    assert p !in done && q !in done;
    assert done + {p, q} == done + {p} + {q};
  }

  lemma DoneSkip(f: Refresh, symbols: Symbols, done: set<(string, string)>, i: nat, j: nat)
    requires i <= j < |symbols| && DoneUpto(f, symbols, done, i, j) && !Enough(f, symbols[i], symbols[j])
    ensures DoneUpto(f, symbols, done, i, j + 1)
  {
    hide Enough, FromPassed;
    NotEnoughEitherWay(f, symbols[i], symbols[j]);
    forall p | p in done
      ensures FromPassed(symbols, p, i, j + 1)
    {
      PassedGrows(symbols, p, i, j, i, j + 1);
    }
  }

  lemma NotEnoughEitherWay(f: Refresh, a: string, b: string)
    ensures Enough(f, a, b) <==> Enough(f, b, a)
  {
    if a in f.series && b in f.series {
      assert f.series[a].Keys * f.series[b].Keys == f.series[b].Keys * f.series[a].Keys;
    }
  }

  lemma RowFinished(f: Refresh, symbols: Symbols, done: set<(string, string)>, i: nat)
    requires i < |symbols| && DoneUpto(f, symbols, done, i, |symbols|)
    ensures DoneUpto(f, symbols, done, i + 1, i + 1)
  {
    hide Enough, FromPassed;
    forall p | p in done
      ensures FromPassed(symbols, p, i + 1, i + 1)
    {
      PassedGrows(symbols, p, i, |symbols|, i + 1, i + 1);
    }
  }

  lemma RowSkipped(f: Refresh, symbols: Symbols, done: set<(string, string)>, i: nat)
    requires i < |symbols| && DoneUpto(f, symbols, done, i, i) && symbols[i] !in f.series
    ensures DoneUpto(f, symbols, done, i + 1, i + 1)
  {
    hide FromPassed;
    forall p | p in done
      ensures FromPassed(symbols, p, i + 1, i + 1)
    {
      PassedGrows(symbols, p, i, i, i + 1, i + 1);
    }
  }

  lemma AllDone(f: Refresh, symbols: Symbols, done: set<(string, string)>)
    requires DoneUpto(f, symbols, done, |symbols|, |symbols|)
    ensures done == AllPairs(f, symbols)
  {
    forall a, b | a in symbols && b in symbols && Enough(f, a, b)
      ensures (a, b) in done
    {
      var x :| 0 <= x < |symbols| && symbols[x] == a;
      var y :| 0 <= y < |symbols| && symbols[y] == b;
      assert Passed(x, y, |symbols|, |symbols|);
    }
    forall p | p in done
      ensures p in AllPairs(f, symbols)
    {
      assert p == (p.0, p.1);
    }
  }

  lemma RowsAdd(f: Refresh, t: Table, done: set<(string, string)>, a: string, b: string)
    requires Enough(f, a, b) && Enough(f, b, a)
    ensures (t + RowsFor(f, done))[(a, b) := RowOf(f, a, b)][(b, a) := RowOf(f, b, a)]
         == t + RowsFor(f, done + {(a, b), (b, a)})
  {
    hide RowOf, Enough;
  }

  // ---------------------------------------------------------------- what the table guarantees

  /** A refresh keeps the table symmetric, swapped deviations included. */
  lemma RefreshKeepsSymmetry(f: Refresh, t: Table, symbols: Symbols)
    requires Symmetric(t) && IsSqrt(f.sqrt)
    ensures Symmetric(t + RowsFor(f, AllPairs(f, symbols)))
  {
    hide RowOf, IsSqrt;
    var r := t + RowsFor(f, AllPairs(f, symbols));
    forall a, b | (a, b) in r
      ensures (b, a) in r && r[(b, a)] == Mirror(r[(a, b)])
    {
      if Enough(f, a, b) {
        RowsMirror(f, a, b);
      }
      NotEnoughEitherWay(f, a, b);
    }
  }

  ghost function Product(s: set<string>, t: set<string>): set<(string, string)> {
    set a, b | a in s && b in t :: (a, b)
  }

  lemma {:induction false} PairCount(s: set<string>, t: set<string>)
    ensures |Product(s, t)| == |s| * |t|
  {
    if s == {} {
      assert Product(s, t) == {};
    } else {
      var x :| x in s;
      var rest := s - {x};
      PairCount(rest, t);
      PairRow(x, t);
      var row := set b | b in t :: (x, b);
      assert Product(s, t) == Product(rest, t) + row;
      assert Product(rest, t) !! row;
      CountStep(|rest|, |t|);
    }
  }

  lemma CountStep(n: nat, k: nat)
    ensures (n + 1) * k == n * k + k
  {
  }

  lemma {:induction false} PairRow(x: string, t: set<string>)
    ensures |set b | b in t :: (x, b)| == |t|
  {
    var row := set b | b in t :: (x, b);
    if t == {} {
      assert row == {};
    } else {
      var y :| y in t;
      PairRow(x, t - {y});
      assert row == (set b | b in t - {y} :: (x, b)) + {(x, y)};
    }
  }

  ghost function SetOf(symbols: Symbols): set<string> {
    set s | s in symbols
  }

  lemma {:induction false} DistinctCount(symbols: Symbols)
    ensures |SetOf(symbols)| <= |symbols|
    ensures |SetOf(symbols)| == |symbols| <==> Distinct(symbols)
  {
    if |symbols| > 0 {
      var n := |symbols| - 1;
      DistinctCount(symbols[..n]);
      assert SetOf(symbols) == SetOf(symbols[..n]) + {symbols[n]};
      if symbols[n] in SetOf(symbols[..n]) {
        var i :| 0 <= i < n && symbols[..n][i] == symbols[n];
        assert symbols[i] == symbols[n];
        assert SetOf(symbols) == SetOf(symbols[..n]);
      } else if Distinct(symbols[..n]) {
        forall i, j | 0 <= i < j < |symbols|
          ensures symbols[i] != symbols[j]
        {
          if j == n {
            assert symbols[..n][i] in SetOf(symbols[..n]);
          } else {
            assert symbols[..n][i] != symbols[..n][j];
          }
        }
      } else {
        var i, j :| 0 <= i < j < n && symbols[..n][i] == symbols[..n][j];
        assert symbols[i] == symbols[j];
      }
    }
  }

  ghost predicate AllFresh(t: Table, symbols: Symbols, cutoff: int) {
    forall a, b :: a in symbols && b in symbols ==> (a, b) in t && t[(a, b)].calculatedAt >= cutoff
  }

  lemma FreshKeysArePairs(t: Table, symbols: Symbols, cutoff: int)
    ensures FreshEntries(t, symbols, cutoff).Keys <= Product(SetOf(symbols), SetOf(symbols))
    ensures FreshEntries(t, symbols, cutoff).Keys == Product(SetOf(symbols), SetOf(symbols))
       <==> AllFresh(t, symbols, cutoff)
  {
    var keys, pairs := FreshEntries(t, symbols, cutoff).Keys, Product(SetOf(symbols), SetOf(symbols));
    forall p | p in keys
      ensures p in pairs
    {
      assert p == (p.0, p.1) && p.0 in SetOf(symbols) && p.1 in SetOf(symbols);
    }
    if keys == pairs {
      forall a, b | a in symbols && b in symbols
        ensures (a, b) in t && t[(a, b)].calculatedAt >= cutoff
      {
        assert a in SetOf(symbols) && b in SetOf(symbols);
        assert (a, b) in pairs;
      }
    }
  }

  /** The table answers exactly when there are two or more symbols, none twice, and every pair is fresh. */
  lemma MatrixAvailableIff(t: Table, symbols: Symbols, cutoff: int)
    ensures MatrixOf(t, symbols, cutoff).Some? <==> |symbols| >= 2 && Distinct(symbols) && AllFresh(t, symbols, cutoff)
  {
    hide Distinct, AllFresh, FreshEntries;
    var s, n := SetOf(symbols), |symbols|;
    var m := FreshEntries(t, symbols, cutoff);
    var pairs := Product(s, s);
    FreshKeysArePairs(t, symbols, cutoff);
    PairCount(s, s);
    DistinctCount(symbols);
    SquareCount(|s|, n);
    assert |m| == |m.Keys|;
    SubsetCount(m.Keys, pairs);
  }

  lemma SubsetCount<T>(a: set<T>, b: set<T>)
    requires a <= b
    ensures |a| <= |b| && (|a| == |b| <==> a == b)
  {
    assert b == a + (b - a);
    assert |b| == |a| + |b - a|;
    if |b - a| == 0 {
      assert b - a == {};
      assert a == b;
    }
  }

  lemma SquareCount(k: nat, n: nat)
    requires k <= n
    ensures k * k <= n * n && (k * k == n * n <==> k == n)
  {
    if k < n {
      assert k * k <= k * n;
      assert k * n < n * n;
    }
  }

  // ---------------------------------------------------------------- one panel

  /** All symbols have returns on the same, sufficiently many dates. */
  ghost predicate OnePanel(f: Refresh, symbols: Symbols, dates: set<int>) {
    && |dates| >= MIN_OBSERVATIONS
    && forall s :: s in symbols ==> s in f.series && f.series[s].Keys == dates
  }

  ghost function SeriesOf(f: Refresh, w: Weights, dates: set<int>): (xs: seq<seq<real>>)
    requires OnePanel(f, Names(w), dates)
    ensures |xs| == |w|
  {
    seq(|w|, i requires 0 <= i < |w| =>
      assert Names(w)[i] in Names(w);
      var sorted := SortDates(dates);
      assert forall j :: 0 <= j < |sorted| ==> sorted[j] in sorted;
      Pick(f.series[w[i].0], sorted))
  }

  lemma PanelPairs(f: Refresh, symbols: Symbols, dates: set<int>, a: string, b: string)
    requires OnePanel(f, symbols, dates) && a in symbols && b in symbols
    ensures Enough(f, a, b) && (a, b) in AllPairs(f, symbols)
  {
    assert f.series[a].Keys * f.series[b].Keys == dates;
  }

  lemma RefreshedRow(f: Refresh, t: Table, symbols: Symbols, dates: set<int>, a: string, b: string)
    requires OnePanel(f, symbols, dates) && a in symbols && b in symbols
    ensures Enough(f, a, b)
    ensures var after := t + RowsFor(f, AllPairs(f, symbols));
            (a, b) in after && after[(a, b)] == RowOf(f, a, b) && after[(a, b)].calculatedAt == f.now
  {
    hide OnePanel, RowOf, Enough, AllPairs;
    PanelPairs(f, symbols, dates, a, b);
    RowTime(f, a, b);
  }

  /** After a refresh from one panel, the matrix read back holds the covariances of that panel. */
  lemma RefreshedMatrixIsPanel(f: Refresh, t: Table, w: Weights, dates: set<int>, cutoff: int)
    requires OnePanel(f, Names(w), dates) && Distinct(Names(w)) && |w| >= 2 && f.now >= cutoff
    ensures var m := MatrixOf(t + RowsFor(f, AllPairs(f, Names(w))), Names(w), cutoff);
            m.Some? && FromPanel(w, m.value, SeriesOf(f, w, dates), |dates|)
  {
    hide OnePanel, Distinct, RowOf, Cov, RowsFor, AllPairs, SeriesOf, Enough;
    var symbols := Names(w);
    var after := t + RowsFor(f, AllPairs(f, symbols));
    forall a, b | a in symbols && b in symbols
      ensures (a, b) in after && after[(a, b)].calculatedAt == f.now
    {
      RefreshedRow(f, t, symbols, dates, a, b);
    }
    assert AllFresh(after, symbols, cutoff);
    MatrixAvailableIff(after, symbols, cutoff);
    PanelIsLarge(f, symbols, dates);
    var m, xs := MatrixOf(after, symbols, cutoff).value, SeriesOf(f, w, dates);
    forall i | 0 <= i < |w|
      ensures |xs[i]| == |dates|
    {
      PanelRow(f, w, dates, i, i);
    }
    forall i, j | 0 <= i < |w| && 0 <= j < |w|
      ensures Entry(m, w[i].0, w[j].0) == Cov(xs[i], xs[j])
    {
      RefreshedEntry(f, t, w, dates, cutoff, i, j);
    }
  }

  lemma RefreshedEntry(f: Refresh, t: Table, w: Weights, dates: set<int>, cutoff: int, i: nat, j: nat)
    requires OnePanel(f, Names(w), dates) && f.now >= cutoff && i < |w| && j < |w|
    ensures |SeriesOf(f, w, dates)[i]| == |SeriesOf(f, w, dates)[j]| > 0
    ensures Entry(FreshEntries(t + RowsFor(f, AllPairs(f, Names(w))), Names(w), cutoff), w[i].0, w[j].0)
         == Cov(SeriesOf(f, w, dates)[i], SeriesOf(f, w, dates)[j])
  {
    hide OnePanel, RowOf, Cov, RowsFor, AllPairs, SeriesOf, Enough;
    var symbols := Names(w);
    PanelRow(f, w, dates, i, j);
    RefreshedRow(f, t, symbols, dates, symbols[i], symbols[j]);
    assert (symbols[i], symbols[j]) in FreshEntries(t + RowsFor(f, AllPairs(f, symbols)), symbols, cutoff);
  }

  lemma PanelIsLarge(f: Refresh, symbols: Symbols, dates: set<int>)
    requires OnePanel(f, symbols, dates)
    ensures |dates| >= MIN_OBSERVATIONS
  {
  }

  lemma RowTime(f: Refresh, a: string, b: string)
    requires Enough(f, a, b)
    ensures RowOf(f, a, b).calculatedAt == f.now
  {
  }

  lemma PanelRow(f: Refresh, w: Weights, dates: set<int>, i: nat, j: nat)
    requires OnePanel(f, Names(w), dates) && i < |w| && j < |w|
    ensures Names(w)[i] in Names(w) && Names(w)[j] in Names(w)
    ensures |SeriesOf(f, w, dates)[i]| == |SeriesOf(f, w, dates)[j]| == |dates| > 0
    ensures Enough(f, w[i].0, w[j].0)
    ensures RowOf(f, w[i].0, w[j].0).covariance == Cov(SeriesOf(f, w, dates)[i], SeriesOf(f, w, dates)[j])
  {
    hide Cov, Var, Volatility;
    assert Names(w)[i] in Names(w) && Names(w)[j] in Names(w);
    assert f.series[w[i].0].Keys * f.series[w[j].0].Keys == dates;
  }

  /** A long-only portfolio answered from a fresh one-panel refresh has a benefit between 0 and 1. */
  lemma RefreshedAnswerIsSound(f: Refresh, t: Table, w: Weights, dates: set<int>, cutoff: int)
    requires OnePanel(f, Names(w), dates) && Distinct(Names(w)) && |w| >= 2 && f.now >= cutoff && IsSqrt(f.sqrt)
    requires forall i :: 0 <= i < |w| ==> w[i].1 >= 0.0
    ensures var m := MatrixOf(t + RowsFor(f, AllPairs(f, Names(w))), Names(w), cutoff);
            && m.Some?
            && QuadraticForm(w, m.value, |w|) >= 0.0
            && 0.0 <= Answer(w, m.value, f.sqrt).0 <= Answer(w, m.value, f.sqrt).1
            && 0.0 <= Answer(w, m.value, f.sqrt).2 <= 1.0
  {
    hide *;
    RefreshedMatrixIsPanel(f, t, w, dates, cutoff);
    var m := MatrixOf(t + RowsFor(f, AllPairs(f, Names(w))), Names(w), cutoff).value;
    PanelAnswerIsSound(w, m, SeriesOf(f, w, dates), |dates|, f.sqrt);
  }

  lemma TwoSeries(f: Refresh, symbols: Symbols, dates: set<int>)
    requires OnePanel(f, symbols, dates) && Distinct(symbols) && |symbols| >= 2
    ensures |f.series| >= 2
  {
    assert symbols[0] in symbols && symbols[1] in symbols;
    SubsetCount({symbols[0], symbols[1]}, f.series.Keys);
  }

  lemma UpdatedAnswerIsSound(f: Refresh, t: Table, w: Weights, cutoff: int)
    requires LongOnlyPanel(f, w, cutoff)
    ensures var m := MatrixOf(Updated(f, t, Names(w)), Names(w), cutoff);
            && m.Some?
            && 0.0 <= Answer(w, m.value, f.sqrt).0 <= Answer(w, m.value, f.sqrt).1
            && 0.0 <= Answer(w, m.value, f.sqrt).2 <= 1.0
  {
    hide OnePanel, Distinct, IsSqrt, MatrixOf, RowsFor, AllPairs, Answer, QuadraticForm;
    var dates :| OnePanel(f, Names(w), dates);
    TwoSeries(f, Names(w), dates);
    RefreshedAnswerIsSound(f, t, w, dates, cutoff);
  }

  lemma PanelAnswerIsSound(w: Weights, m: Matrix, xs: seq<seq<real>>, n: nat, sqrt: real -> real)
    requires FromPanel(w, m, xs, n) && IsSqrt(sqrt) && |w| >= 2
    requires forall i :: 0 <= i < |w| ==> w[i].1 >= 0.0
    ensures QuadraticForm(w, m, |w|) >= 0.0
    ensures 0.0 <= Answer(w, m, sqrt).0 <= Answer(w, m, sqrt).1
    ensures 0.0 <= Answer(w, m, sqrt).2 <= 1.0
  {
    hide FromPanel, IsSqrt, PortfolioVolatility, WeightedVolatility, Benefit, QuadraticForm;
    QuadraticFormIsNonNegative(w, m, xs, n);
    VolatilityBelowAverage(w, m, xs, n, sqrt);
    BenefitInUnitInterval(w, m, xs, n, sqrt);
  }

  lemma QuadraticFormIsNonNegative(w: Weights, m: Matrix, xs: seq<seq<real>>, n: nat)
    requires FromPanel(w, m, xs, n)
    ensures QuadraticForm(w, m, |w|) >= 0.0
  {
    hide QuadraticForm;
    QuadraticFormIsVariance(w, m, xs, n);
  }

  // ---------------------------------------------------------------- a table of many refreshes

  /** One call of the refresh: what it saw and for which symbols. */
  type Call = (Refresh, Symbols)

  /** The table after a history of refreshes, from an empty one. */
  ghost function TableAfter(calls: seq<Call>): Table {
    if |calls| == 0 then map[]
    else Updated(calls[|calls| - 1].0, TableAfter(calls[..|calls| - 1]), calls[|calls| - 1].1)
  }

  ghost predicate Clocked(calls: seq<Call>) {
    forall i, j :: 0 <= i < j < |calls| ==> calls[i].0.now < calls[j].0.now
  }

  ghost predicate ComesFrom(f: Refresh, r: Row, a: string, b: string) {
    Enough(f, a, b) && r == RowOf(f, a, b)
  }

  /** Every row is the row of some refresh, and carries its time. */
  lemma {:induction false} RowOrigin(calls: seq<Call>, a: string, b: string)
    requires (a, b) in TableAfter(calls)
    ensures exists k :: 0 <= k < |calls| && ComesFrom(calls[k].0, TableAfter(calls)[(a, b)], a, b)
                        && TableAfter(calls)[(a, b)].calculatedAt == calls[k].0.now
  {
    hide Enough, RowOf;
    var n := |calls| - 1;
    var f, before := calls[n].0, TableAfter(calls[..n]);
    if |calls[n].1| >= 2 && |f.series| >= 2 && (a, b) in RowsFor(f, AllPairs(f, calls[n].1)) {
      RowTime(f, a, b);
      assert ComesFrom(calls[n].0, TableAfter(calls)[(a, b)], a, b);
    } else {
      RowOrigin(calls[..n], a, b);
      var k :| 0 <= k < n && ComesFrom(calls[..n][k].0, before[(a, b)], a, b)
          && before[(a, b)].calculatedAt == calls[..n][k].0.now;
      assert calls[..n][k] == calls[k];
    }
  }

  ghost predicate OneTime(t: Table, symbols: Symbols, time: int) {
    forall a, b :: a in symbols && b in symbols ==> (a, b) in t && t[(a, b)].calculatedAt == time
  }

  /** Rows with one common time all come from one refresh. */
  lemma OneTimeIsOneRefresh(calls: seq<Call>, symbols: Symbols, time: int)
    requires Clocked(calls) && |symbols| > 0 && OneTime(TableAfter(calls), symbols, time)
    ensures exists k :: 0 <= k < |calls| && calls[k].0.now == time
              && forall a, b :: a in symbols && b in symbols ==> ComesFrom(calls[k].0, TableAfter(calls)[(a, b)], a, b)
  {
    hide ComesFrom, TableAfter;
    var t := TableAfter(calls);
    assert symbols[0] in symbols;
    RowOrigin(calls, symbols[0], symbols[0]);
    var k :| 0 <= k < |calls| && calls[k].0.now == time;
    forall a, b | a in symbols && b in symbols
      ensures ComesFrom(calls[k].0, t[(a, b)], a, b)
    {
      RowOrigin(calls, a, b);
      var j :| 0 <= j < |calls| && ComesFrom(calls[j].0, t[(a, b)], a, b) && calls[j].0.now == time;
      assert j == k;
    }
  }

  lemma OriginEntries(f: Refresh, t: Table, w: Weights, dates: set<int>, cutoff: int)
    requires MatrixOf(t, Names(w), cutoff).Some? && OnePanel(f, Names(w), dates)
    requires forall a, b :: a in Names(w) && b in Names(w) ==> (a, b) in t && ComesFrom(f, t[(a, b)], a, b)
    ensures FromPanel(w, MatrixOf(t, Names(w), cutoff).value, SeriesOf(f, w, dates), |dates|)
  {
    hide OnePanel, RowOf, Enough, Cov, SeriesOf, Distinct;
    MatrixAvailableIff(t, Names(w), cutoff);
    PanelIsLarge(f, Names(w), dates);
    var m, xs := MatrixOf(t, Names(w), cutoff).value, SeriesOf(f, w, dates);
    forall i | 0 <= i < |w|
      ensures |xs[i]| == |dates|
    {
      PanelRow(f, w, dates, i, i);
    }
    forall i, j | 0 <= i < |w| && 0 <= j < |w|
      ensures Entry(m, w[i].0, w[j].0) == Cov(xs[i], xs[j])
    {
      PanelRow(f, w, dates, i, j);
      assert ComesFrom(f, t[(Names(w)[i], Names(w)[j])], w[i].0, w[j].0);
      assert (w[i].0, w[j].0) in m;
    }
  }

  /** A stored matrix whose rows share one time is sound if that refresh saw one panel, however old it is and whatever
      refreshes there were. */
  lemma {:induction false} OneTimeAnswerIsSound(calls: seq<Call>, w: Weights, time: int, cutoff: int,
                                                sqrt: real -> real)
    requires Clocked(calls) && OneTime(TableAfter(calls), Names(w), time) && IsSqrt(sqrt)
    requires MatrixOf(TableAfter(calls), Names(w), cutoff).Some? && forall i :: 0 <= i < |w| ==> w[i].1 >= 0.0
    requires forall k :: 0 <= k < |calls| && calls[k].0.now == time ==>
              exists dates :: OnePanel(calls[k].0, Names(w), dates)
    ensures var m := MatrixOf(TableAfter(calls), Names(w), cutoff).value;
            && QuadraticForm(w, m, |w|) >= 0.0
            && 0.0 <= Answer(w, m, sqrt).0 <= Answer(w, m, sqrt).1 && 0.0 <= Answer(w, m, sqrt).2 <= 1.0
  {
    var t := TableAfter(calls);
    MatrixAvailableIff(t, Names(w), cutoff);
    OneTimeIsOneRefresh(calls, Names(w), time);
    hide OnePanel, ComesFrom, MatrixOf, TableAfter, Answer, QuadraticForm, IsSqrt, Distinct, AllFresh;
    var k :| 0 <= k < |calls| && calls[k].0.now == time
             && forall a, b :: a in Names(w) && b in Names(w) ==> ComesFrom(calls[k].0, t[(a, b)], a, b);
    var f := calls[k].0;
    var dates :| OnePanel(f, Names(w), dates);
    OriginEntries(f, t, w, dates, cutoff);
    PanelAnswerIsSound(w, MatrixOf(t, Names(w), cutoff).value, SeriesOf(f, w, dates), |dates|, sqrt);
  }
}
