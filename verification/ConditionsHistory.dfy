/** The change-detected log of headline numbers, against a log that records everything. */
module ConditionsHistory {
  import opened Wrappers

  datatype Payload = Payload(
    snapshotDate: Option<string>, deploymentScore: Option<real>, macroStressScore: Option<int>,
    tapePressureScore: Option<int>, overallCautionScore: Option<int>, overallRead: Option<string>,
    primaryDriver: Option<string>, state: Option<string>, tapeAvailable: Option<bool>, marketSession: Option<string>)

  datatype Headline = Headline(
    snapshotDate: Option<string>, deploymentScore: Option<real>, macroStress: Option<int>, tapePressure: Option<int>,
    overallCaution: Option<int>, overallRead: Option<string>, primaryDriver: Option<string>, state: Option<string>,
    tapeAvailable: bool, marketSession: Option<string>)

  datatype Row = Row(recordedAt: int, headline: Headline)

  /** The part of a headline whose change is logged: the trading day and the tracked fields. */
  datatype Key = Key(snapshotDate: Option<string>, overallCaution: Option<int>, tapePressure: Option<int>,
                     macroStress: Option<int>, overallRead: Option<string>, tapeAvailable: bool)

  datatype LiveTape = LiveTape(recordedAt: int, snapshotDate: Option<string>, tapePressure: int)

  function HeadlineOf(p: Payload): Headline {
    Headline(p.snapshotDate, p.deploymentScore, p.macroStressScore, p.tapePressureScore, p.overallCautionScore,
             p.overallRead, p.primaryDriver, p.state, p.tapeAvailable == Some(true), p.marketSession)
  }

  function KeyOf(h: Headline): Key {
    Key(h.snapshotDate, h.overallCaution, h.tapePressure, h.macroStress, h.overallRead, h.tapeAvailable)
  }

  predicate Changed(previous: Option<Headline>, current: Headline) {
    match previous
    case None => true
    case Some(p) =>
      || p.snapshotDate != current.snapshotDate
      || p.overallCaution != current.overallCaution
      || p.tapePressure != current.tapePressure
      || p.macroStress != current.macroStress
      || p.overallRead != current.overallRead
      || p.tapeAvailable != current.tapeAvailable
  }

  predicate FitsSmallint(v: Option<int>) {
    v.None? || -32768 <= v.value <= 32767
  }

  /** What the table accepts: a date is mandatory and scores are two-byte integers. */
  predicate Storable(h: Headline) {
    h.snapshotDate.Some? && FitsSmallint(h.macroStress) && FitsSmallint(h.tapePressure)
        && FitsSmallint(h.overallCaution)
  }

  predicate Blank(h: Headline) {
    h.overallCaution.None? && h.macroStress.None?
  }

  /** A payload the log can represent at all. */
  predicate Loggable(p: Payload) {
    !Blank(HeadlineOf(p)) && Storable(HeadlineOf(p))
  }

  function Latest(rows: seq<Row>): Option<Headline> {
    if |rows| == 0 then None else Some(rows[|rows| - 1].headline)
  }

  predicate Live(h: Headline) {
    h.tapeAvailable && h.tapePressure.Some?
  }

  function LastLiveRow(rows: seq<Row>): Option<Row> {
    if |rows| == 0 then None
    else if Live(rows[|rows| - 1].headline) then Some(rows[|rows| - 1])
    else LastLiveRow(rows[..|rows| - 1])
  }

  function LastLiveTape(rows: seq<Row>): Option<LiveTape> {
    match LastLiveRow(rows)
    case None => None
    case Some(r) =>
      if r.headline.tapePressure.None? then None
      else Some(LiveTape(r.recordedAt, r.headline.snapshotDate, r.headline.tapePressure.value))
  }

  ghost predicate LiveAt(rows: seq<Row>, i: nat)
    requires i < |rows|
  {
    rows[i].headline.tapeAvailable && rows[i].headline.tapePressure.Some?
  }

  /** This row is live and none after it is, and the reading is its. */
  ghost predicate LastLiveAt(rows: seq<Row>, i: nat, t: LiveTape)
    requires i < |rows|
  {
    && LiveAt(rows, i) && (forall j :: i < j < |rows| ==> !LiveAt(rows, j))
    && t.recordedAt == rows[i].recordedAt && t.snapshotDate == rows[i].headline.snapshotDate
    && rows[i].headline.tapePressure == Some(t.tapePressure)
  }

  /** The reading of the last row with a live tape, if there is one. */
  ghost predicate TellsLastLive(rows: seq<Row>, tape: Option<LiveTape>) {
    match tape
    case None => forall i :: 0 <= i < |rows| ==> !LiveAt(rows, i)
    case Some(t) => exists i :: 0 <= i < |rows| && LastLiveAt(rows, i, t)
  }

  lemma EarlierLive(rows: seq<Row>, tape: Option<LiveTape>)
    requires |rows| > 0 && !LiveAt(rows, |rows| - 1) && TellsLastLive(rows[..|rows| - 1], tape)
    ensures TellsLastLive(rows, tape)
  {
    var before := rows[..|rows| - 1];
    assert forall i :: 0 <= i < |before| ==> before[i] == rows[i] && (LiveAt(before, i) <==> LiveAt(rows, i));
    if tape.Some? {
      var i :| 0 <= i < |before| && LastLiveAt(before, i, tape.value);
      assert LastLiveAt(rows, i, tape.value);
    }
  }

  lemma {:induction false} LastLiveIsTold(rows: seq<Row>)
    ensures TellsLastLive(rows, LastLiveTape(rows))
  {
    if |rows| > 0 {
      var n := |rows| - 1;
      if Live(rows[n].headline) {
        assert LastLiveAt(rows, n, LastLiveTape(rows).value);
      } else {
        hide TellsLastLive;
        LastLiveIsTold(rows[..n]);
        EarlierLive(rows, LastLiveTape(rows));
      }
    }
  }

  /** The table after a payload arrives at `now`; `up` tells whether the database answers. */
  function Recorded(rows: seq<Row>, p: Payload, now: int, up: bool): seq<Row> {
    var current := HeadlineOf(p);
    if Blank(current) || !up || !Changed(Latest(rows), current) || !Storable(current) then rows
    else rows + [Row(now, current)]
  }

  /** A headline carries the payload's own fields. */
  ghost predicate Carries(h: Headline, p: Payload) {
    && h.snapshotDate == p.snapshotDate && h.deploymentScore == p.deploymentScore
    && h.macroStress == p.macroStressScore && h.tapePressure == p.tapePressureScore
    && h.overallCaution == p.overallCautionScore && h.overallRead == p.overallRead
    && h.primaryDriver == p.primaryDriver && h.state == p.state
    && h.tapeAvailable == (p.tapeAvailable == Some(true)) && h.marketSession == p.marketSession
  }

  /** A headline and a payload agree on the trading day and on all that is tracked. */
  ghost predicate ReadsAs(h: Headline, p: Payload) {
    && h.snapshotDate == p.snapshotDate && h.overallCaution == p.overallCautionScore
    && h.tapePressure == p.tapePressureScore && h.macroStress == p.macroStressScore
    && h.overallRead == p.overallRead && h.tapeAvailable == (p.tapeAvailable == Some(true))
  }

  /** A payload that can be stored: a headline score, a date, and scores of two bytes. */
  ghost predicate Acceptable(p: Payload) {
    && (p.overallCautionScore.Some? || p.macroStressScore.Some?) && p.snapshotDate.Some?
    && forall v :: v in [p.overallCautionScore, p.macroStressScore, p.tapePressureScore] ==>
         v.None? || -0x8000 <= v.value < 0x8000
  }

  /** One row more, carrying the payload, exactly when the database answers, the payload can be stored and the last
      row reads otherwise. */
  ghost predicate LoggedOnce(before: seq<Row>, p: Payload, now: int, up: bool, after: seq<Row>) {
    if up && Acceptable(p) && (|before| > 0 ==> !ReadsAs(before[|before| - 1].headline, p)) then
      && |after| == |before| + 1 && after[..|before|] == before
      && after[|before|].recordedAt == now && Carries(after[|before|].headline, p)
    else after == before
  }

  lemma RecordedLogsOnce(rows: seq<Row>, p: Payload, now: int, up: bool)
    ensures LoggedOnce(rows, p, now, up, Recorded(rows, p, now, up))
  {
  }

  /** Two headlines have one key exactly when they agree on the trading day and the five tracked fields. */
  lemma SameKeyIff(a: Headline, b: Headline)
    ensures KeyOf(a) == KeyOf(b)
       <==> && a.snapshotDate == b.snapshotDate && a.overallCaution == b.overallCaution
            && a.tapePressure == b.tapePressure && a.macroStress == b.macroStress
            && a.overallRead == b.overallRead && a.tapeAvailable == b.tapeAvailable
  {
  }

  // ---------------------------------------------------------------- the log as an object

  class HistoryLog {
    var rows: seq<Row>

    ghost predicate Valid()
      reads this
    {
      forall i, j :: 0 <= i < j < |rows| ==> rows[i].recordedAt < rows[j].recordedAt
    }

    constructor ()
      ensures Valid() && rows == []
    {
      rows := [];
    }

    /** The row with the latest recording time. */
    method LatestRow() returns (r: Option<Headline>)
      requires Valid()
      ensures r == Latest(rows)
      ensures r.None? <==> rows == []
      ensures r.Some? ==> exists i :: 0 <= i < |rows| && rows[i].headline == r.value
                                      && forall j :: 0 <= j < |rows| ==> rows[j].recordedAt <= rows[i].recordedAt
    {
      r := if |rows| == 0 then None else Some(rows[|rows| - 1].headline);
      if |rows| > 0 {
        assert forall j :: 0 <= j < |rows| ==> rows[j].recordedAt <= rows[|rows| - 1].recordedAt;
      }
    }

    /** Log the headline if it changed; a failing database is tolerated and nothing is logged. */
    method Record(p: Payload, now: int, up: bool)
      requires Valid() && (|rows| > 0 ==> rows[|rows| - 1].recordedAt < now)
      modifies this
      ensures Valid() && rows == Recorded(old(rows), p, now, up)
      ensures LoggedOnce(old(rows), p, now, up, rows)
    {
      RecordedLogsOnce(rows, p, now, up);
      var current := HeadlineOf(p);
      if current.overallCaution.None? && current.macroStress.None? {
        return;
      }
      if up {
        var previous := LatestRow();
        if Changed(previous, current) && Storable(current) {
          rows := rows + [Row(now, current)];
        }
      }
    }

    method GetLastLiveTape() returns (tape: Option<LiveTape>)
      requires Valid()
      ensures tape == LastLiveTape(rows)
      ensures TellsLastLive(rows, tape)
    {
      LastLiveIsTold(rows);
      hide TellsLastLive;
      var i := |rows| - 1;
      assert rows[..|rows|] == rows;
      while i >= 0 && !Live(rows[i].headline)
        invariant -1 <= i < |rows|
        invariant LastLiveRow(rows) == LastLiveRow(rows[..i + 1])
      {
        assert rows[..i + 1][..i] == rows[..i];
        i := i - 1;
      }
      if i < 0 {
        return None;
      }
      assert rows[..i + 1][i] == rows[i];
      tape := Some(LiveTape(rows[i].recordedAt, rows[i].headline.snapshotDate, rows[i].headline.tapePressure.value));
    }
  }

  // ---------------------------------------------------------------- runs

  datatype Event = Event(payload: Payload, time: int, up: bool)

  ghost predicate Timed(es: seq<Event>) {
    forall i, j :: 0 <= i < j < |es| ==> es[i].time < es[j].time
  }

  ghost predicate AllUp(es: seq<Event>) {
    forall i :: 0 <= i < |es| ==> es[i].up
  }

  function Log(es: seq<Event>): seq<Row> {
    if |es| == 0 then [] else
      var e := es[|es| - 1];
      Recorded(Log(es[..|es| - 1]), e.payload, e.time, e.up)
  }

  /** A log that keeps every payload it can represent. */
  function FullLog(es: seq<Event>): seq<Row> {
    if |es| == 0 then []
    else
      var e := es[|es| - 1];
      FullLog(es[..|es| - 1]) + if Loggable(e.payload) then [Row(e.time, HeadlineOf(e.payload))] else []
  }

  lemma ChangedIffKeysDiffer(previous: Headline, current: Headline)
    ensures Changed(Some(previous), current) <==> KeyOf(previous) != KeyOf(current)
  {
  }

  ghost predicate NeighboursDiffer(rows: seq<Row>) {
    forall i, j :: 0 <= i < |rows| && j == i + 1 < |rows| ==> KeyOf(rows[i].headline) != KeyOf(rows[j].headline)
  }

  /** No two neighbouring rows ever agree, whatever fails in between, as long as calls do not overlap. */
  lemma {:induction false} NoRepeats(es: seq<Event>)
    ensures NeighboursDiffer(Log(es))
  {
    if |es| > 0 {
      NoRepeats(es[..|es| - 1]);
      var before, rows := Log(es[..|es| - 1]), Log(es);
      if |rows| > |before| > 0 {
        ChangedIffKeysDiffer(before[|before| - 1].headline, rows[|before|].headline);
        assert rows[|before| - 1] == before[|before| - 1];
      }
    }
  }

  /** Logging is append-only: the rows logged later than an event carry later times. */
  lemma {:induction false} LogOnlyAppends(es: seq<Event>, k: nat)
    requires Timed(es) && k <= |es|
    ensures var before, after := Log(es[..k]), Log(es);
            && |before| <= |after| && after[..|before|] == before
            && (forall i :: |before| <= i < |after| ==> k > 0 ==> after[i].recordedAt > es[k - 1].time)
  {
    if k == |es| {
      assert es[..k] == es;
    } else {
      var n := |es| - 1;
      assert es[..n][..k] == es[..k];
      LogOnlyAppends(es[..n], k);
      var before, mid, after := Log(es[..k]), Log(es[..n]), Log(es);
      assert after[..|mid|] == mid;
      assert after[..|mid|][..|before|] == after[..|before|];
      forall i | |before| <= i < |after| && k > 0
        ensures after[i].recordedAt > es[k - 1].time
      {
        if i < |mid| {
          assert after[i] == mid[i];
        }
      }
    }
  }

  lemma {:induction false} LogTimesAreEventTimes(es: seq<Event>, i: nat)
    requires i < |Log(es)| && Timed(es)
    ensures |es| > 0 && Log(es)[i].recordedAt <= es[|es| - 1].time
  {
    var n := |es| - 1;
    if i < |Log(es[..n])| {
      LogTimesAreEventTimes(es[..n], i);
      assert es[..n][n - 1].time < es[n].time;
    }
  }

  /** The headline in force at a time: the last row recorded by then. */
  function At(rows: seq<Row>, time: int): Option<Headline> {
    if |rows| == 0 then None
    else if rows[|rows| - 1].recordedAt <= time then Some(rows[|rows| - 1].headline)
    else At(rows[..|rows| - 1], time)
  }

  lemma {:induction false} AtPrefix(rows: seq<Row>, k: nat, time: int)
    requires k <= |rows| && (forall i :: k <= i < |rows| ==> rows[i].recordedAt > time)
    requires k > 0 ==> rows[k - 1].recordedAt <= time
    ensures At(rows, time) == Latest(rows[..k])
  {
    if k < |rows| {
      var n := |rows| - 1;
      AtPrefix(rows[..n], k, time);
      assert rows[..n][..k] == rows[..k];
    } else {
      assert rows[..k] == rows;
    }
  }

  ghost predicate SameKey(a: Option<Headline>, b: Option<Headline>) {
    match (a, b)
    case (None, None) => true
    case (Some(x), Some(y)) => KeyOf(x) == KeyOf(y)
    case _ => false
  }

  lemma {:induction false} LatestAgrees(es: seq<Event>)
    requires AllUp(es)
    ensures SameKey(Latest(Log(es)), Latest(FullLog(es)))
  {
    if |es| > 0 {
      LatestAgrees(es[..|es| - 1]);
    }
  }

  /** One answered write is enough: whatever failed before, the log then agrees with the payload just sent. */
  lemma AnsweredWriteCatchesUp(rows: seq<Row>, p: Payload, now: int)
    requires Loggable(p)
    ensures SameKey(Latest(Recorded(rows, p, now, true)), Some(HeadlineOf(p)))
  {
  }

  /** Read as a step function, the sparse log tells at every moment what the full log tells. */
  lemma SparseLogIsFullLog(es: seq<Event>, k: nat)
    requires Timed(es) && AllUp(es) && k < |es|
    ensures SameKey(At(Log(es), es[k].time), At(FullLog(es), es[k].time))
    ensures Loggable(es[k].payload) ==> SameKey(At(Log(es), es[k].time), Some(HeadlineOf(es[k].payload)))
  {
    hide Recorded, Loggable, SameKey, Log, FullLog, At, Latest;
    var some := es[..k + 1];
    LogOnlyAppends(es, k + 1);
    FullLogOnlyAppends(es, k + 1);
    if |Log(some)| > 0 {
      LogTimesAreEventTimes(some, |Log(some)| - 1);
    }
    if |FullLog(some)| > 0 {
      FullLogTimes(some, |FullLog(some)| - 1);
    }
    AtPrefix(Log(es), |Log(some)|, es[k].time);
    AtPrefix(FullLog(es), |FullLog(some)|, es[k].time);
    LatestAgrees(some);
    if Loggable(es[k].payload) {
      AnsweredWriteCatchesUp(Log(es[..k]), es[k].payload, es[k].time);
      LogLast(es, k);
    }
  }

  lemma LogAtPayload(es: seq<Event>, k: nat)
    requires Timed(es) && k < |es|
    ensures At(Log(es), es[k].time) == Latest(Recorded(Log(es[..k]), es[k].payload, es[k].time, es[k].up))
  {
    hide Recorded, Log, At, Latest;
    var some := es[..k + 1];
    LogOnlyAppends(es, k + 1);
    if |Log(some)| > 0 {
      LogTimesAreEventTimes(some, |Log(some)| - 1);
    }
    AtPrefix(Log(es), |Log(some)|, es[k].time);
    LogLast(es, k);
    assert Log(es)[..|Log(some)|] == Log(some);
  }

  /** Whatever other writes fail, the log tells a payload's headline at its time exactly when its own write is
      answered or the log told it already. */
  lemma HeadlineInForceIff(es: seq<Event>, k: nat)
    requires Timed(es) && k < |es| && Loggable(es[k].payload)
    ensures SameKey(At(Log(es), es[k].time), Some(HeadlineOf(es[k].payload)))
       <==> es[k].up || SameKey(Latest(Log(es[..k])), Some(HeadlineOf(es[k].payload)))
  {
    hide Log, At, Timed;
    LogAtPayload(es, k);
    if es[k].up {
      AnsweredWriteCatchesUp(Log(es[..k]), es[k].payload, es[k].time);
    }
  }

  lemma LogLast(es: seq<Event>, k: nat)
    requires k < |es|
    ensures Log(es[..k + 1]) == Recorded(Log(es[..k]), es[k].payload, es[k].time, es[k].up)
  {
    assert es[..k + 1][..k] == es[..k];
  }

  lemma {:induction false} FullLogOnlyAppends(es: seq<Event>, k: nat)
    requires Timed(es) && k <= |es|
    ensures var before, after := FullLog(es[..k]), FullLog(es);
            && |before| <= |after| && after[..|before|] == before
            && (forall i :: |before| <= i < |after| ==> k > 0 ==> after[i].recordedAt > es[k - 1].time)
  {
    if k == |es| {
      assert es[..k] == es;
    } else {
      var n := |es| - 1;
      assert es[..n][..k] == es[..k];
      FullLogOnlyAppends(es[..n], k);
      var before, mid, after := FullLog(es[..k]), FullLog(es[..n]), FullLog(es);
      assert after[..|mid|] == mid;
      assert after[..|mid|][..|before|] == after[..|before|];
      forall i | |before| <= i < |after| && k > 0
        ensures after[i].recordedAt > es[k - 1].time
      {
        if i < |mid| {
          assert after[i] == mid[i];
        }
      }
    }
  }

  lemma {:induction false} FullLogTimes(es: seq<Event>, i: nat)
    requires i < |FullLog(es)| && Timed(es)
    ensures |es| > 0 && FullLog(es)[i].recordedAt <= es[|es| - 1].time
  {
    var n := |es| - 1;
    if i < |FullLog(es[..n])| {
      FullLogTimes(es[..n], i);
      assert es[..n][n - 1].time < es[n].time;
    }
  }

  // ---------------------------------------------------------------- the last live tape

  ghost predicate SameReading(a: Option<LiveTape>, b: Option<LiveTape>) {
    match (a, b)
    case (None, None) => true
    case (Some(x), Some(y)) => x.snapshotDate == y.snapshotDate && x.tapePressure == y.tapePressure
    case _ => false
  }

  /** Both logs hold the same live reading; the sparse one dates it no later than the full one. */
  lemma {:induction false} LastLiveTapeAgrees(es: seq<Event>)
    requires AllUp(es) && Timed(es)
    ensures Agreeing(Log(es), FullLog(es), if |es| == 0 then 0 else es[|es| - 1].time)
  {
    hide Agreeing, Recorded, Loggable;
    if |es| == 0 {
      NothingAgrees();
    } else {
      var n := |es| - 1;
      LastLiveTapeAgrees(es[..n]);
      LatestAgrees(es[..n]);
      var earlier := if n == 0 then 0 else es[..n][n - 1].time;
      if n > 0 {
        assert es[..n][n - 1].time < es[n].time;
        LaterStillAgrees(Log(es[..n]), FullLog(es[..n]), earlier, es[n].time);
      } else {
        assert es[..n] == [];
        NoRowsAgree(es[n].time);
      }
      LiveStep(Log(es[..n]), FullLog(es[..n]), es[n].payload, es[n].time);
    }
  }

  /** Two logs hold the same live reading, and the first dates it no later than the second. */
  ghost predicate Agreeing(sparse: seq<Row>, full: seq<Row>, now: int) {
    var a, b := LastLiveTape(sparse), LastLiveTape(full);
    SameReading(a, b) && (a.Some? ==> a.value.recordedAt <= b.value.recordedAt <= now)
  }

  lemma NothingAgrees()
    ensures Agreeing([], [], 0)
  {
  }

  lemma NoRowsAgree(now: int)
    ensures Agreeing(Log([]), FullLog([]), now)
  {
  }

  lemma LaterStillAgrees(sparse: seq<Row>, full: seq<Row>, earlier: int, now: int)
    requires Agreeing(sparse, full, earlier) && earlier < now
    ensures Agreeing(sparse, full, now)
  {
  }

  lemma LiveStep(sparse: seq<Row>, full: seq<Row>, p: Payload, now: int)
    requires SameKey(Latest(sparse), Latest(full)) && Agreeing(sparse, full, now)
    ensures Agreeing(Recorded(sparse, p, now, true), full + if Loggable(p) then [Row(now, HeadlineOf(p))] else [], now)
  {
    var r := Row(now, HeadlineOf(p));
    LiveAppend(sparse, r);
    LiveAppend(full, r);
    assert full + [] == full;
  }

  lemma LiveAppend(rows: seq<Row>, r: Row)
    ensures LastLiveRow(rows + [r]) == if Live(r.headline) then Some(r) else LastLiveRow(rows)
  {
    assert (rows + [r])[..|rows|] == rows;
  }

  /** A live payload is what the log holds next exactly when the log can represent it or already holds that reading. */
  lemma LivePayloadHeldIff(rows: seq<Row>, p: Payload, now: int)
    requires Live(HeadlineOf(p))
    ensures var held := LastLiveTape(Recorded(rows, p, now, true));
            var reading := Some(LiveTape(now, p.snapshotDate, p.tapePressureScore.value));
            SameReading(held, reading) <==> Loggable(p) || SameReading(LastLiveTape(rows), reading)
  {
    LiveAppend(rows, Row(now, HeadlineOf(p)));
  }

  /** Macro and tape stress together: the larger of the two, or whichever there is. */
  function CombinedStress(macroStress: Option<int>, tape: Option<int>): Option<int> {
    match (macroStress, tape)
    case (None, _) => tape
    case (_, None) => macroStress
    case (Some(m), Some(t)) => Some(if m >= t then m else t)
  }

  /** An overnight reading that applies can only raise the caution. */
  function WithOvernight(caution: Option<int>, lean: Option<int>): Option<int> {
    match (caution, lean)
    case (_, None) => caution
    case (None, _) => lean
    case (Some(c), Some(n)) => Some(if c >= n then c else n)
  }

  /** The scores of a payload as the application computes them before it calls `record`. */
  ghost predicate Built(p: Payload) {
    exists lean :: p.overallCautionScore == WithOvernight(CombinedStress(p.macroStressScore, p.tapePressureScore), lean)
  }

  lemma TapeBringsCaution(p: Payload)
    requires Built(p) && p.tapePressureScore.Some?
    ensures p.overallCautionScore.Some? && !Blank(HeadlineOf(p))
  {
  }

  /** A log of every payload, blank and unstorable ones too. */
  function Everything(es: seq<Event>): seq<Row> {
    if |es| == 0 then []
    else Everything(es[..|es| - 1]) + [Row(es[|es| - 1].time, HeadlineOf(es[|es| - 1].payload))]
  }

  /** Payloads as the application builds them, live ones storable. */
  ghost predicate FromApplication(es: seq<Event>) {
    forall i :: 0 <= i < |es| ==>
        Built(es[i].payload) && (Live(HeadlineOf(es[i].payload)) ==> Storable(HeadlineOf(es[i].payload)))
  }

  lemma {:induction false} UnloggedAreNotLive(es: seq<Event>)
    requires FromApplication(es)
    ensures LastLiveRow(FullLog(es)) == LastLiveRow(Everything(es))
  {
    hide Built;
    if |es| > 0 {
      var n := |es| - 1;
      var p := es[n].payload;
      UnloggedAreNotLive(es[..n]);
      if Live(HeadlineOf(p)) {
        TapeBringsCaution(p);
      }
      LiveAppend(FullLog(es[..n]), Row(es[n].time, HeadlineOf(p)));
      LiveAppend(Everything(es[..n]), Row(es[n].time, HeadlineOf(p)));
      assert FullLog(es[..n]) + [] == FullLog(es[..n]);
    }
  }

  /** For payloads the application builds, the last live reading in the log is the last live reading of all payloads,
      blank ones included. */
  lemma LastLiveTapeIsOfAllPayloads(es: seq<Event>)
    requires AllUp(es) && Timed(es) && FromApplication(es)
    ensures Agreeing(Log(es), Everything(es), if |es| == 0 then 0 else es[|es| - 1].time)
  {
    LastLiveTapeAgrees(es);
    UnloggedAreNotLive(es);
  }

  /** `record` alone loses a live tape in a payload without headline numbers; the application builds no such payload. */
  lemma BlankLivePayloadIsLost()
    ensures exists es: seq<Event> ::
      && AllUp(es) && Timed(es) && |es| == 2
      && Live(HeadlineOf(es[1].payload)) && es[1].payload.tapePressureScore == Some(70)
      && LastLiveTape(Log(es)) == Some(LiveTape(0, Some("2026-06-08"), 40)) && !Built(es[1].payload)
  {
    var p := Payload(Some("2026-06-08"), None, Some(43), Some(40), Some(43), None, None, None, Some(true), None);
    var q := Payload(Some("2026-06-08"), None, None, Some(70), None, None, None, None, Some(true), None);
    var es := [Event(p, 0, true), Event(q, 1, true)];
    assert es[..1] == [Event(p, 0, true)] && es[..1][..0] == [];
    assert Log(es[..1]) == [Row(0, HeadlineOf(p))];
    assert Log(es) == Log(es[..1]);
  }

  /** A reading's recorded time is the time of the payload itself exactly when that payload was logged, not suppressed
      as unchanged. */
  lemma LiveTimeIsFreshIff(rows: seq<Row>, p: Payload, now: int)
    requires Loggable(p) && Live(HeadlineOf(p))
    requires forall i :: 0 <= i < |rows| ==> rows[i].recordedAt < now
    ensures LastLiveTape(Recorded(rows, p, now, true)).Some?
    ensures LastLiveTape(Recorded(rows, p, now, true)).value.recordedAt == now
       <==> Changed(Latest(rows), HeadlineOf(p))
  {
    LiveAppend(rows, Row(now, HeadlineOf(p)));
  }

  // ---------------------------------------------------------------- overlapping calls

  /** `record` reads the last row and inserts in separate statements: a call looks, and later writes. */
  datatype Move = Look(call: nat) | Write(call: nat)

  /** The table, how many rows each row's call had seen when it looked, and what the calls in progress have seen. */
  datatype Shared = Shared(rows: seq<Row>, saw: seq<nat>, looked: map<nat, nat>)

  function Moved(calls: seq<Payload>, s: Shared, m: Move, now: int): Shared {
    match m
    case Look(i) => s.(looked := s.looked[i := |s.rows|])
    case Write(i) =>
      if i >= |calls| || i !in s.looked || s.looked[i] > |s.rows| then s
      else
        var current := HeadlineOf(calls[i]);
        var rest := s.(looked := s.looked - {i});
        if Blank(current) || !Changed(Latest(s.rows[..s.looked[i]]), current) || !Storable(current) then rest
        else rest.(rows := s.rows + [Row(now, current)], saw := s.saw + [s.looked[i]])
  }

  function Play(calls: seq<Payload>, moves: seq<(Move, int)>): Shared {
    if |moves| == 0 then Shared([], [], map[])
    else
      var (m, now) := moves[|moves| - 1];
      Moved(calls, Play(calls, moves[..|moves| - 1]), m, now)
  }

  /** A row that repeats the one before it was written by a call that had looked before that one was written. */
  ghost predicate OnlyStaleRepeats(s: Shared) {
    && |s.saw| == |s.rows|
    && (forall i :: i in s.looked ==> s.looked[i] <= |s.rows|)
    && (forall j :: 0 <= j < |s.rows| ==> s.saw[j] <= j)
    && (forall j, k :: 0 <= k < |s.rows| && j == k + 1 < |s.rows| && s.saw[j] == j ==>
         KeyOf(s.rows[k].headline) != KeyOf(s.rows[j].headline))
  }

  lemma MoveKeepsRepeats(calls: seq<Payload>, s: Shared, m: Move, now: int)
    requires OnlyStaleRepeats(s)
    ensures OnlyStaleRepeats(Moved(calls, s, m, now))
  {
    hide Blank, Storable, HeadlineOf;
    var r := Moved(calls, s, m, now);
    if |r.rows| > |s.rows| > 0 && r.saw[|s.rows|] == |s.rows| {
      assert s.rows[..|s.rows|] == s.rows;
      ChangedIffKeysDiffer(s.rows[|s.rows| - 1].headline, HeadlineOf(calls[m.call]));
    }
  }

  /** However calls overlap, only a stale look repeats a row. */
  lemma {:induction false} RepeatsNeedStaleLook(calls: seq<Payload>, moves: seq<(Move, int)>)
    ensures OnlyStaleRepeats(Play(calls, moves))
  {
    hide Moved, OnlyStaleRepeats;
    if |moves| == 0 {
      NothingRepeats();
    } else {
      var (m, now) := moves[|moves| - 1];
      RepeatsNeedStaleLook(calls, moves[..|moves| - 1]);
      MoveKeepsRepeats(calls, Play(calls, moves[..|moves| - 1]), m, now);
    }
  }

  lemma NothingRepeats()
    ensures OnlyStaleRepeats(Shared([], [], map[]))
  {
  }

  /** A call that looks and writes without another in between does what `Recorded` says. */
  lemma UndisturbedIsRecorded(calls: seq<Payload>, s: Shared, i: nat, now: int)
    requires i < |calls|
    ensures Moved(calls, Moved(calls, s, Look(i), now), Write(i), now).rows == Recorded(s.rows, calls[i], now, true)
  {
    assert s.rows[..|s.rows|] == s.rows;
  }

  /** Each call looks and writes at most once. */
  ghost predicate Orderly(moves: seq<(Move, int)>, n: nat) {
    && (forall a :: 0 <= a < |moves| ==> moves[a].0.call < n)
    && (forall a, b :: 0 <= a < b < |moves| ==> moves[a].0 != moves[b].0)
  }

  /** Between the look `a` and the write `c` of one call, another call, which has looked at `l`, writes at `b`. */
  ghost predicate CrossesAt(moves: seq<(Move, int)>, a: nat, b: nat, c: nat, l: nat) {
    && a < b < c < |moves| && l < b
    && moves[a].0.Look? && moves[c].0 == Write(moves[a].0.call)
    && moves[l].0.Look? && moves[b].0 == Write(moves[l].0.call)
    && moves[a].0 != moves[l].0
  }

  ghost predicate Crossing(moves: seq<(Move, int)>) {
    exists a, b, c, l :: CrossesAt(moves, a, b, c, l)
  }

  lemma PlayStep(calls: seq<Payload>, moves: seq<(Move, int)>, k: nat)
    requires k < |moves|
    ensures Play(calls, moves[..k + 1]) == Moved(calls, Play(calls, moves[..k]), moves[k].0, moves[k].1)
  {
    assert moves[..k + 1][..k] == moves[..k];
  }

  /** Every call in progress has looked, and has seen the whole table unless it never writes any more. */
  ghost predicate Current(moves: seq<(Move, int)>, k: nat, s: Shared)
    requires k <= |moves|
  {
    && |s.saw| == |s.rows|
    && (forall j :: 0 <= j < |s.saw| ==> s.saw[j] == j)
    && (forall i :: i in s.looked ==> exists a :: 0 <= a < k && moves[a].0 == Look(i))
    && (forall i :: i in s.looked ==> s.looked[i] == |s.rows| || forall c :: k <= c < |moves| ==>
         moves[c].0 != Write(i))
  }

  lemma CurrentStep(calls: seq<Payload>, moves: seq<(Move, int)>, k: nat, s: Shared)
    requires k < |moves| && Current(moves, k, s) && !Crossing(moves)
    ensures Current(moves, k + 1, Moved(calls, s, moves[k].0, moves[k].1))
  {
    hide Blank, Storable, HeadlineOf, Changed, Latest;
    var r := Moved(calls, s, moves[k].0, moves[k].1);
    var call := moves[k].0.call;
    forall i | i in r.looked
      ensures exists a :: 0 <= a < k + 1 && moves[a].0 == Look(i)
      ensures r.looked[i] == |r.rows| || forall c :: k + 1 <= c < |moves| ==> moves[c].0 != Write(i)
    {
      if moves[k].0 == Look(i) {
        assert r.looked[i] == |r.rows|;
      } else {
        var a :| 0 <= a < k && moves[a].0 == Look(i);
        if |r.rows| > |s.rows| {
          var l :| 0 <= l < k && moves[l].0 == Look(call);
          forall c | k + 1 <= c < |moves|
            ensures moves[c].0 != Write(i)
          {
            assert !CrossesAt(moves, a, k, c, l);
          }
        }
      }
    }
  }

  lemma {:induction false} CurrentAlways(calls: seq<Payload>, moves: seq<(Move, int)>, k: nat)
    requires k <= |moves| && !Crossing(moves)
    ensures Current(moves, k, Play(calls, moves[..k]))
  {
    hide Current, Moved, Crossing;
    if k == 0 {
      NothingCurrent(moves);
      NoMoves(calls);
    } else {
      CurrentAlways(calls, moves, k - 1);
      PlayStep(calls, moves, k - 1);
      CurrentStep(calls, moves, k - 1, Play(calls, moves[..k - 1]));
    }
  }

  lemma NothingCurrent(moves: seq<(Move, int)>)
    ensures Current(moves, 0, Shared([], [], map[]))
  {
  }

  lemma UncrossedDiffer(calls: seq<Payload>, moves: seq<(Move, int)>)
    requires !Crossing(moves)
    ensures NeighboursDiffer(Play(calls, moves).rows)
  {
    hide Play, Crossing;
    CurrentAlways(calls, moves, |moves|);
    assert moves[..|moves|] == moves;
    RepeatsNeedStaleLook(calls, moves);
  }

  const BLANK := Payload(None, None, None, None, None, None, None, None, None, None)
  const CALM := Payload(Some("2026-06-08"), None, Some(43), None, Some(43), None, None, None, None, None)

  /** Two calls with one payload, all others blank. */
  function Twins(n: nat, i: nat, j: nat): (calls: seq<Payload>)
    ensures |calls| == n && forall k :: 0 <= k < n ==> calls[k] == if k == i || k == j then CALM else BLANK
  {
    seq(n, k => if k == i || k == j then CALM else BLANK)
  }

  /** The crossing calls both look at an empty table and both write. */
  ghost predicate TwinState(s: Shared, k: nat, i: nat, j: nat, a: nat, b: nat, c: nat, l: nat) {
    && |s.rows| == (if k <= b then 0 else if k <= c then 1 else 2)
    && (forall r :: r in s.rows ==> r.headline == HeadlineOf(CALM))
    && (a < k <= c ==> i in s.looked && s.looked[i] == 0)
    && (l < k <= b ==> j in s.looked && s.looked[j] == 0)
  }

  lemma TwinWrites(s: Shared, calls: seq<Payload>, i: nat, now: int)
    requires i < |calls| && calls[i] == CALM && i in s.looked && s.looked[i] == 0
    ensures Moved(calls, s, Write(i), now)
         == Shared(s.rows + [Row(now, HeadlineOf(CALM))], s.saw + [0], s.looked - {i})
  {
    assert s.rows[..0] == [];
  }

  lemma BlankWrites(s: Shared, calls: seq<Payload>, i: nat, now: int)
    requires i < |calls| && calls[i] == BLANK
    ensures Moved(calls, s, Write(i), now).rows == s.rows
    ensures forall x :: x in s.looked && x != i ==>
              x in Moved(calls, s, Write(i), now).looked && Moved(calls, s, Write(i), now).looked[x] == s.looked[x]
  {
  }

  lemma TwinStep(calls: seq<Payload>, moves: seq<(Move, int)>, s: Shared, k: nat, a: nat, b: nat, c: nat, l: nat)
    requires Orderly(moves, |calls|) && CrossesAt(moves, a, b, c, l) && k < |moves|
    requires calls == Twins(|calls|, moves[a].0.call, moves[l].0.call)
    requires TwinState(s, k, moves[a].0.call, moves[l].0.call, a, b, c, l)
    ensures TwinState(Moved(calls, s, moves[k].0, moves[k].1), k + 1, moves[a].0.call, moves[l].0.call, a, b, c, l)
  {
    hide CALM, BLANK, HeadlineOf;
    var i, j := moves[a].0.call, moves[l].0.call;
    assert i != j;
    match moves[k].0
    case Look(x) =>
      assert x == i ==> k == a;
      assert x == j ==> k == l;
    case Write(x) =>
      assert x == i ==> k == c;
      assert x == j ==> k == b;
      assert k == b ==> x == j;
      assert k == c ==> x == i;
      if x == i || x == j {
        TwinWrites(s, calls, x, moves[k].1);
      } else {
        BlankWrites(s, calls, x, moves[k].1);
      }
  }

  lemma {:induction false} TwinsPlay(calls: seq<Payload>, moves: seq<(Move, int)>, k: nat, a: nat, b: nat, c: nat,
                                     l: nat)
    requires Orderly(moves, |calls|) && CrossesAt(moves, a, b, c, l) && k <= |moves|
    requires calls == Twins(|calls|, moves[a].0.call, moves[l].0.call)
    ensures TwinState(Play(calls, moves[..k]), k, moves[a].0.call, moves[l].0.call, a, b, c, l)
  {
    hide Orderly, TwinState, Moved;
    if k == 0 {
      NoMoves(calls);
      NoTwins(moves[a].0.call, moves[l].0.call, a, b, c, l);
    } else {
      TwinsPlay(calls, moves, k - 1, a, b, c, l);
      PlayStep(calls, moves, k - 1);
      TwinStep(calls, moves, Play(calls, moves[..k - 1]), k - 1, a, b, c, l);
    }
  }

  lemma NoTwins(i: nat, j: nat, a: nat, b: nat, c: nat, l: nat)
    ensures TwinState(Shared([], [], map[]), 0, i, j, a, b, c, l)
  {
  }

  lemma CrossedRepeat(calls: seq<Payload>, moves: seq<(Move, int)>, a: nat, b: nat, c: nat, l: nat)
    requires Orderly(moves, |calls|) && CrossesAt(moves, a, b, c, l)
    requires calls == Twins(|calls|, moves[a].0.call, moves[l].0.call)
    ensures !NeighboursDiffer(Play(calls, moves).rows)
  {
    hide Play, Moved, HeadlineOf, Orderly;
    TwinsPlay(calls, moves, |moves|, a, b, c, l);
    assert moves[..|moves|] == moves;
    var rows := Play(calls, moves).rows;
    assert rows[0] in rows && rows[1] in rows;
  }

  /** Neighbouring rows differ whatever the payloads, exactly when no call writes between another call's look and
      write. */
  lemma OverlapSafeIff(moves: seq<(Move, int)>, n: nat)
    requires Orderly(moves, n)
    ensures (forall calls :: |calls| == n ==> NeighboursDiffer(Play(calls, moves).rows)) <==> !Crossing(moves)
  {
    hide Play, NeighboursDiffer, Orderly;
    if Crossing(moves) {
      var a: nat, b: nat, c: nat, l: nat :| CrossesAt(moves, a, b, c, l);
      var calls := Twins(n, moves[a].0.call, moves[l].0.call);
      CrossedRepeat(calls, moves, a, b, c, l);
    } else {
      forall calls | |calls| == n
        ensures NeighboursDiffer(Play(calls, moves).rows)
      {
        UncrossedDiffer(calls, moves);
      }
    }
  }

  lemma PlayNext(calls: seq<Payload>, moves: seq<(Move, int)>, m: Move, now: int)
    ensures Play(calls, moves + [(m, now)]) == Moved(calls, Play(calls, moves), m, now)
  {
    assert (moves + [(m, now)])[..|moves|] == moves;
  }

  /** Two calls with one payload that both look before either writes log it twice. */
  lemma OverlapRepeats(p: Payload)
    requires Loggable(p)
    ensures var moves := [(Look(0), 0), (Look(1), 1), (Write(0), 2), (Write(1), 3)];
            var rows := Play([p, p], moves).rows;
            Crossing(moves) && |rows| == 2 && KeyOf(rows[0].headline) == KeyOf(rows[1].headline)
  {
    hide Play, Blank, Storable, HeadlineOf;
    var calls := [p, p];
    var start: seq<(Move, int)> := [];
    NoMoves(calls);
    PlayNext(calls, start, Look(0), 0);
    PlayNext(calls, start + [(Look(0), 0)], Look(1), 1);
    PlayNext(calls, start + [(Look(0), 0)] + [(Look(1), 1)], Write(0), 2);
    PlayNext(calls, start + [(Look(0), 0)] + [(Look(1), 1)] + [(Write(0), 2)], Write(1), 3);
    assert start + [(Look(0), 0)] + [(Look(1), 1)] + [(Write(0), 2)] + [(Write(1), 3)]
        == [(Look(0), 0), (Look(1), 1), (Write(0), 2), (Write(1), 3)];
    assert CrossesAt([(Look(0), 0), (Look(1), 1), (Write(0), 2), (Write(1), 3)], 1, 2, 3, 0);
  }

  lemma NoMoves(calls: seq<Payload>)
    ensures Play(calls, []) == Shared([], [], map[])
  {
  }
}
