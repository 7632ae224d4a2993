/** The fold scheduler of walk-forward validation. Dates are day numbers. */
module WalkForward {

  datatype Fold = Fold(number: int, trainStart: int, trainEnd: int, valStart: int, valEnd: int,
                       testStart: int, testEnd: int)

  datatype Lengths = Lengths(train: int, val: int, test: int, gap: int, step: int) {
    function Total(): int {
      train + gap + val + gap + test
    }
  }

  /** How many folds fit between two dates: one for every whole step the first fold can be moved. */
  function FoldCount(l: Lengths, start: int, end: int): nat
    requires l.step > 0
  {
    var room := end - start - l.Total();
    if room < 0 then 0 else room / l.step + 1
  }

  /** The periods of one fold, laid out from its first day. */
  ghost predicate LaidOut(l: Lengths, first: int, f: Fold) {
    && f.trainStart == first
    && f.trainEnd - f.trainStart + 1 == l.train
    && f.valStart - f.trainEnd - 1 == l.gap
    && f.valEnd - f.valStart + 1 == l.val
    && f.testStart - f.valEnd - 1 == l.gap
    && f.testEnd - f.testStart + 1 == l.test
  }

  class WalkForwardEngine {
    const lengths: Lengths

    constructor (trainDays: int := 180, valDays: int := 60, testDays: int := 60, gapDays: int := 10,
                 stepDays: int := 60)
      ensures lengths == Lengths(trainDays, valDays, testDays, gapDays, stepDays)
    {
      lengths := Lengths(trainDays, valDays, testDays, gapDays, stepDays);
    }

    /** Fold k starts k steps in, is numbered k + 1, and there are exactly `FoldCount` of them. */
    method CreateWindows(start: int, end: int) returns (folds: seq<Fold>)
      requires lengths.step > 0
      ensures |folds| == FoldCount(lengths, start, end)
      ensures forall k :: 0 <= k < |folds| ==>
        folds[k].number == k + 1 && LaidOut(lengths, start + k * lengths.step, folds[k])
    {
      folds := [];
      var foldNumber := 1;
      var totalWindowDays := lengths.train + lengths.gap + lengths.val + lengths.gap + lengths.test;
      var currentDate := start;
      while currentDate + totalWindowDays <= end
        invariant foldNumber == |folds| + 1
        invariant currentDate == start + |folds| * lengths.step
        invariant |folds| > 0 ==> start + (|folds| - 1) * lengths.step + totalWindowDays <= end
        invariant forall k :: 0 <= k < |folds| ==>
          folds[k].number == k + 1 && LaidOut(lengths, start + k * lengths.step, folds[k])
        decreases end - currentDate - totalWindowDays
      {
        var trainStart := currentDate;
        var trainEnd := trainStart + (lengths.train - 1);
        var valStart := trainEnd + (lengths.gap + 1);
        var valEnd := valStart + (lengths.val - 1);
        var testStart := valEnd + (lengths.gap + 1);
        var testEnd := testStart + (lengths.test - 1);
        if testEnd <= end {
          folds := folds + [Fold(foldNumber, trainStart, trainEnd, valStart, valEnd, testStart, testEnd)];
          foldNumber := foldNumber + 1;
        }
        currentDate := currentDate + lengths.step;
      }
      CountIsWholeSteps(lengths, start, end, |folds|);
    }
  }

  /** The count is the number of starts that leave room for a whole fold. */
  lemma CountIsWholeSteps(l: Lengths, start: int, end: int, n: nat)
    requires l.step > 0
    requires n > 0 ==> start + (n - 1) * l.step + l.Total() <= end
    requires start + n * l.step + l.Total() > end
    ensures n == FoldCount(l, start, end)
  {
    FoldScheduledIff(l, start, end, n);
    if n > 0 {
      FoldScheduledIff(l, start, end, n - 1);
    }
  }

  lemma StepsOrder(a: int, b: int, step: int)
    requires a <= b && step > 0
    ensures a * step <= b * step
  {
  }

  /** A start leaves room for a whole fold before `end` exactly when its index is below the count. */
  lemma FoldScheduledIff(l: Lengths, start: int, end: int, k: nat)
    requires l.step > 0
    ensures k < FoldCount(l, start, end) <==> start + k * l.step + l.Total() <= end
  {
    var room := end - start - l.Total();
    if room >= 0 {
      var q := room / l.step;
      assert room == q * l.step + room % l.step;
      if k <= q {
        StepsOrder(k, q, l.step);
      } else {
        StepsOrder(q + 1, k, l.step);
        assert (q + 1) * l.step == q * l.step + l.step;
      }
    } else {
      StepsOrder(0, k, l.step);
    }
  }

  /** A fold that would end in time is left out exactly when its test period ends on the last day. */
  lemma FoldEndingOnLastDayIsDropped(l: Lengths, start: int, end: int, k: nat, f: Fold)
    requires l.step > 0 && LaidOut(l, start + k * l.step, f)
    ensures f.testEnd <= end && k >= FoldCount(l, start, end) <==> f.testEnd == end
  {
    FoldScheduledIff(l, start, end, k);
  }

  /** The periods of a fold never touch, and test periods never overlap, when the step covers a test. */
  lemma TestPeriodsAreDisjoint(l: Lengths, start: int, j: nat, k: nat, f: Fold, g: Fold)
    requires l.step > 0 && j < k
    requires LaidOut(l, start + j * l.step, f) && LaidOut(l, start + k * l.step, g)
    ensures l.step >= l.test ==> f.testEnd < g.testStart
    ensures l.step < l.test && k == j + 1 ==> f.testEnd >= g.testStart
    ensures l.gap >= 0 ==> f.trainEnd < f.valStart && f.valEnd < f.testStart
  {
    StepsOrder(j + 1, k, l.step);
    assert (j + 1) * l.step == j * l.step + l.step;
  }
}
