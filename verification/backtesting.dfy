/** Backtesting: walk-forward and expanding windows, and the error of a model over ten periods of time. */
module Backtesting {
  import opened Arithmetic
  import opened Blocks
  import opened Common

  // ------------------------------------------------------------------ walk-forward validation

  /** One fold, with the targets the model is fitted to and judged on. */
  datatype Walk = Walk(fold: nat, trainStart: nat, trainEnd: nat, testStart: nat, testEnd: nat,
                       train: seq<real>, test: seq<real>)

  function WalkAt(y: seq<real>, trainSize: nat, testSize: nat, step: nat, k: nat): Walk
    requires step >= 1 && k < StepCount(|y|, trainSize + testSize, step)
  {
    StepFits(|y|, trainSize + testSize, step, k);
    var start, middle, end := k * step, k * step + trainSize, k * step + trainSize + testSize;
    Walk(k + 1, start, middle, middle, end, y[start..middle], y[middle..end])
  }

  /** The loop ends, after exactly as many folds as fit. */
  method WalkForwardValidation(y: seq<real>, trainSize: nat, testSize: nat, step: nat) returns (results: seq<Walk>)
    requires step >= 1
    ensures |results| == StepCount(|y|, trainSize + testSize, step)
    ensures forall k :: 0 <= k < |results| ==> results[k] == WalkAt(y, trainSize, testSize, step, k)
  {
    results := [];
    var currentPos, fold := 0, 0;
    StepFits(|y|, trainSize + testSize, step, 0);
    while currentPos + trainSize + testSize <= |y|
      invariant fold == |results| && currentPos == fold * step
      invariant fold <= StepCount(|y|, trainSize + testSize, step)
      invariant fold < StepCount(|y|, trainSize + testSize, step) <==> currentPos + trainSize + testSize <= |y|
      invariant forall k :: 0 <= k < fold ==> results[k] == WalkAt(y, trainSize, testSize, step, k)
      decreases |y| - currentPos
    {
      var trainStart, trainEnd := currentPos, currentPos + trainSize;
      var testStart := trainEnd;
      var testEnd := testStart + testSize;
      MulSuccessor(fold, step);
      fold := fold + 1;
      results := results +
        [Walk(fold, trainStart, trainEnd, testStart, testEnd, y[trainStart..trainEnd], y[testStart..testEnd])];
      currentPos := currentPos + step;
      StepFits(|y|, trainSize + testSize, step, fold);
    }
  }

  /** Every fold is one stretch of the data, and what it is tested on comes right after what it was fitted to. */
  lemma WalkIsOneStretch(y: seq<real>, trainSize: nat, testSize: nat, step: nat, k: nat)
    requires step >= 1 && k < StepCount(|y|, trainSize + testSize, step)
    ensures var w := WalkAt(y, trainSize, testSize, step, k);
            w.testEnd <= |y| && w.train + w.test == y[w.trainStart..w.testEnd] &&
            |w.train| == trainSize && |w.test| == testSize && w.testStart == w.trainEnd
  {
    StepFits(|y|, trainSize + testSize, step, k);
  }

  /** Fold `k` starts `k` steps in, and its rows follow one another from there. */
  lemma WalkRows(y: seq<real>, trainSize: nat, testSize: nat, step: nat, k: nat)
    requires step >= 1 && k < StepCount(|y|, trainSize + testSize, step)
    ensures var w, start := WalkAt(y, trainSize, testSize, step, k), k * step;
            w.fold == k + 1 && 0 <= start && start + trainSize + testSize <= |y| && w.trainStart == start &&
            |w.train| == trainSize && |w.test| == testSize &&
            (forall i :: 0 <= i < trainSize ==> w.train[i] == y[start + i]) &&
            (forall i :: 0 <= i < testSize ==> w.test[i] == y[start + trainSize + i])
  {
    StepFits(|y|, trainSize + testSize, step, k);
  }

  /** Two folds judge the model on separate data if and only if they are far enough apart. */
  lemma TestsApartIff(y: seq<real>, trainSize: nat, testSize: nat, step: nat, k: nat, j: nat)
    requires step >= 1 && k < j < StepCount(|y|, trainSize + testSize, step)
    ensures WalkAt(y, trainSize, testSize, step, k).testEnd <= WalkAt(y, trainSize, testSize, step, j).testStart <==>
              testSize <= (j - k) * step
  {
    assert j * step == k * step + (j - k) * step;
  }

  // ------------------------------------------------------------------ expanding window

  datatype Expansion = Expansion(fold: nat, trainSize: nat, testStart: nat, testEnd: nat,
                                 train: seq<real>, test: seq<real>)

  function ExpansionAt(y: seq<real>, initial: nat, testSize: nat, step: nat, k: nat): Expansion
    requires step >= 1 && k < StepCount(|y|, initial + testSize, step)
  {
    StepFits(|y|, initial + testSize, step, k);
    var pos := initial + k * step;
    Expansion(k + 1, pos, pos, pos + testSize, y[..pos], y[pos..pos + testSize])
  }

  method ExpandingWindowValidation(y: seq<real>, initial: nat, testSize: nat, step: nat)
    returns (results: seq<Expansion>)
    requires step >= 1
    ensures |results| == StepCount(|y|, initial + testSize, step)
    ensures forall k :: 0 <= k < |results| ==> results[k] == ExpansionAt(y, initial, testSize, step, k)
  {
    results := [];
    var currentPos, fold := initial, 0;
    StepFits(|y|, initial + testSize, step, 0);
    while currentPos + testSize <= |y|
      invariant fold == |results| && currentPos == initial + fold * step
      invariant fold <= StepCount(|y|, initial + testSize, step)
      invariant fold < StepCount(|y|, initial + testSize, step) <==> currentPos + testSize <= |y|
      invariant forall k :: 0 <= k < fold ==> results[k] == ExpansionAt(y, initial, testSize, step, k)
      decreases |y| - currentPos
    {
      MulSuccessor(fold, step);
      fold := fold + 1;
      var testStart := currentPos;
      var testEnd := currentPos + testSize;
      results := results + [Expansion(fold, currentPos, testStart, testEnd, y[..currentPos], y[testStart..testEnd])];
      currentPos := currentPos + step;
      StepFits(|y|, initial + testSize, step, fold);
    }
  }

  /** Fold `k` trains on the first rows, `k` steps more than the initial ones, and tests those that follow. */
  lemma ExpansionRows(y: seq<real>, initial: nat, testSize: nat, step: nat, k: nat)
    requires step >= 1 && k < StepCount(|y|, initial + testSize, step)
    ensures var x, size := ExpansionAt(y, initial, testSize, step, k), initial + k * step;
            x.fold == k + 1 && 0 <= size && size + testSize <= |y| && x.trainSize == |x.train| == size &&
            |x.test| == testSize && (forall i :: 0 <= i < size ==> x.train[i] == y[i]) &&
            (forall i :: 0 <= i < testSize ==> x.test[i] == y[size + i])
  {
    StepFits(|y|, initial + testSize, step, k);
  }

  /** No look-ahead: training data and test data are one prefix; and the training sets strictly grow. */
  lemma ExpansionsGrow(y: seq<real>, initial: nat, testSize: nat, step: nat, k: nat, j: nat)
    requires step >= 1 && k < j < StepCount(|y|, initial + testSize, step)
    ensures var a, b := ExpansionAt(y, initial, testSize, step, k), ExpansionAt(y, initial, testSize, step, j);
            a.testEnd <= |y| && a.train + a.test == y[..a.testEnd] && |a.test| == testSize &&
            b.testEnd <= |y| && b.train + b.test == y[..b.testEnd] && |b.test| == testSize &&
            a.train < b.train
  {
    StepFits(|y|, initial + testSize, step, k);
    StepFits(|y|, initial + testSize, step, j);
    MulMonotone(k + 1, j, step);
    MulSuccessor(k, step);
  }

  // ------------------------------------------------------------------ error over time

  /** One prediction: when, what was true and what was predicted. */
  datatype Sample = Sample(time: int, actual: real, predicted: real)

  function AbsoluteError(s: Sample): real {
    if s.actual >= s.predicted then s.actual - s.predicted else s.predicted - s.actual
  }

  function ErrorSum(s: seq<Sample>): real {
    if s == [] then 0.0 else ErrorSum(s[..|s| - 1]) + AbsoluteError(s[|s| - 1])
  }

  /** `np.mean(np.abs(...))`, which is NaN for an empty period. */
  function MeanError(s: seq<Sample>): Option<real> {
    if s == [] then None else Some(ErrorSum(s) / |s| as real)
  }

  /** One sample errs by the distance of prediction and truth. */
  lemma ErrorOfOne(s: Sample)
    ensures s.actual >= s.predicted ==> ErrorSum([s]) == s.actual - s.predicted
    ensures s.actual <= s.predicted ==> ErrorSum([s]) == s.predicted - s.actual
  {
    assert [s][..0] == [] && ErrorSum([s][..0]) == 0.0;
  }

  lemma {:induction false} ErrorSumSign(s: seq<Sample>)
    ensures ErrorSum(s) >= 0.0
    ensures ErrorSum(s) == 0.0 <==> forall x <- s :: x.actual == x.predicted
  {
    if s != [] {
      var n := |s| - 1;
      ErrorSumSign(s[..n]);
      assert s == s[..n] + [s[n]];
    }
  }

  /** A mean error is never negative, and zero exactly when every prediction is exact. */
  lemma MeanErrorSign(s: seq<Sample>)
    ensures MeanError(s).Some? <==> s != []
    ensures s != [] ==> MeanError(s).value >= 0.0
    ensures s != [] ==> (MeanError(s).value == 0.0 <==> forall x <- s :: x.actual == x.predicted)
  {
    ErrorSumSign(s);
    if s != [] {
      var n, mean := |s| as real, MeanError(s).value;
      assert mean * n == ErrorSum(s);
    }
  }

  /** Truth and prediction exchanged. */
  function Swapped(s: seq<Sample>): (r: seq<Sample>)
    ensures |r| == |s|
  {
    seq(|s|, k requires 0 <= k < |s| => Sample(s[k].time, s[k].predicted, s[k].actual))
  }

  /** A mean error does not tell predictions that are too high from predictions that are too low. */
  lemma {:induction false} MeanErrorSymmetric(s: seq<Sample>)
    ensures ErrorSum(Swapped(s)) == ErrorSum(s) && MeanError(Swapped(s)) == MeanError(s)
  {
    if s != [] {
      var n := |s| - 1;
      MeanErrorSymmetric(s[..n]);
      assert Swapped(s)[..n] == Swapped(s[..n]);
    }
  }

  ghost predicate OffBy(s: seq<Sample>, d: real) {
    forall x <- s :: x.predicted == x.actual + d || x.predicted == x.actual - d
  }

  lemma {:induction false} ErrorSumOfEqual(s: seq<Sample>, d: real)
    requires d >= 0.0 && OffBy(s, d)
    ensures ErrorSum(s) == |s| as real * d
  {
    if s != [] {
      var n := |s| - 1;
      ErrorSumOfEqual(s[..n], d);
      assert s[n] in s && AbsoluteError(s[n]) == d;
      assert |s| as real * d == n as real * d + d;
    }
  }

  /** When every prediction is off by `d`, each in whatever direction, so is the mean. */
  lemma MeanErrorOfEqual(s: seq<Sample>, d: real)
    requires s != [] && d >= 0.0 && OffBy(s, d)
    ensures MeanError(s) == Some(d)
  {
    ErrorSumOfEqual(s, d);
    assert |s| as real * d / |s| as real == d;
  }

  ghost predicate TimeSorted(s: seq<Sample>) {
    forall a, b :: 0 <= a < b < |s| ==> s[a].time <= s[b].time
  }

  datatype Period = Period(number: nat, startTime: int, endTime: int, nSamples: nat, mae: Option<real>)

  const PERIODS := 10

  function PeriodSamples(sorted: seq<Sample>, i: nat): seq<Sample>
    requires i < PERIODS
  {
    BlockWithin(|sorted|, PERIODS, i);
    sorted[BlockStart(|sorted|, PERIODS, i)..BlockEnd(|sorted|, PERIODS, i)]
  }

  /** Nine periods of a tenth of the samples, rounded down, and a last one with the rest. */
  lemma PeriodSizes(sorted: seq<Sample>, i: nat)
    requires i < PERIODS
    ensures |PeriodSamples(sorted, i)| == if i < 9 then |sorted| / 10 else |sorted| - 9 * (|sorted| / 10)
  {
    BlockSizes(|sorted|, PERIODS, i);
    BlockWithin(|sorted|, PERIODS, i);
  }

  /** The period loop of `temporal_degradation_analysis`; `timestamps[-1]` is the last one. */
  method PeriodMetrics(sorted: seq<Sample>) returns (periods: seq<Period>)
    requires sorted != []
    ensures |periods| == PERIODS == 10
    ensures forall i :: 0 <= i < PERIODS ==>
              var part := PeriodSamples(sorted, i);
              periods[i].number == i + 1 && periods[i].nSamples == |part| && periods[i].mae == MeanError(part) &&
              (part != [] ==> periods[i].startTime == part[0].time && periods[i].endTime == part[|part| - 1].time)
  {
    periods := [];
    var n := |sorted|;
    var periodSize := n / PERIODS;
    for i := 0 to PERIODS
      invariant |periods| == i
      invariant forall k :: 0 <= k < i ==>
                  var part := PeriodSamples(sorted, k);
                  periods[k].number == k + 1 && periods[k].nSamples == |part| && periods[k].mae == MeanError(part) &&
                  (part != [] ==> periods[k].startTime == part[0].time && periods[k].endTime == part[|part| - 1].time)
    {
      BlockWithin(n, PERIODS, i);
      var startIdx := i * periodSize;
      var endIdx := if i < PERIODS - 1 then startIdx + periodSize else n;
      var part := sorted[startIdx..endIdx];
      assert startIdx < n by { StartWithin(n, i); }
      var endTime := sorted[if endIdx == 0 then n - 1 else endIdx - 1].time;
      periods := periods + [Period(i + 1, sorted[startIdx].time, endTime, endIdx - startIdx, MeanError(part))];
    }
  }

  lemma StartWithin(n: nat, i: nat)
    requires n > 0 && i < PERIODS
    ensures BlockStart(n, PERIODS, i) < n
  {
    FloorBounds(n, PERIODS);
    MulMonotone(i, PERIODS - 1, n / PERIODS);
    if n >= PERIODS {
      FloorGalois(n, PERIODS, 1);
    }
  }

  lemma {:induction false} ErrorConcat(s: seq<Sample>, t: seq<Sample>)
    ensures ErrorSum(s + t) == ErrorSum(s) + ErrorSum(t)
  {
    if t == [] {
      assert s + t == s;
    } else {
      ErrorConcat(s, t[..|t| - 1]);
      assert (s + t)[..|s + t| - 1] == s + t[..|t| - 1];
    }
  }

  lemma ErrorSplit(before: seq<Sample>, x: Sample, after: seq<Sample>)
    ensures ErrorSum((before + [x]) + after) == ErrorSum(before + after) + AbsoluteError(x)
  {
    ErrorConcat(before + [x], after);
    ErrorConcat(before, after);
    assert (before + [x])[..|before|] == before;
  }

  /** The total error does not depend on the order of the samples. */
  lemma {:induction false} ErrorPermuted(s: seq<Sample>, t: seq<Sample>)
    requires multiset(s) == multiset(t)
    ensures ErrorSum(s) == ErrorSum(t) && |s| == |t|
  {
    assert |s| == |multiset(s)| == |multiset(t)| == |t|;
    if s != [] {
      var n := |s| - 1;
      var j := LastElsewhere(s, t);
      ErrorPermuted(s[..n], t[..j] + t[j + 1..]);
      ErrorSplit(t[..j], t[j], t[j + 1..]);
      assert t == (t[..j] + [t[j]]) + t[j + 1..];
    }
  }

  /** A period's mean error, weighted by its size. */
  function PeriodWeight(part: seq<Sample>): real {
    if part == [] then 0.0 else |part| as real * MeanError(part).value
  }

  lemma WeightIsSum(part: seq<Sample>)
    ensures PeriodWeight(part) == ErrorSum(part)
  {
  }

  function WeightedError(sorted: seq<Sample>, m: nat): real
    requires m <= PERIODS
  {
    if m == 0 then 0.0 else WeightedError(sorted, m - 1) + PeriodWeight(PeriodSamples(sorted, m - 1))
  }

  /** Where the first `m` periods end. */
  function Covered(n: nat, m: nat): (end: nat)
    requires m <= PERIODS
    ensures end <= n
  {
    if m == 0 then 0 else BlockWithin(n, PERIODS, m - 1); BlockEnd(n, PERIODS, m - 1)
  }

  lemma NextPeriod(sorted: seq<Sample>, m: nat)
    requires m < PERIODS
    ensures sorted[..Covered(|sorted|, m + 1)] == sorted[..Covered(|sorted|, m)] + PeriodSamples(sorted, m)
  {
    BlockWithin(|sorted|, PERIODS, m);
    if m > 0 {
      BlockWithin(|sorted|, PERIODS, m - 1);
    }
    assert Covered(|sorted|, m) == BlockStart(|sorted|, PERIODS, m);
  }

  lemma {:induction false} WeightedIsSum(sorted: seq<Sample>, m: nat)
    requires m <= PERIODS
    ensures WeightedError(sorted, m) == ErrorSum(sorted[..Covered(|sorted|, m)])
  {
    if m > 0 {
      WeightedIsSum(sorted, m - 1);
      NextPeriod(sorted, m - 1);
      ErrorConcat(sorted[..Covered(|sorted|, m - 1)], PeriodSamples(sorted, m - 1));
      WeightIsSum(PeriodSamples(sorted, m - 1));
    }
  }

  /**
   For any order the sort leaves ties in, the size-weighted errors of the ten periods add
   up to the overall mean error times the number of samples; no period is empty once
   there are ten samples.
  */
  lemma PeriodsRecombine(samples: seq<Sample>, sorted: seq<Sample>)
    requires samples != [] && multiset(sorted) == multiset(samples)
    ensures WeightedError(sorted, PERIODS) == |samples| as real * MeanError(samples).value
    ensures |samples| >= PERIODS <==> forall i :: 0 <= i < PERIODS ==> PeriodSamples(sorted, i) != []
  {
    ErrorPermuted(sorted, samples);
    WeightedIsSum(sorted, PERIODS);
    assert sorted[..|sorted|] == sorted;
    WeightIsSum(samples);
    if |samples| >= PERIODS {
      forall i | 0 <= i < PERIODS ensures PeriodSamples(sorted, i) != [] {
        BlockWithin(|sorted|, PERIODS, i);
      }
    } else {
      assert PeriodSamples(sorted, 0) == [];
    }
  }

  /** The periods cut time into consecutive stretches: nothing in one is later than anything in the next. */
  lemma PeriodsInOrder(sorted: seq<Sample>, i: nat, j: nat, a: Sample, b: Sample)
    requires TimeSorted(sorted) && i < j < PERIODS && a in PeriodSamples(sorted, i) && b in PeriodSamples(sorted, j)
    ensures a.time <= b.time
  {
    BlockWithin(|sorted|, PERIODS, i);
    BlockWithin(|sorted|, PERIODS, j);
    var size := |sorted| / PERIODS;
    MulMonotone(i + 1, j, size);
    MulSuccessor(i, size);
    var p: nat :| p < |PeriodSamples(sorted, i)| && PeriodSamples(sorted, i)[p] == a;
    var q: nat :| q < |PeriodSamples(sorted, j)| && PeriodSamples(sorted, j)[q] == b;
    var x, y := BlockStart(|sorted|, PERIODS, i) + p, BlockStart(|sorted|, PERIODS, j) + q;
    assert sorted[x] == a && sorted[y] == b && x < y;
  }

  /** Growth of the error in percent, zero when there was none to begin with. */
  function DegradationPct(early: real, late: real): real {
    if early > 0.0 then (late - early) / early * 100.0 else 0.0
  }

  /** The percentage takes the early error to the late one. */
  lemma GrowthLeads(early: real, late: real)
    ensures early > 0.0 ==> early * (1.0 + DegradationPct(early, late) / 100.0) == late
    ensures early <= 0.0 ==> DegradationPct(early, late) == 0.0
  {
    if early > 0.0 {
      var q := (late - early) / early;
      assert q * early == late - early;
      assert DegradationPct(early, late) / 100.0 == q;
    }
  }

  lemma GrowthExceeds(early: real, late: real)
    ensures DegradationPct(early, late) > 20.0 <==> early > 0.0 && late > early * 1.2
  {
    if early > 0.0 {
      var q := (late - early) / early;
      assert q * early == late - early;
      if q > 0.2 {
        assert (q - 0.2) * early > 0.0;
      } else {
        assert (0.2 - q) * early >= 0.0;
      }
    }
  }

  /** The mean of three periods' errors, NaN as soon as one of them is. */
  function MeanOfThree(a: Option<real>, b: Option<real>, c: Option<real>): Option<real> {
    if a.Some? && b.Some? && c.Some? then Some((a.value + b.value + c.value) / 3.0) else None
  }

  /** What the percentage and the verdict say about the mean errors of ten periods. */
  ghost predicate Judged(mae: seq<real>, degradationPct: real, requiresRetraining: bool)
    requires |mae| == 10
  {
    var early, late := (mae[0] + mae[1] + mae[2]) / 3.0, (mae[7] + mae[8] + mae[9]) / 3.0;
    early >= 0.0 &&
    (early > 0.0 ==> early * (1.0 + degradationPct / 100.0) == late) && (early == 0.0 ==> degradationPct == 0.0) &&
    (requiresRetraining <==> early > 0.0 && late > early * 1.2)
  }

  lemma Verdict(mae: seq<real>, early: real, late: real)
    requires |mae| == 10 && forall i :: 0 <= i < 10 ==> mae[i] >= 0.0
    requires early == (mae[0] + mae[1] + mae[2]) / 3.0 && late == (mae[7] + mae[8] + mae[9]) / 3.0
    ensures Judged(mae, DegradationPct(early, late), DegradationPct(early, late) > 20.0)
  {
    GrowthLeads(early, late);
    GrowthExceeds(early, late);
  }

  /**
   The percentage leads from the mean error of the first three periods to that of the last
   three. Retraining is called for exactly when these err by more than a fifth more than
   the first, which must err at all; never with fewer than ten samples.
  */
  method TemporalDegradationAnalysis(sorted: seq<Sample>)
    returns (periods: seq<Period>, degradationPct: real, requiresRetraining: bool, ghost mae: seq<real>)
    requires sorted != []
    ensures |periods| == 10
    ensures forall i :: 0 <= i < 10 ==> periods[i].mae == MeanError(PeriodSamples(sorted, i))
    ensures |sorted| >= 10 ==>
              |mae| == 10 && (forall i :: 0 <= i < 10 ==> periods[i].mae == Some(mae[i])) &&
              Judged(mae, degradationPct, requiresRetraining)
    ensures |sorted| < 10 ==> degradationPct == 0.0 && !requiresRetraining
  {
    periods := PeriodMetrics(sorted);
    forall i | 0 <= i < PERIODS
      ensures |sorted| >= PERIODS ==> PeriodSamples(sorted, i) != []
      ensures |sorted| >= PERIODS ==> periods[i].mae.Some? && periods[i].mae.value >= 0.0
    {
      BlockWithin(|sorted|, PERIODS, i);
      MeanErrorSign(PeriodSamples(sorted, i));
    }
    assert |sorted| < PERIODS ==> PeriodSamples(sorted, 0) == [];
    var early := MeanOfThree(periods[0].mae, periods[1].mae, periods[2].mae);
    var late := MeanOfThree(periods[7].mae, periods[8].mae, periods[9].mae);
    // A comparison with NaN is false.
    degradationPct := 0.0;
    mae := [];
    if early.Some? && late.Some? {
      degradationPct := DegradationPct(early.value, late.value);
      mae := seq(10, i requires 0 <= i < 10 => periods[i].mae.value);
      Verdict(mae, early.value, late.value);
    }
    requiresRetraining := degradationPct > 20.0;
  }
}
