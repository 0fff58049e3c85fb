/** The sensor health monitor and the prediction path of the robust inference engine. */
module RobustInference {
  import opened Common
  import opened RealSums
  import opened ChannelWeights

  // ------------------------------------------------------------ health monitor

  /** Sum over time of the squared differences of one sensor. */
  function SquaredError(x: seq<seq<real>>, y: seq<seq<real>>, n: nat, j: nat): real
    requires |x| == |y| && Rectangular(x, n) && Rectangular(y, n) && j < n
  {
    if x == [] then 0.0 else
    var t := |x| - 1;
    SquaredError(x[..t], y[..t], n, j) + Times(x[t][j] - y[t][j], x[t][j] - y[t][j])
  }

  /** Mean squared reconstruction errors of the first `k` sensors. */
  function MeanErrors(x: seq<seq<real>>, y: seq<seq<real>>, n: nat, k: nat): (r: seq<real>)
    requires |x| == |y| > 0 && Rectangular(x, n) && Rectangular(y, n) && k <= n
    ensures |r| == k
  {
    if k == 0 then [] else MeanErrors(x, y, n, k - 1) + [SquaredError(x, y, n, k - 1) / |x| as real]
  }

  lemma {:induction false} MeanErrorsAt(x: seq<seq<real>>, y: seq<seq<real>>, n: nat, k: nat, j: nat)
    requires |x| == |y| > 0 && Rectangular(x, n) && Rectangular(y, n) && j < k <= n
    ensures MeanErrors(x, y, n, k)[j] == SquaredError(x, y, n, j) / |x| as real
  {
    if j < k - 1 { MeanErrorsAt(x, y, n, k - 1, j); }
  }

  ghost predicate Reconstructed(x: seq<seq<real>>, y: seq<seq<real>>, n: nat, j: nat)
    requires |x| == |y| && Rectangular(x, n) && Rectangular(y, n) && j < n
  {
    forall t :: 0 <= t < |x| ==> x[t][j] == y[t][j]
  }

  lemma {:induction false} NoErrorIffReconstructed(x: seq<seq<real>>, y: seq<seq<real>>, n: nat, j: nat)
    requires |x| == |y| && Rectangular(x, n) && Rectangular(y, n) && j < n
    ensures SquaredError(x, y, n, j) >= 0.0
    ensures SquaredError(x, y, n, j) == 0.0 <==> Reconstructed(x, y, n, j)
  {
    if x != [] {
      var t := |x| - 1;
      NoErrorIffReconstructed(x[..t], y[..t], n, j);
      ProductSign(x[t][j] - y[t][j], x[t][j] - y[t][j]);
      if Reconstructed(x[..t], y[..t], n, j) && x[t][j] == y[t][j] {
        forall s | 0 <= s < |x| ensures x[s][j] == y[s][j] {
          if s < t { assert x[..t][s][j] == y[..t][s][j]; }
        }
      }
      if Reconstructed(x, y, n, j) {
        forall s | 0 <= s < t ensures x[..t][s][j] == y[..t][s][j] {
          assert x[s][j] == y[s][j];
        }
      }
    }
  }

  /** One row contributes the square of its difference. */
  lemma ErrorOfOneRow(x: seq<seq<real>>, y: seq<seq<real>>, n: nat, j: nat)
    requires |x| == |y| == 1 && Rectangular(x, n) && Rectangular(y, n) && j < n
    ensures SquaredError(x, y, n, j) == (x[0][j] - y[0][j]) * (x[0][j] - y[0][j])
  {
    assert x[..0] == [] && y[..0] == [];
    assert SquaredError(x[..0], y[..0], n, j) == 0.0;
  }

  /** The errors of two windows, one after the other, add up. */
  lemma {:induction false} ErrorsAddUp(x: seq<seq<real>>, y: seq<seq<real>>, x': seq<seq<real>>, y': seq<seq<real>>,
                                       n: nat, j: nat)
    requires |x| == |y| && Rectangular(x, n) && Rectangular(y, n) && j < n
    requires |x'| == |y'| && Rectangular(x', n) && Rectangular(y', n)
    ensures SquaredError(x + x', y + y', n, j) == SquaredError(x, y, n, j) + SquaredError(x', y', n, j)
  {
    if x' == [] {
      assert x + x' == x && y + y' == y;
    } else {
      var t := |x'| - 1;
      ErrorsAddUp(x, y, x'[..t], y'[..t], n, j);
      assert (x + x')[..|x + x'| - 1] == x + x'[..t] && (y + y')[..|y + y'| - 1] == y + y'[..t];
    }
  }

  /** A reconstruction that is off by `d` throughout has mean squared error d * d, however long the window. */
  lemma {:induction false} ConstantDeviation(x: seq<seq<real>>, y: seq<seq<real>>, n: nat, j: nat, d: real)
    requires |x| == |y| && Rectangular(x, n) && Rectangular(y, n) && j < n
    requires forall t :: 0 <= t < |x| ==> x[t][j] - y[t][j] == d
    ensures SquaredError(x, y, n, j) == Times(|x| as real, Times(d, d))
  {
    if x != [] {
      var t := |x| - 1;
      ConstantDeviation(x[..t], y[..t], n, j, d);
      TimesAdds(t as real, 1.0, |x| as real, Times(d, d));
    }
  }

  /** Clipped error relative to its threshold. */
  function Normalised(error: real, threshold: real): real
    requires threshold > 0.0
  {
    Clip(error / threshold, 0.0, 1.0)
  }

  ghost predicate Positive(s: seq<real>) {
    forall k :: 0 <= k < |s| ==> s[k] > 0.0
  }

  function HealthScores(errors: seq<real>, thresholds: seq<real>): (r: seq<real>)
    requires |errors| == |thresholds| && Positive(thresholds)
    ensures |r| == |errors|
    ensures forall k :: 0 <= k < |r| ==> r[k] == 1.0 - Normalised(errors[k], thresholds[k])
  {
    if errors == [] then [] else
    var n := |errors| - 1;
    HealthScores(errors[..n], thresholds[..n]) + [1.0 - Normalised(errors[n], thresholds[n])]
  }

  /** Health is 1 without error, 0 from the threshold on, and in between strictly decreases with the error. */
  lemma HealthMeaning(error: real, other: real, threshold: real)
    requires threshold > 0.0
    ensures 0.0 <= Normalised(error, threshold) <= 1.0
    ensures Normalised(error, threshold) == 0.0 <==> error <= 0.0
    ensures Normalised(error, threshold) == 1.0 <==> error >= threshold
    ensures error <= other ==> Normalised(error, threshold) <= Normalised(other, threshold)
    ensures 0.0 <= error < other <= threshold ==> Normalised(error, threshold) < Normalised(other, threshold)
  {
    QuotientOrder(error, 0.0, threshold);
    QuotientOrder(error, threshold, threshold);
    QuotientOrder(error, other, threshold);
    QuotientOrder(other, threshold, threshold);
    assert 0.0 / threshold == 0.0 && threshold / threshold == 1.0;
  }

  lemma QuotientOrder(a: real, b: real, d: real)
    requires d > 0.0
    ensures a <= b <==> a / d <= b / d
    ensures a < b <==> a / d < b / d
    ensures a == b <==> a / d == b / d
  {
    assert b / d - a / d == (b - a) / d;
  }

  datatype ScoreError = NotCalibrated | WrongShape | OutOfRange

  datatype ScoreResult = Scores(scores: seq<real>) | Rejected(error: ScoreError)

  const SMALLEST_THRESHOLD := 0.0000000001

  class SensorHealthMonitor {
    const nSensors: nat
    var thresholds: Option<seq<real>>

    constructor (nSensors: nat)
      requires nSensors >= 1
      ensures Valid() && this.nSensors == nSensors && thresholds == None
    {
      this.nSensors, thresholds := nSensors, None;
    }

    ghost predicate Valid()
      reads this
    {
      thresholds.Some? ==> |thresholds.value| == nSensors && Positive(thresholds.value)
    }

    /** The end of `fit`: percentiles of the training errors become thresholds, never zero. */
    method Calibrate(percentiles: seq<real>)
      requires |percentiles| == nSensors
      modifies this
      ensures Valid() && thresholds.Some?
      ensures forall k :: 0 <= k < nSensors ==>
                thresholds.value[k] == if percentiles[k] < 0.0000000001 then 0.0000000001 else percentiles[k]
    {
      var floors: seq<real> := [];
      for k := 0 to nSensors
        invariant |floors| == k
        invariant forall i :: 0 <= i < k ==>
                    floors[i] == (if percentiles[i] < SMALLEST_THRESHOLD then SMALLEST_THRESHOLD else percentiles[i])
      {
        floors := floors + [if percentiles[k] < SMALLEST_THRESHOLD then SMALLEST_THRESHOLD else percentiles[k]];
      }
      thresholds := Some(floors);
    }

    /** `compute_health_scores` for readings `x` that the autoencoder reconstructs as `y`. */
    function ComputeHealthScores(x: seq<seq<real>>, y: seq<seq<real>>): (r: ScoreResult)
      requires Valid() && |x| == |y| > 0 && Rectangular(y, nSensors)
      reads this
      ensures r == Rejected(NotCalibrated) <==> thresholds.None?
      ensures r == Rejected(WrongShape) <==> thresholds.Some? && !Rectangular(x, nSensors)
      ensures r.Scores? ==> |r.scores| == nSensors && forall k :: 0 <= k < nSensors ==> 0.0 <= r.scores[k] <= 1.0
    {
      if thresholds.None? then Rejected(NotCalibrated)
      else if !Shaped(x, nSensors) then Rejected(WrongShape)
      else Scores(HealthScores(MeanErrors(x, y, nSensors, nSensors), thresholds.value))
    }
  }

  predicate Shaped(rows: seq<seq<real>>, n: nat)
    ensures Shaped(rows, n) <==> Rectangular(rows, n)
  {
    forall t :: 0 <= t < |rows| ==> |rows[t]| == n
  }

  // ----------------------------------------------------------------- prediction

  /** One score in the unit interval for each of `n` sensors. */
  ghost predicate UnitScores(scores: seq<real>, n: nat) {
    |scores| == n && forall k :: 0 <= k < n ==> 0.0 <= scores[k] <= 1.0
  }

  lemma OnesInUnit(n: nat)
    ensures UnitScores(Constant(n, 1.0), n) && forall k :: 0 <= k < n ==> Constant(n, 1.0)[k] == 1.0
  {
    forall k | 0 <= k < n ensures Constant(n, 1.0)[k] == 1.0 {
      ConstantAt(n, 1.0, k);
    }
  }

  /** A monitor is attached and did not raise. */
  predicate Usable(monitored: Option<ScoreResult>) {
    monitored.Some? && monitored.value.Scores?
  }

  /** `_resolve_health_scores`: the argument, else the monitor's answer unless it raised, else ones. */
  function ResolveHealthScores(n: nat, given: Option<seq<real>>, monitored: Option<ScoreResult>): (r: ScoreResult)
    ensures r.Rejected? <==> given.Some? && !UnitScores(given.value, n)
    ensures r == Rejected(WrongShape) <==> given.Some? && |given.value| != n
    ensures given.Some? && r.Scores? ==> r.scores == given.value
    ensures given.None? && Usable(monitored) ==> r == monitored.value
    ensures given.None? && !Usable(monitored) ==>
              r.Scores? && |r.scores| == n && forall k :: 0 <= k < n ==> r.scores[k] == 1.0
    ensures r.Scores? && (Usable(monitored) ==> |monitored.value.scores| == n) ==> |r.scores| == n
    ensures r.Scores? && (Usable(monitored) ==> UnitScores(monitored.value.scores, n)) ==> UnitScores(r.scores, n)
  {
    if given.Some? then
      if |given.value| != n then Rejected(WrongShape)
      else if exists k :: 0 <= k < n && !(0.0 <= given.value[k] <= 1.0) then Rejected(OutOfRange)
      else Scores(given.value)
    else if Usable(monitored) then monitored.value
    else OnesInUnit(n); Scores(Constant(n, 1.0))
  }

  /** A sensor is fully healthy exactly when the autoencoder reconstructs it without error over the whole window. */
  lemma FullHealthIffReconstructed(monitor: SensorHealthMonitor, x: seq<seq<real>>, y: seq<seq<real>>, k: nat)
    requires monitor.Valid() && monitor.thresholds.Some? && k < monitor.nSensors
    requires |x| == |y| > 0 && Rectangular(x, monitor.nSensors) && Rectangular(y, monitor.nSensors)
    ensures var r := monitor.ComputeHealthScores(x, y);
            r.Scores? && (r.scores[k] == 1.0 <==> Reconstructed(x, y, monitor.nSensors, k))
  {
    var n := monitor.nSensors;
    var error := MeanErrors(x, y, n, n)[k];
    MeanErrorsAt(x, y, n, n, k);
    NoErrorIffReconstructed(x, y, n, k);
    QuotientOrder(0.0, SquaredError(x, y, n, k), |x| as real);
    HealthMeaning(error, error, monitor.thresholds.value[k]);
  }

  lemma ScoreOfError(error: real, threshold: real)
    requires threshold > 0.0 && error >= 0.0
    ensures 1.0 - Normalised(error, threshold) == if error <= threshold then 1.0 - error / threshold else 0.0
  {
    QuotientOrder(error, threshold, threshold);
    QuotientOrder(0.0, error, threshold);
    assert threshold / threshold == 1.0 && 0.0 / threshold == 0.0;
  }

  lemma ScoreAt(monitor: SensorHealthMonitor, x: seq<seq<real>>, y: seq<seq<real>>, k: nat)
    returns (error: real, score: real)
    requires monitor.Valid() && monitor.thresholds.Some? && k < monitor.nSensors
    requires |x| == |y| > 0 && Rectangular(x, monitor.nSensors) && Rectangular(y, monitor.nSensors)
    ensures error == SquaredError(x, y, monitor.nSensors, k) / |x| as real && error >= 0.0
    ensures monitor.ComputeHealthScores(x, y).Scores? && monitor.ComputeHealthScores(x, y).scores[k] == score
    ensures score == 1.0 - Normalised(error, monitor.thresholds.value[k])
  {
    var n := monitor.nSensors;
    MeanErrorsAt(x, y, n, n, k);
    NoErrorIffReconstructed(x, y, n, k);
    QuotientOrder(0.0, SquaredError(x, y, n, k), |x| as real);
    error := SquaredError(x, y, n, k) / |x| as real;
    score := monitor.ComputeHealthScores(x, y).scores[k];
  }

  /** A score falls from one by the share of its threshold that the mean squared error takes up, down to zero. */
  lemma HealthIsExact(monitor: SensorHealthMonitor, x: seq<seq<real>>, y: seq<seq<real>>, k: nat)
    requires monitor.Valid() && monitor.thresholds.Some? && k < monitor.nSensors
    requires |x| == |y| > 0 && Rectangular(x, monitor.nSensors) && Rectangular(y, monitor.nSensors)
    ensures var r, threshold := monitor.ComputeHealthScores(x, y), monitor.thresholds.value[k];
            var error := SquaredError(x, y, monitor.nSensors, k) / |x| as real;
            r.Scores? && r.scores[k] == if error <= threshold then 1.0 - error / threshold else 0.0
  {
    var error, score := ScoreAt(monitor, x, y, k);
    ScoreOfError(error, monitor.thresholds.value[k]);
  }

  /** A reconstruction that is off by `d` throughout leaves a score of 1 - d * d / threshold, or none. */
  lemma HealthOfConstantDeviation(monitor: SensorHealthMonitor, x: seq<seq<real>>, y: seq<seq<real>>, k: nat, d: real)
    requires monitor.Valid() && monitor.thresholds.Some? && k < monitor.nSensors
    requires |x| == |y| > 0 && Rectangular(x, monitor.nSensors) && Rectangular(y, monitor.nSensors)
    requires forall t :: 0 <= t < |x| ==> x[t][k] - y[t][k] == d
    ensures var r, threshold := monitor.ComputeHealthScores(x, y), monitor.thresholds.value[k];
            r.Scores? && r.scores[k] == if d * d <= threshold then 1.0 - d * d / threshold else 0.0
  {
    ConstantDeviation(x, y, monitor.nSensors, k, d);
    MeanOfEqual(|x| as real, d * d);
    HealthIsExact(monitor, x, y, k);
  }

  lemma MeanOfEqual(n: real, x: real)
    requires n > 0.0
    ensures Times(n, x) / n == x
  {
  }

  /** Indices of the scores below the threshold, in ascending order. */
  function Degraded(scores: seq<real>, threshold: real): (r: seq<nat>)
    ensures forall i, j :: 0 <= i < j < |r| ==> r[i] < r[j]
    ensures forall k <- r :: k < |scores| && scores[k] < threshold
    ensures forall k: nat :: k < |scores| && scores[k] < threshold ==> k in r
  {
    if scores == [] then [] else
    var n := |scores| - 1;
    var before := Degraded(scores[..n], threshold);
    assert forall k: nat :: k < n ==> scores[..n][k] == scores[k];
    assert forall i :: 0 <= i < |before| ==> before[i] in before;
    if scores[n] < threshold then before + [n] else before
  }

  datatype Prediction =
    | Predicted(rul: real, weights: seq<real>, scores: seq<real>, degraded: seq<nat>)
    | BadScores(error: ScoreError)
    | ModelFailed

  /** `predict_rul` on a valid sequence; `lstm` is the model, None when it raises. */
  function PredictRul(n: nat, minWeight: real, rulClipMax: real, rows: seq<seq<real>>, given: Option<seq<real>>,
                      monitored: Option<ScoreResult>, threshold: real, lstm: seq<seq<real>> -> Option<real>): Prediction
    requires n >= 1 && Rectangular(rows, n)
    requires Usable(monitored) ==> |monitored.value.scores| == n
  {
    var resolved := ResolveHealthScores(n, given, monitored);
    if resolved.Rejected? then BadScores(resolved.error) else
    var weights := Weights(resolved.scores, minWeight);
    var raw := lstm(ApplyWeights(rows, weights));
    if raw.None? then ModelFailed
    else Predicted(Clip(raw.value, 0.0, rulClipMax), weights, resolved.scores, Degraded(resolved.scores, threshold))
  }

  /** `rul` is the model's answer where that is within the limits, and the limit it exceeds otherwise. */
  predicate WithinLimits(answer: Option<real>, limit: real, rul: real) {
    answer.Some? && rul == if answer.value < 0.0 then 0.0 else if answer.value > limit then limit else answer.value
  }

  /**
   Whatever the model, the monitor and the caller supply, a prediction's weights average
   one, its remaining life is the model's answer to the weighted sequence, kept within
   bounds, its scores are in the unit interval if the monitor's are, it lists exactly the
   degraded sensors, and its weighting puts at least as much health into the model as no
   weighting would.
  */
  lemma PredictionContract(n: nat, minWeight: real, rulClipMax: real, rows: seq<seq<real>>, given: Option<seq<real>>,
                           monitored: Option<ScoreResult>, threshold: real, lstm: seq<seq<real>> -> Option<real>)
    requires n >= 1 && Rectangular(rows, n) && minWeight <= 1.0 && rulClipMax > 0.0
    requires Usable(monitored) ==> |monitored.value.scores| == n
    ensures var p := PredictRul(n, minWeight, rulClipMax, rows, given, monitored, threshold, lstm);
            p.Predicted? ==>
              |p.weights| == |p.scores| == n && Sum(p.weights) == n as real &&
              p.weights == Weights(p.scores, minWeight) &&
              0.0 <= p.rul <= rulClipMax && WithinLimits(lstm(ApplyWeights(rows, p.weights)), rulClipMax, p.rul) &&
              Dot(p.weights, p.scores) >= Sum(p.scores) &&
              (forall k: nat :: k in p.degraded <==> k < n && p.scores[k] < threshold) &&
              (given.Some? ==> p.scores == given.value) &&
              ((Usable(monitored) ==> UnitScores(monitored.value.scores, n)) ==> UnitScores(p.scores, n))
  {
    var resolved := ResolveHealthScores(n, given, monitored);
    if resolved.Scores? {
      WeightsSumToCount(resolved.scores, minWeight);
      WeightedHealthAtLeastPlain(resolved.scores, minWeight);
    }
    ModelSeesWeighted(n, minWeight, rulClipMax, rows, given, monitored, threshold, lstm);
  }

  lemma ModelSeesWeighted(n: nat, minWeight: real, rulClipMax: real, rows: seq<seq<real>>, given: Option<seq<real>>,
                          monitored: Option<ScoreResult>, threshold: real, lstm: seq<seq<real>> -> Option<real>)
    requires n >= 1 && Rectangular(rows, n) && rulClipMax > 0.0
    requires Usable(monitored) ==> |monitored.value.scores| == n
    ensures var p := PredictRul(n, minWeight, rulClipMax, rows, given, monitored, threshold, lstm);
            p.Predicted? ==>
              |p.weights| == n && 0.0 <= p.rul <= rulClipMax &&
              WithinLimits(lstm(ApplyWeights(rows, p.weights)), rulClipMax, p.rul)
  {
  }

  /** Without scores, or when the monitor raises, the model sees the unweighted sequence. */
  lemma FallbackIsUnweighted(n: nat, minWeight: real, rulClipMax: real, rows: seq<seq<real>>,
                             monitored: Option<ScoreResult>, threshold: real, lstm: seq<seq<real>> -> Option<real>)
    requires n >= 1 && Rectangular(rows, n)
    requires !Usable(monitored)
    ensures var p := PredictRul(n, minWeight, rulClipMax, rows, None, monitored, threshold, lstm);
            if lstm(rows).None? then p == ModelFailed
            else p.Predicted? && p.rul == Clip(lstm(rows).value, 0.0, rulClipMax)
  {
    var ones := Constant(n, 1.0);
    forall i, j | 0 <= i < j < n ensures ones[i] == ones[j] {
      ConstantAt(n, 1.0, i);
      ConstantAt(n, 1.0, j);
    }
    EqualScoresAreIdentity(rows, ones, minWeight);
  }
}
