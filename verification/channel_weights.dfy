/** Health-score-based channel weighting of the robust inference engine, over exact reals. */
module ChannelWeights {
  import opened RealSums

  /** `np.clip`. */
  function Clip(x: real, lo: real, hi: real): real {
    var raised := if x < lo then lo else x;
    if raised > hi then hi else raised
  }

  function ClipAll(s: seq<real>, lo: real, hi: real): (r: seq<real>)
    ensures |r| == |s|
    ensures forall k :: 0 <= k < |s| ==> r[k] == Clip(s[k], lo, hi)
  {
    if s == [] then [] else ClipAll(s[..|s| - 1], lo, hi) + [Clip(s[|s| - 1], lo, hi)]
  }

  /** Below this total the weights fall back to ones. */
  const NEGLIGIBLE := 0.000000000001

  function Raw(scores: seq<real>, minWeight: real): seq<real> {
    ClipAll(scores, minWeight, 1.0)
  }

  /** A clipped score over the mean clipped score, unless the total is negligible. */
  function WeightOf(clipped: real, n: real, total: real): real {
    if total < NEGLIGIBLE then 1.0 else Times(clipped, n / total)
  }

  /** `compute_channel_weights` on scores of the right shape. */
  function Weights(scores: seq<real>, minWeight: real): (w: seq<real>)
    ensures |w| == |scores|
  {
    var total := Sum(Raw(scores, minWeight));
    if total < NEGLIGIBLE then Constant(|scores|, 1.0)
    else Scale(Raw(scores, minWeight), |scores| as real / total)
  }

  // -------------------------------------------------------------- the weights

  lemma QuotientCancels(n: real, total: real)
    requires total > 0.0
    ensures Times(total, n / total) == n
  {
  }

  /** The mean weight is one. */
  lemma WeightsSumToCount(scores: seq<real>, minWeight: real)
    ensures Sum(Weights(scores, minWeight)) == |scores| as real
  {
    var raw, n := Raw(scores, minWeight), |scores| as real;
    if Sum(raw) < NEGLIGIBLE {
      SumConstant(|scores|, 1.0);
    } else {
      SumScale(raw, n / Sum(raw));
      QuotientCancels(n, Sum(raw));
    }
  }

  lemma WeightAt(scores: seq<real>, minWeight: real, k: nat)
    requires k < |scores|
    ensures var raw := Raw(scores, minWeight);
            Weights(scores, minWeight)[k] == WeightOf(raw[k], |scores| as real, Sum(raw))
  {
    var raw := Raw(scores, minWeight);
    if Sum(raw) < NEGLIGIBLE {
      ConstantAt(|scores|, 1.0, k);
    } else {
      ScaleAt(raw, |scores| as real / Sum(raw), k);
    }
  }

  /** What the weights are computed from: each score, raised to the floor and cut off at one. */
  lemma RawExactly(scores: seq<real>, minWeight: real, k: nat)
    requires k < |scores| && minWeight <= 1.0
    ensures |Raw(scores, minWeight)| == |scores|
    ensures scores[k] <= minWeight ==> Raw(scores, minWeight)[k] == minWeight
    ensures minWeight <= scores[k] <= 1.0 ==> Raw(scores, minWeight)[k] == scores[k]
    ensures scores[k] >= 1.0 ==> Raw(scores, minWeight)[k] == 1.0
  {
  }

  /** A weight is the score's share in the total, times the number of sensors; one when the total is below 1e-12. */
  lemma WeightIsShare(scores: seq<real>, minWeight: real, k: nat)
    requires k < |scores|
    ensures var raw, n := Raw(scores, minWeight), |scores| as real;
            Weights(scores, minWeight)[k] == if Sum(raw) < 0.000000000001 then 1.0 else raw[k] * n / Sum(raw)
  {
    var raw := Raw(scores, minWeight);
    WeightAt(scores, minWeight, k);
    if Sum(raw) >= NEGLIGIBLE {
      ProductOverTotal(raw[k], |scores| as real, Sum(raw));
    }
  }

  lemma DivisionBound(a: real, b: real, c: real, d: real)
    requires b > 0.0 && d > 0.0 && a * d <= c * b
    ensures a / b <= c / d
  {
    assert a / b == (a * d) / (b * d);
    assert c / d == (c * b) / (b * d);
    assert b * d > 0.0;
  }

  lemma ScaleInequality(f: real, a: real, b: real)
    requires f >= 0.0 && a <= b
    ensures f * a <= f * b
  {
  }

  lemma CrossDifference(n: real, m: real, r: real)
    ensures (r * n) * (n - 1.0 + m) - (n * m) * (r + (n - 1.0)) == n * ((n - 1.0) * (r - m))
  {
  }

  lemma ProductOverTotal(r: real, n: real, total: real)
    requires total > 0.0
    ensures Times(r, n / total) == (r * n) / total
  {
  }

  lemma LowerCross(n: real, m: real, r: real, total: real)
    requires n >= 1.0 && 0.0 < m <= r && total <= r + (n - 1.0)
    ensures (n * m) * total <= (r * n) * (n - 1.0 + m)
  {
    ScaleInequality(n * m, total, r + (n - 1.0));
    CrossDifference(n, m, r);
    ScaleInequality(n - 1.0, 0.0, r - m);
    ScaleInequality(n, 0.0, (n - 1.0) * (r - m));
  }

  lemma LowerBound(n: real, m: real, r: real, total: real)
    requires n >= 1.0 && 0.0 < m <= r && 0.0 < total <= r + (n - 1.0)
    ensures n * m / (n - 1.0 + m) <= Times(r, n / total)
  {
    ProductOverTotal(r, n, total);
    LowerCross(n, m, r, total);
    DivisionBound(n * m, n - 1.0 + m, r * n, total);
  }

  lemma UpperCross(n: real, k: real, r: real, total: real)
    requires n >= 1.0 && 0.0 <= k && 0.0 <= r <= 1.0 && total >= r + k
    ensures (r * n) * (1.0 + k) <= n * total
  {
    ScaleInequality(k, r, 1.0);
    assert r * (1.0 + k) == r + k * r <= total;
    ScaleInequality(n, r * (1.0 + k), total);
    assert (r * n) * (1.0 + k) == n * (r * (1.0 + k));
  }

  lemma UpperBound(n: real, m: real, r: real, total: real)
    requires n >= 1.0 && 0.0 < m <= 1.0 && 0.0 <= r <= 1.0 && total > 0.0 && total >= r + (n - 1.0) * m
    ensures Times(r, n / total) <= n / (1.0 + (n - 1.0) * m)
  {
    ProductOverTotal(r, n, total);
    ScaleInequality(n - 1.0, 0.0, m);
    UpperCross(n, (n - 1.0) * m, r, total);
    DivisionBound(r * n, total, n, 1.0 + (n - 1.0) * m);
  }

  // ------------------------------------------------------------------- bounds

  /** n * m / (n - 1 + m) */
  function LowerLimit(n: real, m: real): real
    requires n >= 1.0 && m > 0.0
  {
    n * m / (n - 1.0 + m)
  }

  /** n / (1 + (n - 1) * m) */
  function UpperLimit(n: real, m: real): real
    requires n >= 1.0 && m > 0.0
  {
    UpperDenominator(n, m);
    n / (1.0 + (n - 1.0) * m)
  }

  lemma UpperDenominator(n: real, m: real)
    requires n >= 1.0 && m > 0.0
    ensures 1.0 + (n - 1.0) * m >= 1.0
  {
  }

  lemma LimitsAroundOne(n: real, m: real)
    requires n >= 1.0 && 0.0 < m <= 1.0
    ensures LowerLimit(n, m) <= 1.0 <= UpperLimit(n, m)
  {
    ScaleInequality(n - 1.0, m, 1.0);
    DivisionBound(n * m, n - 1.0 + m, 1.0, 1.0);
    UpperDenominator(n, m);
    DivisionBound(1.0, 1.0, n, 1.0 + (n - 1.0) * m);
  }

  lemma ScalarBounds(n: real, m: real, r: real, total: real)
    requires n >= 1.0 && 0.0 < m <= 1.0 && m <= r <= 1.0
    requires r + Times(n - 1.0, m) <= total <= r + Times(n - 1.0, 1.0)
    ensures LowerLimit(n, m) <= WeightOf(r, n, total) <= UpperLimit(n, m)
  {
    if total < NEGLIGIBLE {
      LimitsAroundOne(n, m);
    } else {
      LowerBound(n, m, r, total);
      UpperBound(n, m, r, total);
    }
  }

  /** With a positive floor every weight lies between its two closed-form bounds. */
  lemma WeightBounds(scores: seq<real>, minWeight: real, k: nat)
    requires k < |scores| && 0.0 < minWeight <= 1.0
    ensures LowerLimit(|scores| as real, minWeight) <= Weights(scores, minWeight)[k]
            <= UpperLimit(|scores| as real, minWeight)
  {
    var raw := Raw(scores, minWeight);
    WeightAt(scores, minWeight, k);
    SumRangeOfOthers(raw, minWeight, 1.0, k);
    ScalarBounds(|scores| as real, minWeight, raw[k], Sum(raw));
  }

  lemma ScalarExtremes(n: real, m: real)
    requires n >= 2.0 && 0.0 < m <= 1.0
    ensures WeightOf(m, n, m + Times(n - 1.0, 1.0)) == LowerLimit(n, m)
    ensures WeightOf(1.0, n, 1.0 + Times(n - 1.0, m)) == UpperLimit(n, m)
  {
    ProductOverTotal(m, n, m + (n - 1.0));
    UpperDenominator(n, m);
    ProductOverTotal(1.0, n, 1.0 + (n - 1.0) * m);
  }

  /** The first weight when one sensor scores `x` and all others `y`. */
  lemma FirstOfTwoLevels(n: nat, x: real, y: real, minWeight: real)
    requires n >= 2
    ensures Weights([x] + Constant(n - 1, y), minWeight)[0] ==
            WeightOf(Clip(x, minWeight, 1.0), n as real,
                     Clip(x, minWeight, 1.0) + Times(n as real - 1.0, Clip(y, minWeight, 1.0)))
  {
    WeightAt([x] + Constant(n - 1, y), minWeight, 0);
    SumOfTwoLevels(n - 1, x, y, minWeight);
    assert (n - 1) as real == n as real - 1.0;
  }

  /** One degraded sensor among healthy ones reaches the lower bound, one healthy among degraded ones the upper. */
  lemma BoundsAreReached(n: nat, minWeight: real)
    requires n >= 2 && 0.0 < minWeight <= 1.0
    ensures Weights([0.0] + Constant(n - 1, 1.0), minWeight)[0] == LowerLimit(n as real, minWeight)
    ensures Weights([1.0] + Constant(n - 1, 0.0), minWeight)[0] == UpperLimit(n as real, minWeight)
  {
    FirstOfTwoLevels(n, 0.0, 1.0, minWeight);
    FirstOfTwoLevels(n, 1.0, 0.0, minWeight);
    ScalarExtremes(n as real, minWeight);
  }

  lemma RawSnoc(s: seq<real>, x: real, minWeight: real)
    ensures Sum(Raw(s + [x], minWeight)) == Sum(Raw(s, minWeight)) + Clip(x, minWeight, 1.0)
  {
    assert (s + [x])[..|s|] == s;
    var raw := Raw(s, minWeight);
    assert (raw + [Clip(x, minWeight, 1.0)])[..|raw|] == raw;
  }

  lemma {:induction false} SumOfTwoLevels(n: nat, x: real, y: real, minWeight: real)
    ensures Sum(Raw([x] + Constant(n, y), minWeight)) ==
            Clip(x, minWeight, 1.0) + Times(n as real, Clip(y, minWeight, 1.0))
  {
    if n == 0 {
      assert [x] + Constant(n, y) == [] + [x];
      RawSnoc([], x, minWeight);
    } else {
      SumOfTwoLevels(n - 1, x, y, minWeight);
      assert [x] + Constant(n, y) == ([x] + Constant(n - 1, y)) + [y];
      RawSnoc([x] + Constant(n - 1, y), y, minWeight);
      TimesAdds((n - 1) as real, 1.0, n as real, Clip(y, minWeight, 1.0));
    }
  }

  // ------------------------------------------------------------- monotonicity

  lemma HeavierIfHealthier(r: real, r': real, n: real, total: real)
    requires r <= r' && n >= 0.0
    ensures WeightOf(r, n, total) <= WeightOf(r', n, total)
  {
    if total >= NEGLIGIBLE {
      assert n / total >= 0.0;
      ScaleInequality(n / total, r, r');
    }
  }

  /** Weights follow health: a healthier sensor never weighs less. */
  lemma WeightsFollowHealth(scores: seq<real>, minWeight: real, i: nat, j: nat)
    requires i < |scores| && j < |scores| && scores[i] <= scores[j]
    ensures Weights(scores, minWeight)[i] <= Weights(scores, minWeight)[j]
  {
    WeightAt(scores, minWeight, i);
    WeightAt(scores, minWeight, j);
    var raw := Raw(scores, minWeight);
    HeavierIfHealthier(raw[i], raw[j], |scores| as real, Sum(raw));
  }

  /** Lowering the health of sensor k to x lowers (or keeps) its weight and raises (or keeps) every other. */
  ghost predicate Responds(scores: seq<real>, minWeight: real, k: nat, x: real)
    requires k < |scores|
  {
    var before, after := Weights(scores, minWeight), Weights(scores[k := x], minWeight);
    after[k] <= before[k] && forall j :: 0 <= j < |scores| && j != k ==> before[j] <= after[j]
  }

  ghost predicate AlwaysResponds(n: nat, minWeight: real) {
    forall scores: seq<real>, k: nat, x: real ::
      |scores| == n && k < n && x <= scores[k] ==> Responds(scores, minWeight, k, x)
  }

  lemma OwnCross(r: real, r': real, total: real)
    requires 0.0 <= r' <= r <= total
    ensures r' * total <= r * (total - r + r')
  {
    ScaleInequality(total - r, r', r);
  }

  lemma OwnWeightFalls(n: real, r: real, r': real, total: real, total': real)
    requires n >= 1.0 && 0.0 <= r' <= r <= total && total' == total - r + r' >= NEGLIGIBLE
    ensures WeightOf(r', n, total') <= WeightOf(r, n, total)
  {
    ProductOverTotal(r', n, total');
    ProductOverTotal(r, n, total);
    OwnCross(r, r', total);
    ScaleInequality(n, r' * total, r * total');
    DivisionBound(r' * n, total', r * n, total);
  }

  lemma OtherWeightRises(n: real, r: real, total: real, total': real)
    requires n >= 1.0 && 0.0 <= r && NEGLIGIBLE <= total' <= total
    ensures WeightOf(r, n, total) <= WeightOf(r, n, total')
  {
    ProductOverTotal(r, n, total);
    ProductOverTotal(r, n, total');
    ScaleInequality(n, 0.0, r);
    ScaleInequality(r * n, total', total);
    DivisionBound(r * n, total, r * n, total');
  }

  /** It responds as intended whenever the lowered total is not negligible. */
  lemma RespondsUnlessNegligible(scores: seq<real>, minWeight: real, k: nat, x: real)
    requires 0.0 <= minWeight <= 1.0 && k < |scores| && x <= scores[k]
    requires Sum(Raw(scores[k := x], minWeight)) >= NEGLIGIBLE
    ensures Responds(scores, minWeight, k, x)
  {
    var n, raw, lowered := |scores| as real, Raw(scores, minWeight), scores[k := x];
    var raw' := Raw(lowered, minWeight);
    assert raw' == raw[k := raw'[k]];
    SumUpdate(raw, k, raw'[k]);
    NonNegativeSum(raw, k);
    WeightAt(scores, minWeight, k);
    WeightAt(lowered, minWeight, k);
    OwnWeightFalls(n, raw[k], raw'[k], Sum(raw), Sum(raw'));
    forall j | 0 <= j < |scores| && j != k ensures Weights(scores, minWeight)[j] <= Weights(lowered, minWeight)[j] {
      WeightAt(scores, minWeight, j);
      WeightAt(lowered, minWeight, j);
      OtherWeightRises(n, raw[j], Sum(raw), Sum(raw'));
    }
  }

  lemma NonNegativeSum(s: seq<real>, k: nat)
    requires k < |s| && forall i :: 0 <= i < |s| ==> 0.0 <= s[i] <= 1.0
    ensures s[k] <= Sum(s)
  {
    SumRangeOfOthers(s, 0.0, 1.0, k);
  }

  /** A floor of at least NEGLIGIBLE / n keeps every total from being negligible. */
  lemma FloorKeepsTotal(scores: seq<real>, minWeight: real)
    requires minWeight <= 1.0 && Times(|scores| as real, minWeight) >= NEGLIGIBLE
    ensures Sum(Raw(scores, minWeight)) >= NEGLIGIBLE
  {
    SumRange(Raw(scores, minWeight), minWeight, 1.0);
  }

  lemma OneSensorResponds(scores: seq<real>, minWeight: real, x: real)
    requires |scores| == 1
    ensures Responds(scores, minWeight, 0, x)
  {
    WeightsSumToCount(scores, minWeight);
    WeightsSumToCount(scores[0 := x], minWeight);
    SumOfOne(Weights(scores, minWeight));
    SumOfOne(Weights(scores[0 := x], minWeight));
  }

  /**
   For every input it does so exactly when the floor keeps the total from being
   negligible, or there is only one sensor.
  */
  lemma RespondsExactly(n: nat, minWeight: real)
    requires n >= 1 && 0.0 <= minWeight <= 1.0
    ensures AlwaysResponds(n, minWeight) <==> n == 1 || Times(n as real, minWeight) >= NEGLIGIBLE
  {
    if n == 1 || Times(n as real, minWeight) >= NEGLIGIBLE {
      forall scores: seq<real>, k: nat, x: real | |scores| == n && k < n && x <= scores[k]
        ensures Responds(scores, minWeight, k, x)
      {
        if n == 1 {
          OneSensorResponds(scores, minWeight, x);
        } else {
          FloorKeepsTotal(scores[k := x], minWeight);
          RespondsUnlessNegligible(scores, minWeight, k, x);
        }
      }
    } else {
      var scores, x := NegligibleWitness(n, minWeight);
      assert !Responds(scores, minWeight, 0, x);
    }
  }

  lemma SumOfOne(s: seq<real>)
    requires |s| == 1
    ensures Sum(s) == s[0]
  {
    assert s[..0] == [];
  }

  /**
   With a smaller floor: sensor 0 weighs less than one until its health drops to the
   floor, when the total becomes negligible and its weight jumps up to one.
  */
  lemma {:induction false} NegligibleWitness(n: nat, m: real) returns (scores: seq<real>, x: real)
    requires n >= 2 && 0.0 <= m && Times(n as real, m) < NEGLIGIBLE
    ensures |scores| == n && x <= scores[0] && !Responds(scores, m, 0, x)
  {
    var a, b := JustNegligible(n as real, m);
    scores, x := [a] + Constant(n - 1, b), m;
    var lowered := [m] + Constant(n - 1, b);
    assert scores[0 := x] == lowered;
    FirstOfTwoLevels(n, a, b, m);
    FirstOfTwoLevels(n, m, b, m);
    assert Weights(lowered, m)[0] == 1.0 > Weights(scores, m)[0];
  }

  /** Levels a and b whose total is exactly NEGLIGIBLE, and less once a drops to m. */
  lemma JustNegligible(n: real, m: real) returns (a: real, b: real)
    requires n >= 2.0 && 0.0 <= m && Times(n, m) < NEGLIGIBLE
    ensures m < a < b <= 1.0
    ensures a + Times(n - 1.0, b) == NEGLIGIBLE && m + Times(n - 1.0, b) < NEGLIGIBLE
    ensures WeightOf(a, n, NEGLIGIBLE) < 1.0
  {
    b := (NEGLIGIBLE / n + (NEGLIGIBLE - m) / (n - 1.0)) / 2.0;
    a := NEGLIGIBLE - Times(n - 1.0, b);
    MidpointFacts(n, m, b);
    ProductOverTotal(a, n, NEGLIGIBLE);
  }

  lemma MidpointFacts(n: real, m: real, b: real)
    requires n >= 2.0 && 0.0 <= m && n * m < NEGLIGIBLE
    requires b == (NEGLIGIBLE / n + (NEGLIGIBLE - m) / (n - 1.0)) / 2.0
    ensures m < NEGLIGIBLE - (n - 1.0) * b < b <= 1.0
    ensures m + (n - 1.0) * b < NEGLIGIBLE
    ensures n * (NEGLIGIBLE - (n - 1.0) * b) < NEGLIGIBLE
  {
  }

  // ------------------------------------------- weighting never hides good health

  lemma QuotientOfExcess(n: real, d: real, total: real, h: real)
    requires total > 0.0
    ensures Times(Times(d, n / total) - h, total) == Excess(n, d, total, h)
  {
    assert d * (n / total) * total == d * n;
  }

  lemma SignOfProduct(x: real, total: real)
    requires total > 0.0 && Times(x, total) >= 0.0
    ensures x >= 0.0 && (x == 0.0 <==> Times(x, total) == 0.0)
  {
  }

  /**
   For any number of sensors and any scores, the weight-averaged health is at least the
   plain average, and equal to it exactly when the weights are all one in effect: the
   clipped scores all agree, or their total is negligible. (Chebyshev's sum inequality.)
  */
  lemma WeightedHealthAtLeastPlain(scores: seq<real>, minWeight: real)
    requires minWeight <= 1.0
    ensures Dot(Weights(scores, minWeight), scores) >= Sum(scores)
    ensures Dot(Weights(scores, minWeight), scores) == Sum(scores) <==>
            Sum(Raw(scores, minWeight)) < NEGLIGIBLE || AllEqual(Raw(scores, minWeight))
  {
    var raw, n := Raw(scores, minWeight), |scores| as real;
    var total := Sum(raw);
    if total < NEGLIGIBLE {
      DotOnes(scores);
    } else {
      ChebyshevIdentity(raw, scores);
      PairDeviationSign(raw, scores);
      DotScale(raw, scores, n / total);
      QuotientOfExcess(n, Dot(raw, scores), total, Sum(scores));
      SignOfProduct(Times(Dot(raw, scores), n / total) - Sum(scores), total);
    }
  }

  /** 1 - x, sensor by sensor. */
  function Complement(s: seq<real>): (r: seq<real>)
    ensures |r| == |s|
    ensures forall k :: 0 <= k < |s| ==> r[k] == 1.0 - s[k]
  {
    if s == [] then [] else Complement(s[..|s| - 1]) + [1.0 - s[|s| - 1]]
  }

  lemma TimesComplement(w: real, x: real)
    ensures Times(w, 1.0 - x) == w - Times(w, x)
  {
  }

  lemma {:induction false} DotComplement(w: seq<real>, s: seq<real>)
    requires |w| == |s|
    ensures Dot(w, Complement(s)) == Sum(w) - Dot(w, s)
    ensures Sum(Complement(s)) == |s| as real - Sum(s)
  {
    if s != [] {
      DotComplement(w[..|w| - 1], s[..|s| - 1]);
      assert Complement(s)[..|s| - 1] == Complement(s[..|s| - 1]);
      TimesComplement(w[|w| - 1], s[|s| - 1]);
    }
  }

  /** Equivalently the weight-averaged normalised error never exceeds the plain average. */
  lemma WeightedErrorAtMostPlain(scores: seq<real>, minWeight: real)
    requires minWeight <= 1.0
    ensures Dot(Weights(scores, minWeight), Complement(scores)) <= Sum(Complement(scores))
  {
    DotComplement(Weights(scores, minWeight), scores);
    WeightsSumToCount(scores, minWeight);
    WeightedHealthAtLeastPlain(scores, minWeight);
  }

  // ------------------------------------------------------------ applying weights

  function WeightRow(row: seq<real>, weights: seq<real>): (r: seq<real>)
    requires |row| == |weights|
    ensures |r| == |row|
    ensures forall j :: 0 <= j < |row| ==> r[j] == Times(row[j], weights[j])
  {
    if row == [] then []
    else WeightRow(row[..|row| - 1], weights[..|row| - 1]) + [Times(row[|row| - 1], weights[|row| - 1])]
  }

  ghost predicate Rectangular(rows: seq<seq<real>>, n: nat) {
    forall t :: 0 <= t < |rows| ==> |rows[t]| == n
  }

  /** `apply_weights`: every time step is multiplied by the weights, channel by channel. */
  function ApplyWeights(rows: seq<seq<real>>, weights: seq<real>): (r: seq<seq<real>>)
    requires Rectangular(rows, |weights|)
    ensures |r| == |rows| && forall t :: 0 <= t < |rows| ==> r[t] == WeightRow(rows[t], weights)
  {
    if rows == [] then [] else ApplyWeights(rows[..|rows| - 1], weights) + [WeightRow(rows[|rows| - 1], weights)]
  }

  /** Every entry is multiplied by the weight of its channel. */
  lemma AppliedExactly(rows: seq<seq<real>>, weights: seq<real>, t: nat, j: nat)
    requires Rectangular(rows, |weights|) && t < |rows| && j < |weights|
    ensures |ApplyWeights(rows, weights)| == |rows| && |ApplyWeights(rows, weights)[t]| == |weights|
    ensures ApplyWeights(rows, weights)[t][j] == rows[t][j] * weights[j]
  {
    assert WeightRow(rows[t], weights)[j] == Times(rows[t][j], weights[j]);
  }

  lemma WeightOfMean(r: real, n: real, total: real)
    requires n > 0.0 && total >= NEGLIGIBLE
    ensures WeightOf(r, n, total) == 1.0 <==> Times(n, r) == total
  {
    ProductOverTotal(r, n, total);
  }

  lemma EqualProducts(n: real, r: real, r': real)
    requires n > 0.0
    ensures Times(n, r) == Times(n, r') <==> r == r'
  {
  }

  /** All weights are one exactly when the clipped scores agree or their total is negligible. */
  lemma WeightsAllOne(scores: seq<real>, minWeight: real)
    requires scores != []
    ensures (forall k :: 0 <= k < |scores| ==> Weights(scores, minWeight)[k] == 1.0) <==>
            Sum(Raw(scores, minWeight)) < NEGLIGIBLE || AllEqual(Raw(scores, minWeight))
  {
    var raw, n := Raw(scores, minWeight), |scores| as real;
    var total, w := Sum(raw), Weights(scores, minWeight);
    forall k | 0 <= k < |scores|
      ensures w[k] == WeightOf(raw[k], n, total)
      ensures total >= NEGLIGIBLE ==> (w[k] == 1.0 <==> Times(n, raw[k]) == total)
    {
      WeightAt(scores, minWeight, k);
      if total >= NEGLIGIBLE { WeightOfMean(raw[k], n, total); }
    }
    if AllEqual(raw) {
      SumRange(raw, raw[0], raw[0]);
    } else if total >= NEGLIGIBLE && forall k :: 0 <= k < |scores| ==> w[k] == 1.0 {
      forall i, j | 0 <= i < j < |raw| ensures raw[i] == raw[j] {
        assert w[i] == 1.0 && w[j] == 1.0;
        EqualProducts(n, raw[i], raw[j]);
      }
    }
  }

  /** Equal scores leave every input sequence as it is. */
  lemma EqualScoresAreIdentity(rows: seq<seq<real>>, scores: seq<real>, minWeight: real)
    requires scores != [] && Rectangular(rows, |scores|) && AllEqual(scores)
    ensures ApplyWeights(rows, Weights(scores, minWeight)) == rows
  {
    var w := Weights(scores, minWeight);
    WeightsAllOne(scores, minWeight);
    forall t | 0 <= t < |rows| ensures WeightRow(rows[t], w) == rows[t] {
      assert forall j :: 0 <= j < |w| ==> Times(rows[t][j], w[j]) == rows[t][j];
    }
  }
}
