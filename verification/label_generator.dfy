/** Labels for run-to-failure data: capped remaining life, imminent failure, degradation rate, and dataset splits. */
module LabelGenerator {
  import opened Common
  import opened Frames

  datatype RulMethod = CycleBased | TimeBased | OtherMethod

  datatype Config = Config(rulMethod: RulMethod, maxRul: int, clipRul: bool, piecewiseEnabled: bool, earlyLifeRul: int,
                           failureWindow: int, degradationWindow: nat)

  /** The greatest cycle of some rows. */
  function LastCycle(s: seq<Row>): int {
    if s == [] then 0 else
    var before, cycle := LastCycle(s[..|s| - 1]), s[|s| - 1].cycle;
    if |s| > 1 && before > cycle then before else cycle
  }

  /** The remaining life of a row at `cycle` when its equipment lasts until `last`; `None` stands for NaN. */
  function Label(c: Config, last: int, cycle: int): Option<int> {
    var rul := last - cycle;
    var early := if c.piecewiseEnabled && rul > c.earlyLifeRul then c.earlyLifeRul else rul;
    match c.rulMethod
    case CycleBased => Some(Clipped(c, early))
    case TimeBased => Some(Clipped(c, rul))
    case OtherMethod => None
  }

  function Clipped(c: Config, rul: int): int {
    if c.clipRul && rul > c.maxRul then c.maxRul else rul
  }

  /** The label that a row of `df` should carry. */
  function LabelOf(c: Config, df: seq<Row>, row: Row): Option<int> {
    Label(c, LastCycle(Of(df, row.equipment)), row.cycle)
  }

  function GroupLabels(c: Config, group: seq<Row>): seq<Option<int>> {
    seq(|group|, k requires 0 <= k < |group| => Label(c, LastCycle(group), group[k].cycle))
  }

  function LabelList(c: Config, groups: seq<seq<Row>>): seq<Option<int>> {
    if groups == [] then [] else LabelList(c, groups[..|groups| - 1]) + GroupLabels(c, groups[|groups| - 1])
  }

  /** A frame with its `rul` column assigned by position. */
  function WithRul(df: seq<Row>, rul: seq<Option<int>>): seq<Row>
    requires |rul| == |df|
  {
    seq(|df|, k requires 0 <= k < |df| => df[k].(rul := rul[k]))
  }

  // ------------------------------------------------------------------ remaining life

  lemma {:induction false} LastCycleIsMax(s: seq<Row>, row: Row)
    requires row in s
    ensures row.cycle <= LastCycle(s)
  {
    var n := |s| - 1;
    if row != s[n] {
      assert row in s[..n];
      LastCycleIsMax(s[..n], row);
    }
  }

  lemma {:induction false} LastCycleIsReached(s: seq<Row>) returns (row: Row)
    requires s != []
    ensures row in s && row.cycle == LastCycle(s)
  {
    var n := |s| - 1;
    row := s[n];
    if n > 0 && LastCycle(s[..n]) > s[n].cycle {
      row := LastCycleIsReached(s[..n]);
    }
  }

  lemma SameLastCycle(s: seq<Row>, t: seq<Row>)
    requires s != [] && t != [] && forall row: Row :: row in s <==> row in t
    ensures LastCycle(s) == LastCycle(t)
  {
    var a := LastCycleIsReached(s);
    var b := LastCycleIsReached(t);
    LastCycleIsMax(t, a);
    LastCycleIsMax(s, b);
  }

  lemma GroupLastCycle(df: seq<Row>, e: int, group: seq<Row>)
    requires IsGroup(df, e, group)
    ensures LastCycle(group) == LastCycle(Of(df, e))
  {
    assert group[0] in group;
    GroupMember(df, e, group, group[0]);
    OfMember(df, e, group[0]);
    forall row: Row ensures row in group <==> row in Of(df, e) {
      GroupMember(df, e, group, row);
      OfMember(df, e, row);
    }
    SameLastCycle(group, Of(df, e));
  }

  lemma GroupLabelsAt(c: Config, df: seq<Row>, e: int, group: seq<Row>, k: nat)
    requires IsGroup(df, e, group) && k < |group|
    ensures GroupLabels(c, group)[k] == LabelOf(c, df, group[k])
  {
    GroupLastCycle(df, e, group);
    assert group[k] in group;
    GroupMember(df, e, group, group[k]);
  }

  /** The list built group by group holds, at every position, the label of the row of the grouped order there. */
  lemma {:induction false} LabelListAt(c: Config, df: seq<Row>, keys: seq<int>, groups: seq<seq<Row>>, m: nat, k: nat)
    requires Grouped(df, keys, groups) && m <= |groups| && k < |Flatten(groups[..m])|
    ensures |LabelList(c, groups[..m])| == |Flatten(groups[..m])|
    ensures LabelList(c, groups[..m])[k] == LabelOf(c, df, Flatten(groups[..m])[k])
  {
    var n := m - 1;
    assert groups[..m][..n] == groups[..n];
    var before := |Flatten(groups[..n])|;
    LabelListLength(c, groups[..n]);
    if k < before {
      LabelListAt(c, df, keys, groups, n, k);
    } else {
      GroupLabelsAt(c, df, keys[n], groups[n], k - before);
    }
  }

  lemma {:induction false} LabelListLength(c: Config, groups: seq<seq<Row>>)
    ensures |LabelList(c, groups)| == |Flatten(groups)|
  {
    if groups != [] { LabelListLength(c, groups[..|groups| - 1]); }
  }

  /** `_generate_rul_labels`: each group's labels in the group's order, then one column assigned by position. */
  method GenerateRulLabels(c: Config, df: seq<Row>, keys: seq<int>, groups: seq<seq<Row>>) returns (labelled: seq<Row>)
    requires Grouped(df, keys, groups)
    ensures |labelled| == |Flatten(groups)| == |df|
    ensures forall k :: 0 <= k < |df| ==> labelled[k] == df[k].(rul := LabelOf(c, df, Flatten(groups)[k]))
  {
    var rulList: seq<Option<int>> := [];
    for g := 0 to |groups|
      invariant rulList == LabelList(c, groups[..g])
    {
      assert groups[..g + 1][..g] == groups[..g];
      rulList := rulList + GroupLabels(c, groups[g]);
    }
    assert groups[..|groups|] == groups;
    GroupingIsPermutation(df, keys, groups);
    LabelListLength(c, groups);
    forall k: nat | k < |df| ensures rulList[k] == LabelOf(c, df, Flatten(groups)[k]) {
      LabelListAt(c, df, keys, groups, |groups|, k);
    }
    labelled := WithRul(df, rulList);
  }

  /** Every row carries the label computed from its own equipment and cycle. */
  ghost predicate RightlyLabelled(c: Config, df: seq<Row>) {
    forall k :: 0 <= k < |df| ==> df[k].rul == LabelOf(c, df, df[k])
  }

  lemma {:induction false} OfSameKeys(s: seq<Row>, t: seq<Row>, e: int)
    requires SameKeys(s, t)
    ensures SameKeys(Of(s, e), Of(t, e))
  {
    if s != [] {
      OfSameKeys(s[..|s| - 1], t[..|t| - 1], e);
    }
  }

  lemma {:induction false} LastCycleSameKeys(s: seq<Row>, t: seq<Row>)
    requires SameKeys(s, t)
    ensures LastCycle(s) == LastCycle(t)
  {
    if s != [] {
      LastCycleSameKeys(s[..|s| - 1], t[..|t| - 1]);
    }
  }

  lemma LabelOfSameKeys(c: Config, s: seq<Row>, t: seq<Row>, row: Row, other: Row)
    requires SameKeys(s, t) && row.equipment == other.equipment && row.cycle == other.cycle
    ensures LabelOf(c, s, row) == LabelOf(c, t, other)
  {
    OfSameKeys(s, t, row.equipment);
    LastCycleSameKeys(Of(s, row.equipment), Of(t, row.equipment));
  }

  /** The frame that `GenerateRulLabels` returns. */
  ghost predicate Labels(c: Config, df: seq<Row>, groups: seq<seq<Row>>, labelled: seq<Row>) {
    |labelled| == |df| == |Flatten(groups)| &&
    forall k :: 0 <= k < |df| ==> labelled[k] == df[k].(rul := LabelOf(c, df, Flatten(groups)[k]))
  }

  /** In a frame sorted by equipment and cycle, every row gets its own label, however ties are sorted. */
  lemma SortedIsRightlyLabelled(c: Config, df: seq<Row>, keys: seq<int>, groups: seq<seq<Row>>, labelled: seq<Row>)
    requires Grouped(df, keys, groups) && Sorted(df) && Labels(c, df, groups, labelled)
    ensures RightlyLabelled(c, labelled) && SameKeys(labelled, df) && Sorted(labelled)
  {
    AlignedIffSorted(df, keys, groups);
    forall k | 0 <= k < |df| ensures labelled[k].rul == LabelOf(c, labelled, labelled[k]) {
      LabelOfSameKeys(c, df, labelled, Flatten(groups)[k], labelled[k]);
    }
    forall a, b | 0 <= a < b < |df| ensures Before(labelled[a], labelled[b]) {
      assert Before(df[a], df[b]);
    }
  }

  lemma PairOfRows(a: Row, b: Row)
    requires a.equipment == b.equipment
    ensures Of([a, b], a.equipment) == [a, b]
    ensures LastCycle([a, b]) == if a.cycle > b.cycle then a.cycle else b.cycle
  {
    assert [a, b][..1] == [a] && [a][..0] == [];
    assert Of([a], a.equipment) == [a] && LastCycle([a]) == a.cycle;
  }

  lemma SwappedIsGroup(a: Row, b: Row)
    requires a.equipment == b.equipment && b.cycle <= a.cycle
    ensures Grouped([a, b], [a.equipment], [[b, a]])
  {
    PairOfRows(a, b);
    assert IsGroup([a, b], a.equipment, [b, a]);
  }

  /** Two rows out of order get each other's labels. */
  lemma SwappedLabels(c: Config, a: Row, b: Row)
    requires a.equipment == b.equipment && b.cycle <= a.cycle
    ensures LabelList(c, [[b, a]]) == [LabelOf(c, [a, b], b), LabelOf(c, [a, b], a)]
  {
    PairOfRows(a, b);
    PairOfRows(b, a);
    var groups: seq<seq<Row>> := [[b, a]];
    assert groups[..0] == [];
    assert LabelList(c, groups) == [] + GroupLabels(c, [b, a]);
  }

  /** The row at which the equipment fails is told that it has a cycle to live, and the row before that it fails. */
  lemma UnsortedIsMislabelled()
    ensures var c := Config(CycleBased, 300, true, true, 125, 30, 10);
            var failing, earlier := Row(7, 2, None), Row(7, 1, None);
            var df, groups := [failing, earlier], [[earlier, failing]];
            Grouped(df, [7], groups) && LabelList(c, groups) == [Some(1), Some(0)] &&
            LabelOf(c, df, failing) == Some(0) && LabelOf(c, df, earlier) == Some(1)
  {
    var c := Config(CycleBased, 300, true, true, 125, 30, 10);
    var failing, earlier := Row(7, 2, None), Row(7, 1, None);
    SwappedIsGroup(failing, earlier);
    SwappedLabels(c, failing, earlier);
    PairOfRows(failing, earlier);
  }

  // ------------------------------------------------------------------ what the labels mean

  /** The remaining life and the caps that apply to it: the early-life cap to cycle-based labels only. */
  function Bounds(c: Config, last: int, cycle: int): set<int> {
    {last - cycle} + (if c.rulMethod.CycleBased? && c.piecewiseEnabled then {c.earlyLifeRul} else {}) +
    (if c.clipRul then {c.maxRul} else {})
  }

  /** A label is the smallest of the true remaining life and the caps that apply; only an unknown method has none. */
  lemma LabelIsSmallest(c: Config, last: int, cycle: int)
    ensures var l := Label(c, last, cycle);
            (l.None? <==> c.rulMethod.OtherMethod?) &&
            (l.Some? ==> l.value in Bounds(c, last, cycle) && forall x <- Bounds(c, last, cycle) :: l.value <= x)
  {
  }

  /** As cycles pass, a label falls, and never by more than the cycles passed. */
  lemma LabelFallsSlowly(c: Config, last: int, cycle: int, later: int)
    requires !c.rulMethod.OtherMethod? && cycle <= later
    ensures var l, l' := Label(c, last, cycle), Label(c, last, later);
            l.Some? && l'.Some? && 0 <= l.value - l'.value <= later - cycle
  {
  }

  predicate Imminent(c: Config, rul: Option<int>) {
    rul.Some? && rul.value <= c.failureWindow
  }

  /** `failure_imminent`, once set for an equipment, stays set for all its later rows. */
  lemma ImminentNeverReverts(c: Config, df: seq<Row>, i: nat, j: nat)
    requires RightlyLabelled(c, df) && i < j < |df| && Sorted(df) && df[i].equipment == df[j].equipment
    requires Imminent(c, df[i].rul)
    ensures Imminent(c, df[j].rul)
  {
    assert Before(df[i], df[j]);
    if !c.rulMethod.OtherMethod? {
      LabelFallsSlowly(c, LastCycle(Of(df, df[i].equipment)), df[i].cycle, df[j].cycle);
    }
  }

  /** A row is labelled imminent exactly when failure is within the window, unless a cap lies within it too. */
  lemma ImminentExactly(c: Config, df: seq<Row>, k: nat)
    requires RightlyLabelled(c, df) && k < |df| && c.rulMethod.CycleBased?
    ensures Imminent(c, df[k].rul) <==>
              (LastCycle(Of(df, df[k].equipment)) - df[k].cycle <= c.failureWindow ||
               (c.piecewiseEnabled && c.earlyLifeRul <= c.failureWindow) ||
               (c.clipRul && c.maxRul <= c.failureWindow))
  {
  }

  // ------------------------------------------------------------------ degradation rate

  /** `-diff(periods=w) / w` of a group's remaining life. */
  function GroupRates(w: nat, group: seq<Row>): seq<Option<real>> {
    seq(|group|, i requires 0 <= i < |group| =>
      if 1 <= w <= i && group[i].rul.Some? && group[i - w].rul.Some?
      then Some((group[i - w].rul.value - group[i].rul.value) as real / w as real) else None)
  }

  function RateList(w: nat, groups: seq<seq<Row>>): seq<Option<real>> {
    if groups == [] then [] else RateList(w, groups[..|groups| - 1]) + GroupRates(w, groups[|groups| - 1])
  }

  /** The rate of row `k`: over the `w` rows before it, when they are all rows of its equipment. */
  function RateAt(w: nat, s: seq<Row>, k: nat): Option<real>
    requires k < |s|
  {
    if 1 <= w <= k && s[k - w].equipment == s[k].equipment && s[k].rul.Some? && s[k - w].rul.Some?
    then Some((s[k - w].rul.value - s[k].rul.value) as real / w as real) else None
  }

  /** Rows of smaller equipment in front change nothing about a group's rates. */
  lemma RateOfConcat(w: nat, s: seq<Row>, group: seq<Row>, e: int, k: nat)
    requires forall row <- s :: row.equipment < e
    requires forall row <- group :: row.equipment == e
    requires k < |s| + |group|
    ensures RateAt(w, s + group, k) == if k < |s| then RateAt(w, s, k) else GroupRates(w, group)[k - |s|]
  {
  }

  lemma {:induction false} RateListAt(w: nat, df: seq<Row>, keys: seq<int>, groups: seq<seq<Row>>, m: nat, k: nat)
    requires Grouped(df, keys, groups) && m <= |groups| && k < |Flatten(groups[..m])|
    ensures |RateList(w, groups[..m])| == |Flatten(groups[..m])|
    ensures RateList(w, groups[..m])[k] == RateAt(w, Flatten(groups[..m]), k)
  {
    var n := m - 1;
    assert groups[..m][..n] == groups[..n];
    var earlier, group := Flatten(groups[..n]), groups[n];
    RateListLength(w, groups[..n]);
    forall row <- earlier ensures row.equipment < keys[n] {
      FlattenBelow(df, keys, groups, n, row);
    }
    forall row <- group ensures row.equipment == keys[n] {
      GroupMember(df, keys[n], group, row);
    }
    RateOfConcat(w, earlier, group, keys[n], k);
    if k < |earlier| {
      RateListAt(w, df, keys, groups, n, k);
    }
  }

  /** A rate times the window is what the label fell by, and there is one exactly if the equipment reaches back. */
  lemma RateMeans(w: nat, s: seq<Row>, k: nat)
    requires k < |s|
    ensures var r := RateAt(w, s, k);
            (r.Some? <==> 1 <= w <= k && s[k - w].equipment == s[k].equipment &&
                          s[k].rul.Some? && s[k - w].rul.Some?) &&
            (r.Some? ==> r.value * w as real == (s[k - w].rul.value - s[k].rul.value) as real)
  {
  }

  lemma {:induction false} RateListLength(w: nat, groups: seq<seq<Row>>)
    ensures |RateList(w, groups)| == |Flatten(groups)|
  {
    if groups != [] { RateListLength(w, groups[..|groups| - 1]); }
  }

  /** `_generate_degradation_rate`: each group's rates in the group's order, then one column assigned by position. */
  method GenerateDegradationRate(c: Config, df: seq<Row>, keys: seq<int>, groups: seq<seq<Row>>)
    returns (rates: seq<Option<real>>)
    requires Grouped(df, keys, groups)
    ensures |rates| == |Flatten(groups)| == |df|
    ensures forall k :: 0 <= k < |df| ==> rates[k] == RateAt(c.degradationWindow, Flatten(groups), k)
  {
    var w := c.degradationWindow;
    rates := [];
    for g := 0 to |groups|
      invariant rates == RateList(w, groups[..g])
    {
      assert groups[..g + 1][..g] == groups[..g];
      rates := rates + GroupRates(w, groups[g]);
    }
    assert groups[..|groups|] == groups;
    GroupingIsPermutation(df, keys, groups);
    RateListLength(w, groups);
    forall k: nat | k < |df| ensures rates[k] == RateAt(w, Flatten(groups), k) {
      RateListAt(w, df, keys, groups, |groups|, k);
    }
  }

  /** Grouping gives a sorted, rightly labelled frame back, so the rates line up with its rows. */
  lemma RatesLineUp(c: Config, df: seq<Row>, keys: seq<int>, groups: seq<seq<Row>>)
    requires Grouped(df, keys, groups) && Sorted(df) && RightlyLabelled(c, df)
    ensures Flatten(groups) == df
  {
    SortedIsKept(df, keys, groups);
    GroupingIsPermutation(df, keys, groups);
    var s := Flatten(groups);
    forall k | 0 <= k < |df| ensures s[k] == df[k] {
      assert s[k] in multiset(s);
      var j: nat :| j < |df| && df[j] == s[k];
      assert df[j].rul == LabelOf(c, df, df[j]) == LabelOf(c, df, df[k]);
    }
  }

  /** Each equipment's rows go up by one cycle at a time. */
  predicate Follows(df: seq<Row>, k: nat)
    requires k < |df|
  {
    k > 0 && df[k - 1].equipment == df[k].equipment ==> df[k].cycle == df[k - 1].cycle + 1
  }

  ghost predicate Consecutive(df: seq<Row>) {
    forall k: nat :: k < |df| ==> Follows(df, k)
  }

  lemma {:induction false} OfConsecutive(df: seq<Row>, e: int)
    requires Sorted(df) && Consecutive(df)
    ensures var s := Of(df, e); forall i :: 0 <= i < |s| ==> s[i].cycle == s[0].cycle + i
    ensures var s := Of(df, e); s != [] && df[|df| - 1].equipment == e ==> s[|s| - 1] == df[|df| - 1]
  {
    if df != [] {
      var n := |df| - 1;
      forall k: nat | k < n ensures Follows(df[..n], k) {
        assert Follows(df, k);
      }
      OfConsecutive(df[..n], e);
      if df[n].equipment == e && n > 0 {
        assert Follows(df, n) && Before(df[n - 1], df[n]);
        if df[n - 1].equipment != e {
          forall row <- df[..n] ensures row.equipment != e {
            var k: nat :| k < n && df[k] == row;
            assert k < n - 1 ==> Before(df[k], df[n - 1]);
          }
          OfNone(df[..n], e);
        } else {
          OfMember(df[..n], e, df[n - 1]);
        }
      }
    }
  }

  /** What a group inherits from a rightly labelled frame with consecutive cycles. */
  lemma GroupInherits(c: Config, df: seq<Row>, e: int, group: seq<Row>, i: nat)
    requires IsGroup(df, e, group) && Sorted(df) && Consecutive(df) && RightlyLabelled(c, df) && i < |group|
    ensures group[i].cycle == group[0].cycle + i
    ensures group[i].rul == Label(c, LastCycle(Of(df, e)), group[i].cycle)
  {
    OfConsecutive(df, e);
    OfSorted(df, e);
    SortedCyclesAgree(group, Of(df, e));
    assert group[i] in group;
    GroupMember(df, e, group, group[i]);
    var k: nat :| k < |df| && df[k] == group[i];
    assert df[k].rul == LabelOf(c, df, df[k]);
  }

  predicate UnitRate(r: Option<real>) {
    r.Some? ==> 0.0 <= r.value <= 1.0
  }

  lemma Quotient(d: int, w: nat)
    requires 0 <= d <= w && w >= 1
    ensures 0.0 <= d as real / w as real <= 1.0
  {
  }

  /** Without caps every rate of a run of consecutive cycles is one, and defined from the w-th row on. */
  lemma {:induction false} UncappedRatesAreOne(c: Config, df: seq<Row>, e: int, group: seq<Row>, i: nat)
    requires IsGroup(df, e, group) && Sorted(df) && Consecutive(df) && RightlyLabelled(c, df) && i < |group|
    requires c.rulMethod.CycleBased? && !c.piecewiseEnabled && !c.clipRul && c.degradationWindow >= 1
    ensures GroupRates(c.degradationWindow, group)[i] == if i >= c.degradationWindow then Some(1.0) else None
  {
    var w := c.degradationWindow;
    if i >= w {
      var last, j := LastCycle(Of(df, e)), i - w;
      GroupInherits(c, df, e, group, i);
      GroupInherits(c, df, e, group, j);
      assert group[i].rul == Some(last - group[i].cycle) && group[j].rul == Some(last - group[j].cycle);
      assert group[i].cycle - group[j].cycle == i - j == w;
      assert w as real / w as real == 1.0;
    }
  }

  lemma GroupRatesInUnit(c: Config, df: seq<Row>, e: int, group: seq<Row>, w: nat)
    requires IsGroup(df, e, group) && Sorted(df) && Consecutive(df) && RightlyLabelled(c, df)
    ensures forall r <- GroupRates(w, group) :: UnitRate(r)
  {
    forall i: nat | i < |group| ensures UnitRate(GroupRates(w, group)[i]) {
      if 1 <= w <= i && !c.rulMethod.OtherMethod? {
        GroupInherits(c, df, e, group, i);
        GroupInherits(c, df, e, group, i - w);
        LabelFallsSlowly(c, LastCycle(Of(df, e)), group[i - w].cycle, group[i].cycle);
        Quotient(group[i - w].rul.value - group[i].rul.value, w);
      } else {
        GroupInherits(c, df, e, group, i);
      }
    }
  }

  /** Every degradation rate that is defined lies in the unit interval. */
  lemma {:induction false} RatesInUnit(c: Config, df: seq<Row>, keys: seq<int>, groups: seq<seq<Row>>, m: nat)
    requires Grouped(df, keys, groups) && Sorted(df) && Consecutive(df) && RightlyLabelled(c, df) && m <= |groups|
    ensures forall r <- RateList(c.degradationWindow, groups[..m]) :: UnitRate(r)
  {
    if m > 0 {
      var n := m - 1;
      RatesInUnit(c, df, keys, groups, n);
      assert groups[..m][..n] == groups[..n];
      GroupRatesInUnit(c, df, keys[n], groups[n], c.degradationWindow);
    }
  }
}
