/** When the remaining-life labels, which are assigned by position, belong to their rows. */
module LabelAlignment {
  import opened Common
  import opened Frames
  import opened LabelGenerator

  /** The labels that some rows of a frame should carry. */
  function OwnLabels(c: Config, df: seq<Row>, rows: seq<Row>): (labels: seq<Option<int>>)
    ensures |labels| == |rows|
  {
    if rows == [] then [] else OwnLabels(c, df, rows[..|rows| - 1]) + [LabelOf(c, df, rows[|rows| - 1])]
  }

  lemma {:induction false} OwnLabelsAt(c: Config, df: seq<Row>, rows: seq<Row>, k: nat)
    requires k < |rows|
    ensures OwnLabels(c, df, rows)[k] == LabelOf(c, df, rows[k])
  {
    if k < |rows| - 1 { OwnLabelsAt(c, df, rows[..|rows| - 1], k); }
  }

  lemma {:induction false} OwnLabelsConcat(c: Config, df: seq<Row>, s: seq<Row>, t: seq<Row>)
    ensures OwnLabels(c, df, s + t) == OwnLabels(c, df, s) + OwnLabels(c, df, t)
  {
    if t == [] {
      assert s + t == s;
    } else {
      OwnLabelsConcat(c, df, s, t[..|t| - 1]);
      assert (s + t)[..|s + t| - 1] == s + t[..|t| - 1];
    }
  }

  function CountLabel(c: Config, df: seq<Row>, rows: seq<Row>, x: Option<int>): nat {
    if rows == [] then 0 else
    var before := CountLabel(c, df, rows[..|rows| - 1], x);
    if LabelOf(c, df, rows[|rows| - 1]) == x then before + 1 else before
  }

  lemma {:induction false} CountLabelConcat(c: Config, df: seq<Row>, s: seq<Row>, t: seq<Row>, x: Option<int>)
    ensures CountLabel(c, df, s + t, x) == CountLabel(c, df, s, x) + CountLabel(c, df, t, x)
  {
    if t == [] {
      assert s + t == s;
    } else {
      CountLabelConcat(c, df, s, t[..|t| - 1], x);
      assert (s + t)[..|s + t| - 1] == s + t[..|t| - 1];
    }
  }

  lemma CountLabelWithout(c: Config, df: seq<Row>, t: seq<Row>, j: nat, x: Option<int>)
    requires j < |t|
    ensures CountLabel(c, df, t, x) ==
            CountLabel(c, df, t[..j] + t[j + 1..], x) + (if LabelOf(c, df, t[j]) == x then 1 else 0)
  {
    assert t == t[..j + 1] + t[j + 1..] && t[..j + 1][..j] == t[..j];
    CountLabelConcat(c, df, t[..j + 1], t[j + 1..], x);
    CountLabelConcat(c, df, t[..j], t[j + 1..], x);
  }

  lemma {:induction false} PermutedLabelCount(c: Config, df: seq<Row>, s: seq<Row>, t: seq<Row>, x: Option<int>)
    requires multiset(s) == multiset(t)
    ensures CountLabel(c, df, s, x) == CountLabel(c, df, t, x)
  {
    assert |s| == |multiset(s)| == |multiset(t)| == |t|;
    if s != [] {
      var j := LastElsewhere(s, t);
      PermutedLabelCount(c, df, s[..|s| - 1], t[..j] + t[j + 1..], x);
      CountLabelWithout(c, df, t, j, x);
    }
  }

  lemma {:induction false} CountsOwnLabels(c: Config, df: seq<Row>, rows: seq<Row>, x: Option<int>)
    ensures multiset(OwnLabels(c, df, rows))[x] == CountLabel(c, df, rows, x)
  {
    if rows != [] {
      CountsOwnLabels(c, df, rows[..|rows| - 1], x);
    }
  }

  /** Rearranging rows rearranges their labels. */
  lemma PermutedLabels(c: Config, df: seq<Row>, s: seq<Row>, t: seq<Row>)
    requires multiset(s) == multiset(t)
    ensures multiset(OwnLabels(c, df, s)) == multiset(OwnLabels(c, df, t))
  {
    forall x: Option<int> ensures multiset(OwnLabels(c, df, s))[x] == multiset(OwnLabels(c, df, t))[x] {
      CountsOwnLabels(c, df, s, x);
      CountsOwnLabels(c, df, t, x);
      PermutedLabelCount(c, df, s, t, x);
    }
  }

  predicate Rises(x: Option<int>, y: Option<int>) {
    x.Some? && y.Some? && x.value < y.value
  }

  ghost predicate NeverRises(labels: seq<Option<int>>) {
    forall a, b :: 0 <= a < b < |labels| ==> !Rises(labels[a], labels[b])
  }

  /** Whether labels are NaN is a matter of the configuration alone. */
  ghost predicate AllDefined(labels: seq<Option<int>>, defined: bool) {
    forall x <- labels :: x.Some? == defined
  }

  lemma SameLast(s: seq<Option<int>>, t: seq<Option<int>>, defined: bool)
    requires s != [] && multiset(s) == multiset(t) && NeverRises(s) && NeverRises(t) && AllDefined(s, defined)
    ensures t != [] && s[|s| - 1] == t[|t| - 1]
  {
    assert |s| == |multiset(s)| == |multiset(t)| == |t|;
    var x, y := s[|s| - 1], t[|t| - 1];
    assert x in multiset(t) && y in multiset(s);
    LastIsLeast(s, y);
    LastIsLeast(t, x);
    assert x in s && y in s;
  }

  lemma WithoutSameLast(s: seq<Option<int>>, t: seq<Option<int>>)
    requires s != [] && t != [] && multiset(s) == multiset(t) && s[|s| - 1] == t[|t| - 1]
    ensures multiset(s[..|s| - 1]) == multiset(t[..|t| - 1])
  {
    MultisetWithout(s, |s| - 1);
    MultisetWithout(t, |t| - 1);
    assert s[..|s| - 1] + s[|s|..] == s[..|s| - 1] && t[..|t| - 1] + t[|t|..] == t[..|t| - 1];
  }

  /** There is only one way to arrange labels so that they never rise. */
  lemma {:induction false} FallingIsUnique(s: seq<Option<int>>, t: seq<Option<int>>, defined: bool)
    requires multiset(s) == multiset(t) && NeverRises(s) && NeverRises(t) && AllDefined(s, defined)
    ensures s == t
  {
    assert |s| == |multiset(s)| == |multiset(t)| == |t|;
    if s != [] {
      SameLast(s, t, defined);
      WithoutSameLast(s, t);
      FallingIsUnique(s[..|s| - 1], t[..|t| - 1], defined);
      assert s == s[..|s| - 1] + [s[|s| - 1]];
    }
  }

  lemma LastIsLeast(labels: seq<Option<int>>, x: Option<int>)
    requires NeverRises(labels) && x in multiset(labels)
    ensures labels != [] && !Rises(x, labels[|labels| - 1])
  {
    var k: nat :| k < |labels| && labels[k] == x;
  }

  lemma OwnLabelsDefined(c: Config, df: seq<Row>, rows: seq<Row>)
    ensures AllDefined(OwnLabels(c, df, rows), !c.rulMethod.OtherMethod?)
  {
    forall x <- OwnLabels(c, df, rows) ensures x.Some? == !c.rulMethod.OtherMethod? {
      var k: nat :| k < |rows| && OwnLabels(c, df, rows)[k] == x;
      OwnLabelsAt(c, df, rows, k);
    }
  }

  /** Rows of one equipment in cycle order have labels that never rise. */
  lemma CycleOrderNeverRises(c: Config, df: seq<Row>, rows: seq<Row>, e: int)
    requires CycleSorted(rows) && forall row <- rows :: row.equipment == e
    ensures NeverRises(OwnLabels(c, df, rows))
  {
    var labels := OwnLabels(c, df, rows);
    forall a: nat, b: nat | a < b < |labels| ensures !Rises(labels[a], labels[b]) {
      OwnLabelsAt(c, df, rows, a);
      OwnLabelsAt(c, df, rows, b);
      assert rows[a] in rows && rows[b] in rows;
      if !c.rulMethod.OtherMethod? {
        LabelFallsSlowly(c, LastCycle(Of(df, e)), rows[a].cycle, rows[b].cycle);
      }
    }
  }

  /** Rows in some order carry the labels of the same rows in cycle order exactly when those never rise. */
  lemma OrderedLabelsIff(c: Config, df: seq<Row>, ordered: seq<Row>, rows: seq<Row>, all: seq<Row>, e: int)
    requires CycleSorted(ordered) && (forall row <- ordered :: row.equipment == e)
    requires multiset(ordered) == multiset(all)
    ensures OwnLabels(c, df, ordered) == OwnLabels(c, df, rows) <==>
              (NeverRises(OwnLabels(c, df, rows)) &&
               multiset(OwnLabels(c, df, rows)) == multiset(OwnLabels(c, df, all)))
  {
    CycleOrderNeverRises(c, df, ordered, e);
    PermutedLabels(c, df, ordered, all);
    OwnLabelsDefined(c, df, ordered);
    if NeverRises(OwnLabels(c, df, rows)) && multiset(OwnLabels(c, df, rows)) == multiset(OwnLabels(c, df, all)) {
      FallingIsUnique(OwnLabels(c, df, ordered), OwnLabels(c, df, rows), !c.rulMethod.OtherMethod?);
    }
  }

  /** The column is right exactly when the grouped order has the labels that the rows should carry. */
  lemma RightIffSameLabels(c: Config, df: seq<Row>, groups: seq<seq<Row>>, labelled: seq<Row>)
    requires Labels(c, df, groups, labelled)
    ensures RightlyLabelled(c, labelled) <==> OwnLabels(c, df, Flatten(groups)) == OwnLabels(c, df, df)
  {
    var order := Flatten(groups);
    assert SameKeys(labelled, df);
    forall k: nat | k < |df|
      ensures labelled[k].rul == OwnLabels(c, df, order)[k]
      ensures LabelOf(c, labelled, labelled[k]) == OwnLabels(c, df, df)[k]
    {
      OwnLabelsAt(c, df, order, k);
      OwnLabelsAt(c, df, df, k);
      LabelOfSameKeys(c, labelled, df, labelled[k], df[k]);
    }
  }

  /**
   For a single equipment, in any configuration, the labels are right for every row if
   and only if they never rise down the frame: rows above the caps may come in any order.
  */
  lemma RightIffNeverRises(c: Config, df: seq<Row>, keys: seq<int>, groups: seq<seq<Row>>, labelled: seq<Row>, e: int)
    requires Grouped(df, keys, groups) && Labels(c, df, groups, labelled)
    requires forall row <- df :: row.equipment == e
    ensures RightlyLabelled(c, labelled) <==> NeverRises(OwnLabels(c, df, df))
  {
    var order := Flatten(groups);
    GroupingIsPermutation(df, keys, groups);
    FlattenSorted(df, keys, groups, |groups|);
    assert groups[..|groups|] == groups;
    forall row <- order ensures row.equipment == e {
      assert row in multiset(order);
      assert row in df;
    }
    assert CycleSorted(order) by {
      forall a, b | 0 <= a < b < |order| ensures order[a].cycle <= order[b].cycle {
        assert Before(order[a], order[b]) && order[a] in order && order[b] in order;
      }
    }
    OrderedLabelsIff(c, df, order, df, df, e);
    RightIffSameLabels(c, df, groups, labelled);
  }

  /** Where the rows of the g-th equipment come to lie in the grouped order. */
  function Start(df: seq<Row>, keys: seq<int>, g: nat): nat
    requires g <= |keys|
  {
    if g == 0 then 0 else Start(df, keys, g - 1) + |Of(df, keys[g - 1])|
  }

  lemma {:induction false} StartInOrder(df: seq<Row>, keys: seq<int>, groups: seq<seq<Row>>, g: nat)
    requires Grouped(df, keys, groups) && g <= |keys|
    ensures Start(df, keys, g) == |Flatten(groups[..g])| <= |df|
  {
    if g > 0 {
      StartInOrder(df, keys, groups, g - 1);
      assert groups[..g][..g - 1] == groups[..g - 1];
      assert |multiset(groups[g - 1])| == |multiset(Of(df, keys[g - 1]))|;
    }
    GroupingIsPermutation(df, keys, groups);
    FlattenPrefix(groups, g);
  }

  lemma {:induction false} FlattenPrefix(groups: seq<seq<Row>>, g: nat)
    requires g <= |groups|
    ensures |Flatten(groups[..g])| <= |Flatten(groups)|
  {
    if g == |groups| {
      assert groups[..g] == groups;
    } else {
      FlattenPrefix(groups[..|groups| - 1], g);
      assert groups[..|groups| - 1][..g] == groups[..g];
    }
  }

  /** The labels of the rows that happen to lie there. */
  ghost function BlockLabels(c: Config, df: seq<Row>, keys: seq<int>, g: nat): seq<Option<int>>
    requires g < |keys| && Start(df, keys, g + 1) <= |df|
  {
    OwnLabels(c, df, df[Start(df, keys, g)..Start(df, keys, g + 1)])
  }

  /** They never rise, and are the labels of the g-th equipment in some order. */
  ghost predicate BlockFits(c: Config, df: seq<Row>, keys: seq<int>, g: nat) {
    g < |keys| && Start(df, keys, g + 1) <= |df| && NeverRises(BlockLabels(c, df, keys, g)) &&
    multiset(BlockLabels(c, df, keys, g)) == multiset(OwnLabels(c, df, Of(df, keys[g])))
  }

  /** They are the labels computed for the g-th group. */
  ghost predicate SameBlock(c: Config, df: seq<Row>, keys: seq<int>, groups: seq<seq<Row>>, g: nat) {
    g < |keys| == |groups| && Start(df, keys, g + 1) <= |df| &&
    OwnLabels(c, df, groups[g]) == BlockLabels(c, df, keys, g)
  }

  lemma BlockFitsIff(c: Config, df: seq<Row>, keys: seq<int>, groups: seq<seq<Row>>, g: nat)
    requires Grouped(df, keys, groups) && g < |keys|
    ensures BlockFits(c, df, keys, g) <==> SameBlock(c, df, keys, groups, g)
  {
    StartInOrder(df, keys, groups, g + 1);
    var rows := df[Start(df, keys, g)..Start(df, keys, g + 1)];
    assert IsGroup(df, keys[g], groups[g]);
    forall row <- groups[g] ensures row.equipment == keys[g] {
      GroupMember(df, keys[g], groups[g], row);
    }
    OrderedLabelsIff(c, df, groups[g], rows, Of(df, keys[g]), keys[g]);
  }

  /** The first m groups have the labels that the rows in their place should carry. */
  ghost predicate Agree(c: Config, df: seq<Row>, keys: seq<int>, groups: seq<seq<Row>>, m: nat) {
    m <= |keys| == |groups| && Start(df, keys, m) <= |df| &&
    OwnLabels(c, df, Flatten(groups[..m])) == OwnLabels(c, df, df[..Start(df, keys, m)])
  }

  lemma AgreeInitially(c: Config, df: seq<Row>, keys: seq<int>, groups: seq<seq<Row>>)
    requires |keys| == |groups|
    ensures Agree(c, df, keys, groups, 0)
  {
    assert groups[..0] == [] && df[..0] == [];
  }

  lemma NextBlock(c: Config, df: seq<Row>, keys: seq<int>, groups: seq<seq<Row>>, n: nat)
    requires Grouped(df, keys, groups) && n < |keys|
    ensures Agree(c, df, keys, groups, n + 1) <==> (Agree(c, df, keys, groups, n) && SameBlock(c, df, keys, groups, n))
  {
    StartInOrder(df, keys, groups, n);
    StartInOrder(df, keys, groups, n + 1);
    var p, q := Start(df, keys, n), Start(df, keys, n + 1);
    assert groups[..n + 1][..n] == groups[..n];
    assert df[..q] == df[..p] + df[p..q];
    OwnLabelsConcat(c, df, Flatten(groups[..n]), groups[n]);
    OwnLabelsConcat(c, df, df[..p], df[p..q]);
    SameParts(OwnLabels(c, df, Flatten(groups[..n])), OwnLabels(c, df, groups[n]),
              OwnLabels(c, df, df[..p]), OwnLabels(c, df, df[p..q]));
  }

  /** What starts true, and stays true exactly past the steps that are good, is true exactly if all were. */
  lemma {:induction false} StepByStep(stays: nat -> bool, good: nat -> bool, m: nat)
    requires stays(0) && forall n: nat :: n < m ==> (stays(n + 1) <==> stays(n) && good(n))
    ensures stays(m) <==> forall n: nat :: n < m ==> good(n)
  {
    if m > 0 {
      var n := m - 1;
      StepByStep(stays, good, n);
      assert stays(n + 1) <==> stays(n) && good(n);
    }
  }

  lemma {:induction false} EveryNextBlock(c: Config, df: seq<Row>, keys: seq<int>, groups: seq<seq<Row>>,
                                          stays: nat -> bool, good: nat -> bool, m: nat)
    requires Grouped(df, keys, groups) && m <= |keys|
    requires forall n: nat :: stays(n) == Agree(c, df, keys, groups, n)
    requires forall n: nat :: good(n) == SameBlock(c, df, keys, groups, n)
    ensures stays(0) && forall n: nat :: n < m ==> (stays(n + 1) <==> stays(n) && good(n))
  {
    AgreeInitially(c, df, keys, groups);
    forall n: nat | n < m ensures stays(n + 1) <==> stays(n) && good(n) {
      NextBlock(c, df, keys, groups, n);
    }
  }

  lemma {:induction false} SameUpTo(c: Config, df: seq<Row>, keys: seq<int>, groups: seq<seq<Row>>, m: nat)
    requires Grouped(df, keys, groups) && m <= |keys|
    ensures Agree(c, df, keys, groups, m) <==> forall g: nat :: g < m ==> SameBlock(c, df, keys, groups, g)
  {
    var stays := (n: nat) => Agree(c, df, keys, groups, n);
    var good := (n: nat) => SameBlock(c, df, keys, groups, n);
    EveryNextBlock(c, df, keys, groups, stays, good, m);
    StepByStep(stays, good, m);
    assert forall g: nat :: good(g) == SameBlock(c, df, keys, groups, g);
  }

  lemma SameParts<T>(a: seq<T>, b: seq<T>, a': seq<T>, b': seq<T>)
    requires |a| == |a'|
    ensures a + b == a' + b' <==> a == a' && b == b'
  {
    if a + b == a' + b' {
      assert (a + b)[..|a|] == a && (a' + b')[..|a'|] == a';
      assert (a + b)[|a|..] == b && (a' + b')[|a'|..] == b';
    }
  }

  /**
   For any number of equipment and in any configuration, the labels are right for every
   row if and only if the rows lying where each equipment's labels go carry exactly that
   equipment's labels, and these never rise.
  */
  lemma RightIffBlocksFit(c: Config, df: seq<Row>, keys: seq<int>, groups: seq<seq<Row>>, labelled: seq<Row>)
    requires Grouped(df, keys, groups) && Labels(c, df, groups, labelled)
    ensures RightlyLabelled(c, labelled) <==> forall g: nat :: g < |keys| ==> BlockFits(c, df, keys, g)
  {
    SameUpTo(c, df, keys, groups, |keys|);
    forall g: nat | g < |keys| ensures BlockFits(c, df, keys, g) <==> SameBlock(c, df, keys, groups, g) {
      BlockFitsIff(c, df, keys, groups, g);
    }
    StartInOrder(df, keys, groups, |keys|);
    assert groups[..|keys|] == groups && df[..|df|] == df;
    RightIffSameLabels(c, df, groups, labelled);
  }
}
