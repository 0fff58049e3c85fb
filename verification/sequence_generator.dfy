/** Sliding windows over each equipment's rows, the training input of the sequence models. */
module SequenceGenerator {
  import opened Arithmetic
  import opened Blocks
  import opened Common
  import opened Frames
  import opened LabelGenerator

  /** One training sample: a run of rows and the target of the last of them. */
  datatype Window = Window(rows: seq<Row>, target: Option<int>)

  function WindowAt(rows: seq<Row>, length: nat, start: nat): Window
    requires length >= 1 && start + length <= |rows|
  {
    Window(rows[start..start + length], rows[start + length - 1].rul)
  }

  function GroupWindows(group: seq<Row>, length: nat, stride: nat): seq<Window>
    requires length >= 1 && stride >= 1
  {
    seq(StepCount(|group|, length, stride), j requires 0 <= j < StepCount(|group|, length, stride) =>
      (StepFits(|group|, length, stride, j); WindowAt(group, length, j * stride)))
  }

  /** `generate_sequences`: the loop yields the closed-form number of windows. */
  method GenerateSequences(rows: seq<Row>, length: nat, stride: nat) returns (windows: seq<Window>)
    requires length >= 1 && stride >= 1
    ensures windows == GroupWindows(rows, length, stride)
  {
    windows := [];
    var i := 0;
    ghost var k := 0;
    StepFits(|rows|, length, stride, 0);
    while i < |rows| - length + 1
      invariant i == k * stride && |windows| == k <= StepCount(|rows|, length, stride)
      invariant k < StepCount(|rows|, length, stride) <==> i + length <= |rows|
      invariant forall j :: 0 <= j < k ==> windows[j] == GroupWindows(rows, length, stride)[j]
    {
      windows := windows + [WindowAt(rows, length, i)];
      MulSuccessor(k, stride);
      i := i + stride;
      k := k + 1;
      StepFits(|rows|, length, stride, k);
    }
  }

  /** Row `i` of window `j` is row `j * stride + i` of the equipment, and the last row gives the target. */
  lemma WindowRows(rows: seq<Row>, length: nat, stride: nat, j: nat, i: nat)
    requires length >= 1 && stride >= 1 && i < length
    ensures j < |GroupWindows(rows, length, stride)| <==> j * stride + length <= |rows|
    ensures j < |GroupWindows(rows, length, stride)| ==>
              var w := GroupWindows(rows, length, stride)[j];
              0 <= j * stride && |w.rows| == length && w.rows[i] == rows[j * stride + i] &&
              w.target == rows[j * stride + length - 1].rul
  {
    StepFits(|rows|, length, stride, j);
  }

  function AllWindows(groups: seq<seq<Row>>, length: nat, stride: nat): seq<Window>
    requires length >= 1 && stride >= 1
  {
    if groups == [] then [] else
    AllWindows(groups[..|groups| - 1], length, stride) + GroupWindows(groups[|groups| - 1], length, stride)
  }

  /** The equipment of each window. */
  function AllIds(keys: seq<int>, groups: seq<seq<Row>>, length: nat, stride: nat): seq<int>
    requires length >= 1 && stride >= 1 && |keys| == |groups|
  {
    if groups == [] then [] else
    var n := |groups| - 1;
    AllIds(keys[..n], groups[..n], length, stride) + seq(StepCount(|groups[n]|, length, stride), _ => keys[n])
  }

  /** `generate_sequences_per_equipment`. */
  method GeneratePerEquipment(keys: seq<int>, groups: seq<seq<Row>>, length: nat, stride: nat)
    returns (windows: seq<Window>, ids: seq<int>)
    requires length >= 1 && stride >= 1 && |keys| == |groups|
    ensures windows == AllWindows(groups, length, stride) && ids == AllIds(keys, groups, length, stride)
  {
    windows, ids := [], [];
    for g := 0 to |groups|
      invariant windows == AllWindows(groups[..g], length, stride)
      invariant ids == AllIds(keys[..g], groups[..g], length, stride)
    {
      assert groups[..g + 1][..g] == groups[..g] && keys[..g + 1][..g] == keys[..g];
      var group := groups[g];
      if |group| >= length {
        var x := GenerateSequences(group, length, stride);
        windows := windows + x;
        ids := ids + seq(|x|, _ => keys[g]);
      } else {
        assert GroupWindows(group, length, stride) == [];
      }
    }
    assert groups[..|groups|] == groups && keys[..|keys|] == keys;
  }

  // ------------------------------------------------------------------ what the windows hold

  lemma {:induction false} WindowAndId(keys: seq<int>, groups: seq<seq<Row>>, length: nat, stride: nat, k: nat)
    returns (g: nat, j: nat)
    requires length >= 1 && stride >= 1 && |keys| == |groups| && k < |AllWindows(groups, length, stride)|
    ensures |AllIds(keys, groups, length, stride)| == |AllWindows(groups, length, stride)|
    ensures g < |groups| && j < StepCount(|groups[g]|, length, stride)
    ensures AllIds(keys, groups, length, stride)[k] == keys[g]
    ensures AllWindows(groups, length, stride)[k] == GroupWindows(groups[g], length, stride)[j]
  {
    var n := |groups| - 1;
    var before := |AllWindows(groups[..n], length, stride)|;
    SameLength(keys[..n], groups[..n], length, stride);
    if k < before {
      g, j := WindowAndId(keys[..n], groups[..n], length, stride, k);
    } else {
      g, j := n, k - before;
    }
  }

  lemma {:induction false} SameLength(keys: seq<int>, groups: seq<seq<Row>>, length: nat, stride: nat)
    requires length >= 1 && stride >= 1 && |keys| == |groups|
    ensures |AllIds(keys, groups, length, stride)| == |AllWindows(groups, length, stride)|
  {
    if groups != [] {
      SameLength(keys[..|groups| - 1], groups[..|groups| - 1], length, stride);
    }
  }

  /** A window lies within one equipment, in cycle order, and is labelled by its last row. */
  ghost predicate WithinOne(df: seq<Row>, w: Window, e: int, length: nat) {
    |w.rows| == length >= 1 && CycleSorted(w.rows) && w.target == w.rows[length - 1].rul &&
    forall row <- w.rows :: row in df && row.equipment == e
  }

  lemma WindowsWithinOne(df: seq<Row>, keys: seq<int>, groups: seq<seq<Row>>, length: nat, stride: nat, k: nat)
    requires length >= 1 && stride >= 1 && Grouped(df, keys, groups) && k < |AllWindows(groups, length, stride)|
    ensures |AllIds(keys, groups, length, stride)| == |AllWindows(groups, length, stride)|
    ensures WithinOne(df, AllWindows(groups, length, stride)[k], AllIds(keys, groups, length, stride)[k], length)
  {
    var g, j := WindowAndId(keys, groups, length, stride, k);
    StepFits(|groups[g]|, length, stride, j);
    var w := GroupWindows(groups[g], length, stride)[j];
    assert IsGroup(df, keys[g], groups[g]);
    forall row <- w.rows ensures row in df && row.equipment == keys[g] {
      assert row in groups[g];
      GroupMember(df, keys[g], groups[g], row);
    }
  }

  ghost predicate RunOfCycles(rows: seq<Row>) {
    forall i :: 0 <= i < |rows| ==> rows[i].cycle == rows[0].cycle + i
  }

  lemma GroupIsRun(c: Config, df: seq<Row>, e: int, group: seq<Row>)
    requires IsGroup(df, e, group) && Sorted(df) && Consecutive(df) && RightlyLabelled(c, df)
    ensures RunOfCycles(group)
  {
    forall i: nat | i < |group| ensures group[i].cycle == group[0].cycle + i {
      GroupInherits(c, df, e, group, i);
    }
  }

  lemma RunOfSlice(rows: seq<Row>, start: nat, end: nat)
    requires RunOfCycles(rows) && start <= end <= |rows|
    ensures RunOfCycles(rows[start..end])
  {
  }

  /**
   On a labelled frame, sorted and with consecutive cycles, every window is a run of
   consecutive cycles of one equipment and its target is the label of its last cycle.
  */
  lemma WindowTargets(c: Config, df: seq<Row>, keys: seq<int>, groups: seq<seq<Row>>, length: nat, stride: nat, k: nat)
    requires length >= 1 && stride >= 1 && Grouped(df, keys, groups) && k < |AllWindows(groups, length, stride)|
    requires Sorted(df) && Consecutive(df) && RightlyLabelled(c, df)
    ensures |AllIds(keys, groups, length, stride)| == |AllWindows(groups, length, stride)|
    ensures var w, e := AllWindows(groups, length, stride)[k], AllIds(keys, groups, length, stride)[k];
            WithinOne(df, w, e, length) && RunOfCycles(w.rows) &&
            w.target == Label(c, LastCycle(Of(df, e)), w.rows[length - 1].cycle)
  {
    WindowsWithinOne(df, keys, groups, length, stride, k);
    var g, j := WindowAndId(keys, groups, length, stride, k);
    StepFits(|groups[g]|, length, stride, j);
    GroupIsRun(c, df, keys[g], groups[g]);
    RunOfSlice(groups[g], j * stride, j * stride + length);
    GroupInherits(c, df, keys[g], groups[g], j * stride + length - 1);
  }

  /** The windows an equipment gives, summed over the equipment of the frame. */
  function WindowTotal(df: seq<Row>, keys: seq<int>, length: nat, stride: nat): nat
    requires stride >= 1
  {
    if keys == [] then 0 else
    WindowTotal(df, keys[..|keys| - 1], length, stride) + StepCount(|Of(df, keys[|keys| - 1])|, length, stride)
  }

  lemma GroupSize(df: seq<Row>, e: int, group: seq<Row>)
    requires IsGroup(df, e, group)
    ensures |group| == |Of(df, e)|
  {
    assert |multiset(group)| == |multiset(Of(df, e))|;
  }

  lemma {:induction false} WindowsCounted(df: seq<Row>, keys: seq<int>, groups: seq<seq<Row>>, m: nat, length: nat,
                                          stride: nat)
    requires length >= 1 && stride >= 1 && Grouped(df, keys, groups) && m <= |groups|
    ensures |AllWindows(groups[..m], length, stride)| == WindowTotal(df, keys[..m], length, stride)
  {
    if m > 0 {
      var n := m - 1;
      WindowsCounted(df, keys, groups, n, length, stride);
      assert groups[..m][..n] == groups[..n] && keys[..m][..n] == keys[..n];
      GroupSize(df, keys[n], groups[n]);
    }
  }
}
