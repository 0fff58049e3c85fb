/** Train, validation and test sets, split by equipment or by cycle. */
module DatasetSplitter {
  import opened Common
  import opened Frames

  datatype Split = Split(train: seq<Row>, val: seq<Row>, test: seq<Row>)

  /** The boolean masks that rows are selected by. */
  datatype Mask = UpTo(last: int) | After(first: int) | Within(first: int, last: int) | AmongEquipment(ids: seq<int>)

  predicate Holds(mask: Mask, row: Row) {
    match mask
    case UpTo(last) => row.cycle <= last
    case After(first) => row.cycle > first
    case Within(first, last) => row.cycle > first && row.cycle <= last
    case AmongEquipment(ids) => row.equipment in ids
  }

  /** `df[mask]`. */
  function Select(df: seq<Row>, mask: Mask): seq<Row> {
    if df == [] then [] else
    var before, row := Select(df[..|df| - 1], mask), df[|df| - 1];
    if Holds(mask, row) then before + [row] else before
  }

  lemma {:induction false} SelectMember(df: seq<Row>, mask: Mask, row: Row)
    ensures row in Select(df, mask) <==> row in df && Holds(mask, row)
  {
    if df != [] {
      SelectMember(df[..|df| - 1], mask, row);
      assert row in df <==> row in df[..|df| - 1] || row == df[|df| - 1];
    }
  }

  // ------------------------------------------------------------------ by cycle

  function SplitByTime(df: seq<Row>, trainEnd: int, valEnd: int): Split {
    Split(Select(df, UpTo(trainEnd)),
          Select(df, Within(trainEnd, valEnd)),
          Select(df, After(valEnd)))
  }

  /** Every row goes to the part its cycle says. */
  lemma TimeSplitExactly(df: seq<Row>, trainEnd: int, valEnd: int, row: Row)
    requires row in df
    ensures var s := SplitByTime(df, trainEnd, valEnd);
            (row in s.train <==> row.cycle <= trainEnd) &&
            (row in s.val <==> trainEnd < row.cycle <= valEnd) &&
            (row in s.test <==> row.cycle > valEnd)
  {
    SelectMember(df, UpTo(trainEnd), row);
    SelectMember(df, Within(trainEnd, valEnd), row);
    SelectMember(df, After(valEnd), row);
  }

  /** Rows that fall in both the training and the test set. */
  function Repeated(df: seq<Row>, trainEnd: int, valEnd: int): seq<Row> {
    Select(df, Within(valEnd, trainEnd))
  }

  /** The three parts together hold every row once, and the repeated ones twice. */
  lemma {:induction false} TimeSplitCounts(df: seq<Row>, trainEnd: int, valEnd: int)
    ensures var s := SplitByTime(df, trainEnd, valEnd);
            |s.train| + |s.val| + |s.test| == |df| + |Repeated(df, trainEnd, valEnd)|
  {
    if df != [] { TimeSplitCounts(df[..|df| - 1], trainEnd, valEnd); }
  }

  /** In a given frame exactly the rows after the validation end and up to the training end leak. */
  lemma TimeSplitLeaks(df: seq<Row>, trainEnd: int, valEnd: int, row: Row)
    requires row in df
    ensures var s := SplitByTime(df, trainEnd, valEnd);
            row in s.train && row in s.test <==> valEnd < row.cycle <= trainEnd
  {
    SelectMember(df, UpTo(trainEnd), row);
    SelectMember(df, After(valEnd), row);
  }

  /**
   The split by cycle keeps every frame's training rows out of its test set if and only if
   training does not end after validation; otherwise one row at the training end leaks.
  */
  lemma TimeSplitLeaksIff(trainEnd: int, valEnd: int)
    ensures (forall df: seq<Row>, row: Row ::
               row in SplitByTime(df, trainEnd, valEnd).test ==> row !in SplitByTime(df, trainEnd, valEnd).train) <==>
            trainEnd <= valEnd
  {
    forall df: seq<Row>, row: Row | row in SplitByTime(df, trainEnd, valEnd).test && trainEnd <= valEnd
      ensures row !in SplitByTime(df, trainEnd, valEnd).train
    {
      SelectMember(df, After(valEnd), row);
      TimeSplitLeaks(df, trainEnd, valEnd, row);
    }
    if trainEnd > valEnd {
      var row := Row(0, trainEnd, None);
      TimeSplitLeaks([row], trainEnd, valEnd, row);
      assert row in SplitByTime([row], trainEnd, valEnd).test;
    }
  }

  // ------------------------------------------------------------------ by equipment

  function Capped(k: int, n: nat): nat {
    if k < 0 then 0 else if k > n then n else k
  }

  /** Where the training and the validation equipment end in the shuffled list, as slicing sees it. */
  function Cuts(n: nat, trainRatio: real, valRatio: real): (cuts: (nat, nat))
    requires trainRatio >= 0.0 && valRatio >= 0.0
    ensures cuts.0 <= cuts.1 <= n
  {
    var nTrain, nVal := (n as real * trainRatio).Floor, (n as real * valRatio).Floor;
    (Capped(nTrain, n), Capped(nTrain + nVal, n))
  }

  lemma SharesFit(size: real, x: real, y: real)
    requires size >= 0.0 && x >= 0.0 && y >= 0.0 && x + y <= 1.0
    ensures size * x >= 0.0 && size * y >= 0.0 && size * x + size * y <= size
  {
    assert size * x + size * y == size * (x + y);
    assert size * (1.0 - (x + y)) >= 0.0;
  }

  lemma CappedFits(x: real, y: real, n: nat)
    requires x >= 0.0 && y >= 0.0 && x + y <= n as real
    ensures Capped(x.Floor, n) == x.Floor && Capped(x.Floor + y.Floor, n) == x.Floor + y.Floor
  {
  }

  /** With ratios that add up to at most one, the parts get their shares of the equipment, rounded down. */
  lemma CutsExactly(n: nat, trainRatio: real, valRatio: real)
    requires trainRatio >= 0.0 && valRatio >= 0.0 && trainRatio + valRatio <= 1.0
    ensures var cuts := Cuts(n, trainRatio, valRatio);
            cuts.0 == (n as real * trainRatio).Floor && cuts.1 - cuts.0 == (n as real * valRatio).Floor
  {
    var x, y := n as real * trainRatio, n as real * valRatio;
    SharesFit(n as real, trainRatio, valRatio);
    CappedFits(x, y, n);
    assert Cuts(n, trainRatio, valRatio) == (Capped(x.Floor, n), Capped(x.Floor + y.Floor, n));
  }

  function SplitByEquipment(df: seq<Row>, shuffled: seq<int>, trainRatio: real, valRatio: real): Split
    requires trainRatio >= 0.0 && valRatio >= 0.0
  {
    var cuts := Cuts(|shuffled|, trainRatio, valRatio);
    var trainIds, valIds, testIds := shuffled[..cuts.0], shuffled[cuts.0..cuts.1], shuffled[cuts.1..];
    Split(Select(df, AmongEquipment(trainIds)), Select(df, AmongEquipment(valIds)),
          Select(df, AmongEquipment(testIds)))
  }

  /** The training part has the equipment in front of the first cut, and the test part those behind the second. */
  lemma PartsExactly(df: seq<Row>, shuffled: seq<int>, trainRatio: real, valRatio: real, row: Row)
    requires trainRatio >= 0.0 && valRatio >= 0.0 && row in df
    ensures var s, cuts := SplitByEquipment(df, shuffled, trainRatio, valRatio), Cuts(|shuffled|, trainRatio, valRatio);
            (row in s.train <==> row.equipment in shuffled[..cuts.0]) &&
            (row in s.val <==> row.equipment in shuffled[cuts.0..cuts.1]) &&
            (row in s.test <==> row.equipment in shuffled[cuts.1..])
  {
    var cuts := Cuts(|shuffled|, trainRatio, valRatio);
    SelectMember(df, AmongEquipment(shuffled[..cuts.0]), row);
    SelectMember(df, AmongEquipment(shuffled[cuts.0..cuts.1]), row);
    SelectMember(df, AmongEquipment(shuffled[cuts.1..]), row);
  }

  lemma InOneSlice(shuffled: seq<int>, a: nat, b: nat, e: int)
    requires a <= b <= |shuffled| && e in shuffled
    requires forall i, j :: 0 <= i < j < |shuffled| ==> shuffled[i] != shuffled[j]
    ensures e in shuffled[..a] <==> e !in shuffled[a..b] && e !in shuffled[b..]
    ensures !(e in shuffled[a..b] && e in shuffled[b..])
  {
    var p: nat :| p < |shuffled| && shuffled[p] == e;
    if p < a {
      assert shuffled[..a][p] == e;
    } else if p < b {
      assert shuffled[a..b][p - a] == e;
    } else {
      assert shuffled[b..][p - b] == e;
    }
  }

  /** The one part a row belongs to. */
  predicate InOnePart(s: Split, row: Row) {
    (row in s.train || row in s.val || row in s.test) &&
    !(row in s.train && row in s.val) && !(row in s.train && row in s.test) && !(row in s.val && row in s.test)
  }

  /** Whatever the shuffle and the ratios, every row is in exactly one part, and so are all rows of its equipment. */
  lemma EquipmentSplitIsPartition(df: seq<Row>, shuffled: seq<int>, trainRatio: real, valRatio: real,
                                  row: Row, other: Row)
    requires trainRatio >= 0.0 && valRatio >= 0.0 && row in df && row.equipment in shuffled
    requires other in df && other.equipment == row.equipment
    requires forall i, j :: 0 <= i < j < |shuffled| ==> shuffled[i] != shuffled[j]
    ensures var s := SplitByEquipment(df, shuffled, trainRatio, valRatio);
            InOnePart(s, row) && (row in s.train <==> other in s.train) && (row in s.val <==> other in s.val) &&
            (row in s.test <==> other in s.test)
  {
    var cuts := Cuts(|shuffled|, trainRatio, valRatio);
    var trainIds, valIds, testIds := shuffled[..cuts.0], shuffled[cuts.0..cuts.1], shuffled[cuts.1..];
    InOneSlice(shuffled, cuts.0, cuts.1, row.equipment);
    forall r: Row | r in {row, other}
      ensures r in Select(df, AmongEquipment(trainIds)) <==> r.equipment in trainIds
      ensures r in Select(df, AmongEquipment(valIds)) <==> r.equipment in valIds
      ensures r in Select(df, AmongEquipment(testIds)) <==> r.equipment in testIds
    {
      SelectMember(df, AmongEquipment(trainIds), r);
      SelectMember(df, AmongEquipment(valIds), r);
      SelectMember(df, AmongEquipment(testIds), r);
    }
  }
}
