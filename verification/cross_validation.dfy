/** Leak-free cross-validation: splits by time, by equipment, and by both. */
module CrossValidation {
  import opened Arithmetic
  import opened Blocks

  /** Row numbers to train on and to test on. */
  datatype Fold = Fold(train: seq<int>, test: seq<int>)

  /** `np.arange(lo, hi)`. */
  function Range(lo: int, hi: int): seq<int> {
    seq(if lo <= hi then hi - lo else 0, k => lo + k)
  }

  lemma InRange(lo: int, hi: int, x: int)
    ensures x in Range(lo, hi) <==> lo <= x < hi
  {
    if lo <= x < hi {
      assert Range(lo, hi)[x - lo] == x;
    }
  }

  // ------------------------------------------------------------------ by time

  function TestSize(n: nat, nSplits: nat): nat {
    n / (nSplits + 1)
  }

  /** The fold number `i` would give, were it yielded. */
  function TimeFold(n: nat, nSplits: nat, gap: int, i: nat): Fold {
    var t := TestSize(n, nSplits);
    Fold(Range(0, (i + 1) * t - gap), Range((i + 1) * t, (i + 1) * t + t))
  }

  /** The number of folds whose training rows the gap swallows. */
  function Skipped(n: nat, nSplits: nat, gap: int): nat {
    var t := TestSize(n, nSplits);
    if gap < 0 then 0 else if t == 0 || gap / t > nSplits then nSplits else gap / t
  }

  /** The test block of every fold ends within the samples, so the second half of the guard never fires. */
  lemma TestsFit(n: nat, nSplits: nat, i: nat)
    requires i < nSplits
    ensures var t := TestSize(n, nSplits); (i + 1) * t + t <= n
  {
    var t := TestSize(n, nSplits);
    FloorBounds(n, nSplits + 1);
    MulMonotone(i + 2, nSplits + 1, t);
    MulSuccessor(i + 1, t);
  }

  /** Hardly anything stays untested behind the last block: fewer rows than there are blocks. */
  lemma BlocksFillUp(n: nat, nSplits: nat)
    ensures var t := TestSize(n, nSplits); (nSplits + 1) * t <= n < (nSplits + 1) * t + nSplits + 1
  {
    FloorBounds(n, nSplits + 1);
  }

  /** Fold `i` trains on every row before its test block less the gap, and tests the block, each row once. */
  lemma FoldRows(n: nat, nSplits: nat, gap: int, i: nat, r: int)
    ensures var f, t := TimeFold(n, nSplits, gap, i), TestSize(n, nSplits);
            (r in f.train <==> 0 <= r < (i + 1) * t - gap) &&
            (r in f.test <==> (i + 1) * t <= r < (i + 1) * t + t) &&
            Ascending(f.train) && Ascending(f.test)
  {
    var t := TestSize(n, nSplits);
    InRange(0, (i + 1) * t - gap, r);
    InRange((i + 1) * t, (i + 1) * t + t, r);
  }

  /** A fold has something to train on exactly when it comes after the skipped ones. */
  lemma YieldedAfterSkipped(n: nat, nSplits: nat, gap: int, i: nat)
    requires i < nSplits
    ensures (i + 1) * TestSize(n, nSplits) > gap <==> i >= Skipped(n, nSplits, gap)
  {
    var t := TestSize(n, nSplits);
    if t > 0 && gap >= 0 {
      FloorGalois(gap, t, i + 1);
    } else {
      MulMonotone(0, i + 1, t);
    }
  }

  /** The folds yielded are the last `nSplits - Skipped` ones, in order. */
  method TimeSeriesSplit(n: nat, nSplits: nat, gap: int) returns (folds: seq<Fold>)
    ensures |folds| == nSplits - Skipped(n, nSplits, gap)
    ensures forall k :: 0 <= k < |folds| ==> folds[k] == TimeFold(n, nSplits, gap, Skipped(n, nSplits, gap) + k)
  {
    folds := [];
    var testSize := n / (nSplits + 1);
    ghost var first := Skipped(n, nSplits, gap);
    for i := 0 to nSplits
      invariant |folds| == if i <= first then 0 else i - first
      invariant forall k :: 0 <= k < |folds| ==> folds[k] == TimeFold(n, nSplits, gap, first + k)
    {
      var testStart := (i + 1) * testSize;
      var testEnd := testStart + testSize;
      var trainEnd := testStart - gap;
      TestsFit(n, nSplits, i);
      YieldedAfterSkipped(n, nSplits, gap, i);
      if trainEnd <= 0 || testEnd > n {
        continue;
      }
      folds := folds + [Fold(Range(0, trainEnd), Range(testStart, testEnd))];
    }
  }

  /** Every training row plus the gap comes before every test row, and all rows tested exist. */
  lemma GapIsKept(n: nat, nSplits: nat, gap: int, i: nat, a: int, b: int)
    requires i < nSplits
    requires var f := TimeFold(n, nSplits, gap, i); a in f.train && b in f.test
    ensures a + gap < b && 0 <= b < n && 0 <= a
    ensures gap >= 0 ==> a < n
  {
    var t := TestSize(n, nSplits);
    InRange(0, (i + 1) * t - gap, a);
    InRange((i + 1) * t, (i + 1) * t + t, b);
    TestsFit(n, nSplits, i);
  }

  /** A fold that tests anything is free of overlap if and only if the gap is not negative. */
  lemma NoOverlapIffGap(n: nat, nSplits: nat, gap: int, i: nat)
    requires i < nSplits <= n - 1
    ensures var f := TimeFold(n, nSplits, gap, i);
            gap >= 0 <==> forall b <- f.test :: b !in f.train
  {
    var t := TestSize(n, nSplits);
    var f := TimeFold(n, nSplits, gap, i);
    FloorGalois(n, nSplits + 1, 1);
    MulMonotone(0, i + 1, t);
    InRange((i + 1) * t, (i + 1) * t + t, (i + 1) * t);
    InRange(0, (i + 1) * t - gap, (i + 1) * t);
    forall b <- f.test ensures gap >= 0 ==> b !in f.train {
      InRange(0, (i + 1) * t - gap, b);
      InRange((i + 1) * t, (i + 1) * t + t, b);
    }
  }

  function AllTests(folds: seq<Fold>): seq<int> {
    if folds == [] then [] else AllTests(folds[..|folds| - 1]) + folds[|folds| - 1].test
  }

  /** The test blocks of consecutive folds are consecutive: together they are one range, each row once. */
  lemma {:induction false} TestsAreOneBlock(n: nat, nSplits: nat, gap: int, first: nat, folds: seq<Fold>)
    requires forall k :: 0 <= k < |folds| ==> folds[k] == TimeFold(n, nSplits, gap, first + k)
    ensures var t := TestSize(n, nSplits); AllTests(folds) == Range((first + 1) * t, (first + 1 + |folds|) * t)
  {
    var t := TestSize(n, nSplits);
    if folds == [] {
    } else {
      var m := |folds| - 1;
      TestsAreOneBlock(n, nSplits, gap, first, folds[..m]);
      MulMonotone(first + 1, first + 1 + m, t);
      MulSuccessor(first + 1 + m, t);
      assert first + m + 1 == first + 1 + m;
    }
  }

  // ------------------------------------------------------------------ by equipment

  /** `np.where(np.isin(ids, group))[0]`. */
  function Where(ids: seq<string>, group: seq<string>): seq<int> {
    if ids == [] then [] else
    var n := |ids| - 1;
    if ids[n] in group then Where(ids[..n], group) + [n] else Where(ids[..n], group)
  }

  lemma {:induction false} WhereMember(ids: seq<string>, group: seq<string>, j: int)
    ensures j in Where(ids, group) <==> 0 <= j < |ids| && ids[j] in group
  {
    if ids != [] {
      WhereMember(ids[..|ids| - 1], group, j);
    }
  }

  ghost predicate Ascending(s: seq<int>) {
    forall a, b :: 0 <= a < b < |s| ==> s[a] < s[b]
  }

  /** The rows come in order, so none of them twice. */
  lemma {:induction false} WhereAscending(ids: seq<string>, group: seq<string>)
    ensures Ascending(Where(ids, group))
  {
    if ids != [] {
      var n := |ids| - 1;
      var before := Where(ids[..n], group);
      WhereAscending(ids[..n], group);
      forall a: nat | a < |before| ensures before[a] < n {
        WhereMember(ids[..n], group, before[a]);
      }
    }
  }

  /** `unique` lists every equipment of the data once; `shuffled` is any rearrangement of it. */
  ghost predicate Shuffle(ids: seq<string>, unique: seq<string>, shuffled: seq<string>) {
    (forall e: string :: e in ids <==> e in unique) && (forall e: string :: e in unique <==> e in shuffled) &&
    (forall a, b :: 0 <= a < b < |unique| ==> unique[a] != unique[b]) &&
    (forall a, b :: 0 <= a < b < |shuffled| ==> shuffled[a] != shuffled[b])
  }

  function TestEquipment(shuffled: seq<string>, nSplits: nat, i: nat): seq<string>
    requires i < nSplits
  {
    BlockWithin(|shuffled|, nSplits, i);
    shuffled[BlockStart(|shuffled|, nSplits, i)..BlockEnd(|shuffled|, nSplits, i)]
  }

  /** `np.setdiff1d`: the equipment not under test, in the order of `unique`. */
  function Others(unique: seq<string>, test: seq<string>): seq<string> {
    if unique == [] then [] else
    var before, e := Others(unique[..|unique| - 1], test), unique[|unique| - 1];
    if e in test then before else before + [e]
  }

  lemma {:induction false} OthersMember(unique: seq<string>, test: seq<string>, e: string)
    ensures e in Others(unique, test) <==> e in unique && e !in test
  {
    if unique != [] {
      OthersMember(unique[..|unique| - 1], test, e);
    }
  }

  function EquipmentFold(ids: seq<string>, unique: seq<string>, shuffled: seq<string>, nSplits: nat, i: nat): Fold
    requires i < nSplits
  {
    var test := TestEquipment(shuffled, nSplits, i);
    Fold(Where(ids, Others(unique, test)), Where(ids, test))
  }

  method EquipmentBasedSplit(ids: seq<string>, unique: seq<string>, shuffled: seq<string>, nSplits: nat)
    returns (folds: seq<Fold>)
    requires nSplits >= 1
    ensures |folds| == nSplits
    ensures forall i :: 0 <= i < nSplits ==> folds[i] == EquipmentFold(ids, unique, shuffled, nSplits, i)
  {
    folds := [];
    var nEquipment := |shuffled|;
    var foldSize := nEquipment / nSplits;
    for i := 0 to nSplits
      invariant |folds| == i
      invariant forall k :: 0 <= k < i ==> folds[k] == EquipmentFold(ids, unique, shuffled, nSplits, k)
    {
      BlockWithin(nEquipment, nSplits, i);
      var testEqStart := i * foldSize;
      var testEqEnd := if i < nSplits - 1 then testEqStart + foldSize else nEquipment;
      var testEquipment := shuffled[testEqStart..testEqEnd];
      var trainEquipment := Others(unique, testEquipment);
      folds := folds + [Fold(Where(ids, trainEquipment), Where(ids, testEquipment))];
    }
  }

  lemma InSlice(s: seq<string>, p: nat, lo: nat, hi: nat)
    requires p < |s| && lo <= hi <= |s|
    requires forall a, b :: 0 <= a < b < |s| ==> s[a] != s[b]
    ensures s[p] in s[lo..hi] <==> lo <= p < hi
  {
    if lo <= p < hi {
      assert s[lo..hi][p - lo] == s[p];
    }
  }

  /**
   Every equipment is under test in exactly one fold, whatever the shuffle and however
   many folds there are.
  */
  lemma TestedInOneFold(ids: seq<string>, unique: seq<string>, shuffled: seq<string>, nSplits: nat, e: string)
    returns (fold: nat)
    requires nSplits >= 1 && Shuffle(ids, unique, shuffled) && e in ids
    ensures fold < nSplits
    ensures forall i :: 0 <= i < nSplits ==> (e in TestEquipment(shuffled, nSplits, i) <==> i == fold)
  {
    var p: nat :| p < |shuffled| && shuffled[p] == e;
    fold := BlockOf(|shuffled|, nSplits, p);
    forall i: nat | i < nSplits ensures e in TestEquipment(shuffled, nSplits, i) <==> i == fold {
      BlockWithin(|shuffled|, nSplits, i);
      InSlice(shuffled, p, BlockStart(|shuffled|, nSplits, i), BlockEnd(|shuffled|, nSplits, i));
      OneBlockPerPosition(|shuffled|, nSplits, p, i);
    }
  }

  /** In every fold each row is on exactly one side, and the side is decided by its equipment alone. */
  lemma TrainIsComplement(ids: seq<string>, unique: seq<string>, shuffled: seq<string>, nSplits: nat, i: nat, j: int)
    requires i < nSplits && Shuffle(ids, unique, shuffled) && 0 <= j < |ids|
    ensures var f := EquipmentFold(ids, unique, shuffled, nSplits, i);
            (j in f.test <==> ids[j] in TestEquipment(shuffled, nSplits, i)) && (j in f.train <==> j !in f.test)
  {
    var test := TestEquipment(shuffled, nSplits, i);
    WhereMember(ids, test, j);
    WhereMember(ids, Others(unique, test), j);
    OthersMember(unique, test, ids[j]);
    assert ids[j] in ids;
  }

  /** Every row is tested in exactly one fold and trained on in all the others. */
  lemma SampleTestedOnce(ids: seq<string>, unique: seq<string>, shuffled: seq<string>, nSplits: nat, j: nat)
    returns (fold: nat)
    requires nSplits >= 1 && Shuffle(ids, unique, shuffled) && j < |ids|
    ensures fold < nSplits
    ensures forall i :: 0 <= i < nSplits ==>
              var f := EquipmentFold(ids, unique, shuffled, nSplits, i);
              (j in f.test <==> i == fold) && (j in f.train <==> i != fold)
  {
    assert ids[j] in ids;
    fold := TestedInOneFold(ids, unique, shuffled, nSplits, ids[j]);
    forall i: nat | i < nSplits
      ensures var f := EquipmentFold(ids, unique, shuffled, nSplits, i);
              (j in f.test <==> i == fold) && (j in f.train <==> i != fold)
    {
      TrainIsComplement(ids, unique, shuffled, nSplits, i, j);
    }
  }

  // ------------------------------------------------------------------ by equipment, then by time

  /** `order` lists one equipment's rows by cycle, ties in any order. */
  ghost predicate CycleOrder(ids: seq<string>, cycles: seq<int>, e: string, order: seq<int>)
    requires |cycles| == |ids|
  {
    (forall j: int :: j in order <==> 0 <= j < |ids| && ids[j] == e) &&
    (forall a, b :: 0 <= a < b < |order| ==> order[a] != order[b]) &&
    (forall a, b :: 0 <= a < b < |order| && 0 <= order[a] < |ids| && 0 <= order[b] < |ids| ==>
       cycles[order[a]] <= cycles[order[b]])
  }

  /** The first four fifths, rounded down. */
  function Earlier(order: seq<int>): seq<int> {
    order[..|order| * 4 / 5]
  }

  /** Which is the whole part of 0.8 times their number. */
  lemma EarlierIsFourFifths(order: seq<int>)
    ensures |Earlier(order)| == (|order| as real * 0.8).Floor
  {
    var n := |order|;
    var q := n * 4 / 5;
    assert 5 * q <= n * 4 < 5 * q + 5;
    assert q as real <= n as real * 0.8 < q as real + 1.0;
  }

  function TrainRows(sorted: map<string, seq<int>>, train: seq<string>): seq<int> {
    if train == [] then [] else
    var before, e := TrainRows(sorted, train[..|train| - 1]), train[|train| - 1];
    if e in sorted then before + Earlier(sorted[e]) else before
  }

  function TestRows(ids: seq<string>, test: seq<string>): seq<int> {
    if test == [] then [] else TestRows(ids, test[..|test| - 1]) + Where(ids, [test[|test| - 1]])
  }

  function CombinedFold(ids: seq<string>, unique: seq<string>, shuffled: seq<string>, sorted: map<string, seq<int>>,
                        nSplits: nat, i: nat): Fold
    requires i < nSplits
  {
    var test := TestEquipment(shuffled, nSplits, i);
    Fold(TrainRows(sorted, Others(unique, test)), TestRows(ids, test))
  }

  /** The two inner loops of `combined_split`; `sorted` holds what `argsort` makes of each equipment's cycles. */
  method CollectRows(ids: seq<string>, sorted: map<string, seq<int>>, train: seq<string>, test: seq<string>)
    returns (fold: Fold)
    requires forall e <- train :: e in sorted
    ensures fold == Fold(TrainRows(sorted, train), TestRows(ids, test))
  {
    var trainIndices, testIndices: seq<int> := [], [];
    for k := 0 to |train|
      invariant trainIndices == TrainRows(sorted, train[..k])
    {
      assert train[..k + 1][..k] == train[..k];
      var sortedIdx := sorted[train[k]];
      var splitPoint := |sortedIdx| * 4 / 5;
      trainIndices := trainIndices + sortedIdx[..splitPoint];
    }
    for k := 0 to |test|
      invariant testIndices == TestRows(ids, test[..k])
    {
      assert test[..k + 1][..k] == test[..k];
      testIndices := testIndices + Where(ids, [test[k]]);
    }
    assert train[..|train|] == train && test[..|test|] == test;
    fold := Fold(trainIndices, testIndices);
  }

  method CombinedSplit(ids: seq<string>, unique: seq<string>, shuffled: seq<string>, sorted: map<string, seq<int>>,
                       nSplits: nat) returns (folds: seq<Fold>)
    requires nSplits >= 1 && forall e <- unique :: e in sorted
    ensures |folds| == nSplits
    ensures forall i :: 0 <= i < nSplits ==> folds[i] == CombinedFold(ids, unique, shuffled, sorted, nSplits, i)
  {
    folds := [];
    var nEquipment := |shuffled|;
    var foldSize := nEquipment / nSplits;
    for i := 0 to nSplits
      invariant |folds| == i
      invariant forall k :: 0 <= k < i ==> folds[k] == CombinedFold(ids, unique, shuffled, sorted, nSplits, k)
    {
      BlockWithin(nEquipment, nSplits, i);
      var testEqStart := i * foldSize;
      var testEqEnd := if i < nSplits - 1 then testEqStart + foldSize else nEquipment;
      var testEquipment := shuffled[testEqStart..testEqEnd];
      var trainEquipment := Others(unique, testEquipment);
      forall e <- trainEquipment ensures e in sorted {
        OthersMember(unique, testEquipment, e);
      }
      var fold := CollectRows(ids, sorted, trainEquipment, testEquipment);
      folds := folds + [fold];
    }
  }

  lemma {:induction false} TestRowsMember(ids: seq<string>, test: seq<string>, j: int)
    ensures j in TestRows(ids, test) <==> 0 <= j < |ids| && ids[j] in test
  {
    if test != [] {
      var e := test[|test| - 1];
      TestRowsMember(ids, test[..|test| - 1], j);
      WhereMember(ids, [e], j);
      assert 0 <= j < |ids| ==> (ids[j] in test <==> ids[j] in test[..|test| - 1] || ids[j] == e);
    }
  }

  lemma {:induction false} TrainRowsMember(ids: seq<string>, cycles: seq<int>, sorted: map<string, seq<int>>,
                                           train: seq<string>, j: int)
    requires |cycles| == |ids| && forall e <- train :: e in sorted && CycleOrder(ids, cycles, e, sorted[e])
    ensures j in TrainRows(sorted, train) <==>
              0 <= j < |ids| && ids[j] in train && j in Earlier(sorted[ids[j]])
  {
    if train != [] {
      var e := train[|train| - 1];
      TrainRowsMember(ids, cycles, sorted, train[..|train| - 1], j);
      assert e in train;
      if j in Earlier(sorted[e]) {
        assert j in sorted[e];
      }
      assert 0 <= j < |ids| ==> (ids[j] in train <==> ids[j] in train[..|train| - 1] || ids[j] == e);
    }
  }

  lemma InPrefix(order: seq<int>, n: nat, b: nat)
    requires b < |order| && n <= |order|
    ensures b < n ==> order[b] in order[..n]
  {
    if b < n {
      assert order[..n][b] == order[b];
    }
  }

  /** Within one equipment, what is kept for training is never later than what is left out. */
  lemma EarlierIsPrefix(ids: seq<string>, cycles: seq<int>, e: string, order: seq<int>, j: nat, later: nat)
    requires |cycles| == |ids| && CycleOrder(ids, cycles, e, order)
    requires later < |ids| && ids[later] == e && j in Earlier(order) && later !in Earlier(order)
    ensures j < |ids| && cycles[j] <= cycles[later]
  {
    var n := |order| * 4 / 5;
    var a: nat :| a < n && order[a] == j;
    assert later in order;
    var b: nat :| b < |order| && order[b] == later;
    InPrefix(order, n, b);
    assert order[a] in order;
  }

  /**
   In every fold of the combined split: a row is tested exactly when its equipment is
   under test; no equipment is on both sides; and each training equipment contributes the
   first four fifths of its rows in cycle order, so no row left out is earlier than one kept.
  */
  lemma NoLeakage(ids: seq<string>, cycles: seq<int>, unique: seq<string>, shuffled: seq<string>,
                  sorted: map<string, seq<int>>, nSplits: nat, i: nat, j: nat, later: nat)
    requires i < nSplits && |cycles| == |ids| && Shuffle(ids, unique, shuffled) && j < |ids| && later < |ids|
    requires forall e <- unique :: e in sorted && CycleOrder(ids, cycles, e, sorted[e])
    ensures var f := CombinedFold(ids, unique, shuffled, sorted, nSplits, i);
            (j in f.test <==> ids[j] in TestEquipment(shuffled, nSplits, i)) &&
            (j in f.train <==>
              (ids[j] !in TestEquipment(shuffled, nSplits, i) && ids[j] in sorted && j in Earlier(sorted[ids[j]]))) &&
            (j in f.train && later !in f.train && ids[later] == ids[j] ==> cycles[j] <= cycles[later])
  {
    var test := TestEquipment(shuffled, nSplits, i);
    var train := Others(unique, test);
    forall e <- train ensures e in unique {
      OthersMember(unique, test, e);
    }
    assert ids[j] in ids;
    OthersMember(unique, test, ids[j]);
    TestRowsMember(ids, test, j);
    TrainRowsMember(ids, cycles, sorted, train, j);
    TrainRowsMember(ids, cycles, sorted, train, later);
    if j in TrainRows(sorted, train) && later !in TrainRows(sorted, train) && ids[later] == ids[j] {
      EarlierIsPrefix(ids, cycles, ids[j], sorted[ids[j]], j, later);
    }
  }
}
