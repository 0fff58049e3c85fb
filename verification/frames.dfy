/** Data frames with an equipment and a cycle column, and what grouping one does to the order of its rows. */
module Frames {
  import opened Common

  /** One row; equipment identifiers are represented by their rank in sorted order. */
  datatype Row = Row(equipment: int, cycle: int, rul: Option<int>)

  function Of(df: seq<Row>, e: int): seq<Row> {
    if df == [] then [] else
    var before, row := Of(df[..|df| - 1], e), df[|df| - 1];
    if row.equipment == e then before + [row] else before
  }

  ghost predicate CycleSorted(s: seq<Row>) {
    forall a, b :: 0 <= a < b < |s| ==> s[a].cycle <= s[b].cycle
  }

  /** Sorted by equipment, then by cycle. */
  predicate Before(r: Row, s: Row) {
    r.equipment < s.equipment || (r.equipment == s.equipment && r.cycle <= s.cycle)
  }

  ghost predicate Sorted(df: seq<Row>) {
    forall a, b :: 0 <= a < b < |df| ==> Before(df[a], df[b])
  }

  /** One group, sorted by cycle, with ties in whatever order the sort leaves them. */
  ghost predicate IsGroup(df: seq<Row>, e: int, group: seq<Row>) {
    group != [] && CycleSorted(group) && multiset(group) == multiset(Of(df, e))
  }

  /** What `groupby` followed by `sort_values` may deliver: one group per equipment, by ascending identifier. */
  ghost predicate Grouped(df: seq<Row>, keys: seq<int>, groups: seq<seq<Row>>) {
    |keys| == |groups| &&
    Ascending(keys) &&
    (forall row <- df :: row.equipment in keys) &&
    (forall g :: 0 <= g < |keys| ==> IsGroup(df, keys[g], groups[g]))
  }

  function Flatten(groups: seq<seq<Row>>): seq<Row> {
    if groups == [] then [] else Flatten(groups[..|groups| - 1]) + groups[|groups| - 1]
  }

  ghost predicate SameKeys(s: seq<Row>, t: seq<Row>) {
    |s| == |t| && forall k :: 0 <= k < |s| ==> s[k].equipment == t[k].equipment && s[k].cycle == t[k].cycle
  }

  // ------------------------------------------------------------------ a group and its rows

  lemma {:induction false} OfMember(df: seq<Row>, e: int, row: Row)
    ensures row in Of(df, e) <==> row in df && row.equipment == e
  {
    if df != [] {
      OfMember(df[..|df| - 1], e, row);
      assert row in df <==> row in df[..|df| - 1] || row == df[|df| - 1];
    }
  }

  lemma GroupMember(df: seq<Row>, e: int, group: seq<Row>, row: Row)
    requires IsGroup(df, e, group)
    ensures row in group <==> row in df && row.equipment == e
  {
    OfMember(df, e, row);
    assert row in group <==> row in multiset(group);
    assert row in Of(df, e) <==> row in multiset(Of(df, e));
  }

  /** How many rows have cycle `c`. */
  function CountAt(s: seq<Row>, c: int): nat {
    if s == [] then 0 else
    var before := CountAt(s[..|s| - 1], c);
    if s[|s| - 1].cycle == c then before + 1 else before
  }

  lemma {:induction false} CountConcat(s: seq<Row>, t: seq<Row>, c: int)
    ensures CountAt(s + t, c) == CountAt(s, c) + CountAt(t, c)
  {
    if t == [] {
      assert s + t == s;
    } else {
      CountConcat(s, t[..|t| - 1], c);
      assert (s + t)[..|s + t| - 1] == s + t[..|t| - 1];
    }
  }

  lemma CountWithout(t: seq<Row>, j: nat, c: int)
    requires j < |t|
    ensures CountAt(t, c) == CountAt(t[..j] + t[j + 1..], c) + (if t[j].cycle == c then 1 else 0)
  {
    assert t == t[..j + 1] + t[j + 1..] && t[..j + 1][..j] == t[..j];
    CountConcat(t[..j + 1], t[j + 1..], c);
    CountConcat(t[..j], t[j + 1..], c);
  }

  lemma {:induction false} PermutedCount(s: seq<Row>, t: seq<Row>, c: int)
    requires multiset(s) == multiset(t)
    ensures CountAt(s, c) == CountAt(t, c)
  {
    assert |s| == |multiset(s)| == |multiset(t)| == |t|;
    if s != [] {
      var n := |s| - 1;
      var j := LastElsewhere(s, t);
      PermutedCount(s[..n], t[..j] + t[j + 1..], c);
      CountWithout(t, j, c);
    }
  }

  lemma {:induction false} CountedIsSeen(s: seq<Row>, c: int)
    requires CountAt(s, c) > 0 && CycleSorted(s)
    ensures s != [] && c <= s[|s| - 1].cycle
  {
    if s[|s| - 1].cycle != c {
      CountedIsSeen(s[..|s| - 1], c);
    }
  }

  lemma {:induction false} CountsDetermineCycles(s: seq<Row>, t: seq<Row>)
    requires |s| == |t| && CycleSorted(s) && CycleSorted(t) && forall c: int :: CountAt(s, c) == CountAt(t, c)
    ensures forall k :: 0 <= k < |s| ==> s[k].cycle == t[k].cycle
  {
    if s != [] {
      var n := |s| - 1;
      CountedIsSeen(s, t[n].cycle);
      CountedIsSeen(t, s[n].cycle);
      forall c: int ensures CountAt(s[..n], c) == CountAt(t[..n], c) {
        assert CountAt(s, c) == CountAt(t, c);
      }
      CountsDetermineCycles(s[..n], t[..n]);
    }
  }

  lemma SortedCyclesAgree(s: seq<Row>, t: seq<Row>)
    requires multiset(s) == multiset(t) && CycleSorted(s) && CycleSorted(t)
    ensures |s| == |t| && forall k :: 0 <= k < |s| ==> s[k].cycle == t[k].cycle
  {
    assert |s| == |multiset(s)| == |multiset(t)| == |t|;
    forall c: int ensures CountAt(s, c) == CountAt(t, c) {
      PermutedCount(s, t, c);
    }
    CountsDetermineCycles(s, t);
  }

  // ------------------------------------------------------------------ the order of all rows

  lemma {:induction false} OfNone(df: seq<Row>, e: int)
    requires forall row <- df :: row.equipment != e
    ensures Of(df, e) == []
  {
    if df != [] { OfNone(df[..|df| - 1], e); }
  }

  /** In a sorted frame the rows of one equipment are a block, between the smaller and the greater ones. */
  lemma {:induction false} EquipmentBlock(df: seq<Row>, e: int) returns (p: nat, q: nat)
    requires Sorted(df)
    ensures p <= q <= |df| && df[p..q] == Of(df, e)
    ensures forall k :: 0 <= k < p ==> df[k].equipment < e
    ensures forall k :: q <= k < |df| ==> df[k].equipment > e
  {
    p, q := 0, 0;
    if df != [] {
      var n := |df| - 1;
      p, q := EquipmentBlock(df[..n], e);
      forall k: nat | k < n ensures df[k].equipment <= df[n].equipment {
        assert Before(df[k], df[n]);
      }
      if df[n].equipment == e {
        assert q == n;
        q := n + 1;
        assert df[p..q] == df[..n][p..n] + [df[n]];
      } else if df[n].equipment < e {
        forall row <- df ensures row.equipment != e {
        }
        OfNone(df, e);
        p, q := n + 1, n + 1;
      }
    }
  }

  lemma {:induction false} OfSorted(df: seq<Row>, e: int)
    requires Sorted(df)
    ensures CycleSorted(Of(df, e))
  {
    if df != [] {
      var n := |df| - 1;
      OfSorted(df[..n], e);
      forall row <- Of(df[..n], e) ensures Before(row, df[n]) && row.equipment == e {
        OfMember(df[..n], e, row);
        var k: nat :| k < n && df[k] == row;
      }
    }
  }

  lemma GroupAligned(df: seq<Row>, e: int, group: seq<Row>, p: nat, q: nat)
    requires Sorted(df) && IsGroup(df, e, group) && p <= q <= |df| && df[p..q] == Of(df, e)
    ensures SameKeys(group, df[p..q]) && p < q
    ensures forall k :: p <= k < q ==> df[k].equipment == e
  {
    OfSorted(df, e);
    SortedCyclesAgree(group, df[p..q]);
    forall k | 0 <= k < |group| ensures group[k].equipment == e && df[p..q][k].equipment == e {
      assert group[k] in group && df[p..q][k] in Of(df, e);
      GroupMember(df, e, group, group[k]);
      OfMember(df, e, df[p..q][k]);
    }
    forall k | p <= k < q ensures df[k].equipment == e {
      assert df[p..q][k - p] == df[k];
    }
  }

  lemma SameKeysConcat(s: seq<Row>, s': seq<Row>, t: seq<Row>, t': seq<Row>)
    requires SameKeys(s, t) && SameKeys(s', t')
    ensures SameKeys(s + s', t + t')
  {
  }

  ghost predicate Ascending(keys: seq<int>) {
    forall a, b :: 0 <= a < b < |keys| ==> keys[a] < keys[b]
  }

  lemma KeyBelow(keys: seq<int>, m: nat, x: int)
    requires Ascending(keys) && x in keys && m <= |keys| && (m < |keys| ==> x < keys[m])
    ensures m > 0 && x <= keys[m - 1]
  {
    var g: nat :| g < |keys| && keys[g] == x;
  }

  /** The first `m` groups line up with the first `r` rows, which are those of the first `m` equipment. */
  ghost predicate AlignedTo(df: seq<Row>, keys: seq<int>, s: seq<Row>, m: nat)
    requires m <= |keys|
  {
    |s| <= |df| && SameKeys(s, df[..|s|]) && (m == 0 ==> s == []) &&
    (m > 0 ==> (forall k :: 0 <= k < |s| ==> df[k].equipment <= keys[m - 1]) &&
               (forall k :: |s| <= k < |df| ==> df[k].equipment > keys[m - 1]))
  }

  lemma AlignedNext(df: seq<Row>, keys: seq<int>, s: seq<Row>, m: nat, group: seq<Row>)
    requires Sorted(df) && Ascending(keys) && (forall row <- df :: row.equipment in keys) && m < |keys|
    requires IsGroup(df, keys[m], group) && AlignedTo(df, keys, s, m)
    ensures AlignedTo(df, keys, s + group, m + 1)
  {
    var p, q := EquipmentBlock(df, keys[m]);
    GroupAligned(df, keys[m], group, p, q);
    var r := |s|;
    if r < p {
      KeyBelow(keys, m, df[r].equipment);
    }
    assert m > 0 ==> keys[m - 1] < keys[m];
    assert df[p].equipment == keys[m];
    assert p == r;
    SameKeysConcat(s, group, df[..r], df[r..q]);
    assert df[..q] == df[..r] + df[r..q];
  }

  lemma {:induction false} SortedIsAligned(df: seq<Row>, keys: seq<int>, groups: seq<seq<Row>>, m: nat)
    requires Grouped(df, keys, groups) && Sorted(df) && m <= |groups|
    ensures AlignedTo(df, keys, Flatten(groups[..m]), m)
  {
    if m > 0 {
      SortedIsAligned(df, keys, groups, m - 1);
      assert groups[..m][..m - 1] == groups[..m - 1];
      AlignedNext(df, keys, Flatten(groups[..m - 1]), m - 1, groups[m - 1]);
    }
  }

  lemma SortedIsKept(df: seq<Row>, keys: seq<int>, groups: seq<seq<Row>>)
    requires Grouped(df, keys, groups) && Sorted(df)
    ensures SameKeys(Flatten(groups), df)
  {
    var n := |groups|;
    SortedIsAligned(df, keys, groups, n);
    assert groups[..n] == groups;
    var r := |Flatten(groups)|;
    if r < |df| {
      KeyBelow(keys, n, df[r].equipment);
    }
    assert r == |df| && df[..r] == df;
  }

  lemma {:induction false} FlattenMember(groups: seq<seq<Row>>, row: Row) returns (g: nat)
    requires row in Flatten(groups)
    ensures g < |groups| && row in groups[g]
  {
    var n := |groups| - 1;
    if row in groups[n] {
      g := n;
    } else {
      g := FlattenMember(groups[..n], row);
    }
  }

  /** The groups before the last hold smaller equipment only. */
  lemma FlattenBelow(df: seq<Row>, keys: seq<int>, groups: seq<seq<Row>>, n: nat, row: Row)
    requires Grouped(df, keys, groups) && n < |keys| && row in Flatten(groups[..n])
    ensures row.equipment < keys[n]
  {
    var g := FlattenMember(groups[..n], row);
    assert IsGroup(df, keys[g], groups[g]);
    GroupMember(df, keys[g], groups[g], row);
  }

  lemma SortedAppend(s: seq<Row>, group: seq<Row>, e: int)
    requires Sorted(s) && CycleSorted(group)
    requires forall row <- s :: row.equipment < e
    requires forall row <- group :: row.equipment == e
    ensures Sorted(s + group)
  {
  }

  lemma {:induction false} FlattenSorted(df: seq<Row>, keys: seq<int>, groups: seq<seq<Row>>, m: nat)
    requires Grouped(df, keys, groups) && m <= |groups|
    ensures Sorted(Flatten(groups[..m]))
  {
    if m > 0 {
      var n := m - 1;
      FlattenSorted(df, keys, groups, n);
      assert groups[..m][..n] == groups[..n];
      assert IsGroup(df, keys[n], groups[n]);
      forall row <- groups[n] ensures row.equipment == keys[n] {
        GroupMember(df, keys[n], groups[n], row);
      }
      forall row <- Flatten(groups[..n]) ensures row.equipment < keys[n] {
        FlattenBelow(df, keys, groups, n, row);
      }
      SortedAppend(Flatten(groups[..n]), groups[n], keys[n]);
    }
  }

  lemma {:induction false} OfCopies(df: seq<Row>, e: int, row: Row)
    ensures multiset(Of(df, e))[row] == if row.equipment == e then multiset(df)[row] else 0
  {
    if df != [] {
      OfCopies(df[..|df| - 1], e, row);
      assert df == df[..|df| - 1] + [df[|df| - 1]];
    }
  }

  lemma GroupCopies(df: seq<Row>, e: int, group: seq<Row>, row: Row)
    requires IsGroup(df, e, group)
    ensures multiset(group)[row] == if row.equipment == e then multiset(df)[row] else 0
  {
    OfCopies(df, e, row);
  }

  lemma CopiesConcat(s: seq<Row>, t: seq<Row>, row: Row)
    ensures multiset(s + t)[row] == multiset(s)[row] + multiset(t)[row]
  {
  }

  lemma {:induction false} FlattenCopies(df: seq<Row>, keys: seq<int>, groups: seq<seq<Row>>, m: nat, row: Row)
    requires Grouped(df, keys, groups) && m <= |groups|
    ensures multiset(Flatten(groups[..m]))[row] == if row.equipment in keys[..m] then multiset(df)[row] else 0
  {
    if m > 0 {
      var n := m - 1;
      FlattenCopies(df, keys, groups, n, row);
      assert groups[..m][..n] == groups[..n];
      assert row.equipment in keys[..m] <==> row.equipment in keys[..n] || row.equipment == keys[n];
      GroupCopies(df, keys[n], groups[n], row);
      CopiesConcat(Flatten(groups[..n]), groups[n], row);
    }
  }

  lemma CopiesKept(df: seq<Row>, keys: seq<int>, groups: seq<seq<Row>>, row: Row)
    requires Grouped(df, keys, groups)
    ensures multiset(Flatten(groups))[row] == multiset(df)[row]
  {
    FlattenCopies(df, keys, groups, |groups|, row);
    assert groups[..|groups|] == groups && keys[..|keys|] == keys;
    if row in multiset(df) {
      assert row in df;
    }
  }

  lemma SameCopies(s: seq<Row>, t: seq<Row>)
    requires forall row: Row :: multiset(s)[row] == multiset(t)[row]
    ensures multiset(s) == multiset(t) && |s| == |t|
  {
    assert |s| == |multiset(s)| && |t| == |multiset(t)|;
  }

  /** Grouping loses no row and repeats none. */
  lemma GroupingIsPermutation(df: seq<Row>, keys: seq<int>, groups: seq<seq<Row>>)
    requires Grouped(df, keys, groups)
    ensures multiset(Flatten(groups)) == multiset(df) && |Flatten(groups)| == |df|
  {
    forall row: Row ensures multiset(Flatten(groups))[row] == multiset(df)[row] {
      CopiesKept(df, keys, groups, row);
    }
    SameCopies(Flatten(groups), df);
  }

  /**
   A list built group by group lines up with the rows of the frame it came from if and
   only if the frame was sorted by equipment and cycle to begin with.
  */
  lemma AlignedIffSorted(df: seq<Row>, keys: seq<int>, groups: seq<seq<Row>>)
    requires Grouped(df, keys, groups)
    ensures SameKeys(Flatten(groups), df) <==> Sorted(df)
  {
    if Sorted(df) {
      SortedIsKept(df, keys, groups);
    }
    if SameKeys(Flatten(groups), df) {
      FlattenSorted(df, keys, groups, |groups|);
      assert groups[..|groups|] == groups;
      forall a, b | 0 <= a < b < |df| ensures Before(df[a], df[b]) {
        assert Before(Flatten(groups)[a], Flatten(groups)[b]);
      }
    }
  }
}
