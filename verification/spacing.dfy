/** How many events fit in an interval when consecutive events keep a minimum distance. */
module Spacing {
  function Gap(ts: seq<real>, i: nat, j: nat): real
    requires i < j < |ts|
  {
    ts[j] - ts[i]
  }

  ghost predicate Spaced(ts: seq<real>, gap: real) {
    forall i: nat, j: nat {:trigger Gap(ts, i, j)} :: i < j < |ts| ==> Gap(ts, i, j) >= gap
  }

  /** The events that fall in the closed interval. */
  function Within(ts: seq<real>, lo: real, hi: real): seq<real> {
    if ts == [] then []
    else (if lo <= ts[0] <= hi then [ts[0]] else []) + Within(ts[1..], lo, hi)
  }

  /** As many as there are positions whose time is in the interval. */
  lemma {:induction false} WithinCounted(ts: seq<real>, lo: real, hi: real)
    ensures |Within(ts, lo, hi)| == |set k: nat | k < |ts| && lo <= ts[k] <= hi|
  {
    if ts != [] {
      var n := |ts| - 1;
      var before := set k: nat | k < n && lo <= ts[..n][k] <= hi;
      WithinCounted(ts[..n], lo, hi);
      WithinSnoc(ts[..n], ts[n], lo, hi);
      assert ts == ts[..n] + [ts[n]];
      assert (set k: nat | k < |ts| && lo <= ts[k] <= hi) == before + if lo <= ts[n] <= hi then {n} else {};
    }
  }

  lemma {:induction false} WithinSnoc(ts: seq<real>, t: real, lo: real, hi: real)
    ensures Within(ts + [t], lo, hi) == Within(ts, lo, hi) + if lo <= t <= hi then [t] else []
  {
    if ts != [] {
      assert (ts + [t])[1..] == ts[1..] + [t];
      WithinSnoc(ts[1..], t, lo, hi);
    }
  }

  lemma {:induction false} WithinKeepsSpacing(ts: seq<real>, lo: real, hi: real, gap: real)
    requires Spaced(ts, gap)
    ensures Spaced(Within(ts, lo, hi), gap)
    ensures forall t <- Within(ts, lo, hi) :: t in ts && lo <= t <= hi
  {
    if ts != [] {
      forall i: nat, j: nat | i < j < |ts[1..]| ensures Gap(ts[1..], i, j) >= gap {
        assert Gap(ts[1..], i, j) == Gap(ts, i + 1, j + 1);
      }
      WithinKeepsSpacing(ts[1..], lo, hi, gap);
      var rest := Within(ts[1..], lo, hi);
      forall t | t in rest ensures t - ts[0] >= gap {
        var k :| 0 <= k < |ts[1..]| && ts[1..][k] == t;
        assert t - ts[0] == Gap(ts, 0, k + 1);
      }
      var all := Within(ts, lo, hi);
      if all != rest {
        assert all == [ts[0]] + rest;
        forall i: nat, j: nat | i < j < |all| ensures Gap(all, i, j) >= gap {
          assert all[j] == rest[j - 1] && rest[j - 1] in rest;
          assert i > 0 ==> Gap(all, i, j) == Gap(rest, i - 1, j - 1);
        }
      }
    }
  }

  lemma SpacedAppend(ts: seq<real>, t: real, gap: real)
    requires Spaced(ts, gap) && forall k :: 0 <= k < |ts| ==> t - ts[k] >= gap
    ensures Spaced(ts + [t], gap)
  {
    forall i: nat, j: nat | i < j < |ts + [t]| ensures Gap(ts + [t], i, j) >= gap {
      assert j < |ts| ==> Gap(ts + [t], i, j) == Gap(ts, i, j);
    }
  }

  lemma {:induction false} SpanGrows(ts: seq<real>, gap: real)
    requires Spaced(ts, gap) && ts != []
    ensures ts[|ts| - 1] - ts[0] >= (|ts| - 1) as real * gap
  {
    if |ts| > 1 {
      var before := ts[..|ts| - 1];
      forall i: nat, j: nat | i < j < |before| ensures Gap(before, i, j) >= gap {
        assert Gap(before, i, j) == Gap(ts, i, j);
      }
      SpanGrows(before, gap);
      assert Gap(ts, |ts| - 2, |ts| - 1) >= gap;
      assert (|ts| - 1) as real * gap == (|ts| - 2) as real * gap + gap;
    }
  }

  /** At most floor(length / gap) + 1 events in any closed interval of that length. */
  lemma RateBound(ts: seq<real>, gap: real, lo: real, length: real)
    requires Spaced(ts, gap) && gap > 0.0 && length >= 0.0
    ensures |Within(ts, lo, lo + length)| <= (length / gap).Floor + 1
  {
    var inside := Within(ts, lo, lo + length);
    WithinKeepsSpacing(ts, lo, lo + length, gap);
    if inside == [] {
      QuotientBound(0, gap, length);
    } else {
      assert inside[0] in inside && inside[|inside| - 1] in inside;
      SpanBound(inside, gap, length);
    }
  }

  lemma SpanBound(ts: seq<real>, gap: real, length: real)
    requires Spaced(ts, gap) && gap > 0.0 && ts != [] && ts[|ts| - 1] - ts[0] <= length
    ensures |ts| - 1 <= (length / gap).Floor
  {
    SpanGrows(ts, gap);
    QuotientBound(|ts| - 1, gap, length);
  }

  lemma QuotientBound(k: nat, gap: real, length: real)
    requires gap > 0.0 && k as real * gap <= length
    ensures k <= (length / gap).Floor
  {
    assert k as real == k as real * gap / gap <= length / gap;
  }
}
