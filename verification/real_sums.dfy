/** Sums, dot products and Chebyshev's sum identity over exact reals, for sequences of any length. */
module RealSums {
  /** The product, named so that products of equal factors are recognised as equal. */
  function Times(x: real, y: real): real {
    x * y
  }

  function Sum(s: seq<real>): real {
    if s == [] then 0.0 else Sum(s[..|s| - 1]) + s[|s| - 1]
  }

  function Dot(s: seq<real>, t: seq<real>): real
    requires |s| == |t|
  {
    if s == [] then 0.0 else Dot(s[..|s| - 1], t[..|t| - 1]) + Times(s[|s| - 1], t[|t| - 1])
  }

  function Scale(s: seq<real>, f: real): (r: seq<real>)
    ensures |r| == |s|
  {
    if s == [] then [] else Scale(s[..|s| - 1], f) + [Times(s[|s| - 1], f)]
  }

  function Constant(n: nat, x: real): (r: seq<real>)
    ensures |r| == n
  {
    if n == 0 then [] else Constant(n - 1, x) + [x]
  }

  lemma {:induction false} ScaleAt(s: seq<real>, f: real, k: nat)
    requires k < |s|
    ensures Scale(s, f)[k] == Times(s[k], f)
  {
    if k < |s| - 1 { ScaleAt(s[..|s| - 1], f, k); }
  }

  lemma {:induction false} ConstantAt(n: nat, x: real, k: nat)
    requires k < n
    ensures Constant(n, x)[k] == x
  {
    if k < n - 1 { ConstantAt(n - 1, x, k); }
  }

  lemma TimesAdds(a: real, b: real, sum: real, f: real)
    requires sum == a + b
    ensures Times(sum, f) == Times(a, f) + Times(b, f)
  {
  }

  lemma TimesRegroups(a: real, b: real, f: real)
    ensures Times(Times(a, f), b) == Times(Times(a, b), f)
  {
  }

  lemma {:induction false} SumScale(s: seq<real>, f: real)
    ensures Sum(Scale(s, f)) == Times(Sum(s), f)
  {
    if s != [] {
      var s', a := s[..|s| - 1], s[|s| - 1];
      SumScale(s', f);
      assert Scale(s, f)[..|s'|] == Scale(s', f);
      TimesAdds(Sum(s'), a, Sum(s), f);
    }
  }

  lemma {:induction false} DotScale(s: seq<real>, t: seq<real>, f: real)
    requires |s| == |t|
    ensures Dot(Scale(s, f), t) == Times(Dot(s, t), f)
  {
    if s != [] {
      var s', t', a, b := s[..|s| - 1], t[..|t| - 1], s[|s| - 1], t[|t| - 1];
      DotScale(s', t', f);
      assert Scale(s, f)[..|s'|] == Scale(s', f);
      TimesRegroups(a, b, f);
      TimesAdds(Dot(s', t'), Times(a, b), Dot(s, t), f);
    }
  }

  lemma {:induction false} SumConstant(n: nat, x: real)
    ensures Sum(Constant(n, x)) == Times(n as real, x)
  {
    if n > 0 {
      SumConstant(n - 1, x);
      assert Constant(n, x)[..n - 1] == Constant(n - 1, x);
      TimesAdds((n - 1) as real, 1.0, n as real, x);
    }
  }

  lemma {:induction false} DotOnes(t: seq<real>)
    ensures Dot(Constant(|t|, 1.0), t) == Sum(t)
  {
    if t != [] {
      DotOnes(t[..|t| - 1]);
      assert Constant(|t|, 1.0)[..|t| - 1] == Constant(|t| - 1, 1.0);
    }
  }

  /** Sums of numbers in [lo, hi]. */
  lemma {:induction false} SumRange(s: seq<real>, lo: real, hi: real)
    requires forall i :: 0 <= i < |s| ==> lo <= s[i] <= hi
    ensures Times(|s| as real, lo) <= Sum(s) <= Times(|s| as real, hi)
  {
    if s != [] {
      SumRange(s[..|s| - 1], lo, hi);
      TimesAdds((|s| - 1) as real, 1.0, |s| as real, lo);
      TimesAdds((|s| - 1) as real, 1.0, |s| as real, hi);
    }
  }

  lemma {:induction false} SumUpdate(s: seq<real>, k: nat, x: real)
    requires k < |s|
    ensures Sum(s[k := x]) == Sum(s) - s[k] + x
  {
    var n := |s|;
    if k < n - 1 {
      SumUpdate(s[..n - 1], k, x);
      assert s[k := x][..n - 1] == s[..n - 1][k := x];
    } else {
      assert s[k := x][..n - 1] == s[..n - 1];
    }
  }

  /** All terms but one. */
  lemma {:induction false} SumRangeOfOthers(s: seq<real>, lo: real, hi: real, k: nat)
    requires k < |s| && forall i :: 0 <= i < |s| && i != k ==> lo <= s[i] <= hi
    ensures s[k] + Times((|s| - 1) as real, lo) <= Sum(s) <= s[k] + Times((|s| - 1) as real, hi)
  {
    var n := |s|;
    var s' := s[..n - 1];
    if k == n - 1 {
      SumRange(s', lo, hi);
    } else {
      SumRangeOfOthers(s', lo, hi, k);
      TimesAdds((n - 2) as real, 1.0, (n - 1) as real, lo);
      TimesAdds((n - 2) as real, 1.0, (n - 1) as real, hi);
    }
  }

  // ------------------------------------------------------- Chebyshev's identity

  /** Sum over i of (r[i] - x) * (h[i] - y). */
  function Deviation(r: seq<real>, h: seq<real>, x: real, y: real): real
    requires |r| == |h|
  {
    if r == [] then 0.0
    else Deviation(r[..|r| - 1], h[..|h| - 1], x, y) + Times(r[|r| - 1] - x, h[|h| - 1] - y)
  }

  /** Sum over all pairs i < j of (r[i] - r[j]) * (h[i] - h[j]). */
  function PairDeviation(r: seq<real>, h: seq<real>): real
    requires |r| == |h|
  {
    if r == [] then 0.0 else
    var r', h' := r[..|r| - 1], h[..|h| - 1];
    PairDeviation(r', h') + Deviation(r', h', r[|r| - 1], h[|h| - 1])
  }

  /** d - y * sr - x * sh + n * x * y */
  function Expanded(n: real, d: real, sr: real, sh: real, x: real, y: real): real {
    d - Times(y, sr) - Times(x, sh) + Times(n, Times(x, y))
  }

  lemma ExpandTerm(n: real, d: real, sr: real, sh: real, a: real, b: real, x: real, y: real)
    ensures Expanded(n, d, sr, sh, x, y) + Times(a - x, b - y)
            == Expanded(n + 1.0, d + Times(a, b), sr + a, sh + b, x, y)
  {
  }

  lemma {:induction false} DeviationExpands(r: seq<real>, h: seq<real>, x: real, y: real)
    requires |r| == |h|
    ensures Deviation(r, h, x, y) == Expanded(|r| as real, Dot(r, h), Sum(r), Sum(h), x, y)
  {
    if r != [] {
      var n := |r|;
      var r', h' := r[..n - 1], h[..n - 1];
      DeviationExpands(r', h', x, y);
      ExpandTerm((n - 1) as real, Dot(r', h'), Sum(r'), Sum(h'), r[n - 1], h[n - 1], x, y);
    }
  }

  /** n * d - sr * sh */
  function Excess(n: real, d: real, sr: real, sh: real): real {
    Times(n, d) - Times(sr, sh)
  }

  lemma ExpandSquare(n: real, d: real, sr: real, sh: real, x: real, y: real)
    ensures Excess(n, d, sr, sh) + Expanded(n, d, sr, sh, x, y) == Excess(n + 1.0, d + Times(x, y), sr + x, sh + y)
  {
  }

  /** One more pair of values adds the deviation of the others from it. */
  lemma ExcessGrows(n: real, d: real, sr: real, sh: real, x: real, y: real, n': real, d': real, sr': real, sh': real)
    requires n' == n + 1.0 && d' == d + Times(x, y) && sr' == sr + x && sh' == sh + y
    ensures Excess(n', d', sr', sh') == Excess(n, d, sr, sh) + Expanded(n, d, sr, sh, x, y)
  {
    ExpandSquare(n, d, sr, sh, x, y);
  }

  /** n * (r . h) - (sum r) * (sum h) is the sum over all pairs of the products of differences. */
  lemma {:induction false} ChebyshevIdentity(r: seq<real>, h: seq<real>)
    requires |r| == |h|
    ensures Excess(|r| as real, Dot(r, h), Sum(r), Sum(h)) == PairDeviation(r, h)
  {
    if r != [] {
      var n := |r|;
      var r', h' := r[..n - 1], h[..n - 1];
      ChebyshevIdentity(r', h');
      DeviationExpands(r', h', r[n - 1], h[n - 1]);
      ExcessGrows((n - 1) as real, Dot(r', h'), Sum(r'), Sum(h'), r[n - 1], h[n - 1],
                  n as real, Dot(r, h), Sum(r), Sum(h));
    }
  }

  /** `r` is a non-decreasing function of `h`. */
  ghost predicate SameOrder(r: seq<real>, h: seq<real>)
    requires |r| == |h|
  {
    forall i, j :: 0 <= i < |r| && 0 <= j < |r| && h[i] <= h[j] ==> r[i] <= r[j]
  }

  ghost predicate AllEqual(r: seq<real>) {
    forall i, j :: 0 <= i < j < |r| ==> r[i] == r[j]
  }

  lemma ProductSign(a: real, b: real)
    requires (b <= 0.0 ==> a <= 0.0) && (b >= 0.0 ==> a >= 0.0)
    ensures Times(a, b) >= 0.0 && (Times(a, b) == 0.0 <==> a == 0.0)
  {
    if b < 0.0 && a < 0.0 { assert (-a) * (-b) > 0.0; }
  }

  lemma {:induction false} DeviationSign(r: seq<real>, h: seq<real>, x: real, y: real)
    requires |r| == |h|
    requires forall i :: 0 <= i < |r| ==> (h[i] <= y ==> r[i] <= x) && (y <= h[i] ==> x <= r[i])
    ensures Deviation(r, h, x, y) >= 0.0
    ensures Deviation(r, h, x, y) == 0.0 <==> forall i :: 0 <= i < |r| ==> r[i] == x
  {
    if r != [] {
      var n := |r|;
      var r' := r[..n - 1];
      DeviationSign(r', h[..n - 1], x, y);
      ProductSign(r[n - 1] - x, h[n - 1] - y);
      assert (forall i :: 0 <= i < n ==> r[i] == x) <==> r[n - 1] == x && forall i :: 0 <= i < n - 1 ==> r'[i] == x;
    }
  }

  lemma {:induction false} PairDeviationSign(r: seq<real>, h: seq<real>)
    requires |r| == |h| && SameOrder(r, h)
    ensures PairDeviation(r, h) >= 0.0
    ensures PairDeviation(r, h) == 0.0 <==> AllEqual(r)
  {
    if r != [] {
      var n := |r|;
      var r', h' := r[..n - 1], h[..n - 1];
      PairDeviationSign(r', h');
      DeviationSign(r', h', r[n - 1], h[n - 1]);
      AllEqualGrows(r);
    }
  }

  lemma AllEqualGrows(r: seq<real>)
    requires r != []
    ensures var r' := r[..|r| - 1];
            AllEqual(r) <==> AllEqual(r') && forall i :: 0 <= i < |r'| ==> r'[i] == r[|r| - 1]
  {
    var r' := r[..|r| - 1];
    if AllEqual(r') && forall i :: 0 <= i < |r'| ==> r'[i] == r[|r| - 1] {
      forall i, j | 0 <= i < j < |r| ensures r[i] == r[j] {
        assert r'[i] == r[i];
        assert j < |r'| ==> r'[j] == r[j];
      }
    }
  }
}
