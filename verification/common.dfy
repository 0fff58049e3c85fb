/** Datatypes shared by several components. */
module Common {
  datatype Option<+T> = None | Some(value: T)

  /** The last `n` elements of `s`, or all of `s` when it is shorter (a list trimmed to its tail, a bounded deque). */
  function Suffix<T>(s: seq<T>, n: nat): (r: seq<T>)
    ensures |r| == if |s| <= n then |s| else n
  {
    if |s| <= n then s else s[|s| - n..]
  }

  /** What is left of a list is its end. */
  lemma SuffixIsEnd<T>(s: seq<T>, n: nat)
    ensures s == s[..|s| - |Suffix(s, n)|] + Suffix(s, n)
  {
  }

  /** Appending to a trimmed list and trimming again keeps the suffix of the whole history. */
  lemma SuffixAppend<T>(s: seq<T>, x: T, n: nat)
    ensures Suffix(Suffix(s, n) + [x], n) == Suffix(s + [x], n)
  {
  }

  /** Taking one element out of a sequence takes it out of its multiset. */
  lemma MultisetWithout<T>(t: seq<T>, j: nat)
    requires j < |t|
    ensures multiset(t[..j] + t[j + 1..]) == multiset(t) - multiset{t[j]}
  {
    assert t == (t[..j] + [t[j]]) + t[j + 1..];
    assert multiset(t) == multiset(t[..j] + t[j + 1..]) + multiset{t[j]};
  }

  /** The last element of a sequence occurs in every permutation of it, and leaves permutations when taken out. */
  lemma LastElsewhere<T>(s: seq<T>, t: seq<T>) returns (j: nat)
    requires s != [] && multiset(s) == multiset(t)
    ensures j < |t| && t[j] == s[|s| - 1] && multiset(s[..|s| - 1]) == multiset(t[..j] + t[j + 1..])
  {
    var n := |s| - 1;
    assert s[n] in multiset(t);
    j :| 0 <= j < |t| && t[j] == s[n];
    MultisetWithout(s, n);
    MultisetWithout(t, j);
    assert s[..n] + s[n + 1..] == s[..n];
  }
}
