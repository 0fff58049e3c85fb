/** What conditions say about the values they are evaluated on, in terms of numbers, texts and truth values. */
module ConditionMeaning {
  import opened Common
  import opened SafeEval

  // ------------------------------------------------------------- single values

  /** The number a value stands for in a comparison: `True` is 1 and `False` is 0. */
  predicate ReadsAs(v: Value, x: real) {
    v == NumV(x) || (v == BoolV(true) && x == 1.0) || (v == BoolV(false) && x == 0.0)
  }

  /** What `bool(...)` makes of the value of a condition. */
  lemma TruthOfValue(e: Expr, env: Env, v: Value)
    requires Eval(e, env).out == Returned(v)
    ensures v.BoolV? ==> Meaning(Some(e), env) == Returned(BoolV(v.b))
    ensures v.NumV? ==> Meaning(Some(e), env) == Returned(BoolV(v.r != 0.0))
    ensures v.StrV? ==> Meaning(Some(e), env) == Returned(BoolV(|v.s| > 0))
    ensures v.NoneV? ==> Meaning(Some(e), env) == Returned(BoolV(false))
  {
  }

  /** Names and literals: `True` and `False` cannot be shadowed, other names are looked up, None is no literal. */
  lemma AtomsMean(id: string, v: Value, env: Env)
    ensures Eval(Name("True"), env).out == Returned(BoolV(true))
    ensures Eval(Name("False"), env).out == Returned(BoolV(false))
    ensures id in env && id != "True" && id != "False" ==> Eval(Name(id), env) == Run([Read(id)], Returned(env[id]))
    ensures id !in env && id != "True" && id != "False" ==> Eval(Name(id), env).out == Raised(UnknownVariable(id))
    ensures Eval(Constant(v), env).out == if v == NoneV then Raised(UnsupportedConstant) else Returned(v)
  {
  }

  /** `not e` answers the opposite of `e`, `-e` the negative of a number, and only numbers can be negated. */
  lemma NegationMeans(e: Expr, env: Env, v: Value, x: real)
    requires Eval(e, env).out == Returned(v)
    ensures exists b :: Meaning(Some(e), env) == Returned(BoolV(b)) &&
                        Eval(UnaryOp(Not, e), env).out == Returned(BoolV(!b))
    ensures ReadsAs(v, x) ==> Eval(UnaryOp(USub, e), env).out == Returned(NumV(0.0 - x))
    ensures v.StrV? || v.NoneV? ==> Eval(UnaryOp(USub, e), env).out == Raised(TypeMismatch)
  {
    TruthOfValue(e, env, v);
    assert Eval(UnaryOp(Not, e), env).out == Returned(BoolV(!Truthy(v)));
  }

  // --------------------------------------------------------------- comparisons

  /** A single comparison raises if its operator does on these values, and otherwise answers what that does. */
  lemma ComparisonOf(l: Expr, cmp: Comparison, r: Expr, env: Env, v: Value, w: Value)
    requires Eval(l, env).out == Returned(v) && Eval(r, env).out == Returned(w) && !cmp.OtherComparison?
    ensures Meaning(Some(Compare(l, [cmp], [r])), env) == Apply(cmp, v, w)
  {
    var ops, comparators := [cmp], [r];
    var done := EvalChain(w, ops[1..], comparators[1..], env);
    assert done == Run([], Returned(BoolV(true)));
    var chain := EvalChain(v, ops, comparators, env);
    assert Eval(Compare(l, ops, comparators), env).out == chain.out;
  }

  /** Numbers are compared as numbers. */
  lemma NumbersCompared(l: Expr, r: Expr, env: Env, v: Value, w: Value, x: real, y: real)
    requires Eval(l, env).out == Returned(v) && Eval(r, env).out == Returned(w) && ReadsAs(v, x) && ReadsAs(w, y)
    ensures Meaning(Some(Compare(l, [Lt], [r])), env) == Returned(BoolV(x < y))
    ensures Meaning(Some(Compare(l, [LtE], [r])), env) == Returned(BoolV(x <= y))
    ensures Meaning(Some(Compare(l, [Gt], [r])), env) == Returned(BoolV(x > y))
    ensures Meaning(Some(Compare(l, [GtE], [r])), env) == Returned(BoolV(x >= y))
    ensures Meaning(Some(Compare(l, [Eq], [r])), env) == Returned(BoolV(x == y))
    ensures Meaning(Some(Compare(l, [NotEq], [r])), env) == Returned(BoolV(x != y))
  {
    ComparisonOf(l, Lt, r, env, v, w);
    ComparisonOf(l, LtE, r, env, v, w);
    ComparisonOf(l, Gt, r, env, v, w);
    ComparisonOf(l, GtE, r, env, v, w);
    ComparisonOf(l, Eq, r, env, v, w);
    ComparisonOf(l, NotEq, r, env, v, w);
  }

  /** The shape of most rules: a reading against a threshold. */
  lemma ThresholdCondition(id: string, env: Env, x: real, limit: real)
    requires id != "True" && id != "False" && id in env && ReadsAs(env[id], x)
    ensures Meaning(Some(Compare(Name(id), [Lt], [Constant(NumV(limit))])), env) == Returned(BoolV(x < limit))
    ensures Meaning(Some(Compare(Name(id), [LtE], [Constant(NumV(limit))])), env) == Returned(BoolV(x <= limit))
    ensures Meaning(Some(Compare(Name(id), [Gt], [Constant(NumV(limit))])), env) == Returned(BoolV(x > limit))
    ensures Meaning(Some(Compare(Name(id), [GtE], [Constant(NumV(limit))])), env) == Returned(BoolV(x >= limit))
    ensures Meaning(Some(Compare(Name(id), [Eq], [Constant(NumV(limit))])), env) == Returned(BoolV(x == limit))
    ensures Meaning(Some(Compare(Name(id), [NotEq], [Constant(NumV(limit))])), env) == Returned(BoolV(x != limit))
  {
    NumbersCompared(Name(id), Constant(NumV(limit)), env, env[id], NumV(limit), x, limit);
  }

  /** Text `s` comes before `t`: `t` continues it, or the first difference has the smaller code point in `s`. */
  ghost predicate Precedes(s: string, t: string) {
    s < t || exists k :: FirstDifference(s, t, k) && s[k] < t[k]
  }

  predicate FirstDifference(s: string, t: string, k: int) {
    0 <= k < |s| && k < |t| && s[..k] == t[..k] && s[k] != t[k]
  }

  lemma {:induction false} StringBeforeIsPrecedes(s: string, t: string)
    ensures StringBefore(s, t) <==> Precedes(s, t)
  {
    if s != "" && t != "" && s[0] == t[0] {
      var s', t' := s[1..], t[1..];
      StringBeforeIsPrecedes(s', t');
      assert s == [s[0]] + s' && t == [s[0]] + t';
      if k :| FirstDifference(s', t', k) && s'[k] < t'[k] {
        assert s[..k + 1] == [s[0]] + s'[..k] && t[..k + 1] == [s[0]] + t'[..k];
        assert FirstDifference(s, t, k + 1);
      }
      if k :| FirstDifference(s, t, k) && s[k] < t[k] {
        assert s'[..k - 1] == s[..k][1..] && t'[..k - 1] == t[..k][1..];
        assert FirstDifference(s', t', k - 1);
      }
    } else if s != "" && t != "" {
      assert s[..0] == t[..0];
      assert FirstDifference(s, t, 0);
    }
  }

  /** Exactly one of two different texts comes before the other. */
  lemma {:induction false} StringsAreOrdered(s: string, t: string)
    ensures StringBefore(s, t) <==> s != t && !StringBefore(t, s)
  {
    if s != "" && t != "" && s[0] == t[0] {
      StringsAreOrdered(s[1..], t[1..]);
      assert s == [s[0]] + s[1..] && t == [t[0]] + t[1..];
    }
  }

  /** Texts are compared by code point, and equal only if they are the same. */
  lemma StringsCompared(l: Expr, r: Expr, env: Env, s: string, t: string)
    requires Eval(l, env).out == Returned(StrV(s)) && Eval(r, env).out == Returned(StrV(t))
    ensures Meaning(Some(Compare(l, [Lt], [r])), env) == Returned(BoolV(Precedes(s, t)))
    ensures Meaning(Some(Compare(l, [LtE], [r])), env) == Returned(BoolV(Precedes(s, t) || s == t))
    ensures Meaning(Some(Compare(l, [Gt], [r])), env) == Returned(BoolV(Precedes(t, s)))
    ensures Meaning(Some(Compare(l, [GtE], [r])), env) == Returned(BoolV(Precedes(t, s) || s == t))
    ensures Meaning(Some(Compare(l, [Eq], [r])), env) == Returned(BoolV(s == t))
    ensures Meaning(Some(Compare(l, [NotEq], [r])), env) == Returned(BoolV(s != t))
  {
    StringBeforeIsPrecedes(s, t);
    StringBeforeIsPrecedes(t, s);
    StringsAreOrdered(s, t);
    ComparisonOf(l, Lt, r, env, StrV(s), StrV(t));
    ComparisonOf(l, LtE, r, env, StrV(s), StrV(t));
    ComparisonOf(l, Gt, r, env, StrV(s), StrV(t));
    ComparisonOf(l, GtE, r, env, StrV(s), StrV(t));
    ComparisonOf(l, Eq, r, env, StrV(s), StrV(t));
    ComparisonOf(l, NotEq, r, env, StrV(s), StrV(t));
  }

  /** A text and a number, or None and anything, have no order, and are equal only if both are None. */
  lemma MixedTypesCompared(l: Expr, cmp: Comparison, r: Expr, env: Env, v: Value, w: Value)
    requires Eval(l, env).out == Returned(v) && Eval(r, env).out == Returned(w)
    requires v.NoneV? || w.NoneV? || (v.StrV? <==> !w.StrV?)
    ensures cmp in {Lt, LtE, Gt, GtE} ==> Meaning(Some(Compare(l, [cmp], [r])), env) == Raised(TypeMismatch)
    ensures cmp == Eq ==> Meaning(Some(Compare(l, [cmp], [r])), env) == Returned(BoolV(v.NoneV? && w.NoneV?))
    ensures cmp == NotEq ==> Meaning(Some(Compare(l, [cmp], [r])), env) == Returned(BoolV(!(v.NoneV? && w.NoneV?)))
  {
    if !cmp.OtherComparison? {
      ComparisonOf(l, cmp, r, env, v, w);
    }
  }

  // -------------------------------------------------------- chains, connectives

  predicate Related(cmp: Comparison, x: real, y: real) {
    match cmp
    case Lt => x < y
    case LtE => x <= y
    case Gt => x > y
    case GtE => x >= y
    case Eq => x == y
    case NotEq => x != y
    case OtherComparison => false
  }

  ghost predicate AllRelated(ops: seq<Comparison>, xs: seq<real>)
    requires |xs| == |ops| + 1
  {
    forall k :: 0 <= k < |ops| ==> Related(ops[k], xs[k], xs[k + 1])
  }

  /** Each operand evaluates to its number. */
  ghost predicate Values(es: seq<Expr>, env: Env, xs: seq<real>) {
    |es| == |xs| && forall k :: 0 <= k < |es| ==> Eval(es[k], env).out == Returned(NumV(xs[k]))
  }

  lemma AllRelatedFirst(ops: seq<Comparison>, x: real, xs: seq<real>)
    requires |xs| == |ops| > 0
    ensures AllRelated(ops, [x] + xs) <==> Related(ops[0], x, xs[0]) && AllRelated(ops[1..], [xs[0]] + xs[1..])
  {
    var all, rest := [x] + xs, [xs[0]] + xs[1..];
    assert forall k :: 1 <= k < |ops| ==> ops[k] == ops[1..][k - 1] && all[k] == rest[k - 1] && all[k + 1] == rest[k];
    assert forall k :: 0 <= k < |ops[1..]| ==> rest[k + 1] == all[k + 2] && ops[1..][k] == ops[k + 1];
  }

  lemma {:induction false} ChainHolds(ops: seq<Comparison>, es: seq<Expr>, env: Env, x: real, xs: seq<real>)
    requires |ops| == |es| && OtherComparison !in ops && Values(es, env, xs)
    ensures EvalChain(NumV(x), ops, es, env).out == Returned(BoolV(AllRelated(ops, [x] + xs)))
    decreases |ops|
  {
    if ops != [] {
      assert ops[0] in ops;
      AllRelatedFirst(ops, x, xs);
      ChainHolds(ops[1..], es[1..], env, xs[0], xs[1..]);
      assert Apply(ops[0], NumV(x), NumV(xs[0])) == Returned(BoolV(Related(ops[0], x, xs[0])));
    }
  }

  /** A chain over numbers is true exactly when every two neighbours are related by the operator between them. */
  lemma ChainOfNumbers(first: Expr, ops: seq<Comparison>, es: seq<Expr>, env: Env, x: real, xs: seq<real>)
    requires Eval(first, env).out == Returned(NumV(x)) && Values(es, env, xs)
    requires |ops| == |es| && OtherComparison !in ops
    ensures Meaning(Some(Compare(first, ops, es)), env) == Returned(BoolV(AllRelated(ops, [x] + xs)))
  {
    ChainHolds(ops, es, env, x, xs);
  }

  lemma {:induction false} DecidedBy(op: Connective, es: seq<Expr>, env: Env)
    requires forall e <- es :: Meaning(Some(e), env).Returned?
    ensures EvalBool(op, es, env).out == Returned(BoolV(
              if op.And? then forall e <- es :: Holds(Some(e), env) else exists e <- es :: Holds(Some(e), env)))
  {
    if es != [] {
      assert es[0] in es && es == [es[0]] + es[1..];
      assert Meaning(Some(es[0]), env).Returned?;
      DecidedBy(op, es[1..], env);
    }
  }

  /** Where every part returns, `and` is true exactly when all parts are, and `or` when some part is. */
  lemma ConnectivesMean(es: seq<Expr>, env: Env)
    requires forall e <- es :: Meaning(Some(e), env).Returned?
    ensures Meaning(Some(BoolOp(And, es)), env) == Returned(BoolV(
              forall e <- es :: Meaning(Some(e), env) == Returned(BoolV(true))))
    ensures Meaning(Some(BoolOp(Or, es)), env) == Returned(BoolV(
              exists e <- es :: Meaning(Some(e), env) == Returned(BoolV(true))))
  {
    DecidedBy(And, es, env);
    DecidedBy(Or, es, env);
  }
}
