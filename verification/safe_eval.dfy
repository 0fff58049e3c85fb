/**
 The safe expression evaluator behind alert conditions, next to the meaning the
 Python Language Reference (sections 6.10 and 6.11) gives the same expressions.

 A run records every variable read, comparison and negation in order, so two
 equal runs short-circuit at the same place and raise at the same place.
*/
module SafeEval {
  import opened Common

  /** A Python value of the types conditions compare; `NoneV` is Python's None. */
  datatype Value = BoolV(b: bool) | NumV(r: real) | StrV(s: string) | NoneV

  datatype Connective = And | Or
  datatype Comparison = Lt | LtE | Gt | GtE | Eq | NotEq | OtherComparison
  datatype UnaryOperator = Not | USub | OtherUnary

  /** The syntax tree `ast.parse` delivers; `OtherNode` is any node without a handler. */
  datatype Expr =
    | BoolOp(op: Connective, values: seq<Expr>)
    | Compare(left: Expr, ops: seq<Comparison>, comparators: seq<Expr>)
    | UnaryOp(uop: UnaryOperator, operand: Expr)
    | Name(id: string)
    | Constant(value: Value)
    | OtherNode

  type Env = map<string, Value>

  datatype Event = Read(name: string) | Tested(cmp: Comparison, l: Value, r: Value) | Negated(v: Value)

  datatype Error =
    | DisallowedElement
    | UnsupportedOperator
    | UnknownVariable(name: string)
    | UnsupportedConstant
    | TypeMismatch
    | InvalidSyntax

  datatype Outcome = Returned(v: Value) | Raised(e: Error)

  datatype Run = Run(trace: seq<Event>, out: Outcome)

  function Then(before: seq<Event>, r: Run): Run {
    Run(before + r.trace, r.out)
  }

  lemma ThenAssociates(a: seq<Event>, b: seq<Event>, r: Run)
    ensures Then(a, Then(b, r)) == Then(a + b, r)
    ensures Then([], r) == r
  {
    assert a + (b + r.trace) == (a + b) + r.trace;
    assert [] + r.trace == r.trace;
  }

  // ---------------------------------------------------------------- values

  predicate Truthy(v: Value) {
    match v
    case BoolV(b) => b
    case NumV(r) => r != 0.0
    case StrV(s) => s != ""
    case NoneV => false
  }

  /** Booleans are numbers in Python: `True` is 1 and `False` is 0. */
  predicate IsNumber(v: Value) {
    v.NumV? || v.BoolV?
  }

  function Number(v: Value): real
    requires IsNumber(v)
  {
    if v.NumV? then v.r else if v.b then 1.0 else 0.0
  }

  predicate EqualValues(l: Value, r: Value) {
    if IsNumber(l) && IsNumber(r) then Number(l) == Number(r) else l == r
  }

  /** Lexicographic order by code point. */
  predicate StringBefore(s: string, t: string) {
    t != "" && (s == "" || s[0] < t[0] || (s[0] == t[0] && StringBefore(s[1..], t[1..])))
  }

  predicate Ordered(l: Value, r: Value) {
    (IsNumber(l) && IsNumber(r)) || (l.StrV? && r.StrV?)
  }

  predicate Less(l: Value, r: Value)
    requires Ordered(l, r)
  {
    if l.StrV? then StringBefore(l.s, r.s) else Number(l) < Number(r)
  }

  function Apply(op: Comparison, l: Value, r: Value): Outcome
  {
    if op == OtherComparison then Raised(UnsupportedOperator)
    else if op == Eq then Returned(BoolV(EqualValues(l, r)))
    else if op == NotEq then Returned(BoolV(!EqualValues(l, r)))
    else if !Ordered(l, r) then Raised(TypeMismatch)
    else if op == Lt then Returned(BoolV(Less(l, r)))
    else if op == LtE then Returned(BoolV(!Less(r, l)))
    else if op == Gt then Returned(BoolV(Less(r, l)))
    else Returned(BoolV(!Less(l, r)))
  }

  function ApplyUnary(op: UnaryOperator, r: Run): Run
    requires r.out.Returned?
  {
    match op
    case Not => Run(r.trace, Returned(BoolV(!Truthy(r.out.v))))
    case USub =>
      Run(r.trace + [Negated(r.out.v)],
          if IsNumber(r.out.v) then Returned(NumV(-Number(r.out.v))) else Raised(TypeMismatch))
    case OtherUnary => Run(r.trace, Raised(UnsupportedOperator))
  }

  // ------------------------------------------------- the evaluator's result

  /** What the evaluator computes for a node. */
  function Eval(e: Expr, env: Env): Run
    decreases e, 1
  {
    match e
    case BoolOp(op, values) => EvalBool(op, values, env)
    case Compare(left, ops, comparators) =>
      var l := Eval(left, env);
      if l.out.Raised? then l else Then(l.trace, EvalChain(l.out.v, ops, comparators, env))
    case UnaryOp(op, operand) =>
      if op.OtherUnary? then Run([], Raised(UnsupportedOperator)) else
      var r := Eval(operand, env);
      if r.out.Raised? then r else ApplyUnary(op, r)
    case Name(id) => EvalName(id, env)
    case Constant(v) => EvalConstant(v)
    case OtherNode => Run([], Raised(DisallowedElement))
  }

  function EvalName(id: string, env: Env): Run {
    if id == "True" then Run([], Returned(BoolV(true)))
    else if id == "False" then Run([], Returned(BoolV(false)))
    else if id !in env then Run([], Raised(UnknownVariable(id)))
    else Run([Read(id)], Returned(env[id]))
  }

  function EvalConstant(v: Value): Run {
    Run([], if v.NoneV? then Raised(UnsupportedConstant) else Returned(v))
  }

  /** `all(...)` or `any(...)` over lazily evaluated operands: the answer is always a Boolean. */
  function EvalBool(op: Connective, values: seq<Expr>, env: Env): Run
    decreases values, 0
  {
    if values == [] then Run([], Returned(BoolV(op.And?))) else
    var r := Eval(values[0], env);
    if r.out.Raised? then r
    else if Truthy(r.out.v) == op.Or? then Run(r.trace, Returned(BoolV(op.Or?)))
    else Then(r.trace, EvalBool(op, values[1..], env))
  }

  /** The zipped operators and operands, left to right, until one comparison is false. */
  function EvalChain(l: Value, ops: seq<Comparison>, comparators: seq<Expr>, env: Env): Run
    decreases comparators, 0
  {
    if ops == [] || comparators == [] then Run([], Returned(BoolV(true)))
    else if ops[0].OtherComparison? then Run([], Raised(UnsupportedOperator)) else
    var r := Eval(comparators[0], env);
    if r.out.Raised? then r else
    var answer := Apply(ops[0], l, r.out.v);
    var seen := r.trace + [Tested(ops[0], l, r.out.v)];
    if answer.Raised? then Run(seen, answer)
    else if !Truthy(answer.v) then Run(seen, Returned(BoolV(false)))
    else Then(seen, EvalChain(r.out.v, ops[1..], comparators[1..], env))
  }

  // --------------------------------------------------- the evaluator itself

  /** `_eval_node`: dispatch on the node type. */
  method EvalNode(e: Expr, env: Env) returns (r: Run)
    ensures r == Eval(e, env)
    decreases e, 1
  {
    match e
    case BoolOp(op, values) =>
      r := BoolOpNode(op, values, env);
    case Compare(left, ops, comparators) =>
      r := EvalNode(left, env);
      if r.out.Returned? {
        var rest := CompareChain(r.out.v, ops, comparators, env);
        r := Then(r.trace, rest);
      }
    case UnaryOp(op, operand) =>
      if op.OtherUnary? {
        return Run([], Raised(UnsupportedOperator));
      }
      r := EvalNode(operand, env);
      if r.out.Returned? {
        r := ApplyUnary(op, r);
      }
    case Name(id) =>
      r := EvalName(id, env);
    case Constant(v) =>
      r := EvalConstant(v);
    case OtherNode =>
      r := Run([], Raised(DisallowedElement));
  }

  /** `_bool_op`: the generator is consumed until `all`/`any` is decided. */
  method BoolOpNode(op: Connective, values: seq<Expr>, env: Env) returns (r: Run)
    ensures r == EvalBool(op, values, env)
    decreases values, 0
  {
    var trace: seq<Event> := [];
    var i := 0;
    ThenAssociates([], [], EvalBool(op, values, env));
    while i < |values|
      invariant 0 <= i <= |values|
      invariant Then(trace, EvalBool(op, values[i..], env)) == EvalBool(op, values, env)
    {
      var v := EvalNode(values[i], env);
      assert values[i..][0] == values[i] && values[i..][1..] == values[i + 1..];
      if v.out.Raised? {
        return Run(trace + v.trace, v.out);
      }
      if Truthy(v.out.v) == op.Or? {
        return Run(trace + v.trace, Returned(BoolV(op.Or?)));
      }
      ThenAssociates(trace, v.trace, EvalBool(op, values[i + 1..], env));
      trace := trace + v.trace;
      i := i + 1;
    }
    assert trace + [] == trace;
    r := Run(trace, Returned(BoolV(op.And?)));
  }

  /** The loop of `_compare`, entered with the value of the leftmost operand. */
  method CompareChain(first: Value, ops: seq<Comparison>, comparators: seq<Expr>, env: Env) returns (r: Run)
    ensures r == EvalChain(first, ops, comparators, env)
    decreases comparators, 0
  {
    var left := first;
    var trace: seq<Event> := [];
    var i := 0;
    ThenAssociates([], [], EvalChain(first, ops, comparators, env));
    while i < |ops| && i < |comparators|
      invariant 0 <= i <= |ops| && i <= |comparators|
      invariant Then(trace, EvalChain(left, ops[i..], comparators[i..], env)) == EvalChain(first, ops, comparators, env)
    {
      assert ops[i..][1..] == ops[i + 1..] && comparators[i..][1..] == comparators[i + 1..];
      if ops[i].OtherComparison? {
        assert trace + [] == trace;
        return Run(trace, Raised(UnsupportedOperator));
      }
      var right := EvalNode(comparators[i], env);
      if right.out.Raised? {
        return Run(trace + right.trace, right.out);
      }
      var seen := right.trace + [Tested(ops[i], left, right.out.v)];
      var answer := Apply(ops[i], left, right.out.v);
      if answer.Raised? {
        return Run(trace + seen, answer);
      }
      if !Truthy(answer.v) {
        return Run(trace + seen, Returned(BoolV(false)));
      }
      ThenAssociates(trace, seen, EvalChain(right.out.v, ops[i + 1..], comparators[i + 1..], env));
      trace := trace + seen;
      left := right.out.v;
      i := i + 1;
    }
    assert trace + [] == trace;
    r := Run(trace, Returned(BoolV(true)));
  }

  /** `safe_eval`: a text that does not parse raises, otherwise the value is cast to a Boolean. */
  method SafeEvaluate(expression: Option<Expr>, env: Env) returns (r: Outcome)
    ensures r == Meaning(expression, env)
  {
    if expression.None? {
      return Raised(InvalidSyntax);
    }
    var run := EvalNode(expression.value, env);
    r := run.out;
    if r.Returned? {
      r := Returned(BoolV(Truthy(r.v)));
    }
  }

  function Meaning(expression: Option<Expr>, env: Env): Outcome {
    if expression.None? then Raised(InvalidSyntax) else
    var out := Eval(expression.value, env).out;
    if out.Raised? then out else Returned(BoolV(Truthy(out.v)))
  }

  /** The condition is met: evaluation returns and the value is true. */
  predicate Holds(expression: Option<Expr>, env: Env) {
    Meaning(expression, env) == Returned(BoolV(true))
  }

  // --------------------------------------------------- Python's own meaning

  /**
   `x and y`: if x is false its value, otherwise the value of y (and dually for `or`),
   with y run only when it is needed (section 6.11).
  */
  function Connect(op: Connective, x: Run, y: Run): Run {
    if x.out.Raised? || Truthy(x.out.v) == op.Or? then x else Then(x.trace, y)
  }

  function Py(e: Expr, env: Env): Run
    decreases e, 1
  {
    match e
    case BoolOp(op, values) => PyBool(op, values, env)
    case Compare(left, ops, comparators) =>
      var l := Py(left, env);
      if l.out.Raised? then l else Then(l.trace, PyChain(l.out.v, ops, comparators, env))
    case UnaryOp(op, operand) =>
      if op.OtherUnary? then Run([], Raised(UnsupportedOperator)) else
      var r := Py(operand, env);
      if r.out.Raised? then r else ApplyUnary(op, r)
    case Name(id) => EvalName(id, env)
    case Constant(v) => EvalConstant(v)
    case OtherNode => Run([], Raised(DisallowedElement))
  }

  /** `v0 and v1 and ...`: the value of the operand that decided (a parser never builds the empty case). */
  function PyBool(op: Connective, values: seq<Expr>, env: Env): Run
    decreases values, 0
  {
    if values == [] then Run([], Returned(BoolV(op.And?)))
    else if |values| == 1 then Py(values[0], env)
    else Connect(op, Py(values[0], env), PyBool(op, values[1..], env))
  }

  /** The run of one comparison `l op rhs`, with `l` already evaluated. */
  function PyLink(l: Value, op: Comparison, rhs: Expr, env: Env): Run
    decreases rhs, 2
  {
    if op.OtherComparison? then Run([], Raised(UnsupportedOperator)) else
    var r := Py(rhs, env);
    if r.out.Raised? then r else Run(r.trace + [Tested(op, l, r.out.v)], Apply(op, l, r.out.v))
  }

  /** `a op1 b op2 c` means `a op1 b and b op2 c`, with b evaluated once (section 6.10). */
  function PyChain(l: Value, ops: seq<Comparison>, comparators: seq<Expr>, env: Env): Run
    decreases comparators, 0
  {
    if ops == [] || comparators == [] then Run([], Returned(BoolV(true))) else
    var first := PyLink(l, ops[0], comparators[0], env);
    if |ops| == 1 || |comparators| == 1 || first.out.Raised? then first
    else Connect(And, first, PyChain(Py(comparators[0], env).out.v, ops[1..], comparators[1..], env))
  }

  // ------------------------------------------------------------ equivalence

  /** Whatever the variables hold, the expression can only have a Boolean value. */
  predicate BooleanTyped(e: Expr) {
    match e
    case BoolOp(_, values) => forall v <- values :: BooleanTyped(v)
    case Compare(_, _, _) => true
    case UnaryOp(op, _) => op != USub
    case Constant(v) => v.BoolV?
    case _ => false
  }

  /** An operand of a comparison or of unary minus: an `and`/`or` there must be Boolean-typed. */
  predicate PlainOperand(e: Expr) {
    e.BoolOp? ==> BooleanTyped(e)
  }

  /** Everywhere in the expression, operands whose exact value matters are plain. */
  predicate Plain(e: Expr) {
    match e
    case BoolOp(_, values) => forall v <- values :: Plain(v)
    case Compare(left, ops, comparators) =>
      PlainOperand(left) && Plain(left) && forall c <- comparators :: PlainOperand(c) && Plain(c)
    case UnaryOp(op, operand) => (op == USub ==> PlainOperand(operand)) && Plain(operand)
    case _ => true
  }

  /** No `and`/`or` is a direct operand of a comparison or of unary minus. */
  predicate NoConnectiveOperand(e: Expr) {
    match e
    case BoolOp(_, values) => forall v <- values :: NoConnectiveOperand(v)
    case Compare(left, ops, comparators) =>
      !left.BoolOp? && NoConnectiveOperand(left) &&
      forall c <- comparators :: !c.BoolOp? && NoConnectiveOperand(c)
    case UnaryOp(op, operand) => (op == USub ==> !operand.BoolOp?) && NoConnectiveOperand(operand)
    case _ => true
  }

  lemma {:induction false} NoConnectiveOperandIsPlain(e: Expr)
    requires NoConnectiveOperand(e)
    ensures Plain(e)
  {
    match e
    case BoolOp(_, values) =>
      forall v | v in values ensures Plain(v) { NoConnectiveOperandIsPlain(v); }
    case Compare(left, ops, comparators) =>
      NoConnectiveOperandIsPlain(left);
      forall c | c in comparators ensures Plain(c) { NoConnectiveOperandIsPlain(c); }
    case UnaryOp(_, operand) => NoConnectiveOperandIsPlain(operand);
    case _ =>
  }

  /** Same reads, comparisons and negations; same error, or values of the same truth. */
  predicate SameTruth(r: Run, s: Run) {
    r.trace == s.trace &&
    match (r.out, s.out)
    case (Raised(a), Raised(b)) => a == b
    case (Returned(a), Returned(b)) => Truthy(a) == Truthy(b)
    case _ => false
  }

  lemma {:induction false} BooleanTypedValue(e: Expr, env: Env)
    requires BooleanTyped(e)
    ensures Py(e, env).out.Returned? ==> Py(e, env).out.v.BoolV?
    decreases e, 1
  {
    match e
    case BoolOp(op, values) => BooleanTypedValues(op, values, env);
    case Compare(left, ops, comparators) =>
      var l := Py(left, env);
      if l.out.Returned? { ChainValue(l.out.v, ops, comparators, env); }
    case _ =>
  }

  lemma {:induction false} BooleanTypedValues(op: Connective, values: seq<Expr>, env: Env)
    requires forall v <- values :: BooleanTyped(v)
    ensures PyBool(op, values, env).out.Returned? ==> PyBool(op, values, env).out.v.BoolV?
    decreases values, 0
  {
    if values != [] {
      BooleanTypedValue(values[0], env);
      BooleanTypedValues(op, values[1..], env);
    }
  }

  lemma {:induction false} ChainValue(l: Value, ops: seq<Comparison>, comparators: seq<Expr>, env: Env)
    ensures PyChain(l, ops, comparators, env).out.Returned? ==> PyChain(l, ops, comparators, env).out.v.BoolV?
    decreases |comparators|
  {
    if |ops| > 1 && |comparators| > 1 {
      var r := Py(comparators[0], env);
      if r.out.Returned? { ChainValue(r.out.v, ops[1..], comparators[1..], env); }
    }
  }

  /**
   On plain expressions the evaluator and Python read, compare and negate the same
   things, raise the same error, and agree on the truth of the value; where the value
   itself matters (anything but an `and`/`or` that mixes types) it is identical.
  */
  lemma {:induction false} EvalAgreesWithPython(e: Expr, env: Env)
    requires Plain(e)
    ensures SameTruth(Eval(e, env), Py(e, env))
    ensures PlainOperand(e) ==> Eval(e, env) == Py(e, env)
    decreases e, 1
  {
    match e
    case BoolOp(op, values) => BoolAgrees(op, values, env);
    case Compare(left, ops, comparators) =>
      EvalAgreesWithPython(left, env);
      var l := Py(left, env);
      if l.out.Returned? { ChainAgrees(l.out.v, ops, comparators, env); }
    case UnaryOp(op, operand) => EvalAgreesWithPython(operand, env);
    case _ =>
  }

  lemma {:induction false} BoolAgrees(op: Connective, values: seq<Expr>, env: Env)
    requires forall v <- values :: Plain(v)
    ensures SameTruth(EvalBool(op, values, env), PyBool(op, values, env))
    ensures (forall v <- values :: BooleanTyped(v)) ==> EvalBool(op, values, env) == PyBool(op, values, env)
    decreases values, 0
  {
    if values != [] {
      EvalAgreesWithPython(values[0], env);
      BoolAgrees(op, values[1..], env);
      var r := Py(values[0], env);
      assert r.trace + [] == r.trace;
      if BooleanTyped(values[0]) { BooleanTypedValue(values[0], env); }
      if |values| == 1 { assert EvalBool(op, values[1..], env) == Run([], Returned(BoolV(op.And?))); }
    }
  }

  lemma {:induction false} ChainAgrees(l: Value, ops: seq<Comparison>, comparators: seq<Expr>, env: Env)
    requires forall c <- comparators :: PlainOperand(c) && Plain(c)
    ensures EvalChain(l, ops, comparators, env) == PyChain(l, ops, comparators, env)
    decreases comparators, 0
  {
    if ops != [] && comparators != [] {
      EvalAgreesWithPython(comparators[0], env);
      var r := Py(comparators[0], env);
      if r.out.Returned? {
        ChainAgrees(r.out.v, ops[1..], comparators[1..], env);
        var seen := r.trace + [Tested(ops[0], l, r.out.v)];
        assert seen + [] == seen;
        if |ops| == 1 || |comparators| == 1 {
          assert EvalChain(r.out.v, ops[1..], comparators[1..], env) == Run([], Returned(BoolV(true)));
        }
      }
    }
  }

  /** The truth value, or the error, of a condition is Python's. */
  lemma ConditionMeansWhatPythonSays(e: Expr, env: Env)
    requires NoConnectiveOperand(e)
    ensures Eval(e, env).trace == Py(e, env).trace
    ensures match Py(e, env).out
            case Raised(err) => Meaning(Some(e), env) == Raised(err)
            case Returned(v) => Meaning(Some(e), env) == Returned(BoolV(Truthy(v)))
  {
    NoConnectiveOperandIsPlain(e);
    EvalAgreesWithPython(e, env);
  }

  /**
   The side condition is needed for every comparison operator, on either side, with
   either connective, and for unary minus: an environment where the two differ.
  */
  lemma ConnectiveOperandsDiffer(op: Connective, cmp: Comparison)
    requires !cmp.OtherComparison?
    ensures exists env: Env ::
              !SameTruth(Eval(Compare(BoolOp(op, [Name("a"), Name("b")]), [cmp], [Name("c")]), env),
                         Py(Compare(BoolOp(op, [Name("a"), Name("b")]), [cmp], [Name("c")]), env))
    ensures exists env: Env ::
              !SameTruth(Eval(Compare(Name("c"), [cmp], [BoolOp(op, [Name("a"), Name("b")])]), env),
                         Py(Compare(Name("c"), [cmp], [BoolOp(op, [Name("a"), Name("b")])]), env))
    ensures exists env: Env ::
              !SameTruth(Eval(UnaryOp(USub, BoolOp(op, [Name("a"), Name("b")])), env),
                         Py(UnaryOp(USub, BoolOp(op, [Name("a"), Name("b")])), env))
  {
    var both := BoolOp(op, [Name("a"), Name("b")]);
    ConnectiveComparedDiffers(op, cmp, both);
    ConnectiveNegatedDiffers(op, both);
  }

  lemma {:induction false} ConnectiveNegatedDiffers(op: Connective, both: Expr)
    requires both == BoolOp(op, [Name("a"), Name("b")])
    ensures exists env: Env :: !SameTruth(Eval(UnaryOp(USub, both), env), Py(UnaryOp(USub, both), env))
  {
    var words: Env := map["a" := StrV("x"), "b" := StrV("x")];
    ConnectiveOfNames(op, words);
    assert !SameTruth(Eval(UnaryOp(USub, both), words), Py(UnaryOp(USub, both), words));
  }

  lemma {:induction false} ConnectiveComparedDiffers(op: Connective, cmp: Comparison, both: Expr)
    requires !cmp.OtherComparison? && both == BoolOp(op, [Name("a"), Name("b")])
    ensures exists env: Env ::
              !SameTruth(Eval(Compare(both, [cmp], [Name("c")]), env), Py(Compare(both, [cmp], [Name("c")]), env))
    ensures exists env: Env ::
              !SameTruth(Eval(Compare(Name("c"), [cmp], [both]), env), Py(Compare(Name("c"), [cmp], [both]), env))
  {
    var c := if cmp.Eq? || cmp.NotEq? then 3.0 else 2.0;
    var env: Env := map["a" := NumV(3.0), "b" := NumV(3.0), "c" := NumV(c)];
    ConnectiveOfNames(op, env);
    SingleComparison(both, cmp, Name("c"), env);
    SingleComparison(Name("c"), cmp, both, env);
    SingleComparisonInPython(both, cmp, Name("c"), env);
    SingleComparisonInPython(Name("c"), cmp, both, env);
    assert !SameTruth(Eval(Compare(both, [cmp], [Name("c")]), env), Py(Compare(both, [cmp], [Name("c")]), env));
    assert !SameTruth(Eval(Compare(Name("c"), [cmp], [both]), env), Py(Compare(Name("c"), [cmp], [both]), env));
  }

  lemma SingleComparison(l: Expr, cmp: Comparison, r: Expr, env: Env)
    requires !cmp.OtherComparison?
    requires Eval(l, env).out.Returned? && Eval(r, env).out.Returned?
    requires Apply(cmp, Eval(l, env).out.v, Eval(r, env).out.v).Returned?
    ensures Eval(Compare(l, [cmp], [r]), env).out.Returned?
    ensures Truthy(Eval(Compare(l, [cmp], [r]), env).out.v)
            == Truthy(Apply(cmp, Eval(l, env).out.v, Eval(r, env).out.v).v)
  {
    var left, right := Eval(l, env), Eval(r, env);
    var answer := Apply(cmp, left.out.v, right.out.v);
    var ops, comparators := [cmp], [r];
    var done := EvalChain(right.out.v, ops[1..], comparators[1..], env);
    assert done == Run([], Returned(BoolV(true)));
    var chain := EvalChain(left.out.v, ops, comparators, env);
    assert chain.out == Returned(BoolV(Truthy(answer.v)));
  }

  lemma SingleComparisonInPython(l: Expr, cmp: Comparison, r: Expr, env: Env)
    requires !cmp.OtherComparison?
    requires Py(l, env).out.Returned? && Py(r, env).out.Returned?
    ensures Py(Compare(l, [cmp], [r]), env).out == Apply(cmp, Py(l, env).out.v, Py(r, env).out.v)
  {
    var ops, comparators := [cmp], [r];
    var chain := PyChain(Py(l, env).out.v, ops, comparators, env);
    assert chain == PyLink(Py(l, env).out.v, ops[0], comparators[0], env);
    assert Py(Compare(l, ops, comparators), env).out == chain.out;
  }

  lemma ConnectiveOfNames(op: Connective, env: Env)
    requires "a" in env && "b" in env && env["a"] == env["b"] && Truthy(env["a"])
    ensures Eval(BoolOp(op, [Name("a"), Name("b")]), env).out == Returned(BoolV(true))
    ensures Py(BoolOp(op, [Name("a"), Name("b")]), env).out == Returned(env["a"])
  {
    var values := [Name("a"), Name("b")];
    assert values[1..] == [Name("b")] && values[1..][1..] == [];
    assert EvalBool(op, values[1..], env).out == Returned(BoolV(true)) by {
      assert EvalBool(op, values[1..][1..], env) == Run([], Returned(BoolV(op.And?)));
    }
  }

  // ------------------------------------------------------------- dependence

  /** The names an expression mentions. */
  function Names(e: Expr): set<string> {
    match e
    case BoolOp(_, values) => set v, n | v in values && n in Names(v) :: n
    case Compare(left, ops, comparators) => Names(left) + set c, n | c in comparators && n in Names(c) :: n
    case UnaryOp(_, operand) => Names(operand)
    case Name(id) => {id}
    case _ => {}
  }

  predicate AgreeOn(names: set<string>, env: Env, other: Env) {
    forall n <- names :: (n in env <==> n in other) && (n in env ==> env[n] == other[n])
  }

  /** Two environments that agree on the names mentioned give the same run. */
  lemma {:induction false} DependsOnNamesOnly(e: Expr, env: Env, other: Env)
    requires AgreeOn(Names(e), env, other)
    ensures Eval(e, env) == Eval(e, other)
    decreases e, 1
  {
    match e
    case BoolOp(op, values) => BoolDependsOnNamesOnly(op, values, env, other);
    case Compare(left, ops, comparators) =>
      DependsOnNamesOnly(left, env, other);
      var l := Eval(left, env);
      if l.out.Returned? { ChainDependsOnNamesOnly(l.out.v, ops, comparators, env, other); }
    case UnaryOp(_, operand) => DependsOnNamesOnly(operand, env, other);
    case _ =>
  }

  lemma {:induction false} BoolDependsOnNamesOnly(op: Connective, values: seq<Expr>, env: Env, other: Env)
    requires forall v <- values :: AgreeOn(Names(v), env, other)
    ensures EvalBool(op, values, env) == EvalBool(op, values, other)
    decreases values, 0
  {
    if values != [] {
      DependsOnNamesOnly(values[0], env, other);
      BoolDependsOnNamesOnly(op, values[1..], env, other);
    }
  }

  lemma {:induction false} ChainDependsOnNamesOnly(l: Value, ops: seq<Comparison>, comparators: seq<Expr>,
                                                   env: Env, other: Env)
    requires forall c <- comparators :: AgreeOn(Names(c), env, other)
    ensures EvalChain(l, ops, comparators, env) == EvalChain(l, ops, comparators, other)
    decreases comparators, 0
  {
    if ops != [] && comparators != [] {
      DependsOnNamesOnly(comparators[0], env, other);
      var r := Eval(comparators[0], env);
      if r.out.Returned? { ChainDependsOnNamesOnly(r.out.v, ops[1..], comparators[1..], env, other); }
    }
  }
}
