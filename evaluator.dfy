/** The evaluator: folds an expression tree into a `Number` node.  Numbers are
    `real`s; `+`, `-`, `*`, negation and absolute value are exact, while
    division, power and the named library functions come from a `MathLibrary`
    the caller supplies. */
module Evaluation {
  import opened Common
  import opened Lexing
  import opened Grammar

  /** The floating-point operations the evaluator takes from the platform. */
  datatype MathLibrary = MathLibrary(
    divide: (real, real) -> real,
    power: (real, real) -> real,
    sin: real -> real,
    cos: real -> real,
    tan: real -> real,
    asin: real -> real,
    acos: real -> real,
    atan: real -> real,
    sqrt: real -> real,
    ln: real -> real,
    log10: real -> real,
    log: (real, real) -> real)

  function Abs(x: real): (r: real)
    ensures r >= 0.0 && (r == x || r == -x)
  {
    if x < 0.0 then -x else x
  }

  /** The names of the function table. */
  const FunctionNames: set<string> :=
    {"root", "sin", "cos", "tan", "asin", "acos", "atan", "sqrt", "ln", "log", "abs"}

  /** How many arguments a table function reads at least: `root` reads two, the
      others one (`log` reads a second one only when it is given). */
  function MinimumArguments(name: string): nat {
    if name == "root" then 2 else 1
  }

  /** One-argument table entries read `args[0]` only. */
  function ApplyToFirst(args: seq<real>, f: real -> real): (r: Result<real>)
    ensures r.Ok? <==> |args| >= 1
    ensures r.Err? ==> r.error == ArgumentIndexOutOfBounds
    ensures r.Ok? ==> r.value == f(args[0])
  {
    if |args| == 0 then Err(ArgumentIndexOutOfBounds) else Ok(f(args[0]))
  }

  /** Dispatch of a call on its evaluated arguments.  An unknown name fails;
      reading an argument position past the end fails; further arguments are
      never read. */
  function Apply(name: string, args: seq<real>, math: MathLibrary): (r: Result<real>)
    ensures r.Ok? <==> name in FunctionNames && |args| >= MinimumArguments(name)
    ensures r.Err? ==>
              r.error == (if name in FunctionNames then ArgumentIndexOutOfBounds else InvalidFunctionName)
  {
    if name == "root" then
      if |args| < 2 then Err(ArgumentIndexOutOfBounds)
      else Ok(math.power(args[0], math.divide(1.0, args[1])))
    else if name == "sin" then ApplyToFirst(args, math.sin)
    else if name == "cos" then ApplyToFirst(args, math.cos)
    else if name == "tan" then ApplyToFirst(args, math.tan)
    else if name == "asin" then ApplyToFirst(args, math.asin)
    else if name == "acos" then ApplyToFirst(args, math.acos)
    else if name == "atan" then ApplyToFirst(args, math.atan)
    else if name == "sqrt" then ApplyToFirst(args, math.sqrt)
    else if name == "ln" then ApplyToFirst(args, math.ln)
    else if name == "log" then
      if |args| == 1 then Ok(math.log10(args[0]))
      else if |args| < 2 then Err(ArgumentIndexOutOfBounds)
      else Ok(math.log(args[0], args[1]))
    else if name == "abs" then ApplyToFirst(args, Abs)
    else Err(InvalidFunctionName)
  }

  /** What `root` and `log` compute from their first two arguments, whatever
      further arguments follow: `root` is the power by the reciprocal, and
      `log` is the common logarithm of one argument, or the logarithm of the
      first argument to the base of the second. */
  lemma TwoArgumentValues(x: real, y: real, extra: seq<real>, math: MathLibrary)
    ensures Apply("root", [x, y] + extra, math) == Ok(math.power(x, math.divide(1.0, y)))
    ensures Apply("root", [x], math) == Err(ArgumentIndexOutOfBounds)
    ensures Apply("log", [x], math) == Ok(math.log10(x))
    ensures Apply("log", [x, y] + extra, math) == Ok(math.log(x, y))
  {
  }

  /** What each one-argument table entry computes: its function of the first
      argument, whatever further arguments follow. */
  lemma OneArgumentValues(x: real, extra: seq<real>, math: MathLibrary)
    ensures Apply("sin", [x] + extra, math) == Ok(math.sin(x))
    ensures Apply("cos", [x] + extra, math) == Ok(math.cos(x))
    ensures Apply("tan", [x] + extra, math) == Ok(math.tan(x))
    ensures Apply("asin", [x] + extra, math) == Ok(math.asin(x))
    ensures Apply("acos", [x] + extra, math) == Ok(math.acos(x))
    ensures Apply("atan", [x] + extra, math) == Ok(math.atan(x))
    ensures Apply("sqrt", [x] + extra, math) == Ok(math.sqrt(x))
    ensures Apply("ln", [x] + extra, math) == Ok(math.ln(x))
    ensures Apply("abs", [x] + extra, math) == Ok(Abs(x))
  {
  }

  /** Evaluates `node`; on success the result is always a `Number` node. */
  function Evaluate(node: Node, math: MathLibrary): (r: Result<Node>)
    ensures r.Ok? ==> r.value.Number?
    decreases node, 1
  {
    match node
    case Number(_) => Ok(node)
    case Binary(right, left, operator) => EvalBinary(left, right, operator, math)
    case Unary(right, operator) => EvalUnary(right, operator, math)
    case Assignment(name, value) => EvalAssignment(name, value, math)
    case FunctionCall(name, args) => EvalCall(name, args, math)
    case Variable(_) => Err(InvalidNode)
  }

  /** Evaluates the `left` child, then the `right` child, and computes
      `left operator right`. */
  function EvalBinary(left: Node, right: Node, operator: Token, math: MathLibrary): (r: Result<Node>)
    ensures r.Ok? ==> r.value.Number?
    decreases Binary(right, left, operator), 0
  {
    var l :- Evaluate(left, math);
    var rt :- Evaluate(right, math);
    if l.Number? && rt.Number? then
      match operator
      case Plus => Ok(Node.Number(l.number + rt.number))
      case Minus => Ok(Node.Number(l.number - rt.number))
      case Asterisk => Ok(Node.Number(l.number * rt.number))
      case Slash => Ok(Node.Number(math.divide(l.number, rt.number)))
      case Caret => Ok(Node.Number(math.power(l.number, rt.number)))
      case _ => Err(InvalidBinaryOperator)
    else
      Err(InvalidBinaryOperands)
  }

  function EvalUnary(right: Node, operator: Token, math: MathLibrary): (r: Result<Node>)
    ensures r.Ok? ==> r.value.Number?
    decreases Unary(right, operator), 0
  {
    var v :- Evaluate(right, math);
    if v.Number? then
      if operator == Minus then Ok(Node.Number(-v.number)) else Err(InvalidUnaryOperator)
    else
      Err(InvalidUnaryOperand)
  }

  /** The value of an assignment is the value of its right-hand side; the name
      is not bound anywhere. */
  function EvalAssignment(name: string, value: Node, math: MathLibrary): (r: Result<Node>)
    ensures r.Ok? ==> r.value.Number?
    decreases Assignment(name, value), 0
  {
    var v :- Evaluate(value, math);
    if v.Number? then Ok(Node.Number(v.number)) else Err(InvalidAssignmentValue)
  }

  /** A call: every argument is evaluated, in order, then the name is looked up. */
  function EvalCall(name: string, args: seq<Node>, math: MathLibrary): (r: Result<Node>)
    ensures r.Ok? ==> r.value.Number?
    ensures EvalArgs(args, math).Err? ==> r == Err(EvalArgs(args, math).error)
    ensures EvalArgs(args, math).Ok? ==>
              var a := Apply(name, EvalArgs(args, math).value, math);
              (a.Ok? ==> r == Ok(Node.Number(a.value))) && (a.Err? ==> r == Err(a.error))
    decreases FunctionCall(name, args), 0
  {
    var values :- EvalArgs(args, math);
    var v :- Apply(name, values, math);
    Ok(Node.Number(v))
  }

  /** The numbers the arguments evaluate to, or the failure of the first argument
      that does not evaluate. */
  function EvalArgs(args: seq<Node>, math: MathLibrary): (r: Result<seq<real>>)
    ensures r.Ok? ==> |r.value| == |args|
                      && forall i | 0 <= i < |args| :: Evaluate(args[i], math) == Ok(Node.Number(r.value[i]))
    ensures r.Err? ==> exists i | 0 <= i < |args| ::
                         Evaluate(args[i], math) == Err(r.error)
                         && forall j | 0 <= j < i :: Evaluate(args[j], math).Ok?
    decreases args
  {
    if args == [] then
      Ok([])
    else
      var init :- EvalArgs(args[..|args| - 1], math);
      var last :- Evaluate(args[|args| - 1], math);
      if last.Number? then Ok(init + [last.number]) else Err(InvalidArgument)
  }

  /** The evaluation of a call as a loop that collects the argument values. */
  method EvalFunctionCall(name: string, args: seq<Node>, math: MathLibrary) returns (r: Result<Node>)
    ensures r == Evaluate(FunctionCall(name, args), math)
  {
    var parsedArgs: seq<real> := [];
    for i := 0 to |args|
      invariant EvalArgs(args[..i], math) == Ok(parsedArgs)
    {
      assert args[..i + 1][..i] == args[..i];
      var v :- Evaluate(args[i], math);
      if v.Number? {
        parsedArgs := parsedArgs + [v.number];
      } else {
        return Err(InvalidArgument);
      }
    }
    assert args[..|args|] == args;
    var value :- Apply(name, parsedArgs, math);
    return Ok(Node.Number(value));
  }

  /** The failures of the evaluator's checks that an operand evaluated to a number. */
  predicate IsOperandCheck(e: Error) {
    e == InvalidBinaryOperands || e == InvalidUnaryOperand || e == InvalidArgument
    || e == InvalidAssignmentValue
  }

  /** Operands always evaluate to numbers, so the operand checks never fail. */
  lemma {:induction false} OperandChecksNeverFail(node: Node, math: MathLibrary)
    ensures Evaluate(node, math).Err? ==> !IsOperandCheck(Evaluate(node, math).error)
    decreases node
  {
    match node
    case Number(_) =>
    case Binary(right, left, _) =>
      OperandChecksNeverFail(left, math);
      OperandChecksNeverFail(right, math);
    case Unary(right, _) =>
      OperandChecksNeverFail(right, math);
    case Assignment(_, value) =>
      OperandChecksNeverFail(value, math);
    case FunctionCall(name, args) =>
      forall i | 0 <= i < |args|
        ensures Evaluate(args[i], math).Err? ==> !IsOperandCheck(Evaluate(args[i], math).error)
      {
        OperandChecksNeverFail(args[i], math);
      }
    case Variable(_) =>
  }

  /** A tree evaluates exactly when it holds no variable outside an assignment's
      name and every call names a table function with enough arguments. */
  predicate Evaluable(node: Node) {
    match node
    case Number(_) => true
    case Binary(right, left, _) => Evaluable(right) && Evaluable(left)
    case Unary(right, _) => Evaluable(right)
    case FunctionCall(name, args) =>
      name in FunctionNames && |args| >= MinimumArguments(name)
      && forall a | a in args :: Evaluable(a)
    case Variable(_) => false
    case Assignment(_, value) => Evaluable(value)
  }

  /** The failures evaluation can end in on the trees the parser builds. */
  predicate IsEvaluationError(e: Error) {
    e == InvalidNode || e == InvalidFunctionName || e == ArgumentIndexOutOfBounds
  }

  /** On the trees the parser builds, evaluation succeeds exactly on the
      evaluable ones, and it can only fail on a variable, an unknown function
      name or a missing argument. */
  lemma {:induction false} EvaluatesExactly(node: Node, math: MathLibrary)
    requires WellFormed(node)
    ensures Evaluate(node, math).Ok? <==> Evaluable(node)
    ensures Evaluate(node, math).Err? ==>
              IsEvaluationError(Evaluate(node, math).error)
    decreases node
  {
    match node
    case Number(_) =>
    case Binary(right, left, _) =>
      EvaluatesExactly(left, math);
      EvaluatesExactly(right, math);
    case Unary(right, _) =>
      EvaluatesExactly(right, math);
    case Assignment(_, value) =>
      EvaluatesExactly(value, math);
    case FunctionCall(name, args) =>
      forall i | 0 <= i < |args|
        ensures Evaluate(args[i], math).Ok? <==> Evaluable(args[i])
        ensures Evaluate(args[i], math).Err? ==>
                  IsEvaluationError(Evaluate(args[i], math).error)
      {
        assert args[i] in args;
        EvaluatesExactly(args[i], math);
      }
    case Variable(_) =>
  }

  /** An assignment evaluates to its value and binds nothing: the name plays no part. */
  lemma AssignmentIsValue(name: string, value: Node, math: MathLibrary)
    ensures Evaluate(Assignment(name, value), math) == Evaluate(value, math)
  {
  }

  /** The operators a binary node can compute. */
  predicate IsArithmetic(operator: Token) {
    operator == Plus || operator == Minus || operator == Asterisk || operator == Slash || operator == Caret
  }

  /** A negation negates the value of its operand; any other unary operator
      fails; a failing operand fails the node with its own error. */
  lemma UnaryValue(operand: Node, operator: Token, math: MathLibrary)
    ensures var v := Evaluate(operand, math);
            var r := Evaluate(Unary(right := operand, operator := operator), math);
            (v.Err? ==> r == Err(v.error))
            && (v.Ok? && operator == Minus ==> r == Ok(Node.Number(-v.value.number)))
            && (v.Ok? && operator != Minus ==> r == Err(InvalidUnaryOperator))
  {
  }

  /** A binary node computes `left operator right` from the values of its
      children, by field and not by the order they were written in; any
      operator other than `+ - * / ^` fails. */
  lemma BinaryValue(left: Node, right: Node, operator: Token, math: MathLibrary, x: real, y: real)
    requires Evaluate(left, math) == Ok(Node.Number(x)) && Evaluate(right, math) == Ok(Node.Number(y))
    ensures var r := Evaluate(Binary(right := right, left := left, operator := operator), math);
            (operator == Plus ==> r == Ok(Node.Number(x + y)))
            && (operator == Minus ==> r == Ok(Node.Number(x - y)))
            && (operator == Asterisk ==> r == Ok(Node.Number(x * y)))
            && (operator == Slash ==> r == Ok(Node.Number(math.divide(x, y))))
            && (operator == Caret ==> r == Ok(Node.Number(math.power(x, y))))
            && (!IsArithmetic(operator) ==> r == Err(InvalidBinaryOperator))
  {
    assert Evaluate(Binary(right := right, left := left, operator := operator), math)
        == EvalBinary(left, right, operator, math);
    if operator == Asterisk {
      assert EvalBinary(left, right, operator, math).value.number == x * y;
    }
  }

  /** The `left` child is evaluated first: its failure wins over a failure of
      the `right` child, and over the operator check. */
  lemma BinaryFailure(left: Node, right: Node, operator: Token, math: MathLibrary)
    ensures var r := Evaluate(Binary(right := right, left := left, operator := operator), math);
            (Evaluate(left, math).Err? ==> r == Err(Evaluate(left, math).error))
            && (Evaluate(left, math).Ok? && Evaluate(right, math).Err? ==> r == Err(Evaluate(right, math).error))
  {
  }

  /** All arguments are evaluated before the name is looked up: the first
      failing argument decides the error, whatever the name. */
  lemma ArgumentErrorFirst(name: string, args: seq<Node>, math: MathLibrary, i: nat)
    requires i < |args| && Evaluate(args[i], math).Err?
    requires forall j | 0 <= j < i :: Evaluate(args[j], math).Ok?
    ensures Evaluate(FunctionCall(name, args), math) == Err(Evaluate(args[i], math).error)
  {
    var e := EvalArgs(args, math);
    assert e.Err?;
    var k :| 0 <= k < |args| && Evaluate(args[k], math) == Err(e.error)
             && forall j | 0 <= j < k :: Evaluate(args[j], math).Ok?;
    assert k == i;
  }

  /** Arguments after the ones a table function reads make no difference. */
  lemma ExtraArgumentsIgnored(name: string, args: seq<real>, extra: seq<real>, math: MathLibrary)
    requires |args| >= 2 || (|args| == 1 && name != "log" && name != "root")
    ensures Apply(name, args + extra, math) == Apply(name, args, math)
  {
  }

  /** Two subtractions as the parser builds them for `a - b - d`: the value is
      `d - (b - a)`, so `10-3-2` is `2-(3-10)`, that is 9. */
  lemma ChainedDifference(a: Node, b: Node, d: Node, math: MathLibrary, x: real, y: real, z: real)
    requires Evaluate(a, math) == Ok(Node.Number(x)) && Evaluate(b, math) == Ok(Node.Number(y))
    requires Evaluate(d, math) == Ok(Node.Number(z))
    ensures Evaluate(Binary(right := Binary(right := a, left := b, operator := Minus), left := d, operator := Minus), math)
            == Ok(Node.Number(z - (y - x)))
  {
    assert Evaluate(Binary(a, b, Minus), math) == Ok(Node.Number(y - x));
  }
}
