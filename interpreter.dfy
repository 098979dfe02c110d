/**
 * The evaluator (Interpreter.cs): expression trees are reduced to data
 * nodes by structural recursion, and a program is run statement by
 * statement, each print statement contributing one line of output.  The
 * console is modelled as the sequence of values printed.
 */
module Interpreter {
  import opened Errors
  import opened Values
  import opened Syntax

  const InvalidTypes: string := "Invalid data types in operator"
  const InvalidOperator: string := "Invalid operator"
  const InvalidExpression: string := "Tried to get value of an invalid node"
  const InvalidNode: string := "Invalid node"
  const DivisionByZero: string := "Division by zero"

  /** The symbols the evaluator knows. */
  const Arithmetic: set<string> := {"+", "-", "*", "/"}

  /** ParseOperator's dispatch on the operator symbol and the operand types. */
  function Apply(op: string, left: Value, right: Value): Result<Value> {
    match op
    case "+" =>
      if left.NumberNode? && right.NumberNode? then Ok(Add(left.number, right.number))
      else if left.StringNode? && right.StringNode? then Ok(Concat(left.text, right.text))
      else Err(GenericError(InvalidTypes))
    case "-" =>
      if left.NumberNode? && right.NumberNode? then Ok(Subtract(left.number, right.number))
      else Err(GenericError(InvalidTypes))
    case "*" =>
      if left.NumberNode? && right.NumberNode? then Ok(Multiply(left.number, right.number))
      else Err(GenericError(InvalidTypes))
    case "/" =>
      if left.NumberNode? && right.NumberNode? then
        if right.number == 0.0 then Err(NumericError(DivisionByZero)) else Ok(Divide(left.number, right.number))
      else Err(GenericError(InvalidTypes))
    case _ => Err(GenericError(InvalidOperator))
  }

  /** GetValue: a data node is its own value, an operator node is computed,
      any other node is an error. */
  function GetValue(e: Expr): Result<Value>
    decreases e, 1
  {
    match e
    case Data(v) => Ok(v)
    case Operator(_, _, _) => OperatorValue(e)
    case _ => Err(GenericError(InvalidExpression))
  }

  /** ParseOperator: both operands are evaluated, left first, before the
      operator is looked at. */
  function OperatorValue(e: Expr): Result<Value>
    requires e.Operator?
    decreases e, 0
  {
    match GetValue(e.left)
    case Err(err) => Err(err)
    case Ok(l) =>
      match GetValue(e.right)
      case Err(err) => Err(err)
      case Ok(r) => Apply(e.op, l, r)
  }

  // ---------------------------------------------------------------------------
  // The typing rule
  // ---------------------------------------------------------------------------

  /** The type an operator gives to operands of the given types, if any:
      `+` joins two numbers or two strings, the other three only numbers. */
  function ResultType(op: string, left: DataType, right: DataType): Option<DataType> {
    if op == "+" && left == right && left != DataType.Boolean then Some(left)
    else if op in {"-", "*", "/"} && left == DataType.Number && right == DataType.Number then Some(DataType.Number)
    else None
  }

  /** The static type of an expression: data and operator nodes only. */
  function TypeCheck(e: Expr): Option<DataType> {
    match e
    case Data(v) => Some(TypeOf(v))
    case Operator(l, op, r) =>
      (match (TypeCheck(l), TypeCheck(r))
       case (Some(lt), Some(rt)) => ResultType(op, lt, rt)
       case _ => None)
    case _ => None
  }

  /** The operators on values: a result exists exactly when the typing rule
      gives the operand types a type (and the divisor of a division is not
      zero); it has that type, which is also the operands' type; every other
      case is the error for its kind. */
  lemma ApplySpec(op: string, left: Value, right: Value)
    ensures Apply(op, left, right).Ok? <==>
      ResultType(op, TypeOf(left), TypeOf(right)).Some? && !(op == "/" && right == NumberNode(0.0))
    ensures Apply(op, left, right).Ok? ==>
      TypeOf(Apply(op, left, right).value) == ResultType(op, TypeOf(left), TypeOf(right)).value == TypeOf(left) == TypeOf(right)
    ensures op !in Arithmetic ==> Apply(op, left, right) == Err(GenericError(InvalidOperator))
    ensures op in Arithmetic && ResultType(op, TypeOf(left), TypeOf(right)).None? ==>
      Apply(op, left, right) == Err(GenericError(InvalidTypes))
  {
  }

  /** The arithmetic of the four operators on numbers, and `+` on strings. */
  lemma ApplyValues(left: Value, right: Value)
    ensures left.NumberNode? && right.NumberNode? ==>
      && Apply("+", left, right) == Ok(NumberNode(left.number + right.number))
      && Apply("-", left, right) == Ok(NumberNode(left.number - right.number))
      && Apply("*", left, right) == Ok(NumberNode(left.number * right.number))
      && (right.number != 0.0 ==> Apply("/", left, right) == Ok(NumberNode(left.number / right.number)))
    ensures left.StringNode? && right.StringNode? ==> Apply("+", left, right) == Ok(StringNode(left.text + right.text))
  {
    if left.NumberNode? && right.NumberNode? {
      assert Apply("*", left, right) == Ok(Multiply(left.number, right.number));
      assert Multiply(left.number, right.number) == NumberNode(left.number * right.number);
    }
  }

  /** Type soundness: a value computed for an expression has the expression's
      static type, and an expression that has a static type always has a
      value unless a division by zero occurs. */
  lemma {:induction false} TypeSoundness(e: Expr)
    ensures GetValue(e).Ok? ==> TypeCheck(e) == Some(TypeOf(GetValue(e).value))
    ensures TypeCheck(e).Some? ==> GetValue(e).Ok? || GetValue(e).error == NumericError(DivisionByZero)
  {
    match e
    case Data(_) =>
    case Operator(l, op, r) =>
      TypeSoundness(l);
      TypeSoundness(r);
      if GetValue(l).Ok? && GetValue(r).Ok? {
        ApplySpec(op, GetValue(l).value, GetValue(r).value);
      }
    case _ =>
  }

  /** An operand's error is reported before anything about the operator:
      the left operand's first, then the right operand's. */
  lemma OperandErrorsFirst(l: Expr, op: string, r: Expr)
    ensures GetValue(l).Err? ==> GetValue(Operator(l, op, r)) == Err(GetValue(l).error)
    ensures GetValue(l).Ok? && GetValue(r).Err? ==> GetValue(Operator(l, op, r)) == Err(GetValue(r).error)
    ensures GetValue(l).Ok? && GetValue(r).Ok? ==> GetValue(Operator(l, op, r)) == Apply(op, GetValue(l).value, GetValue(r).value)
  {
  }

  // ---------------------------------------------------------------------------
  // Running a program
  // ---------------------------------------------------------------------------

  /** What one statement prints, or the error it raises: only print
      statements are run. */
  function Execute(s: Stmt): Result<Value> {
    match s
    case Print(e) => GetValue(e)
    case _ => Err(GenericError(InvalidNode))
  }

  /** Run: the statements are run in order, each printing one value; the run
      stops at the first statement that fails.  The output is the values
      printed until then. */
  method Run(nodes: seq<Stmt>) returns (output: seq<Value>, outcome: Outcome)
    ensures |output| <= |nodes|
    ensures forall k :: 0 <= k < |output| ==> Execute(nodes[k]) == Ok(output[k])
    ensures outcome.Pass? <==> |output| == |nodes|
    ensures outcome.Fail? ==> Execute(nodes[|output|]) == Err(outcome.error)
  {
    output := [];
    for k := 0 to |nodes|
      invariant |output| == k
      invariant forall j :: 0 <= j < k ==> Execute(nodes[j]) == Ok(output[j])
    {
      match nodes[k] {
        case Print(data) =>
          var value := GetValue(data);
          if value.Err? {
            return output, Fail(value.error);
          }
          output := output + [value.value];
        case _ =>
          return output, Fail(GenericError(InvalidNode));
      }
    }
    outcome := Pass;
  }
}
