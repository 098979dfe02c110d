/**
 * The grammar the parser implements (Parser.cs, Parser.Utils.cs), written as
 * functions over a token list and a position.  Each function returns the node
 * it recognises together with the position of the first token after it, or
 * the error the parser raises.  The imperative parser (module Parsing) is
 * proved to compute exactly these functions.
 *
 * A program is a sequence of `print ( expression ) ;` statements.  An
 * expression is built by precedence climbing over the operator levels
 * `+ -` (loosest) and `* /`, each level folding its chain to the left, with
 * string, number and boolean literals as the operands.
 */
module Grammar {
  import opened Errors
  import opened Tokens
  import opened Values
  import opened Syntax
  import Tokenizer

  /** A node and the index of the first token that follows it. */
  datatype Parsed<+T> = Parsed(node: T, next: nat)

  /** The free keywords that denote boolean literals. */
  const Booleans: seq<string> := ["true", "false"]

  /** The operator precedence levels: level 0 binds loosest. */
  const Levels: seq<seq<string>> := [["+", "-"], ["*", "/"]]

  const ExpressionExpected: string := "Expression expected"

  /** The parser's input always ends with the EOF token the tokenizer appends. */
  predicate EndsWithEof(tokens: seq<Token>) {
    |tokens| > 0 && tokens[|tokens| - 1].kind == EOF
  }

  /** The token is an operator of the given precedence level. */
  predicate IsLevelOperator(t: Token, level: nat)
    requires level < |Levels|
  {
    t.kind == TokenType.Operator && t.value in Levels[level]
  }

  // ---------------------------------------------------------------------------
  // Expressions
  // ---------------------------------------------------------------------------

  /** ParsePrimitive: a string, a number, or the free keyword `true`/`false`. */
  function PrimitiveAt(tokens: seq<Token>, i: nat): (r: Result<Parsed<Expr>>)
    requires EndsWithEof(tokens) && i < |tokens|
    ensures r.Ok? ==> r.value.next == i + 1 < |tokens| && r.value.node.Data?
  {
    var t := tokens[i];
    match t.kind
    case String => Ok(Parsed(Data(StringNode(t.value)), i + 1))
    case Number =>
      (match ParseNumber(t.value)
       case Ok(n) => Ok(Parsed(Data(NumberNode(n)), i + 1))
       case Err(e) => Err(e))
    case FreeKeyword =>
      if t.value in Booleans then
        (match BooleanFromText(t.value)
         case Ok(b) => Ok(Parsed(Data(b), i + 1))
         case Err(e) => Err(e))
      else Err(GenericError(ExpressionExpected))
    case _ => Err(GenericError(ExpressionExpected))
  }

  /** GetLowerExpression: the operand of a level is a primitive at the last
      level and an expression of the next level otherwise. */
  function LowerAt(tokens: seq<Token>, i: nat, level: nat): (r: Result<Parsed<Expr>>)
    requires EndsWithEof(tokens) && i < |tokens| && level < |Levels|
    ensures r.Ok? ==> i < r.value.next < |tokens|
    decreases |tokens| - i, |Levels| - level, 0
  {
    if level == |Levels| - 1 then PrimitiveAt(tokens, i) else OperatorAt(tokens, i, level + 1)
  }

  /** ParseOperator: an operand followed by any number of operator/operand
      pairs of this level. */
  function OperatorAt(tokens: seq<Token>, i: nat, level: nat): (r: Result<Parsed<Expr>>)
    requires EndsWithEof(tokens) && i < |tokens| && level < |Levels|
    ensures r.Ok? ==> i < r.value.next < |tokens|
    decreases |tokens| - i, |Levels| - level, 1
  {
    match LowerAt(tokens, i, level)
    case Err(e) => Err(e)
    case Ok(p) => OperatorLoop(tokens, p.next, level, p.node)
  }

  /** The loop of ParseOperator from position j, with `data` parsed so far:
      each operator of the level and the operand after it extend `data` on
      the right, so the chain folds to the left. */
  function OperatorLoop(tokens: seq<Token>, j: nat, level: nat, data: Expr): (r: Result<Parsed<Expr>>)
    requires EndsWithEof(tokens) && j < |tokens| && level < |Levels|
    ensures r.Ok? ==> j <= r.value.next < |tokens|
    decreases |tokens| - j, |Levels| - level, 2
  {
    if !IsLevelOperator(tokens[j], level) then Ok(Parsed(data, j))
    else
      match LowerAt(tokens, j + 1, level)
      case Err(e) => Err(e)
      case Ok(p) => OperatorLoop(tokens, p.next, level, Expr.Operator(data, tokens[j].value, p.node))
  }

  /** ParseExpression: an expression of the loosest level. */
  function ExpressionAt(tokens: seq<Token>, i: nat): (r: Result<Parsed<Expr>>)
    requires EndsWithEof(tokens) && i < |tokens|
    ensures r.Ok? ==> i < r.value.next < |tokens|
  {
    OperatorAt(tokens, i, 0)
  }

  // ---------------------------------------------------------------------------
  // Statements and programs
  // ---------------------------------------------------------------------------

  /** ParseStatement: `print ( expression ) ;`. */
  function StatementAt(tokens: seq<Token>, i: nat): (r: Result<Parsed<Stmt>>)
    requires EndsWithEof(tokens) && i < |tokens|
    ensures r.Ok? ==> i + 5 <= r.value.next < |tokens|
  {
    if tokens[i] != Token(Keyword, "print") then Err(GenericError("Statement must start from a keyword"))
    else if tokens[i + 1] != Token(Punctuation, "(") then Err(GenericError("( expected"))
    else
      match ExpressionAt(tokens, i + 2)
      case Err(e) => Err(e)
      case Ok(p) =>
        if tokens[p.next] != Token(Punctuation, ")") then Err(GenericError(") expected"))
        else if tokens[p.next + 1] != Token(Punctuation, ";") then Err(GenericError("; expected"))
        else Ok(Parsed(Print(p.node), p.next + 2))
  }

  /** The loop of Parse from position i, with the statements `acc` read so
      far: statements are read until the EOF token is consumed. */
  function ProgramAt(tokens: seq<Token>, i: nat, acc: seq<Stmt>): (r: Result<seq<Stmt>>)
    requires EndsWithEof(tokens) && i < |tokens|
    ensures r.Ok? ==> |acc| <= |r.value| && r.value[..|acc|] == acc
    decreases |tokens| - i
  {
    if tokens[i].kind == EOF then Ok(acc)
    else
      match StatementAt(tokens, i)
      case Err(e) => Err(e)
      case Ok(p) => ProgramAt(tokens, p.next, acc + [p.node])
  }

  /** Parse: the statements of the whole token list. */
  function ParseProgram(tokens: seq<Token>): Result<seq<Stmt>>
    requires EndsWithEof(tokens)
  {
    ProgramAt(tokens, 0, [])
  }

  // ---------------------------------------------------------------------------
  // Helpers of Parser.Utils.cs
  // ---------------------------------------------------------------------------

  /** TypeFromString: the type keywords name the three data types. */
  function TypeFromString(text: string): (r: Result<DataType>)
    ensures r.Ok? <==> text in ["string", "num", "bool"]
    ensures r.Ok? ==> TypeName(r.value) == (if text == "num" then "Number" else if text == "string" then "String" else "Boolean")
    ensures r.Err? ==> r.error == SyntaxError("Invalid type " + text)
  {
    match text
    case "string" => Ok(DataType.String)
    case "num" => Ok(DataType.Number)
    case "bool" => Ok(DataType.Boolean)
    case _ => Err(SyntaxError("Invalid type " + text))
  }

  /** What Throw_Expected reports when nothing more specific is expected. */
  const DefaultExpected: string := "Expression"

  /** Throw_Expected: the syntax error it always raises. */
  function ExpectedError(actual: string, expected: string): (e: Error)
    ensures e.SyntaxError?
    ensures |e.message| == |expected| + 16 + |actual|
    ensures e.message[..|expected|] == expected && e.message[|e.message| - |actual|..] == actual
    ensures e.message[|expected|..|expected| + 16] == " expected - got "
  {
    SyntaxError(expected + " expected - got " + actual)
  }

  // ---------------------------------------------------------------------------
  // Properties: primitives and statements
  // ---------------------------------------------------------------------------

  /** The tokens ParsePrimitive accepts. */
  predicate IsPrimitive(t: Token) {
    || t.kind == TokenType.String
    || (t.kind == TokenType.Number && Tokenizer.IsNumberText(t.value))
    || (t.kind == FreeKeyword && t.value in Booleans)
  }

  /** A primitive is exactly a string, a number or a boolean keyword, and it
      becomes the data node of that value; every other kind of token is
      rejected with "Expression expected". */
  lemma PrimitiveSpec(tokens: seq<Token>, i: nat)
    requires EndsWithEof(tokens) && i < |tokens|
    ensures PrimitiveAt(tokens, i).Ok? <==> IsPrimitive(tokens[i])
    ensures tokens[i].kind == TokenType.String ==>
      PrimitiveAt(tokens, i) == Ok(Parsed(Data(StringNode(tokens[i].value)), i + 1))
    ensures tokens[i].kind == TokenType.Number && Tokenizer.IsNumberText(tokens[i].value) ==>
      PrimitiveAt(tokens, i) == Ok(Parsed(Data(NumberNode(ParseNumber(tokens[i].value).value)), i + 1))
    ensures tokens[i].kind == FreeKeyword && tokens[i].value in Booleans ==>
      PrimitiveAt(tokens, i) == Ok(Parsed(Data(BooleanNode(tokens[i].value == "true")), i + 1))
    ensures (|| tokens[i].kind !in {TokenType.String, TokenType.Number, FreeKeyword}
             || (tokens[i].kind == FreeKeyword && tokens[i].value !in Booleans)) ==>
      PrimitiveAt(tokens, i) == Err(GenericError(ExpressionExpected))
  {
    var t := tokens[i];
    match t.kind {
      case Number =>
        Values.ParseNumberAccepts(t.value);
        assert PrimitiveAt(tokens, i).Ok? <==> ParseNumber(t.value).Ok?;
      case FreeKeyword =>
        if t.value in Booleans {
          var b := t.value == "true";
          assert t.value == StringValue(BooleanNode(b)).value;
          Values.BooleanRoundTrip(BooleanNode(b));
          assert PrimitiveAt(tokens, i) == Ok(Parsed(Data(BooleanNode(b)), i + 1));
        } else {
          assert PrimitiveAt(tokens, i) == Err(GenericError(ExpressionExpected));
        }
      case _ =>
    }
  }

  /** Parse stops only at EOF: the program is empty exactly when the list
      starts with the EOF token. */
  lemma EmptyProgram(tokens: seq<Token>)
    requires EndsWithEof(tokens)
    ensures ParseProgram(tokens) == Ok([]) <==> tokens[0].kind == EOF
  {
    if tokens[0].kind != EOF {
      match StatementAt(tokens, 0)
      case Err(_) =>
      case Ok(p) =>
        assert [] + [p.node] == [p.node];
        assert ParseProgram(tokens) == ProgramAt(tokens, p.next, [p.node]);
    }
  }

  /** A statement needs every one of its four fixed tokens: each one that is
      missing is reported with its own message. */
  lemma StatementErrors(tokens: seq<Token>, i: nat)
    requires EndsWithEof(tokens) && i < |tokens|
    ensures tokens[i] != Token(Keyword, "print") ==>
      StatementAt(tokens, i) == Err(GenericError("Statement must start from a keyword"))
    ensures tokens[i] == Token(Keyword, "print") && tokens[i + 1] != Token(Punctuation, "(") ==>
      StatementAt(tokens, i) == Err(GenericError("( expected"))
    ensures tokens[i] == Token(Keyword, "print") && tokens[i + 1] == Token(Punctuation, "(") ==>
      (ExpressionAt(tokens, i + 2).Err? ==> StatementAt(tokens, i) == Err(ExpressionAt(tokens, i + 2).error))
    ensures StatementAt(tokens, i).Ok? ==>
      var n := StatementAt(tokens, i).value.next;
      && tokens[i] == Token(Keyword, "print") && tokens[i + 1] == Token(Punctuation, "(")
      && tokens[n - 2] == Token(Punctuation, ")") && tokens[n - 1] == Token(Punctuation, ";")
      && ExpressionAt(tokens, i + 2) == Ok(Parsed(StatementAt(tokens, i).value.node.data, n - 2))
  {
  }

  // ---------------------------------------------------------------------------
  // Properties: precedence and associativity
  // ---------------------------------------------------------------------------

  /** The level of an operator symbol, or |Levels| for anything that is not one. */
  function LevelOf(op: string, k: nat := 0): (l: nat)
    requires k <= |Levels|
    ensures k <= l <= |Levels|
    decreases |Levels| - k
  {
    if k == |Levels| then |Levels| else if op in Levels[k] then k else LevelOf(op, k + 1)
  }

  /** LevelOf finds the one level an operator belongs to: the levels are disjoint. */
  lemma LevelOfSpec(op: string, level: nat)
    requires level < |Levels|
    ensures op in Levels[level] <==> LevelOf(op) == level
  {
  }

  /** How tightly an expression binds: the level of its root operator, or
      |Levels| for an operand. */
  function Prec(e: Expr): nat {
    if e.Operator? then LevelOf(e.op) else |Levels|
  }

  /** The trees the parser builds: data at the leaves; each operator's left
      operand binds at least as tightly as it does, its right operand strictly
      more tightly.  The first condition is precedence, the second is
      left associativity. */
  predicate WellNested(e: Expr) {
    match e
    case Data(_) => true
    case Operator(l, op, r) =>
      LevelOf(op) < |Levels| && WellNested(l) && WellNested(r) && Prec(l) >= LevelOf(op) && Prec(r) > LevelOf(op)
    case _ => false
  }

  /** Every expression the parser yields is well nested and all its data
      have a token form, and one parsed at a level binds at least as tightly
      as that level. */
  lemma {:induction false} OperatorNests(tokens: seq<Token>, i: nat, level: nat)
    requires EndsWithEof(tokens) && i < |tokens| && level < |Levels|
    ensures OperatorAt(tokens, i, level).Ok? ==>
      Canonical(OperatorAt(tokens, i, level).value.node) && Prec(OperatorAt(tokens, i, level).value.node) >= level
    decreases |tokens| - i, |Levels| - level, 1
  {
    match LowerAt(tokens, i, level)
    case Err(_) =>
    case Ok(p) =>
      LowerNests(tokens, i, level);
      LoopNests(tokens, p.next, level, p.node);
  }

  lemma {:induction false} LowerNests(tokens: seq<Token>, i: nat, level: nat)
    requires EndsWithEof(tokens) && i < |tokens| && level < |Levels|
    ensures LowerAt(tokens, i, level).Ok? ==>
      Canonical(LowerAt(tokens, i, level).value.node) && Prec(LowerAt(tokens, i, level).value.node) > level
    decreases |tokens| - i, |Levels| - level, 0
  {
    if level < |Levels| - 1 {
      OperatorNests(tokens, i, level + 1);
    } else {
      PrimitivePrintable(tokens, i);
    }
  }

  /** Every data node the parser builds has a token form: a number node's
      value is denoted by the text of the token it came from. */
  lemma PrimitivePrintable(tokens: seq<Token>, i: nat)
    requires EndsWithEof(tokens) && i < |tokens|
    ensures PrimitiveAt(tokens, i).Ok? ==> Canonical(PrimitiveAt(tokens, i).value.node)
  {
    var t := tokens[i];
    if t.kind == TokenType.Number && ParseNumber(t.value).Ok? {
      Values.ParseNumberAccepts(t.value);
      assert IsDecimal(ParseNumber(t.value).value);
    }
  }

  lemma {:induction false} LoopNests(tokens: seq<Token>, j: nat, level: nat, data: Expr)
    requires EndsWithEof(tokens) && j < |tokens| && level < |Levels|
    requires Canonical(data) && Prec(data) >= level
    ensures OperatorLoop(tokens, j, level, data).Ok? ==>
      Canonical(OperatorLoop(tokens, j, level, data).value.node) && Prec(OperatorLoop(tokens, j, level, data).value.node) >= level
    decreases |tokens| - j, |Levels| - level, 2
  {
    if IsLevelOperator(tokens[j], level) {
      match LowerAt(tokens, j + 1, level)
      case Err(_) =>
      case Ok(p) =>
        LowerNests(tokens, j + 1, level);
        LevelOfSpec(tokens[j].value, level);
        LoopNests(tokens, p.next, level, Expr.Operator(data, tokens[j].value, p.node));
    }
  }

  // ---------------------------------------------------------------------------
  // Properties: the parse of printed expressions
  // ---------------------------------------------------------------------------

  /** A number some Number token denotes: a whole or fractional decimal. */
  ghost predicate IsDecimal(x: real) {
    exists t :: Tokenizer.IsNumberText(t) && ParseNumber(t) == Ok(x)
  }

  /** A data node that has a token form: strings, booleans and the numbers
      that Number tokens denote. */
  ghost predicate Printable(v: Value) {
    v.NumberNode? ==> IsDecimal(v.number)
  }

  /** The text a number is printed as: the plain decimal digits of a whole
      number, and some number text that denotes it otherwise. */
  ghost function NumberText(x: real): (t: string)
    requires IsDecimal(x)
    ensures Tokenizer.IsNumberText(t) && ParseNumber(t) == Ok(x)
  {
    if 0.0 <= x && x == x.Floor as real then
      Values.ParseNatText(x.Floor);
      Values.ParseNumberAccepts(NatText(x.Floor));
      NatText(x.Floor)
    else
      var t :| Tokenizer.IsNumberText(t) && ParseNumber(t) == Ok(x);
      t
  }

  /** A whole number is a canonical operand whose one token holds its decimal digits. */
  lemma WholeNumberToken(n: nat)
    ensures Canonical(Data(NumberNode(n as real)))
    ensures Unparse(Data(NumberNode(n as real))) == [Token(TokenType.Number, NatText(n))]
  {
    WholeNumberText(n);
  }

  /** Whole numbers are printed as their decimal digits. */
  lemma WholeNumberText(n: nat)
    ensures IsDecimal(n as real) && NumberText(n as real) == NatText(n)
  {
    Values.ParseNatText(n);
    Values.ParseNumberAccepts(NatText(n));
  }

  /** A well-nested tree whose data all have a token form. */
  ghost predicate Canonical(e: Expr) {
    WellNested(e) &&
    match e
    case Data(v) => Printable(v)
    case Operator(l, _, r) => Canonical(l) && Canonical(r)
    case _ => false
  }

  /** The token of a printable data node. */
  ghost function DataToken(v: Value): (t: Token)
    requires Printable(v)
    ensures IsPrimitive(t)
  {
    match v
    case StringNode(s) => Token(TokenType.String, s)
    case BooleanNode(b) => Token(FreeKeyword, if b then "true" else "false")
    case NumberNode(n) => Token(TokenType.Number, NumberText(n))
  }

  /** The tokens of a canonical expression, written out without parentheses. */
  ghost function Unparse(e: Expr): (ts: seq<Token>)
    requires Canonical(e)
    ensures |ts| > 0
  {
    match e
    case Data(v) => [DataToken(v)]
    case Operator(l, op, r) => Unparse(l) + [Token(TokenType.Operator, op)] + Unparse(r)
  }

  /** The tokens of a print statement. */
  ghost function UnparseStatement(e: Expr): (ts: seq<Token>)
    requires Canonical(e)
  {
    [Token(Keyword, "print"), Token(Punctuation, "(")] + Unparse(e) + [Token(Punctuation, ")"), Token(Punctuation, ";")]
  }

  /** A program of print statements over canonical expressions. */
  ghost predicate PrintProgram(ss: seq<Stmt>) {
    forall k :: 0 <= k < |ss| ==> ss[k].Print? && Canonical(ss[k].data)
  }

  ghost function UnparseProgram(ss: seq<Stmt>): seq<Token>
    requires PrintProgram(ss)
  {
    if ss == [] then [] else UnparseStatement(ss[0].data) + UnparseProgram(ss[1..])
  }

  /** The token is an operator of a level that binds more tightly than `level`. */
  predicate Tighter(t: Token, level: nat) {
    t.kind == TokenType.Operator && level < LevelOf(t.value) < |Levels|
  }

  /** The number of tokens a canonical expression prints to. */
  function Width(e: Expr): nat {
    match e
    case Operator(l, _, r) => Width(l) + 1 + Width(r)
    case _ => 1
  }

  /** The tokens from position i on spell the printable expression e: each
      data node's token in its place and each operator between the tokens of
      its operands. */
  ghost predicate Spells(tokens: seq<Token>, i: nat, e: Expr)
    decreases e
  {
    match e
    case Data(v) => Printable(v) && i < |tokens| && tokens[i] == DataToken(v)
    case Operator(l, op, r) =>
      Spells(tokens, i, l) && i + Width(l) < |tokens| && tokens[i + Width(l)] == Token(TokenType.Operator, op) &&
      Spells(tokens, i + Width(l) + 1, r)
    case _ => false
  }

  /** The tokens of e stand at position i, and another token follows them. */
  ghost predicate Fits(tokens: seq<Token>, i: nat, e: Expr) {
    Spells(tokens, i, e) && i + Width(e) < |tokens|
  }

  /** The printed tokens of a canonical expression, found at position i,
      spell it there. */
  lemma {:induction false} SpellsFrom(tokens: seq<Token>, i: nat, e: Expr)
    requires Canonical(e) && OccursAt(tokens, i, Unparse(e))
    ensures Width(e) == |Unparse(e)| && Spells(tokens, i, e)
    decreases e, 1
  {
    if e.Data? {
      SpellsData(tokens, i, e.value);
    } else {
      SpellsOperator(tokens, i, e);
    }
  }

  /** The case of SpellsFrom for a data node. */
  lemma SpellsData(tokens: seq<Token>, i: nat, v: Value)
    requires Printable(v) && OccursAt(tokens, i, Unparse(Data(v)))
    ensures Width(Data(v)) == |Unparse(Data(v))| && Spells(tokens, i, Data(v))
  {
    assert Unparse(Data(v))[0] == DataToken(v);
  }

  /** The case of SpellsFrom for an operator node. */
  lemma {:induction false} SpellsOperator(tokens: seq<Token>, i: nat, e: Expr)
    requires Canonical(e) && e.Operator? && OccursAt(tokens, i, Unparse(e))
    ensures Width(e) == |Unparse(e)| && Spells(tokens, i, e)
    decreases e, 0
  {
    var lt, rt := Unparse(e.left), Unparse(e.right);
    UnparseOperator(e);
    OccursAround(tokens, i, lt, Token(TokenType.Operator, e.op), rt);
    SpellsFrom(tokens, i, e.left);
    OccursShift(tokens, i + |lt| + 1, i + Width(e.left) + 1, rt);
    SpellsFrom(tokens, i + Width(e.left) + 1, e.right);
  }

  /** The printed tokens of an operator node: its left operand's, the
      operator, and its right operand's. */
  lemma UnparseOperator(e: Expr)
    requires Canonical(e) && e.Operator?
    ensures Canonical(e.left) && Canonical(e.right)
    ensures Unparse(e) == Unparse(e.left) + [Token(TokenType.Operator, e.op)] + Unparse(e.right)
  {
  }

  /** A printed data node parses back to itself. */
  lemma DataRoundTrip(tokens: seq<Token>, i: nat, v: Value)
    requires EndsWithEof(tokens) && i < |tokens| && Printable(v) && tokens[i] == DataToken(v)
    ensures PrimitiveAt(tokens, i) == Ok(Parsed(Data(v), i + 1))
  {
    match v
    case StringNode(_) =>
    case BooleanNode(_) => Values.BooleanRoundTrip(v);
    case NumberNode(_) =>
  }

  /** An operand of a level, printed and followed by a token that does not
      bind more tightly, parses back to itself. */
  lemma {:induction false} LowerRoundTrip(tokens: seq<Token>, i: nat, level: nat, e: Expr)
    requires EndsWithEof(tokens) && level < |Levels| && WellNested(e) && Prec(e) > level
    requires Fits(tokens, i, e) && !Tighter(tokens[i + Width(e)], level)
    ensures LowerAt(tokens, i, level) == Ok(Parsed(e, i + Width(e)))
    decreases e, |Levels| - level, 0
  {
    if level == |Levels| - 1 {
      OperandRoundTrip(tokens, i, e);
    } else {
      OperatorRoundTrip(tokens, i, level + 1, e);
      LevelOfSpec(tokens[i + Width(e)].value, level + 1);
    }
  }

  /** At the last level the operand is a primitive: a printed data node. */
  lemma OperandRoundTrip(tokens: seq<Token>, i: nat, e: Expr)
    requires EndsWithEof(tokens) && WellNested(e) && Prec(e) == |Levels| && Fits(tokens, i, e)
    ensures LowerAt(tokens, i, |Levels| - 1) == Ok(Parsed(e, i + Width(e)))
  {
    DataRoundTrip(tokens, i, e.value);
  }

  /** A printed expression binding at least as tightly as a level, followed by
      a token that does not bind more tightly, is what that level's loop
      starts from after its tokens. */
  lemma {:induction false} OperatorRoundTrip(tokens: seq<Token>, i: nat, level: nat, e: Expr)
    requires EndsWithEof(tokens) && level < |Levels| && WellNested(e) && Prec(e) >= level
    requires Fits(tokens, i, e) && !Tighter(tokens[i + Width(e)], level)
    ensures OperatorAt(tokens, i, level) == OperatorLoop(tokens, i + Width(e), level, e)
    decreases e, |Levels| - level, 2
  {
    if Prec(e) > level {
      LowerRoundTrip(tokens, i, level, e);
    } else {
      ChainRoundTrip(tokens, i, level, e);
    }
  }

  /** The case of OperatorRoundTrip where the root operator is of the level
      itself: its left operand is read first and the loop takes the operator
      and the right operand. */
  lemma {:induction false} ChainRoundTrip(tokens: seq<Token>, i: nat, level: nat, e: Expr)
    requires EndsWithEof(tokens) && level < |Levels| && WellNested(e) && e.Operator? && LevelOf(e.op) == level
    requires Fits(tokens, i, e) && !Tighter(tokens[i + Width(e)], level)
    ensures OperatorAt(tokens, i, level) == OperatorLoop(tokens, i + Width(e), level, e)
    decreases e, |Levels| - level, 1
  {
    ChainPieces(tokens, i, level, e);
    ChainTail(tokens, i + Width(e.left), level, e, i + Width(e));
    OperatorRoundTrip(tokens, i, level, e.left);
  }

  /** The left operand of an operator node of the level, and the operator
      after it, as the recursive round trips need them. */
  lemma ChainPieces(tokens: seq<Token>, i: nat, level: nat, e: Expr)
    requires EndsWithEof(tokens) && level < |Levels| && WellNested(e) && e.Operator? && LevelOf(e.op) == level
    requires Fits(tokens, i, e) && !Tighter(tokens[i + Width(e)], level)
    ensures WellNested(e.left) && Prec(e.left) >= level && Fits(tokens, i, e.left)
    ensures IsLevelOperator(tokens[i + Width(e.left)], level) && !Tighter(tokens[i + Width(e.left)], level)
  {
    LevelOfSpec(e.op, level);
  }

  /** The last turn of the loop over an operator node of the level: the
      operator at j and the printed right operand after it complete `e`. */
  lemma {:induction false} ChainTail(tokens: seq<Token>, j: nat, level: nat, e: Expr, n: nat)
    requires EndsWithEof(tokens) && level < |Levels| && WellNested(e) && e.Operator? && LevelOf(e.op) == level
    requires j < |tokens| && tokens[j] == Token(TokenType.Operator, e.op)
    requires Fits(tokens, j + 1, e.right) && n == j + 1 + Width(e.right) && !Tighter(tokens[n], level)
    ensures OperatorLoop(tokens, j, level, e.left) == OperatorLoop(tokens, n, level, e)
    decreases e, |Levels| - level, 0
  {
    LevelOfSpec(e.op, level);
    LowerRoundTrip(tokens, j + 1, level, e.right);
    LoopStep(tokens, j, level, e.left, e.right, n);
  }

  /** One turn of the loop of ParseOperator: an operator of the level and the
      operand after it extend the expression parsed so far on the right. */
  lemma LoopStep(tokens: seq<Token>, j: nat, level: nat, left: Expr, right: Expr, n: nat)
    requires EndsWithEof(tokens) && j < |tokens| && level < |Levels|
    requires IsLevelOperator(tokens[j], level) && LowerAt(tokens, j + 1, level) == Ok(Parsed(right, n))
    ensures OperatorLoop(tokens, j, level, left) == OperatorLoop(tokens, n, level, Expr.Operator(left, tokens[j].value, right))
  {
  }

  /** Round trip: a printed canonical expression followed by anything that is
      not an operator parses back to the same tree, ending where its tokens end. */
  lemma ExpressionRoundTrip(tokens: seq<Token>, i: nat, e: Expr)
    requires EndsWithEof(tokens) && Canonical(e)
    requires i + |Unparse(e)| < |tokens| && tokens[i..i + |Unparse(e)|] == Unparse(e)
    requires tokens[i + |Unparse(e)|].kind != TokenType.Operator
    ensures ExpressionAt(tokens, i) == Ok(Parsed(e, i + |Unparse(e)|))
  {
    OccursFromSlice(tokens, i, Unparse(e));
    SpellsFrom(tokens, i, e);
    OperatorRoundTrip(tokens, i, 0, e);
  }

  /** Round trip: a printed program of print statements, closed by EOF,
      parses back to the same statements. */
  lemma ProgramRoundTrip(ss: seq<Stmt>, eof: string)
    requires PrintProgram(ss)
    ensures EndsWithEof(UnparseProgram(ss) + [Token(EOF, eof)])
    ensures ParseProgram(UnparseProgram(ss) + [Token(EOF, eof)]) == Ok(ss)
  {
    var u := UnparseProgram(ss);
    var tokens := u + [Token(EOF, eof)];
    assert tokens[0..|u|] == u;
    ProgramRoundTripFrom(tokens, 0, ss, []);
  }

  /** The printed statements `ss` stand at position i and EOF follows them:
      the loop of Parse appends exactly `ss` to what it has read. */
  lemma {:induction false} ProgramRoundTripFrom(tokens: seq<Token>, i: nat, ss: seq<Stmt>, done: seq<Stmt>)
    requires EndsWithEof(tokens) && PrintProgram(ss)
    requires i + |UnparseProgram(ss)| < |tokens| && tokens[i..i + |UnparseProgram(ss)|] == UnparseProgram(ss)
    requires tokens[i + |UnparseProgram(ss)|].kind == EOF
    ensures ProgramAt(tokens, i, done) == Ok(done + ss)
    decreases |ss|
  {
    if ss == [] {
      ProgramEnd(tokens, i, done);
      assert done + ss == done;
    } else {
      var n := i + |UnparseStatement(ss[0].data)|;
      ProgramPieces(tokens, i, ss);
      ProgramRoundTripFrom(tokens, n, ss[1..], done + [ss[0]]);
      PrintStatementStep(tokens, i, ss[0], done, n, ss[1..]);
      ConsSplit(done, ss);
    }
  }

  /** The loop of Parse stops at EOF with what it has read. */
  lemma ProgramEnd(tokens: seq<Token>, i: nat, done: seq<Stmt>)
    requires EndsWithEof(tokens) && i < |tokens| && tokens[i].kind == EOF
    ensures ProgramAt(tokens, i, done) == Ok(done)
  {
  }

  /** The tokens of a nonempty printed program: its first statement's and
      then the rest's. */
  lemma ProgramPieces(tokens: seq<Token>, i: nat, ss: seq<Stmt>)
    requires PrintProgram(ss) && ss != []
    requires i + |UnparseProgram(ss)| < |tokens| && tokens[i..i + |UnparseProgram(ss)|] == UnparseProgram(ss)
    ensures ss[0].Print? && Canonical(ss[0].data) && PrintProgram(ss[1..])
    ensures var n := i + |UnparseStatement(ss[0].data)|;
      n + |UnparseProgram(ss[1..])| == i + |UnparseProgram(ss)| &&
      tokens[i..n] == UnparseStatement(ss[0].data) &&
      tokens[n..n + |UnparseProgram(ss[1..])|] == UnparseProgram(ss[1..])
  {
    PrintProgramTail(ss);
    SliceSplit(tokens, i, UnparseStatement(ss[0].data), UnparseProgram(ss[1..]));
  }

  /** The statements after the first of a printed program are one too. */
  lemma PrintProgramTail(ss: seq<Stmt>)
    requires PrintProgram(ss) && ss != []
    ensures ss[0].Print? && Canonical(ss[0].data) && PrintProgram(ss[1..])
    ensures UnparseProgram(ss) == UnparseStatement(ss[0].data) + UnparseProgram(ss[1..])
  {
    forall k | 0 <= k < |ss[1..]|
      ensures ss[1..][k].Print? && Canonical(ss[1..][k].data)
    {
      assert ss[1..][k] == ss[k + 1];
    }
  }

  /** A statement put in front of a list. */
  lemma ConsSplit<T>(done: seq<T>, ss: seq<T>)
    requires ss != []
    ensures done + [ss[0]] + ss[1..] == done + ss
  {
    assert ss == [ss[0]] + ss[1..];
  }

  /** The loop of Parse over a printed print statement `s` at i, given what it
      reads from the end n of that statement on. */
  lemma PrintStatementStep(tokens: seq<Token>, i: nat, s: Stmt, done: seq<Stmt>, n: nat, rest: seq<Stmt>)
    requires EndsWithEof(tokens) && s.Print? && Canonical(s.data)
    requires n == i + |UnparseStatement(s.data)| && n < |tokens| && tokens[i..n] == UnparseStatement(s.data)
    requires ProgramAt(tokens, n, done + [s]) == Ok(done + [s] + rest)
    ensures ProgramAt(tokens, i, done) == Ok(done + [s] + rest)
  {
    PrintStep(tokens, i, s.data, done);
  }

  /** One turn of the loop of Parse over a printed print statement. */
  lemma PrintStep(tokens: seq<Token>, i: nat, e: Expr, done: seq<Stmt>)
    requires EndsWithEof(tokens) && Canonical(e)
    requires i + |UnparseStatement(e)| < |tokens| && tokens[i..i + |UnparseStatement(e)|] == UnparseStatement(e)
    ensures ProgramAt(tokens, i, done) == ProgramAt(tokens, i + |UnparseStatement(e)|, done + [Print(e)])
  {
    StatementRoundTrip(tokens, i, e);
    SliceAt(tokens, i, UnparseStatement(e), 0);
    ProgramStep(tokens, i, done);
  }

  /** One turn of the loop of Parse: a statement is read and appended. */
  lemma ProgramStep(tokens: seq<Token>, i: nat, acc: seq<Stmt>)
    requires EndsWithEof(tokens) && i < |tokens| && tokens[i].kind != EOF && StatementAt(tokens, i).Ok?
    ensures ProgramAt(tokens, i, acc) ==
      ProgramAt(tokens, StatementAt(tokens, i).value.next, acc + [StatementAt(tokens, i).value.node])
  {
  }

  /** A printed print statement followed by another token parses back to itself. */
  lemma StatementRoundTrip(tokens: seq<Token>, i: nat, e: Expr)
    requires EndsWithEof(tokens) && Canonical(e)
    requires i + |UnparseStatement(e)| < |tokens| && tokens[i..i + |UnparseStatement(e)|] == UnparseStatement(e)
    ensures StatementAt(tokens, i) == Ok(Parsed(Print(e), i + |UnparseStatement(e)|))
  {
    StatementPieces(tokens, i, e);
    ExpressionRoundTrip(tokens, i + 2, e);
    StatementFromParts(tokens, i, e, i + 2 + |Unparse(e)|);
  }

  /** The tokens of a print statement: the keyword, `(`, the expression's
      tokens, `)` and `;`. */
  lemma StatementPieces(tokens: seq<Token>, i: nat, e: Expr)
    requires Canonical(e)
    requires i + |UnparseStatement(e)| < |tokens| && tokens[i..i + |UnparseStatement(e)|] == UnparseStatement(e)
    ensures |UnparseStatement(e)| == |Unparse(e)| + 4
    ensures tokens[i] == Token(Keyword, "print") && tokens[i + 1] == Token(Punctuation, "(")
    ensures i + 2 + |Unparse(e)| < |tokens| && tokens[i + 2..i + 2 + |Unparse(e)|] == Unparse(e)
    ensures tokens[i + 2 + |Unparse(e)|] == Token(Punctuation, ")")
    ensures tokens[i + 2 + |Unparse(e)| + 1] == Token(Punctuation, ";")
  {
    var u := Unparse(e);
    var open := [Token(Keyword, "print"), Token(Punctuation, "(")];
    var close := [Token(Punctuation, ")"), Token(Punctuation, ";")];
    SliceParts(tokens, i, open, u, close);
    SliceAt(tokens, i, open, 0);
    SliceAt(tokens, i, open, 1);
    var j := i + 2 + |u|;
    SliceAt(tokens, j, close, 0);
    SliceAt(tokens, j, close, 1);
  }

  /** ParseStatement over its parts: the keyword, `(`, an expression ending
      at n, `)` and `;`. */
  lemma StatementFromParts(tokens: seq<Token>, i: nat, e: Expr, n: nat)
    requires EndsWithEof(tokens) && i + 1 < n && n + 1 < |tokens|
    requires tokens[i] == Token(Keyword, "print") && tokens[i + 1] == Token(Punctuation, "(")
    requires ExpressionAt(tokens, i + 2) == Ok(Parsed(e, n))
    requires tokens[n] == Token(Punctuation, ")") && tokens[n + 1] == Token(Punctuation, ";")
    ensures StatementAt(tokens, i) == Ok(Parsed(Print(e), n + 2))
  {
  }

  /** One element of a slice that spells a sequence. */
  lemma SliceAt<T>(s: seq<T>, i: nat, a: seq<T>, k: nat)
    requires i + |a| <= |s| && s[i..i + |a|] == a && k < |a|
    ensures s[i + k] == a[k]
  {
    assert s[i + k] == s[i..i + |a|][k];
  }

  /** The sequence u stands in s from position i on. */
  ghost predicate OccursAt<T>(s: seq<T>, i: nat, u: seq<T>) {
    i + |u| <= |s| && forall k :: 0 <= k < |u| ==> s[i + k] == u[k]
  }

  /** A slice that spells u: u occurs there. */
  lemma OccursFromSlice<T>(s: seq<T>, i: nat, u: seq<T>)
    requires i + |u| <= |s| && s[i..i + |u|] == u
    ensures OccursAt(s, i, u)
  {
    forall k | 0 <= k < |u|
      ensures s[i + k] == u[k]
    {
      assert s[i + k] == s[i..i + |u|][k];
    }
  }

  /** The parts of an occurrence of a concatenation around one element. */
  lemma OccursAround<T>(s: seq<T>, i: nat, a: seq<T>, x: T, b: seq<T>)
    requires OccursAt(s, i, a + [x] + b)
    ensures OccursAt(s, i, a) && i + |a| < |s| && s[i + |a|] == x
    ensures OccursAt(s, i + |a| + 1, b)
  {
    var u := a + [x] + b;
    forall k | 0 <= k < |a|
      ensures s[i + k] == a[k]
    {
      assert u[k] == a[k];
    }
    assert u[|a|] == x;
    forall k | 0 <= k < |b|
      ensures s[i + |a| + 1 + k] == b[k]
    {
      assert u[|a| + 1 + k] == b[k];
    }
  }

  /** An occurrence read from an equal position. */
  lemma OccursShift<T>(s: seq<T>, j: nat, k: nat, b: seq<T>)
    requires j == k && OccursAt(s, j, b)
    ensures OccursAt(s, k, b)
  {
  }

  /** The middle part of a concatenation, taken back out. */
  lemma Middle<T>(a: seq<T>, m: seq<T>, b: seq<T>)
    ensures (a + m + b)[|a|..|a| + |m|] == m
  {
    assert forall k :: 0 <= k < |m| ==> (a + m + b)[|a|..|a| + |m|][k] == m[k];
  }

  /** The two parts of a slice that spells a concatenation. */
  lemma SliceSplit<T>(s: seq<T>, i: nat, a: seq<T>, b: seq<T>)
    requires i + |a| + |b| <= |s| && s[i..i + |a| + |b|] == a + b
    ensures s[i..i + |a|] == a
    ensures s[i + |a|..i + |a| + |b|] == b
  {
    var n := i + |a| + |b|;
    assert s[i..i + |a|] == s[i..n][..|a|];
    assert s[i + |a|..n] == s[i..n][|a|..];
  }

  /** The three parts of a slice that spells a concatenation. */
  lemma SliceParts<T>(s: seq<T>, i: nat, a: seq<T>, m: seq<T>, b: seq<T>)
    requires i + |a| + |m| + |b| <= |s| && s[i..i + |a| + |m| + |b|] == a + m + b
    ensures s[i..i + |a|] == a
    ensures s[i + |a|..i + |a| + |m|] == m
    ensures s[i + |a| + |m|..i + |a| + |m| + |b|] == b
  {
    var n := i + |a| + |m| + |b|;
    assert s[i..i + |a|] == s[i..n][..|a|];
    assert s[i + |a|..i + |a| + |m|] == s[i..n][|a|..|a| + |m|];
    assert s[i + |a| + |m|..n] == s[i..n][|a| + |m|..];
    Middle(a, m, b);
    assert (a + m + b)[..|a|] == a;
    assert (a + m + b)[|a| + |m|..] == b;
  }

  /** A print statement without its closing `;` is rejected (the parser tests'
      `print("hello")`). */
  lemma MissingSemicolon(e: Expr, t: Token)
    requires Canonical(e) && t != Token(Punctuation, ";")
    ensures var tokens := UnparseStatement(e)[..|UnparseStatement(e)| - 1] + [t, Token(EOF, EofText)];
      EndsWithEof(tokens) && StatementAt(tokens, 0) == Err(GenericError("; expected"))
  {
    var u := Unparse(e);
    var tokens := UnparseStatement(e)[..|UnparseStatement(e)| - 1] + [t, Token(EOF, EofText)];
    assert tokens == [Token(Keyword, "print"), Token(Punctuation, "(")] + u + [Token(Punctuation, ")"), t, Token(EOF, EofText)];
    assert tokens[2..2 + |u|] == u;
    ExpressionRoundTrip(tokens, 2, e);
  }

  /** `1+2*3`: the multiplication binds tighter and becomes the right operand. */
  lemma PrecedenceExample()
    ensures var tokens := [Token(TokenType.Number, "1"), Token(TokenType.Operator, "+"), Token(TokenType.Number, "2"),
                           Token(TokenType.Operator, "*"), Token(TokenType.Number, "3"), Token(EOF, EofText)];
      EndsWithEof(tokens) &&
      ExpressionAt(tokens, 0) == Ok(Parsed(Expr.Operator(Data(NumberNode(1.0)), "+",
                                           Expr.Operator(Data(NumberNode(2.0)), "*", Data(NumberNode(3.0)))), 5))
  {
    var e := Expr.Operator(Data(NumberNode(1.0)), "+", Expr.Operator(Data(NumberNode(2.0)), "*", Data(NumberNode(3.0))));
    var tokens := [Token(TokenType.Number, "1"), Token(TokenType.Operator, "+"), Token(TokenType.Number, "2"),
                   Token(TokenType.Operator, "*"), Token(TokenType.Number, "3"), Token(EOF, EofText)];
    WholeNumberToken(1); WholeNumberToken(2); WholeNumberToken(3);
    assert NatText(1) == "1" && NatText(2) == "2" && NatText(3) == "3";
    var two, three := Data(NumberNode(2.0)), Data(NumberNode(3.0));
    assert Unparse(Expr.Operator(two, "*", three)) == Unparse(two) + [Token(TokenType.Operator, "*")] + Unparse(three);
    assert Unparse(e) == tokens[..5];
    ExpressionRoundTrip(tokens, 0, e);
  }

  /** `1-2+3`: operators of one level fold to the left. */
  lemma LeftAssociativeExample()
    ensures var tokens := [Token(TokenType.Number, "1"), Token(TokenType.Operator, "-"), Token(TokenType.Number, "2"),
                           Token(TokenType.Operator, "+"), Token(TokenType.Number, "3"), Token(EOF, EofText)];
      EndsWithEof(tokens) &&
      ExpressionAt(tokens, 0) == Ok(Parsed(Expr.Operator(Expr.Operator(Data(NumberNode(1.0)), "-", Data(NumberNode(2.0))),
                                                        "+", Data(NumberNode(3.0))), 5))
  {
    var e := Expr.Operator(Expr.Operator(Data(NumberNode(1.0)), "-", Data(NumberNode(2.0))), "+", Data(NumberNode(3.0)));
    var tokens := [Token(TokenType.Number, "1"), Token(TokenType.Operator, "-"), Token(TokenType.Number, "2"),
                   Token(TokenType.Operator, "+"), Token(TokenType.Number, "3"), Token(EOF, EofText)];
    WholeNumberToken(1); WholeNumberToken(2); WholeNumberToken(3);
    assert NatText(1) == "1" && NatText(2) == "2" && NatText(3) == "3";
    var one, two := Data(NumberNode(1.0)), Data(NumberNode(2.0));
    assert Unparse(Expr.Operator(one, "-", two)) == Unparse(one) + [Token(TokenType.Operator, "-")] + Unparse(two);
    assert Unparse(e) == tokens[..5];
    ExpressionRoundTrip(tokens, 0, e);
  }
}
