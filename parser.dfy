/**
 * The parser (Parser.cs, Parser.Utils.cs): a recursive-descent reader over a
 * token list with a mutable position.  Every parsing method is proved to
 * compute the corresponding function of module Grammar and to leave the
 * position just after what it read; a failure is returned as an `Err` where
 * the source throws.
 */
module Parsing {
  import opened Errors
  import opened Tokens
  import opened Syntax
  import opened Grammar
  import Values

  /** The result a parsing method owes: the grammar's node, with the position
      moved to just after it, or the grammar's error. */
  predicate Follows<T(==)>(r: Result<T>, index: nat, spec: Result<Parsed<T>>) {
    match spec
    case Ok(p) => r == Ok(p.node) && index == p.next
    case Err(e) => r == Err(e)
  }

  class Parser {
    /** The source code's tokens, as the tokenizer made them. */
    const tokens: seq<Token>
    /** The index of the token to be read next. */
    var index: nat

    /** The list ends with EOF and the position never passes its end. */
    ghost predicate Valid()
      reads this
    {
      EndsWithEof(tokens) && index <= |tokens|
    }

    constructor(tokens: seq<Token>)
      requires EndsWithEof(tokens)
      ensures Valid() && this.tokens == tokens && index == 0
    {
      this.tokens := tokens;
      index := 0;
    }

    /** CurrentToken: the token to be read next. */
    function CurrentToken(): (t: Token)
      reads this
      requires Valid() && index < |tokens|
      ensures t in tokens
    {
      tokens[index]
    }

    /** Match(type, out value): consumes the current token when it has the
        given type and yields its value; otherwise yields "" and stays put. */
    method MatchType(kind: TokenType) returns (matched: bool, value: string)
      requires Valid() && index < |tokens|
      modifies this
      ensures Valid()
      ensures matched <==> old(CurrentToken()).kind == kind
      ensures matched ==> value == old(CurrentToken()).value && index == old(index) + 1
      ensures !matched ==> value == "" && index == old(index)
    {
      value := "";
      if CurrentToken().kind != kind {
        return false, value;
      }
      value := CurrentToken().value;
      index := index + 1;
      matched := true;
    }

    /** Match(type, value): consumes the current token when both its type and
        its value are the given ones; otherwise stays put. */
    method MatchValue(kind: TokenType, value: string) returns (matched: bool)
      requires Valid() && index < |tokens|
      modifies this
      ensures Valid()
      ensures matched <==> old(CurrentToken()) == Token(kind, value)
      ensures index == if matched then old(index) + 1 else old(index)
    {
      if CurrentToken().kind != kind || CurrentToken().value != value {
        return false;
      }
      index := index + 1;
      matched := true;
    }

    /** Match(type, out value, values): consumes the current token when it has
        the given type and one of the given values, and yields its value;
        otherwise yields "" and stays put. */
    method MatchAny(kind: TokenType, values: seq<string>) returns (matched: bool, value: string)
      requires Valid() && index < |tokens|
      modifies this
      ensures Valid()
      ensures matched <==> old(CurrentToken()).kind == kind && old(CurrentToken()).value in values
      ensures matched ==> value == old(CurrentToken()).value && index == old(index) + 1
      ensures !matched ==> value == "" && index == old(index)
    {
      value := "";
      if CurrentToken().kind != kind || CurrentToken().value !in values {
        return false, value;
      }
      value := CurrentToken().value;
      index := index + 1;
      matched := true;
    }

    /** Next: yields the current token and moves past it unconditionally. */
    method Next() returns (token: Token)
      requires Valid() && index < |tokens|
      modifies this
      ensures Valid()
      ensures token == old(CurrentToken()) && index == old(index) + 1
    {
      token := CurrentToken();
      index := index + 1;
    }

    /** ParsePrimitive. */
    method ParsePrimitive() returns (r: Result<Expr>)
      requires Valid() && index < |tokens|
      modifies this
      ensures Valid() && Follows(r, index, PrimitiveAt(tokens, old(index)))
    {
      var token := Next();
      match token.kind
      case String =>
        r := Ok(Data(Values.StringNode(token.value)));
      case Number =>
        match Values.ParseNumber(token.value) {
          case Ok(n) => r := Ok(Data(Values.NumberNode(n)));
          case Err(e) => r := Err(e);
        }
      case FreeKeyword =>
        if token.value in Booleans {
          match Values.BooleanFromText(token.value) {
            case Ok(b) => r := Ok(Data(b));
            case Err(e) => r := Err(e);
          }
        } else {
          r := Err(GenericError(ExpressionExpected));
        }
      case _ =>
        r := Err(GenericError(ExpressionExpected));
    }

    /** GetLowerExpression: the operand of a level. */
    method LowerExpression(level: nat) returns (r: Result<Expr>)
      requires Valid() && index < |tokens| && level < |Levels|
      modifies this
      ensures Valid() && Follows(r, index, LowerAt(tokens, old(index), level))
      decreases |tokens| - index, |Levels| - level, 0
    {
      if level == |Levels| - 1 {
        r := ParsePrimitive();
      } else {
        r := ParseOperator(level + 1);
      }
    }

    /** ParseOperator: an operand, then while an operator of this level
        follows, that operator and one more operand, folded to the left. */
    method ParseOperator(level: nat) returns (r: Result<Expr>)
      requires Valid() && index < |tokens| && level < |Levels|
      modifies this
      ensures Valid() && Follows(r, index, OperatorAt(tokens, old(index), level))
      decreases |tokens| - index, |Levels| - level, 1
    {
      var start := index;
      var lower := LowerExpression(level);
      if lower.Err? {
        return Err(lower.error);
      }
      var data := lower.value;
      while true
        invariant Valid() && start < index < |tokens|
        invariant OperatorAt(tokens, start, level) == OperatorLoop(tokens, index, level, data)
        decreases |tokens| - index
      {
        var matched, op := MatchAny(TokenType.Operator, Levels[level]);
        if !matched {
          return Ok(data);
        }
        var right := LowerExpression(level);
        if right.Err? {
          return Err(right.error);
        }
        data := Expr.Operator(data, op, right.value);
      }
    }

    /** ParseExpression. */
    method ParseExpression() returns (r: Result<Expr>)
      requires Valid() && index < |tokens|
      modifies this
      ensures Valid() && Follows(r, index, ExpressionAt(tokens, old(index)))
    {
      r := ParseOperator(0);
    }

    /** ParseStatement: `print ( expression ) ;`, each missing part an error. */
    method ParseStatement() returns (r: Result<Stmt>)
      requires Valid() && index < |tokens|
      modifies this
      ensures Valid() && Follows(r, index, StatementAt(tokens, old(index)))
    {
      var matched := MatchValue(Keyword, "print");
      if !matched {
        return Err(GenericError("Statement must start from a keyword"));
      }
      matched := MatchValue(Punctuation, "(");
      if !matched {
        return Err(GenericError("( expected"));
      }
      var data := ParseExpression();
      if data.Err? {
        return Err(data.error);
      }
      var node := Print(data.value);
      matched := MatchValue(Punctuation, ")");
      if !matched {
        return Err(GenericError(") expected"));
      }
      matched := MatchValue(Punctuation, ";");
      if !matched {
        return Err(GenericError("; expected"));
      }
      r := Ok(node);
    }

    /** Parse: statements until the EOF token is consumed. */
    method Parse() returns (r: Result<seq<Stmt>>)
      requires Valid() && index < |tokens|
      modifies this
      ensures Valid() && r == ProgramAt(tokens, old(index), [])
    {
      var nodes: seq<Stmt> := [];
      var start := index;
      while true
        invariant Valid() && index < |tokens|
        invariant ProgramAt(tokens, index, nodes) == ProgramAt(tokens, start, [])
        decreases |tokens| - index
      {
        var eof, ignored := MatchType(EOF);
        if eof {
          return Ok(nodes);
        }
        var node := ParseStatement();
        if node.Err? {
          return Err(node.error);
        }
        nodes := nodes + [node.value];
      }
    }
  }

  /** Parsing a whole token list from the start yields the grammar's program. */
  method ParseTokens(tokens: seq<Token>) returns (r: Result<seq<Stmt>>)
    requires EndsWithEof(tokens)
    ensures r == ParseProgram(tokens)
  {
    var parser := new Parser(tokens);
    r := parser.Parse();
  }
}
