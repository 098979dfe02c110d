/**
 * The abstract syntax tree the parser builds and the interpreter walks.
 *
 * Only print statements, data nodes and binary operator nodes are ever built
 * by the parser; the other node kinds exist in the tree types and the
 * interpreter rejects them.
 */
module Syntax {
  import opened Values

  /** Expression nodes: data, a binary operator, an identifier, a unary operator. */
  datatype Expr =
    | Data(value: Value)
    | Operator(left: Expr, op: string, right: Expr)
    | Identifier(name: string)
    | UnaryOp(unary: string, operand: Expr)

  /** Statement nodes. */
  datatype Stmt =
    | Print(data: Expr)
    | VarDeclaration(name: string, data: Expr)
    | VarAssignment(name: string, data: Expr)
    | Conditional(condition: Expr, body: seq<Stmt>, otherwise: seq<Stmt>)
    | Block(statements: seq<Stmt>)
}
