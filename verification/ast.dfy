/** The syntax tree the parser builds (Sources/ast.swift, plus the `Unary`
    node that the parser and the TACKY generator use). */
module Ast {
  import opened Tokens

  /** The conformers of the Swift `Expr` protocol. A `Unary` keeps the
      operator token itself, as the Swift node does. */
  datatype Expr =
    | Ident(name: string)
    | Integer(value: int)
    | Unary(op: Token, right: Expr)

  /** The conformers of the Swift `Stmt` protocol: `Return`, and `Function`,
      which is declared as a statement too. */
  datatype Stmt =
    | Return(expr: Expr)
    | FunctionStmt(func: Function)

  /** The parser builds a function from its name and its one statement. */
  datatype Function = Function(name: string, stmt: Stmt)

  datatype Program = Program(func: Function)

  /** The number of prefix operators above the innermost operand. */
  function UnaryDepth(e: Expr): nat {
    match e
    case Unary(_, right) => 1 + UnaryDepth(right)
    case _ => 0
  }

  /** The prefix operators above the innermost operand, outermost first. */
  function Operators(e: Expr): (ops: seq<Token>)
    ensures |ops| == UnaryDepth(e)
  {
    match e
    case Unary(op, right) => [op] + Operators(right)
    case _ => []
  }

  /** The innermost operand below all prefix operators. */
  function Operand(e: Expr): (leaf: Expr)
    ensures !leaf.Unary?
  {
    match e
    case Unary(_, right) => Operand(right)
    case _ => e
  }
}
