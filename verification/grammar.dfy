/** The language the parser accepts, written as a grammar over token
    sequences, independently of the parser's control flow:

      program    ::= "int" IDENT "(" "void" ")" "{" "return" expression ";" "}" EOF
      expression ::= ("~" | "-") expression | CONSTANT | "(" expression ")"

    where a CONSTANT's lexeme must be a valid Swift `Int`. Tokens after the
    EOF token are never looked at. */
module Grammar {
  import opened Tokens
  import opened Ast
  import Decimal

  predicate IsPrefixOp(k: TokenKind) {
    k == Tilde || k == Minus
  }

  /** `ts[lo..hi]` is exactly one expression. */
  predicate IsExpression(ts: seq<Token>, lo: nat, hi: nat)
    requires lo <= hi <= |ts|
    decreases hi - lo
  {
    if lo == hi then false
    else if IsPrefixOp(ts[lo].kind) then IsExpression(ts, lo + 1, hi)
    else if ts[lo].kind == Constant then hi == lo + 1 && Decimal.ParseInt(ts[lo].lexeme).Some?
    else ts[lo].kind == LeftParen && lo + 2 <= hi && ts[hi - 1].kind == RightParen
         && IsExpression(ts, lo + 1, hi - 1)
  }

  /** The tree the expression `ts[lo..hi]` denotes: prefix operators apply
      to everything after them, and parentheses add no node. The value is
      meaningful only where `IsExpression(ts, lo, hi)` holds; elsewhere it
      is an arbitrary `Integer(0)`, which keeps the function total. */
  function TreeOf(ts: seq<Token>, lo: nat, hi: nat): Expr
    requires lo <= hi <= |ts|
    decreases hi - lo
  {
    if lo == hi then Integer(0)
    else if IsPrefixOp(ts[lo].kind) then Unary(ts[lo], TreeOf(ts, lo + 1, hi))
    else if ts[lo].kind == Constant then
      match Decimal.ParseInt(ts[lo].lexeme)
      case Some(v) => Integer(v)
      case None => Integer(0)
    else if lo + 2 <= hi then TreeOf(ts, lo + 1, hi - 1)
    else Integer(0)
  }

  /** `ts[pos..pos + 6]` is a function's signature:
      `int IDENT ( void ) {`. */
  predicate SignatureAt(ts: seq<Token>, pos: nat) {
    && pos + 6 <= |ts|
    && ts[pos].kind == IntKeyword
    && ts[pos + 1].kind == TokenKind.Ident
    && ts[pos + 2].kind == LeftParen
    && ts[pos + 3].kind == VoidKeyword
    && ts[pos + 4].kind == RightParen
    && ts[pos + 5].kind == LeftBrace
  }

  /** `ts[pos..q + 1]` is a return statement whose expression is
      `ts[pos + 1..q]`: `return`, the expression, `;`. */
  predicate ReturnAt(ts: seq<Token>, pos: nat, q: nat) {
    && pos + 1 < q < |ts|
    && ts[pos].kind == ReturnKeyword
    && IsExpression(ts, pos + 1, q)
    && ts[q].kind == Semicolon
  }

  /** `ts[pos..q + 2]` is one function whose return expression is
      `ts[pos + 7..q]`: a signature, a return statement, `}`. */
  predicate FunctionAt(ts: seq<Token>, pos: nat, q: nat) {
    && SignatureAt(ts, pos)
    && ReturnAt(ts, pos + 6, q)
    && q + 2 <= |ts|
    && ts[q + 1].kind == RightBrace
  }

  /** The function `FunctionAt` describes: its name is the identifier's
      lexeme. */
  function FunctionOf(ts: seq<Token>, pos: nat, q: nat): Function
    requires pos + 7 <= q <= |ts|
  {
    Function(ts[pos + 1].lexeme, ReturnOf(ts, pos + 6, q))
  }

  /** The statement `ReturnAt` describes. */
  function ReturnOf(ts: seq<Token>, pos: nat, q: nat): Stmt
    requires pos + 1 <= q <= |ts|
  {
    Return(TreeOf(ts, pos + 1, q))
  }

  /** `ts` begins with a program whose return expression is `ts[7..q]`. */
  predicate AcceptsWith(ts: seq<Token>, q: nat) {
    FunctionAt(ts, 0, q) && q + 2 < |ts| && ts[q + 2].kind == Eof
  }

  predicate Accepts(ts: seq<Token>) {
    exists q: nat :: q <= |ts| && AcceptsWith(ts, q)
  }

  /** The program an accepted token sequence denotes. */
  function ProgramOf(ts: seq<Token>, q: nat): Program
    requires 7 <= q <= |ts|
  {
    Program(FunctionOf(ts, 0, q))
  }
}
