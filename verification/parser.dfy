/** The recursive-descent parser (Sources/parser.swift). The Swift parser
    keeps its position in a mutable field; here every parsing function takes
    the position and returns the position after what it parsed.

    The Swift `peek` indexes the token array without a bounds check; when a
    parse error is raised with the position already past the last token,
    the source reads out of bounds. That case is the error `OutOfTokens`;
    `Compiler.ParsedTokensGenerate` shows that it cannot arise on eof-terminated input,
    which is all the lexer produces. */
module Parser {
  import opened Results
  import opened Tokens
  import opened Ast
  import Decimal
  import Grammar
  import opened ParseResults

  /** `throw ParserError.invalidToken(peek)` at `pos`. */
  function Unexpected(ts: seq<Token>, pos: nat): (e: ParseError)
    ensures e.InvalidToken? <==> pos < |ts|
    ensures e.InvalidToken? ==> e.token == ts[pos]
  {
    if pos < |ts| then InvalidToken(ts[pos]) else OutOfTokens
  }

  /** `check(tokenType:)`: whether the current token has the kind; false
      at the end of the input, where there is no current token. */
  predicate Check(ts: seq<Token>, pos: nat, kind: TokenKind): (b: bool)
    ensures pos >= |ts| ==> !b
    ensures pos < |ts| ==> (b <==> ts[pos].kind == kind)
  {
    pos < |ts| && ts[pos].kind == kind
  }

  /** `advance()`: the new position and `prev`, the token just passed. */
  function Advance(ts: seq<Token>, pos: nat): (r: (nat, Token))
    requires 0 < |ts| && pos <= |ts|
    ensures pos <= r.0 <= |ts| && 0 < r.0
    ensures pos < |ts| ==> r.0 == pos + 1
    ensures r.0 == pos <==> pos == |ts|
    ensures r.1 == ts[r.0 - 1]
  {
    var next := if pos < |ts| then pos + 1 else pos;
    (next, ts[next - 1])
  }

  /** `match(tokenTypes:)`: whether the current token has one of `kinds`, and
      the position after it if so. */
  function Match(ts: seq<Token>, pos: nat, kinds: seq<TokenKind>): (r: (bool, nat))
    requires pos <= |ts|
    ensures r.0 <==> pos < |ts| && ts[pos].kind in kinds
    ensures r.1 == (if r.0 then pos + 1 else pos)
    ensures r.1 <= |ts|
  {
    if |kinds| == 0 then (false, pos)
    else if Check(ts, pos, kinds[0]) then (true, Advance(ts, pos).0)
    else Match(ts, pos, kinds[1..])
  }

  /** `consume(tokenType:)`: the current token, if it has the kind, and the
      position after it; otherwise the current token as the error. */
  function Consume(ts: seq<Token>, pos: nat, kind: TokenKind): (r: Result<(Token, nat), ParseError>)
    requires pos <= |ts|
    ensures r.Success? <==> Check(ts, pos, kind)
    ensures r.Success? ==> r.value == (ts[pos], pos + 1)
    ensures r.Failure? ==> r.error == Unexpected(ts, pos)
  {
    if Check(ts, pos, kind) then
      var (next, prev) := Advance(ts, pos);
      Success((prev, next))
    else
      Failure(Unexpected(ts, pos))
  }

  /** `parseExpression()`. */
  function ParseExpression(ts: seq<Token>, pos: nat): (r: Result<(Expr, nat), ParseError>)
    requires pos <= |ts|
    ensures Progress(ts, pos, r)
    ensures ParsesAs(ts, pos, r)
    decreases |ts| - pos, 3
  {
    ParseUnary(ts, pos)
  }

  /** `parseUnary()`: a `~` or `-` applies to the unary expression after
      it; anything else is a primary expression. */
  function ParseUnary(ts: seq<Token>, pos: nat): (r: Result<(Expr, nat), ParseError>)
    requires pos <= |ts|
    ensures Progress(ts, pos, r)
    ensures ParsesAs(ts, pos, r)
    decreases |ts| - pos, 2
  {
    var (matched, next) := Match(ts, pos, [Tilde, Minus]);
    if matched then
      var op := ts[next - 1];
      var right :- ParseUnary(ts, next);
      Success((Unary(op, right.0), right.1))
    else
      ParsePrimary(ts, pos)
  }

  /** `parsePrimary()`: a constant, or a parenthesised expression; any
      other token is the error. */
  function ParsePrimary(ts: seq<Token>, pos: nat): (r: Result<(Expr, nat), ParseError>)
    requires pos <= |ts|
    ensures Progress(ts, pos, r)
    ensures ParsesAs(ts, pos, r)
    ensures pos < |ts| && ts[pos].kind != Constant && ts[pos].kind != LeftParen ==>
              r == Failure(InvalidToken(ts[pos]))
    decreases |ts| - pos, 1
  {
    if Match(ts, pos, [Constant]).0 then ParseConstant(ts, pos)
    else if Match(ts, pos, [LeftParen]).0 then ParseGroup(ts, pos)
    else Failure(Unexpected(ts, pos))
  }

  /** The constant branch of `parsePrimary()`: the constant's lexeme must
      be a valid `Int`, or the constant itself is the error. */
  function ParseConstant(ts: seq<Token>, pos: nat): (r: Result<(Expr, nat), ParseError>)
    requires pos < |ts| && ts[pos].kind == Constant
    ensures Progress(ts, pos, r)
    ensures ParsesAs(ts, pos, r)
    ensures r.Failure? <==> Decimal.ParseInt(ts[pos].lexeme).None?
    ensures r.Failure? ==> r.error == InvalidToken(ts[pos])
  {
    var (_, afterConstant) := Match(ts, pos, [Constant]);
    var constant := ts[afterConstant - 1];
    match Decimal.ParseInt(constant.lexeme)
    case None => Failure(InvalidToken(constant))
    case Some(v) =>
      Success((Integer(v), afterConstant))
  }

  /** The parenthesis branch of `parsePrimary()`: an expression and `)`,
      giving the inner tree itself. */
  function ParseGroup(ts: seq<Token>, pos: nat): (r: Result<(Expr, nat), ParseError>)
    requires pos < |ts| && ts[pos].kind == LeftParen
    ensures Progress(ts, pos, r)
    ensures ParsesAs(ts, pos, r)
    decreases |ts| - pos, 0
  {
    var (_, afterParen) := Match(ts, pos, [LeftParen]);
    var inner :- ParseExpression(ts, afterParen);
    var close :- Consume(ts, inner.1, RightParen);
    Success((inner.0, close.1))
  }

  /** `parseIdentifier()`: the name of an identifier token. */
  function ParseIdentifier(ts: seq<Token>, pos: nat): (r: Result<(string, nat), ParseError>)
    requires pos <= |ts|
    ensures Progress(ts, pos, r)
    ensures r.Success? <==> Check(ts, pos, TokenKind.Ident)
    ensures r.Success? ==> r.value == (ts[pos].lexeme, pos + 1)
  {
    var token :- Consume(ts, pos, TokenKind.Ident);
    Success((token.0.lexeme, token.1))
  }

  /** `parseStatement()`: `return`, an expression and `;`. The statement
      ends right after the semicolon at `q`. */
  function ParseStatement(ts: seq<Token>, pos: nat): (r: Result<(Stmt, nat), ParseError>)
    requires pos <= |ts|
    ensures Progress(ts, pos, r)
    ensures r.Success? ==> pos + 3 <= r.value.1 <= |ts|
    ensures r.Success? ==>
              && Grammar.ReturnAt(ts, pos, r.value.1 - 1)
              && r.value.0 == Grammar.ReturnOf(ts, pos, r.value.1 - 1)
  {
    var keyword :- Consume(ts, pos, ReturnKeyword);
    var expr :- ParseExpression(ts, keyword.1);
    var semicolon :- Consume(ts, expr.1, Semicolon);
    Success((Return(expr.0), semicolon.1))
  }

  /** The signature part of `parseFunction()`: `int NAME ( void ) {`,
      giving the name. */
  function ParseSignature(ts: seq<Token>, pos: nat): (r: Result<(string, nat), ParseError>)
    requires pos <= |ts|
    ensures Progress(ts, pos, r)
    ensures r.Success? ==> Grammar.SignatureAt(ts, pos) && r.value == (ts[pos + 1].lexeme, pos + 6)
  {
    var intKeyword :- Consume(ts, pos, IntKeyword);
    var name :- ParseIdentifier(ts, intKeyword.1);
    var parameters :- ParseParameters(ts, name.1);
    Success((name.0, parameters.1))
  }

  /** The tokens after the name: `( void ) {`. */
  function ParseParameters(ts: seq<Token>, pos: nat): (r: Result<((), nat), ParseError>)
    requires pos <= |ts|
    ensures Progress(ts, pos, r)
    ensures r.Success? <==>
              && pos + 4 <= |ts|
              && ts[pos].kind == LeftParen
              && ts[pos + 1].kind == VoidKeyword
              && ts[pos + 2].kind == RightParen
              && ts[pos + 3].kind == LeftBrace
    ensures r.Success? ==> r.value.1 == pos + 4
  {
    var leftParen :- Consume(ts, pos, LeftParen);
    var voidKeyword :- Consume(ts, leftParen.1, VoidKeyword);
    var rightParen :- Consume(ts, voidKeyword.1, RightParen);
    var leftBrace :- Consume(ts, rightParen.1, LeftBrace);
    Success(((), leftBrace.1))
  }

  /** `parseFunction()`: `int NAME ( void ) { statement }`. The result is
      the function the grammar gives the consumed tokens. (Here and in
      `ParseFunctionBody` the predicates are compared with `true` so that
      the verifier checks each of them as one fact rather than conjunct by
      conjunct.) */
  function ParseFunction(ts: seq<Token>, pos: nat): (r: Result<(Function, nat), ParseError>)
    requires pos <= |ts|
    ensures Progress(ts, pos, r) == true
    ensures r.Success? ==> pos + 10 <= r.value.1 <= |ts|
    ensures r.Success? ==>
              var q := r.value.1 - 2;
              && Grammar.FunctionAt(ts, pos, q) == true
              && r.value.0 == Grammar.FunctionOf(ts, pos, q)
  {
    match ParseSignature(ts, pos)
    case Failure(e) => Failure(e)
    case Success(_) => ParseFunctionBody(ts, pos)
  }

  /** The rest of `parseFunction()` once the signature at `pos` is read. */
  function ParseFunctionBody(ts: seq<Token>, pos: nat): (r: Result<(Function, nat), ParseError>)
    requires Grammar.SignatureAt(ts, pos)
    ensures Progress(ts, pos, r) == true
    ensures r.Success? ==> pos + 10 <= r.value.1 <= |ts|
    ensures r.Success? ==>
              var q := r.value.1 - 2;
              && Grammar.FunctionAt(ts, pos, q) == true
              && r.value.0 == Grammar.FunctionOf(ts, pos, q)
  {
    var body :- ParseBody(ts, pos + 6);
    Success((Function(ts[pos + 1].lexeme, body.0), body.1))
  }

  /** The body part of `parseFunction()`: a statement and `}`. The return
      expression ends at `r.value.1 - 2`. */
  function ParseBody(ts: seq<Token>, pos: nat): (r: Result<(Stmt, nat), ParseError>)
    requires pos <= |ts|
    ensures Progress(ts, pos, r)
    ensures r.Success? ==> pos + 4 <= r.value.1 <= |ts|
    ensures r.Success? ==>
              var q := r.value.1 - 2;
              && Grammar.ReturnAt(ts, pos, q)
              && ts[q + 1].kind == RightBrace
              && r.value.0 == Grammar.ReturnOf(ts, pos, q)
  {
    var stmt :- ParseStatement(ts, pos);
    var rightBrace :- Consume(ts, stmt.1, RightBrace);
    Success((stmt.0, rightBrace.1))
  }

  /** `parse()` on a fresh parser: a function, then the eof token. A
      program is returned only for input the grammar accepts, and it is the
      program the grammar gives that input. */
  function Parse(ts: seq<Token>): (r: Result<Program, ParseError>)
    ensures r.Success? ==> exists q: nat :: q <= |ts| && Grammar.AcceptsWith(ts, q) && r.value == Grammar.ProgramOf(ts, q)
    ensures r.Failure? && r.error.InvalidToken? ==> r.error.token in ts
    ensures EofTerminated(ts) ==> r != Failure(OutOfTokens)
  {
    var func :- ParseFunction(ts, 0);
    var eof :- Consume(ts, func.1, Eof);
    assert Grammar.AcceptsWith(ts, func.1 - 2);
    Success(Program(func.0))
  }
}
