/** What the parser accepts and builds, related to the grammar. */
module ParserProofs {
  import opened Results
  import opened Tokens
  import opened Ast
  import Decimal
  import opened Grammar
  import opened Parser
  import opened ParseResults

  /** Every expression of the grammar starting at `pos` is parsed, up to
      its last token, into the tree the grammar gives it. */
  lemma {:induction false} ParseExpressionComplete(ts: seq<Token>, pos: nat, end: nat)
    requires pos <= end <= |ts| && IsExpression(ts, pos, end)
    ensures ParseExpression(ts, pos) == Success((TreeOf(ts, pos, end), end))
    decreases end - pos, 1
  {
    if IsPrefixOp(ts[pos].kind) {
      PrefixComplete(ts, pos, end);
    } else if ts[pos].kind == Constant {
      assert end == pos + 1;
      ConstantStep(ts, pos);
    } else {
      GroupComplete(ts, pos, end);
    }
  }

  /** `ParseExpressionComplete` for an expression that starts with a prefix
      operator. */
  lemma {:induction false} PrefixComplete(ts: seq<Token>, pos: nat, end: nat)
    requires pos < end <= |ts| && IsExpression(ts, pos, end) && IsPrefixOp(ts[pos].kind)
    ensures ParseExpression(ts, pos) == Success((TreeOf(ts, pos, end), end))
    decreases end - pos, 0
  {
    ParseExpressionComplete(ts, pos + 1, end);
    PrefixStep(ts, pos, end);
  }

  /** `ParseExpressionComplete` for a parenthesised expression. */
  lemma {:induction false} GroupComplete(ts: seq<Token>, pos: nat, end: nat)
    requires pos < end <= |ts| && IsExpression(ts, pos, end)
    requires !IsPrefixOp(ts[pos].kind) && ts[pos].kind != Constant
    ensures ParseExpression(ts, pos) == Success((TreeOf(ts, pos, end), end))
    decreases end - pos, 0
  {
    ParseExpressionComplete(ts, pos + 1, end - 1);
    ParenthesisStep(ts, pos, end, TreeOf(ts, pos + 1, end - 1));
  }

  /** One step of `ParseExpressionComplete`: a constant. */
  lemma {:induction false} ConstantStep(ts: seq<Token>, pos: nat)
    requires pos < |ts| && ts[pos].kind == Constant && Decimal.ParseInt(ts[pos].lexeme).Some?
    ensures ParseExpression(ts, pos) == Success((TreeOf(ts, pos, pos + 1), pos + 1))
  {
    assert !Match(ts, pos, [Tilde, Minus]).0;
    assert Match(ts, pos, [Constant]) == (true, pos + 1);
    assert ParsePrimary(ts, pos) == Success((Integer(Decimal.ParseInt(ts[pos].lexeme).value), pos + 1));
  }

  /** One step of `ParseExpressionComplete`: a prefix operator in front of
      a parsed expression. */
  lemma PrefixStep(ts: seq<Token>, pos: nat, end: nat)
    requires pos < end <= |ts| && IsPrefixOp(ts[pos].kind)
    requires IsExpression(ts, pos + 1, end)
    requires ParseExpression(ts, pos + 1) == Success((TreeOf(ts, pos + 1, end), end))
    ensures IsExpression(ts, pos, end)
    ensures ParseExpression(ts, pos) == Success((TreeOf(ts, pos, end), end))
  {
    assert Match(ts, pos, [Tilde, Minus]) == (true, pos + 1);
    assert ParseUnary(ts, pos + 1) == ParseExpression(ts, pos + 1);
  }

  /** One step of `ParseExpressionComplete`: a parsed expression between
      parentheses. */
  lemma ParenthesisStep(ts: seq<Token>, pos: nat, end: nat, tree: Expr)
    requires pos + 2 <= end <= |ts|
    requires ts[pos].kind == LeftParen && ts[end - 1].kind == RightParen
    requires ParseExpression(ts, pos + 1) == Success((tree, end - 1))
    ensures ParseExpression(ts, pos) == Success((tree, end))
  {
    assert !Match(ts, pos, [Tilde, Minus]).0;
    assert !Match(ts, pos, [Constant]).0;
    assert Match(ts, pos, [LeftParen]) == (true, pos + 1);
    assert Consume(ts, end - 1, RightParen) == Success((ts[end - 1], end));
    assert ParsePrimary(ts, pos) == Success((tree, end));
  }

  /** Every token sequence the grammar accepts is parsed into the program
      the grammar gives it. */
  lemma ParseComplete(ts: seq<Token>, q: nat)
    requires AcceptsWith(ts, q)
    ensures Parse(ts) == Success(ProgramOf(ts, q))
  {
    ParseFunctionComplete(ts, 0, q);
    assert Consume(ts, q + 2, Eof) == Success((ts[q + 2], q + 3));
  }

  /** Every function of the grammar is parsed, up to its `}`, into the
      function the grammar gives it. */
  lemma ParseFunctionComplete(ts: seq<Token>, pos: nat, q: nat)
    requires FunctionAt(ts, pos, q)
    ensures ParseFunction(ts, pos) == Success((FunctionOf(ts, pos, q), q + 2))
  {
    ParseBodyComplete(ts, pos + 6, q);
    assert ParseSignature(ts, pos) == Success((ts[pos + 1].lexeme, pos + 6));
    assert ParseFunctionBody(ts, pos) == Success((FunctionOf(ts, pos, q), q + 2));
  }

  /** Every return statement of the grammar followed by `}` is parsed, up
      to the `}`, into the statement the grammar gives it. */
  lemma ParseBodyComplete(ts: seq<Token>, pos: nat, q: nat)
    requires ReturnAt(ts, pos, q) && q + 1 < |ts| && ts[q + 1].kind == RightBrace
    ensures ParseBody(ts, pos) == Success((ReturnOf(ts, pos, q), q + 2))
  {
    ParseExpressionComplete(ts, pos + 1, q);
    assert ParseStatement(ts, pos) == Success((ReturnOf(ts, pos, q), q + 1));
  }

  /** Parsing succeeds exactly on the token sequences that begin with
      `int IDENT ( void ) { return E ; } eof`. */
  lemma ParseSucceedsIff(ts: seq<Token>)
    ensures Parse(ts).Success? <==> Accepts(ts)
  {
    if Accepts(ts) {
      var q: nat :| q <= |ts| && AcceptsWith(ts, q);
      ParseComplete(ts, q);
    }
  }

  /** Parentheses create no node: `( E )` parses to the tree of `E`. */
  lemma ParenthesesAddNoNode(ts: seq<Token>, pos: nat, end: nat)
    requires pos + 2 <= end <= |ts|
    requires ts[pos].kind == LeftParen && ts[end - 1].kind == RightParen
    requires IsExpression(ts, pos + 1, end - 1)
    ensures ParseExpression(ts, pos).Success? && ParseExpression(ts, pos + 1).Success?
    ensures ParseExpression(ts, pos).value.0 == ParseExpression(ts, pos + 1).value.0
  {
    ParseExpressionComplete(ts, pos + 1, end - 1);
    ParenthesisStep(ts, pos, end, TreeOf(ts, pos + 1, end - 1));
  }

  /** A constant whose lexeme is not a valid `Int` is rejected with that
      token. */
  lemma {:induction false} ConstantOutOfRange(ts: seq<Token>, pos: nat)
    requires pos < |ts| && ts[pos].kind == Constant
    requires Decimal.ParseInt(ts[pos].lexeme).None?
    ensures ParseExpression(ts, pos) == Failure(InvalidToken(ts[pos]))
  {
    assert !Match(ts, pos, [Tilde, Minus]).0;
    assert Match(ts, pos, [Constant]) == (true, pos + 1);
    assert ParsePrimary(ts, pos) == Failure(InvalidToken(ts[pos]));
  }

  /** A token that cannot begin an expression is the error of the
      expression parsed at it. */
  lemma {:induction false} NoExpressionStart(ts: seq<Token>, pos: nat)
    requires pos < |ts| && !IsPrefixOp(ts[pos].kind)
    requires ts[pos].kind != Constant && ts[pos].kind != LeftParen
    ensures ParseExpression(ts, pos) == Failure(InvalidToken(ts[pos]))
  {
    assert !Match(ts, pos, [Tilde, Minus]).0;
    assert !Match(ts, pos, [Constant]).0;
    assert !Match(ts, pos, [LeftParen]).0;
    assert ParsePrimary(ts, pos) == Failure(InvalidToken(ts[pos]));
  }

  /** `return ;`: the statement is rejected at the semicolon, the first
      token that cannot continue it. */
  lemma ReturnWithoutExpression(ts: seq<Token>, pos: nat)
    requires pos + 1 < |ts| && ts[pos].kind == ReturnKeyword && ts[pos + 1].kind == Semicolon
    ensures ParseStatement(ts, pos) == Failure(InvalidToken(ts[pos + 1]))
  {
    assert Consume(ts, pos, ReturnKeyword) == Success((ts[pos], pos + 1));
    NoExpressionStart(ts, pos + 1);
  }

  /** `int NAME ( void ) { return CONSTANT ; } eof` is the function NAME
      returning the constant. */
  lemma ReturnConstantParses(ts: seq<Token>)
    requires |ts| == 11 && SignatureAt(ts, 0) && ts[6].kind == ReturnKeyword
    requires ts[7].kind == Constant && Decimal.ParseInt(ts[7].lexeme).Some?
    requires ts[8].kind == Semicolon && ts[9].kind == RightBrace && ts[10].kind == Eof
    ensures Parse(ts) == Success(Program(Function(ts[1].lexeme, Return(Integer(Decimal.ParseInt(ts[7].lexeme).value)))))
  {
    assert AcceptsWith(ts, 8);
    ParseComplete(ts, 8);
  }

  /** `int NAME ( void ) { return OP OP CONSTANT ; } eof`, as in
      `return -~5;`: prefix operators nest to the right, the first one
      outermost. */
  lemma PrefixOperatorsNestRight(ts: seq<Token>)
    requires |ts| == 13 && SignatureAt(ts, 0) && ts[6].kind == ReturnKeyword
    requires IsPrefixOp(ts[7].kind) && IsPrefixOp(ts[8].kind)
    requires ts[9].kind == Constant && Decimal.ParseInt(ts[9].lexeme).Some?
    requires ts[10].kind == Semicolon && ts[11].kind == RightBrace && ts[12].kind == Eof
    ensures Parse(ts) == Success(Program(Function(ts[1].lexeme, Return(
                           Unary(ts[7], Unary(ts[8], Integer(Decimal.ParseInt(ts[9].lexeme).value)))))))
  {
    TwoPrefixes(ts, 7);
    assert AcceptsWith(ts, 10);
    ParseComplete(ts, 10);
  }

  /** Two prefix operators and a constant form one expression, the first
      operator outermost. */
  lemma TwoPrefixes(ts: seq<Token>, pos: nat)
    requires pos + 3 <= |ts| && IsPrefixOp(ts[pos].kind) && IsPrefixOp(ts[pos + 1].kind)
    requires ts[pos + 2].kind == Constant && Decimal.ParseInt(ts[pos + 2].lexeme).Some?
    ensures IsExpression(ts, pos, pos + 3)
    ensures TreeOf(ts, pos, pos + 3) == Unary(ts[pos], Unary(ts[pos + 1], Integer(Decimal.ParseInt(ts[pos + 2].lexeme).value)))
  {
    var constant := Integer(Decimal.ParseInt(ts[pos + 2].lexeme).value);
    assert IsExpression(ts, pos + 2, pos + 3) && TreeOf(ts, pos + 2, pos + 3) == constant;
    assert IsExpression(ts, pos + 1, pos + 3) && TreeOf(ts, pos + 1, pos + 3) == Unary(ts[pos + 1], constant);
  }
}
