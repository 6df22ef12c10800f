/** The results of the parsing functions: the parser's errors and what
    every parsing function promises about its result. */
module ParseResults {
  import opened Results
  import opened Tokens
  import opened Ast
  import Grammar

  datatype ParseError =
    | InvalidToken(token: Token)
    | OutOfTokens

  /** The input ends with an eof token, as every scan does. */
  predicate EofTerminated(ts: seq<Token>) {
    0 < |ts| && ts[|ts| - 1].kind == Eof
  }

  /** What every parsing function promises about a result starting at `pos`:
      it consumed at least one token and stayed within the input, an
      `invalidToken` error carries a token of the input,
      and on eof-terminated input it neither runs out of tokens nor passes
      the eof token. */
  predicate Progress<T>(ts: seq<Token>, pos: nat, r: Result<(T, nat), ParseError>)
    requires pos <= |ts|
  {
    && (r.Success? ==> pos < r.value.1 <= |ts|)
    && (r.Failure? && r.error.InvalidToken? ==> r.error.token in ts)
    && (EofTerminated(ts) && pos < |ts| ==> r != Failure(OutOfTokens) && (r.Success? ==> r.value.1 < |ts|))
  }

  /** What every expression parser promises on success: the consumed
      tokens are exactly one expression of the grammar, and the tree is the
      one the grammar gives them. */
  predicate ParsesAs(ts: seq<Token>, pos: nat, r: Result<(Expr, nat), ParseError>)
    requires pos <= |ts|
    requires r.Success? ==> pos <= r.value.1 <= |ts|
  {
    r.Success? ==> Grammar.IsExpression(ts, pos, r.value.1) && Grammar.TreeOf(ts, pos, r.value.1) == r.value.0
  }
}
