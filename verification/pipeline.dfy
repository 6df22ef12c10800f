/** The compiler driver's stages without their file and shell I/O
    (Sources/swiftc.swift): the source text is lexed, the tokens parsed,
    assembly generated and the assembly text emitted. The `--lex`,
    `--parse` and `--codegen` flags stop after the named stage, checked in
    that order, and then no text is produced. */
module Compiler {
  import opened Results
  import opened Tokens
  import opened Ast
  import Decimal
  import Grammar
  import Lexer
  import Parser
  import ParseResults
  import CodeGenerator
  import opened Assembly
  import CodeEmitter
  import ParserProofs

  datatype CompileError =
    | LexFailure(lexError: Lexer.LexError)
    | ParseFailure(parseError: ParseResults.ParseError)
    | CodeGenFailure(codeGenError: CodeGenerator.CodeGenError)

  /** `lexer()` on source text already read from the file. */
  function LexStage(src: string): (r: Result<seq<Token>, CompileError>)
    requires Lexer.IsAscii(src)
    ensures r.Success? <==> Lexer.Scan(src).Success?
    ensures r.Success? ==> r.value == Lexer.Scan(src).value
  {
    match Lexer.Scan(src)
    case Success(tokens) => Success(tokens)
    case Failure(e) => Failure(LexFailure(e))
  }

  function ParseStage(tokens: seq<Token>): Result<Program, CompileError> {
    match Parser.Parse(tokens)
    case Success(p) => Success(p)
    case Failure(e) => Failure(ParseFailure(e))
  }

  function GenStage(p: Program): Result<AsmProgram, CompileError> {
    match CodeGenerator.Generate(p)
    case Success(asm) => Success(asm)
    case Failure(e) => Failure(CodeGenFailure(e))
  }

  /** `run()` between preprocessing and assembling: the stages the flags
      ask for, and the assembly text when no flag is given. */
  function Run(src: string, lex: bool, parse: bool, codegen: bool): (r: Result<Option<string>, CompileError>)
    requires Lexer.IsAscii(src)
    ensures r.Success? && r.value.Some? <==> !lex && !parse && !codegen && Compile(src).Success?
    ensures r.Success? && r.value.Some? ==> r.value.value == Compile(src).value
    ensures r.Success? ==> LexStage(src).Success?
  {
    var tokens :- LexStage(src);
    if lex then Success(None)
    else
      var program :- ParseStage(tokens);
      if parse then Success(None)
      else
        var asm :- GenStage(program);
        if codegen then Success(None)
        else Success(Some(CodeEmitter.Listing(asm)))
  }

  /** The whole pipeline, as run without flags. Code generation never
      rejects what was lexed and parsed, so compilation fails exactly when
      lexing or parsing does, and the text moves the returned constant
      into `%eax` and returns. */
  function Compile(src: string): (r: Result<string, CompileError>)
    requires Lexer.IsAscii(src)
    ensures r.Success? <==>
              Lexer.Scan(src).Success? && Parser.Parse(Lexer.Scan(src).value).Success?
    ensures r.Failure? ==> !r.error.CodeGenFailure?
    ensures r.Success? ==> CodeGenerator.ReturnsConstant(Parser.Parse(Lexer.Scan(src).value).value)
    ensures r.Success? ==>
              var p := Parser.Parse(Lexer.Scan(src).value).value;
              r.value
              == "\t.globl _" + p.func.name + "\n_" + p.func.name + ":\n"
                 + "\tmovl $" + Decimal.IntToString(p.func.stmt.expr.value) + ", %eax\n"
                 + "\tret\n"
  {
    match Lexer.Scan(src)
    case Failure(e) => Failure(LexFailure(e))
    case Success(tokens) =>
      match Parser.Parse(tokens)
      case Failure(e) => Failure(ParseFailure(e))
      case Success(program) =>
        LexedProgramsGenerate(src);
        ListingOfGenerated(program);
        match GenStage(program)
        case Failure(e) => Failure(e)
        case Success(asm) => Success(CodeEmitter.Listing(asm))
  }

  /** The assembly text of a program returning a constant: the header,
      the move of the constant into `%eax` and `ret`. */
  lemma ListingOfGenerated(p: Program)
    requires CodeGenerator.ReturnsConstant(p)
    ensures CodeGenerator.Generate(p).Success?
    ensures CodeEmitter.Listing(CodeGenerator.Generate(p).value)
         == "\t.globl _" + p.func.name + "\n_" + p.func.name + ":\n"
            + "\tmovl $" + Decimal.IntToString(p.func.stmt.expr.value) + ", %eax\n"
            + "\tret\n"
  {
    var v := p.func.stmt.expr.value;
    var imm := Decimal.IntToString(v);
    var move, ret := Mov(Register(AX), Imm(v)), Ret;
    assert CodeGenerator.Generate(p).value.func.instructions == [move, ret];
    CodeEmitter.RenderingPair(move, ret);
    assert CodeEmitter.EmitOperand(Imm(v)) == "$" + imm;
    MoveText(imm);
    CodeEmitter.AppendAssociates(CodeEmitter.Header(p.func.name), CodeEmitter.EmitInstruction(move), "\tret\n");
  }

  lemma MoveText(imm: string)
    ensures "\tmovl " + ("$" + imm) + ", " + "%eax" + "\n" == "\tmovl $" + imm + ", %eax\n"
  {
    var left, right := "\tmovl " + ("$" + imm) + ", " + "%eax" + "\n", "\tmovl $" + imm + ", %eax\n";
    assert |left| == |right|;
    forall i | 0 <= i < |left|
      ensures left[i] == right[i]
    {
      if i < 7 {
      } else if i < 7 + |imm| {
        assert left[i] == imm[i - 7] == right[i];
      } else {
      }
    }
  }

  /** An expression none of whose tokens is a prefix operator is a
      constant, possibly in parentheses, and denotes an `Integer`. */
  lemma {:induction false} WithoutOperatorsIsConstant(ts: seq<Token>, lo: nat, hi: nat)
    requires lo <= hi <= |ts| && Grammar.IsExpression(ts, lo, hi)
    requires forall i :: lo <= i < hi ==> !Grammar.IsPrefixOp(ts[i].kind)
    ensures Grammar.TreeOf(ts, lo, hi).Integer?
    decreases hi - lo
  {
    if ts[lo].kind == LeftParen {
      WithoutOperatorsIsConstant(ts, lo + 1, hi - 1);
    }
  }

  /** A parsed program whose tokens contain no prefix operator returns a
      constant. */
  lemma ParsedWithoutOperators(ts: seq<Token>)
    requires forall i :: 0 <= i < |ts| ==> !Grammar.IsPrefixOp(ts[i].kind)
    requires Parser.Parse(ts).Success?
    ensures CodeGenerator.ReturnsConstant(Parser.Parse(ts).value)
  {
    var q: nat :| q <= |ts| && Grammar.AcceptsWith(ts, q) && Parser.Parse(ts).value == Grammar.ProgramOf(ts, q);
    AcceptedWithoutOperators(ts, q);
  }

  lemma AcceptedWithoutOperators(ts: seq<Token>, q: nat)
    requires Grammar.AcceptsWith(ts, q)
    requires forall i :: 0 <= i < |ts| ==> !Grammar.IsPrefixOp(ts[i].kind)
    ensures CodeGenerator.ReturnsConstant(Grammar.ProgramOf(ts, q))
  {
    WithoutOperatorsIsConstant(ts, 7, q);
  }

  /** The lexer never produces `~` or `-`, so a parsed program returns a
      constant and code generation never fails after the source is lexed
      and parsed; and the parser never runs out of tokens on the lexer's
      output. */
  lemma LexedProgramsGenerate(src: string)
    requires Lexer.IsAscii(src) && Lexer.Scan(src).Success?
    ensures Parser.Parse(Lexer.Scan(src).value) != Failure(ParseResults.OutOfTokens)
    ensures Parser.Parse(Lexer.Scan(src).value).Success? ==>
              CodeGenerator.ReturnsConstant(Parser.Parse(Lexer.Scan(src).value).value)
  {
    var ts := Lexer.Scan(src).value;
    assert forall i :: 0 <= i < |ts| ==> Lexer.IsLexerKind(ts[i].kind);
    assert forall i :: 0 <= i < |ts| ==> !Grammar.IsPrefixOp(ts[i].kind);
    ParsedTokensGenerate(ts);
  }

  lemma ParsedTokensGenerate(ts: seq<Token>)
    requires ParseResults.EofTerminated(ts)
    requires forall i :: 0 <= i < |ts| ==> !Grammar.IsPrefixOp(ts[i].kind)
    ensures Parser.Parse(ts) != Failure(ParseResults.OutOfTokens)
    ensures Parser.Parse(ts).Success? ==> CodeGenerator.ReturnsConstant(Parser.Parse(ts).value)
  {
    if Parser.Parse(ts).Success? {
      ParsedWithoutOperators(ts);
    }
  }

  /** The tokens of `int main(void) { return 2; }` parse to the function
      `main` returning the constant 2. */
  lemma ReturnTwoParses()
    ensures ParseStage([Token(IntKeyword, "int", 1), Token(TokenKind.Ident, "main", 1),
                        Token(LeftParen, "leftParen", 1), Token(VoidKeyword, "void", 1),
                        Token(RightParen, "rightParen", 1), Token(LeftBrace, "leftBrace", 1),
                        Token(ReturnKeyword, "return", 2), Token(Constant, "2", 2),
                        Token(Semicolon, "semicolon", 2), Token(RightBrace, "rightBrace", 3),
                        Token(Eof, "eof", 4)])
            == Success(Program(Function("main", Return(Integer(2)))))
  {
    var ts := [Token(IntKeyword, "int", 1), Token(TokenKind.Ident, "main", 1),
               Token(LeftParen, "leftParen", 1), Token(VoidKeyword, "void", 1),
               Token(RightParen, "rightParen", 1), Token(LeftBrace, "leftBrace", 1),
               Token(ReturnKeyword, "return", 2), Token(Constant, "2", 2),
               Token(Semicolon, "semicolon", 2), Token(RightBrace, "rightBrace", 3),
               Token(Eof, "eof", 4)];
    assert Decimal.ParseInt("2") == Some(2);
    ParserProofs.ReturnConstantParses(ts);
  }

  /** The function `main` returning 2 is emitted as the move of 2 into
      `%eax` followed by `ret`. */
  lemma ReturnTwoEmits()
    ensures GenStage(Program(Function("main", Return(Integer(2))))).Success?
    ensures CodeEmitter.Listing(GenStage(Program(Function("main", Return(Integer(2))))).value)
            == "\t.globl _main\n_main:\n\tmovl $2, %eax\n\tret\n"
  {
    ListingOfGenerated(Program(Function("main", Return(Integer(2)))));
    assert Decimal.IntToString(2) == "2";
    ReturnTwoText();
  }

  lemma ReturnTwoText()
    ensures "\t.globl _" + "main" + "\n_" + "main" + ":\n" + "\tmovl $" + "2" + ", %eax\n" + "\tret\n"
            == "\t.globl _main\n_main:\n\tmovl $2, %eax\n\tret\n"
  {
    var header, move := "\t.globl _" + "main" + "\n_" + "main" + ":\n", "\tmovl $" + "2" + ", %eax\n";
    assert header == "\t.globl _main\n_main:\n";
    assert move == "\tmovl $2, %eax\n";
  }
}
