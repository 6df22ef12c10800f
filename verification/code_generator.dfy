/** Assembly generation (Sources/codeGenerator.swift). The generator works
    on the syntax tree directly and handles one shape only: a function
    returning a constant, which becomes a move of the constant into the
    return register followed by `ret`. Everything else is the error
    `general`. */
module CodeGenerator {
  import opened Results
  import opened Ast
  import opened Assembly

  datatype CodeGenError = General

  /** A program the generator handles: its statement returns a constant. */
  predicate ReturnsConstant(p: Program) {
    p.func.stmt.Return? && p.func.stmt.expr.Integer?
  }

  /** `genImm(returnStmt:)`: the immediate holding the returned constant;
      any other returned expression is `general`. */
  function GenImm(s: Stmt): (r: Result<Operand, CodeGenError>)
    requires s.Return?
    ensures r.Success? <==> s.expr.Integer?
    ensures r.Failure? ==> r.error == General
    ensures r.Success? ==> r.value.Imm? && r.value.value == s.expr.value
  {
    match s.expr
    case Integer(value) => Success(Imm(value))
    case _ => Failure(General)
  }

  /** `genInstructions(function:)`: a statement that is not a return is
      `general`; a return becomes `movl` of the immediate into the return
      register, then `ret`. The Swift code constructs the register operand
      without naming a register; the emitter prints it as `%eax`, and it is
      `AX` here. */
  function GenInstructions(f: Function): (r: Result<seq<Instruction>, CodeGenError>)
    ensures r.Success? <==> f.stmt.Return? && f.stmt.expr.Integer?
    ensures r.Failure? ==> r.error == General
    ensures r.Success? ==> r.value == [Mov(Register(AX), Imm(f.stmt.expr.value)), Ret]
  {
    if !f.stmt.Return? then Failure(General)
    else
      var imm :- GenImm(f.stmt);
      Success([Mov(Register(AX), imm), Ret])
  }

  /** `genFunction()`: the function's name and its instructions. */
  function GenFunction(p: Program): (r: Result<AsmFunction, CodeGenError>)
    ensures r.Success? <==> ReturnsConstant(p)
    ensures r.Success? ==> r.value.name == p.func.name
    ensures r.Success? ==> r.value.instructions == [Mov(Register(AX), Imm(p.func.stmt.expr.value)), Ret]
  {
    var instructions :- GenInstructions(p.func);
    Success(AsmFunction(p.func.name, instructions))
  }

  /** `generate()`: the assembly program, or `general` for any program
      that does not return a constant. */
  function Generate(p: Program): (r: Result<AsmProgram, CodeGenError>)
    ensures r.Success? <==> ReturnsConstant(p)
    ensures r.Failure? ==> r.error == General
    ensures r.Success? ==> r.value.func.name == p.func.name
    ensures r.Success? ==> r.value.func.instructions == [Mov(Register(AX), Imm(p.func.stmt.expr.value)), Ret]
  {
    var func :- GenFunction(p);
    Success(AsmProgram(func))
  }

  /** The generated code returns the program's constant, whatever the
      return register held before. */
  lemma GeneratedCodeReturnsConstant(p: Program, eax: int)
    requires ReturnsConstant(p)
    ensures Generate(p).Success?
    ensures Execute(Generate(p).value.func.instructions, eax) == Some(p.func.stmt.expr.value)
  {
    var code := Generate(p).value.func.instructions;
    assert code[1..] == [Ret];
  }
}
