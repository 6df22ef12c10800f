/** The assembly tree the code generator builds (Sources/assembly.swift). */
module Assembly {
  import opened Results
  import opened Tokens

  /** The registers the Swift enum declares. */
  datatype Reg = AX | R10

  /** The raw value of a register: its 32-bit name. */
  function RegName(r: Reg): string {
    match r
    case AX => "eax"
    case R10 => "r10d"
  }

  /** The conformers of the Swift `Operand` protocol. */
  datatype Operand =
    | Imm(value: int)
    | Register(reg: Reg)
    | Stack(address: int)
    | Pseudo(identifier: string)

  /** The conformers of the Swift `Instruction` protocol. */
  datatype Instruction =
    | Mov(dest: Operand, src: Operand)
    | Ret
    | AsmUnary(op: Token, operand: Operand)
    | AllocateStack(size: int)

  datatype AsmFunction = AsmFunction(name: string, instructions: seq<Instruction>)

  datatype AsmProgram = AsmProgram(func: AsmFunction)

  /** What running `code` leaves in the return register when it reaches
      its first `ret`, with `eax` holding the return register's value at the
      start. Only moves of an immediate into a register are given a meaning;
      any other instruction before the `ret`, or no `ret` at all, gives
      `None`. This is a reference for what the generated code computes, not
      part of the compiler. */
  function Execute(code: seq<Instruction>, eax: int): Option<int>
    decreases |code|
  {
    if |code| == 0 then None
    else match code[0]
      case Ret => Some(eax)
      case Mov(Register(AX), Imm(v)) => Execute(code[1..], v)
      case _ => None
  }
}
