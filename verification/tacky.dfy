/** The TACKY intermediate representation (Sources/tackyAst.swift). */
module Tacky {
  import opened Tokens

  /** The conformers of the Swift `TackyValue` protocol. */
  datatype TackyValue =
    | TackyConstant(value: int)
    | TackyVar(name: string)

  /** The conformers of the Swift `TackyInstruction` protocol. A unary
      instruction keeps the operator token of the tree it came from. */
  datatype TackyInstruction =
    | TackyReturn(value: TackyValue)
    | TackyUnary(op: Token, src: TackyValue, dest: TackyValue)

  datatype TackyFunction = TackyFunction(name: string, instructions: seq<TackyInstruction>)

  datatype TackyProgram = TackyProgram(func: TackyFunction)
}
