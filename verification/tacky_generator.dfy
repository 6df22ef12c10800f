/** Lowering of a parsed program to TACKY (Sources/tackyGenerator.swift).
    The Swift generator is an object holding the instruction list and the
    temporary counter; here that state is a `Generator` value passed in and
    returned. `Emit` starts from a fresh generator, as a newly constructed
    Swift `TackyGenerator` does. */
module TackyGenerator {
  import opened Results
  import opened Tokens
  import opened Ast
  import opened Tacky
  import Decimal

  datatype TackyError = InvalidStatement

  /** The generator's mutable fields: the instructions appended so far and
      the number of temporaries made so far. */
  datatype Generator = Generator(instructions: seq<TackyInstruction>, count: nat)

  const Fresh := Generator([], 0)

  /** The name of temporary number `n`: `Var.Temp` and the decimal counter. */
  function TempName(n: nat): string {
    "Var.Temp" + Decimal.NatToString(n)
  }

  /** Different counters name different temporaries. */
  lemma TempNameInjective(a: nat, b: nat)
    ensures TempName(a) == TempName(b) <==> a == b
  {
    if a != b {
      Decimal.NatToStringInjective(a, b);
      assert TempName(a)[8..] == Decimal.NatToString(a);
      assert TempName(b)[8..] == Decimal.NatToString(b);
    }
  }

  /** `makeTemp()`: a new temporary, named after the counter, which then
      moves on. No instruction is appended. */
  function MakeTemp(g: Generator): (r: (string, Generator))
    ensures r.1.instructions == g.instructions && r.1.count == g.count + 1
    ensures r.0 == TempName(g.count)
  {
    (TempName(g.count), g.(count := g.count + 1))
  }

  /** Two temporaries made one after the other are different. */
  lemma MakeTempFresh(g: Generator)
    ensures MakeTemp(g).0 != MakeTemp(MakeTemp(g).1).0
  {
    TempNameInjective(g.count, g.count + 1);
  }

  /** The value instruction `i` of a lowering reads: the constant for the
      innermost operator, the previous instruction's temporary otherwise.
      With `i` the number of operators it is the value of the whole
      expression. */
  function SourceOf(leaf: int, c: nat, i: nat): TackyValue {
    if i == 0 then TackyConstant(leaf) else TackyVar(TempName(c + i - 1))
  }

  /** The instructions that compute the prefix operators `ops` (outermost
      first) applied to the constant `leaf`, with temporaries numbered from
      `c`: innermost operator first, each reading the previous result and
      writing a new temporary. */
  function Lowering(ops: seq<Token>, leaf: int, c: nat): seq<TackyInstruction> {
    seq(|ops|, i requires 0 <= i < |ops| =>
      TackyUnary(ops[|ops| - 1 - i], SourceOf(leaf, c, i), TackyVar(TempName(c + i))))
  }

  /** Wrapping one more operator around an expression appends one
      instruction to its lowering. */
  lemma LoweringStep(op: Token, ops: seq<Token>, leaf: int, c: nat)
    ensures Lowering([op] + ops, leaf, c)
         == Lowering(ops, leaf, c) + [TackyUnary(op, SourceOf(leaf, c, |ops|), TackyVar(TempName(c + |ops|)))]
  {
    var longer, shorter := Lowering([op] + ops, leaf, c), Lowering(ops, leaf, c);
    var expected := shorter + [TackyUnary(op, SourceOf(leaf, c, |ops|), TackyVar(TempName(c + |ops|)))];
    forall i | 0 <= i < |longer|
      ensures longer[i] == expected[i]
    {
      if i < |ops| {
        assert ([op] + ops)[|ops| - i] == ops[|ops| - 1 - i];
      }
    }
  }

  /** `parseVal(expr:)`: a constant is its own value; a prefix operator
      first lowers its operand, then makes a temporary and appends the
      instruction computing it; an identifier is `invalidStatement`. The
      result is the closed-form lowering of the expression's operators. */
  function ParseVal(e: Expr, g: Generator): (r: Result<(TackyValue, Generator), TackyError>)
    ensures r.Success? <==> Operand(e).Integer?
    ensures r.Failure? ==> r.error == InvalidStatement
    ensures r.Success? ==>
              && r.value.1.count == g.count + UnaryDepth(e)
              && r.value.1.instructions
                 == g.instructions + Lowering(Operators(e), Operand(e).value, g.count)
              && r.value.0 == SourceOf(Operand(e).value, g.count, UnaryDepth(e))
  {
    match e
    case Integer(v) =>
      Success((TackyConstant(v), g))
    case Unary(op, right) =>
      var inner :- ParseVal(right, g);
      var (name, after) := MakeTemp(inner.1);
      var dest := TackyVar(name);
      LoweringStep(op, Operators(right), Operand(right).value, g.count);
      Success((dest, after.(instructions := after.instructions + [TackyUnary(op, inner.0, dest)])))
    case Ident(_) =>
      Failure(InvalidStatement)
  }

  /** The instructions generating a function whose statement is `stmt`
      must end with: the lowering of the returned expression, then the
      return of its value. */
  function ReturnCode(e: Expr, c: nat): seq<TackyInstruction>
    requires Operand(e).Integer?
  {
    Lowering(Operators(e), Operand(e).value, c)
      + [TackyReturn(SourceOf(Operand(e).value, c, UnaryDepth(e)))]
  }

  /** The statements the generator can lower. */
  predicate Lowerable(s: Stmt) {
    s.Return? ==> Operand(s.expr).Integer?
  }

  /** `parseInstructions()`: a return statement appends the return of the
      lowered expression after the expression's own instructions; any other
      statement leaves the list as it is. */
  function ParseInstructions(p: Program, g: Generator): (r: Result<seq<TackyInstruction>, TackyError>)
    ensures r.Success? <==> Lowerable(p.func.stmt)
    ensures r.Failure? ==> r.error == InvalidStatement
    ensures r.Success? && p.func.stmt.Return? ==>
              r.value == g.instructions + ReturnCode(p.func.stmt.expr, g.count)
    ensures r.Success? && !p.func.stmt.Return? ==> r.value == g.instructions
  {
    match p.func.stmt
    case Return(expr) =>
      var value :- ParseVal(expr, g);
      Success(value.1.instructions + [TackyReturn(value.0)])
    case FunctionStmt(_) =>
      Success(g.instructions)
  }

  /** `parseFunction()`: the function's name and its instructions. */
  function ParseFunction(p: Program): (r: Result<TackyFunction, TackyError>)
    ensures r.Success? <==> Lowerable(p.func.stmt)
    ensures r.Success? ==> r.value.name == p.func.name
    ensures r.Success? && p.func.stmt.Return? ==>
              r.value.instructions == ReturnCode(p.func.stmt.expr, 0)
    ensures r.Success? && !p.func.stmt.Return? ==> r.value.instructions == []
  {
    var instructions :- ParseInstructions(p, Fresh);
    Success(TackyFunction(p.func.name, instructions))
  }

  /** `emit()` on a newly constructed generator. */
  function Emit(p: Program): (r: Result<TackyProgram, TackyError>)
    ensures r.Success? <==> Lowerable(p.func.stmt)
    ensures r.Failure? ==> r.error == InvalidStatement
    ensures r.Success? ==> r.value.func.name == p.func.name
    ensures r.Success? && p.func.stmt.Return? ==>
              r.value.func.instructions == ReturnCode(p.func.stmt.expr, 0)
    ensures r.Success? && !p.func.stmt.Return? ==> r.value.func.instructions == []
  {
    var func :- ParseFunction(p);
    Success(TackyProgram(func))
  }

  /** The value an instruction reads. */
  function Reads(ins: TackyInstruction): TackyValue {
    match ins
    case TackyReturn(value) => value
    case TackyUnary(_, src, _) => src
  }

  /** The temporary instruction `i` of a lowering writes: `Var.Temp0`,
      `Var.Temp1`, ... in order. */
  function TempAt(i: nat): TackyValue {
    TackyVar(TempName(i))
  }

  /** What `ReturnCode` is made of, instruction by instruction. */
  lemma {:induction false} ReturnCodeAt(e: Expr, i: nat)
    requires Operand(e).Integer? && i <= UnaryDepth(e)
    ensures var code := ReturnCode(e, 0);
            && |code| == UnaryDepth(e) + 1
            && (i < UnaryDepth(e) ==>
                  code[i] == TackyUnary(Operators(e)[UnaryDepth(e) - 1 - i],
                                        SourceOf(Operand(e).value, 0, i), TempAt(i)))
            && (i == UnaryDepth(e) ==> code[i] == TackyReturn(SourceOf(Operand(e).value, 0, i)))
  {
  }

  /** Each unary instruction of `ReturnCode` applies the operators
      innermost first and writes the temporary named after its position. */
  lemma ReturnCodeOperators(e: Expr)
    requires Operand(e).Integer?
    ensures var code := ReturnCode(e, 0);
            forall i :: 0 <= i < |code| - 1 ==>
              code[i].TackyUnary? && code[i].op == Operators(e)[|code| - 2 - i] && code[i].dest == TempAt(i)
  {
    var code := ReturnCode(e, 0);
    forall i | 0 <= i < |code| - 1
      ensures code[i].TackyUnary? && code[i].op == Operators(e)[|code| - 2 - i] && code[i].dest == TempAt(i)
    {
      ReturnCodeAt(e, i);
    }
  }

  /** Each instruction of `ReturnCode` after the first reads the temporary
      the one before it wrote. */
  lemma ReturnCodeChains(e: Expr)
    requires Operand(e).Integer?
    ensures var code := ReturnCode(e, 0);
            forall i :: 0 < i < |code| ==> Reads(code[i]) == code[i - 1].dest
  {
    var code := ReturnCode(e, 0);
    forall i | 0 < i < |code|
      ensures Reads(code[i]) == code[i - 1].dest
    {
      ReturnCodeAt(e, i);
      ReturnCodeAt(e, i - 1);
    }
  }

  /** No two unary instructions of `ReturnCode` write the same temporary. */
  lemma ReturnCodeTempsDistinct(e: Expr)
    requires Operand(e).Integer?
    ensures var code := ReturnCode(e, 0);
            forall i, j :: 0 <= i < j < |code| - 1 ==> code[i].dest != code[j].dest
  {
    var code := ReturnCode(e, 0);
    ReturnCodeOperators(e);
    forall i, j | 0 <= i < j < |code| - 1
      ensures code[i].dest != code[j].dest
    {
      TempNameInjective(i, j);
    }
  }

  /** The shape of the code for `return e`: with `n` operators in `e` it
      has `n + 1` instructions, a unary instruction per operator, innermost
      first, then the return. The first reads the constant, each later one
      reads the temporary its predecessor wrote, and the temporaries are
      `Var.Temp0`, `Var.Temp1`, ... in order, so no two are the same. */
  predicate ThreeAddressShape(e: Expr, code: seq<TackyInstruction>)
    requires Operand(e).Integer?
  {
    && |code| == UnaryDepth(e) + 1
    && code[|code| - 1].TackyReturn?
    && (forall i :: 0 <= i < |code| - 1 ==>
          code[i].TackyUnary? && code[i].op == Operators(e)[|code| - 2 - i] && code[i].dest == TempAt(i))
    && Reads(code[0]) == TackyConstant(Operand(e).value)
    && (forall i :: 0 < i < |code| ==> Reads(code[i]) == code[i - 1].dest)
    && (forall i, j :: 0 <= i < j < |code| - 1 ==> code[i].dest != code[j].dest)
  }

  lemma ReturnCodeShape(e: Expr)
    requires Operand(e).Integer?
    ensures ThreeAddressShape(e, ReturnCode(e, 0))
  {
    ReturnCodeAt(e, 0);
    ReturnCodeAt(e, UnaryDepth(e));
    ReturnCodeOperators(e);
    ReturnCodeChains(e);
    ReturnCodeTempsDistinct(e);
  }

  /** The code `emit()` produces for a function returning an expression
      has the shape above. */
  lemma EmitShape(p: Program)
    requires Emit(p).Success? && p.func.stmt.Return?
    ensures Operand(p.func.stmt.expr).Integer?
    ensures ThreeAddressShape(p.func.stmt.expr, Emit(p).value.func.instructions)
  {
    ReturnCodeShape(p.func.stmt.expr);
  }

  /** `int main(void) { return -~5; }` lowers to a complement into
      `Var.Temp0`, a negation of it into `Var.Temp1`, and the return of
      `Var.Temp1`. */
  lemma NestedUnaryExample()
    ensures var minus, tilde := Token(Minus, "minus", 1), Token(Tilde, "tilde", 1);
            Emit(Program(Function("main", Return(Unary(minus, Unary(tilde, Integer(5)))))))
            == Success(TackyProgram(TackyFunction("main", [
                 TackyUnary(tilde, TackyConstant(5), TackyVar("Var.Temp0")),
                 TackyUnary(minus, TackyVar("Var.Temp0"), TackyVar("Var.Temp1")),
                 TackyReturn(TackyVar("Var.Temp1"))])))
  {
    var minus, tilde := Token(Minus, "minus", 1), Token(Tilde, "tilde", 1);
    var e := Unary(minus, Unary(tilde, Integer(5)));
    assert Decimal.NatToString(0) == "0" && Decimal.NatToString(1) == "1";
    assert Operators(e) == [minus, tilde];
    assert TempName(0) == "Var.Temp0" && TempName(1) == "Var.Temp1";
    var lowered := Lowering([minus, tilde], 5, 0);
    assert lowered[0] == TackyUnary(tilde, TackyConstant(5), TackyVar("Var.Temp0"));
    assert lowered[1] == TackyUnary(minus, TackyVar("Var.Temp0"), TackyVar("Var.Temp1"));
    assert lowered == [lowered[0], lowered[1]];
    assert ReturnCode(e, 0) == [
      TackyUnary(tilde, TackyConstant(5), TackyVar("Var.Temp0")),
      TackyUnary(minus, TackyVar("Var.Temp0"), TackyVar("Var.Temp1")),
      TackyReturn(TackyVar("Var.Temp1"))];
  }
}
