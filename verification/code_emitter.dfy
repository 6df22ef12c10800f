/** Assembly text output (Sources/codeEmitter.swift). The Swift emitter
    appends to a `code` string field that starts empty; `Emit` does the
    same with a local string, and `Listing` is the text as a function. */
module CodeEmitter {
  import opened Results
  import opened Assembly
  import Decimal

  /** `emitOperand(_:)`: a register operand prints as `%eax`, whichever
      register it holds; an immediate as `$` and its decimal value; stack
      and pseudo operands print as nothing. */
  function EmitOperand(o: Operand): (s: string)
    ensures o.Register? <==> s == "%eax"
    ensures o.Imm? <==> 0 < |s| && s[0] == '$'
    ensures o.Stack? || o.Pseudo? <==> s == ""
    ensures '\n' !in s
  {
    match o
    case Register(_) => "%eax"
    case Imm(value) =>
      ImmText(value);
      var s := "$" + Decimal.IntToString(value);
      assert s[0] == '$';
      s
    case _ => ""
  }

  /** The text of an immediate that fits in an `Int` reads back, after the
      `$`, as its value: the emitted operand loses nothing. */
  lemma ImmediateReadsBack(o: Operand)
    requires o.Imm? && Decimal.InIntRange(o.value)
    ensures Decimal.ParseInt(EmitOperand(o)[1..]) == Some(o.value)
  {
    var digits := Decimal.IntToString(o.value);
    assert EmitOperand(o)[1..] == digits;
    Decimal.ParseIntOfIntToString(o.value);
  }

  /** The text of an immediate is one line. */
  lemma ImmText(value: int)
    ensures '\n' !in "$" + Decimal.IntToString(value)
  {
    var digits := Decimal.IntToString(value);
    if value < 0 {
      assert forall k :: 1 <= k < |digits| ==> digits[1..][k - 1] == digits[k];
    }
  }

  /** The two lines that open a function: `.globl` of the underscored
      name, then its label. */
  function Header(name: string): (h: string)
    ensures |h| == 2 * |name| + 13
    ensures h[..9] == "\t.globl _" && h[|h| - 2..] == ":\n"
    ensures '\n' !in name ==> LineCount(h) == 2
  {
    var h := "\t.globl _" + name + "\n_" + name + ":\n";
    assert h[..9] == "\t.globl _";
    if '\n' in name then h
    else
      HeaderLines(name);
      h
  }

  lemma HeaderLines(name: string)
    requires '\n' !in name
    ensures LineCount("\t.globl _" + name + "\n_" + name + ":\n") == 2
  {
    var first, second := "\t.globl _" + name, "_" + name + ":";
    assert "\t.globl _" + name + "\n_" + name + ":\n" == first + "\n" + second + "\n";
    assert '\n' !in first && '\n' !in second;
    NoLines(first);
    NoLines(second);
    LineCountConcat(first, "\n");
    LineCountConcat(first + "\n", second);
    LineCountConcat(first + "\n" + second, "\n");
  }

  /** The instructions the emitter prints: moves and returns. */
  predicate Printed(ins: Instruction) {
    ins.Mov? || ins.Ret?
  }

  /** One loop iteration of `emit()`: a move prints as `movl` with the
      source first, a return as `ret`, and any other instruction prints
      nothing. */
  function EmitInstruction(ins: Instruction): (line: string)
    ensures Printed(ins) <==> line != []
  {
    match ins
    case Mov(dest, src) => "\tmovl " + EmitOperand(src) + ", " + EmitOperand(dest) + "\n"
    case Ret => "\tret\n"
    case _ => ""
  }

  /** The text of a sequence of instructions, one after the other. It is
      empty exactly when no instruction in the sequence is printed. */
  function Rendering(code: seq<Instruction>): (r: string)
    ensures r == "" <==> forall i :: 0 <= i < |code| ==> !Printed(code[i])
    decreases |code|
  {
    if |code| == 0 then ""
    else Rendering(code[..|code| - 1]) + EmitInstruction(code[|code| - 1])
  }

  /** The whole text `emit()` leaves in `code`: the header and the printed
      instructions alone, and, when the name has no line break, two header
      lines and one line per printed instruction. */
  function Listing(p: AsmProgram): (r: string)
    ensures r == Header(p.func.name) + Rendering(PrintedOnly(p.func.instructions))
    ensures '\n' !in p.func.name ==> LineCount(r) == 2 + |PrintedOnly(p.func.instructions)|
  {
    var name, code := p.func.name, p.func.instructions;
    OthersDropped(code);
    if '\n' in name then Header(name) + Rendering(code)
    else
      LineCountConcat(Header(name), Rendering(code));
      RenderingLines(code);
      Header(name) + Rendering(code)
  }

  /** `emit()` on a newly constructed emitter: the header, then each
      instruction in order. */
  method Emit(p: AsmProgram) returns (code: string)
    ensures code == Listing(p)
  {
    var name := p.func.name;
    code := Header(name);
    var instructions := p.func.instructions;
    for i := 0 to |instructions|
      invariant code == Header(name) + Rendering(instructions[..i])
    {
      var line: string;
      if instructions[i].Mov? {
        line := "\tmovl " + EmitOperand(instructions[i].src) + ", " + EmitOperand(instructions[i].dest) + "\n";
      } else if instructions[i].Ret? {
        line := "\tret\n";
      } else {
        line := "";
      }
      assert line == EmitInstruction(instructions[i]);
      RenderingStep(instructions, i);
      AppendAssociates(Header(name), Rendering(instructions[..i]), line);
      code := code + line;
    }
    assert instructions[..|instructions|] == instructions;
  }

  lemma AppendAssociates(a: string, b: string, c: string)
    ensures (a + b) + c == a + (b + c)
  {
  }

  lemma RenderingPair(first: Instruction, second: Instruction)
    ensures Rendering([first, second]) == EmitInstruction(first) + EmitInstruction(second)
  {
    assert [first, second][..1] == [first] && [first][..0] == [];
    assert Rendering([first]) == "" + EmitInstruction(first) == EmitInstruction(first);
  }

  lemma RenderingStep(code: seq<Instruction>, i: nat)
    requires i < |code|
    ensures Rendering(code[..i + 1]) == Rendering(code[..i]) + EmitInstruction(code[i])
  {
    assert code[..i + 1][..i] == code[..i];
  }

  /** The printed instructions of `code`, in order. */
  function PrintedOnly(code: seq<Instruction>): (kept: seq<Instruction>)
    ensures |kept| <= |code|
    ensures forall i :: 0 <= i < |kept| ==> Printed(kept[i])
    decreases |code|
  {
    if |code| == 0 then []
    else if Printed(code[|code| - 1]) then PrintedOnly(code[..|code| - 1]) + [code[|code| - 1]]
    else PrintedOnly(code[..|code| - 1])
  }

  /** Instructions other than moves and returns leave no trace in the
      text: it is the text of the printed instructions alone. */
  lemma {:induction false} OthersDropped(code: seq<Instruction>)
    ensures Rendering(code) == Rendering(PrintedOnly(code))
    decreases |code|
  {
    if |code| > 0 {
      var init, last := code[..|code| - 1], code[|code| - 1];
      OthersDropped(init);
      if Printed(last) {
        var kept := PrintedOnly(init) + [last];
        assert kept[..|kept| - 1] == PrintedOnly(init);
      }
    }
  }

  /** The number of newline characters in `s`. */
  function LineCount(s: string): nat
    decreases |s|
  {
    if |s| == 0 then 0 else LineCount(s[..|s| - 1]) + (if s[|s| - 1] == '\n' then 1 else 0)
  }

  lemma {:induction false} LineCountConcat(a: string, b: string)
    ensures LineCount(a + b) == LineCount(a) + LineCount(b)
    decreases |b|
  {
    if |b| > 0 {
      var ab, init := a + b, b[..|b| - 1];
      assert ab[..|ab| - 1] == a + init;
      assert ab[|ab| - 1] == b[|b| - 1];
      LineCountConcat(a, init);
      assert LineCount(ab) == LineCount(a + init) + (if b[|b| - 1] == '\n' then 1 else 0);
      assert LineCount(b) == LineCount(init) + (if b[|b| - 1] == '\n' then 1 else 0);
    } else {
      assert a + b == a;
    }
  }

  lemma {:induction false} NoLines(s: string)
    requires '\n' !in s
    ensures LineCount(s) == 0
    decreases |s|
  {
    if |s| > 0 {
      assert s[..|s| - 1] + [s[|s| - 1]] == s;
      NoLines(s[..|s| - 1]);
    }
  }

  /** Every printed instruction is exactly one line of text. */
  lemma {:induction false} RenderingLines(code: seq<Instruction>)
    ensures LineCount(Rendering(code)) == |PrintedOnly(code)|
    decreases |code|
  {
    if |code| > 0 {
      var init, last := code[..|code| - 1], code[|code| - 1];
      RenderingLines(init);
      LineCountConcat(Rendering(init), EmitInstruction(last));
      InstructionLines(last);
    }
  }

  /** A printed instruction is one line of text; any other is none. */
  lemma InstructionLines(ins: Instruction)
    ensures LineCount(EmitInstruction(ins)) == if Printed(ins) then 1 else 0
  {
    match ins
    case Mov(dest, src) =>
      var middle := "\tmovl " + EmitOperand(src) + ", " + EmitOperand(dest);
      assert EmitInstruction(ins) == middle + "\n";
      assert '\n' !in middle;
      NoLines(middle);
      LineCountConcat(middle, "\n");
    case Ret =>
      assert EmitInstruction(ins) == "\tret" + "\n";
      NoLines("\tret");
      LineCountConcat("\tret", "\n");
    case _ =>
  }
}
