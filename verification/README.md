# swiftc in Dafny

A model of the compiler in `Sources/`: a C-subset compiler written in
Swift. It accepts exactly one function, `int NAME(void) { return E; }`,
where `E` is a chain of prefix `~` and `-` over an integer constant or a
parenthesised `E`. The compiler runs five stages:

- The lexer turns ASCII source text into tokens (`lexer.dfy`, module
  `Lexer`).
- The recursive-descent parser builds the syntax tree. The parser is in
  `parser.dfy`. `parse_results.dfy` holds what every parsing function
  promises. `grammar.dfy` is an independent grammar for the accepted
  token sequences, and `parser_proofs.dfy` connects the two.
- The TACKY generator lowers the tree to three-address code, using fresh
  temporaries `Var.Temp0`, `Var.Temp1`, and so on (`tacky_generator.dfy`).
- The code generator maps `return <constant>` to a `movl` into the
  return register followed by `ret` (`code_generator.dfy`).
- The code emitter prints the assembly text (`code_emitter.dfy`).

`pipeline.dfy` (module `Compiler`) composes the stages as the driver's
`run()` does, without its file and shell I/O. `decimal.dfy` models the
two conversions between `Int` and text that the compiler relies on:
Swift's `Int(String)` and string interpolation of an `Int`.

## How the model is built

- **Mutable state is threaded.** The Swift classes keep their state in
  mutable fields: the lexer's `position`, `start` and `line`, the parser's
  `position`, and the TACKY generator's `instructions` and `count`. In the
  model these are parameters and results. Each Swift `throws` function
  returns a `Result`.
- **Lexer tokens carry spans.** The lexer pairs every token with the span
  of text it was scanned from, so that maximality, lexemes and line
  numbers can be stated against the text. `Lexer.Scan` drops the spans.
- **Lexer end of input.** The lexer's `peek` (`Sources/lexer.swift:19`)
  reads the source without an end check. The model reads end of input as
  a character that is neither a letter nor a digit, as `advance` does with
  `"\0"`. The reads as written are kept separately and reported under
  Findings.
- **Parser end of input.** The parser's `peek` (`Sources/parser.swift:15`)
  is also unchecked. Raising an error at the end of the token array reads
  out of bounds. The model turns that case into the error `OutOfTokens`.
  `Compiler.ParsedTokensGenerate` shows it never happens on the lexer's
  output.
- **Characters are ASCII.** The driver decodes the file as ASCII. In Swift,
  "\r\n" is one `Character` that matches no case of the lexer's `switch`.
  The model treats it as an invalid character.
- **Source declarations are incomplete, so the model follows the code.**
  - `TokenType` declares only `semicolon`, but the lexer and the parser use
    thirteen kinds. The model has all thirteen, and each raw value is the
    case name.
  - `Unary` is used but never declared.
  - `Function` is declared with a field `ident` but constructed with
    `name:`.
  - `Register()` is built without a register. It is `Register(AX)` here,
    and the emitter prints every register as `%eax`.
- **Unimplemented constructs are not modelled.** The repository's test
  sources use binary operators the code does not support:
  `Tests/Test.swift` parses `return 1 - 2 - 3;` and expects a `Binary`
  node, and `TestFiles/test.c` returns `40 << 4 + 12 >> 1`. The lexer has
  no rule for `-`, `<` or `>`, and the parser has no binary rule. The
  model rejects the first program as the code does
  (`Lexer.BinaryOperatorSourceFails`), and `Lexer.InvalidCharacterFails`
  rejects any text containing `<` or `>`. `Sources/assembly.swift:32-56`
  declares a second register `R10`, `AsmUnary`, `AllocateStack`, `Stack`
  and `Pseudo`, which nothing in the code produces; the model has them as
  data only.

## Model

| member | source | states |
|---|---|---|
| Lexer.ScanFrom | Sources/lexer.swift:34-58 | A successful scan from a position is well lexed: each token fits its span, only blank text lies between tokens, each token's line is the starting line plus the newlines before it, and one `eof` token ends the list at the end of the input |
| Lexer.ScanAfterToken | Sources/lexer.swift:60-63 | Adding a token and scanning on succeeds exactly when the rest of the scan does, and the result stays well lexed from the token's start |
| Lexer.ScanAfterBlank | Sources/lexer.swift:45-46 | A space, tab or lone CR is skipped without a token; a newline is skipped and increments the line; the scan succeeds exactly when the rest does |
| Lexer.PunctAt | Sources/lexer.swift:40-44 | A punctuation character is a one-character token of its kind, on the current line, whose lexeme is the kind's raw name |
| Lexer.WordAt | Sources/lexer.swift:74-87 | An identifier is the maximal run of letters, digits and `_` from its first character; its lexeme is that text, and its kind is a keyword exactly when the keyword table lists the text |
| Lexer.NumberAt | Sources/lexer.swift:89-101 | A constant is the maximal run of digits; its lexeme is that text |
| Lexer.WordEnd | Sources/lexer.swift:74-77 | The identifier loop stops at the first non-word character or at the end of the input, having passed only word characters |
| Lexer.DigitsEnd | Sources/lexer.swift:89-92 | The number loop stops at the first non-digit or at the end of the input, having passed only digits |
| Lexer.WordEndAsWritten | Sources/lexer.swift:19 | As written, the identifier loop traps exactly when the run reaches the end of the input, and otherwise stops where `WordEnd` does |
| Lexer.DigitsEndAsWritten | Sources/lexer.swift:19 | As written, the number loop traps exactly when the run reaches the end of the input, and otherwise stops where `DigitsEnd` does |
| Lexer.RunAtEndOfInputTraps | Sources/lexer.swift:75 | The identifier `main` and the number `42` at the very end of the input trap as written; the corrected loops end them at the end of the input |
| Lexer.ScanFromSucceedsIff | Sources/lexer.swift:39-54 | The scan succeeds exactly when every character has a rule, no "\r\n" occurs, and no digit run that starts a number is followed directly by a letter |
| Lexer.ScanSpans | Sources/lexer.swift:34-58 | A scan of the whole text from line 1 is well lexed |
| Lexer.Scan | Sources/lexer.swift:34-58 | The scan succeeds exactly on lexable text; the output is the tokens of a well-lexed span list (lexemes, lines, maximal runs, blank gaps), ends with `eof`, has no other `eof`, and every kind is one the lexer produces (never `~` or `-`) |
| Lexer.Keyword | Sources/lexer.swift:22-26 | Exactly `int`, `return` and `void` are keywords, each mapped to a keyword kind (never `ident`) named after the word |
| Lexer.BinaryOperatorSourceFails | Tests/Test.swift:15-19 | The test's source `int main(void) { return 1 - 2 - 3; }` fails to lex with `invalidCharacter`, because `-` has no lexer rule |
| Lexer.WellLexedKinds | Sources/lexer.swift:80-86 | In a well-lexed token list only the last token is `eof`, and every kind is a punctuation, keyword, identifier, constant or `eof` kind |
| Lexer.TokenLines | Sources/lexer.swift:46 | Every token's line is 1 plus the number of newlines before its start |
| Lexer.InvalidCharacterFails | Sources/lexer.swift:47-54 | A character with no rule, or a "\r\n", anywhere in the text makes the scan fail with `invalidCharacter` |
| Lexer.DigitsThenLetterFails | Sources/lexer.swift:94-96 | A number followed directly by a letter makes the scan fail with `invalidCharacter` |
| Parser.Unexpected | Sources/parser.swift:81 | The error thrown at a position carries the token there, and is `OutOfTokens` only past the last token |
| Parser.Check | Sources/parser.swift:90-93 | `check` is false at the end of the input, and otherwise true exactly when the current token has the kind |
| Parser.Advance | Sources/parser.swift:84-88 | `advance` moves exactly one token forward unless at the end, where it stays, and returns the token just passed |
| Parser.Match | Sources/parser.swift:95-103 | `match` succeeds exactly when the current token has one of the kinds, and advances by one exactly then |
| Parser.Consume | Sources/parser.swift:105-111 | `consume` succeeds exactly when the current token has the kind, returning it and the next position; otherwise it throws `invalidToken` with the current token |
| Parser.ParseExpression | Sources/parser.swift:56-58 | On success the consumed tokens are one expression of the grammar and the tree is the grammar's tree for them; every result makes progress, and every error carries a token of the input |
| Parser.ParseUnary | Sources/parser.swift:60-67 | As `ParseExpression`, for the prefix-operator rule |
| Parser.ParsePrimary | Sources/parser.swift:69-82 | As `ParseExpression`, for constants and parentheses; a current token that is neither a constant nor `(` is itself the error |
| Parser.ParseConstant | Sources/parser.swift:70-75 | A constant fails exactly when its lexeme is not a valid `Int`, and then the error is that constant token |
| Parser.ParseGroup | Sources/parser.swift:76-80 | A parenthesised expression gives the inner tree itself and consumes through the `)` |
| Parser.ParseIdentifier | Sources/parser.swift:43-46 | Succeeds exactly on an identifier token and gives its lexeme as the name |
| Parser.ParseStatement | Sources/parser.swift:48-54 | On success the consumed tokens are `return`, one expression and `;`, and the statement returns the grammar's tree |
| Parser.ParseSignature | Sources/parser.swift:31-36 | On success the tokens are `int IDENT ( void ) {`, and the name is the identifier's lexeme |
| Parser.ParseParameters | Sources/parser.swift:33-36 | Succeeds exactly on `( void ) {`, consuming four tokens |
| Parser.ParseBody | Sources/parser.swift:37-38 | On success the tokens are a return statement of the grammar and `}`, and the statement is the grammar's |
| Parser.ParseFunctionBody | Sources/parser.swift:37-40 | After a signature, on success the tokens are a function of the grammar and the result is the grammar's function |
| Parser.ParseFunction | Sources/parser.swift:30-41 | On success the consumed tokens form one function of the grammar and the function is the one the grammar gives them, named by the identifier's lexeme |
| Parser.Parse | Sources/parser.swift:23-28 | A program is returned only for accepted input and is the grammar's program for it; an error carries a token of the input, and eof-terminated input never runs out of tokens |
| ParserProofs.ParseExpressionComplete | Sources/parser.swift:56-82 | Every expression of the grammar is parsed, through its last token, into the grammar's tree |
| ParserProofs.ParseBodyComplete | Sources/parser.swift:48-54 | Every return statement of the grammar followed by `}` is parsed into the grammar's statement |
| ParserProofs.ParseFunctionComplete | Sources/parser.swift:30-41 | Every function of the grammar is parsed into the grammar's function |
| ParserProofs.ParseComplete | Sources/parser.swift:23-28 | Every accepted token sequence is parsed into the grammar's program |
| ParserProofs.ParseSucceedsIff | Sources/parser.swift:23-82 | Parsing succeeds exactly when the tokens begin with `int IDENT ( void ) { return E ; } eof` |
| ParserProofs.ParenthesesAddNoNode | Sources/parser.swift:76-79 | `( E )` parses to the same tree as `E` |
| ParserProofs.PrefixStep | Sources/parser.swift:61-64 | A prefix operator before a parsed expression gives the `Unary` of that operator over the expression's tree |
| ParserProofs.ParenthesisStep | Sources/parser.swift:76-79 | `(`, a parsed expression and `)` give the expression's tree, ending after the `)` |
| ParserProofs.ConstantOutOfRange | Sources/parser.swift:72-74 | A constant whose lexeme is not a valid `Int` is rejected with that token |
| ParserProofs.NoExpressionStart | Sources/parser.swift:81 | A token that cannot start an expression is the error |
| ParserProofs.ReturnWithoutExpression | Sources/parser.swift:49-50 | `return ;` is rejected at the semicolon |
| ParserProofs.ReturnConstantParses | Sources/parser.swift:23-41 | `int NAME ( void ) { return C ; } eof` parses to the function NAME returning C's value |
| ParserProofs.PrefixOperatorsNestRight | Sources/parser.swift:60-67 | With two prefix operators, the first is the outer node: `-~5` is `Unary(-, Unary(~, 5))` |
| ParserProofs.TwoPrefixes | Sources/parser.swift:60-67 | Two prefix operators and a constant form one expression, with the first operator outermost |
| TackyGenerator.MakeTemp | Sources/tackyGenerator.swift:52-56 | The temporary is `Var.Temp` followed by the counter; the counter goes up by one, and no instruction is appended |
| TackyGenerator.TempNameInjective | Sources/tackyGenerator.swift:53 | Two counters give the same name exactly when they are equal |
| TackyGenerator.MakeTempFresh | Sources/tackyGenerator.swift:52-56 | Two temporaries made one after the other differ |
| TackyGenerator.LoweringStep | Sources/tackyGenerator.swift:41-47 | Wrapping one more operator appends exactly one unary instruction after the operand's instructions |
| TackyGenerator.ParseVal | Sources/tackyGenerator.swift:38-50 | A constant is its own value and appends nothing. Each prefix operator appends one instruction with its own operator, innermost first, reading the previous value into a new temporary. An identifier is `invalidStatement` |
| TackyGenerator.ParseInstructions | Sources/tackyGenerator.swift:30-36 | A return appends the expression's instructions and then the return of its value. A statement that is not a return leaves the list unchanged. Failure happens exactly when the operand is not a constant |
| TackyGenerator.ParseFunction | Sources/tackyGenerator.swift:25-28 | The TACKY function keeps the name and holds the return code computed from a fresh generator |
| TackyGenerator.Emit | Sources/tackyGenerator.swift:21-23 | `emit` succeeds exactly on lowerable statements and gives the function's return code, or no instructions for a statement that is not a return |
| TackyGenerator.ReturnCodeAt | Sources/tackyGenerator.swift:31-47 | Instruction `i` of the code for `return e` applies the `i`-th operator from the inside to the previous value and writes `Var.Temp<i>`; the last one is the return |
| TackyGenerator.ReturnCodeOperators | Sources/tackyGenerator.swift:41-46 | The unary instructions apply the operators innermost first, each writing the temporary named after its position |
| TackyGenerator.ReturnCodeChains | Sources/tackyGenerator.swift:42-46 | Each instruction after the first reads the temporary the one before it wrote |
| TackyGenerator.ReturnCodeTempsDistinct | Sources/tackyGenerator.swift:52-56 | No two unary instructions write the same temporary |
| TackyGenerator.ReturnCodeShape | Sources/tackyGenerator.swift:30-56 | The code for `return e` has the three-address shape: depth plus one instructions, return last, constant read first, each later one chained, temporaries distinct |
| TackyGenerator.EmitShape | Sources/tackyGenerator.swift:21-56 | Whatever `emit` produces for a return has that shape |
| TackyGenerator.NestedUnaryExample | Sources/tackyGenerator.swift:38-50 | `return -~5` lowers to a complement into `Var.Temp0`, a negation into `Var.Temp1`, and the return of `Var.Temp1` |
| CodeGenerator.GenImm | Sources/codeGenerator.swift:36-43 | Succeeds exactly on a returned `Integer`, giving the immediate of its value; anything else is `general` |
| CodeGenerator.GenInstructions | Sources/codeGenerator.swift:28-34 | Succeeds exactly on `return <constant>`, giving the move of the constant into the return register and `ret`; anything else is `general` |
| CodeGenerator.GenFunction | Sources/codeGenerator.swift:23-26 | Keeps the function's name and succeeds exactly on programs returning a constant |
| CodeGenerator.Generate | Sources/codeGenerator.swift:19-21 | Succeeds exactly on programs returning a constant, keeping the name; otherwise fails with `general` |
| CodeGenerator.GeneratedCodeReturnsConstant | Sources/codeGenerator.swift:19-43 | Running the generated code leaves the program's constant in the return register, whatever the register held before |
| CodeEmitter.EmitOperand | Sources/codeEmitter.swift:28-35 | A register prints as `%eax` whatever register it holds; an immediate prints starting with `$`; stack and pseudo operands print as nothing; no operand text contains a line break |
| CodeEmitter.ImmediateReadsBack | Sources/codeEmitter.swift:31-32 | The digits after `$` read back as the immediate's value, so printing an immediate loses nothing |
| CodeEmitter.EmitInstruction | Sources/codeEmitter.swift:20-24 | A move or return prints some text; any other instruction prints nothing |
| CodeEmitter.Emit | Sources/codeEmitter.swift:16-26 | The emitted text is the header, then each instruction's text in order |
| CodeEmitter.OthersDropped | Sources/codeEmitter.swift:19-25 | Instructions other than moves and returns leave no trace: the text is that of the printed instructions alone |
| CodeEmitter.InstructionLines | Sources/codeEmitter.swift:20-24 | A move or a return is exactly one line; any other instruction is none |
| CodeEmitter.RenderingLines | Sources/codeEmitter.swift:19-25 | The body text has one line per printed instruction |
| CodeEmitter.Header | Sources/codeEmitter.swift:18 | The header starts with a tab and `.globl _`, ends with the label's `:` and a newline, is as long as its fixed text plus the name twice, and is two lines when the name has no line break |
| CodeEmitter.Rendering | Sources/codeEmitter.swift:19-25 | The instructions' text is empty exactly when none of them is a move or a return |
| CodeEmitter.Listing | Sources/codeEmitter.swift:16-26 | The listing is the header followed by the text of the printed instructions alone, and has two header lines plus one line per printed instruction when the name has no line break |
| Decimal.NatToString | Sources/tackyGenerator.swift:53 | The decimal text of a number is a non-empty digit string, without leading zeros, that denotes the number |
| Decimal.IntToString | Sources/codeEmitter.swift:32 | An `Int`'s text starts with `-` exactly for negatives, and the remaining digits denote its magnitude with no leading zero |
| Decimal.ParseInt | Sources/parser.swift:72 | `Int(String)` returns only values within 64 bits, and never for the empty string |
| Decimal.ParseDigitsValue | Sources/parser.swift:72 | A digit string is read exactly when every character is a digit, and is read as the number it denotes |
| Decimal.ParseIntOfDigits | Sources/parser.swift:72 | A plain digit string is read as its number when that fits in an `Int`, and is rejected otherwise |
| Decimal.ParseIntOfIntToString | Sources/parser.swift:72 | Reading back the text of an `Int` gives the same `Int` |
| Compiler.LexStage | Sources/swiftc.swift:38-45 | The lexing stage succeeds exactly when the scan does and returns its tokens |
| Compiler.Run | Sources/swiftc.swift:18-36 | Text is produced exactly when no flag is given and the whole pipeline succeeds, and it is the pipeline's text; any success has lexed the source |
| Compiler.ListingOfGenerated | Sources/codeEmitter.swift:16-26 | For a program returning a constant, the text is the header, `movl $<value>, %eax` and `ret` |
| Compiler.WithoutOperatorsIsConstant | Sources/parser.swift:69-80 | An expression with no prefix-operator token denotes an `Integer` |
| Compiler.ParsedWithoutOperators | Sources/parser.swift:23-28 | A program parsed from tokens without prefix operators returns a constant |
| Compiler.AcceptedWithoutOperators | Sources/parser.swift:23-28 | The grammar's program for tokens without prefix operators returns a constant |
| Compiler.ParsedTokensGenerate | Sources/swiftc.swift:26-28 | On eof-terminated tokens without prefix operators, parsing never runs out of tokens, and a parsed program can be compiled |
| Compiler.LexedProgramsGenerate | Sources/swiftc.swift:26-28 | On lexed source the parser never runs out of tokens, and code generation accepts every parsed program |
| Compiler.Compile | Sources/swiftc.swift:30-33 | Without flags, compilation succeeds exactly when lexing and parsing do; code generation never fails; the parsed program returns a constant, and the text is the header, the move of that constant into `%eax`, and `ret` |
| Compiler.ReturnTwoParses | Sources/parser.swift:23-41 | The tokens of `int main(void) { return 2; }` parse to `main` returning 2 |
| Compiler.ReturnTwoEmits | Sources/codeEmitter.swift:16-26 | `main` returning 2 is emitted as `.globl _main`, `_main:`, `movl $2, %eax`, `ret` |

## Left out

- File reading and writing (`Sources/swiftc.swift:39-41` and `:61`), the
  preprocessing and assembling shell commands (`Sources/swiftc.swift:64-91`)
  and argument parsing are outside the model. The
  driver's stages start from the source text and end with the assembly
  text.
- The driver never runs the TACKY generator, so `Compiler.Run` does not
  call it. It is modelled on its own.
- Binary operators, and any use of the unary instructions, stack
  operands, pseudo-registers and `R10` that `Sources/assembly.swift`
  declares, are not in the code, so they are not in the model.
- Repeated `emit()` calls on one TACKY generator would keep the earlier
  instructions and counter. The model starts each `Emit` from a fresh
  generator.
- Likewise a second `parse()` on one `Parser` would start from the
  position the first left (`Sources/parser.swift:14`), and a second
  `emit()` on one `CodeEmitter` would append to the text already in `code`
  (`Sources/codeEmitter.swift:10`). The model's `Parser.Parse` and
  `CodeEmitter.Emit` always start fresh, as the driver uses each object
  once.
- Non-ASCII text is not modelled: `Lexer.Scan` requires ASCII input, as
  the driver reads the file as ASCII.
- ParseResults.Progress: an `invalidToken` error is promised to carry a token of
  the input, not the token at the exact failure position. The exact
  positions are stated separately by `Parser.Consume`, `Parser.ParsePrimary`,
  `ParserProofs.NoExpressionStart`, `ParserProofs.ConstantOutOfRange` and
  `ParserProofs.ReturnWithoutExpression`.
- Decimal.ParseInt: its contract gives the range and non-emptiness only.
  What it accepts is stated by `Decimal.ParseIntOfDigits` and
  `Decimal.ParseIntOfIntToString`. Signed inputs other than `-` followed
  by digits, such as `+5`, are modelled but no lemma is stated about them.
- CodeEmitter.EmitOperand: the contract says only that an immediate's text
  starts with `$`. Its digits are given by `CodeEmitter.ImmediateReadsBack`
  and, for the generated move, by `Compiler.ListingOfGenerated`.
- CodeEmitter.EmitInstruction: the contract says which instructions print
  text. The text of a generated move and `ret` is given by
  `Compiler.ListingOfGenerated`, and its line count by
  `CodeEmitter.InstructionLines`.
- The lexer's `Token.line` is an unbounded integer. A line counter
  overflow is not modelled.

## Findings

| source | as written | input that shows it | evidently intended | confidence | as-written member | corrected member |
|---|---|---|---|---|---|---|
| Sources/lexer.swift:19 | `peek` indexes `source[position]` with no end check, and the identifier and number loops (lines 75 and 90) call it until the run ends, so a run that reaches the end of the input reads past it and traps | `int main` with no trailing character, or `42` at the end of the text | end of input ends the run, as `advance` already treats it (line 68) | not executed | Lexer.WordEndAsWritten, Lexer.DigitsEndAsWritten, Lexer.RunAtEndOfInputTraps | Lexer.WordEnd, Lexer.DigitsEnd |
