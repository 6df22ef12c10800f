/** The lexer (Sources/lexer.swift): turns ASCII source text into tokens.

    The Swift lexer keeps `start`, `position` and `line` in mutable fields;
    here they are threaded through `ScanFrom`, and every token is paired
    with the span `[start, position)` the lexer had consumed when it added
    the token, so that properties relating tokens to the text can be stated.

    End of input: `peek` in the Swift code indexes the source without an
    end check. The model reads end of input as a character that is neither a
    letter nor a digit (as `advance` does with "\0"); the unchecked reads as
    written are `WordEndAsWritten` and `DigitsEndAsWritten` below. */
module Lexer {
  import opened Results
  import opened Tokens
  import Decimal

  datatype LexError = InvalidCharacter

  /** The driver decodes the source file as ASCII. */
  predicate IsAscii(s: string) {
    forall i :: 0 <= i < |s| ==> s[i] < 128 as char
  }

  /** `Character.isLetter` on ASCII. */
  predicate IsLetter(c: char) {
    'a' <= c <= 'z' || 'A' <= c <= 'Z'
  }

  /** `Character.isNumber` on ASCII. */
  predicate IsDigit(c: char) {
    Decimal.IsDigit(c)
  }

  predicate IsWordStart(c: char) {
    IsLetter(c) || c == '_'
  }

  predicate IsWordChar(c: char) {
    IsLetter(c) || IsDigit(c) || c == '_'
  }

  predicate IsBlank(c: char) {
    c == ' ' || c == '\t' || c == '\r' || c == '\n'
  }

  predicate IsPunct(c: char) {
    c == '(' || c == ')' || c == '{' || c == '}' || c == ';'
  }

  /** A character some rule of the lexer accepts. */
  predicate IsValidChar(c: char) {
    IsPunct(c) || IsBlank(c) || IsWordChar(c)
  }

  function PunctKind(c: char): TokenKind
    requires IsPunct(c)
  {
    match c
    case '(' => LeftParen
    case ')' => RightParen
    case '{' => LeftBrace
    case '}' => RightBrace
    case ';' => Semicolon
  }

  predicate IsPunctKind(k: TokenKind) {
    k.LeftParen? || k.RightParen? || k.LeftBrace? || k.RightBrace? || k.Semicolon?
  }

  predicate IsWordKind(k: TokenKind) {
    k.Ident? || k.IntKeyword? || k.ReturnKeyword? || k.VoidKeyword?
  }

  /** The kinds the lexer can produce. */
  predicate IsLexerKind(k: TokenKind) {
    IsPunctKind(k) || IsWordKind(k) || k.Constant? || k.Eof?
  }

  /** The keyword table: the three keywords, each mapped to the kind named
      after it. */
  function Keyword(word: string): (k: Option<TokenKind>)
    ensures k.Some? <==> word in {"int", "return", "void"}
    ensures k.Some? ==> IsWordKind(k.value) && !k.value.Ident?
    ensures k.Some? ==> RawName(k.value) == word + "Keyword"
  {
    if word == "int" then Some(IntKeyword)
    else if word == "return" then Some(ReturnKeyword)
    else if word == "void" then Some(VoidKeyword)
    else None
  }

  /** The kind `ident()` gives a word: its keyword, if any, else `ident`. */
  function WordKind(word: string): (k: TokenKind)
    ensures IsWordKind(k)
  {
    match Keyword(word)
    case Some(kw) => kw
    case None => Ident
  }

  /** In Swift "\r\n" is a single `Character`, equal to neither "\r" nor
      "\n" and neither a letter nor a number. */
  predicate IsCrLf(src: string, i: nat)
    requires i < |src|
  {
    i + 1 < |src| && src[i] == '\r' && src[i + 1] == '\n'
  }

  /** Where `ident()`'s loop stops when started at `i`: the end of the
      maximal run of letters, digits and underscores. */
  function WordEnd(src: string, i: nat): (j: nat)
    requires i <= |src|
    ensures i <= j <= |src|
    ensures forall k :: i <= k < j ==> IsWordChar(src[k])
    ensures j == |src| || !IsWordChar(src[j])
    decreases |src| - i
  {
    if i < |src| && IsWordChar(src[i]) then WordEnd(src, i + 1) else i
  }

  /** Where `number()`'s loop stops when started at `i`: the end of the
      maximal run of digits. */
  function DigitsEnd(src: string, i: nat): (j: nat)
    requires i <= |src|
    ensures i <= j <= |src|
    ensures forall k :: i <= k < j ==> IsDigit(src[k])
    ensures j == |src| || !IsDigit(src[j])
    decreases |src| - i
  {
    if i < |src| && IsDigit(src[i]) then DigitsEnd(src, i + 1) else i
  }

  /** `ident()`'s loop as written: reaching the end of the input reads
      past it, which traps (`None`). */
  function WordEndAsWritten(src: string, i: nat): (r: Option<nat>)
    requires i <= |src|
    ensures r.Some? ==> r.value == WordEnd(src, i) < |src|
    ensures r.None? <==> WordEnd(src, i) == |src|
    decreases |src| - i
  {
    if i == |src| then None
    else if IsWordChar(src[i]) then WordEndAsWritten(src, i + 1)
    else Some(i)
  }

  /** `number()`'s loop as written, with the same unchecked read. */
  function DigitsEndAsWritten(src: string, i: nat): (r: Option<nat>)
    requires i <= |src|
    ensures r.Some? ==> r.value == DigitsEnd(src, i) < |src|
    ensures r.None? <==> DigitsEnd(src, i) == |src|
    decreases |src| - i
  {
    if i == |src| then None
    else if IsDigit(src[i]) then DigitsEndAsWritten(src, i + 1)
    else Some(i)
  }

  /** A source that ends in the middle of a word or a number makes the
      lexer as written read past the end, where the intended lexer ends the
      token at the end of the input. */
  lemma RunAtEndOfInputTraps()
    ensures WordEndAsWritten("main", 1).None? && WordEnd("main", 1) == 4
    ensures DigitsEndAsWritten("42", 1).None? && DigitsEnd("42", 1) == 2
  {
  }

  /** The number of newlines in `src[a..b]`. */
  function NewlinesIn(src: string, a: nat, b: nat): nat
    requires a <= b <= |src|
    decreases b - a
  {
    if a == b then 0 else (if src[a] == '\n' then 1 else 0) + NewlinesIn(src, a + 1, b)
  }

  lemma {:induction false} NewlinesSplit(src: string, a: nat, b: nat, c: nat)
    requires a <= b <= c <= |src|
    ensures NewlinesIn(src, a, c) == NewlinesIn(src, a, b) + NewlinesIn(src, b, c)
    decreases b - a
  {
    if a < b {
      NewlinesSplit(src, a + 1, b, c);
    }
  }

  lemma {:induction false} NoNewlines(src: string, a: nat, b: nat)
    requires a <= b <= |src|
    requires forall k :: a <= k < b ==> src[k] != '\n'
    ensures NewlinesIn(src, a, b) == 0
    decreases b - a
  {
    if a < b {
      NoNewlines(src, a + 1, b);
    }
  }

  /** A token together with the span of source it was scanned from. */
  datatype Lexed = Lexed(token: Token, start: nat, end: nat)

  /** `src[a..b]` is skipped text: spaces, tabs, newlines and lone CRs. */
  predicate Blank(src: string, a: nat, b: nat) {
    a <= b <= |src| && forall k :: a <= k < b ==> IsBlank(src[k]) && !IsCrLf(src, k)
  }

  /** The token agrees with the text of its span: punctuation is one
      character and carries its kind's raw name as lexeme; a word or a
      constant is a maximal run whose lexeme is the text itself, and a word
      is a keyword exactly when the keyword table says so. */
  predicate SpanFits(src: string, l: Lexed) {
    && l.start < l.end <= |src|
    && var k := l.token.kind;
    if IsPunctKind(k) then
      && l.end == l.start + 1
      && IsPunct(src[l.start])
      && PunctKind(src[l.start]) == k
      && l.token.lexeme == RawName(k)
    else if IsWordKind(k) then
      && IsWordStart(src[l.start])
      && (forall i :: l.start <= i < l.end ==> IsWordChar(src[i]))
      && (l.end == |src| || !IsWordChar(src[l.end]))
      && l.token.lexeme == src[l.start..l.end]
      && k == WordKind(l.token.lexeme)
    else if k.Constant? then
      && (forall i :: l.start <= i < l.end ==> IsDigit(src[i]))
      && (l.end == |src| || (!IsDigit(src[l.end]) && !IsLetter(src[l.end])))
      && l.token.lexeme == src[l.start..l.end]
    else
      false
  }

  /** A non-eof token scanned from `pos` on, whose line is `line` plus the
      newlines between `pos` and the token. */
  predicate Fits(src: string, pos: nat, line: int, l: Lexed)
    requires pos <= |src|
  {
    && pos <= l.start <= |src|
    && SpanFits(src, l)
    && l.token.line == line + NewlinesIn(src, pos, l.start)
  }

  /** What a successful scan of `src[pos..]` from line `line` yields: tokens
      in source order, each fitting its span, separated only by blank text,
      and one final eof token at the end of the input. */
  predicate WellLexed(src: string, pos: nat, line: int, ls: seq<Lexed>)
    requires pos <= |src|
  {
    && 0 < |ls|
    && ls[|ls| - 1] == Lexed(Token(Eof, RawName(Eof), line + NewlinesIn(src, pos, |src|)), |src|, |src|)
    && (forall i :: 0 <= i < |ls| - 1 ==> Fits(src, pos, line, ls[i]))
    && Blank(src, pos, ls[0].start)
    && (forall i :: 0 <= i < |ls| - 1 ==> Blank(src, ls[i].end, ls[i + 1].start))
  }

  lemma ExtendBlank(src: string, pos: nat, line: int, rest: seq<Lexed>)
    requires pos < |src| && IsBlank(src[pos]) && !IsCrLf(src, pos)
    requires WellLexed(src, pos + 1, line + (if src[pos] == '\n' then 1 else 0), rest)
    ensures WellLexed(src, pos, line, rest)
  {
    var line' := line + (if src[pos] == '\n' then 1 else 0);
    forall i | 0 <= i < |rest| - 1
      ensures Fits(src, pos, line, rest[i])
    {
      assert Fits(src, pos + 1, line', rest[i]);
    }
  }

  /** A token's text never contains a newline. */
  lemma SpanHasNoNewline(src: string, l: Lexed)
    requires SpanFits(src, l)
    ensures NewlinesIn(src, l.start, l.end) == 0
  {
    forall k | l.start <= k < l.end
      ensures src[k] != '\n'
    {
      if IsPunctKind(l.token.kind) {
        assert k == l.start;
      }
    }
    NoNewlines(src, l.start, l.end);
  }

  /** A token that fits a scan from `end` fits one from an earlier `pos`
      when no newline lies between them. */
  lemma FitsEarlier(src: string, pos: nat, end: nat, line: int, l: Lexed)
    requires pos <= end <= |src| && NewlinesIn(src, pos, end) == 0
    requires Fits(src, end, line, l)
    ensures Fits(src, pos, line, l)
  {
    NewlinesSplit(src, pos, end, l.start);
  }

  lemma ExtendToken(src: string, pos: nat, line: int, here: Lexed, rest: seq<Lexed>)
    requires here.start == pos && SpanFits(src, here) && here.token.line == line
    requires WellLexed(src, here.end, line, rest)
    ensures WellLexed(src, pos, line, [here] + rest)
  {
    var ls := [here] + rest;
    SpanHasNoNewline(src, here);
    NewlinesSplit(src, pos, here.end, |src|);
    ExtendTokenFits(src, pos, line, here, rest);
    forall i | 0 < i < |ls| - 1
      ensures Blank(src, ls[i].end, ls[i + 1].start)
    {
      assert ls[i] == rest[i - 1] && ls[i + 1] == rest[i];
    }
  }

  lemma ExtendTokenFits(src: string, pos: nat, line: int, here: Lexed, rest: seq<Lexed>)
    requires here.start == pos && SpanFits(src, here) && here.token.line == line
    requires WellLexed(src, here.end, line, rest)
    requires NewlinesIn(src, pos, here.end) == 0
    ensures forall i :: 0 <= i < |rest| ==> Fits(src, pos, line, ([here] + rest)[i])
  {
    var ls := [here] + rest;
    assert Fits(src, pos, line, here);
    forall i | 0 < i < |rest|
      ensures Fits(src, pos, line, ls[i])
    {
      assert ls[i] == rest[i - 1];
      FitsEarlier(src, pos, here.end, line, rest[i - 1]);
    }
  }

  /** The token `addToken` makes for the punctuation character at `pos`. */
  function PunctAt(src: string, pos: nat, line: int): (l: Lexed)
    requires pos < |src| && IsPunct(src[pos])
    ensures l.start == pos && l.end == pos + 1 && l.token.line == line
    ensures SpanFits(src, l)
  {
    var kind := PunctKind(src[pos]);
    Lexed(Token(kind, RawName(kind), line), pos, pos + 1)
  }

  /** The token `ident()` makes for the word starting at `pos`. */
  function WordAt(src: string, pos: nat, line: int): (l: Lexed)
    requires pos < |src| && IsWordStart(src[pos])
    ensures l.start == pos && l.end == WordEnd(src, pos + 1) && l.token.line == line
    ensures SpanFits(src, l)
  {
    var end := WordEnd(src, pos + 1);
    var word := src[pos..end];
    Lexed(Token(WordKind(word), word, line), pos, end)
  }

  /** The token `number()` makes for the digits starting at `pos`, when
      no letter follows them. */
  function NumberAt(src: string, pos: nat, line: int): (l: Lexed)
    requires pos < |src| && IsDigit(src[pos])
    requires var end := DigitsEnd(src, pos + 1); end == |src| || !IsLetter(src[end])
    ensures l.start == pos && l.end == DigitsEnd(src, pos + 1) && l.token.line == line
    ensures SpanFits(src, l)
  {
    var end := DigitsEnd(src, pos + 1);
    Lexed(Token(Constant, src[pos..end], line), pos, end)
  }

  /** The scanning loop of `scan()`, from `pos` on, with the line counter
      `line`. */
  function ScanFrom(src: string, pos: nat, line: int): (r: Result<seq<Lexed>, LexError>)
    requires pos <= |src|
    ensures r.Success? ==> WellLexed(src, pos, line, r.value)
    decreases |src| - pos, 1
  {
    if pos == |src| then
      Success([Lexed(Token(Eof, RawName(Eof), line), |src|, |src|)])
    else
      var c := src[pos];
      if IsPunct(c) then
        ScanAfterToken(src, line, PunctAt(src, pos, line))
      else if c == ' ' || c == '\t' || (c == '\r' && !IsCrLf(src, pos)) then
        ScanAfterBlank(src, pos, line)
      else if c == '\n' then
        ScanAfterBlank(src, pos, line)
      else if IsWordStart(c) then
        ScanAfterToken(src, line, WordAt(src, pos, line))
      else if IsDigit(c) then
        var end := DigitsEnd(src, pos + 1);
        if end < |src| && IsLetter(src[end]) then
          Failure(InvalidCharacter)
        else
          ScanAfterToken(src, line, NumberAt(src, pos, line))
      else
        Failure(InvalidCharacter)
  }

  /** `addToken` for `here`, then the rest of the scan. */
  function ScanAfterToken(src: string, line: int, here: Lexed): (r: Result<seq<Lexed>, LexError>)
    requires here.start < here.end <= |src| && SpanFits(src, here) && here.token.line == line
    ensures r.Success? ==> WellLexed(src, here.start, line, r.value)
    ensures r.Success? <==> ScanFrom(src, here.end, line).Success?
    decreases |src| - here.start, 0
  {
    var rest :- ScanFrom(src, here.end, line);
    ExtendToken(src, here.start, line, here, rest);
    Success([here] + rest)
  }

  /** Skipping the blank character at `pos`, counting it if it is a
      newline, then the rest of the scan. */
  function ScanAfterBlank(src: string, pos: nat, line: int): (r: Result<seq<Lexed>, LexError>)
    requires pos < |src| && IsBlank(src[pos]) && !IsCrLf(src, pos)
    ensures r.Success? ==> WellLexed(src, pos, line, r.value)
    ensures r.Success? <==> ScanFrom(src, pos + 1, if src[pos] == '\n' then line + 1 else line).Success?
    decreases |src| - pos, 0
  {
    var rest :- ScanFrom(src, pos + 1, if src[pos] == '\n' then line + 1 else line);
    ExtendBlank(src, pos, line, rest);
    Success(rest)
  }

  /** `scan()` on a fresh lexer, keeping each token's span. */
  function ScanSpans(src: string): (r: Result<seq<Lexed>, LexError>)
    requires IsAscii(src)
    ensures r.Success? ==> WellLexed(src, 0, 1, r.value)
  {
    ScanFrom(src, 0, 1)
  }

  function TokensOf(ls: seq<Lexed>): (ts: seq<Token>)
    ensures |ts| == |ls|
    ensures forall i :: 0 <= i < |ls| ==> ts[i] == ls[i].token
  {
    seq(|ls|, i requires 0 <= i < |ls| => ls[i].token)
  }

  /** A digit at `k` starts a run of digits directly followed by a letter. */
  predicate LetterAfterDigits(src: string, k: nat)
    requires k <= |src|
  {
    var e := DigitsEnd(src, k);
    e < |src| && IsLetter(src[e])
  }

  /** Position `k` of a scan started at `pos` is acceptable: its character
      is valid, it does not begin "\r\n", and if a number starts there (a
      digit not preceded by a word character) the number is not directly
      followed by a letter. */
  predicate LexableAt(src: string, pos: nat, k: nat)
    requires pos <= k < |src|
  {
    && IsValidChar(src[k])
    && !IsCrLf(src, k)
    && (IsDigit(src[k]) && (k == pos || !IsWordChar(src[k - 1])) ==> !LetterAfterDigits(src, k))
  }

  predicate Lexable(src: string, pos: nat)
    requires pos <= |src|
  {
    forall k :: pos <= k < |src| ==> LexableAt(src, pos, k)
  }

  lemma LexableSkip(src: string, pos: nat, end: nat)
    requires pos < end <= |src|
    requires forall k :: pos <= k < end ==> LexableAt(src, pos, k)
    requires end < |src| ==> !IsDigit(src[end]) || !IsWordChar(src[end - 1])
    ensures Lexable(src, pos) <==> Lexable(src, end)
  {
    forall k | end <= k < |src|
      ensures LexableAt(src, pos, k) <==> LexableAt(src, end, k)
    {
    }
    if Lexable(src, end) {
      forall k | pos <= k < |src|
        ensures LexableAt(src, pos, k)
      {
        if k >= end {
          assert LexableAt(src, end, k);
        }
      }
    }
    if Lexable(src, pos) {
      forall k | end <= k < |src|
        ensures LexableAt(src, end, k)
      {
        assert LexableAt(src, pos, k);
      }
    }
  }

  /** The scan from `pos` succeeds exactly when every position from `pos`
      on is acceptable. */
  lemma {:induction false} ScanFromSucceedsIff(src: string, pos: nat, line: int)
    requires pos <= |src|
    ensures ScanFrom(src, pos, line).Success? <==> Lexable(src, pos)
    decreases |src| - pos
  {
    if pos < |src| {
      var c := src[pos];
      if IsPunct(c) || (IsBlank(c) && !IsCrLf(src, pos)) {
        ScanFromSucceedsIff(src, pos + 1, if c == '\n' then line + 1 else line);
        LexableSkip(src, pos, pos + 1);
      } else if IsWordStart(c) {
        var end := WordEnd(src, pos + 1);
        ScanFromSucceedsIff(src, end, line);
        LexableSkip(src, pos, end);
      } else if IsDigit(c) {
        var end := DigitsEnd(src, pos + 1);
        assert DigitsEnd(src, pos) == end;
        if end < |src| && IsLetter(src[end]) {
          assert !LexableAt(src, pos, pos);
        } else {
          ScanFromSucceedsIff(src, end, line);
          LexableSkip(src, pos, end);
        }
      } else {
        assert !LexableAt(src, pos, pos);
      }
    }
  }

  /** `scan()` on a fresh lexer: the tokens, or the first error. */
  function Scan(src: string): (r: Result<seq<Token>, LexError>)
    requires IsAscii(src)
    ensures r.Success? <==> Lexable(src, 0)
    ensures r.Success? ==> 0 < |r.value| && r.value[|r.value| - 1].kind == Eof
    ensures r.Success? ==> forall i :: 0 <= i < |r.value| - 1 ==> r.value[i].kind != Eof
    ensures r.Success? ==> forall i :: 0 <= i < |r.value| ==> IsLexerKind(r.value[i].kind)
    ensures r.Success? ==> exists ls :: WellLexed(src, 0, 1, ls) && r.value == TokensOf(ls)
  {
    ScanFromSucceedsIff(src, 0, 1);
    match ScanSpans(src)
    case Failure(e) => Failure(e)
    case Success(ls) =>
      WellLexedKinds(src, 0, 1, ls);
      Success(TokensOf(ls))
  }

  /** Only the last token of a scan is eof, and every kind is one the
      lexer produces. */
  lemma WellLexedKinds(src: string, pos: nat, line: int, ls: seq<Lexed>)
    requires pos <= |src| && WellLexed(src, pos, line, ls)
    ensures forall i :: 0 <= i < |ls| - 1 ==> ls[i].token.kind != Eof
    ensures forall i :: 0 <= i < |ls| ==> IsLexerKind(ls[i].token.kind)
  {
    forall i | 0 <= i < |ls| - 1
      ensures ls[i].token.kind != Eof && IsLexerKind(ls[i].token.kind)
    {
      assert Fits(src, pos, line, ls[i]);
    }
  }

  /** Each token's line is one plus the number of newlines before it. */
  lemma TokenLines(src: string, i: nat)
    requires IsAscii(src) && ScanSpans(src).Success? && i < |ScanSpans(src).value|
    ensures var l := ScanSpans(src).value[i];
            l.start <= |src| && l.token.line == 1 + NewlinesIn(src, 0, l.start)
  {
    var ls := ScanSpans(src).value;
    if i < |ls| - 1 {
      assert Fits(src, 0, 1, ls[i]);
    }
  }

  /** Every character the lexer has no rule for makes the scan fail, and so
      does "\r\n". */
  lemma InvalidCharacterFails(src: string, k: nat)
    requires IsAscii(src) && k < |src|
    requires !IsValidChar(src[k]) || IsCrLf(src, k)
    ensures Scan(src) == Failure(InvalidCharacter)
  {
    assert !LexableAt(src, 0, k);
    assert !Lexable(src, 0);
    assert Scan(src).Failure?;
    assert Scan(src).error.InvalidCharacter?;
  }

  /** A number directly followed by a letter makes the scan fail. */
  lemma DigitsThenLetterFails(src: string, k: nat)
    requires IsAscii(src) && k < |src| && IsDigit(src[k])
    requires k == 0 || !IsWordChar(src[k - 1])
    requires LetterAfterDigits(src, k)
    ensures Scan(src) == Failure(InvalidCharacter)
  {
    assert !LexableAt(src, 0, k);
    assert !Lexable(src, 0);
    assert Scan(src).Failure?;
    assert Scan(src).error.InvalidCharacter?;
  }

  /** `-` has no rule in the lexer, so a program that uses it between two
      operands, such as `return 1 - 2 - 3;`, is rejected before it reaches
      the parser. */
  lemma BinaryOperatorSourceFails()
    ensures Scan("int main(void) {\n    return 1 - 2 - 3;\n}") == Failure(InvalidCharacter)
  {
    var src := "int main(void) {\n    return 1 - 2 - 3;\n}";
    assert src[30] == '-';
    InvalidCharacterFails(src, 30);
  }
}
