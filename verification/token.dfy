/** Tokens as the lexer produces them and the parser consumes them. */
module Tokens {

  /** Every token kind the lexer or the parser mentions. The Swift enum's raw
      value of each case is the case's name. */
  datatype TokenKind =
    | LeftParen | RightParen | LeftBrace | RightBrace | Semicolon
    | IntKeyword | ReturnKeyword | VoidKeyword
    | Ident | Constant | Eof
    | Tilde | Minus

  /** The raw value of a kind: the Swift case name, spelt as declared. */
  function RawName(k: TokenKind): string {
    match k
    case LeftParen => "leftParen"
    case RightParen => "rightParen"
    case LeftBrace => "leftBrace"
    case RightBrace => "rightBrace"
    case Semicolon => "semicolon"
    case IntKeyword => "intKeyword"
    case ReturnKeyword => "returnKeyword"
    case VoidKeyword => "voidKeyword"
    case Ident => "ident"
    case Constant => "constant"
    case Eof => "eof"
    case Tilde => "tilde"
    case Minus => "minus"
  }

  /** The Swift field `type` is called `kind` here. */
  datatype Token = Token(kind: TokenKind, lexeme: string, line: int)
}
