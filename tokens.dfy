/** The tokens of the current lexer: a `(TokenVariant, TokenData)` pair. */
module Tokens {
  import opened Source

  datatype TokenVariant =
    | Identifier
    | Type | Set | Enum | True | False
    | Number | String | Regex
    | Not | Or | And | Dot | Comma | Colon | Semicolon
    | Plus | Minus | Asterix | Backslash | Dollar | Caret | At
    | Eq | Neq | SymmDiff | Range | Gt | Lt
    | LParen | RParen | LCurly | RCurly | LBracket | RBracket

  datatype Token = Token(variant: TokenVariant, data: TokenData)
}
