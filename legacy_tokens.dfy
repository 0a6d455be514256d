/**
 * The tokens of the legacy pipeline (src/tokens.rs): one constructor per kind,
 * each carrying the lexeme's data, a number also carrying its numeric type, and
 * a final `EOF` without data.
 */
module LegacyTokens {
  import opened Source

  /** Rust's `u8`. */
  type U8 = n: int | 0 <= n < 256

  /** `NumberType`: an integer (signed or not, and its size in bits) or a float of a size in bits. */
  datatype NumberType = Int(signed: bool, size: U8) | Float(size: U8)

  datatype Token =
    | Identifier(data: TokenData)
    | Type(data: TokenData)
    | Set(data: TokenData)
    | Number(data: TokenData, kind: NumberType)
    | String(data: TokenData)
    | Regex(data: TokenData)
    | Not(data: TokenData)
    | Or(data: TokenData)
    | And(data: TokenData)
    | Dot(data: TokenData)
    | Comma(data: TokenData)
    | Colon(data: TokenData)
    | Semicolon(data: TokenData)
    | Plus(data: TokenData)
    | Minus(data: TokenData)
    | Asterix(data: TokenData)
    | Backslash(data: TokenData)
    | Dollar(data: TokenData)
    | At(data: TokenData)
    | Eq(data: TokenData)
    | Neq(data: TokenData)
    | Caret(data: TokenData)
    | SymmDiff(data: TokenData)
    | Gt(data: TokenData)
    | Lt(data: TokenData)
    | LParen(data: TokenData)
    | RParen(data: TokenData)
    | LCurly(data: TokenData)
    | RCurly(data: TokenData)
    | LBracket(data: TokenData)
    | RBracket(data: TokenData)
    | EOF
}
