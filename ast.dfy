/**
 * The syntax tree the error-recovering parser (common/src/parser/parser.rs) builds.
 * Its definitions are not part of this model's sources; the shapes below are
 * those its construction sites require (common/src/parser/parser.rs:1-3, 136,
 * 169-219, 249-252, 275, 287, 294, 310, 316).
 */
module Ast {
  import opened Source
  import Text

  /** A number literal: an `i64`, or a float whose value is not modelled (only its lexeme). */
  datatype NumberType = Int(value: Text.I64, data: TokenData) | Float(data: TokenData)

  datatype Literal =
    | Boolean(value: bool, data: TokenData)
    | String(content: string, data: TokenData)
    | Number(number: NumberType)

  datatype BinaryExprType =
    Or | Union | Intersection | Xor | Difference | Range | Add | Remove | SymmetricDifference

  /** A type expression. Bracketed forms hold lists of anonymous types. */
  datatype Expr =
    | Identifier(data: TokenData)
    | FieldAccess(field: TokenData)
    | Literal(literal: Literal)
    | Regex(data: TokenData)
    | List(items: seq<seq<Expr>>)
    | Set(items: seq<seq<Expr>>)
    | Struct(fields: seq<KeyValExpr>)
    | Enum(fields: seq<KeyValExpr>)
    | Annotation(name: TokenData, args: seq<seq<Expr>>)
    | Not(operand: Expr)
    | BinaryExpr(op: BinaryExprType, left: Expr, right: Expr)

  /** A struct or enum field: its name and its type. */
  datatype KeyValExpr = KeyVal(key: TokenData, value: seq<Expr>)

  /** The expressions of one anonymous type, in the order they were reduced. */
  type AnonymType = seq<Expr>

  type TypeList = seq<AnonymType>

  datatype Declaration = TypeDecl(name: TokenData, t: AnonymType)
}
