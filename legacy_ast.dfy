/**
 * The syntax tree of the legacy pipeline and its `Display` printer
 * (src/parser_expr.rs). Printing is a pure recursive serialisation: collections
 * join their children's renderings with `, `, binary forms are infix without
 * parentheses, strings are quoted without escaping.
 */
module LegacyAst {
  import opened Text

  datatype Expr =
    | TypeDef(name: string, value: Expr)
    | List(elements: seq<Expr>)
    | Set(elements: seq<Expr>)
    | Struct(fields: seq<(string, Expr)>)
    | Enum(fields: seq<(string, Expr)>)
    | Identifier(ident: string)
    | Number(num: I64)
    | StringLiteral(s: string)
    | Boolean(b: bool)
    | Union(left: Expr, right: Expr)
    | Intersection(left: Expr, right: Expr)
    | Difference(left: Expr, right: Expr)
    | SymmetricDifference(left: Expr, right: Expr)

  /** `e.to_string()` for each element, in order. */
  function ShowAll(es: seq<Expr>): (r: seq<string>)
    ensures |r| == |es|
    decreases es, 0
  {
    seq(|es|, i requires 0 <= i < |es| => Show(es[i]))
  }

  /** `format!("{}: {}", name, value)`. */
  function ShowField(f: (string, Expr)): string
    decreases f, 0
  {
    f.0 + ": " + Show(f.1)
  }

  /** `ShowField` for each field, in order. */
  function ShowFields(fs: seq<(string, Expr)>): (r: seq<string>)
    ensures |r| == |fs|
    decreases fs, 0
  {
    seq(|fs|, i requires 0 <= i < |fs| => ShowField(fs[i]))
  }

  /** `format!("{}", e)`. */
  function Show(e: Expr): string
    decreases e, 1
  {
    match e
    case List(es) => "[" + Join(ShowAll(es), ", ") + "]"
    case Set(es) => "set [" + Join(ShowAll(es), ", ") + "]"
    case Struct(fs) => "{" + Join(ShowFields(fs), ", ") + "}"
    case Enum(fs) => "enum {" + Join(ShowFields(fs), ", ") + "}"
    case TypeDef(name, value) => "type " + name + " = " + Show(value)
    case Identifier(ident) => ident
    case Number(num) => ShowInt(num)
    case StringLiteral(s) => "\"" + s + "\""
    case Boolean(b) => if b then "true" else "false"
    case Union(l, r) => Show(l) + " | " + Show(r)
    case Intersection(l, r) => Show(l) + " * " + Show(r)
    case Difference(l, r) => Show(l) + " \\ " + Show(r)
    case SymmetricDifference(l, r) => Show(l) + " <> " + Show(r)
  }
}
