/**
 * The second legacy syntax tree and its `Display` printer
 * (src/parser/parser_expr.rs): the same forms as `LegacyAst` without `Set`, the
 * type definition's body being named `t`.
 */
module TypeDefAst {
  import opened Text

  datatype Expr =
    | TypeDef(name: string, t: Expr)
    | List(elements: seq<Expr>)
    | Struct(fields: seq<(string, Expr)>)
    | Enum(fields: seq<(string, Expr)>)
    | Identifier(ident: string)
    | Number(num: I64)
    | StringLiteral(s: string)
    | Boolean(b: bool)
    | Union(left: Expr, right: Expr)
    | Intersection(left: Expr, right: Expr)
    | Difference(left: Expr, right: Expr)
    | SymmetricDifference(left: Expr, right: Expr)

  /** Each element rendered, in order; the same as `LegacyAst.ShowAll`, as the two `Display` impls
      render lists alike. */
  function ShowAll(es: seq<Expr>): (r: seq<string>)
    ensures |r| == |es|
    decreases es, 0
  {
    seq(|es|, i requires 0 <= i < |es| => Show(es[i]))
  }

  function ShowField(f: (string, Expr)): string
    decreases f, 0
  {
    f.0 + ": " + Show(f.1)
  }

  /** Each field rendered, in order; the same as `LegacyAst.ShowFields`. */
  function ShowFields(fs: seq<(string, Expr)>): (r: seq<string>)
    ensures |r| == |fs|
    decreases fs, 0
  {
    seq(|fs|, i requires 0 <= i < |fs| => ShowField(fs[i]))
  }

  /** `format!("{}", e)`. */
  function Show(e: Expr): string
    decreases e, 1
  {
    match e
    case TypeDef(name, t) => "type " + name + " = " + Show(t)
    case List(es) => "[" + Join(ShowAll(es), ", ") + "]"
    case Struct(fs) => "{" + Join(ShowFields(fs), ", ") + "}"
    case Enum(fs) => "enum {" + Join(ShowFields(fs), ", ") + "}"
    case Identifier(ident) => ident
    case Number(num) => ShowInt(num)
    case StringLiteral(s) => "\"" + s + "\""
    case Boolean(b) => if b then "true" else "false"
    case Union(l, r) => Show(l) + " | " + Show(r)
    case Intersection(l, r) => Show(l) + " * " + Show(r)
    case Difference(l, r) => Show(l) + " \\ " + Show(r)
    case SymmetricDifference(l, r) => Show(l) + " <> " + Show(r)
  }
}
