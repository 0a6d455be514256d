/**
 * Properties of the two legacy printers (src/parser_expr.rs and
 * src/parser/parser_expr.rs): how collections are joined, how sets and enums
 * relate to lists and structs, that a printed number reads back, that printing
 * is not injective, and that the two printers agree wherever both apply.
 */
module PrinterProperties {
  import opened Wrappers
  import opened Text
  import L = LegacyAst
  import T = TypeDefAst

  // ---------------------------------------------------------------------------
  // Collections

  /** Empty collections render as their brackets alone. */
  lemma EmptyCollections()
    ensures L.Show(L.List([])) == "[]"
    ensures L.Show(L.Set([])) == "set []"
    ensures L.Show(L.Struct([])) == "{}"
    ensures L.Show(L.Enum([])) == "enum {}"
  {
  }

  /** A one-element list is its element in brackets, with no separator. */
  lemma SingletonList(x: L.Expr)
    ensures L.Show(L.List([x])) == "[" + L.Show(x) + "]"
  {
    assert L.ShowAll([x]) == [L.Show(x)];
  }

  /** A set renders as `set ` before the list of the same elements, and an enum as `enum ` before
      the struct of the same fields. */
  lemma PrefixedForms(es: seq<L.Expr>, fs: seq<(string, L.Expr)>)
    ensures L.Show(L.Set(es)) == "set " + L.Show(L.List(es))
    ensures L.Show(L.Enum(fs)) == "enum " + L.Show(L.Struct(fs))
  {
  }

  lemma ShowAllSnoc(es: seq<L.Expr>, x: L.Expr)
    ensures L.ShowAll(es + [x]) == L.ShowAll(es) + [L.Show(x)]
  {
    assert forall i :: 0 <= i < |es| ==> (es + [x])[i] == es[i];
  }

  /** Appending an element to a non-empty list inserts `, ` and the element's rendering before the
      closing bracket: elements are printed in order, separated by `, `. */
  lemma ListSnoc(es: seq<L.Expr>, x: L.Expr)
    requires es != []
    ensures var before := L.Show(L.List(es));
      L.Show(L.List(es + [x])) == before[..|before| - 1] + ", " + L.Show(x) + "]"
  {
    ShowAllSnoc(es, x);
    JoinSnoc(L.ShowAll(es), L.Show(x), ", ");
    var before := L.Show(L.List(es));
    assert before[..|before| - 1] == "[" + Join(L.ShowAll(es), ", ");
  }

  /** A list of n elements renders as its elements' renderings plus 2n characters: two brackets and
      n - 1 separators of two characters. */
  lemma ListLength(es: seq<L.Expr>)
    requires es != []
    ensures |L.Show(L.List(es))| == TotalLength(L.ShowAll(es)) + 2 * |es|
  {
    JoinLength(L.ShowAll(es), ", ");
  }

  // ---------------------------------------------------------------------------
  // Leaves

  /** A number prints as decimal digits (with a `-` when negative) that parse back to it. */
  lemma NumberReadsBack(n: I64)
    ensures ParseI64(L.Show(L.Number(n))) == Some(n)
    ensures ParseI64(T.Show(T.Number(n))) == Some(n)
  {
    ShowIntParses(n);
  }

  /** A string literal is its content between two quotes, unescaped; a boolean is `true` or
      `false`; an identifier is its own text. */
  lemma Leaves(s: string, b: bool)
    ensures var r := L.Show(L.StringLiteral(s));
      |r| == |s| + 2 && r[0] == '"' && r[|r| - 1] == '"' && r[1..|r| - 1] == s
    ensures L.Show(L.Boolean(b)) == (if b then "true" else "false")
    ensures L.Show(L.Identifier(s)) == s
  {
    var r := L.Show(L.StringLiteral(s));
    assert r[1..|r| - 1] == s;
  }

  /** A type definition is `type`, its name, `=`, and its value's rendering. */
  lemma TypeDefRendering(name: string, value: L.Expr)
    ensures var r := L.Show(L.TypeDef(name, value));
      && r[..5] == "type "
      && r[5..5 + |name|] == name
      && r[5 + |name|..8 + |name|] == " = "
      && r[8 + |name|..] == L.Show(value)
  {
  }

  // ---------------------------------------------------------------------------
  // Ambiguity

  /** Binary forms print without parentheses, so differently nested trees can print alike. */
  lemma NotInjective(a: L.Expr, b: L.Expr, c: L.Expr)
    ensures L.Union(L.Union(a, b), c) != L.Union(a, L.Union(b, c))
    ensures L.Show(L.Union(L.Union(a, b), c)) == L.Show(L.Union(a, L.Union(b, c)))
  {
  }

  /** Strings are not escaped: two string elements print like one string holding `", "`. */
  lemma NoEscaping()
    ensures L.Show(L.List([L.StringLiteral("a"), L.StringLiteral("b")]))
         == L.Show(L.List([L.StringLiteral("a\", \"b")]))
  {
    var two := [L.StringLiteral("a"), L.StringLiteral("b")];
    var one := [L.StringLiteral("a\", \"b")];
    assert L.Show(two[0]) == "\"a\"";
    assert L.Show(two[1]) == "\"b\"";
    assert L.ShowAll(two) == ["\"a\"", "\"b\""];
    assert L.Show(one[0]) == "\"a\", \"b\"";
    assert L.ShowAll(one) == ["\"a\", \"b\""];
    assert Join(["\"a\"", "\"b\""], ", ") == "\"a\"" + ", " + Join(["\"b\""], ", ");
  }

  // ---------------------------------------------------------------------------
  // The two printers

  /** The expression of src/parser_expr.rs with the same form as one of src/parser/parser_expr.rs. */
  function Embed(e: T.Expr): L.Expr
    decreases e, 1
  {
    match e
    case TypeDef(name, t) => L.TypeDef(name, Embed(t))
    case List(es) => L.List(EmbedAll(es))
    case Struct(fs) => L.Struct(EmbedFields(fs))
    case Enum(fs) => L.Enum(EmbedFields(fs))
    case Identifier(ident) => L.Identifier(ident)
    case Number(num) => L.Number(num)
    case StringLiteral(s) => L.StringLiteral(s)
    case Boolean(b) => L.Boolean(b)
    case Union(l, r) => L.Union(Embed(l), Embed(r))
    case Intersection(l, r) => L.Intersection(Embed(l), Embed(r))
    case Difference(l, r) => L.Difference(Embed(l), Embed(r))
    case SymmetricDifference(l, r) => L.SymmetricDifference(Embed(l), Embed(r))
  }

  function EmbedAll(es: seq<T.Expr>): (r: seq<L.Expr>)
    ensures |r| == |es|
    decreases es, 0
  {
    seq(|es|, i requires 0 <= i < |es| => Embed(es[i]))
  }

  function EmbedField(f: (string, T.Expr)): (string, L.Expr)
    decreases f, 0
  {
    (f.0, Embed(f.1))
  }

  function EmbedFields(fs: seq<(string, T.Expr)>): (r: seq<(string, L.Expr)>)
    ensures |r| == |fs|
    decreases fs, 0
  {
    seq(|fs|, i requires 0 <= i < |fs| => EmbedField(fs[i]))
  }

  /** The two printers render every expression they share identically. */
  lemma {:induction false} PrintersAgree(e: T.Expr)
    ensures L.Show(Embed(e)) == T.Show(e)
    decreases e, 1
  {
    match e
    case TypeDef(name, t) => PrintersAgree(t);
    case List(es) => PrintersAgreeAll(es);
    case Struct(fs) => PrintersAgreeFields(fs);
    case Enum(fs) => PrintersAgreeFields(fs);
    case Union(_, _) => PrintersAgreeOperation(e);
    case Intersection(_, _) => PrintersAgreeOperation(e);
    case Difference(_, _) => PrintersAgreeOperation(e);
    case SymmetricDifference(_, _) => PrintersAgreeOperation(e);
    case _ =>
  }

  /** The binary operations, whose operands the printers agree on. */
  lemma {:induction false} PrintersAgreeOperation(e: T.Expr)
    requires e.Union? || e.Intersection? || e.Difference? || e.SymmetricDifference?
    ensures L.Show(Embed(e)) == T.Show(e)
    decreases e, 0
  {
    PrintersAgree(e.left);
    PrintersAgree(e.right);
  }

  lemma {:induction false} PrintersAgreeAll(es: seq<T.Expr>)
    ensures L.ShowAll(EmbedAll(es)) == T.ShowAll(es)
    decreases es, 0
  {
    forall i | 0 <= i < |es|
      ensures L.ShowAll(EmbedAll(es))[i] == T.ShowAll(es)[i]
    {
      PrintersAgree(es[i]);
    }
  }

  lemma {:induction false} PrintersAgreeFields(fs: seq<(string, T.Expr)>)
    ensures L.ShowFields(EmbedFields(fs)) == T.ShowFields(fs)
    decreases fs, 0
  {
    forall i | 0 <= i < |fs|
      ensures L.ShowFields(EmbedFields(fs))[i] == T.ShowFields(fs)[i]
    {
      PrintersAgreeField(fs[i]);
    }
  }

  lemma {:induction false} PrintersAgreeField(f: (string, T.Expr))
    ensures L.ShowField(EmbedField(f)) == T.ShowField(f)
    decreases f, 0
  {
    PrintersAgree(f.1);
  }
}
