/**
 * A reference definition of what the legacy parser (src/parser.rs) accepts: the
 * token sequence that spells each expression it can build, and the proof that
 * parsing that sequence gives the expression back, for single expressions,
 * type definitions and whole token streams ending in `EOF`.
 *
 * The parser builds identifiers, numbers, lists and structs only; lists and
 * structs have no separators between their members.
 */
module LegacyParserRoundTrip {
  import opened Wrappers
  import opened Source
  import opened Text
  import opened LegacyTokens
  import opened LegacyParserSpec
  import A = LegacyAst

  /** Token data for a lexeme; the parser reads only the text. */
  function Lexeme(text: string): TokenData
  {
    TokenData(text, 0, 1, 1)
  }

  /** The expressions `parse_expr` can return. */
  predicate Parseable(e: A.Expr)
  {
    match e
    case Identifier(_) => true
    case Number(_) => true
    case List(es) => forall i :: 0 <= i < |es| ==> Parseable(es[i])
    case Struct(fs) => forall i :: 0 <= i < |fs| ==> Parseable(fs[i].1)
    case _ => false
  }

  /** The tokens that spell an expression: a number as its decimal text, a list as its elements
      between brackets, a struct as `name : value` fields between braces. */
  function Spell(e: A.Expr): seq<Token>
    decreases e, 1
  {
    match e
    case Identifier(x) => [Identifier(Lexeme(x))]
    case Number(n) => [Number(Lexeme(ShowInt(n)), Int(false, 64))]
    case List(es) => [LBracket(Lexeme("["))] + SpellAll(es) + [RBracket(Lexeme("]"))]
    case Struct(fs) => [LCurly(Lexeme("{"))] + SpellFields(fs) + [RCurly(Lexeme("}"))]
    case _ => []
  }

  function SpellAll(es: seq<A.Expr>): seq<Token>
    decreases es, 0
  {
    if es == [] then [] else Spell(es[0]) + SpellAll(es[1..])
  }

  function SpellField(f: (string, A.Expr)): seq<Token>
    decreases f, 0
  {
    [Identifier(Lexeme(f.0)), Colon(Lexeme(":"))] + Spell(f.1)
  }

  function SpellFields(fs: seq<(string, A.Expr)>): seq<Token>
    decreases fs, 0
  {
    if fs == [] then [] else SpellField(fs[0]) + SpellFields(fs[1..])
  }

  /** The tokens of a program: each definition as `type name = value`, then `EOF`. */
  function SpellDefinitions(defs: seq<A.Expr>): seq<Token>
  {
    if defs == [] then [EOF] else SpellDefinition(defs[0]) + SpellDefinitions(defs[1..])
  }

  function SpellDefinition(d: A.Expr): seq<Token>
  {
    if d.TypeDef? then [Type(Lexeme("type")), Identifier(Lexeme(d.name)), Eq(Lexeme("="))] + Spell(d.value)
    else []
  }

  /** `s` occurs in `toks` at `cur`. */
  predicate At(toks: seq<Token>, cur: nat, s: seq<Token>)
  {
    cur + |s| <= |toks| && forall k :: 0 <= k < |s| ==> toks[cur + k] == s[k]
  }

  lemma AtSplit(toks: seq<Token>, cur: nat, a: seq<Token>, b: seq<Token>)
    requires At(toks, cur, a + b)
    ensures At(toks, cur, a) && At(toks, cur + |a|, b)
  {
    forall k | 0 <= k < |a|
      ensures toks[cur + k] == a[k]
    {
      assert (a + b)[k] == a[k];
    }
    forall k | 0 <= k < |b|
      ensures toks[cur + |a| + k] == b[k]
    {
      assert (a + b)[|a| + k] == b[k];
    }
  }

  /** The first token of a non-empty `s` found at `cur`. */
  lemma AtHead(toks: seq<Token>, cur: nat, s: seq<Token>)
    requires At(toks, cur, s) && 0 < |s|
    ensures cur < |toks| && toks[cur] == s[0]
  {
    assert toks[cur + 0] == s[0];
  }

  /** A parseable expression's spelling is not empty and starts with a token `parse_expr` accepts. */
  lemma SpellStarts(e: A.Expr)
    requires Parseable(e)
    ensures 0 < |Spell(e)| && StartsExpr(Spell(e)[0])
  {
  }

  /** Parsing an expression's spelling, wherever it occurs, gives the expression back and leaves the
      cursor just after the spelling. */
  lemma {:induction false} ParsesBack(e: A.Expr, toks: seq<Token>, cur: nat)
    requires Parseable(e) && At(toks, cur, Spell(e))
    ensures ParseExpr(toks, cur) == Parsed(Ok(e), cur + |Spell(e)|)
    decreases e, 1
  {
    SpellStarts(e);
    AtHead(toks, cur, Spell(e));
    match e
    case Identifier(x) =>
    case Number(n) =>
      ShowIntParses(n);
    case List(es) =>
      ListSpellingParsesBack(es, toks, cur);
    case Struct(fs) =>
      StructSpellingParsesBack(fs, toks, cur);
  }

  lemma {:induction false} ListSpellingParsesBack(es: seq<A.Expr>, toks: seq<Token>, cur: nat)
    requires Parseable(A.List(es)) && At(toks, cur, Spell(A.List(es)))
    ensures ParseExpr(toks, cur) == Parsed(Ok(A.List(es)), cur + |Spell(A.List(es))|)
    decreases es, 1
  {
    assert Spell(A.List(es)) == [LBracket(Lexeme("["))] + (SpellAll(es) + [RBracket(Lexeme("]"))]);
    AtSplit(toks, cur, [LBracket(Lexeme("["))], SpellAll(es) + [RBracket(Lexeme("]"))]);
    AtHead(toks, cur, [LBracket(Lexeme("["))]);
    assert ParseExpr(toks, cur) == ListLoop(toks, cur + 1, []);
    ListParsesBack(es, toks, cur + 1, []);
    assert [] + es == es;
  }

  lemma {:induction false} StructSpellingParsesBack(fs: seq<(string, A.Expr)>, toks: seq<Token>, cur: nat)
    requires Parseable(A.Struct(fs)) && At(toks, cur, Spell(A.Struct(fs)))
    ensures ParseExpr(toks, cur) == Parsed(Ok(A.Struct(fs)), cur + |Spell(A.Struct(fs))|)
    decreases fs, 1
  {
    assert Spell(A.Struct(fs)) == [LCurly(Lexeme("{"))] + (SpellFields(fs) + [RCurly(Lexeme("}"))]);
    AtSplit(toks, cur, [LCurly(Lexeme("{"))], SpellFields(fs) + [RCurly(Lexeme("}"))]);
    AtHead(toks, cur, [LCurly(Lexeme("{"))]);
    assert ParseExpr(toks, cur) == StructLoop(toks, cur + 1, []);
    StructParsesBack(fs, toks, cur + 1, []);
    assert [] + fs == fs;
  }

  /** The list loop reads spelled elements up to the closing bracket. */
  lemma {:induction false} ListParsesBack(es: seq<A.Expr>, toks: seq<Token>, cur: nat, acc: seq<A.Expr>)
    requires forall i :: 0 <= i < |es| ==> Parseable(es[i])
    requires At(toks, cur, SpellAll(es) + [RBracket(Lexeme("]"))])
    ensures ListLoop(toks, cur, acc) == Parsed(Ok(A.List(acc + es)), cur + |SpellAll(es)| + 1)
    decreases es, 0
  {
    if es == [] {
      AtHead(toks, cur, SpellAll(es) + [RBracket(Lexeme("]"))]);
      assert acc + es == acc;
    } else {
      var tail := SpellAll(es[1..]) + [RBracket(Lexeme("]"))];
      assert SpellAll(es) + [RBracket(Lexeme("]"))] == Spell(es[0]) + tail;
      AtSplit(toks, cur, Spell(es[0]), tail);
      SpellStarts(es[0]);
      AtHead(toks, cur, Spell(es[0]));
      ParsesBack(es[0], toks, cur);
      assert ListLoop(toks, cur, acc) == ListLoop(toks, cur + |Spell(es[0])|, acc + [es[0]]);
      ListParsesBack(es[1..], toks, cur + |Spell(es[0])|, acc + [es[0]]);
      ConsAppend(acc, es);
    }
  }

  /** A field's spelling parses back to its value after the name and the colon. */
  lemma {:induction false} FieldParsesBack(f: (string, A.Expr), toks: seq<Token>, cur: nat)
    requires Parseable(f.1) && At(toks, cur, SpellField(f))
    ensures toks[cur] == Identifier(Lexeme(f.0)) && toks[cur + 1].Colon?
    ensures ParseExpr(toks, cur + 2) == Parsed(Ok(f.1), cur + |SpellField(f)|)
    decreases f, 0
  {
    var key := [Identifier(Lexeme(f.0)), Colon(Lexeme(":"))];
    AtSplit(toks, cur, key, Spell(f.1));
    assert toks[cur] == key[0] && toks[cur + 1] == key[1];
    ParsesBack(f.1, toks, cur + 2);
  }

  /** One turn of the struct loop over a field whose value parses. */
  lemma StructLoopStep(toks: seq<Token>, cur: nat, acc: seq<(string, A.Expr)>, f: (string, A.Expr), next: nat)
    requires cur + 1 < |toks| && toks[cur] == Identifier(Lexeme(f.0)) && toks[cur + 1].Colon?
    requires ParseExpr(toks, cur + 2) == Parsed(Ok(f.1), next)
    ensures StructLoop(toks, cur, acc) == StructLoop(toks, next, acc + [f])
  {
  }

  /** The struct loop reads spelled fields up to the closing brace. */
  lemma {:induction false} StructParsesBack(fs: seq<(string, A.Expr)>, toks: seq<Token>, cur: nat,
                                            acc: seq<(string, A.Expr)>)
    requires forall i :: 0 <= i < |fs| ==> Parseable(fs[i].1)
    requires At(toks, cur, SpellFields(fs) + [RCurly(Lexeme("}"))])
    ensures StructLoop(toks, cur, acc) == Parsed(Ok(A.Struct(acc + fs)), cur + |SpellFields(fs)| + 1)
    decreases fs, 0
  {
    if fs == [] {
      AtHead(toks, cur, SpellFields(fs) + [RCurly(Lexeme("}"))]);
      assert acc + fs == acc;
    } else {
      var f := fs[0];
      var tail := SpellFields(fs[1..]) + [RCurly(Lexeme("}"))];
      assert SpellFields(fs) + [RCurly(Lexeme("}"))] == SpellField(f) + tail;
      AtSplit(toks, cur, SpellField(f), tail);
      FieldParsesBack(f, toks, cur);
      var next := cur + |SpellField(f)|;
      StructLoopStep(toks, cur, acc, f, next);
      StructParsesBack(fs[1..], toks, next, acc + [f]);
      ConsAppend(acc, fs);
    }
  }

  /** One turn of the `parse` loop over a definition that parses. */
  lemma ParseFromStep(toks: seq<Token>, cur: nat, ast: seq<A.Expr>, d: A.Expr, next: nat)
    requires cur < |toks| && toks[cur].Type?
    requires ParseTypeDefinition(toks, cur) == Parsed(Ok(d), next)
    ensures ParseFrom(toks, cur, ast) == ParseFrom(toks, next, ast + [d])
  {
  }

  /** A spelled type definition parses back and leaves the cursor after its value. */
  lemma DefinitionParsesBack(name: string, value: A.Expr, toks: seq<Token>, cur: nat)
    requires Parseable(value)
    requires At(toks, cur, [Type(Lexeme("type")), Identifier(Lexeme(name)), Eq(Lexeme("="))] + Spell(value))
    ensures ParseTypeDefinition(toks, cur) == Parsed(Ok(A.TypeDef(name, value)), cur + 3 + |Spell(value)|)
  {
    var key := [Type(Lexeme("type")), Identifier(Lexeme(name)), Eq(Lexeme("="))];
    AtSplit(toks, cur, key, Spell(value));
    assert toks[cur] == key[0] && toks[cur + 1] == key[1] && toks[cur + 2] == key[2];
    ParsesBack(value, toks, cur + 3);
  }

  /** The first spelled definition of a program parses back, leaving the cursor on the spelling of
      the others. */
  lemma FirstDefinitionParsesBack(defs: seq<A.Expr>, toks: seq<Token>, cur: nat, ast: seq<A.Expr>)
    requires defs != [] && defs[0].TypeDef? && Parseable(defs[0].value)
    requires At(toks, cur, SpellDefinitions(defs))
    ensures var next := cur + |SpellDefinition(defs[0])|;
      && At(toks, next, SpellDefinitions(defs[1..]))
      && ParseFrom(toks, cur, ast) == ParseFrom(toks, next, ast + [defs[0]])
  {
    var d := defs[0];
    var head := SpellDefinition(d);
    AtSplit(toks, cur, head, SpellDefinitions(defs[1..]));
    DefinitionParsesBack(d.name, d.value, toks, cur);
    AtHead(toks, cur, head);
    ParseFromStep(toks, cur, ast, d, cur + |head|);
  }

  lemma ConsAppend<T>(acc: seq<T>, xs: seq<T>)
    requires xs != []
    ensures acc + [xs[0]] + xs[1..] == acc + xs
  {
    assert [xs[0]] + xs[1..] == xs;
  }

  /** Type definitions whose values `parse_expr` can return. */
  predicate ParseableDefinitions(defs: seq<A.Expr>)
  {
    forall i :: 0 <= i < |defs| ==> defs[i].TypeDef? && Parseable(defs[i].value)
  }

  lemma ParseableTail(defs: seq<A.Expr>)
    requires defs != [] && ParseableDefinitions(defs)
    ensures ParseableDefinitions(defs[1..])
  {
    assert forall i :: 0 <= i < |defs[1..]| ==> defs[1..][i] == defs[i + 1];
  }

  lemma SpellDefinitionsLength(defs: seq<A.Expr>)
    requires defs != []
    ensures |SpellDefinitions(defs)| == |SpellDefinition(defs[0])| + |SpellDefinitions(defs[1..])|
  {
  }

  /** A lone `EOF` parses to no further definitions. */
  lemma EmptyProgramParsesBack(toks: seq<Token>, cur: nat, ast: seq<A.Expr>)
    requires At(toks, cur, SpellDefinitions([]))
    ensures ParseFrom(toks, cur, ast) == Parsed(Ok(ast), cur + |SpellDefinitions([])| - 1)
  {
    AtHead(toks, cur, SpellDefinitions([]));
  }

  /** Definitions of parseable values, spelled one after the other and closed by `EOF`, parse back
      to exactly those definitions. */
  lemma {:induction false} ProgramParsesBack(defs: seq<A.Expr>, toks: seq<Token>, cur: nat, ast: seq<A.Expr>)
    requires ParseableDefinitions(defs)
    requires At(toks, cur, SpellDefinitions(defs))
    ensures ParseFrom(toks, cur, ast) == Parsed(Ok(ast + defs), cur + |SpellDefinitions(defs)| - 1)
    decreases |defs|
  {
    if defs == [] {
      EmptyProgramParsesBack(toks, cur, ast);
      assert ast + defs == ast;
    } else {
      FirstDefinitionParsesBack(defs, toks, cur, ast);
      var next := cur + |SpellDefinition(defs[0])|;
      ParseableTail(defs);
      ProgramParsesBack(defs[1..], toks, next, ast + [defs[0]]);
      ConsAppend(ast, defs);
      SpellDefinitionsLength(defs);
    }
  }

  /** `parse` inverts `SpellDefinitions`. */
  lemma ParseInvertsSpelling(defs: seq<A.Expr>)
    requires ParseableDefinitions(defs)
    ensures Parse(SpellDefinitions(defs)) == Ok(defs)
  {
    var toks := SpellDefinitions(defs);
    AtWhole(toks);
    ProgramParsesBack(defs, toks, 0, []);
    assert [] + defs == defs;
  }

  lemma AtWhole(toks: seq<Token>)
    ensures At(toks, 0, toks)
  {
  }
}
