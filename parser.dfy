/**
 * The error-recovering parser (common/src/parser/parser.rs) as the source writes
 * it: a `Parser` object whose `current` cursor its methods advance, and a
 * reduction stack that `parse_expr` and `parse_binary` share by reference.
 *
 * Each method returns the `ParseResult` of its specification function in
 * `ParserSpec`, whose cursor is the parser's cursor afterwards, and leaves the
 * stack as that function says.
 */
module Parser {
  import opened Wrappers
  import opened Source
  import opened Tokens
  import opened Ast
  import opened ParserSpec
  import L = Lexer

  /** The `&mut Vec<Expr>` that `parse_anonym_type` creates and `parse_expr` pushes onto and pops. */
  class ReductionStack {
    var items: seq<Expr>

    constructor ()
      ensures items == []
    {
      items := [];
    }

    function Len(): nat
      reads this
    {
      |items|
    }

    method Push(e: Expr)
      modifies this
      ensures items == old(items) + [e]
    {
      items := items + [e];
    }

    /** `Vec::pop`: the top element, or `None` on an empty stack. */
    method Pop() returns (top: Option<Expr>)
      modifies this
      ensures old(items) == [] ==> top == None && items == []
      ensures old(items) != [] ==> top == Some(old(items)[|old(items)| - 1]) && items == old(items)[..|old(items)| - 1]
    {
      if items == [] {
        top := None;
      } else {
        top := Some(items[|items| - 1]);
        items := items[..|items| - 1];
      }
    }
  }

  /** A result with its value dropped, for `parse_expr`, which returns `()`. */
  function Forget<T>(r: ParseResult<T>): ParseResult<()>
  {
    match r
    case Done(_, c) => Done((), c)
    case Failed(e, c) => Failed(e, c)
    case Panicked => Panicked
  }

  class Parser {
    const tokens: seq<Token>
    var current: nat

    constructor (tokens: seq<Token>)
      ensures this.tokens == tokens && current == 0
    {
      this.tokens := tokens;
      current := 0;
    }

    ghost predicate Valid()
      reads this
    {
      current <= |tokens|
    }

    /** The parser stands where the result `r` says it stopped. */
    ghost predicate At<T>(r: ParseResult<T>)
      reads this
    {
      Valid() && (r.Panicked? || current == r.cur)
    }

    /** `is_not_eof`; `len - 1` underflows on an empty token vector, so callers need a token. */
    function IsNotEof(): bool
      requires 0 < |tokens|
      reads this
    {
      current < |tokens| - 1
    }

    function Peek(): Option<Token>
      reads this
    {
      if current < |tokens| then Some(tokens[current]) else None
    }

    method Next() returns (r: ParseResult<Token>)
      requires Valid()
      modifies this
      ensures r == ParserSpec.Next(tokens, old(current)) && At(r)
    {
      if current < |tokens| {
        current := current + 1;
        return Done(tokens[current - 1], current);
      }
      return Failed(ParseError(UnexpectedEndOfInput, None), current);
    }

    method Expect(expected: TokenVariant) returns (r: ParseResult<TokenData>)
      requires Valid()
      modifies this
      ensures r == ParserSpec.Expect(tokens, old(current), expected) && At(r)
    {
      var t :- Next();
      if t.0.variant != expected {
        return Failed(ParseError(ExpectedToken(expected), None), current);
      }
      return Done(t.0.data, current);
    }

    method ParseDeclaration() returns (r: ParseResult<Declaration>)
      requires Valid()
      modifies this
      ensures r == ParserSpec.ParseDeclaration(tokens, old(current)) && At(r)
    {
      var first :- Next();
      var dec: ParseResult<Declaration>;
      if first.0.variant == Type {
        dec := ParseTypeDeclaration();
      } else {
        dec := Failed(ParseError(ExpectedType, Some(first.0.data)), current);
      }
      if dec.Done? {
        var semi :- Expect(Semicolon);
        return Done(dec.value, current);
      }
      return dec;
    }

    method ParseTypeDeclaration() returns (r: ParseResult<Declaration>)
      requires Valid()
      modifies this
      ensures r == ParserSpec.ParseTypeDeclaration(tokens, old(current)) && At(r)
    {
      var name :- Expect(TokenVariant.Identifier);
      var eq :- Expect(Eq);
      var t :- ParseAnonymType();
      return Done(TypeDecl(name.0, t.0), current);
    }

    method ParseAnonymType() returns (r: ParseResult<AnonymType>)
      requires Valid()
      modifies this
      ensures r == ParserSpec.ParseAnonymType(tokens, old(current)) && At(r)
      decreases |tokens| - current, 4
    {
      var list := new ReductionStack();
      while true
        invariant Valid() && old(current) <= current && fresh(list)
        invariant AnonymTypeLoop(tokens, old(current), []) == AnonymTypeLoop(tokens, current, list.items)
        decreases |tokens| - current
      {
        var parsed :- ParseExpr(list);
        match Peek()
        case None => return Done(list.items, current);
        case Some(t) =>
          if t.variant == Comma || ClosesAnonymType(t.variant) {
            if t.variant == Comma {
              var comma := Next();
            }
            return Done(list.items, current);
          }
      }
    }

    method ParseExpr(list: ReductionStack) returns (r: ParseResult<()>)
      requires Valid()
      modifies this, list
      ensures var s := ParserSpec.ParseExpr(tokens, old(current), old(list.items));
        r == Forget(s) && At(r) && (s.Done? ==> list.items == s.value)
      decreases |tokens| - current, 1
    {
      var next :- Next();
      var tok := next.0;
      if IsOperator(tok.variant) {
        r := ParseOperator(tok, list);
      } else {
        var e :- ParseOperand(tok);
        list.Push(e.0);
        return Done((), current);
      }
    }

    /** The arms of `parse_expr` for a token `tok` that starts an operand, just consumed: the node
        that `parse_expr` then pushes. */
    method ParseOperand(tok: Token) returns (r: ParseResult<Expr>)
      requires Valid()
      requires !IsOperator(tok.variant)
      modifies this
      ensures r == ParserSpec.ParseOperand(tokens, old(current), tok) && At(r)
      decreases |tokens| - current, 10
    {
      var res: Expr;
      match tok.variant {
        case Identifier =>
          res := Expr.Identifier(tok.data);
        case Dollar =>
          var field :- Expect(TokenVariant.Identifier);
          res := FieldAccess(field.0);
        case Number =>
          var n := ParseNumber(tok.data);
          if n.Err? {
            return Failed(n.error, current);
          }
          res := Expr.Literal(Literal.Number(n.value));
        case True =>
          res := Expr.Literal(Boolean(true, tok.data));
        case False =>
          res := Expr.Literal(Boolean(false, tok.data));
        case String =>
          var text := tok.data.text;
          if |text| < 2 {
            return Panicked;
          }
          res := Expr.Literal(Literal.String(text[1..|text| - 1], tok.data));
        case Regex =>
          res := Expr.Regex(tok.data);
        case LBracket | Set | LCurly | Enum | At =>
          r := ParseBracketed(tok);
          return;
        case _ =>
          return Failed(ParseError(UnexpectedExpressionToken, Some(tok.data)), current);
      }
      return Done(res, current);
    }

    /** The arms of `parse_expr` for `[`, `set`, `{`, `enum` and `@`, the token just consumed. */
    method ParseBracketed(tok: Token) returns (r: ParseResult<Expr>)
      requires Valid()
      requires OpensBracketed(tok.variant)
      modifies this
      ensures r == ParserSpec.ParseBracketed(tokens, old(current), tok) && At(r)
      decreases |tokens| - current, 9
    {
      var res: Expr;
      match tok.variant {
        case LBracket =>
          var items :- ParseList();
          var close :- Expect(RBracket);
          res := List(items.0);
        case Set =>
          var open :- Expect(LBracket);
          var items :- ParseList();
          var close :- Expect(RBracket);
          res := Expr.Set(items.0);
        case LCurly =>
          var fields :- ParseStruct();
          res := Struct(fields.0);
        case Enum =>
          var open :- Expect(LCurly);
          var fields :- ParseStruct();
          var close :- Expect(RCurly);
          res := Expr.Enum(fields.0);
        case At =>
          r := ParseAnnotation();
          return;
      }
      return Done(res, current);
    }

    /** The arms of `parse_expr` for `!` and the binary operators, the operator just consumed. */
    method ParseOperator(tok: Token, list: ReductionStack) returns (r: ParseResult<()>)
      requires Valid()
      requires IsOperator(tok.variant)
      modifies this, list
      ensures var s := ParserSpec.ParseOperator(tokens, old(current), tok, old(list.items));
        r == Forget(s) && At(r) && (s.Done? ==> list.items == s.value)
      decreases |tokens| - current, 3
    {
      var res: Expr;
      match tok.variant {
        case Not =>
          var inner :- ParseExpr(list);
          var top := list.Pop();
          if top.None? {
            return Panicked;
          }
          res := Expr.Not(top.value);
        case Or =>
          if list.Len() == 0 {
            return Done((), current);
          }
          var b :- ParseBinary(BinaryExprType.Or, tok.data, list);
          res := b.0;
        case And =>
          var b :- ParseBinary(Union, tok.data, list);
          res := b.0;
        case Asterix =>
          var b :- ParseBinary(Intersection, tok.data, list);
          res := b.0;
        case Caret =>
          var b :- ParseBinary(Xor, tok.data, list);
          res := b.0;
        case Backslash =>
          var b :- ParseBinary(Difference, tok.data, list);
          res := b.0;
        case Range =>
          var b :- ParseBinary(BinaryExprType.Range, tok.data, list);
          res := b.0;
        case Plus =>
          var b :- ParseBinary(Add, tok.data, list);
          res := b.0;
        case Minus =>
          var b :- ParseBinary(Remove, tok.data, list);
          res := b.0;
        case SymmDiff =>
          var b :- ParseBinary(SymmetricDifference, tok.data, list);
          res := b.0;
      }
      list.Push(res);
      return Done((), current);
    }

    method ParseBinary(op: BinaryExprType, loc: TokenData, list: ReductionStack) returns (r: ParseResult<Expr>)
      requires Valid()
      modifies this, list
      ensures var s := ParserSpec.ParseBinary(tokens, old(current), op, loc, old(list.items));
        && At(r)
        && (s.Done? ==> r == Done(s.value.node, s.cur) && list.items == s.value.stack)
        && (!s.Done? ==> r == s.PropagateFailure())
      decreases |tokens| - current, 2
    {
      var prev := list.Pop();
      if prev.None? {
        return Failed(ParseError(MissingLeftOperand, Some(loc)), current);
      }
      var parsed :- ParseExpr(list);
      var right := list.Pop();
      if right.None? {
        return Panicked;
      }
      return Done(BinaryExpr(op, prev.value, right.value), current);
    }

    method ParseList() returns (r: ParseResult<TypeList>)
      requires Valid()
      modifies this
      ensures r == ParserSpec.ParseList(tokens, old(current)) && At(r)
      decreases |tokens| - current, 6
    {
      var list: TypeList := [];
      while !(Peek().Some? && ClosesList(Peek().value.variant))
        invariant Valid() && old(current) <= current
        invariant ListLoop(tokens, old(current), []) == ListLoop(tokens, current, list)
        decreases |tokens| - current
      {
        var a :- ParseAnonymType();
        list := list + [a.0];
      }
      return Done(list, current);
    }

    method ParseStruct() returns (r: ParseResult<seq<KeyValExpr>>)
      requires Valid()
      modifies this
      ensures r == ParserSpec.ParseStruct(tokens, old(current)) && At(r)
      decreases |tokens| - current, 6
    {
      var fields: seq<KeyValExpr> := [];
      while Peek().None? || Peek().value.variant != RCurly
        invariant Valid() && old(current) <= current
        invariant StructLoop(tokens, old(current), []) == StructLoop(tokens, current, fields)
        decreases |tokens| - current
      {
        var key :- Expect(TokenVariant.Identifier);
        var colon :- Expect(Colon);
        var value :- ParseAnonymType();
        fields := fields + [KeyVal(key.0, value.0)];
      }
      var close := Expect(RCurly);
      return Done(fields, current);
    }

    method ParseAnnotation() returns (r: ParseResult<Expr>)
      requires Valid()
      modifies this
      ensures r == ParserSpec.ParseAnnotation(tokens, old(current)) && At(r)
      decreases |tokens| - current, 8
    {
      var id :- Expect(TokenVariant.Identifier);
      var hasArgs := Peek().Some? && Peek().value.variant == LParen;
      if !hasArgs {
        return Done(Annotation(id.0, []), current);
      }
      var open := Expect(LParen);
      assert open.Done?;
      var args :- ParseArguments();
      return Done(Annotation(id.0, args.0), current);
    }

    /** The argument list of an annotation after its `(`, up to and including the `)`. */
    method ParseArguments() returns (r: ParseResult<TypeList>)
      requires Valid()
      modifies this
      ensures r == ParserSpec.ParseArguments(tokens, old(current)) && At(r)
      decreases |tokens| - current, 7
    {
      var args :- ParseList();
      var close :- Expect(RParen);
      return Done(args.0, current);
    }

    /** Skips to a declaration boundary. The source's `None => break` on `peek` cannot happen while
        the cursor is before the last token, and is left out. */
    method RecoverToDeclarationBoundary()
      requires Valid() && 0 < |tokens|
      modifies this
      ensures Valid() && current == Recover(tokens, old(current))
    {
      while IsNotEof()
        invariant Valid() && Recover(tokens, old(current)) == Recover(tokens, current)
        decreases |tokens| - current
      {
        var token := tokens[current];
        if token.variant == Type {
          break;
        } else if token.variant == Semicolon {
          var _ := Next();
          break;
        } else {
          var _ := Next();
        }
      }
    }
  }

  /** `parse`: lex, then parse declarations until the cursor reaches the last token, recovering
      after each error. */
  method Parse(src: string) returns (r: Report)
    ensures r == ParserSpec.Parse(src)
  {
    var lexer := new L.Lexer(src);
    var lexed := lexer.Tokenize();
    if lexed.Err? {
      return Report([], [ParseError(Lexing(lexed.error), None)], []);
    }
    var tokens := lexed.value;
    if |tokens| == 0 {
      return Panic;
    }
    var parser := new Parser(tokens);
    var ast: seq<Declaration> := [];
    var errors: seq<ParseError> := [];
    while parser.IsNotEof()
      invariant parser.Valid() && parser.tokens == tokens
      invariant ParseTokens(tokens) == DeclarationLoop(tokens, parser.current, ast, errors)
      decreases |tokens| - parser.current
    {
      var d := parser.ParseDeclaration();
      match d
      case Done(decl, _) =>
        ast := ast + [decl];
      case Failed(e, _) =>
        errors := errors + [e];
        parser.RecoverToDeclarationBoundary();
      case Panicked =>
        return Panic;
    }
    return Report(ast, errors, tokens);
  }
}
