/**
 * What the error-recovering parser (common/src/parser/parser.rs) computes, as
 * functions of the token sequence and a cursor into it.
 *
 * Every parsing function returns a `ParseResult`: the parsed value and the
 * cursor after it, an error and the cursor where parsing stopped, or a panic
 * (an `unwrap` of an empty pop, or slicing a string lexeme shorter than its two
 * quotes). The reduction stack that `parse_expr` and `parse_binary` share is
 * passed in and returned as a sequence whose last element is the top.
 */
module ParserSpec {
  import opened Wrappers
  import opened Source
  import opened Tokens
  import opened Ast
  import Text
  import Lexer

  datatype ErrorKind =
    | Lexing(lexError: LexError)
    | UnexpectedEndOfInput
    | ExpectedType
    | ExpectedToken(expected: TokenVariant)
    | UnexpectedExpressionToken
    | MissingLeftOperand
    | InvalidNumber

  /** `ParseError`: the message is abstracted into its kind; the location is kept as in the source. */
  datatype ParseError = ParseError(kind: ErrorKind, location: Option<TokenData>)

  datatype ParseResult<+T> = Done(value: T, cur: nat) | Failed(error: ParseError, cur: nat) | Panicked
  {
    predicate IsFailure() { !Done? }

    function PropagateFailure<U>(): ParseResult<U>
      requires IsFailure()
    {
      if Failed? then Failed(error, cur) else Panicked
    }

    function Extract(): (T, nat)
      requires Done?
    {
      (value, cur)
    }
  }

  /** A result never moves the cursor backwards or past the end; a value consumed at least one token. */
  ghost predicate Advances<T>(toks: seq<Token>, cur: nat, r: ParseResult<T>)
  {
    match r
    case Done(_, c) => cur < c <= |toks|
    case Failed(_, c) => cur <= c <= |toks|
    case Panicked => true
  }

  /** Like `Advances`, but a value may have consumed nothing. */
  ghost predicate Stays<T>(toks: seq<Token>, cur: nat, r: ParseResult<T>)
  {
    match r
    case Done(_, c) => cur <= c <= |toks|
    case Failed(_, c) => cur <= c <= |toks|
    case Panicked => true
  }

  /** `next`: the token at the cursor, which moves past it. */
  function Next(toks: seq<Token>, cur: nat): (r: ParseResult<Token>)
    requires cur <= |toks|
    ensures Advances(toks, cur, r) && !r.Panicked?
    ensures r.Done? <==> cur < |toks|
    ensures r.Done? ==> r.value == toks[cur] && r.cur == cur + 1
  {
    if cur < |toks| then Done(toks[cur], cur + 1)
    else Failed(ParseError(UnexpectedEndOfInput, None), cur)
  }

  /** `expect`: consumes a token and requires the given variant; a mismatch is reported without a
      location, after the wrong token. */
  function Expect(toks: seq<Token>, cur: nat, v: TokenVariant): (r: ParseResult<TokenData>)
    requires cur <= |toks|
    ensures Advances(toks, cur, r) && !r.Panicked?
    ensures r.Done? <==> cur < |toks| && toks[cur].variant == v
    ensures r.Done? ==> r.value == toks[cur].data && r.cur == cur + 1
  {
    var t :- Next(toks, cur);
    if t.0.variant != v then Failed(ParseError(ExpectedToken(v), None), t.1)
    else Done(t.0.data, t.1)
  }

  /** The variant of the token at the cursor (`peek`), if any. */
  function PeekVariant(toks: seq<Token>, cur: nat): Option<TokenVariant>
  {
    if cur < |toks| then Some(toks[cur].variant) else None
  }

  /** The operator each binary token stands for. */
  function BinaryOp(v: TokenVariant): Option<BinaryExprType>
  {
    match v
    case Or => Some(BinaryExprType.Or)
    case And => Some(Union)
    case Asterix => Some(Intersection)
    case Caret => Some(Xor)
    case Backslash => Some(Difference)
    case Range => Some(BinaryExprType.Range)
    case Plus => Some(Add)
    case Minus => Some(Remove)
    case SymmDiff => Some(SymmetricDifference)
    case _ => None
  }

  /** `parse_number`: a lexeme containing `.` is a float; any other must be an `i64`. */
  function ParseNumber(d: TokenData): (r: Result<NumberType, ParseError>)
  {
    if '.' in d.text then Ok(Float(d))
    else
      match Text.ParseI64(d.text)
      case Some(n) => Ok(Int(n, d))
      case None => Err(ParseError(InvalidNumber, Some(d)))
  }

  /** The contents of a string lexeme without its quotes; a lexeme shorter than two characters
      makes the slice panic. */
  function Unquote(text: string): Option<string>
  {
    if |text| < 2 then None else Some(text[1..|text| - 1])
  }

  /** The variants that make `parse_expr` an operator form: `!` and the binary operators. */
  predicate IsOperator(v: TokenVariant)
  {
    v == TokenVariant.Not || BinaryOp(v).Some?
  }

  /** `parse_expr`: parses one expression form onto `stack`. Leaf and bracketed forms push one
      element; `!` wraps the top of the stack after parsing its operand; a binary operator pops
      its left operand and reduces it with the next expression; `|` on an empty stack is dropped. */
  function ParseExpr(toks: seq<Token>, cur: nat, stack: seq<Expr>): (r: ParseResult<seq<Expr>>)
    requires cur <= |toks|
    ensures Advances(toks, cur, r)
    decreases |toks| - cur, 1
  {
    var t :- Next(toks, cur);
    if IsOperator(t.0.variant) then ParseOperator(toks, t.1, t.0, stack)
    else
      var e :- ParseOperand(toks, t.1, t.0);
      Done(stack + [e.0], e.1)
  }

  /** The arms of `parse_expr` for a token `tok` that starts an operand, consumed just before `cur`: the
      node that `parse_expr` then pushes. */
  function ParseOperand(toks: seq<Token>, cur: nat, tok: Token): (r: ParseResult<Expr>)
    requires cur <= |toks| && !IsOperator(tok.variant)
    ensures Stays(toks, cur, r)
    decreases |toks| - cur, 10
  {
    match tok.variant
    case Identifier => Done(Expr.Identifier(tok.data), cur)
    case Dollar =>
      var field :- Expect(toks, cur, TokenVariant.Identifier);
      Done(FieldAccess(field.0), field.1)
    case Number =>
      (match ParseNumber(tok.data)
       case Ok(n) => Done(Expr.Literal(Literal.Number(n)), cur)
       case Err(e) => Failed(e, cur))
    case True => Done(Expr.Literal(Boolean(true, tok.data)), cur)
    case False => Done(Expr.Literal(Boolean(false, tok.data)), cur)
    case String =>
      (match Unquote(tok.data.text)
       case None => Panicked
       case Some(s) => Done(Expr.Literal(Literal.String(s, tok.data)), cur))
    case Regex => Done(Expr.Regex(tok.data), cur)
    case LBracket | Set | LCurly | Enum | At => ParseBracketed(toks, cur, tok)
    case _ => Failed(ParseError(UnexpectedExpressionToken, Some(tok.data)), cur)
  }

  /** The variants that start a bracketed form or an annotation. */
  predicate OpensBracketed(v: TokenVariant)
  {
    v == LBracket || v == TokenVariant.Set || v == LCurly || v == TokenVariant.Enum || v == At
  }

  /** The arms of `parse_expr` for `[`, `set`, `{`, `enum` and `@`, the token consumed just before
      `cur`. */
  function ParseBracketed(toks: seq<Token>, cur: nat, tok: Token): (r: ParseResult<Expr>)
    requires cur <= |toks| && OpensBracketed(tok.variant)
    ensures Stays(toks, cur, r)
    decreases |toks| - cur, 9
  {
    match tok.variant
    case LBracket =>
      var items :- ParseList(toks, cur);
      var close :- Expect(toks, items.1, RBracket);
      Done(List(items.0), close.1)
    case Set =>
      var open :- Expect(toks, cur, LBracket);
      var items :- ParseList(toks, open.1);
      var close :- Expect(toks, items.1, RBracket);
      Done(Expr.Set(items.0), close.1)
    case LCurly =>
      var fields :- ParseStruct(toks, cur);
      Done(Struct(fields.0), fields.1)
    case Enum =>
      var open :- Expect(toks, cur, LCurly);
      var fields :- ParseStruct(toks, open.1);
      var close :- Expect(toks, fields.1, RCurly);
      Done(Expr.Enum(fields.0), close.1)
    case At => ParseAnnotation(toks, cur)
  }

  /** The arms of `parse_expr` for `!` and the binary operators, the operator consumed just before
      `cur`. */
  function ParseOperator(toks: seq<Token>, cur: nat, tok: Token, stack: seq<Expr>): (r: ParseResult<seq<Expr>>)
    requires cur <= |toks| && IsOperator(tok.variant)
    ensures Stays(toks, cur, r)
    decreases |toks| - cur, 3
  {
    if tok.variant == TokenVariant.Not then
      var inner :- ParseExpr(toks, cur, stack);
      var s := inner.0;
      if |s| == 0 then Panicked
      else Done(s[..|s| - 1] + [Expr.Not(s[|s| - 1])], inner.1)
    else if tok.variant == TokenVariant.Or && |stack| == 0 then Done(stack, cur)
    else Push(ParseBinary(toks, cur, BinaryOp(tok.variant).value, tok.data, stack))
  }

  /** What `parse_binary` leaves: the combined node it returns and the stack it leaves behind. */
  datatype Reduction = Reduction(node: Expr, stack: seq<Expr>)

  /** `parse_expr` pushes the node `parse_binary` returns. */
  function Push(r: ParseResult<Reduction>): (p: ParseResult<seq<Expr>>)
    ensures p.Done? <==> r.Done?
    ensures p.Done? ==> p == Done(r.value.stack + [r.value.node], r.cur)
    ensures !p.Done? ==> p == r.PropagateFailure()
  {
    var b :- r;
    Done(b.0.stack + [b.0.node], b.1)
  }

  /** `parse_binary`: pops the left operand (an error at the operator if there is none), parses
      one expression, and pops it as the right operand (a panic if that pushed nothing). */
  function ParseBinary(toks: seq<Token>, cur: nat, op: BinaryExprType, loc: TokenData, stack: seq<Expr>)
    : (r: ParseResult<Reduction>)
    requires cur <= |toks|
    ensures Stays(toks, cur, r)
    decreases |toks| - cur, 2
  {
    if |stack| == 0 then Failed(ParseError(MissingLeftOperand, Some(loc)), cur)
    else
      var left := stack[|stack| - 1];
      var right :- ParseExpr(toks, cur, stack[..|stack| - 1]);
      var s := right.0;
      if |s| == 0 then Panicked
      else Done(Reduction(BinaryExpr(op, left, s[|s| - 1]), s[..|s| - 1]), right.1)
  }

  /** The variants that end an anonymous type without being consumed. */
  predicate ClosesAnonymType(v: TokenVariant)
  {
    v == RBracket || v == RCurly || v == RParen || v == Semicolon
  }

  /** The loop of `parse_anonym_type` with the expressions reduced so far. */
  function AnonymTypeLoop(toks: seq<Token>, cur: nat, list: seq<Expr>): (r: ParseResult<AnonymType>)
    requires cur <= |toks|
    ensures Advances(toks, cur, r)
    decreases |toks| - cur, 3
  {
    var e :- ParseExpr(toks, cur, list);
    var (items, c) := e;
    if c == |toks| then Done(items, c)
    else if toks[c].variant == Comma then Done(items, c + 1)
    else if ClosesAnonymType(toks[c].variant) then Done(items, c)
    else AnonymTypeLoop(toks, c, items)
  }

  /** `parse_anonym_type`: expressions on a fresh stack until a `,` (consumed), a closing token
      (not consumed), or the end of input. */
  function ParseAnonymType(toks: seq<Token>, cur: nat): (r: ParseResult<AnonymType>)
    requires cur <= |toks|
    ensures Advances(toks, cur, r)
    decreases |toks| - cur, 4
  {
    AnonymTypeLoop(toks, cur, [])
  }

  /** The variants that end `parse_list`. */
  predicate ClosesList(v: TokenVariant)
  {
    v == RBracket || v == RParen || v == Semicolon
  }

  /** The loop of `parse_list` with the anonymous types read so far. */
  function ListLoop(toks: seq<Token>, cur: nat, acc: TypeList): (r: ParseResult<TypeList>)
    requires cur <= |toks|
    ensures Stays(toks, cur, r)
    decreases |toks| - cur, 5
  {
    if cur < |toks| && ClosesList(toks[cur].variant) then Done(acc, cur)
    else
      var a :- ParseAnonymType(toks, cur);
      ListLoop(toks, a.1, acc + [a.0])
  }

  /** `parse_list`: anonymous types until `]`, `)` or `;`, none of which it consumes. */
  function ParseList(toks: seq<Token>, cur: nat): (r: ParseResult<TypeList>)
    requires cur <= |toks|
    ensures Stays(toks, cur, r)
    decreases |toks| - cur, 6
  {
    ListLoop(toks, cur, [])
  }

  /** The loop of `parse_struct` with the fields read so far. */
  function StructLoop(toks: seq<Token>, cur: nat, acc: seq<KeyValExpr>): (r: ParseResult<seq<KeyValExpr>>)
    requires cur <= |toks|
    ensures Stays(toks, cur, r)
    decreases |toks| - cur, 5
  {
    if cur < |toks| && toks[cur].variant == RCurly then Done(acc, cur)
    else
      var key :- Expect(toks, cur, TokenVariant.Identifier);
      var colon :- Expect(toks, key.1, Colon);
      var value :- ParseAnonymType(toks, colon.1);
      StructLoop(toks, value.1, acc + [KeyVal(key.0, value.0)])
  }

  /** `parse_struct`: `Identifier : AnonymType` fields up to a `}`, which it consumes. */
  function ParseStruct(toks: seq<Token>, cur: nat): (r: ParseResult<seq<KeyValExpr>>)
    requires cur <= |toks|
    ensures Advances(toks, cur, r)
    decreases |toks| - cur, 6
  {
    var fields :- StructLoop(toks, cur, []);
    var close :- Expect(toks, fields.1, RCurly);
    Done(fields.0, close.1)
  }

  /** `parse_annotation`, after the `@`: a name and, when a `(` follows, an argument list. */
  function ParseAnnotation(toks: seq<Token>, cur: nat): (r: ParseResult<Expr>)
    requires cur <= |toks|
    ensures Advances(toks, cur, r)
    decreases |toks| - cur, 8
  {
    var name :- Expect(toks, cur, TokenVariant.Identifier);
    if PeekVariant(toks, name.1) != Some(LParen) then Done(Annotation(name.0, []), name.1)
    else
      var args :- ParseArguments(toks, name.1 + 1);
      Done(Annotation(name.0, args.0), args.1)
  }

  /** The arguments of an annotation after its `(`: a list closed by `)`. */
  function ParseArguments(toks: seq<Token>, cur: nat): (r: ParseResult<TypeList>)
    requires cur <= |toks|
    ensures Advances(toks, cur, r)
    ensures r.Done? ==> toks[r.cur - 1].variant == RParen
    decreases |toks| - cur, 7
  {
    var args :- ParseList(toks, cur);
    var close :- Expect(toks, args.1, RParen);
    Done(args.0, close.1)
  }

  /** `parse_type_declaration`, after `type`: `Identifier = AnonymType`. */
  function ParseTypeDeclaration(toks: seq<Token>, cur: nat): (r: ParseResult<Declaration>)
    requires cur <= |toks|
    ensures Advances(toks, cur, r)
  {
    var name :- Expect(toks, cur, TokenVariant.Identifier);
    var eq :- Expect(toks, name.1, Eq);
    var t :- ParseAnonymType(toks, eq.1);
    Done(TypeDecl(name.0, t.0), t.1)
  }

  /** `parse_declaration`: `type` and a type declaration, then a `;`. Any other first token is an
      error located at that token. */
  function ParseDeclaration(toks: seq<Token>, cur: nat): (r: ParseResult<Declaration>)
    requires cur <= |toks|
    ensures Advances(toks, cur, r)
    ensures cur < |toks| && r.Failed? ==> cur < r.cur
  {
    var first :- Next(toks, cur);
    if first.0.variant == Type then
      var d :- ParseTypeDeclaration(toks, first.1);
      var semi :- Expect(toks, d.1, Semicolon);
      Done(d.0, semi.1)
    else Failed(ParseError(ExpectedType, Some(first.0.data)), first.1)
  }

  /** `is_not_eof`: the cursor is before the last token. */
  predicate IsNotEof(toks: seq<Token>, cur: nat)
  {
    cur + 1 < |toks|
  }

  /** `recover_to_declaration_boundary`: skips tokens up to a `type` (kept) or through a `;`,
      never passing the last token. */
  function Recover(toks: seq<Token>, cur: nat): (c: nat)
    requires cur <= |toks|
    ensures cur <= c <= |toks|
    decreases |toks| - cur
  {
    if !IsNotEof(toks, cur) then cur
    else if toks[cur].variant == Type then cur
    else if toks[cur].variant == Semicolon then cur + 1
    else Recover(toks, cur + 1)
  }

  /** What `parse` returns, or a panic. */
  datatype Report = Report(ast: seq<Declaration>, errors: seq<ParseError>, tokens: seq<Token>) | Panic

  /** The loop of `parse`: one declaration or one error (followed by recovery) per iteration. */
  function DeclarationLoop(toks: seq<Token>, cur: nat, ast: seq<Declaration>, errors: seq<ParseError>): Report
    requires cur <= |toks|
    decreases |toks| - cur
  {
    if !IsNotEof(toks, cur) then Report(ast, errors, toks)
    else
      match ParseDeclaration(toks, cur)
      case Done(d, c) => DeclarationLoop(toks, c, ast + [d], errors)
      case Failed(e, c) => DeclarationLoop(toks, Recover(toks, c), ast, errors + [e])
      case Panicked => Panic
  }

  /** `parse` on the lexer's tokens. With no tokens, `len - 1` underflows in `is_not_eof`. */
  function ParseTokens(toks: seq<Token>): Report
  {
    if |toks| == 0 then Panic else DeclarationLoop(toks, 0, [], [])
  }

  /** `parse`: a lexing error is the only error, with no declarations and no tokens. */
  function Parse(src: string): Report
  {
    match Lexer.Tokenize(src)
    case Err(e) => Report([], [ParseError(Lexing(e), None)], [])
    case Ok(toks) => ParseTokens(toks)
  }
}
