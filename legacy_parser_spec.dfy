/**
 * The legacy recursive-descent parser (src/parser.rs) as pure functions of the
 * token sequence and a cursor into it.
 *
 * Each function returns the `Result` the source's method returns together with
 * the cursor the method leaves behind. `next` advances the cursor even past the
 * end of the tokens, so a cursor may exceed `|toks|` after an error.
 */
module LegacyParserSpec {
  import opened Wrappers
  import opened Text
  import opened LegacyTokens
  import A = LegacyAst

  /** The source's `&'static str` error messages. */
  const ExpectedIdentifier: string := "Expected an identifier"
  const InvalidNumber: string := "Invalid number"
  const ExpectedNumber: string := "Expected a number"
  const ExpectedColon: string := "Expected ':'"
  const ExpectedFieldName: string := "Expected identifier or '}'"
  const UnexpectedToken: string := "Unexpected token while parsing expression"
  const ExpectedType: string := "Expected 'type'"
  const ExpectedEq: string := "Expected '='"
  const InvalidTypeName: string := "Invalid type name"

  /** The messages an expression can fail with. */
  const ExprErrors: set<string> := {InvalidNumber, ExpectedColon, ExpectedFieldName, UnexpectedToken}

  /** A method's result and the parser's cursor afterwards. */
  datatype Parsed<+T> = Parsed(result: Result<T, string>, cur: nat)

  /** `peek`: the token under the cursor, if any. */
  function Peek(toks: seq<Token>, cur: nat): Option<Token>
  {
    if cur < |toks| then Some(toks[cur]) else None
  }

  /** `parse_identifier`: consumes one token (or moves past the end) and wants an identifier. */
  function ParseIdentifier(toks: seq<Token>, cur: nat): Parsed<A.Expr>
  {
    if cur < |toks| && toks[cur].Identifier? then Parsed(Ok(A.Identifier(toks[cur].data.text)), cur + 1)
    else Parsed(Err(ExpectedIdentifier), cur + 1)
  }

  /** `parse_number`: consumes one token and wants a number whose text `parse::<i64>` accepts. */
  function ParseNumber(toks: seq<Token>, cur: nat): Parsed<A.Expr>
  {
    if cur < |toks| && toks[cur].Number? then
      match ParseI64(toks[cur].data.text)
      case Some(n) => Parsed(Ok(A.Number(n)), cur + 1)
      case None => Parsed(Err(InvalidNumber), cur + 1)
    else Parsed(Err(ExpectedNumber), cur + 1)
  }

  /** The tokens `parse_expr` dispatches on. */
  predicate StartsExpr(t: Token)
  {
    t.Identifier? || t.Number? || t.LBracket? || t.LCurly?
  }

  /** `parse_expr`: dispatches on the token under the cursor without consuming it. A success consumes
      at least one token and ends inside the input; a failure never moves the cursor back and names
      one of the expression errors, never a missing identifier or number. */
  function ParseExpr(toks: seq<Token>, cur: nat): (r: Parsed<A.Expr>)
    ensures r.result.Ok? ==> cur < r.cur <= |toks|
    ensures cur <= r.cur
    ensures r.result.Err? ==> r.result.error in ExprErrors
    decreases |toks| - cur, 2
  {
    match Peek(toks, cur)
    case Some(Identifier(_)) => ParseIdentifier(toks, cur)
    case Some(Number(_, _)) => ParseNumber(toks, cur)
    case Some(LBracket(_)) => ParseList(toks, cur)
    case Some(LCurly(_)) => ParseStruct(toks, cur)
    case _ => Parsed(Err(UnexpectedToken), cur)
  }

  /** The `while let Some(token) = self.peek()` loop of `parse_list` with the elements read so far. */
  function ListLoop(toks: seq<Token>, cur: nat, acc: seq<A.Expr>): (r: Parsed<A.Expr>)
    requires cur <= |toks|
    ensures r.result.Ok? ==> cur <= r.cur <= |toks|
    ensures cur <= r.cur
    ensures r.result.Err? ==> r.result.error in ExprErrors
    decreases |toks| - cur, 3
  {
    if cur == |toks| then Parsed(Ok(A.List(acc)), cur)
    else if toks[cur].RBracket? then Parsed(Ok(A.List(acc)), cur + 1)
    else
      var e := ParseExpr(toks, cur);
      if e.result.Err? then Parsed(Err(e.result.error), e.cur)
      else ListLoop(toks, e.cur, acc + [e.result.value])
  }

  /** `parse_list`: consumes the `[` the caller saw (the source unwraps it), then reads elements up
      to `]` or the end of the tokens. */
  function ParseList(toks: seq<Token>, cur: nat): (r: Parsed<A.Expr>)
    requires cur < |toks|
    ensures r.result.Ok? ==> cur < r.cur <= |toks|
    ensures cur <= r.cur
    ensures r.result.Err? ==> r.result.error in ExprErrors
    decreases |toks| - cur, 1
  {
    ListLoop(toks, cur + 1, [])
  }

  /** The loop of `parse_struct` with the fields read so far. A field is an identifier, `:` and an
      expression; its name is the identifier's text (what `Display` prints for it). */
  function StructLoop(toks: seq<Token>, cur: nat, acc: seq<(string, A.Expr)>): (r: Parsed<A.Expr>)
    requires cur <= |toks|
    ensures r.result.Ok? ==> cur <= r.cur <= |toks|
    ensures cur <= r.cur
    ensures r.result.Err? ==> r.result.error in ExprErrors
    decreases |toks| - cur, 3
  {
    if cur == |toks| then Parsed(Ok(A.Struct(acc)), cur)
    else
      match toks[cur]
      case RCurly(_) => Parsed(Ok(A.Struct(acc)), cur + 1)
      case Identifier(d) =>
        if cur + 1 < |toks| && toks[cur + 1].Colon? then
          var v := ParseExpr(toks, cur + 2);
          if v.result.Err? then Parsed(Err(v.result.error), v.cur)
          else StructLoop(toks, v.cur, acc + [(d.text, v.result.value)])
        else Parsed(Err(ExpectedColon), cur + 1)
      case _ => Parsed(Err(ExpectedFieldName), cur)
  }

  /** `parse_struct`: consumes the `{` the caller saw, then reads fields up to `}` or the end. */
  function ParseStruct(toks: seq<Token>, cur: nat): (r: Parsed<A.Expr>)
    requires cur < |toks|
    ensures r.result.Ok? ==> cur < r.cur <= |toks|
    ensures cur <= r.cur
    ensures r.result.Err? ==> r.result.error in ExprErrors
    decreases |toks| - cur, 1
  {
    StructLoop(toks, cur + 1, [])
  }

  /** `parse_type_definition`: `type`, an identifier, `=`, an expression. A success is a `TypeDef`
      ending inside the input, and the source's "Invalid type name" branch is never taken. */
  function ParseTypeDefinition(toks: seq<Token>, cur: nat): (r: Parsed<A.Expr>)
    ensures r.result.Ok? ==> cur < r.cur <= |toks| && r.result.value.TypeDef?
    ensures r.result.Err? ==> r.result.error != InvalidTypeName
  {
    if !(cur < |toks| && toks[cur].Type?) then Parsed(Err(ExpectedType), cur)
    else
      var name := ParseIdentifier(toks, cur + 1);
      if name.result.Err? then Parsed(Err(name.result.error), name.cur)
      else if !(name.cur < |toks| && toks[name.cur].Eq?) then Parsed(Err(ExpectedEq), name.cur)
      else
        var v := ParseExpr(toks, name.cur + 1);
        if v.result.Err? then Parsed(Err(v.result.error), v.cur)
        else
          match name.result.value
          case Identifier(n) => Parsed(Ok(A.TypeDef(n, v.result.value)), v.cur)
          case _ => Parsed(Err(InvalidTypeName), v.cur)
  }

  /** The loop of `parse`: type definitions until the token under the cursor is `EOF`, stopping at
      the first error. */
  function ParseFrom(toks: seq<Token>, cur: nat, ast: seq<A.Expr>): Parsed<seq<A.Expr>>
    decreases |toks| - cur
  {
    if Peek(toks, cur) == Some(EOF) then Parsed(Ok(ast), cur)
    else
      var d := ParseTypeDefinition(toks, cur);
      if d.result.Err? then Parsed(Err(d.result.error), d.cur)
      else ParseFrom(toks, d.cur, ast + [d.result.value])
  }

  /** `Parser::new(tokens).parse()`. */
  function Parse(toks: seq<Token>): Result<seq<A.Expr>, string>
  {
    ParseFrom(toks, 0, []).result
  }
}
