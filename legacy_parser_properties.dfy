/**
 * Properties of the legacy parser (src/parser.rs): what a successful parse
 * returns and where it stops, which messages it can and cannot report, where
 * each error leaves the cursor, and how it treats lists and structs that the
 * printer of src/parser_expr.rs writes.
 */
module LegacyParserProperties {
  import opened Wrappers
  import opened Source
  import opened Text
  import opened LegacyTokens
  import opened LegacyParserSpec
  import A = LegacyAst

  /** Every message `parse` can return. */
  const ParseErrors: set<string> := {ExpectedType, ExpectedIdentifier, ExpectedEq} + ExprErrors

  // ---------------------------------------------------------------------------
  // The whole parse

  /** A successful run of the `parse` loop stops on an `EOF` token, keeps the definitions it already
      had and adds only type definitions; a failed run reports one of `ParseErrors`. */
  lemma {:induction false} ParseFromShape(toks: seq<Token>, cur: nat, ast: seq<A.Expr>)
    ensures var r := ParseFrom(toks, cur, ast);
      r.result.Ok? ==>
        && r.cur < |toks| && toks[r.cur] == EOF
        && ast <= r.result.value
        && forall k :: |ast| <= k < |r.result.value| ==> r.result.value[k].TypeDef?
    ensures var r := ParseFrom(toks, cur, ast);
      r.result.Err? ==> r.result.error in ParseErrors
    decreases |toks| - cur
  {
    if Peek(toks, cur) != Some(EOF) {
      var d := ParseTypeDefinition(toks, cur);
      if d.result.Ok? {
        ParseFromShape(toks, d.cur, ast + [d.result.value]);
        var r := ParseFrom(toks, d.cur, ast + [d.result.value]);
        if r.result.Ok? {
          assert ast <= ast + [d.result.value] <= r.result.value;
        }
      }
    }
  }

  /** `parse` returns only type definitions, and it never reports "Expected a number" or "Invalid
      type name": every number is parsed after `parse_expr` has seen a number token, and every type
      name is the identifier `parse_identifier` returned. */
  lemma ParseShape(toks: seq<Token>)
    ensures Parse(toks).Ok? ==> forall k :: 0 <= k < |Parse(toks).value| ==> Parse(toks).value[k].TypeDef?
    ensures Parse(toks).Err? ==> Parse(toks).error !in {ExpectedNumber, InvalidTypeName}
  {
    ParseFromShape(toks, 0, []);
  }

  /** Tokens without an `EOF` never parse: the loop only stops on `EOF`. */
  lemma NoEOFFails(toks: seq<Token>)
    requires EOF !in toks
    ensures Parse(toks).Err?
  {
    ParseFromShape(toks, 0, []);
  }

  /** An `EOF` under the cursor ends the parse at once, with nothing consumed, whatever follows. */
  lemma StopsAtEOF(toks: seq<Token>, rest: seq<Token>)
    ensures Parse([EOF] + rest) == Ok([])
  {
  }

  // ---------------------------------------------------------------------------
  // The cursor

  /** `next` advances even past the end: a failed identifier or number read at the end of the tokens
      leaves the cursor one past it. */
  lemma NextPassesTheEnd(toks: seq<Token>)
    ensures ParseIdentifier(toks, |toks|) == Parsed(Err(ExpectedIdentifier), |toks| + 1)
    ensures ParseNumber(toks, |toks|) == Parsed(Err(ExpectedNumber), |toks| + 1)
  {
  }

  /** `parse_expr` consumes nothing when the token under the cursor cannot start an expression. */
  lemma DispatchConsumesNothing(toks: seq<Token>, cur: nat)
    requires cur < |toks| ==> !StartsExpr(toks[cur])
    ensures ParseExpr(toks, cur) == Parsed(Err(UnexpectedToken), cur)
  {
  }

  /** A definition must open with `type`, or nothing is consumed. A name that is not an identifier
      is consumed before the error is reported; a token in place of `=` is not. */
  lemma DefinitionErrors(toks: seq<Token>, cur: nat)
    ensures !(cur < |toks| && toks[cur].Type?) ==> ParseTypeDefinition(toks, cur) == Parsed(Err(ExpectedType), cur)
    ensures cur < |toks| && toks[cur].Type? && !(cur + 1 < |toks| && toks[cur + 1].Identifier?) ==>
      ParseTypeDefinition(toks, cur) == Parsed(Err(ExpectedIdentifier), cur + 2)
    ensures cur + 2 < |toks| && toks[cur].Type? && toks[cur + 1].Identifier? && !toks[cur + 2].Eq? ==>
      ParseTypeDefinition(toks, cur) == Parsed(Err(ExpectedEq), cur + 2)
  {
  }

  /** `type A = x; ...`: the legacy grammar has no `;`, so the token after a definition must be
      `type` or `EOF`, and a `;` there is reported as a missing `type`. */
  lemma SemicolonRejected(toks: seq<Token>)
    requires 5 <= |toks|
    requires toks[0].Type? && toks[1].Identifier? && toks[2].Eq? && toks[3].Identifier?
    requires toks[4].Semicolon?
    ensures Parse(toks) == Err(ExpectedType)
  {
    var d := ParseTypeDefinition(toks, 0);
    assert d == Parsed(Ok(A.TypeDef(toks[1].data.text, A.Identifier(toks[3].data.text))), 4);
    assert ParseFrom(toks, 0, []) == ParseFrom(toks, 4, [d.result.value]);
  }

  /** `type N = 42`: a definition whose value is a number token holding `ShowInt(n)`. */
  lemma NumberDefinition(toks: seq<Token>, n: I64)
    requires 5 <= |toks|
    requires toks[0].Type? && toks[1].Identifier? && toks[2].Eq? && toks[3].Number? && toks[4] == EOF
    requires toks[3].data.text == ShowInt(n)
    ensures Parse(toks) == Ok([A.TypeDef(toks[1].data.text, A.Number(n))])
  {
    ShowIntParses(n);
    var d := ParseTypeDefinition(toks, 0);
    assert ParseExpr(toks, 3) == Parsed(Ok(A.Number(n)), 4);
    assert d == Parsed(Ok(A.TypeDef(toks[1].data.text, A.Number(n))), 4);
    assert [] + [d.result.value] == [d.result.value];
    assert ParseFrom(toks, 0, []) == ParseFrom(toks, 4, [d.result.value]);
  }

  // ---------------------------------------------------------------------------
  // Numbers

  /** The legacy lexer reads `1.5` as one number token, but `parse::<i64>` rejects any text holding a
      `.`: such a token is consumed and reported as an invalid number. */
  lemma FractionRejected(toks: seq<Token>, cur: nat)
    requires cur < |toks| && toks[cur].Number? && '.' in toks[cur].data.text
    ensures ParseExpr(toks, cur) == Parsed(Err(InvalidNumber), cur + 1)
  {
    DotIsNotI64(toks[cur].data.text);
  }

  // ---------------------------------------------------------------------------
  // Lists and structs

  /** A list is read up to `]`; at the very end of the tokens it returns the elements it has. */
  lemma UnclosedListAtEnd(toks: seq<Token>, cur: nat)
    requires cur + 2 == |toks| && toks[cur].LBracket? && toks[cur + 1].Identifier?
    ensures ParseExpr(toks, cur) == Parsed(Ok(A.List([A.Identifier(toks[cur + 1].data.text)])), cur + 2)
  {
    var x := A.Identifier(toks[cur + 1].data.text);
    assert [] + [x] == [x];
    assert ListLoop(toks, cur + 1, []) == ListLoop(toks, cur + 2, [x]);
  }

  /** Lexer output always ends with `EOF`, which is not an element: an unclosed list fails there. */
  lemma UnclosedListBeforeEOF(toks: seq<Token>, cur: nat)
    requires cur + 2 < |toks| && toks[cur].LBracket? && toks[cur + 1].Identifier? && toks[cur + 2] == EOF
    ensures ParseExpr(toks, cur) == Parsed(Err(UnexpectedToken), cur + 2)
  {
    assert ListLoop(toks, cur + 1, []) == ListLoop(toks, cur + 2, [A.Identifier(toks[cur + 1].data.text)]);
  }

  /** Elements follow each other without separators, so the `, ` that the printer puts between
      elements stops the parse at the first comma. */
  lemma CommaInListFails(toks: seq<Token>, cur: nat)
    requires cur + 2 < |toks| && toks[cur].LBracket? && toks[cur + 1].Identifier? && toks[cur + 2].Comma?
    ensures ParseExpr(toks, cur) == Parsed(Err(UnexpectedToken), cur + 2)
  {
    assert ListLoop(toks, cur + 1, []) == ListLoop(toks, cur + 2, [A.Identifier(toks[cur + 1].data.text)]);
  }

  /** `{a: x b: y}`: fields follow each other without separators, in order, named by their text. */
  lemma StructFields(toks: seq<Token>, cur: nat)
    requires cur + 7 < |toks|
    requires toks[cur].LCurly?
    requires toks[cur + 1].Identifier? && toks[cur + 2].Colon? && toks[cur + 3].Identifier?
    requires toks[cur + 4].Identifier? && toks[cur + 5].Colon? && toks[cur + 6].Identifier?
    requires toks[cur + 7].RCurly?
    ensures ParseExpr(toks, cur) == Parsed(Ok(A.Struct([
      (toks[cur + 1].data.text, A.Identifier(toks[cur + 3].data.text)),
      (toks[cur + 4].data.text, A.Identifier(toks[cur + 6].data.text))])), cur + 8)
  {
    var a := (toks[cur + 1].data.text, A.Identifier(toks[cur + 3].data.text));
    var b := (toks[cur + 4].data.text, A.Identifier(toks[cur + 6].data.text));
    assert ParseExpr(toks, cur + 3) == Parsed(Ok(a.1), cur + 4);
    assert [] + [a] == [a];
    assert StructLoop(toks, cur + 1, []) == StructLoop(toks, cur + 4, [a]);
    assert ParseExpr(toks, cur + 6) == Parsed(Ok(b.1), cur + 7);
    assert [a] + [b] == [a, b];
    assert StructLoop(toks, cur + 4, [a]) == StructLoop(toks, cur + 7, [a, b]);
    assert ParseExpr(toks, cur) == StructLoop(toks, cur + 1, []);
  }

  /** A field name must be followed by `:`, and a field must start with an identifier; the first
      error leaves the cursor after the name, the second on the offending token. */
  lemma StructErrors(toks: seq<Token>, cur: nat)
    requires cur + 1 < |toks| && toks[cur].LCurly?
    ensures toks[cur + 1].Identifier? && !(cur + 2 < |toks| && toks[cur + 2].Colon?) ==>
      ParseExpr(toks, cur) == Parsed(Err(ExpectedColon), cur + 2)
    ensures !toks[cur + 1].Identifier? && !toks[cur + 1].RCurly? ==>
      ParseExpr(toks, cur) == Parsed(Err(ExpectedFieldName), cur + 1)
  {
    assert ParseExpr(toks, cur) == StructLoop(toks, cur + 1, []);
  }
}
