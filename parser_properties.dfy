/**
 * Properties of the error-recovering parser (common/src/parser/parser.rs),
 * proved about the functions of `ParserSpec`, which the methods of
 * `Parser.Parser` are proved to compute.
 */
module ParserProperties {
  import opened Wrappers
  import opened Source
  import opened Tokens
  import opened Ast
  import opened ParserSpec
  import Text
  import Lexer

  // ---------------------------------------------------------------------------
  // The top-level loop

  /** How many more iterations the loop of `parse` can make from `cur`: one per token before the last. */
  function Remaining(toks: seq<Token>, cur: nat): nat
  {
    if cur + 1 < |toks| then |toks| - 1 - cur else 0
  }

  /** Each iteration consumes at least one token and appends exactly one declaration or one error,
      so the loop ends, keeps what was collected before, and adds at most one entry per token before
      the last. */
  lemma {:induction false} DeclarationLoopCounts(toks: seq<Token>, cur: nat, ast: seq<Declaration>, errors: seq<ParseError>)
    requires cur <= |toks|
    ensures var r := DeclarationLoop(toks, cur, ast, errors);
      r.Report? ==>
        && r.tokens == toks && ast <= r.ast && errors <= r.errors
        && (|r.ast| - |ast|) + (|r.errors| - |errors|) <= Remaining(toks, cur)
    decreases |toks| - cur
  {
    if IsNotEof(toks, cur) {
      match ParseDeclaration(toks, cur)
      case Done(d, c) =>
        DeclarationLoopCounts(toks, c, ast + [d], errors);
      case Failed(e, c) =>
        DeclarationLoopCounts(toks, Recover(toks, c), ast, errors + [e]);
      case Panicked =>
    }
  }

  /** `parse` either reports a lexing error alone, with no declarations and no tokens, or returns
      the lexer's tokens with at most one declaration or error per token before the last; it panics
      only after lexing succeeded. */
  lemma ParseCounts(src: string)
    ensures match Parse(src)
      case Report(ast, errors, toks) =>
        || (Lexer.Tokenize(src).Err? && ast == [] && toks == []
            && errors == [ParseError(Lexing(Lexer.Tokenize(src).error), None)])
        || (Lexer.Tokenize(src) == Ok(toks) && 0 < |toks| && |ast| + |errors| <= |toks| - 1)
      case Panic => Lexer.Tokenize(src).Ok?
  {
    if Lexer.Tokenize(src).Ok? && Lexer.Tokenize(src).value != [] {
      DeclarationLoopCounts(Lexer.Tokenize(src).value, 0, [], []);
    }
  }

  lemma {:induction false} BlankLexesToNothing(src: string, i: nat)
    requires i <= |src|
    requires forall k :: i <= k < |src| ==> IsWhitespace(src[k])
    ensures Lexer.LexFrom(src, i) == Ok([])
    decreases |src| - i
  {
    if i < |src| {
      BlankLexesToNothing(src, i + 1);
    }
  }

  /** Input with no tokens at all (only whitespace) makes `len - 1` underflow in `is_not_eof`. */
  lemma BlankSourcePanics(src: string)
    requires forall k :: 0 <= k < |src| ==> IsWhitespace(src[k])
    ensures Parse(src) == Panic
  {
    BlankLexesToNothing(src, 0);
  }

  // ---------------------------------------------------------------------------
  // Declarations

  /** A declaration is exactly `type Identifier = AnonymType ;`, named by the identifier; a first
      token other than `type` is an error located at that token, after which it is consumed. */
  lemma DeclarationShape(toks: seq<Token>, cur: nat)
    requires cur < |toks|
    ensures toks[cur].variant != Type ==>
      ParseDeclaration(toks, cur) == Failed(ParseError(ExpectedType, Some(toks[cur].data)), cur + 1)
    ensures ParseDeclaration(toks, cur).Done? <==>
      && toks[cur].variant == Type
      && cur + 2 < |toks| && toks[cur + 1].variant == TokenVariant.Identifier && toks[cur + 2].variant == Eq
      && ParseAnonymType(toks, cur + 3).Done?
      && ParseAnonymType(toks, cur + 3).cur < |toks|
      && toks[ParseAnonymType(toks, cur + 3).cur].variant == Semicolon
    ensures ParseDeclaration(toks, cur).Done? ==>
      ParseDeclaration(toks, cur) ==
        Done(TypeDecl(toks[cur + 1].data, ParseAnonymType(toks, cur + 3).value), ParseAnonymType(toks, cur + 3).cur + 1)
  {
  }

  // ---------------------------------------------------------------------------
  // Anonymous types

  /** `parse_anonym_type` stops only at the end of input, before a `]`, `}`, `)` or `;`, or just
      after a `,`. */
  lemma {:induction false} AnonymTypeLoopStops(toks: seq<Token>, cur: nat, list: seq<Expr>)
    requires cur <= |toks|
    ensures StopsAtBoundary(toks, AnonymTypeLoop(toks, cur, list))
    decreases |toks| - cur
  {
    var r := AnonymTypeLoop(toks, cur, list);
    var items, c := AnonymTypeNext(toks, cur, list);
    if r.Done? && c < |toks| && toks[c].variant != Comma && !ClosesAnonymType(toks[c].variant) {
      AnonymTypeLoopStops(toks, c, items);
    }
  }

  /** Where an anonymous type may stop: at the end of input, before a closing token, or after a `,`. */
  predicate StopsAtBoundary(toks: seq<Token>, r: ParseResult<AnonymType>)
  {
    r.Done? && 0 < r.cur <= |toks| ==>
      r.cur == |toks| || ClosesAnonymType(toks[r.cur].variant) || toks[r.cur - 1].variant == Comma
  }

  /** After an expression, a `,` ends the anonymous type and is consumed, a closing token ends it
      and is left for the caller, and so does the end of input. */
  lemma AnonymTypeTerminators(toks: seq<Token>, cur: nat)
    requires cur <= |toks| && ParseExpr(toks, cur, []).Done?
    ensures var e := ParseExpr(toks, cur, []);
      && (e.cur == |toks| ==> ParseAnonymType(toks, cur) == Done(e.value, e.cur))
      && (e.cur < |toks| && toks[e.cur].variant == Comma ==> ParseAnonymType(toks, cur) == Done(e.value, e.cur + 1))
      && (e.cur < |toks| && ClosesAnonymType(toks[e.cur].variant) ==> ParseAnonymType(toks, cur) == Done(e.value, e.cur))
  {
  }

  // ---------------------------------------------------------------------------
  // The reduction stack

  /** The expression forms that push exactly one element. */
  predicate IsLeafToken(v: TokenVariant)
  {
    || v == TokenVariant.Identifier || v == Dollar || v == TokenVariant.Number || v == True || v == False
    || v == TokenVariant.String || v == TokenVariant.Regex || v == LBracket || v == TokenVariant.Set
    || v == LCurly || v == TokenVariant.Enum || v == At
  }

  lemma LeafPushes(toks: seq<Token>, cur: nat, stack: seq<Expr>)
    requires cur < |toks| && IsLeafToken(toks[cur].variant)
    ensures var r := ParseExpr(toks, cur, stack);
      r.Done? ==> |r.value| == |stack| + 1 && r.value[..|stack|] == stack
  {
    forall x: Expr
      ensures (stack + [x])[..|stack|] == stack
    {
    }
  }

  lemma NotUnfolds(toks: seq<Token>, cur: nat, stack: seq<Expr>)
    requires cur < |toks| && toks[cur].variant == TokenVariant.Not
    ensures var inner := ParseExpr(toks, cur + 1, stack);
      ParseExpr(toks, cur, stack) ==
        if !inner.Done? then inner.PropagateFailure()
        else if |inner.value| == 0 then Panicked
        else Done(inner.value[..|inner.value| - 1] + [Expr.Not(inner.value[|inner.value| - 1])], inner.cur)
  {
  }

  lemma BinaryUnfolds(toks: seq<Token>, cur: nat, stack: seq<Expr>)
    requires cur < |toks| && BinaryOp(toks[cur].variant).Some?
    requires !(toks[cur].variant == TokenVariant.Or && stack == [])
    ensures ParseExpr(toks, cur, stack) ==
      Push(ParseBinary(toks, cur + 1, BinaryOp(toks[cur].variant).value, toks[cur].data, stack))
  {
  }

  /** An identifier pushes itself. */
  lemma IdentifierPushes(toks: seq<Token>, cur: nat, stack: seq<Expr>)
    requires cur < |toks| && toks[cur].variant == TokenVariant.Identifier
    ensures ParseExpr(toks, cur, stack) == Done(stack + [Expr.Identifier(toks[cur].data)], cur + 1)
  {
  }

  /** A token that starts no expression form is an error at that token. */
  lemma UnexpectedTokenFails(toks: seq<Token>, cur: nat, stack: seq<Expr>)
    requires cur < |toks|
    requires !IsLeafToken(toks[cur].variant) && toks[cur].variant != TokenVariant.Not && BinaryOp(toks[cur].variant).None?
    ensures ParseExpr(toks, cur, stack) == Failed(ParseError(UnexpectedExpressionToken, Some(toks[cur].data)), cur + 1)
  {
  }

  lemma BinaryStep(toks: seq<Token>, cur: nat, op: BinaryExprType, loc: TokenData, stack: seq<Expr>)
    requires cur <= |toks| && 0 < |stack|
    requires ParseExpr(toks, cur, stack[..|stack| - 1]).Done?
    ensures var right := ParseExpr(toks, cur, stack[..|stack| - 1]);
      var s := right.value;
      ParseBinary(toks, cur, op, loc, stack) ==
        if |s| == 0 then Panicked
        else Done(Reduction(BinaryExpr(op, stack[|stack| - 1], s[|s| - 1]), s[..|s| - 1]), right.cur)
  {
  }

  lemma AnonymTypeStep(toks: seq<Token>, cur: nat, list: seq<Expr>)
    requires cur <= |toks| && ParseExpr(toks, cur, list).Done?
    ensures var e := ParseExpr(toks, cur, list);
      AnonymTypeLoop(toks, cur, list) ==
        if e.cur == |toks| then Done(e.value, e.cur)
        else if toks[e.cur].variant == Comma then Done(e.value, e.cur + 1)
        else if ClosesAnonymType(toks[e.cur].variant) then Done(e.value, e.cur)
        else AnonymTypeLoop(toks, e.cur, e.value)
  {
  }

  /** One round of the anonymous-type loop, named without the expression parser: `items` and `c`
      are the stack and position after the round's expression. */
  lemma AnonymTypeNext(toks: seq<Token>, cur: nat, list: seq<Expr>) returns (items: seq<Expr>, c: nat)
    requires cur <= |toks|
    ensures AnonymTypeLoop(toks, cur, list).Done? ==>
      && cur < c <= |toks|
      && AnonymTypeLoop(toks, cur, list) ==
        if c == |toks| then Done(items, c)
        else if toks[c].variant == Comma then Done(items, c + 1)
        else if ClosesAnonymType(toks[c].variant) then Done(items, c)
        else AnonymTypeLoop(toks, c, items)
  {
    var e := ParseExpr(toks, cur, list);
    if e.Done? {
      AnonymTypeStep(toks, cur, list);
      items, c := e.value, e.cur;
    } else {
      items, c := list, cur;
    }
  }

  lemma LoopStep(toks: seq<Token>, cur: nat, ast: seq<Declaration>, errors: seq<ParseError>)
    requires cur <= |toks| && IsNotEof(toks, cur)
    ensures var p := ParseDeclaration(toks, cur);
      DeclarationLoop(toks, cur, ast, errors) ==
        if p.Done? then DeclarationLoop(toks, p.cur, ast + [p.value], errors)
        else if p.Failed? then DeclarationLoop(toks, Recover(toks, p.cur), ast, errors + [p.error])
        else Panic
  {
  }

  lemma BinaryKeepsPrefix(toks: seq<Token>, cur: nat, stack: seq<Expr>)
    requires cur < |toks| && BinaryOp(toks[cur].variant).Some? && 0 < |stack|
    requires var right := ParseExpr(toks, cur + 1, stack[..|stack| - 1]);
      right.Done? && 0 < |right.value| ==> right.value[..|right.value| - 1] <= stack[..|stack| - 1]
    ensures var r := ParseExpr(toks, cur, stack);
      r.Done? ==> 0 < |r.value| && r.value[..|r.value| - 1] <= stack
  {
    BinaryUnfolds(toks, cur, stack);
    var below := stack[..|stack| - 1];
    var right := ParseExpr(toks, cur + 1, below);
    if right.Done? {
      BinaryStep(toks, cur + 1, BinaryOp(toks[cur].variant).value, toks[cur].data, stack);
      var s := right.value;
      if 0 < |s| {
        var r := ParseExpr(toks, cur, stack);
        assert r.value[..|r.value| - 1] == s[..|s| - 1];
      }
    }
  }

  /** A successful `parse_expr` leaves an untouched prefix of the stack and one new element on top,
      except that a leading `|` on an empty stack leaves it empty. A leaf or bracketed form keeps
      the whole stack and pushes one element. */
  lemma {:induction false} ExprStackEffect(toks: seq<Token>, cur: nat, stack: seq<Expr>)
    requires cur <= |toks|
    ensures var r := ParseExpr(toks, cur, stack);
      r.Done? ==>
        || (0 < |r.value| && r.value[..|r.value| - 1] <= stack)
        || (stack == [] && r.value == [] && toks[cur].variant == TokenVariant.Or)
    ensures var r := ParseExpr(toks, cur, stack);
      r.Done? && IsLeafToken(toks[cur].variant) ==> |r.value| == |stack| + 1 && r.value[..|stack|] == stack
    decreases |toks| - cur
  {
    var r := ParseExpr(toks, cur, stack);
    if cur < |toks| {
      var v := toks[cur].variant;
      if IsLeafToken(v) {
        LeafPushes(toks, cur, stack);
        if r.Done? {
          assert r.value[..|r.value| - 1] == stack;
        }
      } else if v == TokenVariant.Not {
        NotUnfolds(toks, cur, stack);
        ExprStackEffect(toks, cur + 1, stack);
        if r.Done? {
          var s := ParseExpr(toks, cur + 1, stack).value;
          assert r.value[..|r.value| - 1] == s[..|s| - 1];
        }
      } else if BinaryOp(v).Some? && !(v == TokenVariant.Or && stack == []) {
        if 0 < |stack| {
          ExprStackEffect(toks, cur + 1, stack[..|stack| - 1]);
          BinaryKeepsPrefix(toks, cur, stack);
        } else {
          BinaryUnfolds(toks, cur, stack);
        }
      } else if v != TokenVariant.Or {
        UnexpectedTokenFails(toks, cur, stack);
      }
    }
  }

  /** A binary operator whose right operand is a leaf form leaves the stack's length unchanged: it
      replaces the top with the operator node whose left operand is the old top. */
  lemma BinaryReducesTop(toks: seq<Token>, cur: nat, stack: seq<Expr>)
    requires cur + 1 < |toks| && BinaryOp(toks[cur].variant).Some? && 0 < |stack|
    requires IsLeafToken(toks[cur + 1].variant)
    ensures var r := ParseExpr(toks, cur, stack);
      r.Done? ==>
        && |r.value| == |stack|
        && r.value[..|stack| - 1] == stack[..|stack| - 1]
        && r.value[|stack| - 1].BinaryExpr?
        && r.value[|stack| - 1].op == BinaryOp(toks[cur].variant).value
        && r.value[|stack| - 1].left == stack[|stack| - 1]
  {
    BinaryUnfolds(toks, cur, stack);
    LeafPushes(toks, cur + 1, stack[..|stack| - 1]);
  }

  /** A binary operator with nothing on the stack is an error at the operator, except `|`, which is
      then dropped. */
  lemma MissingLeftOperandReported(toks: seq<Token>, cur: nat)
    requires cur < |toks| && BinaryOp(toks[cur].variant).Some?
    ensures ParseExpr(toks, cur, []) ==
      if toks[cur].variant == TokenVariant.Or then Done([], cur + 1)
      else Failed(ParseError(MissingLeftOperand, Some(toks[cur].data)), cur + 1)
  {
    if toks[cur].variant != TokenVariant.Or {
      BinaryUnfolds(toks, cur, []);
    }
  }

  /** A dropped leading `|` as the operand of `!` leaves nothing to pop: the `unwrap` panics. */
  lemma NotOfDroppedOrPanics(d1: TokenData, d2: TokenData, rest: seq<Token>)
    ensures ParseExpr([Token(TokenVariant.Not, d1), Token(TokenVariant.Or, d2)] + rest, 0, []) == Panicked
  {
    var toks := [Token(TokenVariant.Not, d1), Token(TokenVariant.Or, d2)] + rest;
    assert ParseExpr(toks, 1, []) == Done([], 2);
  }

  /** The right operand of a binary operator is a dropped `|` when the operator took the only
      element: popping the right operand panics. */
  lemma RightOperandDroppedPanics(d1: TokenData, d2: TokenData, rest: seq<Token>, left: Expr)
    ensures ParseExpr([Token(Plus, d1), Token(TokenVariant.Or, d2)] + rest, 0, [left]) == Panicked
  {
    var toks := [Token(Plus, d1), Token(TokenVariant.Or, d2)] + rest;
    BinaryUnfolds(toks, 0, [left]);
    assert [left][..0] == [];
    assert ParseExpr(toks, 1, []) == Done([], 2);
  }

  /** A binary operator followed by an identifier replaces the top of the stack with the operator
      node whose operands are the old top and that identifier. */
  lemma OperatorThenIdentifier(toks: seq<Token>, cur: nat, below: seq<Expr>, top: Expr)
    requires cur + 1 < |toks| && BinaryOp(toks[cur].variant).Some?
    requires toks[cur + 1].variant == TokenVariant.Identifier
    ensures ParseExpr(toks, cur, below + [top]) ==
      Done(below + [BinaryExpr(BinaryOp(toks[cur].variant).value, top, Expr.Identifier(toks[cur + 1].data))], cur + 2)
  {
    var stack := below + [top];
    assert stack[..|stack| - 1] == below;
    var right := Expr.Identifier(toks[cur + 1].data);
    IdentifierPushes(toks, cur + 1, below);
    assert (below + [right])[..|below|] == below;
    BinaryStep(toks, cur + 1, BinaryOp(toks[cur].variant).value, toks[cur].data, stack);
    BinaryUnfolds(toks, cur, stack);
  }

  /** Operators at one precedence level reduce left to right: `a + b - c ;` is `(a + b) - c`. */
  lemma LeftAssociative(toks: seq<Token>)
    requires 5 < |toks|
    requires && toks[0].variant == TokenVariant.Identifier && toks[1].variant == Plus
             && toks[2].variant == TokenVariant.Identifier && toks[3].variant == Minus
             && toks[4].variant == TokenVariant.Identifier && toks[5].variant == Semicolon
    ensures ParseAnonymType(toks, 0) ==
      Done([BinaryExpr(Remove, BinaryExpr(Add, Expr.Identifier(toks[0].data), Expr.Identifier(toks[2].data)),
                       Expr.Identifier(toks[4].data))], 5)
  {
    var a := Expr.Identifier(toks[0].data);
    var ab := BinaryExpr(Add, a, Expr.Identifier(toks[2].data));
    var abc := BinaryExpr(Remove, ab, Expr.Identifier(toks[4].data));
    assert [] + [a] == [a] && [] + [ab] == [ab] && [] + [abc] == [abc];
    IdentifierPushes(toks, 0, []);
    assert ParseExpr(toks, 0, []) == Done([a], 1);
    AnonymTypeStep(toks, 0, []);
    assert AnonymTypeLoop(toks, 0, []) == AnonymTypeLoop(toks, 1, [a]);
    OperatorThenIdentifier(toks, 1, [], a);
    assert ParseExpr(toks, 1, [a]) == Done([ab], 3);
    AnonymTypeStep(toks, 1, [a]);
    assert AnonymTypeLoop(toks, 1, [a]) == AnonymTypeLoop(toks, 3, [ab]);
    OperatorThenIdentifier(toks, 3, [], ab);
    assert ParseExpr(toks, 3, [ab]) == Done([abc], 5);
    AnonymTypeStep(toks, 3, [ab]);
    assert AnonymTypeLoop(toks, 3, [ab]) == Done([abc], 5);
  }

  // ---------------------------------------------------------------------------
  // Recovery

  /** Recovery skips tokens that are neither `type` nor `;`, and stops before a `type`, just after a
      `;`, or when the cursor reaches the last token. */
  lemma {:induction false} RecoverStops(toks: seq<Token>, cur: nat)
    requires cur <= |toks|
    ensures var c := Recover(toks, cur);
      && (forall k :: cur <= k < c - 1 ==> toks[k].variant != Type && toks[k].variant != Semicolon)
      && (cur < c ==> toks[c - 1].variant != Type)
      && (!IsNotEof(toks, c) || toks[c].variant == Type || (cur < c && toks[c - 1].variant == Semicolon))
      && (IsNotEof(toks, cur) ==> c < |toks|)
    decreases |toks| - cur
  {
    if IsNotEof(toks, cur) && toks[cur].variant != Type && toks[cur].variant != Semicolon {
      RecoverStops(toks, cur + 1);
    }
  }

  /** `type N = x ;` is the declaration of N as the one identifier x. */
  lemma SimpleDeclaration(toks: seq<Token>, cur: nat)
    requires cur + 4 < |toks|
    requires && toks[cur].variant == Type && toks[cur + 1].variant == TokenVariant.Identifier
             && toks[cur + 2].variant == Eq && toks[cur + 3].variant == TokenVariant.Identifier
             && toks[cur + 4].variant == Semicolon
    ensures ParseDeclaration(toks, cur) ==
      Done(TypeDecl(toks[cur + 1].data, [Expr.Identifier(toks[cur + 3].data)]), cur + 5)
  {
    assert [] + [Expr.Identifier(toks[cur + 3].data)] == [Expr.Identifier(toks[cur + 3].data)];
    IdentifierPushes(toks, cur + 3, []);
    AnonymTypeStep(toks, cur + 3, []);
    DeclarationShape(toks, cur);
  }

  /** `type N = ;` fails at the `;`, where an expression was expected, and consumes it. */
  lemma EmptyDeclaration(toks: seq<Token>, cur: nat)
    requires cur + 3 < |toks|
    requires && toks[cur].variant == Type && toks[cur + 1].variant == TokenVariant.Identifier
             && toks[cur + 2].variant == Eq && toks[cur + 3].variant == Semicolon
    ensures ParseDeclaration(toks, cur) ==
      Failed(ParseError(UnexpectedExpressionToken, Some(toks[cur + 3].data)), cur + 4)
  {
    var err := ParseError(UnexpectedExpressionToken, Some(toks[cur + 3].data));
    UnexpectedTokenFails(toks, cur + 3, []);
    assert AnonymTypeLoop(toks, cur + 3, []) == Failed(err, cur + 4);
    assert ParseTypeDeclaration(toks, cur + 1) == Failed(err, cur + 4);
  }

  /** The first failing declaration does not hide the next one: `type A = x; type B = ; type C = y;`
      yields A and C and one error, reported at the `;` where an expression was expected. */
  lemma RecoveryExample(toks: seq<Token>)
    requires |toks| == 14
    requires && toks[0].variant == Type && toks[1].variant == TokenVariant.Identifier && toks[2].variant == Eq
             && toks[3].variant == TokenVariant.Identifier && toks[4].variant == Semicolon
    requires && toks[5].variant == Type && toks[6].variant == TokenVariant.Identifier && toks[7].variant == Eq
             && toks[8].variant == Semicolon
    requires && toks[9].variant == Type && toks[10].variant == TokenVariant.Identifier && toks[11].variant == Eq
             && toks[12].variant == TokenVariant.Identifier && toks[13].variant == Semicolon
    ensures ParseTokens(toks) == Report(
      [TypeDecl(toks[1].data, [Expr.Identifier(toks[3].data)]), TypeDecl(toks[10].data, [Expr.Identifier(toks[12].data)])],
      [ParseError(UnexpectedExpressionToken, Some(toks[8].data))],
      toks)
  {
    var declA := TypeDecl(toks[1].data, [Expr.Identifier(toks[3].data)]);
    var declC := TypeDecl(toks[10].data, [Expr.Identifier(toks[12].data)]);
    var err := ParseError(UnexpectedExpressionToken, Some(toks[8].data));
    assert [] + [declA] == [declA] && [declA] + [declC] == [declA, declC] && [] + [err] == [err];
    SimpleDeclaration(toks, 0);
    EmptyDeclaration(toks, 5);
    assert Recover(toks, 9) == 9;
    SimpleDeclaration(toks, 9);
    LoopStep(toks, 0, [], []);
    LoopStep(toks, 5, [declA], []);
    LoopStep(toks, 9, [declA], [err]);
  }

  /** The loop stops before the last token, so a token after the last `;` is never parsed. */
  lemma TrailingTokenIgnored(toks: seq<Token>)
    requires |toks| == 6
    requires && toks[0].variant == Type && toks[1].variant == TokenVariant.Identifier && toks[2].variant == Eq
             && toks[3].variant == TokenVariant.Identifier && toks[4].variant == Semicolon
    ensures ParseTokens(toks) == Report([TypeDecl(toks[1].data, [Expr.Identifier(toks[3].data)])], [], toks)
  {
    var decl := TypeDecl(toks[1].data, [Expr.Identifier(toks[3].data)]);
    assert [] + [decl] == [decl];
    SimpleDeclaration(toks, 0);
    LoopStep(toks, 0, [], []);
  }

  // ---------------------------------------------------------------------------
  // Structs and enums

  /** The fields loop stops only in front of a `}`, and every field it adds is named by an
      identifier token that a `:` follows. */
  lemma {:induction false} StructLoopShape(toks: seq<Token>, cur: nat, acc: seq<KeyValExpr>)
    requires cur <= |toks|
    ensures var r := StructLoop(toks, cur, acc);
      r.Done? ==>
        && r.cur < |toks| && toks[r.cur].variant == RCurly && acc <= r.value
        && forall i :: |acc| <= i < |r.value| ==>
             exists k :: cur <= k && k + 1 < r.cur && toks[k].variant == TokenVariant.Identifier
               && toks[k + 1].variant == Colon && toks[k].data == r.value[i].key
    decreases |toks| - cur
  {
    var r := StructLoop(toks, cur, acc);
    if r.Done? && !(cur < |toks| && toks[cur].variant == RCurly) {
      var value := ParseAnonymType(toks, cur + 2);
      var acc' := acc + [KeyVal(toks[cur].data, value.value)];
      StructLoopShape(toks, value.cur, acc');
      forall i | |acc| <= i < |r.value|
        ensures exists k :: (cur <= k && k + 1 < r.cur && toks[k].variant == TokenVariant.Identifier
                             && toks[k + 1].variant == Colon && toks[k].data == r.value[i].key)
      {
        if i == |acc| {
          assert r.value[i] == acc'[i];
          assert toks[cur].data == r.value[i].key;
        }
      }
    }
  }

  /** `{ … }` consumes its own `}`, after `Identifier : AnonymType` fields. */
  lemma StructShape(toks: seq<Token>, cur: nat)
    requires cur <= |toks|
    ensures var r := ParseStruct(toks, cur);
      r.Done? ==>
        && toks[r.cur - 1].variant == RCurly
        && forall i :: 0 <= i < |r.value| ==>
             exists k :: cur <= k && k + 1 < r.cur && toks[k].variant == TokenVariant.Identifier
               && toks[k + 1].variant == Colon && toks[k].data == r.value[i].key
  {
    StructLoopShape(toks, cur, []);
  }

  // ---------------------------------------------------------------------------
  // Lists and annotations

  /** `items` are the anonymous types read one after the other from `cur`, the last ending at `end`. */
  ghost predicate ReadsItems(toks: seq<Token>, cur: nat, items: TypeList, end: nat)
    decreases |items|
  {
    if items == [] then cur == end
    else
      cur <= |toks| &&
      var a := ParseAnonymType(toks, cur);
      a.Done? && a.value == items[0] && ReadsItems(toks, a.cur, items[1..], end)
  }

  /** One turn of the list loop: stop in front of `]`, `)` or `;`, or read one anonymous type and go
      on after it. */
  lemma ListLoopStep(toks: seq<Token>, cur: nat, acc: TypeList)
    requires cur <= |toks|
    ensures cur < |toks| && ClosesList(toks[cur].variant) ==> ListLoop(toks, cur, acc) == Done(acc, cur)
    ensures !(cur < |toks| && ClosesList(toks[cur].variant)) ==>
      var a := ParseAnonymType(toks, cur);
      ListLoop(toks, cur, acc) == if a.Done? then ListLoop(toks, a.cur, acc + [a.value]) else a.PropagateFailure()
  {
  }

  /** A list still open at the end of input fails there: the next element finds no token. */
  lemma ListAtEndFails(toks: seq<Token>, acc: TypeList)
    ensures ListLoop(toks, |toks|, acc) == Failed(ParseError(UnexpectedEndOfInput, None), |toks|)
  {
    assert ParseExpr(toks, |toks|, []) == Failed(ParseError(UnexpectedEndOfInput, None), |toks|);
    assert AnonymTypeLoop(toks, |toks|, []) == Failed(ParseError(UnexpectedEndOfInput, None), |toks|);
  }

  /** The list loop stops only in front of `]`, `)` or `;` (never at `}`, never at the end of input),
      and the items it adds are the anonymous types read one after the other up to there. */
  lemma {:induction false} ListLoopShape(toks: seq<Token>, cur: nat, acc: TypeList)
    requires cur <= |toks|
    ensures var r := ListLoop(toks, cur, acc);
      r.Done? ==>
        && r.cur < |toks| && ClosesList(toks[r.cur].variant)
        && acc <= r.value && ReadsItems(toks, cur, r.value[|acc|..], r.cur)
    decreases |toks| - cur
  {
    var r := ListLoop(toks, cur, acc);
    ListLoopStep(toks, cur, acc);
    if r.Done? {
      if cur < |toks| && ClosesList(toks[cur].variant) {
        assert r.value[|acc|..] == [];
      } else {
        var a := ParseAnonymType(toks, cur);
        ListLoopShape(toks, a.cur, acc + [a.value]);
        assert r.value[|acc|..][0] == a.value;
        assert r.value[|acc|..][1..] == r.value[|acc| + 1..];
      }
    }
  }

  /** `parse_list` stops only in front of `]`, `)` or `;`, none of which it consumes, and returns
      the anonymous types it read one after the other up to there. */
  lemma ParseListShape(toks: seq<Token>, cur: nat)
    requires cur <= |toks|
    ensures var r := ParseList(toks, cur);
      r.Done? ==> r.cur < |toks| && ClosesList(toks[r.cur].variant) && ReadsItems(toks, cur, r.value, r.cur)
  {
    ListLoopShape(toks, cur, []);
    var r := ParseList(toks, cur);
    if r.Done? {
      assert r.value[0..] == r.value;
    }
  }

  /** `[ … ]` builds a `List` of the items `parse_list` reads one after the other, and consumes the
      closing `]`. */
  lemma ListFormShape(toks: seq<Token>, cur: nat, tok: Token)
    requires cur <= |toks| && tok.variant == LBracket
    ensures var r := ParseBracketed(toks, cur, tok);
      r.Done? ==>
        && var items := ParseList(toks, cur);
        && items.Done? && items.cur < |toks| && toks[items.cur].variant == RBracket
        && ReadsItems(toks, cur, items.value, items.cur)
        && r == Done(List(items.value), items.cur + 1)
  {
    ParseListShape(toks, cur);
  }

  /** `set [ … ]` expects its `[`, then builds a `Set` of the items `parse_list` reads one after the
      other, and consumes the closing `]`. */
  lemma SetFormShape(toks: seq<Token>, cur: nat, tok: Token)
    requires cur <= |toks| && tok.variant == TokenVariant.Set
    ensures var r := ParseBracketed(toks, cur, tok);
      r.Done? ==>
        && cur < |toks| && toks[cur].variant == LBracket
        && var items := ParseList(toks, cur + 1);
        && items.Done? && items.cur < |toks| && toks[items.cur].variant == RBracket
        && ReadsItems(toks, cur + 1, items.value, items.cur)
        && r == Done(Expr.Set(items.value), items.cur + 1)
  {
    SetArmStep(toks, cur, tok);
    if cur < |toks| {
      ParseListShape(toks, cur + 1);
    }
  }

  /** The `set` arm: a `[`, a list, and its `]`. */
  lemma SetArmStep(toks: seq<Token>, cur: nat, tok: Token)
    requires cur <= |toks| && tok.variant == TokenVariant.Set
    ensures var r := ParseBracketed(toks, cur, tok);
      r.Done? ==>
        && cur < |toks| && toks[cur].variant == LBracket
        && var items := ParseList(toks, cur + 1);
        && items.Done? && items.cur < |toks| && toks[items.cur].variant == RBracket
        && r == Done(Expr.Set(items.value), items.cur + 1)
  {
  }

  /** After the `@`: anything but a name is an error, and a name without a following `(` is the
      annotation with no arguments. */
  lemma AnnotationShape(toks: seq<Token>, cur: nat)
    requires cur <= |toks|
    ensures !(cur < |toks| && toks[cur].variant == TokenVariant.Identifier) ==>
      ParseAnnotation(toks, cur) ==
        if cur < |toks| then Failed(ParseError(ExpectedToken(TokenVariant.Identifier), None), cur + 1)
        else Failed(ParseError(UnexpectedEndOfInput, None), cur)
    ensures cur < |toks| && toks[cur].variant == TokenVariant.Identifier && PeekVariant(toks, cur + 1) != Some(LParen) ==>
      ParseAnnotation(toks, cur) == Done(Annotation(toks[cur].data, []), cur + 1)
  {
  }

  /** `@name(`: the arguments are the items `parse_list` reads one after the other, and the closing
      `)` is consumed. */
  lemma AnnotationArguments(toks: seq<Token>, cur: nat)
    requires cur + 1 < |toks| && toks[cur].variant == TokenVariant.Identifier && toks[cur + 1].variant == LParen
    ensures var r := ParseAnnotation(toks, cur);
      r.Done? ==>
        && var args := ParseList(toks, cur + 2);
        && args.Done? && args.cur < |toks| && toks[args.cur].variant == RParen
        && ReadsItems(toks, cur + 2, args.value, args.cur)
        && r == Done(Annotation(toks[cur].data, args.value), args.cur + 1)
  {
    ArgumentsStep(toks, cur + 2);
    ParseListShape(toks, cur + 2);
  }

  /** The arguments after `(` are a list and then its `)`. */
  lemma ArgumentsStep(toks: seq<Token>, cur: nat)
    requires cur <= |toks|
    ensures var r := ParseArguments(toks, cur);
      r.Done? ==>
        && var args := ParseList(toks, cur);
        && args.Done? && args.cur < |toks| && toks[args.cur].variant == RParen
        && r == Done(args.value, args.cur + 1)
  {
  }

  /** `enum` parses a struct, which consumes its `}`, and then expects another: a successful enum
      ends with two `}` in a row. */
  lemma EnumNeedsTwoBraces(toks: seq<Token>, cur: nat, stack: seq<Expr>)
    requires cur < |toks| && toks[cur].variant == TokenVariant.Enum
    ensures var r := ParseExpr(toks, cur, stack);
      r.Done? ==>
        && cur + 1 < |toks| && toks[cur + 1].variant == LCurly
        && cur + 3 < r.cur && toks[r.cur - 1].variant == RCurly && toks[r.cur - 2].variant == RCurly
  {
    EnumUnfolds(toks, cur, stack);
    if ParseExpr(toks, cur, stack).Done? {
      StructCloses(toks, cur + 2);
    }
  }

  lemma StructCloses(toks: seq<Token>, cur: nat)
    requires cur <= |toks|
    ensures var r := ParseStruct(toks, cur);
      r.Done? ==> cur < r.cur && toks[r.cur - 1].variant == RCurly
  {
  }

  lemma EnumUnfolds(toks: seq<Token>, cur: nat, stack: seq<Expr>)
    requires cur < |toks| && toks[cur].variant == TokenVariant.Enum
    ensures var r := ParseExpr(toks, cur, stack);
      r.Done? ==>
        && cur + 2 <= |toks| && toks[cur + 1].variant == LCurly
        && var f := ParseStruct(toks, cur + 2);
          f.Done? && f.cur < |toks| && toks[f.cur].variant == RCurly && r.cur == f.cur + 1
  {
    OperandUnfolds(toks, cur, stack);
  }

  /** An operand form is parsed by `ParseOperand` and pushed. */
  lemma OperandUnfolds(toks: seq<Token>, cur: nat, stack: seq<Expr>)
    requires cur < |toks| && !IsOperator(toks[cur].variant)
    ensures var e := ParseOperand(toks, cur + 1, toks[cur]);
      ParseExpr(toks, cur, stack) == if e.Done? then Done(stack + [e.value], e.cur) else e.PropagateFailure()
    ensures OpensBracketed(toks[cur].variant) ==>
      ParseOperand(toks, cur + 1, toks[cur]) == ParseBracketed(toks, cur + 1, toks[cur])
  {
  }

  /** `enum { a: b };` is rejected: the one `}` closes the fields and the `;` is not a second `}`. */
  lemma EnumSingleBraceFails(toks: seq<Token>, cur: nat, stack: seq<Expr>)
    requires cur + 6 < |toks|
    requires && toks[cur].variant == TokenVariant.Enum && toks[cur + 1].variant == LCurly
             && toks[cur + 2].variant == TokenVariant.Identifier && toks[cur + 3].variant == Colon
             && toks[cur + 4].variant == TokenVariant.Identifier && toks[cur + 5].variant == RCurly
             && toks[cur + 6].variant == Semicolon
    ensures ParseExpr(toks, cur, stack) == Failed(ParseError(ExpectedToken(RCurly), None), cur + 7)
  {
    var value := [Expr.Identifier(toks[cur + 4].data)];
    IdentifierPushes(toks, cur + 4, []);
    assert [] + value == value;
    AnonymTypeTerminators(toks, cur + 4);
    var field := KeyVal(toks[cur + 2].data, value);
    assert [] + [field] == [field];
    assert StructLoop(toks, cur + 2, []) == StructLoop(toks, cur + 5, [field]);
    assert ParseStruct(toks, cur + 2) == Done([field], cur + 6);
    OperandUnfolds(toks, cur, stack);
  }

  // ---------------------------------------------------------------------------
  // Numbers

  /** A lexeme with a `.` is a float; any other is an `i64` or an error located at the lexeme. */
  lemma NumberConversion(d: TokenData)
    ensures ParseNumber(d).Err? <==> '.' !in d.text && Text.ParseI64(d.text).None?
    ensures ParseNumber(d).Err? ==> ParseNumber(d).error == ParseError(InvalidNumber, Some(d))
    ensures '.' in d.text ==> ParseNumber(d) == Ok(Float(d))
    ensures ParseNumber(d).Ok? && ParseNumber(d).value.Int? ==> Text.ParseI64(d.text) == Some(ParseNumber(d).value.value)
  {
  }

  /** Every `i64`, written in decimal, is read back as itself. */
  lemma IntLiteralRoundTrip(n: Text.I64, d: TokenData)
    requires d.text == Text.ShowInt(n)
    ensures ParseNumber(d) == Ok(Int(n, d))
  {
    Text.ShowIntParses(n);
    if n < 0 {
      Text.ShowNatDigits(-(n as int));
      assert forall k :: 1 <= k < |d.text| ==> d.text[k] == Text.ShowNat(-(n as int))[k - 1];
    } else {
      Text.ShowNatDigits(n);
    }
    assert forall k :: 0 <= k < |d.text| ==> d.text[k] != '.';
  }

  /** A run of digits whose value exceeds the largest `i64` is an error, not a wrapped-around value. */
  lemma OverflowIsError(d: TokenData)
    requires 0 < |d.text| && Text.AllDigits(d.text) && Text.DecimalValue(d.text) > Text.I64Max
    ensures ParseNumber(d) == Err(ParseError(InvalidNumber, Some(d)))
  {
    assert d.text[0] != '.';
  }
}
