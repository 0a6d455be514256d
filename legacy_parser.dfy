/**
 * The legacy parser (src/parser.rs) as the source writes it: a `Parser` object
 * holding the tokens and a `current` cursor that its methods advance.
 *
 * Each method returns the source method's `Result` and leaves the cursor where
 * the matching function of `LegacyParserSpec` says.
 */
module LegacyParser {
  import opened Wrappers
  import opened Text
  import opened LegacyTokens
  import opened LegacyParserSpec
  import A = LegacyAst

  class Parser {
    const tokens: seq<Token>
    var current: nat

    /** `Parser::new`. */
    constructor (tokens: seq<Token>)
      ensures this.tokens == tokens && current == 0
    {
      this.tokens := tokens;
      current := 0;
    }

    function Peek(): Option<Token>
      reads this
    {
      LegacyParserSpec.Peek(tokens, current)
    }

    /** `next`: advances the cursor unconditionally and returns the token it stepped over, if any. */
    method Next() returns (t: Option<Token>)
      modifies this
      ensures current == old(current) + 1 && t == LegacyParserSpec.Peek(tokens, old(current))
    {
      current := current + 1;
      t := if current - 1 < |tokens| then Some(tokens[current - 1]) else None;
    }

    method ParseIdentifier() returns (r: Result<A.Expr, string>)
      modifies this
      ensures Parsed(r, current) == LegacyParserSpec.ParseIdentifier(tokens, old(current))
    {
      var t := Next();
      if t.Some? && t.value.Identifier? {
        return Ok(A.Identifier(t.value.data.text));
      }
      return Err(ExpectedIdentifier);
    }

    method ParseNumber() returns (r: Result<A.Expr, string>)
      modifies this
      ensures Parsed(r, current) == LegacyParserSpec.ParseNumber(tokens, old(current))
    {
      var t := Next();
      if t.Some? && t.value.Number? {
        var number := ParseI64(t.value.data.text);
        if number.None? {
          return Err(InvalidNumber);
        }
        return Ok(A.Number(number.value));
      }
      return Err(ExpectedNumber);
    }

    method ParseList() returns (r: Result<A.Expr, string>)
      requires current < |tokens|
      modifies this
      ensures Parsed(r, current) == LegacyParserSpec.ParseList(tokens, old(current))
      decreases |tokens| - current, 1
    {
      var open := Next();
      var elements := [];
      while Peek().Some?
        invariant old(current) < current <= |tokens|
        invariant LegacyParserSpec.ParseList(tokens, old(current)) == ListLoop(tokens, current, elements)
        decreases |tokens| - current
      {
        if Peek().value.RBracket? {
          var close := Next();
          break;
        }
        var e :- ParseExpr();
        elements := elements + [e];
      }
      return Ok(A.List(elements));
    }

    method ParseStruct() returns (r: Result<A.Expr, string>)
      requires current < |tokens|
      modifies this
      ensures Parsed(r, current) == LegacyParserSpec.ParseStruct(tokens, old(current))
      decreases |tokens| - current, 1
    {
      var open := Next();
      var fields := [];
      while Peek().Some?
        invariant old(current) < current <= |tokens|
        invariant LegacyParserSpec.ParseStruct(tokens, old(current)) == StructLoop(tokens, current, fields)
        decreases |tokens| - current
      {
        match Peek().value
        case RCurly(_) =>
          var close := Next();
          break;
        case Identifier(_) =>
          // The token under the cursor is an identifier, so this cannot fail.
          var fieldName := ParseIdentifier();
          if !(Peek().Some? && Peek().value.Colon?) {
            return Err(ExpectedColon);
          }
          var colon := Next();
          var fieldValue :- ParseExpr();
          fields := fields + [(A.Show(fieldName.value), fieldValue)];
        case _ =>
          return Err(ExpectedFieldName);
      }
      return Ok(A.Struct(fields));
    }

    method ParseExpr() returns (r: Result<A.Expr, string>)
      modifies this
      ensures Parsed(r, current) == LegacyParserSpec.ParseExpr(tokens, old(current))
      decreases |tokens| - current, 2
    {
      match Peek()
      case Some(Identifier(_)) => r := ParseIdentifier();
      case Some(Number(_, _)) => r := ParseNumber();
      case Some(LBracket(_)) => r := ParseList();
      case Some(LCurly(_)) => r := ParseStruct();
      case _ => r := Err(UnexpectedToken);
    }

    method ParseTypeDefinition() returns (r: Result<A.Expr, string>)
      modifies this
      ensures Parsed(r, current) == LegacyParserSpec.ParseTypeDefinition(tokens, old(current))
    {
      if !(Peek().Some? && Peek().value.Type?) {
        return Err(ExpectedType);
      }
      var keyword := Next();
      var typeName :- ParseIdentifier();
      if !(Peek().Some? && Peek().value.Eq?) {
        return Err(ExpectedEq);
      }
      var eq := Next();
      var typeValue :- ParseExpr();
      match typeName
      case Identifier(name) => return Ok(A.TypeDef(name, typeValue));
      case _ => return Err(InvalidTypeName);
    }

    /** `parse`: type definitions until `EOF` is under the cursor, returning the first error. */
    method Parse() returns (r: Result<seq<A.Expr>, string>)
      modifies this
      ensures Parsed(r, current) == ParseFrom(tokens, old(current), [])
    {
      var ast := [];
      while Peek() != Some(EOF)
        invariant ParseFrom(tokens, old(current), []) == ParseFrom(tokens, current, ast)
        decreases |tokens| - current
      {
        var d :- ParseTypeDefinition();
        ast := ast + [d];
      }
      return Ok(ast);
    }
  }
}
