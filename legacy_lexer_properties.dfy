/**
 * Properties of the legacy lexer (src/lexer.rs): where it differs from the
 * current one (keywords, numbers, `.` and `<`, the final `EOF`) and what it
 * shares with it (layout, strings, regexes, errors, tokens as slices).
 */
module LegacyLexerProperties {
  import opened Wrappers
  import opened Source
  import opened LegacyTokens
  import opened LegacyLexer
  import LexerProperties

  // ---------------------------------------------------------------------------
  // The end marker

  /** A successful lexing ends with exactly one `EOF`, and no other token is `EOF`. */
  lemma {:induction false} EndsWithEOF(src: string, i: nat)
    requires i <= |src|
    ensures LexFrom(src, i).Ok? ==> EndsWithOneEOF(LexFrom(src, i).value)
    decreases |src| - i
  {
    if i < |src| {
      var s := StepAt(src, i);
      if s.Skip? {
        EndsWithEOF(src, s.next);
      } else if s.Emit? {
        EndsWithEOF(src, s.next);
        StepNeverEOF(src, i);
        if LexFrom(src, s.next).Ok? {
          PrependKeepsOneEOF(s.token, LexFrom(src, s.next).value);
        }
      }
    }
  }

  /** `ts` ends with `EOF` and holds no other `EOF`. */
  predicate EndsWithOneEOF(ts: seq<Token>)
  {
    0 < |ts| && ts[|ts| - 1] == EOF && forall k :: 0 <= k < |ts| - 1 ==> ts[k] != EOF
  }

  /** No step of the lexer emits `EOF`. */
  lemma StepNeverEOF(src: string, i: nat)
    requires i < |src|
    ensures StepAt(src, i).Emit? ==> StepAt(src, i).token != EOF
  {
  }

  lemma PrependKeepsOneEOF(t: Token, rest: seq<Token>)
    requires t != EOF && EndsWithOneEOF(rest)
    ensures EndsWithOneEOF([t] + rest)
  {
    forall k | 0 < k < |rest| + 1
      ensures ([t] + rest)[k] == rest[k - 1]
    {
    }
  }

  // ---------------------------------------------------------------------------
  // Words

  /** A word is the longest run of word characters from a letter or `_`, located at its start; it is
      `type` or `set` exactly when its text is one of them, and an identifier otherwise (so `enum`,
      `true` and `false` are identifiers here). */
  lemma WordToken(src: string, i: nat)
    requires i < |src| && IsWordStart(src[i])
    ensures StepAt(src, i).Emit?
    ensures var s := StepAt(src, i);
      && s.token.data == DataAt(src, i, s.next)
      && (forall k :: i <= k < s.next ==> IsWordChar(src[k]))
      && (s.next == |src| || !IsWordChar(src[s.next]))
      && (s.token.Type? <==> s.token.data.text == "type")
      && (s.token.Set? <==> s.token.data.text == "set")
      && (s.token.Identifier? <==> s.token.data.text != "type" && s.token.data.text != "set")
  {
  }

  // ---------------------------------------------------------------------------
  // Numbers

  /** A number is the longest run of digits and dots from a digit, with any number of dots; it is a
      64-bit float exactly when a dot occurs, otherwise an unsigned-flagged 64-bit integer. */
  lemma NumberGreedy(src: string, i: nat)
    requires i < |src| && IsDigit(src[i])
    ensures StepAt(src, i).Emit? && StepAt(src, i).token.Number?
    ensures var s := StepAt(src, i);
      && s.token.data == DataAt(src, i, s.next)
      && (forall k :: i <= k < s.next ==> IsDigit(src[k]) || src[k] == '.')
      && (s.next == |src| || !(IsDigit(src[s.next]) || src[s.next] == '.'))
      && s.token.kind == (if exists k :: i <= k < s.next && src[k] == '.' then Float(64) else Int(false, 64))
  {
    var s := StepAt(src, i);
    if exists k :: i <= k < s.next && src[k] == '.' {
      var k :| i <= k < s.next && src[k] == '.';
      assert src[i..s.next][k - i] == '.';
    }
  }

  // ---------------------------------------------------------------------------
  // Operators

  /** `.` is always a one-character dot; `<>` is a symmetric difference and any other `<` a
      one-character less-than; `!=` is an inequality and any other `!` a one-character negation. */
  lemma Operators(src: string, i: nat)
    requires i < |src|
    ensures src[i] == '.' ==> StepAt(src, i) == Emit(Dot(DataAt(src, i, i + 1)), i + 1)
    ensures src[i] == '<' && i + 1 < |src| && src[i + 1] == '>' ==>
      StepAt(src, i) == Emit(SymmDiff(DataAt(src, i, i + 2)), i + 2)
    ensures src[i] == '<' && !(i + 1 < |src| && src[i + 1] == '>') ==>
      StepAt(src, i) == Emit(Lt(DataAt(src, i, i + 1)), i + 1)
    ensures src[i] == '!' && i + 1 < |src| && src[i + 1] == '=' ==>
      StepAt(src, i) == Emit(Neq(DataAt(src, i, i + 2)), i + 2)
    ensures src[i] == '!' && !(i + 1 < |src| && src[i + 1] == '=') ==>
      StepAt(src, i) == Emit(Not(DataAt(src, i, i + 1)), i + 1)
  {
  }

  // ---------------------------------------------------------------------------
  // Strings, regexes, comments and errors

  /** A string runs from its opening quote to the next quote inclusive, with no escapes; without a
      closing quote lexing fails at the opening one. */
  lemma StringToken(src: string, i: nat)
    requires i < |src| && src[i] == '"'
    ensures var s := StepAt(src, i);
      if exists k :: i < k < |src| && src[k] == '"' then
        && s.Emit? && s.token.String? && s.token.data == DataAt(src, i, s.next)
        && src[s.next - 1] == '"' && i + 1 < s.next
        && forall k :: i < k < s.next - 1 ==> src[k] != '"'
      else
        s == Reject(LexError(StringNotTerminated, LocAt(src, i)))
  {
  }

  /** After a `/` not followed by `/`, a regex runs to the next `/` inclusive; without one lexing
      fails at the opening `/`. */
  lemma RegexToken(src: string, i: nat)
    requires i < |src| && src[i] == '/' && !(i + 1 < |src| && src[i + 1] == '/')
    ensures var s := StepAt(src, i);
      if exists k :: i < k < |src| && src[k] == '/' then
        && s.Emit? && s.token.Regex? && s.token.data == DataAt(src, i, s.next)
        && src[s.next - 1] == '/' && i + 1 < s.next
        && forall k :: i < k < s.next - 1 ==> src[k] != '/'
      else
        s == Reject(LexError(MalformedRegex, LocAt(src, i)))
  {
  }

  /** The characters that start some lexeme or layout. */
  predicate Recognized(c: char)
  {
    IsWhitespace(c) || IsWordStart(c) || IsDigit(c) || c == '"' || c == '<' || c == '!' || c == '/'
    || c in "@:$|&.(),{}[]>;+-*^=\\"
  }

  /** One step fails exactly for an unrecognised character, an unterminated string, or a `/` that
      starts neither a comment nor a terminated regex, and the error is located at that character. */
  lemma StepRejects(src: string, i: nat)
    requires i < |src|
    ensures StepAt(src, i).Reject? <==>
      || !Recognized(src[i])
      || (src[i] == '"' && forall k :: i < k < |src| ==> src[k] != '"')
      || (src[i] == '/' && !(i + 1 < |src| && src[i + 1] == '/') && forall k :: i < k < |src| ==> src[k] != '/')
    ensures StepAt(src, i).Reject? ==> StepAt(src, i).error.loc == LocAt(src, i)
    ensures StepAt(src, i).Reject? && !Recognized(src[i]) ==> StepAt(src, i).error.kind == NotRecognized
  {
  }

  /** When lexing fails, the error is that of the first failing step, at the location of the
      offending character. */
  lemma {:induction false} LexErrorSite(src: string, i: nat)
    requires i <= |src|
    ensures LexFrom(src, i).Err? ==>
      var e := LexFrom(src, i).error;
      i <= e.loc.index < |src| && StepAt(src, e.loc.index) == Reject(e) && e.loc == LocAt(src, e.loc.index)
    decreases |src| - i
  {
    if i < |src| {
      match StepAt(src, i)
      case Skip(n) => LexErrorSite(src, n);
      case Emit(t, n) => LexErrorSite(src, n);
      case Reject(e) => LocAtCounts(src, i);
    }
  }

  // ---------------------------------------------------------------------------
  // Tokens and layout tile the input

  /** The input from `i` on is the tokens before `EOF`, in order, each an exact slice of the input
      at its own location, separated by layout (whitespace and `//` comments). */
  ghost predicate Tiles(src: string, i: nat, ts: seq<Token>)
    requires i <= |src|
    decreases |ts|
  {
    if ts == [] then false
    else if ts[0] == EOF then ts == [EOF] && LexerProperties.Layout(src, i, |src|)
    else
      var d := ts[0].data;
      && SliceOf(src, d)
      && i <= d.start
      && LexerProperties.Layout(src, i, d.start)
      && Tiles(src, d.End(), ts[1..])
  }

  lemma {:induction false} SkipExtendsLayout(src: string, i: nat, b: nat)
    requires i < |src| && StepAt(src, i).Skip? && StepAt(src, i).next <= b <= |src|
    requires LexerProperties.Layout(src, StepAt(src, i).next, b)
    ensures LexerProperties.Layout(src, i, b)
  {
  }

  /** An emitted token is never `EOF` and its data is the slice it was read from. */
  lemma EmitIsSlice(src: string, i: nat)
    requires i < |src| && StepAt(src, i).Emit?
    ensures var s := StepAt(src, i);
      s.token != EOF && s.token.data == DataAt(src, i, s.next) && SliceOf(src, s.token.data)
  {
  }

  lemma EmitExtendsTiles(src: string, i: nat, rest: seq<Token>)
    requires i < |src| && StepAt(src, i).Emit?
    requires Tiles(src, StepAt(src, i).next, rest)
    ensures Tiles(src, i, [StepAt(src, i).token] + rest)
  {
    EmitIsSlice(src, i);
    var ts := [StepAt(src, i).token] + rest;
    assert ts[1..] == rest;
  }

  lemma SkipExtendsTiles(src: string, i: nat, rest: seq<Token>)
    requires i < |src| && StepAt(src, i).Skip?
    requires Tiles(src, StepAt(src, i).next, rest)
    ensures Tiles(src, i, rest)
  {
    if rest[0] == EOF {
      SkipExtendsLayout(src, i, |src|);
    } else {
      SkipExtendsLayout(src, i, rest[0].data.start);
    }
  }

  /** Successful lexing from `i` accounts for every character from `i` on. */
  lemma {:induction false} LexTiles(src: string, i: nat)
    requires i <= |src|
    ensures LexFrom(src, i).Ok? ==> Tiles(src, i, LexFrom(src, i).value)
    decreases |src| - i
  {
    if i < |src| {
      var s := StepAt(src, i);
      if !s.Reject? {
        LexTiles(src, s.next);
        if LexFrom(src, s.next).Ok? {
          if s.Skip? {
            SkipExtendsTiles(src, i, LexFrom(src, s.next).value);
          } else {
            EmitExtendsTiles(src, i, LexFrom(src, s.next).value);
          }
        }
      }
    }
  }

  /** On success, `tokenize` returns the tokens in increasing source order, each text the exact
      slice at its line and column, with only layout between them, and then `EOF`. */
  lemma TokenizeTiles(src: string)
    ensures Tokenize(src).Ok? ==> Tiles(src, 0, Tokenize(src).value)
  {
    LexTiles(src, 0);
  }

  // ---------------------------------------------------------------------------
  // Examples

  /** `1..5` is one float number: the legacy lexer has no range operator. */
  lemma RangeIsOneNumber()
    ensures Tokenize("1..5") == Ok([Number(TokenData("1..5", 0, 1, 1), Float(64)), EOF])
  {
    var src := "1..5";
    assert NumberEnd(src, 0) == 4;
    assert src[0..4] == src && src[1] == '.';
    assert DataAt(src, 0, 4) == TokenData("1..5", 0, 1, 1);
    var t := Number(TokenData("1..5", 0, 1, 1), Float(64));
    assert StepAt(src, 0) == Emit(t, 4);
    assert LexFrom(src, 4) == Ok([EOF]);
    assert [t] + [EOF] == [t, EOF];
  }

  /** `enum` is an identifier, not a keyword. */
  lemma EnumIsIdentifier()
    ensures Tokenize("enum") == Ok([Identifier(TokenData("enum", 0, 1, 1)), EOF])
  {
    var src := "enum";
    assert WordEnd(src, 1) == 4;
    assert src[0..4] == src;
    assert DataAt(src, 0, 4) == TokenData("enum", 0, 1, 1);
    var t := Identifier(TokenData("enum", 0, 1, 1));
    assert StepAt(src, 0) == Emit(t, 4);
    assert LexFrom(src, 4) == Ok([EOF]);
    assert [t] + [EOF] == [t, EOF];
  }

  /** Empty input is just the end marker. */
  lemma EmptyInput()
    ensures Tokenize("") == Ok([EOF])
  {
  }
}
