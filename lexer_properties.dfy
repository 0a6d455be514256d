/**
 * Properties of the current lexer (app/src/lexer/lexer.rs), stated against
 * reference definitions that do not mention the scanning functions: the keyword
 * and operator tables, the shape `D+(.D+)?` of a number, and a grammar of layout.
 */
module LexerProperties {
  import opened Wrappers
  import opened Source
  import opened Tokens
  import opened Lexer

  // ---------------------------------------------------------------------------
  // Words

  /** The five keywords and the variant each one is given. */
  const Keywords: map<string, TokenVariant> :=
    map["type" := Type, "set" := Set, "enum" := Enum, "true" := True, "false" := False]

  /** A word is the longest run of word characters from a letter or `_`, located at its start,
      and it is a keyword exactly when its text is one. */
  lemma WordToken(src: string, i: nat)
    requires i < |src| && IsWordStart(src[i])
    ensures StepAt(src, i).Emit?
    ensures var s := StepAt(src, i);
      && s.token.data == DataAt(src, i, s.next)
      && (forall k :: i <= k < s.next ==> IsWordChar(src[k]))
      && (s.next == |src| || !IsWordChar(src[s.next]))
      && s.token.variant == (if s.token.data.text in Keywords then Keywords[s.token.data.text] else Identifier)
  {
  }

  // ---------------------------------------------------------------------------
  // Numbers

  /** `D+(.D+)?`: digits, at most one `.`, and a digit at both ends. */
  predicate IsNumberShape(s: string)
  {
    && 0 < |s| && IsDigit(s[0]) && IsDigit(s[|s| - 1])
    && (forall k :: 0 <= k < |s| ==> IsDigit(s[k]) || s[k] == '.')
    && (forall j, k :: 0 <= j < k < |s| && s[j] == '.' ==> s[k] != '.')
  }

  /** What `consume_number` has read when it stands at `p`: a digit first, digits and at most one
      `.` after it, `hasDot` recording whether the `.` was taken, and a taken `.` always followed
      by a digit. */
  ghost predicate NumberPrefix(src: string, i: nat, p: nat, hasDot: bool)
  {
    && i < p <= |src| && IsDigit(src[i])
    && (forall k :: i <= k < p ==> IsDigit(src[k]) || src[k] == '.')
    && (forall j, k :: i <= j < k < p && src[j] == '.' ==> src[k] != '.')
    && (hasDot <==> exists k :: i <= k < p && src[k] == '.')
    && (IsDigit(src[p - 1]) || (p < |src| && IsDigit(src[p])))
  }

  lemma {:induction false} NumberEndLongest(src: string, i: nat, p: nat, hasDot: bool)
    requires NumberPrefix(src, i, p, hasDot)
    ensures var e := NumberEnd(src, p, hasDot);
      IsNumberShape(src[i..e]) && forall j :: e < j <= |src| ==> !IsNumberShape(src[i..j])
    decreases |src| - p
  {
    if p < |src| && IsDigit(src[p]) {
      NumberEndLongest(src, i, p + 1, hasDot);
    } else if p + 1 < |src| && src[p] == '.' && !hasDot && IsDigit(src[p + 1]) {
      assert src[p] == '.';
      NumberEndLongest(src, i, p + 1, true);
    } else {
      assert NumberEnd(src, p, hasDot) == p;
      forall j | p < j <= |src|
        ensures !IsNumberShape(src[i..j])
      {
        var s := src[i..j];
        assert s[p - i] == src[p];
        if src[p] == '.' {
          if hasDot {
            var k :| i <= k < p && src[k] == '.';
            assert s[k - i] == '.';
          } else if j == p + 1 {
            assert s[|s| - 1] == '.';
          } else {
            assert s[p + 1 - i] == src[p + 1];
          }
        }
      }
    }
  }

  /** A number token is the longest prefix of the input at its start that has the shape
      `D+(.D+)?`; so `1..5` starts with the number `1` and `1.` with the number `1`. */
  lemma NumberLongest(src: string, i: nat)
    requires i < |src| && IsDigit(src[i])
    ensures StepAt(src, i).Emit? && StepAt(src, i).token.variant == Number
    ensures var s := StepAt(src, i);
      && s.token.data == DataAt(src, i, s.next)
      && IsNumberShape(src[i..s.next])
      && forall j :: s.next < j <= |src| ==> !IsNumberShape(src[i..j])
  {
    assert NumberEnd(src, i, false) == NumberEnd(src, i + 1, false);
    NumberEndLongest(src, i, i + 1, false);
  }

  // ---------------------------------------------------------------------------
  // Operators

  /** The operator lexemes that start with `.`, `<` or `!`, and their variants. */
  const Operators: map<string, TokenVariant> :=
    map["." := Dot, ".." := Range, ".<" := Range,
        "<" := Lt, "<." := Range, "<.<" := Range, "<>" := SymmDiff,
        "!" := Not, "!=" := Neq]

  /** At `.`, `<` or `!` the lexer takes the longest lexeme of the operator table, and the token's
      text is exactly the characters consumed. */
  lemma OperatorLongest(src: string, i: nat)
    requires i < |src| && (src[i] == '.' || src[i] == '<' || src[i] == '!')
    ensures StepAt(src, i).Emit?
    ensures var s := StepAt(src, i);
      && s.token.data == DataAt(src, i, s.next)
      && s.token.data.text in Operators
      && Operators[s.token.data.text] == s.token.variant
      && forall j :: s.next < j <= |src| ==> src[i..j] !in Operators
  {
    var ve := if src[i] == '!' then NotOrNeq(src, i) else RangeLtDotSymmDiff(src, i);
    assert StepAt(src, i) == OperatorStep(src, i, ve);
    if src[i] == '.' {
      DotLongest(src, i);
    } else if src[i] == '<' {
      LtLongest(src, i);
    } else {
      BangLongest(src, i);
    }
  }

  /** The lexemes of the operator table. */
  lemma OperatorKeys(w: string)
    ensures w in Operators <==>
      || w == "." || w == ".." || w == ".<"
            || w == "<" || w == "<." || w == "<.<" || w == "<>"
            || w == "!" || w == "!="
  {
  }

  /** The lexeme taken at `.` is the longest one of the table starting there. */
  lemma DotLongest(src: string, i: nat)
    requires i < |src| && src[i] == '.'
    ensures var ve := RangeLtDotSymmDiff(src, i);
      && src[i..ve.1] in Operators && Operators[src[i..ve.1]] == ve.0
      && forall j :: ve.1 < j <= |src| ==> src[i..j] !in Operators
  {
    var ve := RangeLtDotSymmDiff(src, i);
    if ve.1 == i + 2 {
      assert src[i..ve.1] == [src[i], src[i + 1]];
    } else {
      assert src[i..ve.1] == ".";
    }
    forall j | ve.1 < j <= |src|
      ensures src[i..j] !in Operators
    {
      var w := src[i..j];
      OperatorKeys(w);
      assert w[0] == '.' && w[1] == src[i + 1];
    }
  }

  /** The lexeme taken at `<` is the longest one of the table starting there. */
  lemma LtLongest(src: string, i: nat)
    requires i < |src| && src[i] == '<'
    ensures var ve := RangeLtDotSymmDiff(src, i);
      && src[i..ve.1] in Operators && Operators[src[i..ve.1]] == ve.0
      && forall j :: ve.1 < j <= |src| ==> src[i..j] !in Operators
  {
    var ve := RangeLtDotSymmDiff(src, i);
    if ve.1 == i + 3 {
      assert src[i..ve.1] == "<.<";
    } else if ve.1 == i + 2 {
      assert src[i..ve.1] == [src[i], src[i + 1]];
    } else {
      assert src[i..ve.1] == "<";
    }
    forall j | ve.1 < j <= |src|
      ensures src[i..j] !in Operators
    {
      var w := src[i..j];
      OperatorKeys(w);
      assert w[0] == '<' && w[1] == src[i + 1];
      if |w| == 3 {
        assert w[2] == src[i + 2];
      }
    }
  }

  /** The lexeme taken at `!` is the longest one of the table starting there. */
  lemma BangLongest(src: string, i: nat)
    requires i < |src| && src[i] == '!'
    ensures var ve := NotOrNeq(src, i);
      && src[i..ve.1] in Operators && Operators[src[i..ve.1]] == ve.0
      && forall j :: ve.1 < j <= |src| ==> src[i..j] !in Operators
  {
    var ve := NotOrNeq(src, i);
    if ve.1 == i + 2 {
      assert src[i..ve.1] == "!=";
    } else {
      assert src[i..ve.1] == "!";
    }
    forall j | ve.1 < j <= |src|
      ensures src[i..j] !in Operators
    {
      var w := src[i..j];
      OperatorKeys(w);
      assert w[0] == '!' && w[1] == src[i + 1];
    }
  }

  // ---------------------------------------------------------------------------
  // Strings, regexes and comments

  /** A string runs from its opening quote to the next quote inclusive, with no escapes; without a
      closing quote lexing fails at the opening one. */
  lemma StringToken(src: string, i: nat)
    requires i < |src| && src[i] == '"'
    ensures var s := StepAt(src, i);
      if exists k :: i < k < |src| && src[k] == '"' then
        && s.Emit? && s.token.variant == String && s.token.data == DataAt(src, i, s.next)
        && src[s.next - 1] == '"' && i + 1 < s.next
        && forall k :: i < k < s.next - 1 ==> src[k] != '"'
      else
        s == Reject(LexError(StringNotTerminated, LocAt(src, i)))
  {
  }

  /** After a `/` not followed by `/`, a regex runs to the next `/` inclusive; without one lexing
      fails at the opening `/`. */
  lemma RegexToken(src: string, i: nat)
    requires i < |src| && src[i] == '/' && !(i + 1 < |src| && src[i + 1] == '/')
    ensures var s := StepAt(src, i);
      if exists k :: i < k < |src| && src[k] == '/' then
        && s.Emit? && s.token.variant == Regex && s.token.data == DataAt(src, i, s.next)
        && src[s.next - 1] == '/' && i + 1 < s.next
        && forall k :: i < k < s.next - 1 ==> src[k] != '/'
      else
        s == Reject(LexError(MalformedRegex, LocAt(src, i)))
  {
  }

  /** Whitespace produces no token, and `//` is skipped through the next newline or to the end of
      input. */
  lemma LayoutSkipped(src: string, i: nat)
    requires i < |src|
    ensures IsWhitespace(src[i]) ==> StepAt(src, i) == Skip(i + 1)
    ensures i + 1 < |src| && src[i] == '/' && src[i + 1] == '/' ==>
      var n := StepAt(src, i).next;
      && StepAt(src, i).Skip?
      && (forall k :: i + 2 <= k < n - 1 ==> src[k] != '\n')
      && (n == |src| || src[n - 1] == '\n')
  {
  }

  // ---------------------------------------------------------------------------
  // Errors

  /** The characters that start some lexeme or layout. */
  predicate Recognized(c: char)
  {
    IsWhitespace(c) || IsWordStart(c) || IsDigit(c) || SingleCharVariant(c).Some?
    || c == '"' || c == '.' || c == '<' || c == '!' || c == '/'
  }

  /** One step fails exactly for an unrecognised character, an unterminated string, or a `/` that
      starts neither a comment nor a terminated regex, and the error is located at that character. */
  lemma StepRejects(src: string, i: nat)
    requires i < |src|
    ensures StepAt(src, i).Reject? <==>
      || !Recognized(src[i])
      || (src[i] == '"' && forall k :: i < k < |src| ==> src[k] != '"')
      || (src[i] == '/' && !(i + 1 < |src| && src[i + 1] == '/') && forall k :: i < k < |src| ==> src[k] != '/')
    ensures StepAt(src, i).Reject? ==> StepAt(src, i).error.loc == LocAt(src, i)
    ensures StepAt(src, i).Reject? && !Recognized(src[i]) ==> StepAt(src, i).error.kind == NotRecognized
  {
  }

  /** When lexing fails, the error is that of the first failing step, reported at the location of
      the offending character; no tokens are returned. (The legacy lexer's `LexErrorSite` is the same
      lemma: the two `tokenize` loops are written alike.) */
  lemma {:induction false} LexErrorSite(src: string, i: nat)
    requires i <= |src|
    ensures LexFrom(src, i).Err? ==>
      var e := LexFrom(src, i).error;
      i <= e.loc.index < |src| && StepAt(src, e.loc.index) == Reject(e) && e.loc == LocAt(src, e.loc.index)
    decreases |src| - i
  {
    if i < |src| {
      match StepAt(src, i)
      case Skip(n) => LexErrorSite(src, n);
      case Emit(t, n) => LexErrorSite(src, n);
      case Reject(e) => LocAtCounts(src, i);
    }
  }

  // ---------------------------------------------------------------------------
  // Tokens and layout tile the input

  /** `src[a..b]` is layout: whitespace and `//` comments, each comment ending by `b`. */
  ghost predicate Layout(src: string, a: nat, b: nat)
    requires a <= b <= |src|
    decreases b - a
  {
    || a == b
    || (IsWhitespace(src[a]) && Layout(src, a + 1, b))
    || (a + 1 < b && src[a] == '/' && src[a + 1] == '/' && LineEnd(src, a + 2) <= b
        && Layout(src, LineEnd(src, a + 2), b))
  }

  /** The input from `i` on is the tokens `ts` in order, each an exact slice of the input at its
      own location, separated by layout. */
  ghost predicate Tiles(src: string, i: nat, ts: seq<Token>)
    requires i <= |src|
    decreases |ts|
  {
    if ts == [] then Layout(src, i, |src|)
    else
      var d := ts[0].data;
      && SliceOf(src, d)
      && i <= d.start
      && Layout(src, i, d.start)
      && Tiles(src, d.End(), ts[1..])
  }

  lemma EmitIsSlice(src: string, i: nat)
    requires i < |src| && StepAt(src, i).Emit?
    ensures StepAt(src, i).token.data == DataAt(src, i, StepAt(src, i).next)
  {
  }

  lemma {:induction false} SkipExtendsLayout(src: string, i: nat, b: nat)
    requires i < |src| && StepAt(src, i).Skip? && StepAt(src, i).next <= b <= |src|
    requires Layout(src, StepAt(src, i).next, b)
    ensures Layout(src, i, b)
  {
  }

  lemma {:induction false} SkipExtendsTiles(src: string, i: nat, ts: seq<Token>)
    requires i < |src| && StepAt(src, i).Skip?
    requires Tiles(src, StepAt(src, i).next, ts)
    ensures Tiles(src, i, ts)
  {
    if ts == [] {
      SkipExtendsLayout(src, i, |src|);
    } else {
      SkipExtendsLayout(src, i, ts[0].data.start);
    }
  }

  /** Successful lexing from `i` accounts for every character from `i` on. */
  lemma {:induction false} LexTiles(src: string, i: nat)
    requires i <= |src|
    ensures LexFrom(src, i).Ok? ==> Tiles(src, i, LexFrom(src, i).value)
    decreases |src| - i
  {
    if i < |src| {
      match StepAt(src, i)
      case Skip(n) =>
        LexTiles(src, n);
        if LexFrom(src, n).Ok? {
          SkipExtendsTiles(src, i, LexFrom(src, n).value);
        }
      case Emit(t, n) =>
        LexTiles(src, n);
        EmitIsSlice(src, i);
        if LexFrom(src, n).Ok? {
          var ts := [t] + LexFrom(src, n).value;
          assert ts[1..] == LexFrom(src, n).value;
        }
      case Reject(_) =>
    }
  }

  lemma {:induction false} TilesOrdered(src: string, i: nat, ts: seq<Token>)
    requires i <= |src| && Tiles(src, i, ts)
    ensures forall k :: 0 <= k < |ts| ==> SliceOf(src, ts[k].data) && i <= ts[k].data.start
    ensures forall k :: 0 <= k < |ts| - 1 ==> ts[k].data.End() <= ts[k + 1].data.start
    decreases |ts|
  {
    if ts != [] {
      TilesOrdered(src, ts[0].data.End(), ts[1..]);
      forall k | 0 < k < |ts|
        ensures SliceOf(src, ts[k].data) && i <= ts[k].data.start
      {
        assert ts[k] == ts[1..][k - 1];
      }
      forall k | 0 <= k < |ts| - 1
        ensures ts[k].data.End() <= ts[k + 1].data.start
      {
        if k > 0 {
          assert ts[k] == ts[1..][k - 1];
        }
        assert ts[k + 1] == ts[1..][k];
      }
    }
  }

  /** On success, `tokenize` returns tokens in increasing source order, each text the exact slice
      `src[start..end]` at its line and column, with only layout between and around them. */
  lemma TokenizeTiles(src: string)
    ensures Tokenize(src).Ok? ==>
      var ts := Tokenize(src).value;
      && Tiles(src, 0, ts)
      && (forall k :: 0 <= k < |ts| ==> SliceOf(src, ts[k].data))
      && (forall k :: 0 <= k < |ts| - 1 ==> ts[k].data.End() <= ts[k + 1].data.start)
  {
    LexTiles(src, 0);
    if Tokenize(src).Ok? {
      TilesOrdered(src, 0, Tokenize(src).value);
    }
  }

  // ---------------------------------------------------------------------------
  // Examples

  /** A number takes a `.` only when a digit follows, so `1..5` is a range between two numbers. */
  lemma RangeBetweenNumbers()
    ensures Tokenize("1..5") == Ok([
      Token(Number, TokenData("1", 0, 1, 1)),
      Token(Range, TokenData("..", 1, 1, 2)),
      Token(Number, TokenData("5", 3, 1, 4))])
  {
    var src := "1..5";
    assert NumberEnd(src, 0, false) == 1;
    assert StepAt(src, 0) == Emit(Token(Number, TokenData("1", 0, 1, 1)), 1);
    assert StepAt(src, 1) == Emit(Token(Range, TokenData("..", 1, 1, 2)), 3);
    assert NumberEnd(src, 3, false) == 4;
    assert StepAt(src, 3) == Emit(Token(Number, TokenData("5", 3, 1, 4)), 4);
    var t5 := Token(Number, TokenData("5", 3, 1, 4));
    assert LexFrom(src, 4) == Ok([]);
    assert [t5] + [] == [t5];
    assert LexFrom(src, 3) == Ok([t5]);
    var tr := Token(Range, TokenData("..", 1, 1, 2));
    assert LexFrom(src, 1) == Ok([tr] + [t5]);
    var t1 := Token(Number, TokenData("1", 0, 1, 1));
    assert [t1] + ([tr] + [t5]) == [t1, tr, t5];
    assert LexFrom(src, 0) == Ok([t1, tr, t5]);
  }

  lemma TrailingDot()
    ensures Tokenize("1.") == Ok([Token(Number, TokenData("1", 0, 1, 1)), Token(Dot, TokenData(".", 1, 1, 2))])
  {
    var src := "1.";
    assert NumberEnd(src, 0, false) == 1;
    assert StepAt(src, 0) == Emit(Token(Number, TokenData("1", 0, 1, 1)), 1);
    assert StepAt(src, 1) == Emit(Token(Dot, TokenData(".", 1, 1, 2)), 2);
    var td := Token(Dot, TokenData(".", 1, 1, 2));
    assert LexFrom(src, 2) == Ok([]);
    assert [td] + [] == [td];
    assert LexFrom(src, 1) == Ok([td]);
    var t1 := Token(Number, TokenData("1", 0, 1, 1));
    assert [t1] + [td] == [t1, td];
    assert LexFrom(src, 0) == Ok([t1, td]);
  }

  lemma CommentThenKeyword()
    ensures Tokenize("// c\ntype") == Ok([Token(Type, TokenData("type", 5, 2, 1))])
  {
    var src := "// c\ntype";
    assert LineEnd(src, 2) == 5;
    assert StepAt(src, 0) == Skip(5);
    assert WordEnd(src, 6) == 9;
    assert LocAt(src, 5) == Loc(5, 2, 1);
    assert src[5..9] == "type";
    var tt := Token(Type, TokenData("type", 5, 2, 1));
    assert StepAt(src, 5) == Emit(tt, 9);
    assert LexFrom(src, 9) == Ok([]);
    assert [tt] + [] == [tt];
    assert LexFrom(src, 5) == Ok([tt]);
  }
}
