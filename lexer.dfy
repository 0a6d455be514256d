/**
 * The current lexer (app/src/lexer/lexer.rs): a cursor over the source that
 * tracks index, line and column and emits `(TokenVariant, TokenData)` tokens.
 *
 * The functions `StepAt` and `LexFrom` say what one iteration of `tokenize` and
 * the whole of it produce; the class `Lexer` is the imperative cursor, and each
 * of its `consume_*` methods is proved to do what `StepAt` says.
 */
module Lexer {
  import opened Wrappers
  import opened Source
  import opened Tokens

  /** The variant `consume_word` gives a word: one of the five keywords, otherwise Identifier. */
  function WordVariant(word: string): TokenVariant
  {
    if word == "type" then Type
    else if word == "set" then Set
    else if word == "enum" then Enum
    else if word == "true" then True
    else if word == "false" then False
    else Identifier
  }

  /** The characters that `tokenize` turns into a token of their own with `single_char_token_next`. */
  function SingleCharVariant(c: char): Option<TokenVariant>
  {
    match c
    case '@' => Some(At)
    case ':' => Some(Colon)
    case '$' => Some(Dollar)
    case '|' => Some(Or)
    case '&' => Some(And)
    case '(' => Some(LParen)
    case ')' => Some(RParen)
    case ',' => Some(Comma)
    case '{' => Some(LCurly)
    case '}' => Some(RCurly)
    case '[' => Some(LBracket)
    case ']' => Some(RBracket)
    case '>' => Some(Gt)
    case ';' => Some(Semicolon)
    case '+' => Some(Plus)
    case '-' => Some(Minus)
    case '*' => Some(Asterix)
    case '^' => Some(Caret)
    case '=' => Some(Eq)
    case '\\' => Some(Backslash)
    case _ => None
  }

  /** Where `consume_number` stops when it is at `i`, having already taken a decimal point or not:
      digits are taken, and a `.` only once and only when a digit follows it. */
  function NumberEnd(src: string, i: nat, hasDot: bool): (e: nat)
    requires i <= |src|
    ensures i <= e <= |src|
    ensures i < |src| && IsDigit(src[i]) ==> i < e
    decreases |src| - i
  {
    if i < |src| && IsDigit(src[i]) then NumberEnd(src, i + 1, hasDot)
    else if i + 1 < |src| && src[i] == '.' && !hasDot && IsDigit(src[i + 1]) then NumberEnd(src, i + 1, true)
    else i
  }

  /** `consume_range_lt_dot_symmdiff` at a `.` or `<`: the variant and where the lexeme ends. */
  function RangeLtDotSymmDiff(src: string, i: nat): (ve: (TokenVariant, nat))
    requires i < |src|
    ensures i < ve.1 <= |src|
  {
    if src[i] == '.' then
      if i + 1 < |src| && (src[i + 1] == '.' || src[i + 1] == '<') then (Range, i + 2) else (Dot, i + 1)
    else if i + 1 < |src| && src[i + 1] == '.' then
      (Range, if i + 2 < |src| && src[i + 2] == '<' then i + 3 else i + 2)
    else if i + 1 < |src| && src[i + 1] == '>' then (SymmDiff, i + 2)
    else (Lt, i + 1)
  }

  /** `consume_not_or_neq` at a `!`: the variant and where the lexeme ends. */
  function NotOrNeq(src: string, i: nat): (ve: (TokenVariant, nat))
    requires i < |src|
    ensures i < ve.1 <= |src|
  {
    if i + 1 < |src| && src[i + 1] == '=' then (Neq, i + 2) else (Not, i + 1)
  }

  /** What one iteration of `tokenize` does at position `i`: skip layout, emit a token, or fail. */
  datatype Step = Skip(next: nat) | Emit(token: Token, next: nat) | Reject(error: LexError)

  /** `consume_word`: the longest run of word characters, classified by `WordVariant`. */
  function WordStep(src: string, i: nat): (s: Step)
    requires i < |src|
    ensures s.Emit? && i < s.next <= |src|
  {
    var e := WordEnd(src, i + 1);
    Emit(Token(WordVariant(src[i..e]), DataAt(src, i, e)), e)
  }

  /** `consume_number` at a digit. */
  function NumberStep(src: string, i: nat): (s: Step)
    requires i < |src| && IsDigit(src[i])
    ensures s.Emit? && i < s.next <= |src|
  {
    var e := NumberEnd(src, i, false);
    Emit(Token(Number, DataAt(src, i, e)), e)
  }

  /** `consume_string` at a `"`: up to and including the closing quote, or an error at the opening one. */
  function StringStep(src: string, i: nat): (s: Step)
    requires i < |src|
    ensures !s.Reject? ==> i < s.next <= |src|
  {
    match CloseAfter(src, i + 1, '"')
    case None => Reject(LexError(StringNotTerminated, LocAt(src, i)))
    case Some(e) => Emit(Token(String, DataAt(src, i, e)), e)
  }

  /** `consume_comment_or_regex` at a `/`: a `//` comment is skipped up to and including the end of
      its line; otherwise a regex runs up to and including the next `/`. The legacy lexer's function
      is written the same way, and `LegacyLexer.CommentOrRegexStep` mirrors this one. */
  function CommentOrRegexStep(src: string, i: nat): (s: Step)
    requires i < |src|
    ensures !s.Reject? ==> i < s.next <= |src|
  {
    if i + 1 < |src| && src[i + 1] == '/' then Skip(LineEnd(src, i + 2)) else RegexStep(src, i)
  }

  /** The regex branch of `consume_comment_or_regex`: up to and including the next `/`, or an error
      at the opening one. */
  function RegexStep(src: string, i: nat): (s: Step)
    requires i < |src|
    ensures !s.Reject? ==> i < s.next <= |src|
  {
    match CloseAfter(src, i + 1, '/')
    case None => Reject(LexError(MalformedRegex, LocAt(src, i)))
    case Some(e) => Emit(Token(Regex, DataAt(src, i, e)), e)
  }

  /** An operator lexeme of the given variant from `i` to `e`. */
  function OperatorStep(src: string, i: nat, ve: (TokenVariant, nat)): (s: Step)
    requires i < ve.1 <= |src|
    ensures s.Emit? && i < s.next <= |src|
  {
    Emit(Token(ve.0, DataAt(src, i, ve.1)), ve.1)
  }

  function StepAt(src: string, i: nat): (s: Step)
    requires i < |src|
    ensures !s.Reject? ==> i < s.next <= |src|
  {
    var c := src[i];
    if IsWhitespace(c) then Skip(i + 1)
    else if IsWordStart(c) then WordStep(src, i)
    else if SingleCharVariant(c).Some? then OperatorStep(src, i, (SingleCharVariant(c).value, i + 1))
    else if IsDigit(c) then NumberStep(src, i)
    else if c == '"' then StringStep(src, i)
    else if c == '.' || c == '<' then OperatorStep(src, i, RangeLtDotSymmDiff(src, i))
    else if c == '!' then OperatorStep(src, i, NotOrNeq(src, i))
    else if c == '/' then CommentOrRegexStep(src, i)
    else Reject(LexError(NotRecognized, LocAt(src, i)))
  }

  /** `tokens` followed by whatever a lexing result holds, or that result's error. */
  function Prepend(tokens: seq<Token>, r: Result<seq<Token>, LexError>): Result<seq<Token>, LexError>
  {
    match r
    case Ok(rest) => Ok(tokens + rest)
    case Err(e) => Err(e)
  }

  lemma PrependPrepend(a: seq<Token>, b: seq<Token>, r: Result<seq<Token>, LexError>)
    ensures Prepend(a, Prepend(b, r)) == Prepend(a + b, r)
    ensures Prepend([], r) == r
    ensures Prepend(a, Ok([])) == Ok(a)
  {
    if r.Ok? {
      assert a + (b + r.value) == (a + b) + r.value;
      assert [] + r.value == r.value;
    }
    assert a + [] == a;
  }

  /** The tokens `tokenize` produces from position `i` on, or the first error. */
  function LexFrom(src: string, i: nat): Result<seq<Token>, LexError>
    requires i <= |src|
    decreases |src| - i
  {
    if i == |src| then Ok([])
    else
      match StepAt(src, i)
      case Skip(n) => LexFrom(src, n)
      case Emit(t, n) => Prepend([t], LexFrom(src, n))
      case Reject(e) => Err(e)
  }

  /** `Lexer::new(src).tokenize()`. */
  function Tokenize(src: string): Result<seq<Token>, LexError>
  {
    LexFrom(src, 0)
  }

  /** The lexer: the source and the cursor. The `Peekable<Chars>` iterator always stands at
      `index`, so it is represented by `index` alone. */
  class Lexer {
    const src: string
    var index: nat
    var line: nat
    var column: nat

    ghost predicate Valid()
      reads this
    {
      index <= |src| && Location() == LocAt(src, index)
    }

    function Location(): Loc
      reads this
    {
      Loc(index, line, column)
    }

    constructor (src: string)
      ensures Valid() && this.src == src && index == 0
    {
      this.src := src;
      index, line, column := 0, 1, 1;
    }

    /** `self.it.peek()`. */
    function Peek(): Option<char>
      reads this
    {
      if index < |src| then Some(src[index]) else None
    }

    /** `self.it.clone().nth(1)`: the character after the next one. */
    function PeekSecond(): Option<char>
      reads this
    {
      if index + 1 < |src| then Some(src[index + 1]) else None
    }

    /** Consumes one character: the index moves by one; a newline moves to the first column of
        the next line, anything else to the next column. At the end of input nothing changes. */
    method Next() returns (c: Option<char>)
      requires Valid()
      modifies this
      ensures Valid()
      ensures c == old(Peek())
      ensures c.Some? ==> index == old(index) + 1
      ensures c.Some? && c.value == '\n' ==> line == old(line) + 1 && column == 1
      ensures c.Some? && c.value != '\n' ==> line == old(line) && column == old(column) + 1
      ensures c.None? ==> Location() == old(Location())
    {
      if index < |src| {
        var ch := src[index];
        index := index + 1;
        column := column + 1;
        if ch == '\n' {
          line := line + 1;
          column := 1;
        }
        c := Some(ch);
      } else {
        c := None;
      }
    }

    /** `single_char_token_next`: the data for the next character, which is then consumed. */
    method SingleCharTokenNext() returns (d: TokenData)
      requires Valid() && index < |src|
      modifies this
      ensures Valid() && index == old(index) + 1
      ensures d == DataAt(src, old(index), index)
    {
      d := TokenData(src[index..index + 1], index, line, column);
      var _ := Next();
    }

    method ConsumeWord() returns (t: Token)
      requires Valid() && index < |src| && IsWordStart(src[index])
      modifies this
      ensures Valid() && WordStep(src, old(index)) == Emit(t, index)
    {
      var initial := Location();
      var first := Next();
      var word := [first.value];
      while true
        invariant Valid() && initial.index < index <= |src|
        invariant word == src[initial.index..index]
        invariant WordEnd(src, initial.index + 1) == WordEnd(src, index)
        decreases |src| - index
      {
        match Peek()
        case None => break;
        case Some(c) =>
          if IsWordChar(c) {
            SliceExtend(src, initial.index, index);
            var _ := Next();
            word := word + [c];
          } else {
            break;
          }
      }
      var data := TokenData(src[initial.index..index], initial.index, initial.line, initial.column);
      t := Token(WordVariant(word), data);
    }

    /** The body of a `//` comment: everything up to and including the next newline. */
    method SkipLine()
      requires Valid()
      modifies this
      ensures Valid() && index == LineEnd(src, old(index))
    {
      ghost var start := index;
      while true
        invariant Valid() && start <= index <= |src|
        invariant LineEnd(src, start) == LineEnd(src, index)
        decreases |src| - index
      {
        var c := Next();
        match c
        case None => break;
        case Some(ch) =>
          if ch == '\n' {
            break;
          }
      }
    }

    method ConsumeCommentOrRegex() returns (r: Result<Option<Token>, LexError>)
      requires Valid() && index < |src| && src[index] == '/'
      modifies this
      ensures Valid()
      ensures match r
              case Ok(None) => CommentOrRegexStep(src, old(index)) == Skip(index)
              case Ok(Some(t)) => CommentOrRegexStep(src, old(index)) == Emit(t, index)
              case Err(e) => CommentOrRegexStep(src, old(index)) == Reject(e)
    {
      var initial := Location();
      var _ := Next();
      if Peek() == Some('/') {
        var _ := Next();
        SkipLine();
        return Ok(None);
      }
      var t :- ConsumeRegex(initial);
      return Ok(Some(t));
    }

    /** Reads a regex whose opening `/` at `initial` has been consumed. */
    method ConsumeRegex(initial: Loc) returns (r: Result<Token, LexError>)
      requires Valid() && initial.index < |src| && initial == LocAt(src, initial.index)
      requires index == initial.index + 1
      modifies this
      ensures Valid()
      ensures match r
              case Ok(t) => RegexStep(src, initial.index) == Emit(t, index)
              case Err(e) => RegexStep(src, initial.index) == Reject(e)
    {
      while true
        invariant Valid() && initial.index < index <= |src|
        invariant CloseAfter(src, initial.index + 1, '/') == CloseAfter(src, index, '/')
        decreases |src| - index
      {
        var c := Next();
        match c
        case None => break;
        case Some(ch) =>
          if ch == '/' {
            var data := TokenData(src[initial.index..index], initial.index, initial.line, initial.column);
            return Ok(Token(Regex, data));
          }
      }
      return Err(LexError(MalformedRegex, initial));
    }

    method ConsumeString() returns (r: Result<Token, LexError>)
      requires Valid() && index < |src| && src[index] == '"'
      modifies this
      ensures Valid()
      ensures match r
              case Ok(t) => StringStep(src, old(index)) == Emit(t, index)
              case Err(e) => StringStep(src, old(index)) == Reject(e)
    {
      var initial := Location();
      var _ := Next();
      while true
        invariant Valid() && initial.index < index <= |src|
        invariant CloseAfter(src, initial.index + 1, '"') == CloseAfter(src, index, '"')
        decreases |src| - index
      {
        var c := Next();
        match c
        case None => break;
        case Some(ch) =>
          if ch == '"' {
            var data := TokenData(src[initial.index..index], initial.index, initial.line, initial.column);
            return Ok(Token(String, data));
          }
      }
      return Err(LexError(StringNotTerminated, initial));
    }

    method ConsumeNotOrNeq() returns (t: Token)
      requires Valid() && index < |src| && src[index] == '!'
      modifies this
      ensures Valid() && OperatorStep(src, old(index), NotOrNeq(src, old(index))) == Emit(t, index)
    {
      var initial := Location();
      var _ := Next();
      if Peek() == Some('=') {
        var _ := Next();
        t := Token(Neq, TokenData(src[initial.index..index], initial.index, initial.line, initial.column));
      } else {
        t := Token(Not, TokenData(src[initial.index..initial.index + 1], initial.index, initial.line, initial.column));
      }
    }

    method ConsumeNumber() returns (t: Token)
      requires Valid() && index < |src| && IsDigit(src[index])
      modifies this
      ensures Valid() && NumberStep(src, old(index)) == Emit(t, index)
    {
      var initial := Location();
      var hasDecimalPoint := false;
      while true
        invariant Valid() && initial.index <= index <= |src|
        invariant NumberEnd(src, initial.index, false) == NumberEnd(src, index, hasDecimalPoint)
        decreases |src| - index
      {
        match Peek()
        case None => break;
        case Some(c) =>
          if IsDigit(c) {
            var _ := Next();
          } else if c == '.' && !hasDecimalPoint {
            var after := PeekSecond();
            if after.Some? && IsDigit(after.value) {
              hasDecimalPoint := true;
              var _ := Next();
            } else {
              break;
            }
          } else {
            break;
          }
      }
      t := Token(Number, TokenData(src[initial.index..index], initial.index, initial.line, initial.column));
    }

    method ConsumeRangeLtDotSymmDiff() returns (t: Token)
      requires Valid() && index < |src| && (src[index] == '.' || src[index] == '<')
      modifies this
      ensures Valid() && OperatorStep(src, old(index), RangeLtDotSymmDiff(src, old(index))) == Emit(t, index)
    {
      var initial := Location();
      var first := Next();
      var variant: TokenVariant;
      if first == Some('.') {
        if Peek() == Some('.') || Peek() == Some('<') {
          var _ := Next();
          variant := Range;
        } else {
          variant := Dot;
        }
      } else if Peek() == Some('.') {
        var _ := Next();
        if Peek() == Some('<') {
          var _ := Next();
          variant := Range;
        } else {
          variant := Range;
        }
      } else if Peek() == Some('>') {
        var _ := Next();
        variant := SymmDiff;
      } else {
        variant := Lt;
      }
      t := Token(variant, TokenData(src[initial.index..index], initial.index, initial.line, initial.column));
    }

    /** One iteration of the `tokenize` loop at a position with input left: skip layout, read one
        token, or fail. */
    method ScanStep() returns (r: Result<Option<Token>, LexError>)
      requires Valid() && index < |src|
      modifies this
      ensures Valid()
      ensures match r
              case Ok(None) => StepAt(src, old(index)) == Skip(index)
              case Ok(Some(t)) => StepAt(src, old(index)) == Emit(t, index)
              case Err(e) => StepAt(src, old(index)) == Reject(e)
    {
      var c := Peek().value;
      var emitted: Option<Token> := None;
      if IsWhitespace(c) {
        var _ := Next();
      } else if IsWordStart(c) {
        var t := ConsumeWord();
        emitted := Some(t);
      } else if SingleCharVariant(c).Some? {
        var d := SingleCharTokenNext();
        emitted := Some(Token(SingleCharVariant(c).value, d));
      } else if IsDigit(c) {
        var t := ConsumeNumber();
        emitted := Some(t);
      } else if c == '"' {
        var s := ConsumeString();
        if s.Err? {
          return Err(s.error);
        }
        emitted := Some(s.value);
      } else if c == '.' || c == '<' {
        var t := ConsumeRangeLtDotSymmDiff();
        emitted := Some(t);
      } else if c == '!' {
        var t := ConsumeNotOrNeq();
        emitted := Some(t);
      } else if c == '/' {
        var s := ConsumeCommentOrRegex();
        if s.Err? {
          return Err(s.error);
        }
        emitted := s.value;
      } else {
        assert StepAt(src, index) == Reject(LexError(NotRecognized, Location()));
        return Err(LexError(NotRecognized, Location()));
      }
      return Ok(emitted);
    }

    /** `tokenize`: the tokens from the current position to the end of input, or the first error
        (and then no tokens at all). */
    method Tokenize() returns (r: Result<seq<Token>, LexError>)
      requires Valid()
      modifies this
      ensures Valid()
      ensures r == LexFrom(src, old(index))
    {
      var tokens: seq<Token> := [];
      PrependPrepend([], [], LexFrom(src, index));
      while Peek().Some?
        invariant Valid() && old(index) <= index
        invariant LexFrom(src, old(index)) == Prepend(tokens, LexFrom(src, index))
        decreases |src| - index
      {
        var step := ScanStep();
        if step.Err? {
          return Err(step.error);
        }
        if step.value.Some? {
          PrependPrepend(tokens, [step.value.value], LexFrom(src, index));
          tokens := tokens + [step.value.value];
        }
      }
      PrependPrepend(tokens, [], Ok([]));
      return Ok(tokens);
    }
  }
}
