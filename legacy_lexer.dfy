/**
 * The legacy lexer (src/lexer.rs). It moves a cursor over the source exactly as
 * the current lexer does, but has no range token, knows only `type` and `set`
 * as keywords, reads a number as the longest run of digits and dots, and ends
 * every successful token list with `EOF`.
 *
 * `StepAt` and `LexFrom` specify one iteration of `tokenize` and the whole of
 * it; the class `Lexer` is the imperative cursor, proved against them.
 */
module LegacyLexer {
  import opened Wrappers
  import opened Source
  import opened LegacyTokens

  /** `consume_word`: `type` and `set` are keywords, every other word is an identifier. */
  function WordToken(word: string, d: TokenData): Token
  {
    if word == "type" then Type(d)
    else if word == "set" then Set(d)
    else Identifier(d)
  }

  /** The characters that `tokenize` turns into a one-character token of their own. */
  function SingleCharToken(c: char, d: TokenData): Option<Token>
  {
    match c
    case '@' => Some(At(d))
    case ':' => Some(Colon(d))
    case '$' => Some(Dollar(d))
    case '|' => Some(Or(d))
    case '&' => Some(And(d))
    case '.' => Some(Dot(d))
    case '(' => Some(LParen(d))
    case ')' => Some(RParen(d))
    case ',' => Some(Comma(d))
    case '{' => Some(LCurly(d))
    case '}' => Some(RCurly(d))
    case '[' => Some(LBracket(d))
    case ']' => Some(RBracket(d))
    case '>' => Some(Gt(d))
    case ';' => Some(Semicolon(d))
    case '+' => Some(Plus(d))
    case '-' => Some(Minus(d))
    case '*' => Some(Asterix(d))
    case '^' => Some(Caret(d))
    case '=' => Some(Eq(d))
    case '\\' => Some(Backslash(d))
    case _ => None
  }

  predicate IsNumberChar(c: char) { IsDigit(c) || c == '.' }

  /** Where `consume_number` stops: the end of the run of digits and dots starting at `i`. */
  function NumberEnd(src: string, i: nat): (e: nat)
    requires i <= |src|
    ensures i <= e <= |src|
    ensures forall k :: i <= k < e ==> IsNumberChar(src[k])
    ensures e == |src| || !IsNumberChar(src[e])
    decreases |src| - i
  {
    if i < |src| && IsNumberChar(src[i]) then NumberEnd(src, i + 1) else i
  }

  /** The numeric type `consume_number` records: a float when a dot was read, else a 64-bit
      unsigned-flagged integer. */
  function NumberKind(text: string): NumberType
  {
    if '.' in text then Float(64) else Int(false, 64)
  }

  /** What one iteration of `tokenize` does at position `i`: skip layout, emit a token, or fail. */
  datatype Step = Skip(next: nat) | Emit(token: Token, next: nat) | Reject(error: LexError)

  function WordStep(src: string, i: nat): (s: Step)
    requires i < |src|
    ensures s.Emit? && i < s.next <= |src|
  {
    var e := WordEnd(src, i + 1);
    Emit(WordToken(src[i..e], DataAt(src, i, e)), e)
  }

  function NumberStep(src: string, i: nat): (s: Step)
    requires i < |src| && IsDigit(src[i])
    ensures s.Emit? && i < s.next <= |src|
  {
    var e := NumberEnd(src, i);
    Emit(Number(DataAt(src, i, e), NumberKind(src[i..e])), e)
  }

  /** `consume_string` at a `"`: up to and including the closing quote, or an error at the opening one. */
  function StringStep(src: string, i: nat): (s: Step)
    requires i < |src|
    ensures !s.Reject? ==> i < s.next <= |src|
  {
    match CloseAfter(src, i + 1, '"')
    case None => Reject(LexError(StringNotTerminated, LocAt(src, i)))
    case Some(e) => Emit(String(DataAt(src, i, e)), e)
  }

  /** `consume_comment_or_regex` at a `/`. */
  function CommentOrRegexStep(src: string, i: nat): (s: Step)
    requires i < |src|
    ensures !s.Reject? ==> i < s.next <= |src|
  {
    if i + 1 < |src| && src[i + 1] == '/' then Skip(LineEnd(src, i + 2)) else RegexStep(src, i)
  }

  /** The regex branch of `consume_comment_or_regex`: up to and including the next `/`, or an error
      at the opening one. */
  function RegexStep(src: string, i: nat): (s: Step)
    requires i < |src|
    ensures !s.Reject? ==> i < s.next <= |src|
  {
    match CloseAfter(src, i + 1, '/')
    case None => Reject(LexError(MalformedRegex, LocAt(src, i)))
    case Some(e) => Emit(Regex(DataAt(src, i, e)), e)
  }

  /** `consume_lt_or_symdiff` at a `<`: `<>` is a symmetric difference, any other `<` is itself. */
  function LtStep(src: string, i: nat): (s: Step)
    requires i < |src|
    ensures s.Emit? && i < s.next <= |src|
  {
    if i + 1 < |src| && src[i + 1] == '>' then Emit(SymmDiff(DataAt(src, i, i + 2)), i + 2)
    else Emit(Lt(DataAt(src, i, i + 1)), i + 1)
  }

  /** `consume_not_or_neq` at a `!`. */
  function NotStep(src: string, i: nat): (s: Step)
    requires i < |src|
    ensures s.Emit? && i < s.next <= |src|
  {
    if i + 1 < |src| && src[i + 1] == '=' then Emit(Neq(DataAt(src, i, i + 2)), i + 2)
    else Emit(Not(DataAt(src, i, i + 1)), i + 1)
  }

  function StepAt(src: string, i: nat): (s: Step)
    requires i < |src|
    ensures !s.Reject? ==> i < s.next <= |src|
  {
    var c := src[i];
    if IsWhitespace(c) then Skip(i + 1)
    else if IsWordStart(c) then WordStep(src, i)
    else if SingleCharToken(c, DataAt(src, i, i + 1)).Some? then Emit(SingleCharToken(c, DataAt(src, i, i + 1)).value, i + 1)
    else if IsDigit(c) then NumberStep(src, i)
    else if c == '"' then StringStep(src, i)
    else if c == '<' then LtStep(src, i)
    else if c == '!' then NotStep(src, i)
    else if c == '/' then CommentOrRegexStep(src, i)
    else Reject(LexError(NotRecognized, LocAt(src, i)))
  }

  /** `tokens` followed by whatever a lexing result holds, or that result's error. */
  function Prepend(tokens: seq<Token>, r: Result<seq<Token>, LexError>): Result<seq<Token>, LexError>
  {
    match r
    case Ok(rest) => Ok(tokens + rest)
    case Err(e) => Err(e)
  }

  lemma PrependPrepend(a: seq<Token>, b: seq<Token>, r: Result<seq<Token>, LexError>)
    ensures Prepend(a, Prepend(b, r)) == Prepend(a + b, r)
    ensures Prepend([], r) == r
  {
    if r.Ok? {
      assert a + (b + r.value) == (a + b) + r.value;
      assert [] + r.value == r.value;
    }
  }

  /** The tokens `tokenize` produces from position `i` on, `EOF` included, or the first error. */
  function LexFrom(src: string, i: nat): Result<seq<Token>, LexError>
    requires i <= |src|
    decreases |src| - i
  {
    if i == |src| then Ok([EOF])
    else
      match StepAt(src, i)
      case Skip(n) => LexFrom(src, n)
      case Emit(t, n) => Prepend([t], LexFrom(src, n))
      case Reject(e) => Err(e)
  }

  function Tokenize(src: string): Result<seq<Token>, LexError>
  {
    LexFrom(src, 0)
  }

  /** The legacy lexer: the source and the cursor, which the `Peekable<Chars>` iterator follows. */
  class Lexer {
    const src: string
    var index: nat
    var line: nat
    var column: nat

    ghost predicate Valid()
      reads this
    {
      index <= |src| && Location() == LocAt(src, index)
    }

    function Location(): Loc
      reads this
    {
      Loc(index, line, column)
    }

    constructor (src: string)
      ensures Valid() && this.src == src && index == 0
    {
      this.src := src;
      index, line, column := 0, 1, 1;
    }

    function Peek(): Option<char>
      reads this
    {
      if index < |src| then Some(src[index]) else None
    }

    /** Consumes one character: the index moves by one; a newline moves to the first column of
        the next line, anything else to the next column. At the end of input nothing changes. */
    method Next() returns (c: Option<char>)
      requires Valid()
      modifies this
      ensures Valid()
      ensures c == old(Peek())
      ensures c.Some? ==> index == old(index) + 1
      ensures c.Some? && c.value == '\n' ==> line == old(line) + 1 && column == 1
      ensures c.Some? && c.value != '\n' ==> line == old(line) && column == old(column) + 1
      ensures c.None? ==> Location() == old(Location())
    {
      if index < |src| {
        var ch := src[index];
        index := index + 1;
        column := column + 1;
        if ch == '\n' {
          line := line + 1;
          column := 1;
        }
        c := Some(ch);
      } else {
        c := None;
      }
    }

    /** `single_char_token_next`: the data for the next character, which is then consumed. */
    method SingleCharTokenNext() returns (d: TokenData)
      requires Valid() && index < |src|
      modifies this
      ensures Valid() && index == old(index) + 1
      ensures d == DataAt(src, old(index), index)
    {
      d := TokenData(src[index..index + 1], index, line, column);
      var _ := Next();
    }

    method ConsumeWord() returns (t: Token)
      requires Valid() && index < |src| && IsWordStart(src[index])
      modifies this
      ensures Valid() && WordStep(src, old(index)) == Emit(t, index)
    {
      var initial := Location();
      var first := Next();
      var word := [first.value];
      while true
        invariant Valid() && initial.index < index <= |src|
        invariant word == src[initial.index..index]
        invariant WordEnd(src, initial.index + 1) == WordEnd(src, index)
        decreases |src| - index
      {
        match Peek()
        case None => break;
        case Some(c) =>
          if IsWordChar(c) {
            SliceExtend(src, initial.index, index);
            var _ := Next();
            word := word + [c];
          } else {
            break;
          }
      }
      var data := TokenData(src[initial.index..index], initial.index, initial.line, initial.column);
      t := WordToken(word, data);
    }

    /** The body of a `//` comment: everything up to and including the next newline. */
    method SkipLine()
      requires Valid()
      modifies this
      ensures Valid() && index == LineEnd(src, old(index))
    {
      ghost var start := index;
      while true
        invariant Valid() && start <= index <= |src|
        invariant LineEnd(src, start) == LineEnd(src, index)
        decreases |src| - index
      {
        var c := Next();
        match c
        case None => break;
        case Some(ch) =>
          if ch == '\n' {
            break;
          }
      }
    }

    method ConsumeCommentOrRegex() returns (r: Result<Option<Token>, LexError>)
      requires Valid() && index < |src| && src[index] == '/'
      modifies this
      ensures Valid()
      ensures match r
              case Ok(None) => CommentOrRegexStep(src, old(index)) == Skip(index)
              case Ok(Some(t)) => CommentOrRegexStep(src, old(index)) == Emit(t, index)
              case Err(e) => CommentOrRegexStep(src, old(index)) == Reject(e)
    {
      var initial := Location();
      var _ := Next();
      if Peek() == Some('/') {
        var _ := Next();
        SkipLine();
        return Ok(None);
      }
      var t :- ConsumeRegex(initial);
      return Ok(Some(t));
    }

    /** Reads a regex whose opening `/` at `initial` has been consumed. */
    method ConsumeRegex(initial: Loc) returns (r: Result<Token, LexError>)
      requires Valid() && initial.index < |src| && initial == LocAt(src, initial.index)
      requires index == initial.index + 1
      modifies this
      ensures Valid()
      ensures match r
              case Ok(t) => RegexStep(src, initial.index) == Emit(t, index)
              case Err(e) => RegexStep(src, initial.index) == Reject(e)
    {
      while true
        invariant Valid() && initial.index < index <= |src|
        invariant CloseAfter(src, initial.index + 1, '/') == CloseAfter(src, index, '/')
        decreases |src| - index
      {
        var c := Next();
        match c
        case None => break;
        case Some(ch) =>
          if ch == '/' {
            var data := TokenData(src[initial.index..index], initial.index, initial.line, initial.column);
            return Ok(Regex(data));
          }
      }
      return Err(LexError(MalformedRegex, initial));
    }

    method ConsumeString() returns (r: Result<Token, LexError>)
      requires Valid() && index < |src| && src[index] == '"'
      modifies this
      ensures Valid()
      ensures match r
              case Ok(t) => StringStep(src, old(index)) == Emit(t, index)
              case Err(e) => StringStep(src, old(index)) == Reject(e)
    {
      var initial := Location();
      var _ := Next();
      while true
        invariant Valid() && initial.index < index <= |src|
        invariant CloseAfter(src, initial.index + 1, '"') == CloseAfter(src, index, '"')
        decreases |src| - index
      {
        var c := Next();
        match c
        case None => break;
        case Some(ch) =>
          if ch == '"' {
            var data := TokenData(src[initial.index..index], initial.index, initial.line, initial.column);
            return Ok(String(data));
          }
      }
      return Err(LexError(StringNotTerminated, initial));
    }

    method ConsumeLtOrSymmDiff() returns (t: Token)
      requires Valid() && index < |src| && src[index] == '<'
      modifies this
      ensures Valid() && LtStep(src, old(index)) == Emit(t, index)
    {
      var initial := Location();
      var _ := Next();
      if Peek() == Some('>') {
        var _ := Next();
        t := SymmDiff(TokenData(src[initial.index..index], initial.index, initial.line, initial.column));
      } else {
        t := Lt(TokenData(src[initial.index..initial.index + 1], initial.index, initial.line, initial.column));
      }
    }

    method ConsumeNotOrNeq() returns (t: Token)
      requires Valid() && index < |src| && src[index] == '!'
      modifies this
      ensures Valid() && NotStep(src, old(index)) == Emit(t, index)
    {
      var initial := Location();
      var _ := Next();
      if Peek() == Some('=') {
        var _ := Next();
        t := Neq(TokenData(src[initial.index..index], initial.index, initial.line, initial.column));
      } else {
        t := Not(TokenData(src[initial.index..initial.index + 1], initial.index, initial.line, initial.column));
      }
    }

    /** `consume_number`, with its `is_float` flag recording whether a dot has been read. */
    method ConsumeNumber() returns (t: Token)
      requires Valid() && index < |src| && IsDigit(src[index])
      modifies this
      ensures Valid() && NumberStep(src, old(index)) == Emit(t, index)
    {
      var initial := Location();
      var isFloat := false;
      while true
        invariant Valid() && initial.index <= index <= |src|
        invariant NumberEnd(src, initial.index) == NumberEnd(src, index)
        invariant isFloat <==> '.' in src[initial.index..index]
        decreases |src| - index
      {
        match Peek()
        case None => break;
        case Some(c) =>
          if IsDigit(c) {
            var _ := Next();
          } else if c == '.' {
            isFloat := true;
            var _ := Next();
          } else {
            break;
          }
          assert src[initial.index..index] == src[initial.index..index - 1] + [c];
      }
      var data := TokenData(src[initial.index..index], initial.index, initial.line, initial.column);
      if isFloat {
        t := Number(data, Float(64));
      } else {
        t := Number(data, Int(false, 64));
      }
    }

    /** One iteration of the `tokenize` loop at a position with input left: skip layout, read one
        token, or fail. */
    method ScanStep() returns (r: Result<Option<Token>, LexError>)
      requires Valid() && index < |src|
      modifies this
      ensures Valid()
      ensures match r
              case Ok(None) => StepAt(src, old(index)) == Skip(index)
              case Ok(Some(t)) => StepAt(src, old(index)) == Emit(t, index)
              case Err(e) => StepAt(src, old(index)) == Reject(e)
    {
      var c := Peek().value;
      var emitted: Option<Token> := None;
      if IsWhitespace(c) {
        var _ := Next();
      } else if IsWordStart(c) {
        var t := ConsumeWord();
        emitted := Some(t);
      } else if SingleCharToken(c, DataAt(src, index, index + 1)).Some? {
        var d := SingleCharTokenNext();
        emitted := Some(SingleCharToken(c, d).value);
      } else if IsDigit(c) {
        var t := ConsumeNumber();
        emitted := Some(t);
      } else if c == '"' {
        var s := ConsumeString();
        if s.Err? {
          return Err(s.error);
        }
        emitted := Some(s.value);
      } else if c == '<' {
        var t := ConsumeLtOrSymmDiff();
        emitted := Some(t);
      } else if c == '!' {
        var t := ConsumeNotOrNeq();
        emitted := Some(t);
      } else if c == '/' {
        var s := ConsumeCommentOrRegex();
        if s.Err? {
          return Err(s.error);
        }
        emitted := s.value;
      } else {
        assert StepAt(src, index) == Reject(LexError(NotRecognized, Location()));
        return Err(LexError(NotRecognized, Location()));
      }
      return Ok(emitted);
    }

    /** `tokenize`: the tokens from the current position, then `EOF`; or the first error. */
    method Tokenize() returns (r: Result<seq<Token>, LexError>)
      requires Valid()
      modifies this
      ensures Valid()
      ensures r == LexFrom(src, old(index))
    {
      var tokens: seq<Token> := [];
      PrependPrepend([], [], LexFrom(src, index));
      while Peek().Some?
        invariant Valid() && old(index) <= index
        invariant LexFrom(src, old(index)) == Prepend(tokens, LexFrom(src, index))
        decreases |src| - index
      {
        var step := ScanStep();
        if step.Err? {
          return Err(step.error);
        }
        if step.value.Some? {
          PrependPrepend(tokens, [step.value.value], LexFrom(src, index));
          tokens := tokens + [step.value.value];
        }
      }
      return Ok(tokens + [EOF]);
    }
  }
}
