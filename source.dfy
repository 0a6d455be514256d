/**
 * The character-cursor model shared by both lexers (app/src/lexer/lexer.rs and
 * src/lexer.rs): source locations, how consuming one character moves them, the
 * `TokenData` a token carries, the character classes, and the extents of the
 * multi-character lexemes whose scanning loops are written identically in both.
 *
 * The source is a sequence of characters. Both Rust lexers count characters in
 * `src_index` but slice the `&str` by bytes; for ASCII input the two coincide,
 * and this model uses character positions throughout.
 */
module Source {
  import opened Wrappers

  /** `LexerLocation`: the index of the next character, and its 1-based line and column. */
  datatype Loc = Loc(index: nat, line: nat, column: nat)

  /** The location of a fresh lexer (`Lexer::new`). */
  const Start: Loc := Loc(0, 1, 1)

  /** The location after consuming `c` at `l` (`Lexer::next`). */
  function Advance(l: Loc, c: char): Loc
  {
    if c == '\n' then Loc(l.index + 1, l.line + 1, 1)
    else Loc(l.index + 1, l.line, l.column + 1)
  }

  /** The location reached after consuming the first `i` characters of `src`. */
  function LocAt(src: string, i: nat): Loc
    requires i <= |src|
    decreases i
  {
    if i == 0 then Start else Advance(LocAt(src, i - 1), src[i - 1])
  }

  /** `TokenData { v, l, c }`: the lexeme (a slice of the source starting at `start`) and the line
      and column of its first character. */
  datatype TokenData = TokenData(text: string, start: nat, line: nat, column: nat)
  {
    function End(): nat { start + |text| }
  }

  /** A line begins at `k` (the start of input or just after a newline) and runs without a
      newline up to position `i`. */
  ghost predicate LineStartBefore(src: string, i: nat, k: nat)
    requires i <= |src|
  {
    k <= i && (k == 0 || src[k - 1] == '\n') && forall j :: k <= j < i ==> src[j] != '\n'
  }

  /** The location after `i` characters counts them: the index is `i`, the line is one more than
      the newlines consumed, and the column is one more than the characters since the line began. */
  lemma {:induction false} LocAtCounts(src: string, i: nat)
    requires i <= |src|
    ensures LocAt(src, i).index == i
    ensures LocAt(src, i).line == 1 + multiset(src[..i])['\n']
    ensures forall k :: LineStartBefore(src, i, k) ==> LocAt(src, i).column == i - k + 1
  {
    if i > 0 {
      LocAtCounts(src, i - 1);
      assert src[..i] == src[..i - 1] + [src[i - 1]];
      forall k: nat | LineStartBefore(src, i, k)
        ensures LocAt(src, i).column == i - k + 1
      {
        if src[i - 1] != '\n' {
          assert k < i;
          assert LineStartBefore(src, i - 1, k);
        }
      }
    }
  }

  /** A slice grown by the character just after it. */
  lemma SliceExtend(src: string, start: nat, end: nat)
    requires start <= end < |src|
    ensures src[start..end + 1] == src[start..end] + [src[end]]
  {
  }

  /** The token data for the slice `src[start..end]`, located where that slice begins. */
  function DataAt(src: string, start: nat, end: nat): TokenData
    requires start <= end <= |src|
  {
    var l := LocAt(src, start);
    TokenData(src[start..end], start, l.line, l.column)
  }

  /** The data is an exact, non-empty slice of `src`, and its line and column are those of its start. */
  ghost predicate SliceOf(src: string, d: TokenData)
  {
    && 0 < |d.text|
    && d.End() <= |src|
    && d.text == src[d.start..d.End()]
    && LocAt(src, d.start).line == d.line
    && LocAt(src, d.start).column == d.column
  }

  datatype LexErrorKind = NotRecognized | MalformedRegex | StringNotTerminated

  /** `LexerError`: the kind of failure and the location it is reported at. */
  datatype LexError = LexError(kind: LexErrorKind, loc: Loc)

  predicate IsWhitespace(c: char) { c == ' ' || c == '\n' || c == '\t' || c == '\r' }
  predicate IsDigit(c: char) { '0' <= c <= '9' }
  predicate IsWordStart(c: char) { 'a' <= c <= 'z' || 'A' <= c <= 'Z' || c == '_' }
  predicate IsWordChar(c: char) { IsWordStart(c) || IsDigit(c) }

  /** End of the word that `consume_word` reads from `i`: the first position at or after `i` that
      holds no word character. */
  function WordEnd(src: string, i: nat): (e: nat)
    requires i <= |src|
    ensures i <= e <= |src|
    ensures forall k :: i <= k < e ==> IsWordChar(src[k])
    ensures e == |src| || !IsWordChar(src[e])
    decreases |src| - i
  {
    if i < |src| && IsWordChar(src[i]) then WordEnd(src, i + 1) else i
  }

  /** Where a `//` comment whose body starts at `i` stops: just after the first newline, or at the
      end of input. */
  function LineEnd(src: string, i: nat): (e: nat)
    requires i <= |src|
    ensures i <= e <= |src|
    ensures forall k :: i <= k < e - 1 ==> src[k] != '\n'
    ensures e == |src| || (i < e && src[e - 1] == '\n')
    decreases |src| - i
  {
    if i == |src| then i
    else if src[i] == '\n' then i + 1
    else LineEnd(src, i + 1)
  }

  /** Where a string or regex body starting at `i` stops: just after the first `delim`, if any. */
  function CloseAfter(src: string, i: nat, delim: char): (r: Option<nat>)
    requires i <= |src|
    ensures r.None? <==> forall k :: i <= k < |src| ==> src[k] != delim
    ensures r.Some? ==> i < r.value <= |src| && src[r.value - 1] == delim
    ensures r.Some? ==> forall k :: i <= k < r.value - 1 ==> src[k] != delim
    decreases |src| - i
  {
    if i == |src| then None
    else if src[i] == delim then Some(i + 1)
    else CloseAfter(src, i + 1, delim)
  }

}
