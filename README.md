# Xenomorph front end in Dafny

This project models the front end of the Xenomorph type-definition language and proves properties of the model:

- the current lexer (`app/src/lexer/lexer.rs`);
- the error-recovering parser with its shared reduction stack (`common/src/parser/parser.rs`);
- the annotation-chain checker (`common/src/semantic/analyzer.rs`);
- the legacy pipeline:
  - the lexer of `src/lexer.rs`, with the tokens of `src/tokens.rs`;
  - the fail-fast parser of `src/parser.rs`;
  - the two `Display` printers of `src/parser_expr.rs` and `src/parser/parser_expr.rs`.

## How the model is built

Every imperative component has two parts:

- A module of **specification functions**. Each one returns, for a source string or token sequence and a cursor into it, what the Rust method returns and where it leaves the cursor.
- A **class** that keeps the Rust struct's mutable state:
  - the lexers' `index`/`line`/`column`;
  - the parsers' `current`;
  - the reduction stack `&mut Vec<Expr>`, as `ReductionStack.items`.

  Each class method is proved, loop by loop, to return and leave exactly what its specification function says.

A few long Rust functions are cut into pieces at the same places in both parts, so that each piece is proved on its own:

- `parse_expr` into its operand arms, its bracketed arms and its operator arms, with the `(…)` of an annotation as `ParseArguments`;
- `consume_comment_or_regex` at its regex loop (`ConsumeRegex`, `RegexStep`);
- one iteration of the `tokenize` loop (`ScanStep`, `StepAt`).

The lemmas are stated about the specification functions:

- **Lexers:** token shape, longest match, where errors are reported, and that the tokens tile the input.
- **Current parser:** the stack discipline, recovery, and the number conversion.
- **Analyzer:** what pass and fail mean.
- **Legacy parser:** what it accepts and rejects, and a round trip (spelling a program as tokens and parsing it gives the program back).
- **Printers:** their rendering, and that they agree with each other.

Modules:

| file | module | models |
|---|---|---|
| `wrappers.dfy` | `Wrappers` | `Option`, `Result` and the pass/fail `Outcome` |
| `source.dfy` | `Source` | locations, `TokenData` spans, character classes, shared scanning functions |
| `text.dfy` | `Text` | `i64` parsing (`str::parse::<i64>`), decimal printing, `join` |
| `tokens.dfy`, `lexer.dfy` | `Tokens`, `Lexer` | the current lexer |
| `lexer_properties.dfy` | `LexerProperties` | its properties |
| `ast.dfy`, `parser_spec.dfy`, `parser.dfy` | `Ast`, `ParserSpec`, `Parser` | the error-recovering parser |
| `parser_properties.dfy` | `ParserProperties` | its properties |
| `analyzer.dfy` | `Analyzer` | `analyze` / `validate_annotations` and their properties |
| `legacy_tokens.dfy`, `legacy_lexer.dfy` | `LegacyTokens`, `LegacyLexer` | the legacy lexer |
| `legacy_lexer_properties.dfy` | `LegacyLexerProperties` | its properties |
| `legacy_ast.dfy`, `typedef_ast.dfy` | `LegacyAst`, `TypeDefAst` | the two printers' `Expr` types and their `Display` |
| `printer_properties.dfy` | `PrinterProperties` | printer properties |
| `legacy_parser_spec.dfy`, `legacy_parser.dfy` | `LegacyParserSpec`, `LegacyParser` | the legacy parser |
| `legacy_parser_properties.dfy`, `legacy_parser_round_trip.dfy` | `LegacyParserProperties`, `LegacyParserRoundTrip` | its properties and its round trip |

## Conventions

- **Source text** is an ASCII `seq<char>`.
- **Token text** is the slice `src[start..start + |text|]` of the input at the token's line and column (`Source.SliceOf`).
- **Errors:**
  - The current parser's error messages are abstracted to an `ErrorKind` and the optional location the Rust `ParseError` carries.
  - The legacy parser's `&'static str` messages are kept verbatim.
- **Panics:** a Rust panic of the current parser is the `Panicked` result:
  - `pop().unwrap()` on an empty stack;
  - slicing a string lexeme shorter than its quotes.

  A panic of `parse` as a whole is `Report.Panic`; this includes the `len - 1` underflow on an empty token vector. The analyzer's `panic!` is a `Fail` naming the annotation.

## Behaviour of the code that the model keeps

- **Token text of strings and regexes.** It includes both delimiters: the span is cut after the closing character has been consumed.
- **Recovery example.** For `type A = x; type B = ; type C = y;` the recovering parser reports one error. The error is at the `;` where an expression was expected. That `;` is consumed by the failing `parse_expr`, so recovery resumes directly at `type C` (`ParserProperties.RecoveryExample`).
- **Stack effect of `!` and binary operators.** In general they do not grow the stack by exactly one, or leave its length unchanged. Their operand is parsed on the *same* stack, so an operand that is itself a binary operator or a dropped `|` reaches below the top. What the code guarantees is stated in `ParserProperties.ExprStackEffect`: on success the result is an untouched prefix of the old stack plus one element, or nothing at all after a leading `|`. The exact length effects are proved when the operand is a leaf form (`LeafPushes`, `BinaryReducesTop`).
- **Legacy `parse_type_definition`.** Its "Invalid type name" branch can never be taken: the name is what `parse_identifier` returned (`LegacyParserSpec.ParseTypeDefinition`).
- **Legacy "Expected a number".** `parse` never reports it (`LegacyParserProperties.ParseShape`).
- **Legacy printer and parser disagree on lists.** The legacy printer separates list elements with `, `, which the legacy parser rejects (`LegacyParserProperties.CommaInListFails`). The round trip therefore uses the parser's own unseparated spelling (`LegacyParserRoundTrip.Spell`).

## Model

| member | source | states |
|---|---|---|
| Source.LocAtCounts | app/src/lexer/lexer.rs:71-82 | the location after i characters has index i, line 1 + the newlines consumed, and column 1 + the characters since the last newline |
| Source.WordEnd | app/src/lexer/lexer.rs:146-160 | a word ends at the first non-word character: every character before is a word character and the one at the end is not |
| Source.LineEnd | app/src/lexer/lexer.rs:177-203 | a `//` comment stops just after the first newline or at the end of input, with no newline before that |
| Source.CloseAfter | app/src/lexer/lexer.rs:205-222 | a string/regex body closes just after the first delimiter; there is none exactly when no delimiter follows |
| Text.ParseI64 | common/src/parser/parser.rs:314 | `str::parse::<i64>` on decimal text with an optional sign; what it accepts is proved in `ShowIntParses` (every printed i64 reads back), `DotIsNotI64` and `ParserProperties.OverflowIsError` (out-of-range text is rejected, not wrapped) |
| Text.ShowNatDigits | src/parser_expr.rs:70 | the decimal digits of n are all digits, read back as n, and start with `0` only for 0 |
| Text.ShowIntParses | src/parser.rs:85-92 | printing an i64 in decimal and parsing it with `parse::<i64>` gives the same number |
| Text.DotIsNotI64 | src/parser.rs:85-92 | `parse::<i64>` rejects every text holding a `.` |
| Text.JoinSnoc | src/parser_expr.rs:47-59 | `join` appends each further part after a separator, left to right |
| Text.JoinLength | src/parser_expr.rs:47-59 | the joined length is the parts' total length plus one separator between each two parts |
| Lexer.NumberEnd | app/src/lexer/lexer.rs:243-269 | `consume_number` from a digit consumes at least that digit and stays within the input |
| Lexer.RangeLtDotSymmDiff | app/src/lexer/lexer.rs:270-303 | the `.`/`<` operators consume at least one character and stay within the input |
| Lexer.NotOrNeq | app/src/lexer/lexer.rs:224-241 | `!`/`!=` consume at least one character and stay within the input |
| Lexer.WordStep | app/src/lexer/lexer.rs:146-175 | a word always yields a token and consumes at least one character |
| Lexer.NumberStep | app/src/lexer/lexer.rs:243-269 | a number always yields a token and consumes at least one character |
| Lexer.StringStep | app/src/lexer/lexer.rs:205-222 | a string that does not fail consumes at least its opening quote |
| Lexer.CommentOrRegexStep | app/src/lexer/lexer.rs:177-203 | a comment or regex that does not fail consumes at least the `/` |
| Lexer.RegexStep | app/src/lexer/lexer.rs:193-202 | a regex that does not fail consumes at least the opening `/` |
| Lexer.OperatorStep | app/src/lexer/lexer.rs:224-303 | an operator lexeme yields a token and moves past it |
| Lexer.StepAt | app/src/lexer/lexer.rs:102-144 | each iteration of `tokenize` that does not fail makes progress, so `tokenize` terminates |
| Lexer.LexFrom | app/src/lexer/lexer.rs:102-144 | the tokens `tokenize` produces from a position on, or its first error; `LexerProperties.TokenizeTiles` proves they tile the input in order and `LexErrorSite` where an error is reported |
| Lexer.PrependPrepend | app/src/lexer/lexer.rs:102-144 | pushing tokens in two batches equals pushing them at once, and an error discards everything pushed |
| Lexer.Lexer.constructor | app/src/lexer/lexer.rs:59-69 | a new lexer is at index 0 of its source |
| Lexer.Lexer.Next | app/src/lexer/lexer.rs:71-82 | consuming a character adds 1 to the index; a newline adds 1 to the line and resets the column to 1; any other character adds 1 to the column; at the end nothing changes |
| Lexer.Lexer.SingleCharTokenNext | app/src/lexer/lexer.rs:96-100 | the token data is the one character at the old position, which is consumed |
| Lexer.Lexer.ConsumeWord | app/src/lexer/lexer.rs:146-175 | returns the token `WordStep` gives and leaves the cursor after the word |
| Lexer.Lexer.SkipLine | app/src/lexer/lexer.rs:177-203 | leaves the cursor where `LineEnd` says the comment stops |
| Lexer.Lexer.ConsumeCommentOrRegex | app/src/lexer/lexer.rs:177-203 | skips a comment, returns a regex token or the error exactly as `CommentOrRegexStep` says |
| Lexer.Lexer.ConsumeRegex | app/src/lexer/lexer.rs:193-202 | after the opening `/`, returns the regex token up to and including the next `/`, or the malformed-regex error at the opening one, exactly as `RegexStep` says |
| Lexer.Lexer.ConsumeString | app/src/lexer/lexer.rs:205-222 | returns the string token or the termination error exactly as `StringStep` says |
| Lexer.Lexer.ConsumeNotOrNeq | app/src/lexer/lexer.rs:224-241 | returns `Neq` or `Not` as `NotOrNeq` says, leaving the cursor after the lexeme |
| Lexer.Lexer.ConsumeNumber | app/src/lexer/lexer.rs:243-269 | returns the number token `NumberStep` gives and leaves the cursor after it |
| Lexer.Lexer.ConsumeRangeLtDotSymmDiff | app/src/lexer/lexer.rs:270-303 | returns the operator `RangeLtDotSymmDiff` gives, leaving the cursor after the lexeme |
| Lexer.Lexer.ScanStep | app/src/lexer/lexer.rs:102-144 | one iteration of the `tokenize` loop skips, emits or fails exactly as `StepAt` says |
| Lexer.Lexer.Tokenize | app/src/lexer/lexer.rs:102-144 | returns the token list or first error of `LexFrom` from the current position |
| LexerProperties.WordToken | app/src/lexer/lexer.rs:146-175 | a word is the longest run of word characters, located at its start, and it is `type`/`set`/`enum`/`true`/`false` exactly when its text is that keyword, otherwise an identifier |
| LexerProperties.NumberEndLongest | app/src/lexer/lexer.rs:243-269 | from a valid number prefix, `consume_number` stops at the longest extension of shape `D+(.D+)?` |
| LexerProperties.NumberLongest | app/src/lexer/lexer.rs:243-269 | a number token is the longest prefix of shape `D+(.D+)?`: at most one `.`, and only when a digit follows it |
| LexerProperties.OperatorLongest | app/src/lexer/lexer.rs:224-303 | at `.`, `<` or `!` the lexer takes the longest lexeme of the operator table (`..`, `.<`, `<.`, `<.<`, `<>`, `!=`, `.`, `<`, `!`), with its variant, and the token text is the consumed span |
| LexerProperties.OperatorKeys | app/src/lexer/lexer.rs:224-303 | the operator table holds exactly `.`, `..`, `.<`, `<`, `<.`, `<.<`, `<>`, `!` and `!=` |
| LexerProperties.DotLongest | app/src/lexer/lexer.rs:224-303 | at `.`, the lexeme taken is in the operator table with its variant, and no longer slice starting there is |
| LexerProperties.LtLongest | app/src/lexer/lexer.rs:224-303 | at `<`, the lexeme taken is in the operator table with its variant, and no longer slice starting there is |
| LexerProperties.BangLongest | app/src/lexer/lexer.rs:224-303 | at `!`, the lexeme taken is in the operator table with its variant, and no longer slice starting there is |
| LexerProperties.StringToken | app/src/lexer/lexer.rs:205-222 | a string runs from its quote to the next quote inclusive, with no escapes; without a closing quote the error is `StringNotTerminated` at the opening quote |
| LexerProperties.RegexToken | app/src/lexer/lexer.rs:177-203 | a regex runs from `/` to the next `/` inclusive; without one the error is `MalformedRegex` at the opening `/` |
| LexerProperties.LayoutSkipped | app/src/lexer/lexer.rs:102-144 | whitespace produces no token; `//` produces no token and skips through the next newline or to the end of input |
| LexerProperties.StepRejects | app/src/lexer/lexer.rs:102-144 | a step fails exactly on an unrecognised character, an unterminated string or an unterminated regex, located at that character, and an unrecognised character is `NotRecognized` |
| LexerProperties.LexErrorSite | app/src/lexer/lexer.rs:102-144 | a failed `tokenize` reports the first failing step's error, at the offending character's location, and no tokens |
| LexerProperties.EmitIsSlice | app/src/lexer/lexer.rs:33-56 | an emitted token's data is the span it was read from |
| LexerProperties.SkipExtendsLayout | app/src/lexer/lexer.rs:102-144 | skipped characters followed by layout are layout |
| LexerProperties.SkipExtendsTiles | app/src/lexer/lexer.rs:102-144 | a skip before a tiling of the rest still tiles the input |
| LexerProperties.LexTiles | app/src/lexer/lexer.rs:102-144 | successful lexing accounts for every character: tokens in order with only layout between them |
| LexerProperties.TilesOrdered | app/src/lexer/lexer.rs:33-56 | tiled tokens are exact slices of the input in increasing, non-overlapping order |
| LexerProperties.TokenizeTiles | app/src/lexer/lexer.rs:102-144 | on success, the tokens are in increasing start order and each text is `src[start..end]` at its line and column |
| LexerProperties.RangeBetweenNumbers | app/src/lexer/lexer.rs:243-279 | `1..5` lexes as Number `1`, Range `..`, Number `5` |
| LexerProperties.TrailingDot | app/src/lexer/lexer.rs:243-279 | `1.` lexes as Number `1`, Dot |
| LexerProperties.CommentThenKeyword | app/src/lexer/lexer.rs:177-203 | a comment line yields nothing and the next line starts at line 2, column 1 |
| ParserSpec.Next | common/src/parser/parser.rs:107-116 | `next` succeeds exactly when a token is left, returning it and moving past it; otherwise the end-of-input error |
| ParserSpec.Expect | common/src/parser/parser.rs:121-130 | `expect` succeeds exactly when the next token has the variant, returning its data and consuming it |
| ParserSpec.ParseExpr | common/src/parser/parser.rs:165-232 | an expression that succeeds consumes at least one token and never runs past the end |
| ParserSpec.ParseNumber | common/src/parser/parser.rs:304-320 | `parse_number` reads only its lexeme, so it is a function that the operand arm calls; `ParserProperties.NumberConversion`, `IntLiteralRoundTrip` and `OverflowIsError` state its result |
| ParserSpec.ParseOperand | common/src/parser/parser.rs:168-199 | an operand arm never moves the cursor back and stays within the input |
| ParserSpec.ParseBracketed | common/src/parser/parser.rs:180-199 | the `[`, `set`, `{`, `enum` and `@` arms never move the cursor back and stay within the input; what `[…]` and `set […]` build is `ParserProperties.ListFormShape` and `SetFormShape` |
| ParserSpec.ParseOperator | common/src/parser/parser.rs:200-220 | the `!` and binary-operator arms never move the cursor back and stay within the input |
| ParserSpec.Push | common/src/parser/parser.rs:209-230 | the reduced node is pushed onto the stack `parse_binary` left, and failures pass through |
| ParserSpec.ParseBinary | common/src/parser/parser.rs:234-253 | `parse_binary` never moves the cursor backwards or past the end |
| ParserSpec.AnonymTypeLoop | common/src/parser/parser.rs:141-162 | the anonymous-type loop consumes at least one token on success |
| ParserSpec.ParseAnonymType | common/src/parser/parser.rs:138-163 | an anonymous type consumes at least one token on success |
| ParserSpec.ListLoop | common/src/parser/parser.rs:257-263 | the loop never moves the cursor back and stays within the input; `ParserProperties.ListLoopShape` states where it stops and what it collects |
| ParserSpec.ParseList | common/src/parser/parser.rs:254-266 | never moves the cursor back; `ParserProperties.ParseListShape` states its terminators and items |
| ParserSpec.StructLoop | common/src/parser/parser.rs:269-276 | the fields loop never moves the cursor backwards or past the end |
| ParserSpec.ParseStruct | common/src/parser/parser.rs:267-281 | `parse_struct` consumes at least its `}` on success |
| ParserSpec.ParseAnnotation | common/src/parser/parser.rs:282-296 | an annotation consumes at least its name on success; its errors and arguments are `ParserProperties.AnnotationShape` and `AnnotationArguments` |
| ParserSpec.ParseArguments | common/src/parser/parser.rs:290-292 | annotation arguments that succeed consume at least one token, and the last one is the closing `)` |
| ParserSpec.ParseTypeDeclaration | common/src/parser/parser.rs:132-137 | a type declaration consumes at least one token on success |
| ParserSpec.ParseDeclaration | common/src/parser/parser.rs:88-102 | a declaration consumes tokens whether it succeeds or fails, so each top-level iteration makes progress |
| ParserSpec.Recover | common/src/parser/parser.rs:322-340 | recovery never moves the cursor backwards or past the end |
| Parser.ReductionStack.constructor | common/src/parser/parser.rs:139 | `parse_anonym_type` starts with an empty stack |
| Parser.ReductionStack.Push | common/src/parser/parser.rs:230 | pushing appends to the top |
| Parser.ReductionStack.Pop | common/src/parser/parser.rs:240-251 | `pop` removes and returns the top, or returns `None` on an empty stack |
| Parser.Parser.constructor | common/src/parser/parser.rs:68 | a new parser holds the tokens with the cursor at 0 |
| Parser.Parser.Next | common/src/parser/parser.rs:107-116 | returns what `ParserSpec.Next` says and moves the cursor accordingly |
| Parser.Parser.Expect | common/src/parser/parser.rs:121-130 | returns what `ParserSpec.Expect` says and moves the cursor accordingly |
| Parser.Parser.ParseDeclaration | common/src/parser/parser.rs:88-102 | returns the declaration or error `ParserSpec.ParseDeclaration` gives, with the cursor where it says |
| Parser.Parser.ParseTypeDeclaration | common/src/parser/parser.rs:132-137 | as `ParserSpec.ParseTypeDeclaration` |
| Parser.Parser.ParseAnonymType | common/src/parser/parser.rs:138-163 | the loop over a fresh stack returns what `ParserSpec.ParseAnonymType` gives |
| Parser.Parser.ParseExpr | common/src/parser/parser.rs:165-232 | on the shared stack, the outcome, the cursor and the new stack contents are those of `ParserSpec.ParseExpr` |
| Parser.Parser.ParseOperand | common/src/parser/parser.rs:168-199 | returns what `ParserSpec.ParseOperand` gives and leaves the cursor where it says |
| Parser.Parser.ParseBracketed | common/src/parser/parser.rs:180-199 | returns what `ParserSpec.ParseBracketed` gives and leaves the cursor where it says, so `ListFormShape` and `SetFormShape` hold of it |
| Parser.Parser.ParseOperator | common/src/parser/parser.rs:200-220 | the outcome, cursor and new stack contents are those of `ParserSpec.ParseOperator` |
| Parser.Parser.ParseBinary | common/src/parser/parser.rs:234-253 | returns the reduced node and leaves the stack and cursor as `ParserSpec.ParseBinary` says, or its failure or panic |
| Parser.Parser.ParseList | common/src/parser/parser.rs:254-266 | the loop returns what `ParserSpec.ParseList` gives, so it stops in front of `]`, `)` or `;` with the anonymous types read one after the other (`ParserProperties.ParseListShape`) |
| Parser.Parser.ParseStruct | common/src/parser/parser.rs:267-281 | the loop returns what `ParserSpec.ParseStruct` gives |
| Parser.Parser.ParseAnnotation | common/src/parser/parser.rs:282-296 | returns what `ParserSpec.ParseAnnotation` gives (`ParserProperties.AnnotationShape`, `AnnotationArguments`) |
| Parser.Parser.ParseArguments | common/src/parser/parser.rs:290-292 | returns what `ParserSpec.ParseArguments` gives: a list followed by its `)` (`ParserProperties.ArgumentsStep`) |
| Parser.Parser.RecoverToDeclarationBoundary | common/src/parser/parser.rs:322-340 | the loop leaves the cursor where `ParserSpec.Recover` says |
| ParserSpec.Parse | common/src/parser/parser.rs:54-85 | lexing, then the declaration loop with recovery; `ParserProperties.ParseCounts` bounds what it reports and `BlankSourcePanics` gives the empty-input panic |
| Parser.Parse | common/src/parser/parser.rs:54-85 | lexing then the declaration loop produce exactly the report `ParserSpec.Parse` gives |
| ParserProperties.DeclarationLoopCounts | common/src/parser/parser.rs:72-80 | the loop keeps the declarations and errors it had, and adds at most one declaration or error per remaining token before the last |
| ParserProperties.ParseCounts | common/src/parser/parser.rs:54-85 | a lexer failure gives no declarations, exactly one error and no tokens; otherwise declarations plus errors number at most `len - 1`; a panic happens only after successful lexing |
| ParserProperties.BlankLexesToNothing | app/src/lexer/lexer.rs:102-144 | whitespace alone lexes to no tokens |
| ParserProperties.BlankSourcePanics | common/src/parser/parser.rs:104-106 | with no tokens at all, `len - 1` underflows: `parse` panics |
| ParserProperties.DeclarationShape | common/src/parser/parser.rs:88-137 | a declaration succeeds exactly on `type Identifier = AnonymType ;`, named by the identifier; a first token other than `type` is an error located at that token |
| ParserProperties.AnonymTypeLoopStops | common/src/parser/parser.rs:138-163 | an anonymous type ends only at the end of input, before `]`, `}`, `)` or `;`, or just after a `,` |
| ParserProperties.AnonymTypeTerminators | common/src/parser/parser.rs:138-163 | after an expression, a `,` is consumed, a closing token is left for the caller, and the end of input returns what was read |
| ParserProperties.LeafPushes | common/src/parser/parser.rs:165-199 | a leaf, bracket or annotation form grows the stack by exactly one, keeping the rest |
| ParserProperties.NotUnfolds | common/src/parser/parser.rs:200-203 | `!` parses its operand on the same stack, then wraps the top in `Not`, panicking if nothing is there |
| ParserProperties.BinaryUnfolds | common/src/parser/parser.rs:205-220 | a binary operator (other than a leading union bar) pushes the node `parse_binary` reduces |
| ParserProperties.IdentifierPushes | common/src/parser/parser.rs:169 | an identifier pushes itself and consumes one token |
| ParserProperties.UnexpectedTokenFails | common/src/parser/parser.rs:222-227 | a token that starts no form is an error located at that token |
| ParserProperties.BinaryStep | common/src/parser/parser.rs:234-253 | `parse_binary` pops the left operand, parses one expression, and combines the left operand with the new top, panicking if the right operand left nothing |
| ParserProperties.AnonymTypeStep | common/src/parser/parser.rs:141-162 | one iteration of `parse_anonym_type` after a successful expression |
| ParserProperties.LoopStep | common/src/parser/parser.rs:72-80 | one iteration of `parse`: a declaration is appended, or the error is appended and recovery runs, or the panic propagates |
| ParserProperties.ExprStackEffect | common/src/parser/parser.rs:165-253 | on success the new stack is an untouched prefix of the old plus one element, or empty after a leading union bar on an empty stack; a leaf form grows it by exactly one |
| ParserProperties.BinaryReducesTop | common/src/parser/parser.rs:234-253 | a binary operator with a leaf right operand keeps the stack length, replacing the top by the operator node whose left operand is the old top |
| ParserProperties.MissingLeftOperandReported | common/src/parser/parser.rs:205-246 | a binary operator on an empty stack is the "expected expression before binary operator" error at the operator, except the union bar, which is dropped |
| ParserProperties.NotOfDroppedOrPanics | common/src/parser/parser.rs:200-210 | `!` followed by a union bar on an empty stack leaves nothing to pop: the `unwrap` panics |
| ParserProperties.RightOperandDroppedPanics | common/src/parser/parser.rs:240-253 | `x +` followed by a union bar pops `x`, drops the bar, and the right-operand `unwrap` panics |
| ParserProperties.OperatorThenIdentifier | common/src/parser/parser.rs:234-253 | an operator then an identifier replaces the top by the operator node of the old top and that identifier |
| ParserProperties.LeftAssociative | common/src/parser/parser.rs:138-253 | `a + b - c ;` reduces to `[Remove(Add(a, b), c)]`: one precedence level, left to right |
| ParserProperties.RecoverStops | common/src/parser/parser.rs:322-340 | recovery skips only tokens that are neither `type` nor `;`, stops before a `type`, just after a `;`, or at the end guard, and stays before the last token |
| ParserProperties.SimpleDeclaration | common/src/parser/parser.rs:88-137 | `type N = x ;` declares N as the identifier x |
| ParserProperties.EmptyDeclaration | common/src/parser/parser.rs:88-227 | `type N = ;` fails at the `;`, which is consumed |
| ParserProperties.RecoveryExample | common/src/parser/parser.rs:54-85 | `type A = x; type B = ; type C = y;` yields A and C and one error at the `;` of B |
| ParserProperties.TrailingTokenIgnored | common/src/parser/parser.rs:72-106 | a final lone token never starts a declaration attempt |
| ParserProperties.ListLoopStep | common/src/parser/parser.rs:257-263 | one turn of the list loop: stop in front of `]`, `)` or `;`, or read one anonymous type and go on after it |
| ParserProperties.ListAtEndFails | common/src/parser/parser.rs:257-263 | a list still open at the end of input fails there with the end-of-input error |
| ParserProperties.ListLoopShape | common/src/parser/parser.rs:257-263 | the list loop stops only in front of `]`, `)` or `;` (not `}`, not the end of input), and its items are the anonymous types read one after the other up to there |
| ParserProperties.ParseListShape | common/src/parser/parser.rs:254-266 | `parse_list` stops in front of `]`, `)` or `;` without consuming it, and returns the anonymous types read one after the other |
| ParserProperties.ListFormShape | common/src/parser/parser.rs:180-184 | `[ … ]` is the `List` of the items `parse_list` reads, and consumes the closing `]` |
| ParserProperties.SetFormShape | common/src/parser/parser.rs:185-190 | `set [ … ]` needs its `[`, is the `Set` of the items `parse_list` reads, and consumes the closing `]` |
| ParserProperties.SetArmStep | common/src/parser/parser.rs:185-190 | the `set` arm is a `[`, a list, and its `]` |
| ParserProperties.AnnotationShape | common/src/parser/parser.rs:282-288 | after `@`, a non-identifier is an error (end of input or wrong token); a name without a following `(` is the annotation with no arguments |
| ParserProperties.AnnotationArguments | common/src/parser/parser.rs:285-294 | `@name(…)` takes as arguments the items `parse_list` reads, and consumes the closing `)` |
| ParserProperties.ArgumentsStep | common/src/parser/parser.rs:290-292 | the arguments after `(` are a list and then its `)` |
| ParserProperties.StructLoopShape | common/src/parser/parser.rs:267-281 | the fields loop stops only in front of `}`, and each field is named by an identifier that a `:` follows |
| ParserProperties.StructShape | common/src/parser/parser.rs:267-281 | `{ … }` consumes its own `}` after `Identifier : AnonymType` fields |
| ParserProperties.EnumNeedsTwoBraces | common/src/parser/parser.rs:192-197 | a successful `enum` starts with `{` and ends with two `}` in a row |
| ParserProperties.StructCloses | common/src/parser/parser.rs:267-281 | a struct body that succeeds consumes at least one token, and the last one is `}` |
| ParserProperties.EnumSingleBraceFails | common/src/parser/parser.rs:192-197 | `enum { a: b };` fails at the `;`, where the second `}` was expected, whatever the stack and position |
| ParserProperties.NumberConversion | common/src/parser/parser.rs:304-321 | a lexeme with a `.` is a float; any other is the `i64` it parses to or an error located at the lexeme |
| ParserProperties.IntLiteralRoundTrip | common/src/parser/parser.rs:313-318 | every `i64` written in decimal converts back to itself |
| ParserProperties.OverflowIsError | common/src/parser/parser.rs:313-318 | digits whose value exceeds the largest `i64` are an error, not a wrapped value |
| Analyzer.ValidateAnnotations | common/src/semantic/analyzer.rs:15-42 | the annotation check of one declaration; `ValidateAnnotationsMeaning` states when it fails and what it names |
| Analyzer.Analyze | common/src/semantic/analyzer.rs:4-13 | the check of all declarations; `AnalyzeMeaning` states that it passes exactly when each passes, else names the first failure |
| Analyzer.CheckAnnotations | common/src/semantic/analyzer.rs:15-42 | the `for` loop with its `valid_context` flag computes `ValidateAnnotations` |
| Analyzer.CheckDeclarations | common/src/semantic/analyzer.rs:4-13 | the `for` loop over declarations computes `Analyze` |
| Analyzer.FlagIsChainOpen | common/src/semantic/analyzer.rs:16-41 | the flag is set exactly when an `@if` is followed only by `@elseif`/`@else` up to here |
| Analyzer.ValidateFromFirstMisplaced | common/src/semantic/analyzer.rs:15-42 | the scan passes exactly when no `@elseif`/`@else` is out of place, and otherwise names the first one that is |
| Analyzer.ValidateAnnotationsMeaning | common/src/semantic/analyzer.rs:15-42 | `validate_annotations` fails exactly when some `@elseif`/`@else` has no open chain before it, naming the first |
| Analyzer.AnalyzeFromFirstFailure | common/src/semantic/analyzer.rs:4-13 | the check from a declaration on passes exactly when each one passes alone, and otherwise reports the first failure |
| Analyzer.AnalyzeMeaning | common/src/semantic/analyzer.rs:4-13 | `analyze` passes exactly when every declaration passes on its own, and otherwise reports the first failing one's error |
| Analyzer.ChainDoesNotCrossDeclarations | common/src/semantic/analyzer.rs:4-16 | each declaration starts with the chain closed: `@if` in one does not open a chain for the next |
| Analyzer.IfElseElse | common/src/semantic/analyzer.rs:22-32 | `@elseif`/`@else` keep the chain open: `@if @else @else` passes |
| Analyzer.OtherElementCloses | common/src/semantic/analyzer.rs:33-40 | a non-annotation element closes the chain: `@if x @else` fails at the `@else` |
| Analyzer.LoneElseIf | common/src/semantic/analyzer.rs:25-31 | a lone `@elseif` fails and names itself |
| Analyzer.Shallow | common/src/semantic/analyzer.rs:18-42 | the scan is shallow: a union of `@if(..)` and `@elseif(..)` is one binary element and passes, although its operand alone fails |
| LegacyLexer.NumberEnd | src/lexer.rs:244-269 | the number ends at the end of the run of digits and dots |
| LegacyLexer.WordStep | src/lexer.rs:138-164 | a word always yields a token and consumes at least one character |
| LegacyLexer.NumberStep | src/lexer.rs:244-269 | a number always yields a token and consumes at least one character |
| LegacyLexer.StringStep | src/lexer.rs:193-210 | a string that does not fail consumes at least its quote |
| LegacyLexer.CommentOrRegexStep | src/lexer.rs:166-191 | a comment or regex that does not fail consumes at least the `/` |
| LegacyLexer.RegexStep | src/lexer.rs:182-190 | a regex that does not fail consumes at least the opening `/` |
| LegacyLexer.LtStep | src/lexer.rs:212-226 | `<`/`<>` yield a token and consume at least one character |
| LegacyLexer.NotStep | src/lexer.rs:228-242 | `!`/`!=` yield a token and consume at least one character |
| LegacyLexer.StepAt | src/lexer.rs:92-136 | each iteration of `tokenize` that does not fail makes progress |
| LegacyLexer.LexFrom | src/lexer.rs:92-136 | the tokens `tokenize` produces from a position on, then `EOF`, or its first error; `LegacyLexerProperties.TokenizeTiles`, `EndsWithEOF` and `LexErrorSite` give its meaning |
| LegacyLexer.PrependPrepend | src/lexer.rs:92-136 | pushing tokens in two batches equals pushing them at once, and an error discards everything pushed |
| LegacyLexer.Lexer.constructor | src/lexer.rs:49-59 | a new lexer is at index 0 of its source |
| LegacyLexer.Lexer.Next | src/lexer.rs:61-72 | consuming a character adds 1 to the index; a newline adds 1 to the line and resets the column to 1; any other character adds 1 to the column |
| LegacyLexer.Lexer.SingleCharTokenNext | src/lexer.rs:86-90 | the token data is the one character at the old position, which is consumed |
| LegacyLexer.Lexer.ConsumeWord | src/lexer.rs:138-164 | returns the token `WordStep` gives and leaves the cursor after the word |
| LegacyLexer.Lexer.SkipLine | src/lexer.rs:166-191 | leaves the cursor where `LineEnd` says the comment stops |
| LegacyLexer.Lexer.ConsumeCommentOrRegex | src/lexer.rs:166-191 | skips a comment, returns a regex token or the error exactly as `CommentOrRegexStep` says |
| LegacyLexer.Lexer.ConsumeRegex | src/lexer.rs:182-190 | after the opening `/`, returns the regex token up to and including the next `/`, or the malformed-regex error at the opening one, exactly as `RegexStep` says |
| LegacyLexer.Lexer.ConsumeString | src/lexer.rs:193-210 | returns the string token or the error exactly as `StringStep` says |
| LegacyLexer.Lexer.ConsumeLtOrSymmDiff | src/lexer.rs:212-226 | returns the token `LtStep` gives |
| LegacyLexer.Lexer.ConsumeNotOrNeq | src/lexer.rs:228-242 | returns the token `NotStep` gives |
| LegacyLexer.Lexer.ConsumeNumber | src/lexer.rs:244-269 | with its `is_float` flag, returns the token `NumberStep` gives |
| LegacyLexer.Lexer.ScanStep | src/lexer.rs:92-136 | one iteration of the `tokenize` loop skips, emits or fails exactly as `StepAt` says |
| LegacyLexer.Lexer.Tokenize | src/lexer.rs:92-136 | returns the tokens and `EOF`, or the first error, as `LexFrom` says |
| LegacyLexerProperties.EndsWithEOF | src/lexer.rs:92-136 | a successful tokenize ends with exactly one `EOF`, and no other token is `EOF` |
| LegacyLexerProperties.StepNeverEOF | src/lexer.rs:92-136 | no iteration of the `tokenize` loop emits `EOF` |
| LegacyLexerProperties.WordToken | src/lexer.rs:138-164 | a word is the longest run of word characters; only `type` and `set` are keywords, every other word is an identifier |
| LegacyLexerProperties.NumberGreedy | src/lexer.rs:244-269 | a number is the longest run of digits and dots, `Float(64)` exactly when it holds a `.`, otherwise `Int(false, 64)` |
| LegacyLexerProperties.Operators | src/lexer.rs:92-242 | `.` is always a one-character Dot; `<>` is SymmDiff, any other `<` is Lt; `!=` is Neq, any other `!` is Not |
| LegacyLexerProperties.StringToken | src/lexer.rs:193-210 | a string runs to the next quote inclusive, with no escapes; unterminated, it is an error at the opening quote |
| LegacyLexerProperties.RegexToken | src/lexer.rs:166-191 | a regex runs to the next `/` inclusive; unterminated, it is an error at the opening `/` |
| LegacyLexerProperties.StepRejects | src/lexer.rs:92-136 | a step fails exactly on an unrecognised character, an unterminated string or regex, at its location; an unrecognised character is `NotRecognized` |
| LegacyLexerProperties.LexErrorSite | src/lexer.rs:92-136 | a failed tokenize reports the first failing step's error at the offending character |
| LegacyLexerProperties.SkipExtendsLayout | src/lexer.rs:92-136 | skipped characters followed by layout are layout |
| LegacyLexerProperties.EmitIsSlice | src/lexer.rs:24-47 | an emitted token is never `EOF` and its data is the span it was read from |
| LegacyLexerProperties.EmitExtendsTiles | src/lexer.rs:92-136 | an emitted token before a tiling of the rest tiles the input |
| LegacyLexerProperties.SkipExtendsTiles | src/lexer.rs:92-136 | a skip before a tiling of the rest tiles the input |
| LegacyLexerProperties.LexTiles | src/lexer.rs:92-136 | successful lexing accounts for every character, tokens in order then `EOF` |
| LegacyLexerProperties.TokenizeTiles | src/lexer.rs:92-136 | on success, tokens are in source order, each text the exact slice at its line and column, then `EOF` |
| LegacyLexerProperties.RangeIsOneNumber | src/lexer.rs:244-269 | `1..5` is one float number |
| LegacyLexerProperties.EnumIsIdentifier | src/lexer.rs:138-164 | `enum` is an identifier |
| LegacyLexerProperties.EmptyInput | src/lexer.rs:92-136 | empty input is just `EOF` |
| LegacyParserSpec.ParseExpr | src/parser.rs:141-149 | an expression that succeeds consumes a token and stays within the input; a failure never moves back and is one of the expression errors |
| LegacyParserSpec.ListLoop | src/parser.rs:94-109 | the list loop stays within the input on success and fails only with expression errors |
| LegacyParserSpec.ParseList | src/parser.rs:94-109 | a list consumes at least its `[` and fails only with expression errors |
| LegacyParserSpec.StructLoop | src/parser.rs:111-139 | the fields loop stays within the input on success and fails only with expression errors |
| LegacyParserSpec.ParseStruct | src/parser.rs:111-139 | a struct consumes at least its `{` and fails only with expression errors |
| LegacyParserSpec.ParseTypeDefinition | src/parser.rs:151-173 | a definition that succeeds is a `TypeDef` within the input, and "Invalid type name" is never reported |
| LegacyParser.Parser.constructor | src/parser.rs:9-11 | a new parser holds the tokens with the cursor at 0 |
| LegacyParser.Parser.Next | src/parser.rs:17-20 | `next` always adds 1 to `current`, even past the end, and returns the token at the old index |
| LegacyParserSpec.ParseIdentifier | src/parser.rs:77-83 | an identifier token gives its text; anything else, or no token, is "Expected an identifier"; the cursor moves on by one either way (`LegacyParserProperties.NextPassesTheEnd`) |
| LegacyParserSpec.ParseNumber | src/parser.rs:85-92 | a number token gives the i64 it parses to, else "Invalid number" (`LegacyParserProperties.NumberDefinition`, `FractionRejected`) |
| LegacyParserSpec.ParseFrom | src/parser.rs:22-30 | the `parse` loop from a position on; `LegacyParserProperties.ParseFromShape` states where it stops and what it collects |
| LegacyParserSpec.Parse | src/parser.rs:22-30 | `parse`; `LegacyParserProperties.ParseShape`, `NoEOFFails` and `LegacyParserRoundTrip.ParseInvertsSpelling` state what it returns |
| LegacyParser.Parser.ParseIdentifier | src/parser.rs:77-83 | as `LegacyParserSpec.ParseIdentifier`, result and cursor |
| LegacyParser.Parser.ParseNumber | src/parser.rs:85-92 | as `LegacyParserSpec.ParseNumber`, result and cursor |
| LegacyParser.Parser.ParseList | src/parser.rs:94-109 | the `while let` loop returns what `LegacyParserSpec.ParseList` gives |
| LegacyParser.Parser.ParseStruct | src/parser.rs:111-139 | the `while let` loop returns what `LegacyParserSpec.ParseStruct` gives |
| LegacyParser.Parser.ParseExpr | src/parser.rs:141-149 | as `LegacyParserSpec.ParseExpr` |
| LegacyParser.Parser.ParseTypeDefinition | src/parser.rs:151-173 | as `LegacyParserSpec.ParseTypeDefinition` |
| LegacyParser.Parser.Parse | src/parser.rs:22-30 | the loop returns what `ParseFrom` gives: definitions until `EOF`, or the first error |
| LegacyParserProperties.ParseFromShape | src/parser.rs:22-30 | a successful parse stops on `EOF`, keeps what it had and adds only type definitions; a failure is one of the parser's messages |
| LegacyParserProperties.ParseShape | src/parser.rs:22-30 | `parse` returns only type definitions and never reports "Expected a number" or "Invalid type name" |
| LegacyParserProperties.NoEOFFails | src/parser.rs:22-30 | tokens without `EOF` never parse |
| LegacyParserProperties.StopsAtEOF | src/parser.rs:22-30 | an `EOF` first ends the parse with no definitions, whatever follows |
| LegacyParserProperties.NextPassesTheEnd | src/parser.rs:17-20 | an identifier or number read at the end fails and leaves the cursor one past the end |
| LegacyParserProperties.DispatchConsumesNothing | src/parser.rs:141-149 | a token that starts no expression is an error that consumes nothing |
| LegacyParserProperties.DefinitionErrors | src/parser.rs:151-173 | no `type` is an error consuming nothing; a non-identifier name is consumed before its error; a missing `=` is not consumed |
| LegacyParserProperties.SemicolonRejected | src/parser.rs:22-30 | `type A = x;` fails with "Expected 'type'" at the `;` |
| LegacyParserProperties.NumberDefinition | src/parser.rs:85-92 | `type N = 42` parses to the definition of N as that number |
| LegacyParserProperties.FractionRejected | src/parser.rs:85-92 | `1.5` is consumed and reported as "Invalid number" |
| LegacyParserProperties.UnclosedListAtEnd | src/parser.rs:94-109 | a list running out of tokens returns the elements read so far |
| LegacyParserProperties.UnclosedListBeforeEOF | src/parser.rs:94-109 | an unclosed list before `EOF` fails at the `EOF` |
| LegacyParserProperties.CommaInListFails | src/parser.rs:94-109 | elements have no separators: a `,` in a list fails |
| LegacyParserProperties.StructFields | src/parser.rs:111-139 | `{a: x b: y}` is a struct of those fields in order, named by their text |
| LegacyParserProperties.StructErrors | src/parser.rs:111-139 | a missing `:` is "Expected ':'" after the name; any other non-field token is "Expected identifier or '}'" on that token |
| LegacyParserRoundTrip.ParsesBack | src/parser.rs:141-149 | every identifier/number/list/struct expression spelled as tokens parses back to itself, ending just after its spelling |
| LegacyParserRoundTrip.ListSpellingParsesBack | src/parser.rs:94-109 | a spelled list parses back to itself |
| LegacyParserRoundTrip.StructSpellingParsesBack | src/parser.rs:111-139 | a spelled struct parses back to itself |
| LegacyParserRoundTrip.ListParsesBack | src/parser.rs:94-109 | spelled elements then `]` parse back to those elements |
| LegacyParserRoundTrip.FieldParsesBack | src/parser.rs:111-139 | a spelled field is its name, `:`, and a value that parses back |
| LegacyParserRoundTrip.StructParsesBack | src/parser.rs:111-139 | spelled fields then `}` parse back to those fields |
| LegacyParserRoundTrip.DefinitionParsesBack | src/parser.rs:151-173 | `type name =` and a spelled value parse back to that definition |
| LegacyParserRoundTrip.EmptyProgramParsesBack | src/parser.rs:22-30 | a lone `EOF` parses to no further definitions and stops on it |
| LegacyParserRoundTrip.FirstDefinitionParsesBack | src/parser.rs:22-30 | the first spelled definition parses back, leaving the cursor on the spelling of the rest |
| LegacyParserRoundTrip.ProgramParsesBack | src/parser.rs:22-30 | spelled definitions then `EOF` parse back to exactly those definitions |
| LegacyParserRoundTrip.ParseInvertsSpelling | src/parser.rs:22-30 | `parse` inverts spelling: every program of type definitions over identifiers, numbers, lists and structs is read back exactly |
| LegacyAst.Show | src/parser_expr.rs:44-78 | the `Display` of the legacy `Expr`; its rendering is stated by the `PrinterProperties` lemmas below |
| TypeDefAst.Show | src/parser/parser_expr.rs:28-65 | the `Display` of the newer `Expr`; `PrinterProperties.PrintersAgree` proves it renders every shared expression as `LegacyAst.Show` does |
| PrinterProperties.EmptyCollections | src/parser_expr.rs:47-66 | empty collections render as `[]`, `set []`, `{}`, `enum {}` |
| PrinterProperties.SingletonList | src/parser_expr.rs:47-63 | a one-element list is its element in brackets, with no separator |
| PrinterProperties.PrefixedForms | src/parser_expr.rs:63-66 | a set is `set ` before the list of its elements; an enum is `enum ` before the struct of its fields |
| PrinterProperties.ListSnoc | src/parser_expr.rs:47-63 | elements are printed in order, separated by `, ` |
| PrinterProperties.ListLength | src/parser_expr.rs:47-63 | a list of n elements renders in its elements' length plus 2n characters |
| PrinterProperties.NumberReadsBack | src/parser_expr.rs:70 | a number prints as decimal text that `parse::<i64>` reads back, in both printers |
| PrinterProperties.Leaves | src/parser_expr.rs:69-72 | a string is its content between quotes, unescaped; a boolean is `true`/`false`; an identifier is its text |
| PrinterProperties.TypeDefRendering | src/parser_expr.rs:68 | a definition renders as `type `, its name, ` = `, its value |
| PrinterProperties.NotInjective | src/parser_expr.rs:73-76 | binary forms print without parentheses: the union of `a` and `b` with `c` and the union of `a` with that of `b` and `c` differ but print alike |
| PrinterProperties.NoEscaping | src/parser_expr.rs:63-71 | strings are not escaped: two strings print like one holding `", "` |
| PrinterProperties.PrintersAgree | src/parser/parser_expr.rs:28-65 | the two printers render every expression they share identically |
| PrinterProperties.PrintersAgreeOperation | src/parser/parser_expr.rs:28-65 | the two printers render the shared binary operations identically |
| PrinterProperties.PrintersAgreeAll | src/parser/parser_expr.rs:32-39 | the two printers render shared lists identically |
| PrinterProperties.PrintersAgreeFields | src/parser/parser_expr.rs:40-55 | the two printers render shared fields identically |
| PrinterProperties.PrintersAgreeField | src/parser/parser_expr.rs:40-55 | the two printers render a shared field identically |

## Left out

- I/O: configuration, plugins, the LSP server, the VS Code extension, the CLI mains and `print_location` in `src/parser.rs`. They read files, load libraries, talk to editors or only print.
- Stubs and fragments that never produce a result: `src/lexer/lexer.rs`, `src/lexer/tokens.rs`, `src/parser/parser.rs` and `src/parser/parse_type_def.rs`. Also the unused `Node` trait, `RootNode` and `struct TypeDef` of `src/parser_expr.rs`, and `ComplexType` of `src/parser/parser_expr.rs`.
- Floating point: `parse::<f64>` in `parse_number` of the current parser. A lexeme with a `.` becomes an opaque `Float` holding the lexeme. The lexer's number rule never produces text that `f64` parsing rejects, so its error branch is not modelled.
- The unsafe lifetime `transmute` in `next`. Tokens are plain values.
- Formatted error text of the current lexer and parser. Errors are kinds with their locations.
- Non-ASCII input. The Rust lexers count characters but slice bytes. The model works on characters.
- ParserSpec.ParseExpr: the contract states only cursor progress. The stack effect and exact results are the separate lemmas `ParserProperties.ExprStackEffect`, `LeafPushes`, `BinaryReducesTop`, `NotUnfolds` and `BinaryUnfolds`.
- LegacyParserSpec.ParseList: the `unwrap` of the opening `[` is a precondition (the cursor is on a token). Its only caller, `parse_expr`, has just seen a `[`.
- LegacyParserSpec.ParseStruct: likewise for the `{`.
- Parser.Parser.RecoverToDeclarationBoundary: requires a non-empty token vector. With none, the `len - 1` of its guard underflows. `parse` never calls it then, because its own guard has already panicked (`ParserProperties.BlankSourcePanics`).
- LegacyParserRoundTrip.ParseInvertsSpelling: positions in the spelled tokens are fixed, because the legacy parser reads only token text. Sets, enums, strings, booleans and binary forms are excluded: the legacy parser has no syntax for them.
