# jsonparser in Dafny

A model of the two halves of the `jsonparser` crate:

- the character tokenizer of `src/tokenizer.rs`: `next_token`, `trim_whitespace` and the `Iterator` implementation;
- the recursive-descent parser of `src/parser.rs`: `parse`, `parse_val`, `parse_array`, `parse_object`, `parse_ident`, `parse_string`, plus the `Display` implementation (`fmt_impl`, `print_indent`).

Everything is pure functions over immutable data.

- **Tokenizer.** The character iterator is a string plus a position. A panic of the tokenizer becomes an `Err(LexError)`.
- **Parser.** The parser reads a sequence of located tokens plus an index. Reading past the end yields an `End` token at `EndOfInput`.
- **Objects.** The `IndexMap` of an object is a sequence of members with distinct keys, kept in insertion order. `Json.Insert` keeps a key's position when it already exists and appends it otherwise.
- **Floats.** A float keeps the text it was read from. `str::parse::<f64>` is modelled as the grammar of the text `f64::from_str` accepts (`Numerals.IsRustFloat`): an optional sign, then `inf`, `infinity` or `nan` in any case, or a decimal mantissa (a leading or trailing `.` allowed) with an optional `e`/`E` exponent.
- **Number characters.** `is_num_char` is defined in neither file, so it is a parameter `isNumChar`. The examples use one choice of `is_num_char`, `LiteralProperties.NumCharDigitSignPointExponent`: digits, `-`, `+`, `.`, `e`, `E`.

## Modules

The modules, file by file:

- `results.dfy`: `Result` and `Option`.
- `chars.dfy`: the character classes the tokenizer uses. Whitespace is Unicode `White_Space`, as `char::is_whitespace` uses it.
- `tokenizer.dfy` and `tokenizer_properties.dfy`: `next_token`, case by case.
- `numerals.dfy`: `Display` and `FromStr` for `u64`/`i64`, and the grammar `f64::from_str` accepts, together with their inverse properties.
- `json.dfy`: the value tree, `IndexMap` insertion, and what a sequence of insertions builds (`ObjectSemantics`).
- `parser.dfy` and `parser_properties.dfy`: the parser, and one loop step at a time, including how an error inside a nested value becomes the error of every enclosing call (the `?` operator).
- `display.dfy`: `fmt_impl` and its layout.
- `literal_properties.dfy`: the scalar round trip, printing followed by `parse_val`.
- `roundtrip.dfy`: the token stream of any value tree, and `parse` reading it back.
- `pipeline.dfy`: the tokenizer's output fed to the parser, with worked examples.

## How the two files fit together

The parser in `src/parser.rs` calls a tokenizer interface that `src/tokenizer.rs` does not provide:

- a fallible `next_token()?`;
- tokens carrying a location;
- `expect_token`;
- `Ident`/`Val` kinds that carry their text.

`Pipeline` is the glue between the two:

- It drains the tokenizer of `src/tokenizer.rs`.
- It converts each token's kind.
- It gives each token the location that a caller-supplied `locate` function assigns to the token's first character.

The parser sees the tokens produced before the tokenizer's first panic, followed by `End`. A parse error at `EndOfInput` while the tokenizer had failed is reported as that tokenizer failure. `Parser.Parse` promises that every error lies at a token at or after its start, or at `EndOfInput`. So an error anywhere else shows that the parser never needed the missing tokens.

## Behaviour at the edges

The model keeps these behaviours of the code:

- A quoted run ends at the first `"`. There is no escape handling (`src/tokenizer.rs:78`).
- A quoted run is a key only when `:` follows the closing quote immediately. Whitespace before the colon makes it a string value (`src/tokenizer.rs:81-94`).
- A run that starts with a digit continues over ASCII alphanumerics only (`src/tokenizer.rs:99-107`). So `27.0E2` is the token `27` followed by the bare word `.0E2`. The full text `27.0E2` reaches the float branch of `parse_val` only as a single `Val` token.
- There is no trailing-comma or missing-comma error:
  - both parser loops skip commas wherever they occur;
  - the tokenizer's `Missing ending ','` panic cannot be reached (`TokenizerProperties.NeverMissingEndingComma`).
- `null` is matched on the common prefix only (`src/parser.rs:216-217`).
- Unsupported characters and unterminated strings are panics of the tokenizer, not `ParsingError` kinds.

## Model

| member | source | states |
|---|---|---|
| Tokenizer.RunEnd | src/tokenizer.rs:100-102 | a `next_if` loop consumes the maximal run of characters satisfying its predicate: all of them satisfy it, and the character after the run does not or the input has ended |
| Tokenizer.SkipWhitespace | src/tokenizer.rs:134-136 | `trim_whitespace` stops at the first non-whitespace character at or after the position, having passed only whitespace |
| Tokenizer.TokenAt | src/tokenizer.rs:48-131 | the token at the first character after whitespace: `End` exactly at end of input with empty text, otherwise at least one character consumed; `Val` text is literal-shaped, `Ident` text holds no quote, and the missing-comma panic never happens |
| Tokenizer.NextToken | src/tokenizer.rs:44-132 | `next_token` returns `End` exactly when only whitespace remains, and otherwise consumes at least one character |
| Tokenizer.NextTokenBy | src/tokenizer.rs:44-132 | for any rule ending a bare word, the next token is `End` exactly when only whitespace remains, and otherwise consumes at least one character without passing the end |
| Tokenizer.NextTokenIntended | src/tokenizer.rs:108-120 | the same guarantees for the tokenizer whose bare word stops before `}` and `]` |
| Tokenizer.Next | src/tokenizer.rs:139-149 | `Iterator::next` is `None` exactly when only whitespace remains, never yields `End`, and panics exactly when `next_token` does |
| Tokenizer.Tokens | src/tokenizer.rs:139-149 | draining the iterator yields no `End` token, at most one token per remaining character, and nothing exactly when only whitespace remains |
| TokenizerProperties.WhitespaceSkipped | src/tokenizer.rs:45 | the token read at a position is the one read after skipping the whitespace there |
| TokenizerProperties.StructuralToken | src/tokenizer.rs:52-75 | each of `{ } [ ] : ,` is one token of the matching kind with that character as text |
| TokenizerProperties.QuotedRunUnterminated | src/tokenizer.rs:95-97 | a quote with no closing quote after it panics with the missing-quote error, and only that error |
| TokenizerProperties.QuotedRunTerminated | src/tokenizer.rs:76-94 | a closed quoted run is an `Ident` holding the text between the quotes exactly when `:` follows the closing quote, otherwise a `Val` holding the quotes too; the token ends after the closing quote |
| TokenizerProperties.DigitRun | src/tokenizer.rs:99-107 | a run starting with a digit is that digit and the maximal run of ASCII alphanumerics after it |
| TokenizerProperties.BareWord | src/tokenizer.rs:108-120 | any other ASCII character starts a bare word that runs up to the next `,` or the end of input; a following `,` is consumed with it |
| TokenizerProperties.BareWordSwallowsCloser | src/tokenizer.rs:110 | `true]` is a single bare word: the loop runs over a closing bracket |
| TokenizerProperties.IntendedBareWord | src/tokenizer.rs:113 | with the loop stopping before `}` and `]` as well, a bare word contains none of `,`, `}`, `]`; a following `,` is consumed and a closing bracket is left for the next token |
| TokenizerProperties.NonAsciiUnsupported | src/tokenizer.rs:121-123 | a non-ASCII character that is not whitespace panics as an unsupported token |
| TokenizerProperties.NeverMissingEndingComma | src/tokenizer.rs:113-120 | the missing-comma panic is unreachable: after the loop the next character is a comma or there is none |
| TokenizerProperties.TokensUnfold | src/tokenizer.rs:139-149 | a successful drain is the first token of `next_token` followed by the drain from where that token ends |
| NumeralProperties.DecimalValue | src/parser.rs:79 | the digits `Display` writes for an integer denote that integer |
| NumeralProperties.CanonicalDecimal | src/parser.rs:79 | digits with no superfluous leading zero are exactly what `Display` writes for their value |
| NumeralProperties.ParseU64OfDecimal | src/parser.rs:200-203 | `u64::from_str` reads back what `Display` writes |
| NumeralProperties.ParseI64OfSignedDecimal | src/parser.rs:190-193 | `i64::from_str` reads back what `Display` writes, sign included |
| Numerals.Decimal | src/parser.rs:79 | `Display` of a `u64` writes digits with no superfluous leading zero |
| Numerals.SignedDecimal | src/parser.rs:82 | `Display` of an `i64` is non-empty, opens with `-` exactly for a negative value, and writes canonical digits after the sign |
| Numerals.ParseU64 | src/parser.rs:201 | `u64::from_str` rejects a leading `-`, any other non-digit first character but `+`, and any non-digit after the first character; a string of digits is accepted exactly when its value is below 2^64 |
| Numerals.ParseI64 | src/parser.rs:191 | `i64::from_str` gives a negative value only after a leading `-`, never a positive one after it, rejects any non-digit after the first character, and agrees with `u64::from_str` on text without a leading `-` |
| Json.Insert | src/parser.rs:108 | `IndexMap::insert` keeps keys distinct, appends a new key at the end, keeps an existing key's position, overwrites only that key's value and leaves every other entry in place |
| Json.InsertLookup | src/parser.rs:108 | after inserting, the key maps to the new value and every other key maps to what it did before |
| Json.InsertExtendsKeys | src/parser.rs:108 | inserting never removes a key |
| ObjectSemantics.InsertAllSemantics | src/parser.rs:99-110 | the map built from a sequence of members has one entry per distinct key, in the order of each key's first appearance, carrying the value of its last appearance |
| ObjectSemantics.InsertAllDistinct | src/parser.rs:99-110 | members with no repeated key are kept exactly as given |
| Parser.ParseNumber | src/parser.rs:170-211 | the number branch: text with `.`, `e` or `E` is a float exactly when `f64::from_str` accepts it, and keeps its text; otherwise text with a leading `-` gives the `i64` that `i64::from_str` reads exactly when it reads one, and any other text the `u64` that `u64::from_str` reads exactly when it reads one; any rejection is an invalid token at the token's location |
| Parser.ParseWord | src/parser.rs:212-223 | `true`/`false` must match in full; `null` is recognised exactly when the text and `null` agree on their common prefix; anything else is an invalid token |
| Parser.ParseLiteral | src/parser.rs:161-224 | a `Val` text never makes an array or object; quoted text is the string between the quotes; the panic arises exactly for empty text or a lone `"`; other text made only of number characters goes to the number branch and any other text to the word branch; a number is made only of number characters; errors carry the token's location |
| Parser.ParseVal | src/parser.rs:159-232 | `parse_val` consumes nothing after a literal, opens an array on `[` and an object on `{`, rejects every other token as an invalid token at that token, never reports an invalid starting token, cannot panic on literal-shaped tokens, and reports errors at the token or at a later one |
| Parser.ParseArray | src/parser.rs:121-153 | `parse_array` ends just after a `]`, extends the elements collected so far, and reports errors only at tokens it reached |
| Parser.ParseObject | src/parser.rs:96-119 | `parse_object` ends just after a `}`, returns distinct keys including all keys collected so far, and reports errors only at tokens it reached |
| Parser.ParseIdent | src/parser.rs:234-246 | `parse_ident` succeeds only when the next token is `:`, and returns a member named by the key |
| Parser.Parse | src/parser.rs:248-260 | `parse` returns an object only after a first `{` and an array only after a first `[`; the invalid-starting-token error arises exactly when the first token is neither, located at that token; no panic on literal-shaped tokens; every error lies at a token it reached or at end of input |
| ParserSteps.ArrayClose | src/parser.rs:128-130 | `]` ends the array with the elements collected so far |
| ParserSteps.ArrayComma | src/parser.rs:144 | a comma in an array is skipped |
| ParserSteps.ArrayElement | src/parser.rs:132-136 | a value that parses is appended and the loop resumes after it |
| ParserSteps.ArrayRejectsIdent | src/parser.rs:138-143 | a key inside an array is an invalid-ident error at the key |
| ParserSteps.ArrayRejectsStray | src/parser.rs:145-150 | `}`, `:` or the end of input where an element belongs is an unexpected token there |
| ParserSteps.ObjectClose | src/parser.rs:111 | `}` ends the object with the map built so far |
| ParserSteps.ObjectComma | src/parser.rs:110 | a comma in an object is skipped |
| ParserSteps.ObjectMember | src/parser.rs:105-109 | a member that parses is inserted and the loop resumes after it |
| ParserSteps.ObjectRejectsStray | src/parser.rs:111-116 | anything but a key, `,` or `}` where a member belongs is an unexpected token there |
| ParserSteps.IdentValue | src/parser.rs:238-242 | after a key, `:` and a value make the member |
| ParserSteps.IdentNeedsColon | src/parser.rs:238 | a key not followed by `:` is an unexpected token at what follows |
| ParserSteps.ValArray | src/parser.rs:225-226 | `parse_val` hands `[` to `parse_array` starting empty |
| ParserSteps.ValObject | src/parser.rs:225-226 | `parse_val` hands `{` to `parse_object` starting from the empty map |
| ParserSteps.ValLiteral | src/parser.rs:161-224 | a literal consumes no further token |
| ParserSteps.ValLiteralFails | src/parser.rs:161-224 | a literal that fails to parse is the error of `parse_val` |
| ParserSteps.ArrayElementFails | src/parser.rs:132-136 | an element that fails to parse ends the array with that same error, whatever was collected |
| ParserSteps.ObjectMemberFails | src/parser.rs:105-108 | a member that fails to parse ends the object with that same error, whatever the map holds |
| ParserSteps.IdentValueFails | src/parser.rs:238-242 | after a key and `:`, a value that fails to parse (the end of input included) is the error of `parse_ident` |
| ParserSteps.DocumentObject | src/parser.rs:251-253 | a document opening with `{` gives exactly what `parse_object` gives from the next token, its error included |
| ParserSteps.DocumentArray | src/parser.rs:251-254 | a document opening with `[` gives exactly what `parse_array` gives from the next token, its error included |
| Display.Indent | src/parser.rs:27-32 | `print_indent` writes exactly four spaces per level |
| Display.ScalarText | src/parser.rs:65-84 | a string prints between quotes; an integer prints as canonical decimal digits denoting its magnitude, preceded by `-` exactly when it is negative; a float prints its text; booleans and null print their words |
| Display.Fmt | src/parser.rs:33-88 | a scalar prints the same at every depth; an array opens with `[` and closes with `]`, an object opens with `{` and closes with `}` |
| Display.FmtItems | src/parser.rs:38-44 | the element lines of a non-empty array end with `,` and a newline |
| Display.FmtMembers | src/parser.rs:51-60 | the member lines of a non-empty object end with a newline |
| Display.ToText | src/parser.rs:90-94 | at depth 0 empty containers print `[]` and `{}`; a non-empty array starts `[` and a newline and ends `,`, a newline and `]`; a non-empty object starts `{` and a newline and ends with a newline and `}` |
| DisplayProperties.EmptyArrayText | src/parser.rs:35-46 | an empty array prints `[]` at any depth |
| DisplayProperties.EmptyObjectText | src/parser.rs:48-64 | an empty object prints the indentation of its own depth between its braces, so it is `{}` only at depth 0 |
| DisplayProperties.NestedEmptyObjectText | src/parser.rs:62 | `[{}]` prints its inner object as `{    }` |
| DisplayProperties.EmptyObjectTextIntended | src/parser.rs:62 | with the indentation written only after members, an empty object prints `{}` at every depth |
| DisplayProperties.NestedEmptyObjectTextIntended | src/parser.rs:62 | with that placement `[{}]` prints its inner object as `{}` |
| DisplayProperties.StylesAgree | src/parser.rs:48-64 | both placements of the closing indentation print the same text for every tree with no empty object |
| DisplayProperties.ArrayLayout | src/parser.rs:35-47 | a non-empty array is `[`, a newline, each element on its own line one level deeper followed by `,` and a newline, then the array's indentation and `]` |
| DisplayProperties.ObjectLayout | src/parser.rs:48-64 | a non-empty object is `{`, a newline, `"key": value` lines one level deeper joined by `,` and a newline with no comma after the last, a newline, the object's indentation and `}` |
| LiteralProperties.StringRoundTrip | src/parser.rs:167-169 | a string prints in quotes and `parse_val` reads it back |
| LiteralProperties.WordRoundTrip | src/parser.rs:212-217 | booleans and null read back from what they print |
| LiteralProperties.UnsignedRoundTrip | src/parser.rs:200-210 | an unsigned integer reads back from its decimal text |
| LiteralProperties.SignedRoundTrip | src/parser.rs:190-199 | a negative signed integer reads back from its text |
| LiteralProperties.FloatRoundTrip | src/parser.rs:172-186 | float text with a float marker that `f64::from_str` accepts reads back as itself |
| LiteralProperties.ScalarRoundTrip | src/parser.rs:161-224 | every scalar whose printed text is made of characters its branch accepts reads back as itself |
| LiteralProperties.NonNegativeSignedReadsUnsigned | src/parser.rs:188-203 | a non-negative signed integer prints without a sign and reads back as an unsigned one: same value, other variant |
| LiteralProperties.MinusZeroIsSigned | src/parser.rs:190-193 | `-0` is a signed zero and prints as `0` |
| LiteralProperties.NullIsPrefixMatch | src/parser.rs:212-217 | `nul` and `null}` read as null while `true}` is an invalid token |
| LiteralProperties.UnsignedExample | src/parser.rs:200-203 | `42` is an unsigned integer |
| LiteralProperties.SignedExample | src/parser.rs:190-193 | `-2` is a signed integer |
| LiteralProperties.QuotedTextIsNotFloat | src/parser.rs:178 | `f64::from_str` rejects empty or quoted text, so the string branch and the float branch never overlap |
| LiteralProperties.FloatTextShape | src/parser.rs:178 | text `f64::from_str` accepts is non-empty and does not open with `"` |
| LiteralProperties.FloatWithExponentExample | src/parser.rs:172-180 | `27.0E2` is a float keeping its text |
| LiteralProperties.FloatWithNegativeExponentExample | src/parser.rs:172-180 | `4e-6` is a float keeping its text |
| LiteralProperties.MalformedFloatExample | src/parser.rs:178-186 | `1.2.3` is an invalid token |
| LiteralProperties.NestedMalformedFloatExample | src/parser.rs:105-108 | in `{"a": 1.2.3}` the malformed number ends the whole parse as an invalid token at the number |
| TokenRoundTrip.ValEmitted | src/parser.rs:159-232 | `parse_val` on the token stream of an emittable value returns that value and stops right after it |
| TokenRoundTrip.ArrayEmitted | src/parser.rs:121-153 | an emitted array parses back to its elements in order |
| TokenRoundTrip.ObjectEmitted | src/parser.rs:96-119 | an emitted object with distinct keys parses back to its members in order |
| TokenRoundTrip.ItemsEmitted | src/parser.rs:121-153 | `parse_array` on emitted comma-separated elements and `]` appends exactly those elements |
| TokenRoundTrip.MemberEmitted | src/parser.rs:234-246 | `parse_ident` after an emitted key yields that member |
| TokenRoundTrip.MembersEmitted | src/parser.rs:96-119 | `parse_object` on emitted members and `}` inserts exactly those members, in order |
| TokenRoundTrip.DocumentRoundTrip | src/parser.rs:248-260 | `parse` reads the token stream of every emittable array or object back as itself |
| TokenRoundTrip.DuplicateKeysRoundTrip | src/parser.rs:96-119 | a stream repeating keys parses to one entry per key in first-appearance order with the last value |
| Pipeline.LexBy | src/tokenizer.rs:139-149 | draining the tokenizer yields at most one token per character, none of them `End` or located at end of input, all literal-shaped; nothing at the end of input |
| Pipeline.ReadBy | src/parser.rs:248-260 | reading a document gives an array or an object, and never the parser's panic |
| PipelineProperties.LexMatchesTokens | src/tokenizer.rs:139-149 | the drained tokens are those of `Iterator::next` kind for kind, and the drain fails exactly when the iterator panics, with the same panic |
| PipelineProperties.StructuralStep | src/tokenizer.rs:52-75 | a structural character is read as its one-character token |
| PipelineProperties.BareWordStep | src/tokenizer.rs:108-120 | a bare word ends where the loop's predicate first fails, or at end of input |
| PipelineProperties.KeyStep | src/tokenizer.rs:76-87 | a quoted run with `:` right after it is a key token |
| PipelineProperties.ArrayOfTrueRejected | src/tokenizer.rs:110 | `[true]` is an invalid token at the bare word `true]` |
| PipelineProperties.ArrayOfTrueRead | src/tokenizer.rs:113 | with the bare word stopping before `]`, `[true]` reads as the array holding `true` |
| PipelineProperties.ObjectOfNullRejected | src/tokenizer.rs:110 | `{"a":null}` is an unexpected token at end of input: `null}` swallows the closing brace |
| PipelineProperties.ObjectOfNullRead | src/tokenizer.rs:113 | with the bare word stopping before `}`, `{"a":null}` reads as the object mapping `a` to null |

## Left out

- Display.Fmt: depth is unbounded. In the source it is a `u8`, and `depth + 1` overflows past 255 levels of nesting.
- Display.ScalarText: a float prints the text it was read from. Rust prints the shortest text that parses back to the same `f64`, which can differ: `27.0E2` prints as `2700`. `f64` values and their formatting are not modelled.
- The `Result` of `Formatter` writes is not modelled. Display is a pure function to text.
- Locations: the tokenizer of `src/tokenizer.rs` computes none. `Pipeline` takes them from a `locate` parameter. `TokenRoundTrip.Emit` gives every token the same location, and the round trip holds for any location.
- `expect_token` is not part of `src/tokenizer.rs`. It is modelled as "the next token has the expected kind, or an unexpected-token error at that token".
- The `unreachable!()` of `parse_ident` (`src/parser.rs:244`): the model passes the key's text directly, so that branch does not exist.
- `is_num_char` is not part of this model. It is the parameter `isNumChar`.
- `src/lib.rs` only declares the modules and holds a test. Neither is modelled.
- TokenRoundTrip.DocumentRoundTrip: covers trees whose scalars read back as themselves (`Emittable`):
  - non-negative signed integers read back as unsigned ones (`LiteralProperties.NonNegativeSignedReadsUnsigned`);
  - float text must carry a float marker.
- A text-level round trip (printing, then tokenizing and parsing) is not stated. The printed layout meets the tokenizer's digit-run and bare-word rules only for some trees, and the token level already carries the parser's half.
- Pipeline.LexBy: states the empty result for an empty suffix only, not "empty exactly when only whitespace remains". The full statement is `Tokenizer.Tokens`'s, and `PipelineProperties.LexMatchesTokens` ties the two together.

## Findings

| source | as written | input that shows it | evidently intended | confidence | as-written member | corrected member |
|---|---|---|---|---|---|---|
| src/tokenizer.rs:110 | the bare-word loop runs up to the next `,` only, so a closing `]` or `}` right after a literal becomes part of the literal, even though the check on line 113 lists `}` and `]` as acceptable terminators | `[true]` (an invalid token at `true]`); `{"a":null}` (an unexpected token at end of input) | the word stops before `,`, `}` and `]`, leaving the bracket to close its array or object | not executed | TokenizerProperties.BareWordSwallowsCloser, PipelineProperties.ArrayOfTrueRejected, PipelineProperties.ObjectOfNullRejected | TokenizerProperties.IntendedBareWord, PipelineProperties.ArrayOfTrueRead, PipelineProperties.ObjectOfNullRead |
| src/parser.rs:62 | the object branch writes the indentation of its depth before `}` even when the object is empty, unlike the array branch, which writes it only after elements | `[{}]` prints its inner object as `{    }` | an empty object prints `{}` at every depth, as an empty array prints `[]` | not executed | DisplayProperties.NestedEmptyObjectText, DisplayProperties.EmptyObjectText | DisplayProperties.EmptyObjectTextIntended, DisplayProperties.NestedEmptyObjectTextIntended, DisplayProperties.StylesAgree |
