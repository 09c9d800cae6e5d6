/**
  The character tokenizer of src/tokenizer.rs. The Rust `Peekable<Chars>` is
  the input `seq<char>` together with the position of the next unread
  character; every `panic!` of the source is an `Err` outcome.
 */
module Tokenizer {
  import opened Results
  import opened Chars

  datatype TokenKind =
    | OpenBracket      // {
    | ClosedBracket    // }
    | OpenSqBracket    // [
    | ClosedSqBracket  // ]
    | Comma
    | Colon
    | Ident
    | Val
    | End

  /** A token keeps its text; `End` carries the empty text. */
  datatype Token = Token(kind: TokenKind, text: string)

  /** The three panics of `next_token`. */
  datatype LexError =
    | MissingEndingQuote
    | MissingEndingComma(text: string)
    | UnsupportedToken(c: char)

  /** One call of `next_token`: the token and where the character iterator is left. */
  datatype Step = Step(token: Token, next: nat)

  /** End of the maximal run of characters satisfying `p` that starts at `from`:
      the `while let Some(c) = self.iter.next_if(p)` loops. */
  function RunEnd(input: string, from: nat, p: char -> bool): (e: nat)
    requires from <= |input|
    ensures from <= e <= |input|
    ensures forall k | from <= k < e :: p(input[k])
    ensures e == |input| || !p(input[e])
    decreases |input| - from
  {
    if from == |input| || !p(input[from]) then from else RunEnd(input, from + 1, p)
  }

  /** `trim_whitespace`: the position of the first non-whitespace character at or after `pos`. */
  function SkipWhitespace(input: string, pos: nat): (s: nat)
    requires pos <= |input|
    ensures pos <= s <= |input|
    ensures forall k | pos <= k < s :: IsWhitespace(input[k])
    ensures s == |input| || !IsWhitespace(input[s])
  {
    RunEnd(input, pos, IsWhitespace)
  }

  predicate NotQuote(c: char)
  {
    c != '"'
  }

  /** The source's bare-word loop continues up to the next `,` only. */
  predicate ContinuesBareWord(c: char)
  {
    c != ','
  }

  /** A bare word that also stops before a closing `}` or `]` (see the README's findings). */
  predicate ContinuesBareWordIntended(c: char)
  {
    c != ',' && c != '}' && c != ']'
  }

  function StructuralKind(c: char): TokenKind
    requires IsStructural(c)
  {
    match c
    case '{' => OpenBracket
    case '}' => ClosedBracket
    case '[' => OpenSqBracket
    case ']' => ClosedSqBracket
    case ':' => Colon
    case ',' => Comma
  }

  /** All remaining characters from `pos` on are whitespace. */
  predicate OnlyWhitespaceFrom(input: string, pos: nat)
    requires pos <= |input|
  {
    forall k | pos <= k < |input| :: IsWhitespace(input[k])
  }

  /** The classification half of `next_token`, at the first character `trim_whitespace`
      left in place; the bare-word loop's continuation test is a parameter so that the
      source's loop and its evidently intended form share one definition. */
  function TokenAt(input: string, s: nat, inBareWord: char -> bool): (r: Result<Step, LexError>)
    requires s <= |input|
    requires s == |input| || !IsWhitespace(input[s])
    ensures r.Ok? ==> s <= r.value.next <= |input|
    ensures r.Ok? && r.value.token.kind == End <==> s == |input|
    ensures r.Ok? && r.value.token.kind == End ==> r.value.token.text == [] && r.value.next == |input|
    ensures r.Ok? && r.value.token.kind != End ==> s < r.value.next
    ensures r.Ok? && r.value.token.kind == Val ==> LiteralShaped(r.value.token.text)
    ensures r.Ok? && r.value.token.kind == Ident ==> '"' !in r.value.token.text
    ensures !(r.Err? && r.error.MissingEndingComma?)
  {
    if s == |input| then
      Ok(Step(Token(End, ""), s))
    else
      var c := input[s];
      if IsStructural(c) then
        Ok(Step(Token(StructuralKind(c), [c]), s + 1))
      else if c == '"' then
        var e := RunEnd(input, s + 1, NotQuote);
        var content := input[s + 1..e];
        if e == |input| then
          Err(MissingEndingQuote)
        else if e + 1 < |input| && input[e + 1] == ':' then
          Ok(Step(Token(Ident, content), e + 1))
        else
          Ok(Step(Token(Val, "\"" + content + "\""), e + 1))
      else if IsAsciiDigit(c) then
        var e := RunEnd(input, s + 1, IsAsciiAlphanumeric);
        Ok(Step(Token(Val, input[s..e]), e))
      else if IsAscii(c) then
        var e := RunEnd(input, s + 1, inBareWord);
        var text := input[s..e];
        var taken: Option<char> := if e < |input| && input[e] == ',' then Some(',') else None;
        var next := if taken.Some? then e + 1 else e;
        match taken
        case None => Ok(Step(Token(Val, text), next))
        case Some(d) =>
          if d == ',' || d == '}' || d == ']' then Ok(Step(Token(Val, text), next))
          else Err(MissingEndingComma(text))
      else
        Err(UnsupportedToken(c))
  }

  /** `next_token`: skip whitespace, then classify. */
  function NextTokenBy(input: string, pos: nat, inBareWord: char -> bool): (r: Result<Step, LexError>)
    requires pos <= |input|
    ensures r.Ok? ==> pos <= r.value.next <= |input|
    ensures r.Ok? && r.value.token.kind == End <==> OnlyWhitespaceFrom(input, pos)
    ensures r.Ok? && r.value.token.kind != End ==> pos < r.value.next
  {
    var s := SkipWhitespace(input, pos);
    assert OnlyWhitespaceFrom(input, pos) <==> s == |input|;
    TokenAt(input, s, inBareWord)
  }

  /** `Tokenizer::next_token` as the source writes it. */
  function NextToken(input: string, pos: nat): (r: Result<Step, LexError>)
    requires pos <= |input|
    ensures r.Ok? ==> pos <= r.value.next <= |input|
    ensures r.Ok? && r.value.token.kind == End <==> OnlyWhitespaceFrom(input, pos)
    ensures r.Ok? && r.value.token.kind != End ==> pos < r.value.next
  {
    NextTokenBy(input, pos, ContinuesBareWord)
  }

  /** `next_token` with the bare-word loop stopping before `}` and `]` as well. */
  function NextTokenIntended(input: string, pos: nat): (r: Result<Step, LexError>)
    requires pos <= |input|
    ensures r.Ok? ==> pos <= r.value.next <= |input|
    ensures r.Ok? && r.value.token.kind == End <==> OnlyWhitespaceFrom(input, pos)
    ensures r.Ok? && r.value.token.kind != End ==> pos < r.value.next
  {
    NextTokenBy(input, pos, ContinuesBareWordIntended)
  }

  /** `Iterator::next`: `None` exactly where `next_token` returns `End`. */
  function Next(input: string, pos: nat): (r: Result<Option<Step>, LexError>)
    requires pos <= |input|
    ensures r.Ok? && r.value.None? <==> OnlyWhitespaceFrom(input, pos)
    ensures r.Ok? && r.value.Some? ==> r.value.value.token.kind != End
    ensures r.Ok? && r.value.Some? ==> pos < r.value.value.next <= |input|
    ensures r.Err? <==> NextToken(input, pos).Err?
  {
    match NextToken(input, pos)
    case Err(e) => Err(e)
    case Ok(step) => if step.token.kind == End then Ok(None) else Ok(Some(step))
  }

  /** Draining the iterator: every token up to (not including) `End`, or the first panic. */
  function Tokens(input: string, pos: nat): (r: Result<seq<Token>, LexError>)
    requires pos <= |input|
    ensures r.Ok? ==> forall k | 0 <= k < |r.value| :: r.value[k].kind != End
    ensures r.Ok? ==> |r.value| <= |input| - pos
    ensures r.Ok? && r.value == [] <==> OnlyWhitespaceFrom(input, pos)
    decreases |input| - pos
  {
    match Next(input, pos)
    case Err(e) => Err(e)
    case Ok(None) => Ok([])
    case Ok(Some(step)) =>
      match Tokens(input, step.next)
      case Err(e) => Err(e)
      case Ok(rest) => Ok([step.token] + rest)
  }
}
