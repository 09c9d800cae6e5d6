/**
  The recursive-descent parser of src/parser.rs, over a sequence of tokens and the index
  of the next unread one. Reading past the last token yields `End`, as a tokenizer at the
  end of its input does.
 */
module Parser {
  import opened Results
  import opened Chars
  import opened Json
  import opened Numerals

  /** Where a token starts. The parser never computes one: it only copies it into errors. */
  datatype Location = Location(line: nat, column: nat) | EndOfInput

  /** The parser's token kinds carry their text, as `TokenKind::Ident(String)` and
      `TokenKind::Val(String)` do in src/parser.rs. */
  datatype Kind =
    | OpenBracket
    | ClosedBracket
    | OpenSqBracket
    | ClosedSqBracket
    | Comma
    | Colon
    | Ident(name: string)
    | Val(text: string)
    | End

  datatype Token = Token(kind: Kind, loc: Location)

  /** `ParsingErrorKind`; `Panicked` stands for a panic of `parse_val`'s indexing. */
  datatype ParsingErrorKind =
    | UnexpectedToken
    | InvalidToken
    | InvalidStartingToken
    | InvalidIdentInArray
    | Panicked

  datatype ParsingError = ParsingError(kind: ParsingErrorKind, loc: Location)

  /** A parsed item and the index of the first token after it. */
  datatype Parsed<T> = Parsed(value: T, next: nat)

  function Peek(ts: seq<Token>, i: nat): Token
  {
    if i < |ts| then ts[i] else Token(End, EndOfInput)
  }

  function Advance(ts: seq<Token>, i: nat): (j: nat)
    requires i <= |ts|
    ensures j <= |ts|
    ensures i < |ts| ==> j == i + 1
  {
    if i < |ts| then i + 1 else i
  }

  /** Every `Val` token of `ts` has text `parse_val` can index. */
  predicate AllLiteralsShaped(ts: seq<Token>)
  {
    forall k | 0 <= k < |ts| :: ts[k].kind.Val? ==> LiteralShaped(ts[k].kind.text)
  }

  /** `loc` is `EndOfInput` or the location of one of the tokens from index `i` on. */
  predicate LocatedFrom(ts: seq<Token>, i: nat, loc: Location)
  {
    loc == EndOfInput || exists k | i <= k < |ts| :: ts[k].loc == loc
  }

  /** `a.iter().zip(b.chars()).all(|(x, y)| x == y)`: agreement on the shorter length. */
  predicate AgreesWith(a: string, b: string)
  {
    forall k | 0 <= k < |a| && k < |b| :: a[k] == b[k]
  }

  predicate HasFloatMarker(text: string)
  {
    exists k | 0 <= k < |text| :: ToAsciiLowercase(text[k]) == 'e' || text[k] == '.'
  }

  /** The number branch of `parse_val`, for text made of `is_num_char` characters only:
      a `.`, `e` or `E` makes a float, otherwise a leading `-` makes a signed integer and
      anything else an unsigned one; text `FromStr` rejects is an invalid token. */
  function ParseNumber(text: string, loc: Location): (r: Result<JsonVal, ParsingError>)
    requires |text| > 0
    ensures r.Ok? ==> r.value.Number?
    ensures r.Err? ==> r.error == ParsingError(InvalidToken, loc)
    ensures r.Ok? && r.value.num.Float? ==> r.value.num.text == text && HasFloatMarker(text) && IsRustFloat(text)
    ensures HasFloatMarker(text) && IsRustFloat(text) ==> r == Ok(Number(Float(text)))
    ensures r.Ok? && !r.value.num.Float? ==> '.' !in text && 'e' !in text && 'E' !in text
    ensures r.Ok? && r.value.num.SignedInt? ==> text[0] == '-' && ParseI64(text) == Some(r.value.num.i)
    ensures r.Ok? && r.value.num.UnsignedInt? ==> text[0] != '-' && ParseU64(text) == Some(r.value.num.u)
    ensures !HasFloatMarker(text) && text[0] == '-' && ParseI64(text).Some?
            ==> r == Ok(Number(SignedInt(ParseI64(text).value)))
    ensures !HasFloatMarker(text) && text[0] != '-' && ParseU64(text).Some?
            ==> r == Ok(Number(UnsignedInt(ParseU64(text).value)))
  {
    if HasFloatMarker(text) then
      if IsRustFloat(text) then Ok(Number(Float(text))) else Err(ParsingError(InvalidToken, loc))
    else
      assert '.' !in text && 'e' !in text && 'E' !in text by {
        forall k | 0 <= k < |text| ensures text[k] != '.' && text[k] != 'e' && text[k] != 'E' {
          assert ToAsciiLowercase(text[k]) != 'e';
        }
      }
      if text[0] == '-' then
        match ParseI64(text)
        case Some(n) => Ok(Number(SignedInt(n)))
        case None => Err(ParsingError(InvalidToken, loc))
      else
        match ParseU64(text)
        case Some(n) => Ok(Number(UnsignedInt(n)))
        case None => Err(ParsingError(InvalidToken, loc))
  }

  /** The word branch of `parse_val`: `true` and `false` must match in full, `null` only
      on the characters the text and `null` have in common. */
  function ParseWord(text: string, loc: Location): (r: Result<JsonVal, ParsingError>)
    ensures r.Err? ==> r.error == ParsingError(InvalidToken, loc)
    ensures r.Ok? ==> r.value.Boolean? || r.value.Null?
    ensures r.Ok? && r.value.Boolean? ==> text == (if r.value.b then "true" else "false")
    ensures r.Ok? && r.value.Null? <==> (|text| <= 4 && text == "null"[..|text|]) || (|text| > 4 && text[..4] == "null")
  {
    if |text| == 4 && AgreesWith(text, "true") then
      assert text[0] == 't';
      Ok(Boolean(true))
    else if |text| == 5 && AgreesWith(text, "false") then
      assert text[..4][0] == 'f';
      Ok(Boolean(false))
    else if AgreesWith(text, "null") then Ok(Null)
    else Err(ParsingError(InvalidToken, loc))
  }

  /** The `TokenKind::Val` arm of `parse_val`: classify literal text by its shape.
      `isNumChar` is the source's `is_num_char`. */
  function ParseLiteral(text: string, loc: Location, isNumChar: char -> bool): (r: Result<JsonVal, ParsingError>)
    ensures r.Err? ==> r.error.loc == loc
    ensures r.Err? && r.error.kind == Panicked <==> text == "" || text == "\""
    ensures r.Ok? ==> !r.value.Array? && !r.value.Object?
    ensures |text| >= 2 && text[0] == '"' && text[|text| - 1] == '"' ==> r == Ok(String(text[1..|text| - 1]))
    ensures r.Ok? && r.value.String? ==> text == "\"" + r.value.str + "\""
    ensures r.Ok? && r.value.Number? ==> forall k | 0 <= k < |text| :: isNumChar(text[k])
    ensures |text| > 0 && !(text[0] == '"' && text[|text| - 1] == '"')
            && (forall k | 0 <= k < |text| :: isNumChar(text[k]))
            ==> r == ParseNumber(text, loc)
    ensures |text| > 0 && !(text[0] == '"' && text[|text| - 1] == '"')
            && (exists k | 0 <= k < |text| :: !isNumChar(text[k]))
            ==> r == ParseWord(text, loc)
  {
    if |text| == 0 then Err(ParsingError(Panicked, loc))
    else if text[0] == '"' && text[|text| - 1] == '"' then
      if |text| < 2 then Err(ParsingError(Panicked, loc))
      else Ok(String(text[1..|text| - 1]))
    else if forall k | 0 <= k < |text| :: isNumChar(text[k]) then ParseNumber(text, loc)
    else ParseWord(text, loc)
  }

  /** `parse_val`: a literal, or a nested array or object opened by `tok`. */
  function ParseVal(tok: Token, ts: seq<Token>, i: nat, isNumChar: char -> bool): (r: Result<Parsed<JsonVal>, ParsingError>)
    requires i <= |ts|
    ensures r.Ok? ==> i <= r.value.next <= |ts|
    ensures r.Ok? && tok.kind.Val? ==> r.value.next == i && !r.value.value.Array? && !r.value.value.Object?
    ensures r.Ok? && tok.kind == OpenSqBracket ==> i < r.value.next && r.value.value.Array?
    ensures r.Ok? && tok.kind == OpenBracket ==> i < r.value.next && r.value.value.Object?
    ensures r.Ok? ==> tok.kind.Val? || tok.kind == OpenSqBracket || tok.kind == OpenBracket
    ensures r.Err? ==> r.error.kind != InvalidStartingToken
    ensures AllLiteralsShaped(ts) && (tok.kind.Val? ==> LiteralShaped(tok.kind.text)) ==> !(r.Err? && r.error.kind == Panicked)
    ensures r.Err? ==> r.error.loc == tok.loc || LocatedFrom(ts, i, r.error.loc)
    ensures !tok.kind.Val? && tok.kind != OpenSqBracket && tok.kind != OpenBracket
            ==> r == Err(ParsingError(InvalidToken, tok.loc))
    decreases |ts| - i, 1
  {
    match tok.kind
    case Val(text) =>
      (match ParseLiteral(text, tok.loc, isNumChar)
       case Err(e) => Err(e)
       case Ok(v) => Ok(Parsed(v, i)))
    case OpenSqBracket => ParseArray(ts, i, [], isNumChar)
    case OpenBracket => ParseObject(ts, i, [], isNumChar)
    case _ => Err(ParsingError(InvalidToken, tok.loc))
  }

  /** `parse_array`, after its `[`: elements are appended to `acc` in token order,
      commas are skipped, and the array ends at `]`. */
  function ParseArray(ts: seq<Token>, i: nat, acc: seq<JsonVal>, isNumChar: char -> bool): (r: Result<Parsed<JsonVal>, ParsingError>)
    requires i <= |ts|
    ensures r.Ok? ==> i < r.value.next <= |ts|
    ensures r.Ok? ==> r.value.value.Array? && acc <= r.value.value.items
    ensures r.Ok? ==> Peek(ts, r.value.next - 1).kind == ClosedSqBracket
    ensures r.Err? ==> r.error.kind != InvalidStartingToken
    ensures AllLiteralsShaped(ts) ==> !(r.Err? && r.error.kind == Panicked)
    ensures r.Err? ==> LocatedFrom(ts, i, r.error.loc)
    decreases |ts| - i, 0
  {
    var tok := Peek(ts, i);
    var j := Advance(ts, i);
    match tok.kind
    case ClosedSqBracket => Ok(Parsed(Array(acc), j))
    case OpenBracket | OpenSqBracket | Val(_) =>
      // A nested object, a nested array or a literal: `parse_val` dispatches on exactly
      // these three kinds to `parse_object`, `parse_array` and the literal arm.
      (match ParseVal(tok, ts, j, isNumChar)
       case Err(e) => Err(e)
       case Ok(p) => ParseArray(ts, p.next, acc + [p.value], isNumChar))
    case Ident(_) => Err(ParsingError(InvalidIdentInArray, tok.loc))
    case Comma => ParseArray(ts, j, acc, isNumChar)
    case _ => Err(ParsingError(UnexpectedToken, tok.loc))
  }

  /** `parse_object`, after its `{`: each `"key": value` member is inserted into the
      map `acc`, commas are skipped, and the object ends at `}`. */
  function ParseObject(ts: seq<Token>, i: nat, acc: seq<Member>, isNumChar: char -> bool): (r: Result<Parsed<JsonVal>, ParsingError>)
    requires i <= |ts|
    requires DistinctKeys(acc)
    ensures r.Ok? ==> i < r.value.next <= |ts|
    ensures r.Ok? ==> r.value.value.Object? && DistinctKeys(r.value.value.members)
    ensures r.Ok? ==> Keys(acc) <= Keys(r.value.value.members)
    ensures r.Ok? ==> Peek(ts, r.value.next - 1).kind == ClosedBracket
    ensures r.Err? ==> r.error.kind != InvalidStartingToken
    ensures AllLiteralsShaped(ts) ==> !(r.Err? && r.error.kind == Panicked)
    ensures r.Err? ==> LocatedFrom(ts, i, r.error.loc)
    decreases |ts| - i, 0
  {
    var tok := Peek(ts, i);
    var j := Advance(ts, i);
    match tok.kind
    case ClosedBracket => Ok(Parsed(Object(acc), j))
    case Ident(name) =>
      (match ParseIdent(name, ts, j, isNumChar)
       case Err(e) => Err(e)
       case Ok(p) =>
         var acc' := Insert(acc, p.value.key, p.value.value);
         InsertExtendsKeys(acc, p.value.key, p.value.value);
         ParseObject(ts, p.next, acc', isNumChar))
    case Comma => ParseObject(ts, j, acc, isNumChar)
    case _ => Err(ParsingError(UnexpectedToken, tok.loc))
  }

  /** `parse_ident`, after the key: a `:` and then one value. A missing colon is reported
      as an unexpected token at the token found instead. */
  function ParseIdent(name: string, ts: seq<Token>, i: nat, isNumChar: char -> bool): (r: Result<Parsed<Member>, ParsingError>)
    requires i <= |ts|
    ensures r.Ok? ==> i < r.value.next <= |ts|
    ensures r.Ok? ==> r.value.value.key == name && Peek(ts, i).kind == Colon
    ensures r.Err? ==> r.error.kind != InvalidStartingToken
    ensures AllLiteralsShaped(ts) ==> !(r.Err? && r.error.kind == Panicked)
    ensures r.Err? ==> LocatedFrom(ts, i, r.error.loc)
    decreases |ts| - i, 2
  {
    var colon := Peek(ts, i);
    if colon.kind != Colon then Err(ParsingError(UnexpectedToken, colon.loc))
    else
      var j := Advance(ts, i);
      var tok := Peek(ts, j);
      match ParseVal(tok, ts, Advance(ts, j), isNumChar)
      case Err(e) => Err(e)
      case Ok(p) => Ok(Parsed(Member(name, p.value), p.next))
  }

  /** `parse`: the document is one object or one array. */
  function Parse(ts: seq<Token>, isNumChar: char -> bool): (r: Result<JsonVal, ParsingError>)
    ensures r.Ok? ==> r.value.Object? || r.value.Array?
    ensures r.Ok? && r.value.Object? ==> Peek(ts, 0).kind == OpenBracket
    ensures r.Ok? && r.value.Array? ==> Peek(ts, 0).kind == OpenSqBracket
    ensures r.Err? && r.error.kind == InvalidStartingToken
            <==> Peek(ts, 0).kind != OpenBracket && Peek(ts, 0).kind != OpenSqBracket
    ensures r.Err? && r.error.kind == InvalidStartingToken ==> r.error.loc == Peek(ts, 0).loc
    ensures AllLiteralsShaped(ts) ==> !(r.Err? && r.error.kind == Panicked)
    ensures r.Err? ==> LocatedFrom(ts, 0, r.error.loc)
  {
    var tok := Peek(ts, 0);
    var j := Advance(ts, 0);
    match tok.kind
    case OpenBracket =>
      (match ParseObject(ts, j, [], isNumChar)
       case Err(e) => Err(e)
       case Ok(p) => Ok(p.value))
    case OpenSqBracket =>
      (match ParseArray(ts, j, [], isNumChar)
       case Err(e) => Err(e)
       case Ok(p) => Ok(p.value))
    case _ => Err(ParsingError(InvalidStartingToken, tok.loc))
  }
}
