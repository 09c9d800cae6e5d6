/** One step of each loop of src/parser.rs, stated on its own: what a single token does. */
module ParserSteps {
  import opened Results
  import opened Json
  import opened Parser

  /** `]` ends `parse_array` with the elements collected so far. */
  lemma ArrayClose(ts: seq<Token>, i: nat, acc: seq<JsonVal>, isNumChar: char -> bool)
    requires i < |ts| && ts[i].kind == ClosedSqBracket
    ensures ParseArray(ts, i, acc, isNumChar) == Ok(Parsed(Array(acc), i + 1))
  {
  }

  /** A comma inside an array is skipped. */
  lemma ArrayComma(ts: seq<Token>, i: nat, acc: seq<JsonVal>, isNumChar: char -> bool)
    requires i < |ts| && ts[i].kind == Comma
    ensures ParseArray(ts, i, acc, isNumChar) == ParseArray(ts, i + 1, acc, isNumChar)
  {
  }

  /** An element that parses is appended, and the loop resumes after it. */
  lemma ArrayElement(ts: seq<Token>, i: nat, acc: seq<JsonVal>, isNumChar: char -> bool, v: JsonVal, n: nat)
    requires i < |ts|
    requires ts[i].kind == OpenSqBracket || ts[i].kind == OpenBracket || ts[i].kind.Val?
    requires ParseVal(ts[i], ts, i + 1, isNumChar) == Ok(Parsed(v, n))
    ensures n <= |ts|
    ensures ParseArray(ts, i, acc, isNumChar) == ParseArray(ts, n, acc + [v], isNumChar)
  {
  }

  /** A key inside an array is an error at the key's location. */
  lemma ArrayRejectsIdent(ts: seq<Token>, i: nat, acc: seq<JsonVal>, isNumChar: char -> bool)
    requires i < |ts| && ts[i].kind.Ident?
    ensures ParseArray(ts, i, acc, isNumChar) == Err(ParsingError(InvalidIdentInArray, ts[i].loc))
  {
  }

  /** `}`, `:` or the end of the tokens where an array element belongs is an unexpected token. */
  lemma ArrayRejectsStray(ts: seq<Token>, i: nat, acc: seq<JsonVal>, isNumChar: char -> bool)
    requires i <= |ts|
    requires Peek(ts, i).kind in {ClosedBracket, Colon, End}
    ensures ParseArray(ts, i, acc, isNumChar) == Err(ParsingError(UnexpectedToken, Peek(ts, i).loc))
  {
  }

  /** `}` ends `parse_object` with the map built so far. */
  lemma ObjectClose(ts: seq<Token>, i: nat, acc: seq<Member>, isNumChar: char -> bool)
    requires i < |ts| && ts[i].kind == ClosedBracket
    requires DistinctKeys(acc)
    ensures ParseObject(ts, i, acc, isNumChar) == Ok(Parsed(Object(acc), i + 1))
  {
  }

  /** A comma inside an object is skipped. */
  lemma ObjectComma(ts: seq<Token>, i: nat, acc: seq<Member>, isNumChar: char -> bool)
    requires i < |ts| && ts[i].kind == Comma
    requires DistinctKeys(acc)
    ensures ParseObject(ts, i, acc, isNumChar) == ParseObject(ts, i + 1, acc, isNumChar)
  {
  }

  /** A member that parses is inserted into the map, and the loop resumes after it. */
  lemma ObjectMember(ts: seq<Token>, i: nat, acc: seq<Member>, isNumChar: char -> bool, m: Member, n: nat)
    requires i < |ts| && ts[i].kind == Ident(m.key)
    requires DistinctKeys(acc)
    requires ParseIdent(m.key, ts, i + 1, isNumChar) == Ok(Parsed(m, n))
    ensures n <= |ts|
    ensures ParseObject(ts, i, acc, isNumChar) == ParseObject(ts, n, Insert(acc, m.key, m.value), isNumChar)
  {
  }

  /** Anything but a key, `,` or `}` where a member belongs is an unexpected token. */
  lemma ObjectRejectsStray(ts: seq<Token>, i: nat, acc: seq<Member>, isNumChar: char -> bool)
    requires i <= |ts| && DistinctKeys(acc)
    requires !Peek(ts, i).kind.Ident? && Peek(ts, i).kind != Comma && Peek(ts, i).kind != ClosedBracket
    ensures ParseObject(ts, i, acc, isNumChar) == Err(ParsingError(UnexpectedToken, Peek(ts, i).loc))
  {
  }

  /** After a key: a `:` and the token after it open the member's value. */
  lemma IdentValue(name: string, ts: seq<Token>, i: nat, isNumChar: char -> bool, v: JsonVal, n: nat)
    requires i + 1 < |ts| && ts[i].kind == Colon
    requires ParseVal(ts[i + 1], ts, i + 2, isNumChar) == Ok(Parsed(v, n))
    ensures ParseIdent(name, ts, i, isNumChar) == Ok(Parsed(Member(name, v), n))
  {
  }

  /** A key not followed by `:` is an unexpected token at whatever follows it. */
  lemma IdentNeedsColon(name: string, ts: seq<Token>, i: nat, isNumChar: char -> bool)
    requires i <= |ts| && Peek(ts, i).kind != Colon
    ensures ParseIdent(name, ts, i, isNumChar) == Err(ParsingError(UnexpectedToken, Peek(ts, i).loc))
  {
  }

  /** `parse_val` hands a `[` to `parse_array`. */
  lemma ValArray(tok: Token, ts: seq<Token>, i: nat, isNumChar: char -> bool)
    requires i <= |ts| && tok.kind == OpenSqBracket
    ensures ParseVal(tok, ts, i, isNumChar) == ParseArray(ts, i, [], isNumChar)
  {
  }

  /** `parse_val` hands a `{` to `parse_object`, starting from the empty map. */
  lemma ValObject(tok: Token, ts: seq<Token>, i: nat, isNumChar: char -> bool)
    requires i <= |ts| && tok.kind == OpenBracket
    ensures ParseVal(tok, ts, i, isNumChar) == ParseObject(ts, i, [], isNumChar)
  {
  }

  /** A literal consumes no further token. */
  lemma ValLiteral(tok: Token, ts: seq<Token>, i: nat, isNumChar: char -> bool, v: JsonVal)
    requires i <= |ts| && tok.kind.Val?
    requires ParseLiteral(tok.kind.text, tok.loc, isNumChar) == Ok(v)
    ensures ParseVal(tok, ts, i, isNumChar) == Ok(Parsed(v, i))
  {
  }

  /** A literal that fails to parse is the error of `parse_val`. */
  lemma ValLiteralFails(tok: Token, ts: seq<Token>, i: nat, isNumChar: char -> bool, e: ParsingError)
    requires i <= |ts| && tok.kind.Val?
    requires ParseLiteral(tok.kind.text, tok.loc, isNumChar) == Err(e)
    ensures ParseVal(tok, ts, i, isNumChar) == Err(e)
  {
  }

  /** An element that fails to parse ends `parse_array` with its error: the `?` after each push. */
  lemma ArrayElementFails(ts: seq<Token>, i: nat, acc: seq<JsonVal>, isNumChar: char -> bool, e: ParsingError)
    requires i < |ts|
    requires ts[i].kind == OpenSqBracket || ts[i].kind == OpenBracket || ts[i].kind.Val?
    requires ParseVal(ts[i], ts, i + 1, isNumChar) == Err(e)
    ensures ParseArray(ts, i, acc, isNumChar) == Err(e)
  {
  }

  /** A member that fails to parse ends `parse_object` with its error, whatever the map holds. */
  lemma ObjectMemberFails(ts: seq<Token>, i: nat, acc: seq<Member>, isNumChar: char -> bool, name: string, e: ParsingError)
    requires i < |ts| && ts[i].kind == Ident(name)
    requires DistinctKeys(acc)
    requires ParseIdent(name, ts, i + 1, isNumChar) == Err(e)
    ensures ParseObject(ts, i, acc, isNumChar) == Err(e)
  {
  }

  /** After `:`, a value that fails to parse is the error of `parse_ident`; the end of the tokens counts as the value. */
  lemma IdentValueFails(name: string, ts: seq<Token>, i: nat, isNumChar: char -> bool, e: ParsingError)
    requires i < |ts| && ts[i].kind == Colon
    requires ParseVal(Peek(ts, i + 1), ts, Advance(ts, i + 1), isNumChar) == Err(e)
    ensures ParseIdent(name, ts, i, isNumChar) == Err(e)
  {
  }

  /** A document opening with `{` is exactly `parse_object` from the next token: its value or its error. */
  lemma DocumentObject(ts: seq<Token>, isNumChar: char -> bool)
    requires 0 < |ts| && ts[0].kind == OpenBracket
    ensures ParseObject(ts, 1, [], isNumChar).Err? ==> Parse(ts, isNumChar) == Err(ParseObject(ts, 1, [], isNumChar).error)
    ensures ParseObject(ts, 1, [], isNumChar).Ok? ==> Parse(ts, isNumChar) == Ok(ParseObject(ts, 1, [], isNumChar).value.value)
  {
  }

  /** A document opening with `[` is exactly `parse_array` from the next token: its value or its error. */
  lemma DocumentArray(ts: seq<Token>, isNumChar: char -> bool)
    requires 0 < |ts| && ts[0].kind == OpenSqBracket
    ensures ParseArray(ts, 1, [], isNumChar).Err? ==> Parse(ts, isNumChar) == Err(ParseArray(ts, 1, [], isNumChar).error)
    ensures ParseArray(ts, 1, [], isNumChar).Ok? ==> Parse(ts, isNumChar) == Ok(ParseArray(ts, 1, [], isNumChar).value.value)
  {
  }
}
