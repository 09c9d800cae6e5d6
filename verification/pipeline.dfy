/**
  The two stages together. src/parser.rs pulls its tokens one at a time from a
  tokenizer whose tokens carry their text in the kind and a location; the tokenizer of
  src/tokenizer.rs keeps the text beside the kind and computes no location. This module
  converts the one token into the other, attaches a location supplied by the caller, and
  feeds the parser lazily: a tokenizer failure matters only once the parser asks for the
  token the tokenizer could not produce.
 */
module Pipeline {
  import opened Results
  import opened Json
  import T = Tokenizer
  import P = Parser

  /** The tokens the tokenizer produced before it stopped, and why it stopped early, if it did. */
  datatype Lexed = Lexed(tokens: seq<P.Token>, failure: Option<T.LexError>)

  /** A failure of either stage. */
  datatype ReadError = LexFailure(lexError: T.LexError) | ParseFailure(parseError: P.ParsingError)

  /** The parser's view of a tokenizer token: `Ident` and `Val` take the token's text. */
  function ToParserKind(t: T.Token): P.Kind
  {
    match t.kind
    case OpenBracket => P.OpenBracket
    case ClosedBracket => P.ClosedBracket
    case OpenSqBracket => P.OpenSqBracket
    case ClosedSqBracket => P.ClosedSqBracket
    case Comma => P.Comma
    case Colon => P.Colon
    case Ident => P.Ident(t.text)
    case Val => P.Val(t.text)
    case End => P.End
  }

  /** The location of the token whose first character is at `start`; `locate` maps an input
      position to a line and a column. */
  function LocationOf(start: nat, locate: nat -> (nat, nat)): P.Location
  {
    P.Location(locate(start).0, locate(start).1)
  }

  /** Drain the tokenizer from `pos`, converting each token, until it reports `End` or fails. */
  function LexBy(input: string, pos: nat, inBareWord: char -> bool, locate: nat -> (nat, nat)): (r: Lexed)
    requires pos <= |input|
    ensures |r.tokens| <= |input| - pos
    ensures forall k | 0 <= k < |r.tokens| :: r.tokens[k].kind != P.End && r.tokens[k].loc != P.EndOfInput
    ensures P.AllLiteralsShaped(r.tokens)
    ensures pos == |input| ==> r == Lexed([], None)
    decreases |input| - pos
  {
    match T.NextTokenBy(input, pos, inBareWord)
    case Err(e) => Lexed([], Some(e))
    case Ok(step) =>
      if step.token.kind == T.End then Lexed([], None)
      else
        var rest := LexBy(input, step.next, inBareWord, locate);
        var tok := P.Token(ToParserKind(step.token), LocationOf(T.SkipWhitespace(input, pos), locate));
        Lexed([tok] + rest.tokens, rest.failure)
  }

  /** The tokenizer as the source writes it. */
  function Lex(input: string, locate: nat -> (nat, nat)): Lexed
  {
    LexBy(input, 0, T.ContinuesBareWord, locate)
  }

  /** Read a document with a given bare-word loop. The parser sees the tokens produced before
      any tokenizer failure, then `End` at `EndOfInput`; every parser error reports the
      location of the token it was raised at, so an error at `EndOfInput` is raised exactly
      where the source would instead have asked the failing tokenizer for a token. */
  function ReadBy(input: string, inBareWord: char -> bool, isNumChar: char -> bool,
                  locate: nat -> (nat, nat)): (r: Result<JsonVal, ReadError>)
    ensures r.Ok? ==> r.value.Array? || r.value.Object?
    ensures !(r.Err? && r.error.ParseFailure? && r.error.parseError.kind == P.Panicked)
  {
    var lexed := LexBy(input, 0, inBareWord, locate);
    match P.Parse(lexed.tokens, isNumChar)
    case Ok(v) => Ok(v)
    case Err(e) =>
      if e.loc == P.EndOfInput && lexed.failure.Some? then Err(LexFailure(lexed.failure.value))
      else Err(ParseFailure(e))
  }

  /** `Parser::parse` on the tokenizer of src/tokenizer.rs. */
  function Read(input: string, isNumChar: char -> bool, locate: nat -> (nat, nat)): Result<JsonVal, ReadError>
  {
    ReadBy(input, T.ContinuesBareWord, isNumChar, locate)
  }

  /** The same with a bare word that also stops before `}` and `]`. */
  function ReadIntended(input: string, isNumChar: char -> bool, locate: nat -> (nat, nat)): Result<JsonVal, ReadError>
  {
    ReadBy(input, T.ContinuesBareWordIntended, isNumChar, locate)
  }
}

/** The conversion is faithful to the tokenizer's own iterator, and what reading does to
    the two documents that show the bare-word defect. */
module PipelineProperties {
  import opened Results
  import opened Json
  import T = Tokenizer
  import P = Parser
  import Chars
  import ParserSteps
  import opened Pipeline

  /** `Lex` yields the tokens of `Iterator::next`, kind for kind, and fails exactly when
      draining the iterator panics, with the same panic. */
  lemma {:induction false} LexMatchesTokens(input: string, pos: nat, locate: nat -> (nat, nat))
    requires pos <= |input|
    ensures var lexed := LexBy(input, pos, T.ContinuesBareWord, locate);
            var toks := T.Tokens(input, pos);
            && (toks.Ok? <==> lexed.failure.None?)
            && (toks.Err? ==> lexed.failure == Some(toks.error))
            && (toks.Ok? ==> |lexed.tokens| == |toks.value|
                             && forall k | 0 <= k < |toks.value| :: lexed.tokens[k].kind == ToParserKind(toks.value[k]))
    decreases |input| - pos
  {
    match T.NextToken(input, pos)
    case Err(e) =>
    case Ok(step) =>
      if step.token.kind != T.End {
        LexMatchesTokens(input, step.next, locate);
        var lexed := LexBy(input, pos, T.ContinuesBareWord, locate);
        var rest := LexBy(input, step.next, T.ContinuesBareWord, locate);
        assert lexed.tokens[1..] == rest.tokens;
      }
  }

  /** One token taken off the front: the draining loop continues after it. */
  lemma LexCons(input: string, pos: nat, inBareWord: char -> bool, locate: nat -> (nat, nat), tok: T.Token, next: nat)
    requires pos <= |input|
    requires T.NextTokenBy(input, pos, inBareWord) == Ok(T.Step(tok, next)) && tok.kind != T.End
    ensures next <= |input|
    ensures var rest := LexBy(input, next, inBareWord, locate);
            LexBy(input, pos, inBareWord, locate)
            == Lexed([P.Token(ToParserKind(tok), LocationOf(T.SkipWhitespace(input, pos), locate))] + rest.tokens,
                     rest.failure)
  {
  }

  lemma {:induction false} RunEndAt(input: string, from: nat, p: char -> bool, e: nat)
    requires from <= e <= |input|
    requires forall k | from <= k < e :: p(input[k])
    requires e == |input| || !p(input[e])
    ensures T.RunEnd(input, from, p) == e
    decreases e - from
  {
    if from < e {
      RunEndAt(input, from + 1, p, e);
    }
  }

  lemma StructuralStep(input: string, pos: nat, inBareWord: char -> bool)
    requires pos < |input| && Chars.IsStructural(input[pos])
    ensures T.SkipWhitespace(input, pos) == pos
    ensures T.NextTokenBy(input, pos, inBareWord)
            == Ok(T.Step(T.Token(T.StructuralKind(input[pos]), [input[pos]]), pos + 1))
  {
    RunEndAt(input, pos, Chars.IsWhitespace, pos);
  }

  /** A bare word starting at `pos` and ending at `e`, where the loop stops and no `,` is. */
  lemma BareWordStep(input: string, pos: nat, inBareWord: char -> bool, e: nat)
    requires pos < e <= |input|
    requires var c := input[pos];
             Chars.IsAscii(c) && !Chars.IsWhitespace(c) && !Chars.IsStructural(c) && c != '"' && !Chars.IsAsciiDigit(c)
    requires forall k | pos < k < e :: inBareWord(input[k])
    requires e == |input| || (!inBareWord(input[e]) && input[e] != ',')
    ensures T.SkipWhitespace(input, pos) == pos
    ensures T.NextTokenBy(input, pos, inBareWord) == Ok(T.Step(T.Token(T.Val, input[pos..e]), e))
  {
    RunEndAt(input, pos, Chars.IsWhitespace, pos);
    RunEndAt(input, pos + 1, inBareWord, e);
  }

  /** A quoted run from `pos` to the quote at `e`, followed at once by `:`. */
  lemma KeyStep(input: string, pos: nat, inBareWord: char -> bool, e: nat)
    requires pos < e && e + 1 < |input|
    requires input[pos] == '"' && input[e] == '"' && input[e + 1] == ':'
    requires forall k | pos < k < e :: input[k] != '"'
    ensures T.SkipWhitespace(input, pos) == pos
    ensures T.NextTokenBy(input, pos, inBareWord) == Ok(T.Step(T.Token(T.Ident, input[pos + 1..e]), e + 1))
  {
    RunEndAt(input, pos, Chars.IsWhitespace, pos);
    RunEndAt(input, pos + 1, T.NotQuote, e);
  }

  /** `[true]` as the source tokenizes it: the bare word runs over the `]`. */
  lemma LexArrayOfTrue(locate: nat -> (nat, nat))
    ensures LexBy("[true]", 0, T.ContinuesBareWord, locate)
            == Lexed([P.Token(P.OpenSqBracket, LocationOf(0, locate)),
                      P.Token(P.Val("true]"), LocationOf(1, locate))], None)
  {
    hide LexBy, T.NextTokenBy, T.SkipWhitespace, T.RunEnd;
    var input := "[true]";
    StructuralStep(input, 0, T.ContinuesBareWord);
    BareWordStep(input, 1, T.ContinuesBareWord, 6);
    assert input[1..6] == "true]";
    LexCons(input, 0, T.ContinuesBareWord, locate, T.Token(T.OpenSqBracket, "["), 1);
    LexCons(input, 1, T.ContinuesBareWord, locate, T.Token(T.Val, "true]"), 6);
  }

  /** `[true]` with the bare word stopping before `]`. */
  lemma TrueWordIntended()
    ensures var input := "[true]";
            && T.SkipWhitespace(input, 1) == 1 && T.SkipWhitespace(input, 5) == 5
            && T.NextTokenBy(input, 1, T.ContinuesBareWordIntended) == Ok(T.Step(T.Token(T.Val, "true"), 5))
            && T.NextTokenBy(input, 5, T.ContinuesBareWordIntended) == Ok(T.Step(T.Token(T.ClosedSqBracket, "]"), 6))
  {
    var input := "[true]";
    BareWordStep(input, 1, T.ContinuesBareWordIntended, 5);
    StructuralStep(input, 5, T.ContinuesBareWordIntended);
    assert input[1..5] == "true";
  }

  lemma LexArrayOfTrueIntended(locate: nat -> (nat, nat))
    ensures LexBy("[true]", 0, T.ContinuesBareWordIntended, locate)
            == Lexed([P.Token(P.OpenSqBracket, LocationOf(0, locate)),
                      P.Token(P.Val("true"), LocationOf(1, locate)),
                      P.Token(P.ClosedSqBracket, LocationOf(5, locate))], None)
  {
    hide LexBy, T.NextTokenBy, T.SkipWhitespace, T.RunEnd;
    var input := "[true]";
    StructuralStep(input, 0, T.ContinuesBareWordIntended);
    TrueWordIntended();
    LexCons(input, 0, T.ContinuesBareWordIntended, locate, T.Token(T.OpenSqBracket, "["), 1);
    LexCons(input, 1, T.ContinuesBareWordIntended, locate, T.Token(T.Val, "true"), 5);
    LexCons(input, 5, T.ContinuesBareWordIntended, locate, T.Token(T.ClosedSqBracket, "]"), 6);
  }

  /** `true]` is no literal `parse_val` accepts. */
  lemma TrueBracketLiteral(loc: P.Location, isNumChar: char -> bool)
    requires !isNumChar('t')
    ensures P.ParseLiteral("true]", loc, isNumChar) == Err(P.ParsingError(P.InvalidToken, loc))
  {
    var t := "true]";
    assert !isNumChar(t[0]);
    assert t[0] != "false"[0] && t[0] != "null"[0];
  }

  lemma TrueLiteral(loc: P.Location, isNumChar: char -> bool)
    requires !isNumChar('t')
    ensures P.ParseLiteral("true", loc, isNumChar) == Ok(Boolean(true))
  {
    var t := "true";
    assert !isNumChar(t[0]);
  }

  lemma ParseTrueBracket(l0: P.Location, l1: P.Location, isNumChar: char -> bool)
    requires !isNumChar('t')
    ensures P.Parse([P.Token(P.OpenSqBracket, l0), P.Token(P.Val("true]"), l1)], isNumChar)
            == Err(P.ParsingError(P.InvalidToken, l1))
  {
    var ts := [P.Token(P.OpenSqBracket, l0), P.Token(P.Val("true]"), l1)];
    TrueBracketLiteral(l1, isNumChar);
    assert P.ParseVal(ts[1], ts, 2, isNumChar) == Err(P.ParsingError(P.InvalidToken, l1));
    assert P.ParseArray(ts, 1, [], isNumChar) == Err(P.ParsingError(P.InvalidToken, l1));
  }

  lemma ParseTrueArray(l0: P.Location, l1: P.Location, l2: P.Location, isNumChar: char -> bool)
    requires !isNumChar('t')
    ensures P.Parse([P.Token(P.OpenSqBracket, l0), P.Token(P.Val("true"), l1), P.Token(P.ClosedSqBracket, l2)], isNumChar)
            == Ok(Array([Boolean(true)]))
  {
    var ts := [P.Token(P.OpenSqBracket, l0), P.Token(P.Val("true"), l1), P.Token(P.ClosedSqBracket, l2)];
    TrueLiteral(l1, isNumChar);
    ParserSteps.ValLiteral(ts[1], ts, 2, isNumChar, Boolean(true));
    ParserSteps.ArrayElement(ts, 1, [], isNumChar, Boolean(true), 2);
    ParserSteps.ArrayClose(ts, 2, [Boolean(true)], isNumChar);
    assert [] + [Boolean(true)] == [Boolean(true)];
  }

  /** The source rejects the one-element array `[true]`: its only literal is `true]`. */
  lemma ArrayOfTrueRejected(isNumChar: char -> bool, locate: nat -> (nat, nat))
    requires !isNumChar('t')
    ensures Read("[true]", isNumChar, locate)
            == Err(ParseFailure(P.ParsingError(P.InvalidToken, LocationOf(1, locate))))
  {
    hide LexBy, P.Parse;
    LexArrayOfTrue(locate);
    ParseTrueBracket(LocationOf(0, locate), LocationOf(1, locate), isNumChar);
  }

  /** With the intended bare word, `[true]` reads as the array holding `true`. */
  lemma ArrayOfTrueRead(isNumChar: char -> bool, locate: nat -> (nat, nat))
    requires !isNumChar('t')
    ensures ReadIntended("[true]", isNumChar, locate) == Ok(Array([Boolean(true)]))
  {
    hide LexBy, P.Parse;
    LexArrayOfTrueIntended(locate);
    ParseTrueArray(LocationOf(0, locate), LocationOf(1, locate), LocationOf(5, locate), isNumChar);
  }

  /** The first three tokens of `{"a":null}`, with either bare-word loop. */
  lemma ObjectOfNullHead(inBareWord: char -> bool)
    ensures var input := "{\"a\":null}";
            && T.SkipWhitespace(input, 0) == 0 && T.SkipWhitespace(input, 1) == 1 && T.SkipWhitespace(input, 4) == 4
            && T.NextTokenBy(input, 0, inBareWord) == Ok(T.Step(T.Token(T.OpenBracket, "{"), 1))
            && T.NextTokenBy(input, 1, inBareWord) == Ok(T.Step(T.Token(T.Ident, "a"), 4))
            && T.NextTokenBy(input, 4, inBareWord) == Ok(T.Step(T.Token(T.Colon, ":"), 5))
  {
    var input := "{\"a\":null}";
    StructuralStep(input, 0, inBareWord);
    KeyStep(input, 1, inBareWord, 3);
    StructuralStep(input, 4, inBareWord);
    assert input[2..3] == "a";
  }

  lemma NullBraceWord()
    ensures var input := "{\"a\":null}";
            && T.SkipWhitespace(input, 5) == 5
            && T.NextTokenBy(input, 5, T.ContinuesBareWord) == Ok(T.Step(T.Token(T.Val, "null}"), 10))
  {
    var input := "{\"a\":null}";
    BareWordStep(input, 5, T.ContinuesBareWord, 10);
    assert input[5..10] == "null}";
  }

  lemma NullWordIntended()
    ensures var input := "{\"a\":null}";
            && T.SkipWhitespace(input, 5) == 5 && T.SkipWhitespace(input, 9) == 9
            && T.NextTokenBy(input, 5, T.ContinuesBareWordIntended) == Ok(T.Step(T.Token(T.Val, "null"), 9))
            && T.NextTokenBy(input, 9, T.ContinuesBareWordIntended) == Ok(T.Step(T.Token(T.ClosedBracket, "}"), 10))
  {
    var input := "{\"a\":null}";
    BareWordStep(input, 5, T.ContinuesBareWordIntended, 9);
    StructuralStep(input, 9, T.ContinuesBareWordIntended);
    assert input[5..9] == "null";
  }

  /** The first three tokens of `{"a":null}` are the same for either bare-word loop. */
  lemma LexObjectOfNullHead(inBareWord: char -> bool, locate: nat -> (nat, nat))
    ensures var input := "{\"a\":null}";
            var rest := LexBy(input, 5, inBareWord, locate);
            LexBy(input, 0, inBareWord, locate)
            == Lexed([P.Token(P.OpenBracket, LocationOf(0, locate)),
                      P.Token(P.Ident("a"), LocationOf(1, locate)),
                      P.Token(P.Colon, LocationOf(4, locate))] + rest.tokens, rest.failure)
  {
    hide LexBy, T.NextTokenBy, T.SkipWhitespace, T.RunEnd;
    var input := "{\"a\":null}";
    ObjectOfNullHead(inBareWord);
    var t0 := P.Token(P.OpenBracket, LocationOf(0, locate));
    var t1 := P.Token(P.Ident("a"), LocationOf(1, locate));
    var t4 := P.Token(P.Colon, LocationOf(4, locate));
    var rest := LexBy(input, 5, inBareWord, locate);
    LexCons(input, 4, inBareWord, locate, T.Token(T.Colon, ":"), 5);
    LexCons(input, 1, inBareWord, locate, T.Token(T.Ident, "a"), 4);
    LexCons(input, 0, inBareWord, locate, T.Token(T.OpenBracket, "{"), 1);
    assert [t0] + ([t1] + ([t4] + rest.tokens)) == [t0, t1, t4] + rest.tokens;
  }

  /** `{"a":null}` as the source tokenizes it: the bare word runs over the `}`. */
  lemma LexObjectOfNull(locate: nat -> (nat, nat))
    ensures LexBy("{\"a\":null}", 0, T.ContinuesBareWord, locate)
            == Lexed([P.Token(P.OpenBracket, LocationOf(0, locate)),
                      P.Token(P.Ident("a"), LocationOf(1, locate)),
                      P.Token(P.Colon, LocationOf(4, locate)),
                      P.Token(P.Val("null}"), LocationOf(5, locate))], None)
  {
    hide LexBy, T.NextTokenBy, T.SkipWhitespace, T.RunEnd;
    var input := "{\"a\":null}";
    LexObjectOfNullHead(T.ContinuesBareWord, locate);
    NullBraceWord();
    LexCons(input, 5, T.ContinuesBareWord, locate, T.Token(T.Val, "null}"), 10);
  }

  /** `{"a":null}` with the bare word stopping before `}`. */
  lemma LexObjectOfNullIntended(locate: nat -> (nat, nat))
    ensures LexBy("{\"a\":null}", 0, T.ContinuesBareWordIntended, locate)
            == Lexed([P.Token(P.OpenBracket, LocationOf(0, locate)),
                      P.Token(P.Ident("a"), LocationOf(1, locate)),
                      P.Token(P.Colon, LocationOf(4, locate)),
                      P.Token(P.Val("null"), LocationOf(5, locate)),
                      P.Token(P.ClosedBracket, LocationOf(9, locate))], None)
  {
    hide LexBy, T.NextTokenBy, T.SkipWhitespace, T.RunEnd;
    var input := "{\"a\":null}";
    LexObjectOfNullHead(T.ContinuesBareWordIntended, locate);
    NullWordIntended();
    LexCons(input, 5, T.ContinuesBareWordIntended, locate, T.Token(T.Val, "null"), 9);
    LexCons(input, 9, T.ContinuesBareWordIntended, locate, T.Token(T.ClosedBracket, "}"), 10);
  }

  /** `null}` still reads as `null`: the check against `null` compares a prefix only. */
  lemma NullBraceLiteral(loc: P.Location, isNumChar: char -> bool)
    requires !isNumChar('n')
    ensures P.ParseLiteral("null}", loc, isNumChar) == Ok(Null)
  {
    var t := "null}";
    assert !isNumChar(t[0]);
    assert t[0] != "false"[0];
    assert P.AgreesWith(t, "null");
  }

  lemma NullLiteral(loc: P.Location, isNumChar: char -> bool)
    requires !isNumChar('n')
    ensures P.ParseLiteral("null", loc, isNumChar) == Ok(Null)
  {
    var t := "null";
    assert !isNumChar(t[0]);
    assert P.AgreesWith(t, "null");
  }

  /** The member `"a": <v>` spans the tokens 1 to 3 of `ts` and is parsed into the empty map. */
  lemma FirstMemberParsed(ts: seq<P.Token>, isNumChar: char -> bool, v: JsonVal)
    requires |ts| >= 4 && ts[1].kind == P.Ident("a") && ts[2].kind == P.Colon && ts[3].kind.Val?
    requires P.ParseLiteral(ts[3].kind.text, ts[3].loc, isNumChar) == Ok(v)
    ensures Json.DistinctKeys([Member("a", v)])
    ensures P.ParseObject(ts, 1, [], isNumChar) == P.ParseObject(ts, 4, [Member("a", v)], isNumChar)
  {
    ParserSteps.ValLiteral(ts[3], ts, 4, isNumChar, v);
    ParserSteps.IdentValue("a", ts, 2, isNumChar, v, 4);
    assert Json.Insert([], "a", v) == [Member("a", v)] by {
      assert Json.Keys([]) == [];
      assert [] + [Member("a", v)] == [Member("a", v)];
    }
    ParserSteps.ObjectMember(ts, 1, [], isNumChar, Member("a", v), 4);
  }

  lemma ParseNullBrace(l0: P.Location, l1: P.Location, l4: P.Location, l5: P.Location, isNumChar: char -> bool)
    requires !isNumChar('n')
    ensures P.Parse([P.Token(P.OpenBracket, l0), P.Token(P.Ident("a"), l1), P.Token(P.Colon, l4),
                     P.Token(P.Val("null}"), l5)], isNumChar)
            == Err(P.ParsingError(P.UnexpectedToken, P.EndOfInput))
  {
    var ts := [P.Token(P.OpenBracket, l0), P.Token(P.Ident("a"), l1), P.Token(P.Colon, l4),
               P.Token(P.Val("null}"), l5)];
    NullBraceLiteral(l5, isNumChar);
    FirstMemberParsed(ts, isNumChar, Null);
    ParserSteps.ObjectRejectsStray(ts, 4, [Member("a", Null)], isNumChar);
  }

  lemma ParseNullObject(l0: P.Location, l1: P.Location, l4: P.Location, l5: P.Location, l9: P.Location,
                        isNumChar: char -> bool)
    requires !isNumChar('n')
    ensures P.Parse([P.Token(P.OpenBracket, l0), P.Token(P.Ident("a"), l1), P.Token(P.Colon, l4),
                     P.Token(P.Val("null"), l5), P.Token(P.ClosedBracket, l9)], isNumChar)
            == Ok(Object([Member("a", Null)]))
  {
    var ts := [P.Token(P.OpenBracket, l0), P.Token(P.Ident("a"), l1), P.Token(P.Colon, l4),
               P.Token(P.Val("null"), l5), P.Token(P.ClosedBracket, l9)];
    NullLiteral(l5, isNumChar);
    FirstMemberParsed(ts, isNumChar, Null);
    ParserSteps.ObjectClose(ts, 4, [Member("a", Null)], isNumChar);
  }

  /** The source rejects `{"a":null}`: after the literal `null}` the tokens run out where it
      looks for `,` or `}`. */
  lemma ObjectOfNullRejected(isNumChar: char -> bool, locate: nat -> (nat, nat))
    requires !isNumChar('n')
    ensures Read("{\"a\":null}", isNumChar, locate)
            == Err(ParseFailure(P.ParsingError(P.UnexpectedToken, P.EndOfInput)))
  {
    hide LexBy, P.Parse;
    LexObjectOfNull(locate);
    ParseNullBrace(LocationOf(0, locate), LocationOf(1, locate), LocationOf(4, locate), LocationOf(5, locate),
                   isNumChar);
  }

  /** With the intended bare word, `{"a":null}` reads as the one-member object. */
  lemma ObjectOfNullRead(isNumChar: char -> bool, locate: nat -> (nat, nat))
    requires !isNumChar('n')
    ensures ReadIntended("{\"a\":null}", isNumChar, locate) == Ok(Object([Member("a", Null)]))
  {
    hide LexBy, P.Parse;
    LexObjectOfNullIntended(locate);
    ParseNullObject(LocationOf(0, locate), LocationOf(1, locate), LocationOf(4, locate), LocationOf(5, locate),
                    LocationOf(9, locate), isNumChar);
  }
}
