/** What one call of `next_token` produces, case by case, and what draining yields. */
module TokenizerProperties {
  import opened Results
  import opened Chars
  import opened Tokenizer

  /** Leading whitespace is skipped: the token read at `pos` is the one read at the first
      non-whitespace character. */
  lemma WhitespaceSkipped(input: string, pos: nat)
    requires pos <= |input|
    ensures NextToken(input, pos) == NextToken(input, SkipWhitespace(input, pos))
  {
    var s := SkipWhitespace(input, pos);
    assert SkipWhitespace(input, s) == s;
  }

  /** Each of `{ } [ ] : ,` is one token of the matching kind whose text is that character. */
  lemma StructuralToken(input: string, pos: nat)
    requires pos <= |input|
    requires SkipWhitespace(input, pos) < |input|
    requires IsStructural(input[SkipWhitespace(input, pos)])
    ensures var s := SkipWhitespace(input, pos);
            NextToken(input, pos) == Ok(Step(Token(StructuralKind(input[s]), [input[s]]), s + 1))
  {
  }

  /** A quoted run ends at the first `"` after the opening one; with no such quote it fails. */
  lemma QuotedRunUnterminated(input: string, pos: nat)
    requires pos <= |input|
    requires SkipWhitespace(input, pos) < |input|
    requires input[SkipWhitespace(input, pos)] == '"'
    ensures var s := SkipWhitespace(input, pos);
            NextToken(input, pos).Err? <==> '"' !in input[s + 1..]
    ensures NextToken(input, pos).Err? ==> NextToken(input, pos).error == MissingEndingQuote
  {
    var s := SkipWhitespace(input, pos);
    var e := RunEnd(input, s + 1, NotQuote);
    var tail := input[s + 1..];
    if e < |input| {
      assert tail[e - (s + 1)] == '"';
    } else {
      forall k | 0 <= k < |tail|
        ensures tail[k] != '"'
      {
        assert NotQuote(input[s + 1 + k]);
      }
    }
  }

  /** A closed quoted run is an `Ident` with the quotes stripped exactly when `:` follows the
      closing quote with nothing in between; otherwise a `Val` with the quotes kept. */
  lemma QuotedRunTerminated(input: string, pos: nat)
    requires pos <= |input|
    requires SkipWhitespace(input, pos) < |input|
    requires input[SkipWhitespace(input, pos)] == '"'
    requires NextToken(input, pos).Ok?
    ensures var s := SkipWhitespace(input, pos);
            var step := NextToken(input, pos).value;
            var close := step.next - 1;
            && s < close < |input|
            && input[close] == '"'
            && '"' !in input[s + 1..close]
            && (step.token.kind == Ident <==> close + 1 < |input| && input[close + 1] == ':')
            && (step.token.kind == Ident || step.token.kind == Val)
            && (step.token.kind == Ident ==> step.token.text == input[s + 1..close])
            && (step.token.kind == Val ==> step.token.text == "\"" + input[s + 1..close] + "\"")
  {
    var s := SkipWhitespace(input, pos);
    var e := RunEnd(input, s + 1, NotQuote);
    var content := input[s + 1..e];
    forall k | 0 <= k < |content|
      ensures content[k] != '"'
    {
      assert NotQuote(input[s + 1 + k]);
    }
  }

  /** A run starting with a digit is that digit and the maximal run of ASCII alphanumerics
      after it, so it stops at `.`, `-` or `+`. */
  lemma DigitRun(input: string, pos: nat)
    requires pos <= |input|
    requires SkipWhitespace(input, pos) < |input|
    requires IsAsciiDigit(input[SkipWhitespace(input, pos)])
    ensures var s := SkipWhitespace(input, pos);
            var r := NextToken(input, pos);
            && r.Ok?
            && r.value.token.kind == Val
            && r.value.token.text == input[s..r.value.next]
            && (forall k | s < k < r.value.next :: IsAsciiAlphanumeric(input[k]))
            && (r.value.next == |input| || !IsAsciiAlphanumeric(input[r.value.next]))
  {
  }

  /** Any other ASCII character starts a bare word that runs up to, not including, the next
      `,` or the end of the input; the comma is consumed. The check that follows the loop
      (tokenizer.rs line 113) always passes. */
  lemma BareWord(input: string, pos: nat)
    requires pos <= |input|
    requires SkipWhitespace(input, pos) < |input|
    requires var c := input[SkipWhitespace(input, pos)];
             IsAscii(c) && !IsStructural(c) && c != '"' && !IsAsciiDigit(c)
    ensures var s := SkipWhitespace(input, pos);
            var r := NextToken(input, pos);
            && r.Ok?
            && r.value.token.kind == Val
            && var stop := s + |r.value.token.text|;
            && stop <= |input|
            && r.value.token.text == input[s..stop]
            && ',' !in r.value.token.text
            && ((stop == |input| && r.value.next == stop) || (input[stop] == ',' && r.value.next == stop + 1))
  {
    var s := SkipWhitespace(input, pos);
    var e := RunEnd(input, s + 1, ContinuesBareWord);
    assert forall k | 0 <= k < |input[s..e]| :: input[s..e][k] != ',' by {
      forall k | 0 <= k < |input[s..e]| ensures input[s..e][k] != ',' {
        if k > 0 {
          assert ContinuesBareWord(input[s + k]);
        }
      }
    }
  }

  /** The bare-word loop of the source runs over a closing `]`: `true]` is one token. */
  lemma BareWordSwallowsCloser()
    ensures NextToken("true]", 0) == Ok(Step(Token(Val, "true]"), 5))
  {
    var input := "true]";
    assert SkipWhitespace(input, 0) == 0 by {
      assert !IsWhitespace(input[0]);
    }
    assert RunEnd(input, 1, ContinuesBareWord) == 5 by {
      assert RunEnd(input, 5, ContinuesBareWord) == 5;
    }
    assert input[0..5] == input;
  }

  /** With the loop stopping before `}` and `]` as well, a bare word holds none of `,`, `}`
      and `]`; it ends at the end of the input, at a `,` (which is consumed), or just before
      a `}` or `]` (which is left for the next token). */
  lemma IntendedBareWord(input: string, pos: nat)
    requires pos <= |input|
    requires SkipWhitespace(input, pos) < |input|
    requires var c := input[SkipWhitespace(input, pos)];
             IsAscii(c) && !IsStructural(c) && c != '"' && !IsAsciiDigit(c)
    ensures var s := SkipWhitespace(input, pos);
            var r := NextTokenIntended(input, pos);
            && r.Ok?
            && r.value.token.kind == Val
            && var stop := s + |r.value.token.text|;
            && stop <= |input|
            && r.value.token.text == input[s..stop]
            && ',' !in r.value.token.text && '}' !in r.value.token.text && ']' !in r.value.token.text
            && ((stop == |input| && r.value.next == stop)
                || (input[stop] == ',' && r.value.next == stop + 1)
                || ((input[stop] == '}' || input[stop] == ']') && r.value.next == stop))
  {
    var s := SkipWhitespace(input, pos);
    var e := RunEnd(input, s + 1, ContinuesBareWordIntended);
    forall k | 0 <= k < |input[s..e]|
      ensures ContinuesBareWordIntended(input[s..e][k])
    {
      if k > 0 {
        assert ContinuesBareWordIntended(input[s + k]);
      }
    }
  }

  /** A non-ASCII character that is not whitespace is rejected. */
  lemma NonAsciiUnsupported(input: string, pos: nat)
    requires pos <= |input|
    requires SkipWhitespace(input, pos) < |input|
    requires !IsAscii(input[SkipWhitespace(input, pos)])
    ensures NextToken(input, pos) == Err(UnsupportedToken(input[SkipWhitespace(input, pos)]))
  {
  }

  /** The `Missing ending ','` panic (tokenizer.rs line 119) is unreachable. */
  lemma NeverMissingEndingComma(input: string, pos: nat)
    requires pos <= |input|
    ensures !(NextToken(input, pos).Err? && NextToken(input, pos).error.MissingEndingComma?)
  {
  }

  /** Draining a successful tokenizer yields the first token followed by the drain of the rest. */
  lemma TokensUnfold(input: string, pos: nat)
    requires pos <= |input|
    requires !OnlyWhitespaceFrom(input, pos)
    requires Tokens(input, pos).Ok?
    ensures NextToken(input, pos).Ok?
    ensures var step := NextToken(input, pos).value;
            && step.token.kind != End
            && Tokens(input, step.next).Ok?
            && Tokens(input, pos).value == [step.token] + Tokens(input, step.next).value
  {
  }
}
