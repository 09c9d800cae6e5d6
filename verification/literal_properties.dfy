/** How `parse_val` classifies literal text, and which printed scalars it reads back. */
module LiteralProperties {
  import opened Results
  import opened Chars
  import opened Json
  import opened Numerals
  import opened Parser
  import opened Display
  import opened NumeralProperties
  import opened ParserSteps

  /** One choice of `is_num_char`: ASCII digits, `.`, `-`, `+`, `e` and `E`.
      Only the examples below use it; everything else takes `is_num_char` as a parameter. */
  predicate NumCharDigitSignPointExponent(c: char)
  {
    IsAsciiDigit(c) || c == '.' || c == '-' || c == '+' || c == 'e' || c == 'E'
  }

  predicate DigitsAreNumChars(isNumChar: char -> bool)
  {
    forall c | IsAsciiDigit(c) :: isNumChar(c)
  }

  /** The scalars whose printed text `parse_val` classifies as the same scalar again. */
  predicate Reparses(v: JsonVal, isNumChar: char -> bool)
  {
    match v
    case String(_) => true
    case Boolean(b) => if b then !isNumChar('t') else !isNumChar('f')
    case Null => !isNumChar('n')
    case Number(UnsignedInt(_)) => DigitsAreNumChars(isNumChar)
    case Number(SignedInt(i)) => i < 0 && isNumChar('-') && DigitsAreNumChars(isNumChar)
    case Number(Float(t)) =>
      (forall k | 0 <= k < |t| :: isNumChar(t[k])) && HasFloatMarker(t) && IsRustFloat(t)
    case _ => false
  }

  /** `f64::from_str` rejects text that is empty or opens with `"`. */
  lemma QuotedTextIsNotFloat(t: string)
    requires |t| == 0 || t[0] == '"'
    ensures !IsRustFloat(t)
  {
    var body := Unsigned(t, true);
    assert body == t;
    var word := Lowercase(body);
    assert word != "inf" && word != "infinity" && word != "nan" by {
      if |word| > 0 {
        assert word[0] == ToAsciiLowercase(body[0]);
      }
    }
    match IndexOfAny(body, {'e', 'E'})
    case None =>
      assert !IsMantissa(body) by {
        if |body| > 0 {
          assert !IsAsciiDigit(body[0]);
        }
      }
    case Some(i) =>
      var m := body[..i];
      assert !IsMantissa(m) by {
        if |m| > 0 {
          assert m[0] == '"';
          match IndexOfAny(m, {'.'})
          case None =>
            assert !IsAsciiDigit(m[0]);
          case Some(j) =>
            assert m[..j][0] == '"';
        }
      }
  }

  lemma FloatTextShape(t: string)
    ensures IsRustFloat(t) ==> |t| > 0 && t[0] != '"'
  {
    if |t| == 0 || t[0] == '"' {
      QuotedTextIsNotFloat(t);
    }
  }

  lemma StringRoundTrip(s: string, loc: Location, isNumChar: char -> bool)
    ensures ParseLiteral(ScalarText(String(s)), loc, isNumChar) == Ok(String(s))
  {
    var text := "\"" + s + "\"";
    assert text[1..|text| - 1] == s;
  }

  lemma WordRoundTrip(v: JsonVal, loc: Location, isNumChar: char -> bool)
    requires v.Boolean? || v.Null?
    requires Reparses(v, isNumChar)
    ensures ParseLiteral(ScalarText(v), loc, isNumChar) == Ok(v)
  {
    assert !isNumChar(ScalarText(v)[0]);
  }

  lemma UnsignedRoundTrip(u: U64, loc: Location, isNumChar: char -> bool)
    requires DigitsAreNumChars(isNumChar)
    ensures ParseLiteral(ScalarText(Number(UnsignedInt(u))), loc, isNumChar) == Ok(Number(UnsignedInt(u)))
  {
    var text := Decimal(u);
    ParseU64OfDecimal(u);
    assert !HasFloatMarker(text) by {
      forall k | 0 <= k < |text| ensures ToAsciiLowercase(text[k]) != 'e' && text[k] != '.' {
        assert IsAsciiDigit(text[k]);
      }
    }
  }

  lemma SignedRoundTrip(i: I64, loc: Location, isNumChar: char -> bool)
    requires i < 0 && isNumChar('-') && DigitsAreNumChars(isNumChar)
    ensures ParseLiteral(ScalarText(Number(SignedInt(i))), loc, isNumChar) == Ok(Number(SignedInt(i)))
  {
    ParseI64OfSignedDecimal(i);
    var magnitude: nat := -(i as int);
    var text := "-" + Decimal(magnitude);
    assert ScalarText(Number(SignedInt(i))) == text;
    forall k | 0 < k < |text|
      ensures IsAsciiDigit(text[k])
    {
      assert text[k] == Decimal(magnitude)[k - 1];
    }
    assert !HasFloatMarker(text);
  }

  lemma FloatRoundTrip(t: string, loc: Location, isNumChar: char -> bool)
    requires forall k | 0 <= k < |t| :: isNumChar(t[k])
    requires HasFloatMarker(t) && IsRustFloat(t)
    ensures ParseLiteral(ScalarText(Number(Float(t))), loc, isNumChar) == Ok(Number(Float(t)))
  {
    FloatTextShape(t);
  }

  /** Every scalar `Reparses` admits prints as text that `parse_val` reads back as itself. */
  lemma ScalarRoundTrip(v: JsonVal, loc: Location, isNumChar: char -> bool)
    requires IsScalar(v) && Reparses(v, isNumChar)
    ensures ParseLiteral(ScalarText(v), loc, isNumChar) == Ok(v)
  {
    match v
    case String(s) => StringRoundTrip(s, loc, isNumChar);
    case Boolean(_) => WordRoundTrip(v, loc, isNumChar);
    case Null => WordRoundTrip(v, loc, isNumChar);
    case Number(UnsignedInt(u)) => UnsignedRoundTrip(u, loc, isNumChar);
    case Number(SignedInt(i)) => SignedRoundTrip(i, loc, isNumChar);
    case Number(Float(t)) => FloatRoundTrip(t, loc, isNumChar);
  }

  /** A signed integer that is not negative prints without a sign and so reads back as an
      unsigned one: the round trip keeps the value but not the variant. */
  lemma NonNegativeSignedReadsUnsigned(i: I64, loc: Location, isNumChar: char -> bool)
    requires i >= 0 && DigitsAreNumChars(isNumChar)
    ensures ParseLiteral(ScalarText(Number(SignedInt(i))), loc, isNumChar) == Ok(Number(UnsignedInt(i)))
  {
    UnsignedRoundTrip(i, loc, isNumChar);
  }

  /** `-0` is a signed zero, which then prints as `0`. */
  lemma MinusZeroIsSigned(loc: Location)
    ensures ParseLiteral("-0", loc, NumCharDigitSignPointExponent) == Ok(Number(SignedInt(0)))
    ensures ScalarText(Number(SignedInt(0))) == "0"
  {
    assert !HasFloatMarker("-0");
    assert Unsigned("-0", true) == "0";
  }

  /** `null` is matched on the first min(len, 4) characters only, so a prefix of `null`,
      or `null` followed by anything, is read as null; `true` and `false` are length-checked. */
  lemma NullIsPrefixMatch(loc: Location)
    ensures ParseLiteral("nul", loc, NumCharDigitSignPointExponent) == Ok(Null)
    ensures ParseLiteral("null}", loc, NumCharDigitSignPointExponent) == Ok(Null)
    ensures ParseLiteral("true}", loc, NumCharDigitSignPointExponent) == Err(ParsingError(InvalidToken, loc))
  {
    assert !NumCharDigitSignPointExponent("true}"[0]);
    assert !AgreesWith("true}", "null") by {
      assert "true}"[0] != "null"[0];
    }
  }

  /** Sub-typing is lexical: digits alone make an unsigned integer, a leading `-` a signed
      one, and a `.`, `e` or `E` a float whatever the value. */
  lemma UnsignedExample(loc: Location)
    ensures ParseLiteral("42", loc, NumCharDigitSignPointExponent) == Ok(Number(UnsignedInt(42)))
  {
    assert Decimal(42) == "42" by {
      assert Decimal(4) == "4";
    }
    UnsignedRoundTrip(42, loc, NumCharDigitSignPointExponent);
  }

  lemma SignedExample(loc: Location)
    ensures ParseLiteral("-2", loc, NumCharDigitSignPointExponent) == Ok(Number(SignedInt(-2)))
  {
    assert SignedDecimal(-2) == "-2";
    SignedRoundTrip(-2, loc, NumCharDigitSignPointExponent);
  }

  lemma MantissaText()
    ensures IsMantissa("27.0")
  {
    assert IndexOfAny("27.0", {'.'}) == Some(2);
    assert "27.0"[..2] == "27" && "27.0"[3..] == "0";
  }

  lemma ExponentFloatText()
    ensures IsRustFloat("27.0E2")
  {
    var t := "27.0E2";
    assert t[0] == '2' && t[1] == '7' && t[2] == '.' && t[3] == '0' && t[4] == 'E';
    assert IndexOfAny(t, {'e', 'E'}) == Some(4);
    assert t[..4] == "27.0" && t[5..] == "2";
    MantissaText();
    assert IsExponent("2");
  }

  lemma FloatWithExponentExample(loc: Location)
    ensures ParseLiteral("27.0E2", loc, NumCharDigitSignPointExponent) == Ok(Number(Float("27.0E2")))
  {
    hide ParseLiteral, IsRustFloat;
    var t := "27.0E2";
    assert HasFloatMarker(t) by {
      assert t[2] == '.';
    }
    ExponentFloatText();
    FloatRoundTrip(t, loc, NumCharDigitSignPointExponent);
  }

  lemma NegativeExponentFloatText()
    ensures IsRustFloat("4e-6")
  {
    var t := "4e-6";
    assert Unsigned(t, true) == t;
    assert IndexOfAny(t, {'e', 'E'}) == Some(1);
    assert t[..1] == "4" && t[2..] == "-6";
    assert IsMantissa("4");
    assert IsExponent("-6") by {
      assert Unsigned("-6", true) == "6";
    }
  }

  lemma FloatWithNegativeExponentExample(loc: Location)
    ensures ParseLiteral("4e-6", loc, NumCharDigitSignPointExponent) == Ok(Number(Float("4e-6")))
  {
    hide ParseLiteral, IsRustFloat;
    var t := "4e-6";
    assert HasFloatMarker(t) by {
      assert ToAsciiLowercase(t[1]) == 'e';
    }
    NegativeExponentFloatText();
    FloatRoundTrip(t, loc, NumCharDigitSignPointExponent);
  }

  lemma MalformedFloatText()
    ensures !IsRustFloat("1.2.3")
  {
    var t := "1.2.3";
    assert Unsigned(t, true) == t;
    assert Lowercase(t)[0] == '1';
    assert IndexOfAny(t, {'e', 'E'}).None?;
    assert IndexOfAny(t, {'.'}) == Some(1);
    assert t[2..][1] == '.';
  }

  /** Number characters that `f64::from_str` rejects are an invalid token. */
  lemma MalformedFloatExample(loc: Location)
    ensures ParseLiteral("1.2.3", loc, NumCharDigitSignPointExponent) == Err(ParsingError(InvalidToken, loc))
  {
    hide IsRustFloat;
    var t := "1.2.3";
    assert HasFloatMarker(t) by {
      assert t[1] == '.';
    }
    MalformedFloatText();
  }

  /** A malformed number inside an object ends the whole parse with its own error, at its own location. */
  lemma NestedMalformedFloatExample()
    ensures Parse([Token(OpenBracket, Location(1, 1)), Token(Ident("a"), Location(1, 2)),
                   Token(Colon, Location(1, 5)), Token(Val("1.2.3"), Location(1, 7)),
                   Token(ClosedBracket, Location(1, 12))], NumCharDigitSignPointExponent)
            == Err(ParsingError(InvalidToken, Location(1, 7)))
  {
    hide ParseLiteral, ParseVal, ParseIdent, ParseObject, Parse;
    var ts := [Token(OpenBracket, Location(1, 1)), Token(Ident("a"), Location(1, 2)),
               Token(Colon, Location(1, 5)), Token(Val("1.2.3"), Location(1, 7)),
               Token(ClosedBracket, Location(1, 12))];
    var e := ParsingError(InvalidToken, Location(1, 7));
    MalformedFloatExample(Location(1, 7));
    ValLiteralFails(ts[3], ts, 4, NumCharDigitSignPointExponent, e);
    IdentValueFails("a", ts, 2, NumCharDigitSignPointExponent, e);
    ObjectMemberFails(ts, 1, [], NumCharDigitSignPointExponent, "a", e);
    DocumentObject(ts, NumCharDigitSignPointExponent);
  }
}
