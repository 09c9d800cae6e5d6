/**
  The number text the parser meets: Rust's `FromStr` for `u64`, `i64` and `f64` (as
  grammars; the f64 value is not computed), and the decimal `Display` of integers.
 */
module Numerals {
  import opened Results
  import opened Chars
  import opened Json

  predicate AllDigits(s: string)
  {
    forall k | 0 <= k < |s| :: IsAsciiDigit(s[k])
  }

  function DigitValue(c: char): nat
    requires IsAsciiDigit(c)
  {
    c as int - '0' as int
  }

  function DigitChar(d: nat): (c: char)
    requires d < 10
    ensures IsAsciiDigit(c) && DigitValue(c) == d
  {
    ('0' as int + d) as char
  }

  /** The number a run of decimal digits denotes, most significant digit first. */
  function DigitsValue(s: string): nat
    requires AllDigits(s)
  {
    if |s| == 0 then 0
    else 10 * DigitsValue(s[..|s| - 1]) + DigitValue(s[|s| - 1])
  }

  /** Digits without a superfluous leading zero: the form `Display` writes. */
  predicate Canonical(s: string)
  {
    |s| > 0 && AllDigits(s) && (|s| > 1 ==> s[0] != '0')
  }

  /** `Display` of an unsigned integer. */
  function Decimal(n: nat): (s: string)
    ensures Canonical(s)
  {
    if n < 10 then [DigitChar(n)]
    else
      var s := Decimal(n / 10) + [DigitChar(n % 10)];
      assert s[0] == Decimal(n / 10)[0];
      s
  }

  /** `Display` of a signed integer. */
  function SignedDecimal(i: int): (s: string)
    ensures |s| > 0 && (s[0] == '-' <==> i < 0)
    ensures Canonical(Unsigned(s, true))
  {
    if i < 0 then "-" + Decimal(-i) else Decimal(i)
  }

  /** The text after an optional leading sign that `from_str` strips. */
  function Unsigned(s: string, allowMinus: bool): string
  {
    if |s| > 0 && (s[0] == '+' || (allowMinus && s[0] == '-')) then s[1..] else s
  }

  /** `u64::from_str`: an optional `+`, then at least one ASCII digit, below 2^64. */
  function ParseU64(s: string): (r: Option<U64>)
    ensures r.Some? ==> |s| > 0 && s[0] != '-'
    ensures |s| > 0 && s[0] != '+' && !IsAsciiDigit(s[0]) ==> r.None?
    ensures (exists k | 0 < k < |s| :: !IsAsciiDigit(s[k])) ==> r.None?
    ensures |s| > 0 && AllDigits(s) ==> (r.Some? <==> DigitsValue(s) < 0x1_0000_0000_0000_0000)
  {
    var digits := Unsigned(s, false);
    if |digits| == 0 || !AllDigits(digits) then None
    else
      var n := DigitsValue(digits);
      if n < 0x1_0000_0000_0000_0000 then Some(n) else None
  }

  /** `i64::from_str`: an optional `+` or `-`, then at least one ASCII digit, within the
      64-bit two's complement range. */
  function ParseI64(s: string): (r: Option<I64>)
    ensures r.Some? && r.value < 0 ==> |s| > 0 && s[0] == '-'
    ensures r.Some? && |s| > 0 && s[0] == '-' ==> r.value <= 0
    ensures (exists k | 0 < k < |s| :: !IsAsciiDigit(s[k])) ==> r.None?
    ensures r.Some? && |s| > 0 && s[0] != '-' ==> ParseU64(s) == Some(r.value)
  {
    var digits := Unsigned(s, true);
    if |digits| == 0 || !AllDigits(digits) then None
    else
      var n: int := DigitsValue(digits);
      var v := if s[0] == '-' then -n else n;
      if -0x8000_0000_0000_0000 <= v < 0x8000_0000_0000_0000 then Some(v) else None
  }

  function ToAsciiLowercase(c: char): char
  {
    if 'A' <= c <= 'Z' then (c as int + 32) as char else c
  }

  function Lowercase(s: string): string
  {
    seq(|s|, k requires 0 <= k < |s| => ToAsciiLowercase(s[k]))
  }

  /** Position of the first occurrence of one of `cs` in `s`. */
  function IndexOfAny(s: string, cs: set<char>): (r: Option<nat>)
    ensures r.Some? ==> r.value < |s| && s[r.value] in cs
    ensures r.Some? ==> forall k | 0 <= k < r.value :: s[k] !in cs
    ensures r.None? ==> forall k | 0 <= k < |s| :: s[k] !in cs
  {
    if |s| == 0 then None
    else if s[0] in cs then Some(0)
    else
      match IndexOfAny(s[1..], cs)
      case None => None
      case Some(i) => Some(i + 1)
  }

  /** `Digit+ | Digit+ '.' Digit* | Digit* '.' Digit+` */
  predicate IsMantissa(m: string)
  {
    match IndexOfAny(m, {'.'})
    case None => |m| > 0 && AllDigits(m)
    case Some(i) => |m| >= 2 && AllDigits(m[..i]) && AllDigits(m[i + 1..])
  }

  /** `Sign? Digit+`, after the `e`. */
  predicate IsExponent(x: string)
  {
    var digits := Unsigned(x, true);
    |digits| > 0 && AllDigits(digits)
  }

  /** `f64::from_str` accepts exactly `Sign? ('inf' | 'infinity' | 'nan' | Number)`, with
      `Number ::= Mantissa (('e' | 'E') Sign? Digit+)?` and the words in any case. */
  predicate IsRustFloat(s: string)
  {
    var body := Unsigned(s, true);
    IsSpecialFloatWord(body) || IsDecimalFloat(body)
  }

  /** `inf`, `infinity` or `nan`, in any case. */
  predicate IsSpecialFloatWord(body: string)
  {
    var word := Lowercase(body);
    word == "inf" || word == "infinity" || word == "nan"
  }

  predicate IsDecimalFloat(body: string)
  {
    match IndexOfAny(body, {'e', 'E'})
    case None => IsMantissa(body)
    case Some(i) => IsMantissa(body[..i]) && IsExponent(body[i + 1..])
  }
}

/** `Display` and `FromStr` of integers are inverse to each other. */
module NumeralProperties {
  import opened Results
  import opened Chars
  import opened Json
  import opened Numerals

  /** The digits `Display` writes denote the number written. */
  lemma {:induction false} DecimalValue(n: nat)
    ensures DigitsValue(Decimal(n)) == n
  {
    if n >= 10 {
      var s := Decimal(n);
      assert s[..|s| - 1] == Decimal(n / 10);
      DecimalValue(n / 10);
    }
  }

  lemma {:induction false} LeadingNonZeroPositive(s: string)
    requires |s| > 0 && AllDigits(s) && s[0] != '0'
    ensures DigitsValue(s) > 0
  {
    if |s| > 1 {
      LeadingNonZeroPositive(s[..|s| - 1]);
    }
  }

  /** Digits without a superfluous leading zero are exactly what `Display` writes for
      their value. */
  lemma {:induction false} CanonicalDecimal(s: string)
    requires Canonical(s)
    ensures Decimal(DigitsValue(s)) == s
  {
    var n := |s| - 1;
    if n == 0 {
      assert DigitChar(DigitValue(s[0])) == s[0];
    } else {
      var pre := s[..n];
      assert pre[0] == s[0];
      LeadingNonZeroPositive(pre);
      CanonicalDecimal(pre);
      assert DigitChar(DigitValue(s[n])) == s[n];
      assert s == pre + [s[n]];
    }
  }

  /** `u64::from_str` reads back what `Display` writes. */
  lemma ParseU64OfDecimal(n: U64)
    ensures ParseU64(Decimal(n)) == Some(n)
  {
    DecimalValue(n);
  }

  /** `i64::from_str` reads back what `Display` writes, sign included. */
  lemma ParseI64OfSignedDecimal(i: I64)
    ensures ParseI64(SignedDecimal(i)) == Some(i)
  {
    var magnitude: nat := if i < 0 then -(i as int) else i;
    DecimalValue(magnitude);
    if i < 0 {
      assert ("-" + Decimal(magnitude))[1..] == Decimal(magnitude);
    }
  }
}
