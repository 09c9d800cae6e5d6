/**
  The `Display` implementation of src/parser.rs (`fmt_impl`, `print_indent`) as a pure
  function from a value and a nesting depth to text.
 */
module Display {
  import opened Json
  import opened Numerals
  import opened NumeralProperties

  /** `print_indent`: four spaces per level of depth. */
  function Indent(depth: nat): (s: string)
    ensures |s| == 4 * depth
    ensures forall k | 0 <= k < |s| :: s[k] == ' '
  {
    if depth == 0 then "" else "    " + Indent(depth - 1)
  }

  predicate IsScalar(v: JsonVal)
  {
    !v.Array? && !v.Object?
  }

  /** `s` ends with `t`. */
  predicate EndsWith(s: string, t: string)
  {
    |t| <= |s| && s[|s| - |t|..] == t
  }

  /** The magnitude of a signed integer. */
  function Magnitude(i: int): nat
  {
    if i < 0 then -i else i
  }

  /** The text `fmt_impl` writes for a value without children: a string in quotes, an
      integer as its canonical decimal digits (a `-` before them exactly when negative),
      a float as the text it was read from. */
  function ScalarText(v: JsonVal): (s: string)
    requires IsScalar(v)
    ensures v.String? ==> |s| >= 2 && s[0] == '"' && s[|s| - 1] == '"' && s[1..|s| - 1] == v.str
    ensures v.Number? && v.num.UnsignedInt? ==> Canonical(s) && DigitsValue(s) == v.num.u
    ensures v.Number? && v.num.SignedInt? ==> |s| > 0 && (s[0] == '-' <==> v.num.i < 0)
    ensures v.Number? && v.num.SignedInt?
            ==> Canonical(Unsigned(s, true)) && DigitsValue(Unsigned(s, true)) == Magnitude(v.num.i)
    ensures v.Number? && v.num.Float? ==> s == v.num.text
    ensures v.Boolean? ==> s == (if v.b then "true" else "false")
    ensures v.Null? ==> s == "null"
  {
    match v
    case Null => "null"
    case Boolean(b) => if b then "true" else "false"
    case String(s) => "\"" + s + "\""
    case Number(n) =>
      match n
      case UnsignedInt(u) => DecimalValue(u); Decimal(u)
      case SignedInt(i) =>
        DecimalValue(Magnitude(i));
        assert i < 0 ==> ("-" + Decimal(Magnitude(i)))[1..] == Decimal(Magnitude(i));
        SignedDecimal(i)
      case Float(text) => text
  }

  /** Where an empty object's closing brace goes: the source writes the indentation of
      the object's depth before it whether or not the object has members (`AsWritten`);
      `Intended` writes it only after members, as the array branch does (see the README's
      findings). */
  datatype Style = AsWritten | Intended

  /** `fmt_impl(v, depth)`: a scalar prints the same at every depth and in both styles; a
      container opens with its bracket and closes with the matching one. The full layout
      of a container is stated by `DisplayProperties.ArrayLayout` and `ObjectLayout`. */
  function Fmt(v: JsonVal, depth: nat, style: Style): (s: string)
    ensures IsScalar(v) ==> s == ScalarText(v)
    ensures v.Array? ==> |s| >= 2 && s[0] == '[' && s[|s| - 1] == ']'
    ensures v.Object? ==> |s| >= 2 && s[0] == '{' && s[|s| - 1] == '}'
    decreases v, 0
  {
    match v
    case Array(items) =>
      "[" + (if |items| == 0 then "" else "\n" + FmtItems(items, depth + 1, style) + Indent(depth)) + "]"
    case Object(members) =>
      "{" + (if |members| == 0 then "" else "\n" + FmtMembers(members, depth + 1, style))
      + (if |members| == 0 && style == Intended then "" else Indent(depth)) + "}"
    case _ => ScalarText(v)
  }

  /** The loop over an array's elements, each on its own line at `depth` and followed
      by `,` and a newline. */
  function FmtItems(items: seq<JsonVal>, depth: nat, style: Style): (s: string)
    ensures |items| > 0 ==> EndsWith(s, ",\n")
  {
    if |items| == 0 then ""
    else ItemLine(items[0], depth, style) + ",\n" + FmtItems(items[1..], depth, style)
  }

  /** One array element at `depth`. */
  function ItemLine(v: JsonVal, depth: nat, style: Style): string
    decreases v, 1
  {
    Indent(depth) + Fmt(v, depth, style)
  }

  /** One member, `"key": value`, at `depth`. */
  function MemberLine(m: Member, depth: nat, style: Style): string
  {
    Indent(depth) + "\"" + m.key + "\": " + Fmt(m.value, depth, style)
  }

  /** The loop over an object's members: a comma after every member but the last, then
      a newline. */
  function FmtMembers(ms: seq<Member>, depth: nat, style: Style): (s: string)
    ensures |ms| > 0 ==> EndsWith(s, "\n")
  {
    if |ms| == 0 then ""
    else MemberLine(ms[0], depth, style) + (if |ms| != 1 then "," else "") + "\n" + FmtMembers(ms[1..], depth, style)
  }

  /** `Display::fmt` starts at depth 0. */
  function ToText(v: JsonVal): (s: string)
    ensures IsScalar(v) ==> s == ScalarText(v)
    ensures v.Array? && |v.items| == 0 ==> s == "[]"
    ensures v.Object? && |v.members| == 0 ==> s == "{}"
    ensures v.Array? && |v.items| > 0 ==> |s| >= 2 && s[..2] == "[\n" && EndsWith(s, ",\n]")
    ensures v.Object? && |v.members| > 0 ==> |s| >= 2 && s[..2] == "{\n" && EndsWith(s, "\n}")
  {
    Fmt(v, 0, AsWritten)
  }

  /** `Display::fmt` with an empty object printed as `{}` at every depth. */
  function ToTextIntended(v: JsonVal): string
  {
    Fmt(v, 0, Intended)
  }
}

/** The layout `fmt_impl` produces, stated through independent line-based definitions. */
module DisplayProperties {
  import opened Json
  import opened Display

  /** Lines joined by a separator, with no separator after the last line. */
  function Join(lines: seq<string>, sep: string): string
  {
    if |lines| == 0 then ""
    else if |lines| == 1 then lines[0]
    else lines[0] + sep + Join(lines[1..], sep)
  }

  /** Each line followed by the terminator. */
  function Terminate(lines: seq<string>, term: string): string
  {
    if |lines| == 0 then "" else lines[0] + term + Terminate(lines[1..], term)
  }

  function ItemLines(items: seq<JsonVal>, depth: nat, style: Style): (lines: seq<string>)
    ensures |lines| == |items|
  {
    seq(|items|, i requires 0 <= i < |items| => ItemLine(items[i], depth, style))
  }

  function MemberLines(ms: seq<Member>, depth: nat, style: Style): (lines: seq<string>)
    ensures |lines| == |ms|
  {
    seq(|ms|, i requires 0 <= i < |ms| => MemberLine(ms[i], depth, style))
  }

  /** An empty array prints as `[]` at any depth. */
  lemma EmptyArrayText(depth: nat, style: Style)
    ensures Fmt(Array([]), depth, style) == "[]"
  {
  }

  /** As the source writes it, an empty object prints its closing brace after the
      indentation of its own depth, so it is `{}` only at depth 0. */
  lemma EmptyObjectText(depth: nat)
    ensures Fmt(Object([]), depth, AsWritten) == "{" + Indent(depth) + "}"
    ensures depth == 0 ==> Fmt(Object([]), depth, AsWritten) == "{}"
    ensures depth > 0 ==> Fmt(Object([]), depth, AsWritten) != "{}"
  {
  }

  /** An empty object inside an array prints with four spaces between its braces. */
  lemma NestedEmptyObjectText()
    ensures ToText(Array([Object([])])) == "[\n    {    },\n]"
  {
    hide FmtItems;
    NestedLine(AsWritten, "{    }");
  }

  /** The one line of a one-element array holding an empty object, at depth 1. */
  lemma NestedLine(style: Style, text: string)
    requires text == (if style == AsWritten then "{    }" else "{}")
    ensures FmtItems([Object([])], 1, style) == "    " + text + ",\n"
  {
    hide Fmt;
    assert Indent(1) == "    ";
    EmptyObjectAt(style);
  }

  lemma EmptyObjectAt(style: Style)
    ensures Fmt(Object([]), 1, style) == (if style == AsWritten then "{    }" else "{}")
  {
    assert Indent(1) == "    ";
  }

  /** With the indentation written only after members, an empty object is `{}` at every
      depth, like an empty array. */
  lemma EmptyObjectTextIntended(depth: nat)
    ensures Fmt(Object([]), depth, Intended) == "{}"
  {
  }

  lemma NestedEmptyObjectTextIntended()
    ensures ToTextIntended(Array([Object([])])) == "[\n    {},\n]"
  {
    hide FmtItems;
    NestedLine(Intended, "{}");
  }

  /** No object anywhere in the tree is empty. */
  predicate NoEmptyObject(v: JsonVal)
  {
    match v
    case Array(items) => ItemsNoEmptyObject(items)
    case Object(ms) => |ms| > 0 && MembersNoEmptyObject(ms)
    case _ => true
  }

  predicate ItemsNoEmptyObject(items: seq<JsonVal>)
    decreases items
  {
    |items| == 0 || (NoEmptyObject(items[0]) && ItemsNoEmptyObject(items[1..]))
  }

  predicate MembersNoEmptyObject(ms: seq<Member>)
    decreases ms
  {
    |ms| == 0 || (NoEmptyObject(ms[0].value) && MembersNoEmptyObject(ms[1..]))
  }

  /** The two placements of the closing brace print the same text for every tree without
      an empty object, and differ on an empty object below depth 0. */
  lemma {:induction false} StylesAgree(v: JsonVal, depth: nat)
    requires NoEmptyObject(v)
    ensures Fmt(v, depth, AsWritten) == Fmt(v, depth, Intended)
    decreases v, 1
  {
    match v
    case Array(items) => ItemsAgree(items, depth + 1, v);
    case Object(ms) => MembersAgree(ms, depth + 1, v);
    case _ =>
  }

  lemma {:induction false} ItemsAgree(items: seq<JsonVal>, depth: nat, parent: JsonVal)
    requires ItemsNoEmptyObject(items)
    requires forall k | 0 <= k < |items| :: items[k] < parent
    ensures FmtItems(items, depth, AsWritten) == FmtItems(items, depth, Intended)
    decreases parent, 0, |items|
  {
    if |items| > 0 {
      StylesAgree(items[0], depth);
      ItemsAgree(items[1..], depth, parent);
    }
  }

  lemma {:induction false} MembersAgree(ms: seq<Member>, depth: nat, parent: JsonVal)
    requires MembersNoEmptyObject(ms)
    requires forall k | 0 <= k < |ms| :: ms[k].value < parent
    ensures FmtMembers(ms, depth, AsWritten) == FmtMembers(ms, depth, Intended)
    decreases parent, 0, |ms|
  {
    if |ms| > 0 {
      StylesAgree(ms[0].value, depth);
      MembersAgree(ms[1..], depth, parent);
    }
  }

  lemma {:induction false} ItemsTerminated(items: seq<JsonVal>, depth: nat, style: Style)
    ensures FmtItems(items, depth, style) == Terminate(ItemLines(items, depth, style), ",\n")
    decreases |items|
  {
    if |items| > 0 {
      ItemsTerminated(items[1..], depth, style);
      assert ItemLines(items[1..], depth, style) == ItemLines(items, depth, style)[1..];
    }
  }

  lemma {:induction false} MembersJoined(ms: seq<Member>, depth: nat, style: Style)
    requires |ms| > 0
    ensures FmtMembers(ms, depth, style) == Join(MemberLines(ms, depth, style), ",\n") + "\n"
    decreases |ms|
  {
    hide MemberLine, Fmt, Indent;
    var lines := MemberLines(ms, depth, style);
    if |ms| > 1 {
      MembersJoined(ms[1..], depth, style);
      assert MemberLines(ms[1..], depth, style) == lines[1..];
    }
  }

  /** A non-empty array: `[`, a newline, each element on its own line one level deeper and
      followed by `,` and a newline, then the indentation of the array's depth and `]`. */
  lemma ArrayLayout(items: seq<JsonVal>, depth: nat, style: Style)
    requires |items| > 0
    ensures Fmt(Array(items), depth, style)
            == "[" + ("\n" + Terminate(ItemLines(items, depth + 1, style), ",\n") + Indent(depth)) + "]"
  {
    hide FmtItems, Terminate, ItemLines, Indent;
    ItemsTerminated(items, depth + 1, style);
  }

  /** A non-empty object: `{`, a newline, the members one level deeper, separated by `,`
      and a newline with no comma after the last, then a newline, the indentation of the
      object's depth and `}`. */
  lemma ObjectLayout(ms: seq<Member>, depth: nat, style: Style)
    requires |ms| > 0
    ensures Fmt(Object(ms), depth, style)
            == "{" + ("\n" + (Join(MemberLines(ms, depth + 1, style), ",\n") + "\n")) + Indent(depth) + "}"
  {
    hide FmtMembers, Join, MemberLines, Indent;
    MembersJoined(ms, depth + 1, style);
  }
}
