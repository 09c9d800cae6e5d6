/**
  Token streams of a value tree, and the parser of src/parser.rs reading each of them back.
  A scalar is one `Val` token carrying the text `Display` prints for it; arrays and objects
  are bracketed, with a comma between consecutive parts.
 */
module TokenRoundTrip {
  import opened Results
  import opened Json
  import opened ObjectSemantics
  import opened Parser
  import opened ParserSteps
  import opened Display
  import opened LiteralProperties

  function Emit(v: JsonVal, loc: Location): (ts: seq<Token>)
    ensures |ts| > 0
    ensures ts[0].kind == OpenSqBracket || ts[0].kind == OpenBracket || ts[0].kind.Val?
  {
    match v
    case Array(items) =>
      [Token(OpenSqBracket, loc)] + EmitItems(items, loc) + [Token(ClosedSqBracket, loc)]
    case Object(ms) =>
      [Token(OpenBracket, loc)] + EmitMembers(ms, loc) + [Token(ClosedBracket, loc)]
    case _ => [Token(Val(ScalarText(v)), loc)]
  }

  function EmitItems(items: seq<JsonVal>, loc: Location): seq<Token>
  {
    if |items| == 0 then []
    else if |items| == 1 then Emit(items[0], loc)
    else Emit(items[0], loc) + [Token(Comma, loc)] + EmitItems(items[1..], loc)
  }

  function EmitMember(m: Member, loc: Location): seq<Token>
  {
    [Token(Ident(m.key), loc), Token(Colon, loc)] + Emit(m.value, loc)
  }

  function EmitMembers(ms: seq<Member>, loc: Location): seq<Token>
  {
    if |ms| == 0 then []
    else if |ms| == 1 then EmitMember(ms[0], loc)
    else EmitMember(ms[0], loc) + [Token(Comma, loc)] + EmitMembers(ms[1..], loc)
  }

  /** Trees the token form carries without loss: every scalar reads back as itself and no
      object repeats a key. */
  predicate Emittable(v: JsonVal, isNumChar: char -> bool)
  {
    match v
    case Array(items) => ItemsEmittable(items, isNumChar)
    case Object(ms) => DistinctKeys(ms) && ValuesEmittable(ms, isNumChar)
    case _ => Reparses(v, isNumChar)
  }

  predicate ItemsEmittable(items: seq<JsonVal>, isNumChar: char -> bool)
    decreases items
  {
    |items| == 0 || (Emittable(items[0], isNumChar) && ItemsEmittable(items[1..], isNumChar))
  }

  predicate ValuesEmittable(ms: seq<Member>, isNumChar: char -> bool)
    decreases ms
  {
    |ms| == 0 || (Emittable(ms[0].value, isNumChar) && ValuesEmittable(ms[1..], isNumChar))
  }

  /** `e` occurs in `ts` starting at index `i`. */
  predicate At(ts: seq<Token>, i: nat, e: seq<Token>)
    decreases |e|
  {
    i + |e| <= |ts| && (|e| == 0 || (ts[i] == e[0] && At(ts, i + 1, e[1..])))
  }

  lemma {:induction false} AtConcat(ts: seq<Token>, i: nat, a: seq<Token>, b: seq<Token>)
    ensures At(ts, i, a + b) <==> At(ts, i, a) && At(ts, i + |a|, b)
    decreases |a|
  {
    if |a| == 0 {
      assert a + b == b;
    } else {
      assert (a + b)[1..] == a[1..] + b;
      AtConcat(ts, i + 1, a[1..], b);
    }
  }

  /** Every suffix of `ts` occurs in `ts` where it starts. */
  lemma {:induction false} AtSuffix(ts: seq<Token>, i: nat)
    requires i <= |ts|
    ensures At(ts, i, ts[i..])
    decreases |ts| - i
  {
    if i < |ts| {
      assert ts[i..][1..] == ts[i + 1..];
      AtSuffix(ts, i + 1);
    }
  }

  /** Where the parts of an emitted array or object sit in `ts`. */
  lemma AtBracketed(ts: seq<Token>, i: nat, open: Token, body: seq<Token>, close: Token)
    requires At(ts, i, [open] + body + [close])
    ensures i + |body| + 1 < |ts|
    ensures ts[i] == open && At(ts, i + 1, body) && ts[i + 1 + |body|] == close
  {
    AtConcat(ts, i, [open] + body, [close]);
    AtConcat(ts, i, [open], body);
  }

  /** Where the parts of two or more emitted parts, separated by commas, sit in `ts`. */
  lemma AtSeparated(ts: seq<Token>, i: nat, first: seq<Token>, rest: seq<Token>, loc: Location)
    requires At(ts, i, first + [Token(Comma, loc)] + rest)
    ensures i + |first| < |ts|
    ensures At(ts, i, first) && ts[i + |first|].kind == Comma && At(ts, i + |first| + 1, rest)
  {
    AtConcat(ts, i, first + [Token(Comma, loc)], rest);
    AtConcat(ts, i, first, [Token(Comma, loc)]);
  }

  /** The parts of an emitted array: `[`, the elements, `]`. */
  lemma ArrayLayout(items: seq<JsonVal>, ts: seq<Token>, i: nat, loc: Location)
    requires At(ts, i, Emit(Array(items), loc))
    ensures i < |ts| && ts[i].kind == OpenSqBracket && At(ts, i + 1, EmitItems(items, loc))
    ensures |Emit(Array(items), loc)| == |EmitItems(items, loc)| + 2
    ensures i + 1 + |EmitItems(items, loc)| < |ts| && ts[i + 1 + |EmitItems(items, loc)|].kind == ClosedSqBracket
  {
    AtBracketed(ts, i, Token(OpenSqBracket, loc), EmitItems(items, loc), Token(ClosedSqBracket, loc));
  }

  /** The parts of an emitted object: `{`, the members, `}`. */
  lemma ObjectLayout(ms: seq<Member>, ts: seq<Token>, i: nat, loc: Location)
    requires At(ts, i, Emit(Object(ms), loc))
    ensures i < |ts| && ts[i].kind == OpenBracket && At(ts, i + 1, EmitMembers(ms, loc))
    ensures |Emit(Object(ms), loc)| == |EmitMembers(ms, loc)| + 2
    ensures i + 1 + |EmitMembers(ms, loc)| < |ts| && ts[i + 1 + |EmitMembers(ms, loc)|].kind == ClosedBracket
  {
    AtBracketed(ts, i, Token(OpenBracket, loc), EmitMembers(ms, loc), Token(ClosedBracket, loc));
  }

  /** The parts of a scalar: one `Val` token. */
  lemma ScalarLayout(v: JsonVal, ts: seq<Token>, i: nat, loc: Location)
    requires IsScalar(v)
    requires At(ts, i, Emit(v, loc))
    ensures i < |ts| && ts[i] == Token(Val(ScalarText(v)), loc) && |Emit(v, loc)| == 1
  {
  }

  lemma ItemsSingle(items: seq<JsonVal>, ts: seq<Token>, i: nat, loc: Location, isNumChar: char -> bool)
    requires |items| == 1 && ItemsEmittable(items, isNumChar)
    requires At(ts, i, EmitItems(items, loc))
    ensures At(ts, i, Emit(items[0], loc)) && |EmitItems(items, loc)| == |Emit(items[0], loc)|
    ensures Emittable(items[0], isNumChar)
  {
  }

  lemma ItemsLayout(items: seq<JsonVal>, ts: seq<Token>, i: nat, loc: Location)
    requires |items| > 1
    requires At(ts, i, EmitItems(items, loc))
    ensures At(ts, i, Emit(items[0], loc))
    ensures i + |Emit(items[0], loc)| < |ts| && ts[i + |Emit(items[0], loc)|].kind == Comma
    ensures At(ts, i + |Emit(items[0], loc)| + 1, EmitItems(items[1..], loc))
    ensures |EmitItems(items, loc)| == |Emit(items[0], loc)| + 1 + |EmitItems(items[1..], loc)|
  {
    AtSeparated(ts, i, Emit(items[0], loc), EmitItems(items[1..], loc), loc);
  }

  lemma MembersSingle(ms: seq<Member>, ts: seq<Token>, i: nat, loc: Location, isNumChar: char -> bool)
    requires |ms| == 1 && ValuesEmittable(ms, isNumChar)
    requires At(ts, i, EmitMembers(ms, loc))
    ensures At(ts, i, EmitMember(ms[0], loc)) && |EmitMembers(ms, loc)| == |EmitMember(ms[0], loc)|
    ensures Emittable(ms[0].value, isNumChar)
  {
  }

  lemma MembersLayout(ms: seq<Member>, ts: seq<Token>, i: nat, loc: Location)
    requires |ms| > 1
    requires At(ts, i, EmitMembers(ms, loc))
    ensures At(ts, i, EmitMember(ms[0], loc))
    ensures i + |EmitMember(ms[0], loc)| < |ts| && ts[i + |EmitMember(ms[0], loc)|].kind == Comma
    ensures At(ts, i + |EmitMember(ms[0], loc)| + 1, EmitMembers(ms[1..], loc))
    ensures |EmitMembers(ms, loc)| == |EmitMember(ms[0], loc)| + 1 + |EmitMembers(ms[1..], loc)|
  {
    AtSeparated(ts, i, EmitMember(ms[0], loc), EmitMembers(ms[1..], loc), loc);
  }

  /** An element, a comma, and the rest of the array. */
  lemma ItemsCons(items: seq<JsonVal>, acc: seq<JsonVal>, ts: seq<Token>, i: nat, n: nat, e: nat, isNumChar: char -> bool)
    requires |items| > 1 && i < n < |ts| && ts[n].kind == Comma
    requires ts[i].kind == OpenSqBracket || ts[i].kind == OpenBracket || ts[i].kind.Val?
    requires ParseVal(ts[i], ts, i + 1, isNumChar) == Ok(Parsed(items[0], n))
    requires ParseArray(ts, n + 1, acc + [items[0]], isNumChar) == Ok(Parsed(Array(acc + [items[0]] + items[1..]), e))
    ensures ParseArray(ts, i, acc, isNumChar) == Ok(Parsed(Array(acc + items), e))
  {
    hide ParseArray, ParseVal;
    ArrayElement(ts, i, acc, isNumChar, items[0], n);
    ArrayComma(ts, n, acc + [items[0]], isNumChar);
    assert acc + [items[0]] + items[1..] == acc + items;
  }

  /** The last element, then `]`. */
  lemma ItemsLast(items: seq<JsonVal>, acc: seq<JsonVal>, ts: seq<Token>, i: nat, n: nat, isNumChar: char -> bool)
    requires |items| == 1 && i < n < |ts| && ts[n].kind == ClosedSqBracket
    requires ts[i].kind == OpenSqBracket || ts[i].kind == OpenBracket || ts[i].kind.Val?
    requires ParseVal(ts[i], ts, i + 1, isNumChar) == Ok(Parsed(items[0], n))
    ensures ParseArray(ts, i, acc, isNumChar) == Ok(Parsed(Array(acc + items), n + 1))
  {
    hide ParseArray, ParseVal;
    ArrayElement(ts, i, acc, isNumChar, items[0], n);
    ArrayClose(ts, n, acc + [items[0]], isNumChar);
    assert acc + [items[0]] == acc + items;
  }

  /** A member, a comma, and the rest of the object. */
  lemma MembersCons(ms: seq<Member>, acc: seq<Member>, ts: seq<Token>, i: nat, n: nat, e: nat, isNumChar: char -> bool)
    requires |ms| > 1 && i < n < |ts| && ts[n].kind == Comma && DistinctKeys(acc)
    requires ts[i].kind == Ident(ms[0].key)
    requires ParseIdent(ms[0].key, ts, i + 1, isNumChar) == Ok(Parsed(ms[0], n))
    requires ParseObject(ts, n + 1, Insert(acc, ms[0].key, ms[0].value), isNumChar)
             == Ok(Parsed(Object(InsertAll(acc, ms)), e))
    ensures ParseObject(ts, i, acc, isNumChar) == Ok(Parsed(Object(InsertAll(acc, ms)), e))
  {
    hide ParseObject, ParseIdent;
    ObjectMember(ts, i, acc, isNumChar, ms[0], n);
    ObjectComma(ts, n, Insert(acc, ms[0].key, ms[0].value), isNumChar);
  }

  /** The last member, then `}`. */
  lemma MembersLast(ms: seq<Member>, acc: seq<Member>, ts: seq<Token>, i: nat, n: nat, isNumChar: char -> bool)
    requires |ms| == 1 && i < n < |ts| && ts[n].kind == ClosedBracket && DistinctKeys(acc)
    requires ts[i].kind == Ident(ms[0].key)
    requires ParseIdent(ms[0].key, ts, i + 1, isNumChar) == Ok(Parsed(ms[0], n))
    ensures ParseObject(ts, i, acc, isNumChar) == Ok(Parsed(Object(InsertAll(acc, ms)), n + 1))
  {
    hide ParseObject, ParseIdent;
    var acc' := Insert(acc, ms[0].key, ms[0].value);
    ObjectMember(ts, i, acc, isNumChar, ms[0], n);
    ObjectClose(ts, n, acc', isNumChar);
    assert InsertAll(acc', ms[1..]) == acc';
  }

  /** `parse_val` on the first token of an emitted value returns that value and stops right
      after its last token, whatever surrounds it. */
  lemma {:induction false} ValEmitted(v: JsonVal, ts: seq<Token>, i: nat, loc: Location, isNumChar: char -> bool)
    requires Emittable(v, isNumChar)
    requires At(ts, i, Emit(v, loc))
    ensures i < |ts| && (ts[i].kind == OpenSqBracket || ts[i].kind == OpenBracket || ts[i].kind.Val?)
    ensures ParseVal(ts[i], ts, i + 1, isNumChar) == Ok(Parsed(v, i + |Emit(v, loc)|))
    decreases v, 1
  {
    match v
    case Array(items) => ArrayEmitted(items, ts, i, loc, isNumChar);
    case Object(ms) => ObjectEmitted(ms, ts, i, loc, isNumChar);
    case _ => ScalarEmitted(v, ts, i, loc, isNumChar);
  }

  lemma {:induction false} ArrayEmitted(items: seq<JsonVal>, ts: seq<Token>, i: nat, loc: Location,
                                        isNumChar: char -> bool)
    requires ItemsEmittable(items, isNumChar)
    requires At(ts, i, Emit(Array(items), loc))
    ensures i < |ts| && ts[i].kind == OpenSqBracket
    ensures ParseVal(ts[i], ts, i + 1, isNumChar) == Ok(Parsed(Array(items), i + |Emit(Array(items), loc)|))
    decreases Array(items), 0
  {
    hide ParseArray, ParseVal, ParseObject, ParseIdent, At, Emit, EmitItems;
    ArrayLayout(items, ts, i, loc);
    ItemsEmitted(items, [], ts, i + 1, loc, isNumChar);
    ValArray(ts[i], ts, i + 1, isNumChar);
    assert [] + items == items;
  }

  lemma {:induction false} ObjectEmitted(ms: seq<Member>, ts: seq<Token>, i: nat, loc: Location,
                                         isNumChar: char -> bool)
    requires DistinctKeys(ms) && ValuesEmittable(ms, isNumChar)
    requires At(ts, i, Emit(Object(ms), loc))
    ensures i < |ts| && ts[i].kind == OpenBracket
    ensures ParseVal(ts[i], ts, i + 1, isNumChar) == Ok(Parsed(Object(ms), i + |Emit(Object(ms), loc)|))
    decreases Object(ms), 0
  {
    hide ParseArray, ParseVal, ParseObject, ParseIdent, At, Emit, EmitMembers, InsertAll;
    ObjectLayout(ms, ts, i, loc);
    MembersEmitted(ms, [], ts, i + 1, loc, isNumChar);
    ValObject(ts[i], ts, i + 1, isNumChar);
    InsertAllDistinct([], ms);
    assert [] + ms == ms;
  }

  lemma ScalarEmitted(v: JsonVal, ts: seq<Token>, i: nat, loc: Location, isNumChar: char -> bool)
    requires IsScalar(v) && Reparses(v, isNumChar)
    requires At(ts, i, Emit(v, loc))
    ensures i < |ts| && ts[i].kind.Val?
    ensures ParseVal(ts[i], ts, i + 1, isNumChar) == Ok(Parsed(v, i + |Emit(v, loc)|))
  {
    hide ParseArray, ParseVal, ParseObject, ParseIdent, At, Emit;
    ScalarLayout(v, ts, i, loc);
    ScalarRoundTrip(v, loc, isNumChar);
    ValLiteral(ts[i], ts, i + 1, isNumChar, v);
  }

  /** `parse_array` on emitted elements followed by `]` appends exactly those elements. */
  lemma {:induction false} ItemsEmitted(items: seq<JsonVal>, acc: seq<JsonVal>, ts: seq<Token>, i: nat,
                                        loc: Location, isNumChar: char -> bool)
    requires ItemsEmittable(items, isNumChar)
    requires At(ts, i, EmitItems(items, loc))
    requires i + |EmitItems(items, loc)| < |ts| && ts[i + |EmitItems(items, loc)|].kind == ClosedSqBracket
    ensures ParseArray(ts, i, acc, isNumChar) == Ok(Parsed(Array(acc + items), i + |EmitItems(items, loc)| + 1))
    decreases items, 2
  {
    if |items| == 0 {
      ArrayClose(ts, i, acc, isNumChar);
      assert acc + items == acc;
    } else if |items| == 1 {
      LastItemEmitted(items, acc, ts, i, loc, isNumChar);
    } else {
      ItemsConsEmitted(items, acc, ts, i, loc, isNumChar);
    }
  }

  lemma {:induction false} LastItemEmitted(items: seq<JsonVal>, acc: seq<JsonVal>, ts: seq<Token>, i: nat,
                                           loc: Location, isNumChar: char -> bool)
    requires |items| == 1 && ItemsEmittable(items, isNumChar)
    requires At(ts, i, EmitItems(items, loc))
    requires i + |EmitItems(items, loc)| < |ts| && ts[i + |EmitItems(items, loc)|].kind == ClosedSqBracket
    ensures ParseArray(ts, i, acc, isNumChar) == Ok(Parsed(Array(acc + items), i + |EmitItems(items, loc)| + 1))
    decreases items, 1
  {
    hide ParseArray, ParseVal, ParseObject, ParseIdent, At, Emit, EmitItems;
    ItemsSingle(items, ts, i, loc, isNumChar);
    ValEmitted(items[0], ts, i, loc, isNumChar);
    ItemsLast(items, acc, ts, i, i + |Emit(items[0], loc)|, isNumChar);
  }

  lemma {:induction false} ItemsConsEmitted(items: seq<JsonVal>, acc: seq<JsonVal>, ts: seq<Token>, i: nat,
                                            loc: Location, isNumChar: char -> bool)
    requires |items| > 1 && ItemsEmittable(items, isNumChar)
    requires At(ts, i, EmitItems(items, loc))
    requires i + |EmitItems(items, loc)| < |ts| && ts[i + |EmitItems(items, loc)|].kind == ClosedSqBracket
    ensures ParseArray(ts, i, acc, isNumChar) == Ok(Parsed(Array(acc + items), i + |EmitItems(items, loc)| + 1))
    decreases items, 1
  {
    hide ParseArray, ParseVal, ParseObject, ParseIdent, At, Emit, EmitItems;
    ItemsLayout(items, ts, i, loc);
    var n := i + |Emit(items[0], loc)|;
    ValEmitted(items[0], ts, i, loc, isNumChar);
    ItemsEmitted(items[1..], acc + [items[0]], ts, n + 1, loc, isNumChar);
    ItemsCons(items, acc, ts, i, n, i + |EmitItems(items, loc)| + 1, isNumChar);
  }

  lemma MemberLayout(m: Member, ts: seq<Token>, i: nat, loc: Location)
    requires At(ts, i, EmitMember(m, loc))
    ensures i + 1 < |ts| && ts[i] == Token(Ident(m.key), loc) && ts[i + 1] == Token(Colon, loc)
    ensures At(ts, i + 2, Emit(m.value, loc)) && |EmitMember(m, loc)| == |Emit(m.value, loc)| + 2
  {
    AtConcat(ts, i, [Token(Ident(m.key), loc), Token(Colon, loc)], Emit(m.value, loc));
  }

  /** One emitted member: `parse_ident` after its key yields the member. */
  lemma MemberEmitted(m: Member, ts: seq<Token>, i: nat, loc: Location, isNumChar: char -> bool)
    requires Emittable(m.value, isNumChar)
    requires At(ts, i, EmitMember(m, loc))
    ensures i < |ts| && ts[i].kind == Ident(m.key)
    ensures ParseIdent(m.key, ts, i + 1, isNumChar) == Ok(Parsed(m, i + |EmitMember(m, loc)|))
  {
    hide ParseArray, ParseVal, ParseObject, ParseIdent, At, Emit, EmitMember;
    MemberLayout(m, ts, i, loc);
    ValEmitted(m.value, ts, i + 2, loc, isNumChar);
    IdentValue(m.key, ts, i + 1, isNumChar, m.value, i + |EmitMember(m, loc)|);
  }

  /** `parse_object` on emitted members followed by `}` inserts exactly those members. */
  lemma {:induction false} MembersEmitted(ms: seq<Member>, acc: seq<Member>, ts: seq<Token>, i: nat,
                                          loc: Location, isNumChar: char -> bool)
    requires DistinctKeys(acc) && ValuesEmittable(ms, isNumChar)
    requires At(ts, i, EmitMembers(ms, loc))
    requires i + |EmitMembers(ms, loc)| < |ts| && ts[i + |EmitMembers(ms, loc)|].kind == ClosedBracket
    ensures ParseObject(ts, i, acc, isNumChar) == Ok(Parsed(Object(InsertAll(acc, ms)), i + |EmitMembers(ms, loc)| + 1))
    decreases ms, 2
  {
    if |ms| == 0 {
      ObjectClose(ts, i, acc, isNumChar);
    } else if |ms| == 1 {
      LastMemberEmitted(ms, acc, ts, i, loc, isNumChar);
    } else {
      MembersConsEmitted(ms, acc, ts, i, loc, isNumChar);
    }
  }

  lemma {:induction false} LastMemberEmitted(ms: seq<Member>, acc: seq<Member>, ts: seq<Token>, i: nat,
                                             loc: Location, isNumChar: char -> bool)
    requires |ms| == 1 && DistinctKeys(acc) && ValuesEmittable(ms, isNumChar)
    requires At(ts, i, EmitMembers(ms, loc))
    requires i + |EmitMembers(ms, loc)| < |ts| && ts[i + |EmitMembers(ms, loc)|].kind == ClosedBracket
    ensures ParseObject(ts, i, acc, isNumChar) == Ok(Parsed(Object(InsertAll(acc, ms)), i + |EmitMembers(ms, loc)| + 1))
    decreases ms, 1
  {
    hide ParseArray, ParseVal, ParseObject, ParseIdent, At, Emit, EmitMember, EmitMembers;
    MembersSingle(ms, ts, i, loc, isNumChar);
    MemberEmitted(ms[0], ts, i, loc, isNumChar);
    MembersLast(ms, acc, ts, i, i + |EmitMember(ms[0], loc)|, isNumChar);
  }

  lemma {:induction false} MembersConsEmitted(ms: seq<Member>, acc: seq<Member>, ts: seq<Token>, i: nat,
                                              loc: Location, isNumChar: char -> bool)
    requires |ms| > 1 && DistinctKeys(acc) && ValuesEmittable(ms, isNumChar)
    requires At(ts, i, EmitMembers(ms, loc))
    requires i + |EmitMembers(ms, loc)| < |ts| && ts[i + |EmitMembers(ms, loc)|].kind == ClosedBracket
    ensures ParseObject(ts, i, acc, isNumChar) == Ok(Parsed(Object(InsertAll(acc, ms)), i + |EmitMembers(ms, loc)| + 1))
    decreases ms, 1
  {
    hide ParseArray, ParseVal, ParseObject, ParseIdent, At, Emit, EmitMember, EmitMembers;
    MembersLayout(ms, ts, i, loc);
    var n := i + |EmitMember(ms[0], loc)|;
    MemberEmitted(ms[0], ts, i, loc, isNumChar);
    MembersEmitted(ms[1..], Insert(acc, ms[0].key, ms[0].value), ts, n + 1, loc, isNumChar);
    MembersCons(ms, acc, ts, i, n, i + |EmitMembers(ms, loc)| + 1, isNumChar);
  }

  /** `parse` reads the token stream of any emittable document back as that document. */
  lemma DocumentRoundTrip(v: JsonVal, loc: Location, isNumChar: char -> bool)
    requires v.Array? || v.Object?
    requires Emittable(v, isNumChar)
    ensures Parse(Emit(v, loc), isNumChar) == Ok(v)
  {
    var ts := Emit(v, loc);
    AtSuffix(ts, 0);
    assert ts[0..] == ts;
    ValEmitted(v, ts, 0, loc, isNumChar);
  }

  /** An object whose stream repeats keys parses as the insertion of its members in order:
      one entry per key, at its first position, holding its last value. */
  lemma DuplicateKeysRoundTrip(ms: seq<Member>, loc: Location, isNumChar: char -> bool)
    requires ValuesEmittable(ms, isNumChar)
    ensures Parse(Emit(Object(ms), loc), isNumChar) == Ok(Object(InsertAll([], ms)))
    ensures var r := InsertAll([], ms);
            SameKeys(r, ms) && FirstAppearanceOrder(r, ms) && LastWriteWins(r, ms)
  {
    var ts := Emit(Object(ms), loc);
    var body := EmitMembers(ms, loc);
    AtSuffix(ts, 0);
    assert ts[0..] == ts;
    AtBracketed(ts, 0, Token(OpenBracket, loc), body, Token(ClosedBracket, loc));
    MembersEmitted(ms, [], ts, 1, loc, isNumChar);
    InsertAllSemantics(ms);
  }
}
