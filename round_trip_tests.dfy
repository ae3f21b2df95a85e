// The cases of test/round_trip.cc that need no double and no negative integer: each text
// is parsed into a Document, the Document is written to a compact Writer, and the Writer's
// output is the text again.

module RoundTripTests {
  import opened Handler
  import opened Values
  import opened Errors
  import opened ReaderSpec
  import opened WriterProps
  import opened Writer
  import opened RoundTrips
  import Documents
  import DocumentParse

  /**
   * The TEST_ROUNDTRIP_* macros: Parse gives OK, the Document holds a value
   * of type ty, and writeTo, with the Writer answering true to every call, ends without a
   * throw and leaves in the Writer's stream exactly json.
   */
  ghost predicate WritesBack(json: seq<char>, ty: Type, stod: Stod, fmt: Format)
  {
    var r := ParseSpec(json, 0, DocumentParse.AcceptAll, [], stod);
    var d := Documents.Feed(Documents.Initial, r.trace);
    r.err == OK && d.Some? && d.value.root.tag == ty && KeysTagged(d.value.root) &&
    var o := WriteSpec(d.value.root, DocumentParse.AcceptAll, []);
    o.ok && !o.threw && Run(WriterStep(fmt), Fresh, o.trace) == Some(Out(WState([], true), json))
  }

  /** A text is written back once it is the compact text of a value CompactRoundTrip covers. */
  lemma {:induction false} CompactWritesBack(v: Value, json: seq<char>, stod: Stod, fmt: Format)
    requires Reparses(v) && UniqueKeys(v) && Formats(fmt) && Compact(v, fmt) == json
    ensures WritesBack(json, v.tag, stod, fmt)
  {
    CompactRoundTrip(v, stod, fmt);
  }

  // ---------------------------------------------------------------- the values of the texts

  function Arr(es: seq<Value>): Value { Value(ARRAY, ArrayData(es)) }
  function Obj(ms: seq<Member>): Value { Value(OBJECT, ObjectData(ms)) }
  function Field(k: seq<char>, v: Value): Member { Member(OfString(k), v) }

  /** The text "\" \\ / \b \f \n \r \t" and the characters it is read as. */
  const EscapesJson: seq<char> := "\"\\\" \\\\ / \\b \\f \\n \\r \\t\""
  const Escapes: seq<char> := ['"', ' ', '\\', ' ', '/', ' ', '\U{8}', ' ', '\U{C}', ' ', '\n', ' ', '\r', ' ', '\t']

  const Nul: Value := Value(NULL, Monostate)

  // Each list below is built one element at a time, in the order the reader appends them.

  /** [1,2,3]. */
  const OneTwo: seq<Value> := [OfInt32(1)] + [OfInt32(2)]
  const OneTwoThree: Value := Arr(OneTwo + [OfInt32(3)])

  /** The elements of [null,false,true,123,"abc",[1,2,3]]. */
  const Mixed1: seq<Value> := [Nul]
  const Mixed2: seq<Value> := Mixed1 + [OfBool(false)]
  const Mixed3: seq<Value> := Mixed2 + [OfBool(true)]
  const Mixed4: seq<Value> := Mixed3 + [OfInt32(123)]
  const Mixed5: seq<Value> := Mixed4 + [OfString("abc")]
  const Mixed: seq<Value> := Mixed5 + [OneTwoThree]

  /** The elements of [0], [0,1] and [0,1,2]. */
  const Zero: seq<Value> := [OfInt32(0)]
  const ZeroOne: seq<Value> := Zero + [OfInt32(1)]
  const ZeroOneTwo: seq<Value> := ZeroOne + [OfInt32(2)]

  /** The elements of [[],[0],[0,1],[0,1,2]]. */
  const Nested1: seq<Value> := [Arr([])]
  const Nested2: seq<Value> := Nested1 + [Arr(Zero)]
  const Nested3: seq<Value> := Nested2 + [Arr(ZeroOne)]
  const Nested: seq<Value> := Nested3 + [Arr(ZeroOneTwo)]

  /** The members of {"1":1,"2":2,"3":3}. */
  const Numbered1: seq<Member> := [Field("1", OfInt32(1))]
  const Numbered2: seq<Member> := Numbered1 + [Field("2", OfInt32(2))]
  const Numbered: seq<Member> := Numbered2 + [Field("3", OfInt32(3))]

  /** The members of {"n":null,"f":false,"t":true,"i":123,"s":"abc","a":[1,2,3],"o":{"1":1,"2":2,"3":3}}. */
  const Named1: seq<Member> := [Field("n", Nul)]
  const Named2: seq<Member> := Named1 + [Field("f", OfBool(false))]
  const Named3: seq<Member> := Named2 + [Field("t", OfBool(true))]
  const Named4: seq<Member> := Named3 + [Field("i", OfInt32(123))]
  const Named5: seq<Member> := Named4 + [Field("s", OfString("abc"))]
  const Named6: seq<Member> := Named5 + [Field("a", OneTwoThree)]
  const Named: seq<Member> := Named6 + [Field("o", Obj(Numbered))]

  // ---------------------------------------------------------------- the tests

  /** TEST_ROUNDTRIP_BOOL("true") and TEST_ROUNDTRIP_BOOL("false"). */
  lemma {:induction false} Bools(stod: Stod, fmt: Format)
    requires Formats(fmt)
    ensures WritesBack("true", BOOL, stod, fmt) && WritesBack("false", BOOL, stod, fmt)
  {
    CompactWritesBack(OfBool(true), "true", stod, fmt);
    CompactWritesBack(OfBool(false), "false", stod, fmt);
  }

  /** TEST_ROUNDTRIP_INT32 for the texts that are not negative: "0", "1234567890", "2147483647". */
  lemma {:induction false} Int32s(stod: Stod, fmt: Format)
    requires Formats(fmt)
    ensures WritesBack("0", INT32, stod, fmt)
    ensures WritesBack("1234567890", INT32, stod, fmt)
    ensures WritesBack("2147483647", INT32, stod, fmt)
  {
    Int32Texts(fmt);
    CompactWritesBack(OfInt32(0), "0", stod, fmt);
    CompactWritesBack(OfInt32(1234567890), "1234567890", stod, fmt);
    CompactWritesBack(OfInt32(2147483647), "2147483647", stod, fmt);
  }

  /**
   * TEST_ROUNDTRIP_INT64 for the texts beyond int32 that are not negative; its "0" is the
   * INT32 case above, which the macro also accepts.
   */
  lemma {:induction false} Int64s(stod: Stod, fmt: Format)
    requires Formats(fmt)
    ensures WritesBack("12345678901234", INT64, stod, fmt)
    ensures WritesBack("9223372036854775807", INT64, stod, fmt)
  {
    FourteenDigits();
    NineteenDigits();
    CompactWritesBack(OfInt64(12345678901234), "12345678901234", stod, fmt);
    CompactWritesBack(OfInt64(9223372036854775807), "9223372036854775807", stod, fmt);
  }

  /** TEST_ROUNDTRIP_STRING("\"\"", "\"\"") and TEST_ROUNDTRIP_STRING("\"Hello\"", "\"Hello\""). */
  lemma {:induction false} PlainStrings(stod: Stod, fmt: Format)
    requires Formats(fmt)
    ensures WritesBack("\"\"", STRING, stod, fmt) && WritesBack("\"Hello\"", STRING, stod, fmt)
  {
    StringTexts(fmt);
    CompactWritesBack(OfString(""), "\"\"", stod, fmt);
    CompactWritesBack(OfString("Hello"), "\"Hello\"", stod, fmt);
  }

  /** TEST_ROUNDTRIP_STRING("\"Hello\\nWorld\"", "\"Hello\\nWorld\""). */
  lemma {:induction false} NewlineString(stod: Stod, fmt: Format)
    requires Formats(fmt)
    ensures WritesBack("\"Hello\\nWorld\"", STRING, stod, fmt)
  {
    StringTestNewline();
    CompactWritesBack(OfString("Hello\nWorld"), "\"Hello\\nWorld\"", stod, fmt);
  }

  /** TEST_ROUNDTRIP_STRING of the text with every two-character escape and '/'. */
  lemma {:induction false} EscapesString(stod: Stod, fmt: Format)
    requires Formats(fmt)
    ensures WritesBack(EscapesJson, STRING, stod, fmt)
  {
    EscapesText(fmt);
    StringReparses(Escapes);
    CompactWritesBack(OfString(Escapes), EscapesJson, stod, fmt);
  }

  /** TEST_ROUNDTRIP_STRING("\"Hello\\u0000World\"", "\"Hello\\u0000World\""). */
  lemma {:induction false} NulString(stod: Stod, fmt: Format)
    requires Formats(fmt)
    ensures WritesBack("\"Hello\\u0000World\"", STRING, stod, fmt)
  {
    StringTestNul();
    CompactWritesBack(OfString("Hello\0World"), "\"Hello\\u0000World\"", stod, fmt);
  }

  /** TEST_ROUNDTRIP_ARRAY("[]"). */
  lemma {:induction false} EmptyArray(stod: Stod, fmt: Format)
    requires Formats(fmt)
    ensures WritesBack("[]", ARRAY, stod, fmt)
  {
    CompactWritesBack(Arr([]), "[]", stod, fmt);
  }

  /** TEST_ROUNDTRIP_ARRAY("[null,false,true,123,\"abc\",[1,2,3]]"). */
  lemma {:induction false} MixedArray(stod: Stod, fmt: Format)
    requires Formats(fmt)
    ensures WritesBack("[null,false,true,123,\"abc\",[1,2,3]]", ARRAY, stod, fmt)
  {
    MixedGood();
    MixedText(fmt);
    CompactWritesBack(Arr(Mixed), "[null,false,true,123,\"abc\",[1,2,3]]", stod, fmt);
  }

  /** TEST_ROUNDTRIP_ARRAY("[[],[0],[0,1],[0,1,2]]"). */
  lemma {:induction false} NestedArray(stod: Stod, fmt: Format)
    requires Formats(fmt)
    ensures WritesBack("[[],[0],[0,1],[0,1,2]]", ARRAY, stod, fmt)
  {
    NestedGood();
    NestedText(fmt);
    CompactWritesBack(Arr(Nested), "[[],[0],[0,1],[0,1,2]]", stod, fmt);
  }

  /** TEST_ROUNDTRIP_OBJECT("{}"). */
  lemma {:induction false} EmptyObject(stod: Stod, fmt: Format)
    requires Formats(fmt)
    ensures WritesBack("{}", OBJECT, stod, fmt)
  {
    CompactWritesBack(Obj([]), "{}", stod, fmt);
  }

  /** TEST_ROUNDTRIP_OBJECT("{\"n\":null,\"f\":false,...,\"o\":{\"1\":1,\"2\":2,\"3\":3}}"). */
  lemma {:induction false} NamedObject(stod: Stod, fmt: Format)
    requires Formats(fmt)
    ensures WritesBack("{\"n\":null,\"f\":false,\"t\":true,\"i\":123" + ",\"s\":\"abc\",\"a\":[1,2,3]" + ",\"o\":{\"1\":1,\"2\":2,\"3\":3}}",
      OBJECT, stod, fmt)
  {
    NamedGood();
    NamedText(fmt);
    CompactWritesBack(Obj(Named),
      "{\"n\":null,\"f\":false,\"t\":true,\"i\":123" + ",\"s\":\"abc\",\"a\":[1,2,3]" + ",\"o\":{\"1\":1,\"2\":2,\"3\":3}}", stod, fmt);
  }

  // ---------------------------------------------------------------- the texts of the scalars

  lemma {:induction false} Int32Texts(fmt: Format)
    ensures Compact(OfInt32(0), fmt) == "0"
    ensures Compact(OfInt32(1234567890), fmt) == "1234567890"
    ensures Compact(OfInt32(2147483647), fmt) == "2147483647"
  {
    TenDigitsAscending();
    TenDigitsMax();
  }

  /** One more digit at the right of a decimal text. */
  lemma {:induction false} DecimalNext(n: nat, d: nat, s: seq<char>, t: seq<char>)
    requires 0 < n && d < 10 && Itoa.Decimal(n) == s && t == s + [Itoa.Digit(d)]
    ensures Itoa.Decimal(10 * n + d) == t
  {
    assert (10 * n + d) / 10 == n && (10 * n + d) % 10 == d;
  }

  lemma {:induction false} TenDigitsAscending()
    ensures Itoa.Decimal(1234567890) == "1234567890"
  {
    DecimalNext(1, 2, "1", "12");
    DecimalNext(12, 3, "12", "123");
    DecimalNext(123, 4, "123", "1234");
    DecimalNext(1234, 5, "1234", "12345");
    DecimalNext(12345, 6, "12345", "123456");
    DecimalNext(123456, 7, "123456", "1234567");
    DecimalNext(1234567, 8, "1234567", "12345678");
    DecimalNext(12345678, 9, "12345678", "123456789");
    DecimalNext(123456789, 0, "123456789", "1234567890");
  }

  lemma {:induction false} TenDigitsMax()
    ensures Itoa.Decimal(2147483647) == "2147483647"
  {
    DecimalNext(2, 1, "2", "21");
    DecimalNext(21, 4, "21", "214");
    DecimalNext(214, 7, "214", "2147");
    DecimalNext(2147, 4, "2147", "21474");
    DecimalNext(21474, 8, "21474", "214748");
    DecimalNext(214748, 3, "214748", "2147483");
    DecimalNext(2147483, 6, "2147483", "21474836");
    DecimalNext(21474836, 4, "21474836", "214748364");
    DecimalNext(214748364, 7, "214748364", "2147483647");
  }

  lemma {:induction false} FourteenDigits()
    ensures Itoa.Decimal(12345678901234) == "12345678901234"
  {
    DecimalNext(1, 2, "1", "12");
    DecimalNext(12, 3, "12", "123");
    DecimalNext(123, 4, "123", "1234");
    DecimalNext(1234, 5, "1234", "12345");
    DecimalNext(12345, 6, "12345", "123456");
    DecimalNext(123456, 7, "123456", "1234567");
    DecimalNext(1234567, 8, "1234567", "12345678");
    DecimalNext(12345678, 9, "12345678", "123456789");
    DecimalNext(123456789, 0, "123456789", "1234567890");
    DecimalNext(1234567890, 1, "1234567890", "12345678901");
    DecimalNext(12345678901, 2, "12345678901", "123456789012");
    DecimalNext(123456789012, 3, "123456789012", "1234567890123");
    DecimalNext(1234567890123, 4, "1234567890123", "12345678901234");
  }

  lemma {:induction false} NineteenDigitsFront()
    ensures Itoa.Decimal(9223372036) == "9223372036"
  {
    DecimalNext(9, 2, "9", "92");
    DecimalNext(92, 2, "92", "922");
    DecimalNext(922, 3, "922", "9223");
    DecimalNext(9223, 3, "9223", "92233");
    DecimalNext(92233, 7, "92233", "922337");
    DecimalNext(922337, 2, "922337", "9223372");
    DecimalNext(9223372, 0, "9223372", "92233720");
    DecimalNext(92233720, 3, "92233720", "922337203");
    DecimalNext(922337203, 6, "922337203", "9223372036");
  }

  lemma {:induction false} NineteenDigits()
    ensures Itoa.Decimal(9223372036854775807) == "9223372036854775807"
  {
    NineteenDigitsFront();
    DecimalNext(9223372036, 8, "9223372036", "92233720368");
    DecimalNext(92233720368, 5, "92233720368", "922337203685");
    DecimalNext(922337203685, 4, "922337203685", "9223372036854");
    DecimalNext(9223372036854, 7, "9223372036854", "92233720368547");
    DecimalNext(92233720368547, 7, "92233720368547", "922337203685477");
    DecimalNext(922337203685477, 5, "922337203685477", "9223372036854775");
    DecimalNext(9223372036854775, 8, "9223372036854775", "92233720368547758");
    DecimalNext(92233720368547758, 0, "92233720368547758", "922337203685477580");
    DecimalNext(922337203685477580, 7, "922337203685477580", "9223372036854775807");
  }

  lemma {:induction false} StringReparses(x: seq<char>)
    ensures Reparses(OfString(x)) && UniqueKeys(OfString(x)) && OfString(x).tag == STRING
  {
  }

  /** The string of every escape, in five pieces of three characters. */
  lemma {:induction false} EscapesSplit()
    ensures Escapes == ['"', ' ', '\\'] + [' ', '/', ' '] + ['\U{8}', ' ', '\U{C}'] + [' ', '\n', ' '] + ['\r', ' ', '\t']
  {
  }

  lemma {:induction false} EscapesPieces()
    ensures Escaped(['"', ' ', '\\']) == "\\\" \\\\"
    ensures Escaped([' ', '/', ' ']) == " / "
    ensures Escaped(['\U{8}', ' ', '\U{C}']) == "\\b \\f"
    ensures Escaped([' ', '\n', ' ']) == " \\n "
    ensures Escaped(['\r', ' ', '\t']) == "\\r \\t"
  {
    EscapesFirstPieces();
    EscapedThree(' ', '\n', ' ');
    EscapedThree('\r', ' ', '\t');
  }

  lemma {:induction false} EscapesFirstPieces()
    ensures Escaped(['"', ' ', '\\']) == "\\\" \\\\"
    ensures Escaped([' ', '/', ' ']) == " / "
    ensures Escaped(['\U{8}', ' ', '\U{C}']) == "\\b \\f"
  {
    EscapedThree('"', ' ', '\\');
    EscapedThree(' ', '/', ' ');
    EscapedThree('\U{8}', ' ', '\U{C}');
  }

  lemma {:induction false} EscapedThree(a: char, b: char, c: char)
    ensures Escaped([a, b, c]) == EscapeChar(a) + EscapeChar(b) + EscapeChar(c)
  {
    EscapedAround([a], b, [c]);
    EscapedOne(a);
    EscapedOne(c);
    assert [a] + [b] + [c] == [a, b, c];
  }

  lemma {:induction false} Concat5(a: seq<char>, b: seq<char>, c: seq<char>, d: seq<char>, e: seq<char>)
    ensures Escaped(a + b + c + d + e) == Escaped(a) + Escaped(b) + Escaped(c) + Escaped(d) + Escaped(e)
  {
    EscapedConcat(a + b + c + d, e);
    EscapedConcat(a + b + c, d);
    EscapedConcat(a + b, c);
    EscapedConcat(a, b);
  }

  lemma {:induction false} EscapesLiteral()
    ensures ['"'] + ("\\\" \\\\" + " / " + "\\b \\f" + " \\n " + "\\r \\t") + ['"'] == "\"\\\" \\\\ / \\b \\f \\n \\r \\t\""
  {
  }

  /** The string of every escape: each special character comes out as its two-character escape. */
  lemma {:induction false} EscapesText(fmt: Format)
    ensures Compact(OfString(Escapes), fmt) == EscapesJson
  {
    EscapedEscapes();
    StringCompact(Escapes, "\\\" \\\\" + " / " + "\\b \\f" + " \\n " + "\\r \\t", fmt);
    EscapesLiteral();
  }

  lemma {:induction false} StringCompact(x: seq<char>, e: seq<char>, fmt: Format)
    requires Escaped(x) == e
    ensures Compact(OfString(x), fmt) == ['"'] + e + ['"']
  {
  }

  lemma {:induction false} EscapedEscapes()
    ensures Escaped(Escapes) == "\\\" \\\\" + " / " + "\\b \\f" + " \\n " + "\\r \\t"
  {
    EscapesSplit();
    EscapesPieces();
    Concat5(['"', ' ', '\\'], [' ', '/', ' '], ['\U{8}', ' ', '\U{C}'], [' ', '\n', ' '], ['\r', ' ', '\t']);
  }

  lemma {:induction false} StringTexts(fmt: Format)
    ensures Compact(OfString(""), fmt) == "\"\"" && Compact(OfString("Hello"), fmt) == "\"Hello\""
  {
    StringTestPlain();
  }

  // ---------------------------------------------------------------- compact texts, piece by piece

  /** The text of one element. */
  lemma {:induction false} ElemsFirst(last: Value, tl: seq<char>, fmt: Format)
    requires Wf(last) && Compact(last, fmt) == tl
    ensures ElemsWf([last]) && ElemsText([last], fmt) == tl
  {
    assert [last][..0] == [] && [last][0] == last;
    assert [] + ([] + tl) == tl;
  }

  /** The text of elements with one more at the end, after a comma. */
  lemma {:induction false} ElemsNext(front: seq<Value>, last: Value, tf: seq<char>, tl: seq<char>, fmt: Format)
    requires ElemsWf(front) && front != [] && Wf(last) && ElemsText(front, fmt) == tf && Compact(last, fmt) == tl
    ensures ElemsWf(front + [last]) && ElemsText(front + [last], fmt) == tf + [','] + tl
  {
    var es := front + [last];
    assert es[..|front|] == front && es[|front|] == last;
    assert forall i :: 0 <= i < |es| ==> es[i] == last || es[i] == front[i];
    ElemsLast(es, fmt);
    assert tf + ([','] + tl) == tf + [','] + tl;
  }

  /** The text of members with one more at the end. */
  lemma {:induction false} MembersNext(front: seq<Member>, last: Member, tf: seq<char>, tl: seq<char>, fmt: Format)
    requires KeysAreStrings(front) && MembersWf(front)
    requires last.key.tag == STRING && last.key.data.StringData? && MemberWf(last)
    requires MembersText(front, fmt) == tf && MemberText(|front|, last, fmt) == tl
    ensures KeysAreStrings(front + [last]) && MembersWf(front + [last]) && MembersText(front + [last], fmt) == tf + tl
  {
    var ms := front + [last];
    assert ms[..|front|] == front && ms[|front|] == last;
    assert forall i :: 0 <= i < |ms| ==> ms[i] == last || ms[i] == front[i];
    MembersLastText(ms, fmt);
  }

  /** The text of one member. */
  lemma {:induction false} MembersFirst(last: Member, tl: seq<char>, fmt: Format)
    requires last.key.tag == STRING && last.key.data.StringData? && MemberWf(last) && MemberText(0, last, fmt) == tl
    ensures KeysAreStrings([last]) && MembersWf([last]) && MembersText([last], fmt) == tl
  {
    assert [last][..0] == [] && [last][0] == last;
    assert [] + tl == tl;
  }

  /** The text of the first member. */
  lemma {:induction false} FieldFirst(k: seq<char>, v: Value, tk: seq<char>, tv: seq<char>, fmt: Format)
    requires Wf(v) && Quoted(k) == tk && Compact(v, fmt) == tv
    ensures MemberText(0, Field(k, v), fmt) == tk + [':'] + tv
  {
    assert [] + tk == tk;
  }

  /** The text of a later member. */
  lemma {:induction false} FieldNext(n: nat, k: seq<char>, v: Value, tk: seq<char>, tv: seq<char>, fmt: Format)
    requires n > 0 && Wf(v) && Quoted(k) == tk && Compact(v, fmt) == tv
    ensures MemberText(n, Field(k, v), fmt) == [','] + tk + [':'] + tv
  {
  }

  /** An array's text from its elements' text. */
  lemma {:induction false} Bracketed(es: seq<Value>, inner: seq<char>, fmt: Format)
    requires ElemsWf(es) && ElemsText(es, fmt) == inner
    ensures Compact(Arr(es), fmt) == "[" + inner + "]"
  {
  }

  /** An object's text from its members' text. */
  lemma {:induction false} Braced(ms: seq<Member>, inner: seq<char>, fmt: Format)
    requires KeysAreStrings(ms) && MembersWf(ms) && MembersText(ms, fmt) == inner
    ensures Compact(Obj(ms), fmt) == "{" + inner + "}"
  {
  }

  /** A one-digit integer is written as its digit. */
  lemma {:induction false} DigitText(k: int, c: char, fmt: Format)
    requires 0 <= k < 10 && c == (48 + k) as char
    ensures Compact(OfInt32(k), fmt) == [c]
  {
  }

  lemma {:induction false} LeafTexts(fmt: Format)
    ensures Compact(Nul, fmt) == "null" && Compact(OfBool(false), fmt) == "false" && Compact(OfBool(true), fmt) == "true"
    ensures Compact(OfInt32(123), fmt) == "123" && Compact(OfString("abc"), fmt) == "\"abc\""
  {
    assert Itoa.Decimal(12) == "12";
  }

  lemma {:induction false} KeyTexts()
    ensures Quoted("n") == "\"n\"" && Quoted("f") == "\"f\"" && Quoted("t") == "\"t\"" && Quoted("i") == "\"i\""
    ensures Quoted("s") == "\"s\"" && Quoted("a") == "\"a\"" && Quoted("o") == "\"o\""
    ensures Quoted("1") == "\"1\"" && Quoted("2") == "\"2\"" && Quoted("3") == "\"3\""
  {
  }

  /** [0], [0,1] and [0,1,2], element by element. */
  lemma {:induction false} CountTexts(fmt: Format)
    ensures ElemsWf(Zero) && ElemsText(Zero, fmt) == "0"
    ensures ElemsWf(ZeroOne) && ElemsText(ZeroOne, fmt) == "0" + [','] + "1"
    ensures ElemsWf(ZeroOneTwo) && ElemsText(ZeroOneTwo, fmt) == "0" + [','] + "1" + [','] + "2"
  {
    DigitText(0, '0', fmt); DigitText(1, '1', fmt); DigitText(2, '2', fmt);
    ElemsFirst(OfInt32(0), "0", fmt);
    ElemsNext(Zero, OfInt32(1), "0", "1", fmt);
    ElemsNext(ZeroOne, OfInt32(2), "0" + [','] + "1", "2", fmt);
  }

  lemma {:induction false} OneTwoThreeLiteral()
    ensures "[1,2,3]" ==
      "[" + ("1" + [','] + "2" + [','] + "3") + "]"
  {
  }

  /** [1,2,3], element by element. */
  lemma {:induction false} OneTwoThreeText(fmt: Format)
    ensures Compact(OneTwoThree, fmt) == "[1,2,3]"
  {
    DigitText(1, '1', fmt); DigitText(2, '2', fmt); DigitText(3, '3', fmt);
    ElemsFirst(OfInt32(1), "1", fmt);
    ElemsNext([OfInt32(1)], OfInt32(2), "1", "2", fmt);
    var t2 := "1" + [','] + "2";
    ElemsNext(OneTwo, OfInt32(3), t2, "3", fmt);
    var t3 := t2 + [','] + "3";
    Bracketed(OneTwoThree.data.elems, t3, fmt);
    OneTwoThreeLiteral();
  }

  lemma {:induction false} MixedFrontLiteral()
    ensures "null,false,true" == "null" + [','] + "false" + [','] + "true"
  {
  }

  /** The first three elements of [null,false,true,123,"abc",[1,2,3]]. */
  lemma {:induction false} MixedFront(fmt: Format)
    ensures ElemsWf(Mixed3) && ElemsText(Mixed3, fmt) == "null,false,true"
  {
    LeafTexts(fmt);
    ElemsFirst(Nul, "null", fmt);
    ElemsNext(Mixed1, OfBool(false), "null", "false", fmt);
    var t2 := "null" + [','] + "false";
    ElemsNext(Mixed2, OfBool(true), t2, "true", fmt);
    MixedFrontLiteral();
  }

  lemma {:induction false} MixedLiteral()
    ensures "[null,false,true,123,\"abc\",[1,2,3]]" ==
      "[" + ("null,false,true" + [','] + "123" + [','] + "\"abc\"" + [','] + "[1,2,3]") + "]"
  {
  }

  lemma {:induction false} MixedText(fmt: Format)
    ensures Compact(Arr(Mixed), fmt) == "[null,false,true,123,\"abc\",[1,2,3]]"
  {
    MixedFront(fmt);
    LeafTexts(fmt);
    OneTwoThreeText(fmt);
    var t3 := "null,false,true";
    ElemsNext(Mixed3, OfInt32(123), t3, "123", fmt);
    var t4 := t3 + [','] + "123";
    ElemsNext(Mixed4, OfString("abc"), t4, "\"abc\"", fmt);
    var t5 := t4 + [','] + "\"abc\"";
    ElemsNext(Mixed5, OneTwoThree, t5, "[1,2,3]", fmt);
    var t6 := t5 + [','] + "[1,2,3]";
    Bracketed(Mixed, t6, fmt);
    MixedLiteral();
  }

  lemma {:induction false} NestedLiteral()
    ensures "[[],[0],[0,1],[0,1,2]]" ==
      "[" + ("[" + [] + "]" + [','] + "[" + "0" + "]" + [','] + "[" + ("0" + [','] + "1") + "]" + [','] + "[" + ("0" + [','] + "1" + [','] + "2") + "]") + "]"
  {
  }

  lemma {:induction false} NestedText(fmt: Format)
    ensures Compact(Arr(Nested), fmt) == "[[],[0],[0,1],[0,1,2]]"
  {
    CountTexts(fmt);
    Bracketed([], [], fmt);
    Bracketed(Zero, "0", fmt);
    Bracketed(ZeroOne, "0" + [','] + "1", fmt);
    Bracketed(ZeroOneTwo, "0" + [','] + "1" + [','] + "2", fmt);
    ElemsFirst(Arr([]), "[" + [] + "]", fmt);
    ElemsNext(Nested1, Arr(Zero), "[" + [] + "]", "[" + "0" + "]", fmt);
    var t2 := "[" + [] + "]" + [','] + "[" + "0" + "]";
    ElemsNext(Nested2, Arr(ZeroOne), t2, "[" + ("0" + [','] + "1") + "]", fmt);
    var t3 := t2 + [','] + "[" + ("0" + [','] + "1") + "]";
    ElemsNext(Nested3, Arr(ZeroOneTwo), t3, "[" + ("0" + [','] + "1" + [','] + "2") + "]", fmt);
    var t4 := t3 + [','] + "[" + ("0" + [','] + "1" + [','] + "2") + "]";
    Bracketed(Nested, t4, fmt);
    NestedLiteral();
  }

  lemma {:induction false} NumberedLiteral()
    ensures "{\"1\":1,\"2\":2,\"3\":3}" ==
      "{" + ((("\"1\"" + [':'] + "1") + ([','] + "\"2\"" + [':'] + "2")) + ([','] + "\"3\"" + [':'] + "3")) + "}"
  {
  }

  lemma {:induction false} NumberedText(fmt: Format)
    ensures Compact(Obj(Numbered), fmt) == "{\"1\":1,\"2\":2,\"3\":3}"
  {
    DigitText(1, '1', fmt); DigitText(2, '2', fmt); DigitText(3, '3', fmt);
    KeyTexts();
    FieldFirst("1", OfInt32(1), "\"1\"", "1", fmt);
    MembersFirst(Field("1", OfInt32(1)), "\"1\"" + [':'] + "1", fmt);
    var t1 := "\"1\"" + [':'] + "1";
    FieldNext(1, "2", OfInt32(2), "\"2\"", "2", fmt);
    MembersNext(Numbered1, Field("2", OfInt32(2)), t1, [','] + "\"2\"" + [':'] + "2", fmt);
    var t2 := t1 + ([','] + "\"2\"" + [':'] + "2");
    FieldNext(2, "3", OfInt32(3), "\"3\"", "3", fmt);
    MembersNext(Numbered2, Field("3", OfInt32(3)), t2, [','] + "\"3\"" + [':'] + "3", fmt);
    var t3 := t2 + ([','] + "\"3\"" + [':'] + "3");
    Braced(Numbered, t3, fmt);
    NumberedLiteral();
  }

  lemma {:induction false} NamedFrontLiteral()
    ensures "\"n\":null,\"f\":false,\"t\":true,\"i\":123" ==
      ("\"n\"" + [':'] + "null") + ([','] + "\"f\"" + [':'] + "false") + ([','] + "\"t\"" + [':'] + "true") +
      ([','] + "\"i\"" + [':'] + "123")
  {
  }

  /** The first four members of the object. */
  lemma {:induction false} NamedFront(fmt: Format)
    ensures KeysAreStrings(Named4) && MembersWf(Named4)
    ensures MembersText(Named4, fmt) == "\"n\":null,\"f\":false,\"t\":true,\"i\":123"
  {
    LeafTexts(fmt);
    KeyTexts();
    FieldFirst("n", Nul, "\"n\"", "null", fmt);
    MembersFirst(Field("n", Nul), "\"n\"" + [':'] + "null", fmt);
    var t1 := "\"n\"" + [':'] + "null";
    FieldNext(1, "f", OfBool(false), "\"f\"", "false", fmt);
    MembersNext(Named1, Field("f", OfBool(false)), t1, [','] + "\"f\"" + [':'] + "false", fmt);
    var t2 := t1 + ([','] + "\"f\"" + [':'] + "false");
    FieldNext(2, "t", OfBool(true), "\"t\"", "true", fmt);
    MembersNext(Named2, Field("t", OfBool(true)), t2, [','] + "\"t\"" + [':'] + "true", fmt);
    var t3 := t2 + ([','] + "\"t\"" + [':'] + "true");
    FieldNext(3, "i", OfInt32(123), "\"i\"", "123", fmt);
    MembersNext(Named3, Field("i", OfInt32(123)), t3, [','] + "\"i\"" + [':'] + "123", fmt);
    NamedFrontLiteral();
  }

  lemma {:induction false} NamedMiddleLiteral()
    ensures ",\"s\":\"abc\",\"a\":[1,2,3]" == ([','] + "\"s\"" + [':'] + "\"abc\"") + ([','] + "\"a\"" + [':'] + "[1,2,3]")
  {
  }

  lemma {:induction false} NamedLastLiteral()
    ensures ",\"o\":{\"1\":1,\"2\":2,\"3\":3}}" == [','] + "\"o\"" + [':'] + "{\"1\":1,\"2\":2,\"3\":3}" + "}"
  {
  }

  lemma {:induction false} NamedOpenLiteral()
    ensures "{\"n\":null,\"f\":false,\"t\":true,\"i\":123" == "{" + "\"n\":null,\"f\":false,\"t\":true,\"i\":123"
  {
  }

  /** Regrouping the braced text of the members into the three pieces of the literal. */
  lemma {:induction false} NamedRegroup(f: seq<char>, p5: seq<char>, p6: seq<char>, p7: seq<char>)
    ensures "{" + (f + p5 + p6 + p7) + "}" == ("{" + f) + (p5 + p6) + (p7 + "}")
  {
  }

  // ---------------------------------------------------------------- the values read back

  /** Elements that read back from their own compact text. */
  ghost predicate GoodElems(es: seq<Value>)
  {
    forall i :: 0 <= i < |es| ==> Reparses(es[i]) && UniqueKeys(es[i])
  }

  lemma {:induction false} GoodElemsNext(es: seq<Value>, v: Value)
    requires GoodElems(es) && Reparses(v) && UniqueKeys(v)
    ensures GoodElems(es + [v])
  {
    var ns := es + [v];
    assert forall i :: 0 <= i < |es| ==> ns[i] == es[i];
  }

  lemma {:induction false} GoodArray(es: seq<Value>)
    requires GoodElems(es)
    ensures Reparses(Arr(es)) && UniqueKeys(Arr(es))
  {
  }

  lemma {:induction false} OneTwoThreeGood()
    ensures Reparses(OneTwoThree) && UniqueKeys(OneTwoThree)
  {
    GoodElemsNext([OfInt32(1)], OfInt32(2));
    GoodElemsNext(OneTwo, OfInt32(3));
    GoodArray(OneTwo + [OfInt32(3)]);
  }

  lemma {:induction false} MixedGood()
    ensures Reparses(Arr(Mixed)) && UniqueKeys(Arr(Mixed))
  {
    OneTwoThreeGood();
    GoodElemsNext(Mixed1, OfBool(false));
    GoodElemsNext(Mixed2, OfBool(true));
    GoodElemsNext(Mixed3, OfInt32(123));
    GoodElemsNext(Mixed4, OfString("abc"));
    GoodElemsNext(Mixed5, OneTwoThree);
    GoodArray(Mixed);
  }

  lemma {:induction false} CountsGood()
    ensures Reparses(Arr(Zero)) && UniqueKeys(Arr(Zero))
    ensures Reparses(Arr(ZeroOne)) && UniqueKeys(Arr(ZeroOne))
    ensures Reparses(Arr(ZeroOneTwo)) && UniqueKeys(Arr(ZeroOneTwo))
  {
    GoodElemsNext(Zero, OfInt32(1));
    GoodElemsNext(ZeroOne, OfInt32(2));
    GoodArray(Zero);
    GoodArray(ZeroOne);
    GoodArray(ZeroOneTwo);
  }

  lemma {:induction false} NestedGood()
    ensures Reparses(Arr(Nested)) && UniqueKeys(Arr(Nested))
  {
    CountsGood();
    GoodArray([]);
    GoodElemsNext(Nested1, Arr(Zero));
    GoodElemsNext(Nested2, Arr(ZeroOne));
    GoodElemsNext(Nested3, Arr(ZeroOneTwo));
    GoodArray(Nested);
  }

  /**
   * Members whose keys are distinct strings drawn from ks and whose values read back from
   * their own compact text.
   */
  ghost predicate GoodMembers(ms: seq<Member>, ks: set<seq<char>>)
  {
    KeysAreStrings(ms) && DistinctKeys(ms) &&
    (forall i :: 0 <= i < |ms| ==> ms[i].key.data.chars in ks) &&
    forall i :: 0 <= i < |ms| ==> Reparses(ms[i].value) && UniqueKeys(ms[i].value)
  }

  lemma {:induction false} GoodFirst(k: seq<char>, v: Value)
    requires Reparses(v) && UniqueKeys(v)
    ensures GoodMembers([Field(k, v)], {k})
  {
  }

  lemma {:induction false} GoodNext(ms: seq<Member>, ks: set<seq<char>>, k: seq<char>, v: Value)
    requires GoodMembers(ms, ks) && k !in ks && Reparses(v) && UniqueKeys(v)
    ensures GoodMembers(ms + [Field(k, v)], ks + {k})
  {
    var ns := ms + [Field(k, v)];
    assert forall i :: 0 <= i < |ms| ==> ns[i] == ms[i];
  }

  lemma {:induction false} GoodObject(ms: seq<Member>, ks: set<seq<char>>)
    requires GoodMembers(ms, ks)
    ensures Reparses(Obj(ms)) && UniqueKeys(Obj(ms))
  {
  }

  lemma {:induction false} NumberedGood()
    ensures Reparses(Obj(Numbered)) && UniqueKeys(Obj(Numbered))
  {
    GoodFirst("1", OfInt32(1));
    GoodNext(Numbered1, {"1"}, "2", OfInt32(2));
    GoodNext(Numbered2, {"1", "2"}, "3", OfInt32(3));
    GoodObject(Numbered, {"1", "2", "3"});
  }

  lemma {:induction false} NamedGood()
    ensures Reparses(Obj(Named)) && UniqueKeys(Obj(Named))
  {
    OneTwoThreeGood();
    NumberedGood();
    GoodFirst("n", Nul);
    GoodNext(Named1, {"n"}, "f", OfBool(false));
    GoodNext(Named2, {"n", "f"}, "t", OfBool(true));
    GoodNext(Named3, {"n", "f", "t"}, "i", OfInt32(123));
    GoodNext(Named4, {"n", "f", "t", "i"}, "s", OfString("abc"));
    GoodNext(Named5, {"n", "f", "t", "i", "s"}, "a", OneTwoThree);
    GoodNext(Named6, {"n", "f", "t", "i", "s", "a"}, "o", Obj(Numbered));
    GoodObject(Named, {"n", "f", "t", "i", "s", "a", "o"});
  }

  /** The fifth member, "s":"abc". */
  lemma {:induction false} NamedFifth(fmt: Format)
    ensures KeysAreStrings(Named5) && MembersWf(Named5)
    ensures MembersText(Named5, fmt) ==
      "\"n\":null,\"f\":false,\"t\":true,\"i\":123" + ([','] + "\"s\"" + [':'] + "\"abc\"")
  {
    NamedFront(fmt);
    LeafTexts(fmt);
    assert Quoted("s") == "\"s\"";
    FieldNext(4, "s", OfString("abc"), "\"s\"", "\"abc\"", fmt);
    MembersNext(Named4, Field("s", OfString("abc")), "\"n\":null,\"f\":false,\"t\":true,\"i\":123",
      [','] + "\"s\"" + [':'] + "\"abc\"", fmt);
  }

  /** The sixth member, "a":[1,2,3]. */
  lemma {:induction false} NamedSixth(fmt: Format)
    ensures KeysAreStrings(Named6) && MembersWf(Named6)
    ensures MembersText(Named6, fmt) ==
      "\"n\":null,\"f\":false,\"t\":true,\"i\":123" + ([','] + "\"s\"" + [':'] + "\"abc\"") +
      ([','] + "\"a\"" + [':'] + "[1,2,3]")
  {
    NamedFifth(fmt);
    OneTwoThreeText(fmt);
    assert Quoted("a") == "\"a\"";
    FieldNext(5, "a", OneTwoThree, "\"a\"", "[1,2,3]", fmt);
    MembersNext(Named5, Field("a", OneTwoThree),
      "\"n\":null,\"f\":false,\"t\":true,\"i\":123" + ([','] + "\"s\"" + [':'] + "\"abc\""),
      [','] + "\"a\"" + [':'] + "[1,2,3]", fmt);
  }

  /** All seven members: the last is "o":{"1":1,"2":2,"3":3}. */
  lemma {:induction false} NamedMembers(fmt: Format)
    ensures KeysAreStrings(Named) && MembersWf(Named)
    ensures MembersText(Named, fmt) ==
      "\"n\":null,\"f\":false,\"t\":true,\"i\":123" + ([','] + "\"s\"" + [':'] + "\"abc\"") +
      ([','] + "\"a\"" + [':'] + "[1,2,3]") + ([','] + "\"o\"" + [':'] + "{\"1\":1,\"2\":2,\"3\":3}")
  {
    NamedSixth(fmt);
    NumberedText(fmt);
    assert Quoted("o") == "\"o\"";
    FieldNext(6, "o", Obj(Numbered), "\"o\"", "{\"1\":1,\"2\":2,\"3\":3}", fmt);
    MembersNext(Named6, Field("o", Obj(Numbered)),
      "\"n\":null,\"f\":false,\"t\":true,\"i\":123" + ([','] + "\"s\"" + [':'] + "\"abc\"") +
      ([','] + "\"a\"" + [':'] + "[1,2,3]"),
      [','] + "\"o\"" + [':'] + "{\"1\":1,\"2\":2,\"3\":3}", fmt);
  }

  lemma {:induction false} NamedText(fmt: Format)
    ensures Compact(Obj(Named), fmt) ==
      "{\"n\":null,\"f\":false,\"t\":true,\"i\":123" + ",\"s\":\"abc\",\"a\":[1,2,3]" + ",\"o\":{\"1\":1,\"2\":2,\"3\":3}}"
  {
    NamedMembers(fmt);
    var t4 := "\"n\":null,\"f\":false,\"t\":true,\"i\":123";
    var p5 := [','] + "\"s\"" + [':'] + "\"abc\"";
    var p6 := [','] + "\"a\"" + [':'] + "[1,2,3]";
    var p7 := [','] + "\"o\"" + [':'] + "{\"1\":1,\"2\":2,\"3\":3}";
    Braced(Named, t4 + p5 + p6 + p7, fmt);
    NamedRegroup(t4, p5, p6, p7);
    NamedOpenLiteral();
    NamedMiddleLiteral();
    NamedLastLiteral();
  }
}
