// Outcomes of Reader::Parse on inputs from the parser's test suite, derived from the parser
// specification. Errors met before any handler call hold for every handler; the others are
// stated for a handler that accepts every call.

module ReaderExamples {
  import opened Handler
  import opened Errors
  import opened Values
  import opened ReadStream
  import opened ReaderSpec
  import Decimals

  /** A handler that accepts every call. */
  const Yes: seq<Event> -> bool := (u: seq<Event>) => true

  /** The error code Reader::Parse returns on the whole text s. */
  function Outcome(s: seq<char>, accept: seq<Event> -> bool, stod: Stod): ParseError
  {
    ParseSpec(s, 0, accept, [], stod).err
  }

  /** Input made of whitespace only, the empty input included, expects a value. */
  lemma {:induction false} BlankExpectsValue(s: seq<char>, accept: seq<Event> -> bool, stod: Stod)
    requires forall i :: 0 <= i < |s| ==> IsWhitespace(s[i])
    ensures ParseSpec(s, 0, accept, [], stod) == Res(EXPECT_VALUE, |s|, [], NONE)
  {
  }

  /** A literal that is not spelled out in full is a bad value, whatever the handler. */
  lemma {:induction false} TruncatedLiteral(accept: seq<Event> -> bool, stod: Stod)
    ensures Outcome("nul", accept, stod) == BAD_VALUE
    ensures Outcome("NAN", accept, stod) == BAD_VALUE
    ensures Outcome("Inf", accept, stod) == BAD_VALUE
  {
    assert ValueSpec("nul", 0, accept, [], stod) == LiteralSpec("nul", 0, "null", NULL, accept, []);
    assert ValueSpec("NAN", 0, accept, [], stod) == NumberSpec("NAN", 0, accept, [], stod);
    assert "NAN"[0..3] != "NaN" by { assert "NAN"[0..3][1] == 'A'; }
    assert ValueSpec("Inf", 0, accept, [], stod) == NumberSpec("Inf", 0, accept, [], stod);
  }

  /** Numbers need a digit before and after '.', and no sign but '-'; "-Infinity" is no literal. */
  lemma {:induction false} MalformedNumber(accept: seq<Event> -> bool, stod: Stod)
    ensures Outcome("+1", accept, stod) == BAD_VALUE
    ensures Outcome(".123", accept, stod) == BAD_VALUE
    ensures Outcome("1.", accept, stod) == BAD_VALUE
    ensures Outcome("-Infinity", accept, stod) == BAD_VALUE
  {
    assert ValueSpec("+1", 0, accept, [], stod) == ConvertSpec("+1", 0, accept, [], stod);
    assert ValueSpec(".123", 0, accept, [], stod) == ConvertSpec(".123", 0, accept, [], stod);
    assert ValueSpec("1.", 0, accept, [], stod) == ConvertSpec("1.", 0, accept, [], stod);
    assert ScanInt("1.", 0) == Some(1);
    assert ScanFrac("1.", 1).None?;
    assert ValueSpec("-Infinity", 0, accept, [], stod) == ConvertSpec("-Infinity", 0, accept, [], stod);
    assert ScanInt("-Infinity", 1).None?;
  }

  /** Text after the one value is not allowed: "null x", and "0123", read as 0 then "123". */
  lemma {:induction false} TrailingText(stod: Stod)
    ensures Outcome("null x", Yes, stod) == ROOT_NOT_SINGULAR
    ensures Outcome("0123", Yes, stod) == ROOT_NOT_SINGULAR
  {
    var s := "null x";
    assert s[0..4] == "null";
    assert SkipWs(s, 4) == 5;
    var z := "0123";
    assert ScanNumber(z, 0) == Some(Scan(0, 1, 1, 1));
    assert z[0..1] == "0";
    assert Stoll("0") == Some(0) by { assert DecimalValue("0") == 0 by { assert "0"[..0] == []; } }
    assert ValueSpec(z, 0, Yes, [], stod) == ConvertSpec(z, 0, Yes, [], stod);
    assert ValueSpec(z, 0, Yes, [], stod).pos == 1;
  }

  /** A text that starts with a quote fails where its string fails. */
  lemma {:induction false} StringRootFails(s: seq<char>, accept: seq<Event> -> bool, stod: Stod)
    requires |s| > 0 && s[0] == '"' && StringBody(s, 1, []).err != OK
    ensures Outcome(s, accept, stod) == StringBody(s, 1, []).err
  {
    assert SkipWs(s, 0) == 0;
    assert ValueSpec(s, 0, accept, [], stod) == StringSpec(s, 0, false, accept, []);
  }

  /** A text that is one string and nothing after it reports that string. */
  lemma {:induction false} StringRootReads(s: seq<char>, stod: Stod)
    requires |s| > 0 && s[0] == '"' && StringBody(s, 1, []).err == OK && StringBody(s, 1, []).pos == |s|
    ensures var b := StringBody(s, 1, []);
      ParseSpec(s, 0, Yes, [], stod) == Res(OK, |s|, [StringEvent(b.chars)], OfString(b.chars))
  {
    assert SkipWs(s, 0) == 0;
    var b := StringBody(s, 1, []);
    assert ValueSpec(s, 0, Yes, [], stod) == Res(OK, |s|, [StringEvent(b.chars)], OfString(b.chars));
  }

  /** The string errors: no closing quote, an unknown escape, a raw control character. */
  lemma {:induction false} StringErrors(accept: seq<Event> -> bool, stod: Stod)
    ensures Outcome("\"abc", accept, stod) == MISS_QUOTATION_MARK
    ensures Outcome("\"\\v\"", accept, stod) == BAD_STRING_ESCAPE
    ensures Outcome(['"', 1 as char, '"'], accept, stod) == BAD_STRING_CHAR
  {
    var s := "\"abc";
    assert StringBody(s, 1, []) == StringBody(s, 2, "a") == StringBody(s, 3, "ab") == StringBody(s, 4, "abc");
    StringRootFails(s, accept, stod);
    var e := "\"\\v\"";
    assert StringBody(e, 1, []) == Str(BAD_STRING_ESCAPE, [], 3);
    StringRootFails(e, accept, stod);
    var c := ['"', 1 as char, '"'];
    assert StringBody(c, 1, []) == Str(BAD_STRING_CHAR, [], 2);
    StringRootFails(c, accept, stod);
  }

  /** A raw NUL is not among the rejected control characters: it is read as itself. */
  lemma {:induction false} RawNulAccepted(stod: Stod)
    ensures ParseSpec("\"\0\"", 0, Yes, [], stod) == Res(OK, 3, [StringEvent("\0")], OfString("\0"))
  {
    var s := "\"\0\"";
    assert StringBody(s, 1, []) == StringBody(s, 2, "\0") == Str(OK, "\0", 3);
    StringRootReads(s, stod);
  }

  /** Three hexadecimal digits are too few; a high surrogate alone is not a code point. */
  lemma {:induction false} UnicodeErrors(accept: seq<Event> -> bool, stod: Stod)
    ensures Outcome("\"\\u012\"", accept, stod) == BAD_UNICODE_HEX
    ensures Outcome("\"\\uD800\"", accept, stod) == BAD_UNICODE_SURROGATE
  {
    var h := "\"\\u012\"";
    ShortHex(h);
    StringRootFails(h, accept, stod);
    var d := "\"\\uD800\"";
    LoneHigh(d);
    StringRootFails(d, accept, stod);
  }

  lemma {:induction false} ShortHex(h: seq<char>)
    requires h == "\"\\u012\""
    ensures StringBody(h, 1, []).err == BAD_UNICODE_HEX
  {
    assert HexDigit(h[6]).None?;
    assert Hex4(h, 3).None? by { assert !AllHex(h[3..7]) by { assert h[3..7][3] == h[6]; } }
  }

  lemma {:induction false} LoneHigh(d: seq<char>)
    requires d == "\"\\uD800\""
    ensures StringBody(d, 1, []).err == BAD_UNICODE_SURROGATE
  {
    assert d[3..7] == "D800";
    HexFour("D800");
    assert Hex4(d, 3) == Some(0xD800);
  }

  /** A surrogate pair is one code point, U+1D11E here, stored as its four UTF-8 bytes. */
  lemma {:induction false} SurrogatePair(stod: Stod)
    ensures var s := "\"\\uD834\\uDD1E\"";
      ParseSpec(s, 0, Yes, [], stod) ==
      Res(OK, |s|, [StringEvent([Byte(0xF0), Byte(0x9D), Byte(0x84), Byte(0x9E)])],
        OfString([Byte(0xF0), Byte(0x9D), Byte(0x84), Byte(0x9E)]))
  {
    var s := "\"\\uD834\\uDD1E\"";
    GClefBody(s);
    StringRootReads(s, stod);
  }

  lemma {:induction false} GClefBody(s: seq<char>)
    requires s == "\"\\uD834\\uDD1E\""
    ensures StringBody(s, 1, []) == Str(OK, [Byte(0xF0), Byte(0x9D), Byte(0x84), Byte(0x9E)], 14)
  {
    GClefEscape(s);
    assert StringBody(s, 1, []) == StringBody(s, 13, Utf8(0x1D11E));
  }

  lemma {:induction false} GClefEscape(s: seq<char>)
    requires s == "\"\\uD834\\uDD1E\""
    ensures UnicodeEscape(s, 3) == Esc(OK, 0x1D11E, 13)
    ensures Utf8(0x1D11E) == [Byte(0xF0), Byte(0x9D), Byte(0x84), Byte(0x9E)]
  {
    GClefHalves(s);
    assert Combine(0xD834, 0xDD1E) == 0x1D11E;
  }

  lemma {:induction false} GClefHalves(s: seq<char>)
    requires s == "\"\\uD834\\uDD1E\""
    ensures Hex4(s, 3) == Some(0xD834) && Hex4(s, 9) == Some(0xDD1E)
  {
    assert s[3..7] == "D834" && s[9..13] == "DD1E";
    HexFour("D834");
    HexFour("DD1E");
  }

  /** Four hexadecimal digits, most significant first. */
  lemma {:induction false} HexFour(t: seq<char>)
    requires |t| == 4 && AllHex(t)
    ensures HexValue(t) ==
      ((HexDigit(t[0]).value * 16 + HexDigit(t[1]).value) * 16 + HexDigit(t[2]).value) * 16 + HexDigit(t[3]).value
  {
    var a, b, c := t[..1], t[..2], t[..3];
    assert b[..1] == a && c[..2] == b && t[..3] == c && a[..0] == [];
    assert a[0] == t[0] && b[1] == t[1] && c[2] == t[2];
    assert AllHex(a) && AllHex(b) && AllHex(c);
    assert HexValue(a) == HexDigit(t[0]).value;
    assert HexValue(b) == HexValue(a) * 16 + HexDigit(t[1]).value;
    assert HexValue(c) == HexValue(b) * 16 + HexDigit(t[2]).value;
  }

  /** A digit 1 standing alone is read as the Int32 1. */
  lemma {:induction false} ReadsOne(s: seq<char>, p: nat, t: seq<Event>, stod: Stod)
    requires p < |s| && s[p] == '1' && (p + 1 == |s| || s[p + 1] in ",]}")
    ensures ValueSpec(s, p, Yes, t, stod) == Res(OK, p + 1, t + [Int32Event(1)], OfInt32(1))
  {
    assert Digits(s, p + 1) == p + 1;
    assert ScanNumber(s, p) == Some(Scan(p, p + 1, p + 1, p + 1));
    assert s[p..p + 1] == "1";
    assert Stoll("1") == Some(1) by { assert DecimalValue("1") == 1 by { assert "1"[..0] == []; } }
    assert ValueSpec(s, p, Yes, t, stod) == ConvertSpec(s, p, Yes, t, stod);
  }

  /** After an element only ',' or ']' may follow, and a ',' must be followed by a value. */
  lemma {:induction false} ArrayErrors(stod: Stod)
    ensures Outcome("[1", Yes, stod) == MISS_COMMA_OR_SQUARE_BRACKET
    ensures Outcome("[1}", Yes, stod) == MISS_COMMA_OR_SQUARE_BRACKET
    ensures Outcome("[1,]", Yes, stod) == BAD_VALUE
  {
    ArrayError("[1", stod);
    ArrayError("[1}", stod);
    MissingElement("[1,]", stod);
  }

  /** The array's first element is read at 1. */
  lemma {:induction false} ArrayStart(s: seq<char>, stod: Stod)
    requires |s| > 1 && s[0] == '[' && s[1] != ']' && !IsWhitespace(s[1])
    ensures ArraySpec(s, 0, Yes, [], stod) == Elements(s, 1, Yes, [StartArrayEvent], stod, [])
  {
    assert [] + [StartArrayEvent] == [StartArrayEvent] && Yes([StartArrayEvent]);
    assert SkipWs(s, 1) == 1;
  }

  lemma {:induction false} MissingElement(s: seq<char>, stod: Stod)
    requires s == "[1,]"
    ensures Outcome(s, Yes, stod) == BAD_VALUE
  {
    ReadsOne(s, 1, [StartArrayEvent], stod);
    assert SkipWs(s, 2) == 2 && SkipWs(s, 3) == 3;
    ArrayStart(s, stod);
    var v := ValueSpec(s, 1, Yes, [StartArrayEvent], stod);
    AfterElementComma(s, 1, v, Yes, stod, []);
    assert ScanNumber(s, 3).None?;
    assert ValueSpec(s, 3, Yes, v.trace, stod).err == BAD_VALUE;
    assert SkipWs(s, 0) == 0;
  }

  lemma {:induction false} ArrayError(s: seq<char>, stod: Stod)
    requires s == "[1" || s == "[1}"
    ensures Outcome(s, Yes, stod) == MISS_COMMA_OR_SQUARE_BRACKET
  {
    ReadsOne(s, 1, [StartArrayEvent], stod);
    assert SkipWs(s, 2) == 2;
    ArrayStart(s, stod);
    AfterElementStop(s, 1, ValueSpec(s, 1, Yes, [StartArrayEvent], stod), Yes, stod, []);
    assert SkipWs(s, 0) == 0;
  }

  /** The object's first key is expected at 1. */
  lemma {:induction false} ObjectStart(s: seq<char>, stod: Stod)
    requires |s| > 1 && s[0] == '{' && s[1] != '}' && !IsWhitespace(s[1])
    requires Members(s, 1, Yes, [StartObjectEvent], stod, []).err != OK
    ensures ParseSpec(s, 0, Yes, [], stod).err == Members(s, 1, Yes, [StartObjectEvent], stod, []).err
  {
    assert [] + [StartObjectEvent] == [StartObjectEvent] && Yes([StartObjectEvent]);
    assert SkipWs(s, 1) == 1;
    assert SkipWs(s, 0) == 0;
    assert ObjectSpec(s, 0, Yes, [], stod) == Members(s, 1, Yes, [StartObjectEvent], stod, []);
    assert ValueSpec(s, 0, Yes, [], stod) == ObjectSpec(s, 0, Yes, [], stod);
  }

  /** The key "a" at 1, read up to its closing quote at 3. */
  lemma {:induction false} KeyA(s: seq<char>, stod: Stod)
    requires |s| > 4 && s[..4] == "{\"a\"" && !IsWhitespace(s[4])
    ensures var k := StringSpec(s, 1, true, Yes, [StartObjectEvent]);
      k.err == OK && k.pos == 4 && k.trace == [StartObjectEvent, KeyEvent("a")] && SkipWs(s, 4) == 4
  {
    assert s[1] == '"' && s[2] == 'a' && s[3] == '"';
    assert StringBody(s, 2, []) == StringBody(s, 3, "a") == Str(OK, "a", 4);
    assert Yes([StartObjectEvent] + [KeyEvent("a")]);
  }

  /** A key must be a string, and it must be followed by ':'. */
  lemma {:induction false} ObjectKeyErrors(stod: Stod)
    ensures Outcome("{1:1,", Yes, stod) == MISS_KEY
    ensures Outcome("{\"a\"}", Yes, stod) == MISS_COLON
  {
    ObjectStart("{1:1,", stod);
    var s := "{\"a\"}";
    KeyA(s, stod);
    assert Members(s, 1, Yes, [StartObjectEvent], stod, []).err == MISS_COLON;
    ObjectStart(s, stod);
  }

  /** After a member only ',' or '}' may follow. */
  lemma {:induction false} ObjectSeparatorError(stod: Stod)
    ensures Outcome("{\"a\":1", Yes, stod) == MISS_COMMA_OR_CURLY_BRACKET
  {
    var s := "{\"a\":1";
    KeyA(s, stod);
    assert SkipWs(s, 5) == 5;
    ReadsOne(s, 5, [StartObjectEvent, KeyEvent("a")], stod);
    var pr := Pair(s, 1, Yes, [StartObjectEvent], stod);
    assert pr.0 == ValueSpec(s, 5, Yes, [StartObjectEvent, KeyEvent("a")], stod);
    assert SkipWs(s, 6) == 6;
    AfterMemberStop(s, 1, pr, Yes, stod, []);
    ObjectStart(s, stod);
  }

  /** The digits of INT32_MAX, and of INT32_MAX + 1, spell those numbers. */
  lemma {:induction false} Int32EdgeDigits()
    ensures DecimalValue("2147483647") == 0x7FFF_FFFF && DecimalValue("2147483648") == 0x8000_0000
  {
    var t := "214748364";
    HighDigits();
    Decimals.DecimalSnoc(t, '7');
    Decimals.DecimalSnoc(t, '8');
    assert t + ['7'] == "2147483647" && t + ['8'] == "2147483648";
  }

  lemma {:induction false} HighDigits()
    ensures DecimalValue("214748364") == 214748364
  {
    LowDigits();
    Decimals.DecimalSnoc("21474", '8');
    Decimals.DecimalSnoc("214748", '3');
    Decimals.DecimalSnoc("2147483", '6');
    Decimals.DecimalSnoc("21474836", '4');
    assert "21474" + ['8'] == "214748" && "214748" + ['3'] == "2147483";
    assert "2147483" + ['6'] == "21474836" && "21474836" + ['4'] == "214748364";
  }

  lemma {:induction false} LowDigits()
    ensures DecimalValue("21474") == 21474
  {
    Decimals.DecimalSnoc("", '2');
    Decimals.DecimalSnoc("2", '1');
    Decimals.DecimalSnoc("21", '4');
    Decimals.DecimalSnoc("214", '7');
    Decimals.DecimalSnoc("2147", '4');
    assert DecimalValue("") == 0;
    assert "" + ['2'] == "2" && "2" + ['1'] == "21" && "21" + ['4'] == "214" && "214" + ['7'] == "2147";
    assert "2147" + ['4'] == "21474";
  }

  /** The value an optionally negative run of digits spells. */
  function WholeValue(s: seq<char>): int
    requires |s| > 0 && forall i :: (if s[0] == '-' then 1 else 0) <= i < |s| ==> IsDigit(s[i])
  {
    if s[0] == '-' then -(DecimalValue(s[1..]) as int) else DecimalValue(s)
  }

  /**
   * A whole number is reported as Int32 when it lies in the int32 range, as Int64 when it
   * lies in the int64 range only, and is NUMBER_TOO_BIG beyond that.
   */
  lemma {:induction false} WholeNumber(s: seq<char>, stod: Stod)
    requires |s| > 0 && var m := if s[0] == '-' then 1 else 0;
      |s| > m && IsDigit1To9(s[m]) && forall i :: m <= i < |s| ==> IsDigit(s[i])
    ensures var v, r := WholeValue(s), ParseSpec(s, 0, Yes, [], stod);
      (IsI32(v) ==> r == Res(OK, |s|, [Int32Event(v)], OfInt32(v))) &&
      (IsI64(v) && !IsI32(v) ==> r == Res(OK, |s|, [Int64Event(v)], OfInt64(v))) &&
      (!IsI64(v) ==> r.err == NUMBER_TOO_BIG && r.trace == [])
  {
    WholeScan(s);
    assert SkipWs(s, 0) == 0 && SkipWs(s, |s|) == |s|;
    assert ValueSpec(s, 0, Yes, [], stod) == ConvertSpec(s, 0, Yes, [], stod);
  }

  lemma {:induction false} WholeScan(s: seq<char>)
    requires |s| > 0 && var m := if s[0] == '-' then 1 else 0;
      |s| > m && IsDigit1To9(s[m]) && forall i :: m <= i < |s| ==> IsDigit(s[i])
    ensures ScanNumber(s, 0) == Some(Scan(if s[0] == '-' then 1 else 0, |s|, |s|, |s|))
    ensures s[0..|s|] == s && s[0] != 'N' && s[0] != 'I'
    ensures Stoll(s) == if IsI64(WholeValue(s)) then Some(WholeValue(s)) else None
  {
    var m := if s[0] == '-' then 1 else 0;
    assert Digits(s, m + 1) == |s|;
  }

  /** INT32_MAX and INT32_MIN are Int32 events, INT32_MAX + 1 an Int64 event. */
  lemma {:induction false} Int32Edge(stod: Stod)
    ensures ParseSpec("2147483647", 0, Yes, [], stod).trace == [Int32Event(0x7FFF_FFFF)]
    ensures ParseSpec("2147483648", 0, Yes, [], stod).trace == [Int64Event(0x8000_0000)]
    ensures ParseSpec("-2147483648", 0, Yes, [], stod).trace == [Int32Event(-0x8000_0000)]
  {
    Int32EdgeDigits();
    WholeNumber("2147483647", stod);
    WholeNumber("2147483648", stod);
    assert "-2147483648"[1..] == "2147483648";
    WholeNumber("-2147483648", stod);
  }
}
