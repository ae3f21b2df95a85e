// What the recursive-descent parser of include/neujson/reader.h computes, as functions of
// the input text and a position in it. Each production yields an error code (OK when no
// exception was thrown), the position reached, the handler calls made so far and, for
// the record, the value those calls describe. A handler is modelled by its answers: a
// function of the calls it has received, the current one included.

module ReaderSpec {
  import opened Arith
  import opened Handler
  import opened Errors
  import opened Values
  import opened ReadStream

  /** What a production leaves behind. */
  datatype Res = Res(err: ParseError, pos: nat, trace: seq<Event>, value: Value)

  /** The value recorded by productions that throw. */
  const NONE: Value := OfType(NULL)

  /** The decimal-to-binary conversion std::stod performs: None when it throws out_of_range. */
  type Stod = seq<char> -> Option<Double>

  /** CALL(handler.X()): the call is recorded; a refusal throws USER_STOPPED. */
  function Emit(accept: seq<Event> -> bool, t: seq<Event>, e: Event, pos: nat, v: Value): (r: Res)
    ensures r.trace == t + [e] && r.pos == pos
    ensures r.err == OK <==> accept(t + [e])
    ensures r.err != OK ==> r.err == USER_STOPPED
  {
    Res(if accept(t + [e]) then OK else USER_STOPPED, pos, t + [e], v)
  }

  // ---------------------------------------------------------------- characters

  predicate IsWhitespace(c: char)
  {
    c == ' ' || c == '\t' || c == '\r' || c == '\n'
  }

  predicate IsDigit(c: char)
  {
    '0' <= c <= '9'
  }

  predicate IsDigit1To9(c: char)
  {
    '1' <= c <= '9'
  }

  /** ParseWhitespaceBasic: the end of the run of whitespace starting at p. */
  function {:induction false} SkipWs(s: seq<char>, p: nat): (q: nat)
    requires p <= |s|
    ensures p <= q <= |s|
    ensures q < |s| ==> !IsWhitespace(s[q])
    decreases |s| - p
  {
    if p < |s| && IsWhitespace(s[p]) then SkipWs(s, p + 1) else p
  }

  /** Everything SkipWs passes over is whitespace. */
  lemma {:induction false} SkipWsRun(s: seq<char>, p: nat)
    requires p <= |s|
    ensures forall i :: p <= i < SkipWs(s, p) ==> IsWhitespace(s[i])
    decreases |s| - p
  {
    if p < |s| && IsWhitespace(s[p]) {
      SkipWsRun(s, p + 1);
    }
  }

  /** The digit loops of ParseNumber: the end of the run of digits starting at p. */
  function {:induction false} Digits(s: seq<char>, p: nat): (q: nat)
    requires p <= |s|
    ensures p <= q <= |s|
    ensures forall i :: p <= i < q ==> IsDigit(s[i])
    ensures q < |s| ==> !IsDigit(s[q])
    decreases |s| - p
  {
    if p < |s| && IsDigit(s[p]) then Digits(s, p + 1) else p
  }

  // ---------------------------------------------------------------- \u escapes

  /** The value of one hexadecimal digit, either case. */
  function HexDigit(c: char): (d: Option<nat>)
    ensures d.Some? ==> d.value < 16
  {
    if '0' <= c <= '9' then Some(c as int - '0' as int)
    else if 'a' <= c <= 'f' then Some(c as int - 'a' as int + 10)
    else if 'A' <= c <= 'F' then Some(c as int - 'A' as int + 10)
    else None
  }

  predicate AllHex(t: seq<char>)
  {
    forall i :: 0 <= i < |t| ==> HexDigit(t[i]).Some?
  }

  /** The number a run of hexadecimal digits spells, most significant first. */
  function {:induction false} HexValue(t: seq<char>): (u: nat)
    requires AllHex(t)
    ensures u < Pow2(4 * |t|)
  {
    if t == [] then 0
    else
      var n := |t| - 1;
      assert AllHex(t[..n]) by {
        assert forall i :: 0 <= i < n ==> t[..n][i] == t[i];
      }
      var front := HexValue(t[..n]);
      assert front * 16 + HexDigit(t[n]).value < Pow2(4 * |t|) by {
        assert Pow2(4) == 16;
        Pow2Add(4 * n, 4);
        MulLe(front + 1, Pow2(4 * n), 16);
      }
      front * 16 + HexDigit(t[n]).value
  }

  lemma {:induction false} Pow2Sixteen()
    ensures Pow2(16) == 0x10000
  {
    assert Pow2(4) == 16;
    Pow2Add(4, 4);
    Pow2Add(8, 8);
  }

  /** ParseHex4: four hexadecimal digits at p, or None (BAD_UNICODE_HEX). */
  function Hex4(s: seq<char>, p: nat): (r: Option<nat>)
    ensures r.Some? <==> p + 4 <= |s| && AllHex(s[p..p + 4])
    ensures r.Some? ==> r.value == HexValue(s[p..p + 4]) && r.value < 0x10000
  {
    Pow2Sixteen();
    if p + 4 <= |s| && AllHex(s[p..p + 4]) then Some(HexValue(s[p..p + 4])) else None
  }

  /** What follows "\u": the code point, after pairing a high surrogate with its low half. */
  datatype Esc = Esc(err: ParseError, code: nat, pos: nat)

  predicate IsHighSurrogate(u: nat)
  {
    0xD800 <= u <= 0xDBFF
  }

  predicate IsLowSurrogate(u: nat)
  {
    0xDC00 <= u <= 0xDFFF
  }

  /** The code point a surrogate pair stands for. */
  function Combine(hi: nat, lo: nat): (c: nat)
    requires IsHighSurrogate(hi) && IsLowSurrogate(lo)
    ensures 0x10000 <= c <= 0x10FFFF
  {
    0x10000 + (hi - 0xD800) * 0x400 + (lo - 0xDC00)
  }

  function UnicodeEscape(s: seq<char>, p: nat): (r: Esc)
    requires p <= |s|
    ensures r.err == OK ==> p + 4 <= r.pos <= |s| && r.code <= 0x10FFFF
    ensures r.err != OK ==> r.err in {BAD_UNICODE_HEX, BAD_UNICODE_SURROGATE}
    ensures Hex4(s, p).None? ==> r.err == BAD_UNICODE_HEX
    ensures Hex4(s, p).Some? && !IsHighSurrogate(Hex4(s, p).value) ==>
      r == Esc(OK, Hex4(s, p).value, p + 4)
    ensures Hex4(s, p).Some? && IsHighSurrogate(Hex4(s, p).value) ==>
      (r.err == OK <==>
        At(s, p + 4) == '\\' && At(s, p + 5) == 'u' && Hex4(s, p + 6).Some? &&
        IsLowSurrogate(Hex4(s, p + 6).value)) &&
      (r.err == OK ==> r == Esc(OK, Combine(Hex4(s, p).value, Hex4(s, p + 6).value), p + 10))
  {
    match Hex4(s, p)
    case None => Esc(BAD_UNICODE_HEX, 0, p)
    case Some(u) =>
      if !IsHighSurrogate(u) then Esc(OK, u, p + 4)
      else if At(s, p + 4) != '\\' || At(s, p + 5) != 'u' then Esc(BAD_UNICODE_SURROGATE, 0, p)
      else
        match Hex4(s, p + 6)
        case None => Esc(BAD_UNICODE_HEX, 0, p)
        case Some(u2) =>
          if IsLowSurrogate(u2) then Esc(OK, Combine(u, u2), p + 10)
          else Esc(BAD_UNICODE_SURROGATE, 0, p)
  }

  // ---------------------------------------------------------------- UTF-8

  /** A byte, held in a char as the parser's std::string holds it. */
  function Byte(x: nat): (c: char)
    requires x < 0x100
    ensures c as int == x
  {
    x as char
  }

  /**
   * The bytes EncodeUtf8 appends for u: its UTF-8 form of RFC 3629 section 3, which the
   * decoder below reads back as u; nothing above 0x10FFFF. The masks of the source are
   * no-ops on these ranges and are left out.
   */
  function Utf8(u: nat): (b: seq<char>)
    ensures u <= 0x7F ==> |b| == 1
    ensures 0x7F < u <= 0x7FF ==> |b| == 2
    ensures 0x7FF < u <= 0xFFFF ==> |b| == 3
    ensures 0xFFFF < u <= 0x10FFFF ==> |b| == 4
    ensures u > 0x10FFFF ==> b == []
    ensures forall i :: 0 <= i < |b| ==> b[i] as int < 0x100
    ensures u <= 0x10FFFF ==> DecodeUtf8(b) == Some(u)
  {
    if u <= 0x7F then [Byte(u)]
    else if u <= 0x7FF then
      Utf8TwoDecodes(u);
      [Byte(0xC0 + u / 0x40), Byte(0x80 + u % 0x40)]
    else if u <= 0xFFFF then
      Utf8ThreeDecodes(u);
      [Byte(0xE0 + u / 0x1000), Byte(0x80 + (u / 0x40) % 0x40), Byte(0x80 + u % 0x40)]
    else if u <= 0x10FFFF then
      Utf8FourDecodes(u);
      [Byte(0xF0 + u / 0x40000), Byte(0x80 + (u / 0x1000) % 0x40),
       Byte(0x80 + (u / 0x40) % 0x40), Byte(0x80 + u % 0x40)]
    else []
  }

  /** u in six-bit groups: the top group above the lower ones. */
  lemma SixBits(u: nat)
    ensures u == (u / 0x40) * 0x40 + u % 0x40
    ensures u / 0x1000 == (u / 0x40) / 0x40 && u / 0x40000 == (u / 0x1000) / 0x40
  {
  }

  lemma Utf8TwoDecodes(u: nat)
    requires 0x7F < u <= 0x7FF
    ensures DecodeUtf8([Byte(0xC0 + u / 0x40), Byte(0x80 + u % 0x40)]) == Some(u)
  {
    SixBits(u);
    var b := [Byte(0xC0 + u / 0x40), Byte(0x80 + u % 0x40)];
    assert b[0] as int - 0xC0 == u / 0x40 && b[1] as int - 0x80 == u % 0x40;
  }

  lemma Utf8ThreeDecodes(u: nat)
    requires 0x7FF < u <= 0xFFFF
    ensures DecodeUtf8([Byte(0xE0 + u / 0x1000), Byte(0x80 + (u / 0x40) % 0x40), Byte(0x80 + u % 0x40)]) == Some(u)
  {
    SixBits(u);
    SixBits(u / 0x40);
    var b := [Byte(0xE0 + u / 0x1000), Byte(0x80 + (u / 0x40) % 0x40), Byte(0x80 + u % 0x40)];
    assert b[0] as int - 0xE0 == u / 0x1000;
    assert b[1] as int - 0x80 == (u / 0x40) % 0x40 && b[2] as int - 0x80 == u % 0x40;
    assert (b[0] as int - 0xE0) * 0x40 + (b[1] as int - 0x80) == u / 0x40;
  }

  lemma Utf8FourDecodes(u: nat)
    requires 0xFFFF < u <= 0x10FFFF
    ensures DecodeUtf8([Byte(0xF0 + u / 0x40000), Byte(0x80 + (u / 0x1000) % 0x40),
      Byte(0x80 + (u / 0x40) % 0x40), Byte(0x80 + u % 0x40)]) == Some(u)
  {
    SixBits(u);
    SixBits(u / 0x40);
    SixBits(u / 0x1000);
    var b := [Byte(0xF0 + u / 0x40000), Byte(0x80 + (u / 0x1000) % 0x40),
      Byte(0x80 + (u / 0x40) % 0x40), Byte(0x80 + u % 0x40)];
    assert b[0] as int - 0xF0 == u / 0x40000;
    assert b[1] as int - 0x80 == (u / 0x1000) % 0x40;
    assert b[2] as int - 0x80 == (u / 0x40) % 0x40 && b[3] as int - 0x80 == u % 0x40;
    assert (b[0] as int - 0xF0) * 0x40 + (b[1] as int - 0x80) == u / 0x1000;
    assert ((b[0] as int - 0xF0) * 0x40 + (b[1] as int - 0x80)) * 0x40 + (b[2] as int - 0x80) == u / 0x40;
  }

  predicate IsContinuation(c: char)
  {
    0x80 <= c as int < 0xC0
  }

  /**
   * The decoder of RFC 3629 section 3: one whole sequence, read by its lead byte, in its
   * shortest form only and never above 0x10FFFF. Surrogate code points are not refused:
   * the reader encodes a lone low surrogate like any other code point.
   */
  function DecodeUtf8(b: seq<char>): (u: Option<nat>)
    ensures u.Some? ==> u.value <= 0x10FFFF
  {
    if |b| == 1 && b[0] as int < 0x80 then Some(b[0] as int)
    else if |b| == 2 && 0xC0 <= b[0] as int < 0xE0 && IsContinuation(b[1]) then
      var u := (b[0] as int - 0xC0) * 0x40 + (b[1] as int - 0x80);
      if 0x80 <= u then Some(u) else None
    else if |b| == 3 && 0xE0 <= b[0] as int < 0xF0 && IsContinuation(b[1]) && IsContinuation(b[2]) then
      var u := ((b[0] as int - 0xE0) * 0x40 + (b[1] as int - 0x80)) * 0x40 + (b[2] as int - 0x80);
      if 0x800 <= u then Some(u) else None
    else if |b| == 4 && 0xF0 <= b[0] as int < 0xF8 && IsContinuation(b[1]) && IsContinuation(b[2]) &&
      IsContinuation(b[3]) then
      var u := (((b[0] as int - 0xF0) * 0x40 + (b[1] as int - 0x80)) * 0x40 + (b[2] as int - 0x80)) * 0x40 +
        (b[3] as int - 0x80);
      if 0x10000 <= u <= 0x10FFFF then Some(u) else None
    else None
  }

  /** The bytes that decode to u are exactly its UTF-8 form: the encoding is the decoder's inverse. */
  lemma {:induction false} Utf8Iff(b: seq<char>, u: nat)
    ensures DecodeUtf8(b) == Some(u) <==> u <= 0x10FFFF && b == Utf8(u)
  {
    if DecodeUtf8(b) == Some(u) {
      if |b| == 2 {
        Utf8TwoFrom(b, u);
      } else if |b| == 3 {
        Utf8ThreeFrom(b, u);
      } else if |b| == 4 {
        Utf8FourFrom(b, u);
      }
    }
  }

  lemma {:induction false} Utf8TwoFrom(b: seq<char>, u: nat)
    requires |b| == 2 && DecodeUtf8(b) == Some(u)
    ensures b == Utf8(u)
  {
    var c0, c1 := b[0] as int - 0xC0, b[1] as int - 0x80;
    assert u == c0 * 0x40 + c1;
    DivModUnique(u, 0x40, c0, c1);
    assert Utf8(u)[0] == b[0] && Utf8(u)[1] == b[1];
  }

  lemma {:induction false} Utf8ThreeFrom(b: seq<char>, u: nat)
    requires |b| == 3 && DecodeUtf8(b) == Some(u)
    ensures b == Utf8(u)
  {
    var c0, c1, c2 := b[0] as int - 0xE0, b[1] as int - 0x80, b[2] as int - 0x80;
    var h := c0 * 0x40 + c1;
    assert u == h * 0x40 + c2;
    DivModUnique(u, 0x40, h, c2);
    DivModUnique(h, 0x40, c0, c1);
    SixBits(u);
    assert Utf8(u)[0] == b[0] && Utf8(u)[1] == b[1] && Utf8(u)[2] == b[2];
  }

  lemma {:induction false} Utf8FourFrom(b: seq<char>, u: nat)
    requires |b| == 4 && DecodeUtf8(b) == Some(u)
    ensures b == Utf8(u)
  {
    var c0, c1, c2, c3 := b[0] as int - 0xF0, b[1] as int - 0x80, b[2] as int - 0x80, b[3] as int - 0x80;
    var h := c0 * 0x40 + c1;
    var m := h * 0x40 + c2;
    assert u == m * 0x40 + c3;
    DivModUnique(u, 0x40, m, c3);
    DivModUnique(m, 0x40, h, c2);
    DivModUnique(h, 0x40, c0, c1);
    SixBits(u);
    assert Utf8(u)[0] == b[0] && Utf8(u)[1] == b[1] && Utf8(u)[2] == b[2] && Utf8(u)[3] == b[3];
  }

  // ---------------------------------------------------------------- strings

  /** The single-character escapes: \" \\ \/ \b \f \n \r \t. */
  function SimpleEscape(c: char): (r: Option<char>)
    ensures r.Some? <==> c in "\"\\/bfnrt"
  {
    match c
    case '"' => Some('"')
    case '\\' => Some('\\')
    case '/' => Some('/')
    case 'b' => Some(Byte(0x08))
    case 'f' => Some(Byte(0x0C))
    case 'n' => Some('\n')
    case 'r' => Some('\r')
    case 't' => Some('\t')
    case _ => None
  }

  /** A raw control character the GCC and Clang case range rejects; NUL is not one. */
  predicate IsBadStringChar(c: char)
  {
    0x01 <= c as int <= 0x1F
  }

  datatype Str = Str(err: ParseError, chars: seq<char>, pos: nat)

  /** The loop of ParseString from p, buf decoded so far: the text up to the closing quote, or the error. */
  function {:induction false} StringBody(s: seq<char>, p: nat, buf: seq<char>): (r: Str)
    requires p <= |s|
    ensures p <= r.pos <= |s|
    ensures r.err == OK ==> p < r.pos && s[r.pos - 1] == '"'
    ensures r.err in {OK, MISS_QUOTATION_MARK, BAD_STRING_CHAR, BAD_STRING_ESCAPE, BAD_UNICODE_HEX, BAD_UNICODE_SURROGATE}
    decreases |s| - p
  {
    if p == |s| then Str(MISS_QUOTATION_MARK, buf, p)
    else
      var c := s[p];
      if c == '"' then Str(OK, buf, p + 1)
      else if IsBadStringChar(c) then Str(BAD_STRING_CHAR, buf, p + 1)
      else if c == '\\' then
        var e := At(s, p + 1);
        var q := Advance(s, p + 1, 1);
        if e == 'u' then
          var u := UnicodeEscape(s, q);
          if u.err != OK then Str(u.err, buf, q)
          else
            StringBody(s, u.pos, buf + Utf8(u.code))
        else if SimpleEscape(e).Some? then StringBody(s, q, buf + [SimpleEscape(e).value])
        else Str(BAD_STRING_ESCAPE, buf, q)
      else StringBody(s, p + 1, buf + [c])
  }

  /** The decoded text of a well-formed string starts with the characters already decoded. */
  lemma {:induction false} StringBodyExtends(s: seq<char>, p: nat, buf: seq<char>)
    requires p <= |s|
    ensures var r := StringBody(s, p, buf);
      r.err == OK ==> |buf| <= |r.chars| && r.chars[..|buf|] == buf
    decreases |s| - p, 0
  {
    if p < |s| {
      var c := s[p];
      if c == '\\' {
        var e := At(s, p + 1);
        var q := Advance(s, p + 1, 1);
        if e == 'u' {
          var u := UnicodeEscape(s, q);
          if u.err == OK {
            ExtendsAfter(s, u.pos, buf, Utf8(u.code));
          }
        } else if SimpleEscape(e).Some? {
          ExtendsAfter(s, q, buf, [SimpleEscape(e).value]);
        }
      } else if c != '"' && !IsBadStringChar(c) {
        ExtendsAfter(s, p + 1, buf, [c]);
      }
    }
  }

  /** Decoding on from buf + x keeps buf in front. */
  lemma {:induction false} ExtendsAfter(s: seq<char>, q: nat, buf: seq<char>, x: seq<char>)
    requires q <= |s|
    ensures var r := StringBody(s, q, buf + x);
      r.err == OK ==> |buf| <= |r.chars| && r.chars[..|buf|] == buf
    decreases |s| - q, 1
  {
    StringBodyExtends(s, q, buf + x);
    var r := StringBody(s, q, buf + x);
    if r.err == OK {
      assert r.chars[..|buf|] == (buf + x)[..|buf|];
    }
  }

  /** ParseString at an opening quote: the decoded text goes to Key or String. */
  function StringSpec(s: seq<char>, p: nat, isKey: bool, accept: seq<Event> -> bool, t: seq<Event>): (r: Res)
    requires p < |s| && s[p] == '"'
    ensures p < r.pos <= |s|
  {
    var b := StringBody(s, p + 1, []);
    if b.err != OK then Res(b.err, b.pos, t, NONE)
    else Emit(accept, t, if isKey then KeyEvent(b.chars) else StringEvent(b.chars), b.pos, OfString(b.chars))
  }

  // ---------------------------------------------------------------- literals and numbers

  /** The event ParseLiteral reports for a literal of type ty starting with c. */
  function LiteralEvent(c: char, ty: Type): (e: Event)
    requires ty in {NULL, BOOL, DOUBLE}
  {
    match ty
    case NULL => NullEvent
    case BOOL => BoolEvent(c == 't')
    case DOUBLE => DoubleEvent(if c == 'N' then QUIET_NAN else INFINITY)
  }

  function LiteralValue(c: char, ty: Type): (v: Value)
    requires ty in {NULL, BOOL, DOUBLE}
    ensures Plain(v) && Wf(v) && Events(v) == [LiteralEvent(c, ty)]
  {
    match ty
    case NULL => OfType(NULL)
    case BOOL => OfBool(c == 't')
    case DOUBLE => OfDouble(if c == 'N' then QUIET_NAN else INFINITY)
  }

  /** ParseLiteral: the whole literal, character for character, or BAD_VALUE. */
  function LiteralSpec(s: seq<char>, p: nat, lit: seq<char>, ty: Type, accept: seq<Event> -> bool, t: seq<Event>): (r: Res)
    requires p < |s| && |lit| > 0 && s[p] == lit[0] && ty in {NULL, BOOL, DOUBLE}
    ensures r.err == OK || r.err == USER_STOPPED ==>
      p + |lit| <= |s| && s[p..p + |lit|] == lit && r.pos == p + |lit| && r.trace == t + [LiteralEvent(lit[0], ty)]
    ensures (p + |lit| > |s| || s[p..p + |lit|] != lit) ==> r.err == BAD_VALUE && r.trace == t
    ensures p <= r.pos <= |s|
  {
    if p + |lit| <= |s| && s[p..p + |lit|] == lit then
      Emit(accept, t, LiteralEvent(lit[0], ty), p + |lit|, LiteralValue(lit[0], ty))
    else Res(BAD_VALUE, p, t, NONE)
  }

  predicate AllDigits(t: seq<char>)
  {
    |t| >= 1 && forall i :: 0 <= i < |t| ==> IsDigit(t[i])
  }

  /** The integer part of RFC 8259 section 6: a single 0, or a digit 1..9 and more digits. */
  predicate IntPart(t: seq<char>)
  {
    t == "0" || (|t| >= 1 && IsDigit1To9(t[0]) && (|t| == 1 || AllDigits(t[1..])))
  }

  /** An optional fraction: '.' and one or more digits. */
  predicate FracPart(t: seq<char>)
  {
    t == [] || (|t| >= 2 && t[0] == '.' && AllDigits(t[1..]))
  }

  /** An optional exponent: 'e' or 'E', an optional sign, one or more digits. */
  predicate ExpPart(t: seq<char>)
  {
    t == [] ||
    (|t| >= 2 && (t[0] == 'e' || t[0] == 'E') &&
     (AllDigits(t[1..]) || ((t[1] == '+' || t[1] == '-') && AllDigits(t[2..]))))
  }

  /** Where the sign, integer part, fraction and exponent of a scanned number end. */
  datatype Scan = Scan(intStart: nat, intEnd: nat, fracEnd: nat, end: nat)
  {
    predicate IsDouble()
    {
      intEnd < end
    }
  }

  /** The integer part at a: a lone '0', or a digit 1..9 and all the digits after it. */
  function ScanInt(s: seq<char>, a: nat): (r: Option<nat>)
    requires a <= |s|
    ensures r.Some? ==> a < r.value <= |s| && IntPart(s[a..r.value])
    ensures r.Some? && s[a] != '0' ==> !IsDigit(At(s, r.value))
    ensures r.None? <==> !IsDigit(At(s, a))
  {
    if At(s, a) == '0' then
      assert s[a..a + 1] == "0";
      Some(a + 1)
    else if !IsDigit1To9(At(s, a)) then None
    else
      var b := Digits(s, a + 1);
      assert b > a + 1 ==> s[a..b][1..] == s[a + 1..b];
      Some(b)
  }

  /** The optional fraction at b; None when '.' is not followed by a digit. */
  function ScanFrac(s: seq<char>, b: nat): (r: Option<nat>)
    requires b <= |s|
    ensures r.Some? ==> b <= r.value <= |s| && FracPart(s[b..r.value])
    ensures r.Some? && b < r.value ==> !IsDigit(At(s, r.value))
    ensures r.Some? ==> (At(s, b) == '.' <==> b < r.value)
    ensures r.None? <==> At(s, b) == '.' && !IsDigit(At(s, b + 1))
  {
    if At(s, b) != '.' then
      assert s[b..b] == [];
      Some(b)
    else if !IsDigit(At(s, b + 1)) then None
    else
      var c := Digits(s, b + 2);
      assert s[b..c][1..] == s[b + 1..c];
      Some(c)
  }

  /** The optional exponent at c; None when the marker and sign are not followed by a digit. */
  function ScanExp(s: seq<char>, c: nat): (r: Option<nat>)
    requires c <= |s|
    ensures r.Some? ==> c <= r.value <= |s| && ExpPart(s[c..r.value])
    ensures r.Some? && c < r.value ==> !IsDigit(At(s, r.value))
    ensures r.Some? ==> ((At(s, c) == 'e' || At(s, c) == 'E') <==> c < r.value)
  {
    if At(s, c) != 'e' && At(s, c) != 'E' then
      assert s[c..c] == [];
      Some(c)
    else
      var e1 := if At(s, c + 1) == '+' || At(s, c + 1) == '-' then c + 2 else c + 1;
      if !IsDigit(At(s, e1)) then None
      else
        var d := Digits(s, e1 + 1);
        ExpShape(s, c, e1, d);
        Some(d)
  }

  /** A marker at c, an optional sign, and digits from e1 to d make an exponent. */
  lemma {:induction false} ExpShape(s: seq<char>, c: nat, e1: nat, d: nat)
    requires c < e1 <= c + 2 && e1 < d <= |s| && (s[c] == 'e' || s[c] == 'E')
    requires e1 == c + 2 ==> s[c + 1] == '+' || s[c + 1] == '-'
    requires forall i :: e1 <= i < d ==> IsDigit(s[i])
    ensures ExpPart(s[c..d])
  {
    var t := s[c..d];
    var u := t[e1 - c..];
    assert u == s[e1..d];
    forall i | 0 <= i < |u| ensures IsDigit(u[i]) {
      assert u[i] == s[e1 + i];
    }
    assert AllDigits(u);
    assert t[0] == s[c];
    if e1 == c + 2 {
      assert t[1] == s[c + 1];
    }
  }

  /**
   * The scanning part of ParseNumber from p (no 'N' or 'I' there): an optional '-', the
   * integer part, the fraction, the exponent; None for BAD_VALUE.
   */
  function ScanNumber(s: seq<char>, p: nat): (r: Option<Scan>)
    requires p <= |s|
    ensures r.Some? ==> p <= r.value.intStart < r.value.intEnd <= r.value.fracEnd <= r.value.end <= |s|
  {
    var a := if At(s, p) == '-' then p + 1 else p;
    match ScanInt(s, a)
    case None => None
    case Some(b) =>
      match ScanFrac(s, b)
      case None => None
      case Some(c) =>
        match ScanExp(s, c)
        case None => None
        case Some(d) => Some(Scan(a, b, c, d))
  }

  /** A scanned number follows the grammar of RFC 8259 section 6, part by part. */
  lemma {:induction false} ScanNumberGrammar(s: seq<char>, p: nat)
    requires p <= |s| && ScanNumber(s, p).Some?
    ensures var sc := ScanNumber(s, p).value;
      s[p..sc.intStart] in {"", "-"} && IntPart(s[sc.intStart..sc.intEnd]) &&
      FracPart(s[sc.intEnd..sc.fracEnd]) && ExpPart(s[sc.fracEnd..sc.end])
  {
    var a := ScanNumber(s, p).value.intStart;
    if a == p + 1 {
      assert s[p..a] == [s[p]] == "-";
    } else {
      assert s[p..a] == "";
    }
  }

  lemma {:induction false} SliceJoin(s: seq<char>, a: nat, b: nat, c: nat)
    requires a <= b <= c <= |s|
    ensures s[a..c] == s[a..b] + s[b..c]
  {
  }

  /** The number a run of decimal digits spells. */
  function {:induction false} DecimalValue(t: seq<char>): (n: nat)
    requires forall i :: 0 <= i < |t| ==> IsDigit(t[i])
  {
    if t == [] then 0
    else
      var k := |t| - 1;
      assert forall i :: 0 <= i < k ==> t[..k][i] == t[i];
      assert IsDigit(t[k]);
      DecimalValue(t[..k]) * 10 + (t[k] as int - '0' as int)
  }

  predicate IsI32(i: int)
  {
    -0x8000_0000 <= i < 0x8000_0000
  }

  predicate IsI64(i: int)
  {
    -0x8000_0000_0000_0000 <= i < 0x8000_0000_0000_0000
  }

  /** std::stoll on an optionally signed run of digits; None when it throws out_of_range. */
  function Stoll(t: seq<char>): (r: Option<I64>)
    requires |t| >= 1 && (t[0] == '-' || IsDigit(t[0]))
    requires forall i :: 1 <= i < |t| ==> IsDigit(t[i])
  {
    var neg := t[0] == '-';
    var digits := if neg then t[1..] else t;
    var n := DecimalValue(digits);
    var v: int := if neg then -(n as int) else n;
    if IsI64(v) then Some(v) else None
  }

  /** An integer's text is a sign or a digit, then digits only. */
  lemma {:induction false} IntegerTextDigits(s: seq<char>, p: nat)
    requires p <= |s| && ScanNumber(s, p).Some? && !ScanNumber(s, p).value.IsDouble()
    ensures var text := s[p..ScanNumber(s, p).value.end];
      forall i :: 1 <= i < |text| ==> IsDigit(text[i])
  {
    var sc := ScanNumber(s, p).value;
    ScanNumberGrammar(s, p);
    assert forall i :: sc.intStart + 1 <= i < sc.intEnd ==> IsDigit(s[i]) by {
      assert forall i :: 1 <= i < sc.intEnd - sc.intStart ==> s[sc.intStart..sc.intEnd][i] == s[sc.intStart + i];
    }
  }

  /**
   * ParseNumber past its NaN and Infinity branches: scan, convert, report. A text with a
   * fraction or exponent goes to Double, a whole number to Int32 when it fits and to
   * Int64 otherwise; a failed conversion is NUMBER_TOO_BIG, a refusal USER_STOPPED.
   */
  function ConvertSpec(s: seq<char>, p: nat, accept: seq<Event> -> bool, t: seq<Event>, stod: Stod): (r: Res)
    requires p <= |s|
    ensures p <= r.pos <= |s|
  {
    match ScanNumber(s, p)
    case None => Res(BAD_VALUE, p, t, NONE)
    case Some(sc) =>
      var text := s[p..sc.end];
      if sc.IsDouble() then
        match stod(text)
        case None => Res(NUMBER_TOO_BIG, p, t, NONE)
        case Some(d) => Emit(accept, t, DoubleEvent(d), sc.end, OfDouble(d))
      else
        IntegerTextDigits(s, p);
        match Stoll(text)
        case None => Res(NUMBER_TOO_BIG, p, t, NONE)
        case Some(i) =>
          if IsI32(i) then Emit(accept, t, Int32Event(i), sc.end, OfInt32(i))
          else Emit(accept, t, Int64Event(i), sc.end, OfInt64(i))
  }

  /** ParseNumber: the NaN and Infinity literals first, then a numeric text. */
  function NumberSpec(s: seq<char>, p: nat, accept: seq<Event> -> bool, t: seq<Event>, stod: Stod): (r: Res)
    requires p < |s|
    ensures p <= r.pos <= |s|
  {
    if s[p] == 'N' then LiteralSpec(s, p, "NaN", DOUBLE, accept, t)
    else if s[p] == 'I' then LiteralSpec(s, p, "Infinity", DOUBLE, accept, t)
    else ConvertSpec(s, p, accept, t, stod)
  }

  // ---------------------------------------------------------------- values, arrays, objects

  /** ParseValue at p: dispatch on the first character; nothing left is EXPECT_VALUE. */
  function ValueSpec(s: seq<char>, p: nat, accept: seq<Event> -> bool, t: seq<Event>, stod: Stod): (r: Res)
    requires p <= |s|
    ensures p <= r.pos <= |s|
    decreases |s| - p, 3
  {
    if p == |s| then Res(EXPECT_VALUE, p, t, NONE)
    else
      match s[p]
      case 'n' => LiteralSpec(s, p, "null", NULL, accept, t)
      case 't' => LiteralSpec(s, p, "true", BOOL, accept, t)
      case 'f' => LiteralSpec(s, p, "false", BOOL, accept, t)
      case '"' => StringSpec(s, p, false, accept, t)
      case '[' => ArraySpec(s, p, accept, t, stod)
      case '{' => ObjectSpec(s, p, accept, t, stod)
      case _ => NumberSpec(s, p, accept, t, stod)
  }

  /** ParseArray at '[': StartArray is reported before the bracket is consumed. */
  function ArraySpec(s: seq<char>, p: nat, accept: seq<Event> -> bool, t: seq<Event>, stod: Stod): (r: Res)
    requires p < |s| && s[p] == '['
    ensures p <= r.pos <= |s|
    decreases |s| - p, 2
  {
    var t1 := t + [StartArrayEvent];
    if !accept(t1) then Res(USER_STOPPED, p, t1, NONE)
    else
      var q := SkipWs(s, p + 1);
      if At(s, q) == ']' then Emit(accept, t1, EndArrayEvent, q + 1, Value(ARRAY, ArrayData([])))
      else Elements(s, q, accept, t1, stod, [])
  }

  /** The loop of ParseArray at an element, with elems read before it. */
  function Elements(s: seq<char>, q: nat, accept: seq<Event> -> bool, t: seq<Event>, stod: Stod, elems: seq<Value>): (r: Res)
    requires q <= |s|
    ensures q <= r.pos <= |s|
    decreases |s| - q, 4
  {
    AfterElement(s, q, ValueSpec(s, q, accept, t, stod), accept, stod, elems)
  }

  /** The rest of the loop once the element at q has been read into v: ',' or ']'. */
  function AfterElement(s: seq<char>, q: nat, v: Res, accept: seq<Event> -> bool, stod: Stod, elems: seq<Value>): (r: Res)
    requires q <= v.pos <= |s|
    ensures q <= r.pos <= |s|
    decreases |s| - q, 3
  {
    if v.err != OK then v
    else
      var q1 := SkipWs(s, v.pos);
      var q2 := Advance(s, q1, 1);
      var c := At(s, q1);
      if c == ',' then Elements(s, SkipWs(s, q2), accept, v.trace, stod, elems + [v.value])
      else if c == ']' then Emit(accept, v.trace, EndArrayEvent, q2, Value(ARRAY, ArrayData(elems + [v.value])))
      else Res(MISS_COMMA_OR_SQUARE_BRACKET, q2, v.trace, NONE)
  }

  /** ParseObject at '{': StartObject is reported before the brace is consumed. */
  function ObjectSpec(s: seq<char>, p: nat, accept: seq<Event> -> bool, t: seq<Event>, stod: Stod): (r: Res)
    requires p < |s| && s[p] == '{'
    ensures p <= r.pos <= |s|
    decreases |s| - p, 2
  {
    var t1 := t + [StartObjectEvent];
    if !accept(t1) then Res(USER_STOPPED, p, t1, NONE)
    else
      var q := SkipWs(s, p + 1);
      if At(s, q) == '}' then Emit(accept, t1, EndObjectEvent, q + 1, Value(OBJECT, ObjectData([])))
      else Members(s, q, accept, t1, stod, [])
  }

  /** One member of ParseObject at its key: the key, ':', the value; with the key read. */
  function Pair(s: seq<char>, q: nat, accept: seq<Event> -> bool, t: seq<Event>, stod: Stod): (r: (Res, Value))
    requires q < |s| && s[q] == '"'
    ensures q < r.0.pos <= |s|
    decreases |s| - q, 3
  {
    var k := StringSpec(s, q, true, accept, t);
    if k.err != OK then (k, NONE)
    else
      var q1 := SkipWs(s, k.pos);
      if At(s, q1) != ':' then (Res(MISS_COLON, q1, k.trace, NONE), NONE)
      else (ValueSpec(s, SkipWs(s, q1 + 1), accept, k.trace, stod), k.value)
  }

  /** The loop of ParseObject where a key is expected, with members read before it. */
  function Members(s: seq<char>, q: nat, accept: seq<Event> -> bool, t: seq<Event>, stod: Stod, members: seq<Member>): (r: Res)
    requires q <= |s|
    ensures q <= r.pos <= |s|
    decreases |s| - q, 4
  {
    if At(s, q) != '"' then Res(MISS_KEY, q, t, NONE)
    else AfterMember(s, q, Pair(s, q, accept, t, stod), accept, stod, members)
  }

  /** The rest of the loop once the member at q has been read into pr: ',' or '}'. */
  function AfterMember(s: seq<char>, q: nat, pr: (Res, Value), accept: seq<Event> -> bool, stod: Stod, members: seq<Member>): (r: Res)
    requires q < pr.0.pos <= |s|
    ensures q <= r.pos <= |s|
    decreases |s| - q, 3
  {
    var v := pr.0;
    if v.err != OK then v
    else
      var q3 := SkipWs(s, v.pos);
      var q4 := Advance(s, q3, 1);
      var c := At(s, q3);
      var ms := members + [Member(pr.1, v.value)];
      if c == ',' then Members(s, SkipWs(s, q4), accept, v.trace, stod, ms)
      else if c == '}' then Emit(accept, v.trace, EndObjectEvent, q4, Value(OBJECT, ObjectData(ms)))
      else Res(MISS_COMMA_OR_CURLY_BRACKET, q4, v.trace, NONE)
  }

  /** AfterElement at a ',': the loop goes on at the next element, with v's value kept. */
  lemma {:induction false} AfterElementComma(s: seq<char>, q: nat, v: Res, accept: seq<Event> -> bool, stod: Stod, elems: seq<Value>)
    requires q <= v.pos <= |s| && v.err == OK && At(s, SkipWs(s, v.pos)) == ','
    ensures AfterElement(s, q, v, accept, stod, elems) ==
      Elements(s, SkipWs(s, Advance(s, SkipWs(s, v.pos), 1)), accept, v.trace, stod, elems + [v.value])
  {
  }

  /** AfterMember at a ',': the loop goes on at the next key, with the member kept. */
  lemma {:induction false} AfterMemberComma(s: seq<char>, q: nat, pr: (Res, Value), accept: seq<Event> -> bool, stod: Stod, members: seq<Member>)
    requires q < pr.0.pos <= |s| && pr.0.err == OK && At(s, SkipWs(s, pr.0.pos)) == ','
    ensures AfterMember(s, q, pr, accept, stod, members) ==
      Members(s, SkipWs(s, Advance(s, SkipWs(s, pr.0.pos), 1)), accept, pr.0.trace, stod, members + [Member(pr.1, pr.0.value)])
  {
  }

  /** AfterElement at anything but ',': ']' closes the array, anything else is an error. */
  lemma {:induction false} AfterElementStop(s: seq<char>, q: nat, v: Res, accept: seq<Event> -> bool, stod: Stod, elems: seq<Value>)
    requires q <= v.pos <= |s| && v.err == OK && At(s, SkipWs(s, v.pos)) != ','
    ensures var q1 := SkipWs(s, v.pos);
      AfterElement(s, q, v, accept, stod, elems) ==
      if At(s, q1) == ']' then Emit(accept, v.trace, EndArrayEvent, q1 + 1, Value(ARRAY, ArrayData(elems + [v.value])))
      else Res(MISS_COMMA_OR_SQUARE_BRACKET, Advance(s, q1, 1), v.trace, NONE)
  {
  }

  /** AfterMember at anything but ',': '}' closes the object, anything else is an error. */
  lemma {:induction false} AfterMemberStop(s: seq<char>, q: nat, pr: (Res, Value), accept: seq<Event> -> bool, stod: Stod, members: seq<Member>)
    requires q < pr.0.pos <= |s| && pr.0.err == OK && At(s, SkipWs(s, pr.0.pos)) != ','
    ensures var q3 := SkipWs(s, pr.0.pos);
      AfterMember(s, q, pr, accept, stod, members) ==
      if At(s, q3) == '}' then Emit(accept, pr.0.trace, EndObjectEvent, q3 + 1, Value(OBJECT, ObjectData(members + [Member(pr.1, pr.0.value)])))
      else Res(MISS_COMMA_OR_CURLY_BRACKET, Advance(s, q3, 1), pr.0.trace, NONE)
  {
  }

  /** Reader::Parse: whitespace, one value, whitespace, and then nothing (ROOT_NOT_SINGULAR). */
  function ParseSpec(s: seq<char>, p: nat, accept: seq<Event> -> bool, t: seq<Event>, stod: Stod): (r: Res)
    requires p <= |s|
    ensures p <= r.pos <= |s|
  {
    var v := ValueSpec(s, SkipWs(s, p), accept, t, stod);
    if v.err != OK then v
    else if SkipWs(s, v.pos) < |s| then v.(err := ROOT_NOT_SINGULAR)
    else v.(pos := SkipWs(s, v.pos))
  }
}
