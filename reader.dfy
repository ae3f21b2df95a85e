// The parser of include/neujson/reader.h, step by step over a StringReadStream, calling a
// handler. An exception (neujson::Exception) is an error code returned up the call chain;
// OK stands for "no exception". Each method is proved to do what its production in
// ReaderSpec describes.

module Reader {
  import opened Arith
  import opened Handler
  import opened Errors
  import opened Values
  import opened ReadStream
  import opened ReaderSpec

  /** A method's outcome matches a production: same code, same calls, same position unless it threw. */
  predicate Agrees(r: Res, err: ParseError, pos: nat, trace: seq<Event>)
  {
    err == r.err && trace == r.trace && (err == OK ==> pos == r.pos)
  }

  /** ParseWhitespaceBasic: skip ' ', '\t', '\r' and '\n' while input remains. */
  method ParseWhitespace(rs: StringReadStream)
    requires rs.Valid()
    modifies rs
    ensures rs.Valid() && rs.pos == SkipWs(rs.json, old(rs.pos))
  {
    while rs.HasNext()
      invariant rs.Valid() && old(rs.pos) <= rs.pos
      invariant SkipWs(rs.json, rs.pos) == SkipWs(rs.json, old(rs.pos))
      decreases |rs.json| - rs.pos
    {
      var ch := rs.Peek();
      if IsWhitespace(ch) {
        var _ := rs.Next();
      } else {
        break;
      }
    }
  }

  /** ParseHex4: four characters, each shifted into u; any non-hex one is BAD_UNICODE_HEX. */
  method ParseHex4(rs: StringReadStream) returns (err: ParseError, u: nat)
    requires rs.Valid()
    modifies rs
    ensures rs.Valid() && old(rs.pos) <= rs.pos
    ensures err == OK <==> Hex4(rs.json, old(rs.pos)).Some?
    ensures err != OK ==> err == BAD_UNICODE_HEX
    ensures err == OK ==> u == Hex4(rs.json, old(rs.pos)).value && rs.pos == old(rs.pos) + 4
  {
    ghost var p, s := rs.pos, rs.json;
    u := 0;
    var i := 0;
    while i < 4
      invariant 0 <= i <= 4 && rs.Valid()
      invariant rs.pos == p + i && HexRead(s, p, i, u)
    {
      var ch := rs.Next();
      var d: nat;
      assert ch == At(s, p + i);
      if '0' <= ch <= '9' {
        d := ch as int - '0' as int;
      } else if 'a' <= ch <= 'f' {
        d := ch as int - 'a' as int + 10;
      } else if 'A' <= ch <= 'F' {
        d := ch as int - 'A' as int + 10;
      } else {
        Hex4Bad(s, p, i);
        return BAD_UNICODE_HEX, u;
      }
      HexValueSnoc(s, p, i, i + 1, u, d);
      // u < 16^3 here, so the shift by 4 cannot wrap, and it leaves the low bits for the or
      u := u * 16 + d;
      i := i + 1;
    }
    Hex4Good(s, p, u);
    err := OK;
  }

  /** Four hex digits read into u: Hex4 yields u. */
  lemma {:induction false} Hex4Good(s: seq<char>, p: nat, u: nat)
    requires HexRead(s, p, 4, u)
    ensures Hex4(s, p) == Some(u)
  {
  }

  /** A character that is not a hex digit among the four makes Hex4 fail. */
  lemma {:induction false} Hex4Bad(s: seq<char>, p: nat, i: nat)
    requires i < 4 && p + i <= |s| && HexDigit(At(s, p + i)).None?
    ensures Hex4(s, p).None?
  {
    if p + 4 <= |s| {
      assert s[p..p + 4][i] == s[p + i];
    }
  }

  /** The i characters from p are hex digits that spell u. */
  ghost predicate HexRead(s: seq<char>, p: nat, i: nat, u: nat)
  {
    p + i <= |s| && AllHex(s[p..p + i]) && u == HexValue(s[p..p + i])
  }

  lemma {:induction false} HexValueSnoc(s: seq<char>, p: nat, i: nat, j: nat, u: nat, d: nat)
    requires j == i + 1
    requires HexRead(s, p, i, u) && HexDigit(At(s, p + i)) == Some(d)
    ensures HexRead(s, p, j, u * 16 + d) && p + j <= |s|
  {
    var t := s[p..p + j];
    assert t[..i] == s[p..p + i];
    assert t[i] == s[p + i];
    assert AllHex(t) by {
      assert forall j :: 0 <= j < i ==> t[j] == t[..i][j];
    }
  }

  /** The \u branch of ParseString, after the 'u': one escape, or a surrogate pair. */
  method ParseUnicode(rs: StringReadStream) returns (err: ParseError, u: nat)
    requires rs.Valid()
    modifies rs
    ensures rs.Valid() && old(rs.pos) <= rs.pos
    ensures err == UnicodeEscape(rs.json, old(rs.pos)).err
    ensures err == OK ==> u == UnicodeEscape(rs.json, old(rs.pos)).code && rs.pos == UnicodeEscape(rs.json, old(rs.pos)).pos
  {
    err, u := ParseHex4(rs);
    if err != OK {
      return;
    }
    if 0xD800 <= u <= 0xDBFF {
      var c := rs.Next();
      if c != '\\' {
        return BAD_UNICODE_SURROGATE, u;
      }
      c := rs.Next();
      if c != 'u' {
        return BAD_UNICODE_SURROGATE, u;
      }
      var u2;
      err, u2 := ParseHex4(rs);
      if err != OK {
        return;
      }
      if 0xDC00 <= u2 <= 0xDFFF {
        u := 0x10000 + (u - 0xD800) * 0x400 + (u2 - 0xDC00);
      } else {
        return BAD_UNICODE_SURROGATE, u;
      }
    }
  }

  /** EncodeUtf8: push the UTF-8 bytes of u onto the buffer, one to four of them. */
  method EncodeUtf8(buffer: seq<char>, u: nat) returns (out: seq<char>)
    ensures out == buffer + Utf8(u)
    ensures u <= 0x10FFFF ==> |buffer| < |out| && DecodeUtf8(out[|buffer|..]) == Some(u)
    ensures u > 0x10FFFF ==> out == buffer
  {
    out := buffer;
    if u <= 0x7F {
      out := out + [Byte(u)];
    } else if u <= 0x7FF {
      out := out + [Byte(0xC0 + u / 0x40)];
      out := out + [Byte(0x80 + u % 0x40)];
    } else if u <= 0xFFFF {
      out := out + [Byte(0xE0 + u / 0x1000)];
      out := out + [Byte(0x80 + (u / 0x40) % 0x40)];
      out := out + [Byte(0x80 + u % 0x40)];
    } else if u <= 0x10FFFF {
      out := out + [Byte(0xF0 + u / 0x40000)];
      out := out + [Byte(0x80 + (u / 0x1000) % 0x40)];
      out := out + [Byte(0x80 + (u / 0x40) % 0x40)];
      out := out + [Byte(0x80 + u % 0x40)];
    }
  }

  /** One character after a backslash, u escapes excepted: the character it stands for. */
  method ParseEscape(rs: StringReadStream, buffer: seq<char>) returns (err: ParseError, out: seq<char>)
    requires rs.Valid()
    modifies rs
    ensures rs.Valid() && old(rs.pos) <= rs.pos
    ensures rs.pos == Advance(rs.json, old(rs.pos), 1)
    ensures var e := At(rs.json, old(rs.pos));
      if SimpleEscape(e).Some? then err == OK && out == buffer + [SimpleEscape(e).value]
      else err == BAD_STRING_ESCAPE
  {
    var ch := rs.Next();
    match ch {
      case '"' => out := buffer + ['"'];
      case '\\' => out := buffer + ['\\'];
      case '/' => out := buffer + ['/'];
      case 'b' => out := buffer + [Byte(0x08)];
      case 'f' => out := buffer + [Byte(0x0C)];
      case 'n' => out := buffer + ['\n'];
      case 'r' => out := buffer + ['\r'];
      case 't' => out := buffer + ['\t'];
      case _ => return BAD_STRING_ESCAPE, buffer;
    }
    err := OK;
  }

  /** ParseString: decode up to the closing quote, then report Key or String. */
  method ParseString(rs: StringReadStream, h: Sink, isKey: bool) returns (err: ParseError)
    requires rs.Valid() && rs.HasNext() && rs.Peek() == '"'
    modifies rs, h
    ensures rs.Valid() && old(rs.pos) <= rs.pos
    ensures Agrees(StringSpec(rs.json, old(rs.pos), isKey, h.accept, old(h.trace)), err, rs.pos, h.trace)
  {
    rs.AssertNext('"');
    var buffer := [];
    ghost var target := StringBody(rs.json, rs.pos, []);
    while rs.HasNext()
      invariant rs.Valid() && old(rs.pos) < rs.pos
      invariant StringBody(rs.json, rs.pos, buffer) == target
      invariant h.trace == old(h.trace)
      decreases |rs.json| - rs.pos
    {
      ghost var p := rs.pos;
      var ch := rs.Next();
      if ch == '"' {
        var ok;
        if isKey {
          ok := h.Handle(KeyEvent(buffer));
        } else {
          ok := h.Handle(StringEvent(buffer));
        }
        if !ok {
          return USER_STOPPED;
        }
        return OK;
      } else if 0x01 <= ch as int <= 0x1F {
        return BAD_STRING_CHAR;
      } else if ch == '\\' {
        if rs.Peek() == 'u' {
          var _ := rs.Next();
          var u;
          err, u := ParseUnicode(rs);
          if err != OK {
            return;
          }
          buffer := EncodeUtf8(buffer, u);
        } else {
          err, buffer := ParseEscape(rs, buffer);
          if err != OK {
            return;
          }
        }
      } else {
        buffer := buffer + [ch];
      }
    }
    return MISS_QUOTATION_MARK;
  }

  /** ParseLiteral: the literal, character for character, then the one handler call it stands for. */
  method ParseLiteral(rs: StringReadStream, h: Sink, lit: seq<char>, ty: Type) returns (err: ParseError)
    requires rs.Valid() && rs.HasNext() && |lit| > 0 && rs.Peek() == lit[0] && ty in {NULL, BOOL, DOUBLE}
    requires forall i :: 0 <= i < |lit| ==> lit[i] != '\0'
    modifies rs, h
    ensures rs.Valid() && old(rs.pos) <= rs.pos
    ensures Agrees(LiteralSpec(rs.json, old(rs.pos), lit, ty, h.accept, old(h.trace)), err, rs.pos, h.trace)
  {
    ghost var p, s := rs.pos, rs.json;
    ghost var target := LiteralSpec(s, p, lit, ty, h.accept, h.trace);
    var c := lit[0];
    rs.AssertNext(lit[0]);
    var i := 1;
    assert s[p..p + 1] == lit[..1];
    while i < |lit|
      invariant 1 <= i <= |lit| && rs.Valid()
      invariant rs.pos == p + i && p + i <= |s| && s[p..p + i] == lit[..i]
      invariant h.trace == old(h.trace)
    {
      if lit[i] != rs.Peek() {
        LiteralMismatch(s, p, lit, i);
        return BAD_VALUE;
      }
      LiteralPrefixStep(s, p, lit, i);
      var _ := rs.Next();
      i := i + 1;
    }
    assert s[p..p + |lit|] == lit by { assert lit[..i] == lit; }
    assert target == Emit(h.accept, h.trace, LiteralEvent(c, ty), p + |lit|, LiteralValue(c, ty));
    var ok;
    match ty {
      case NULL => ok := h.Handle(NullEvent);
      case BOOL => ok := h.Handle(BoolEvent(c == 't'));
      case DOUBLE => ok := h.Handle(DoubleEvent(if c == 'N' then QUIET_NAN else INFINITY));
    }
    assert h.trace == target.trace;
    if !ok {
      return USER_STOPPED;
    }
    return OK;
  }

  /** One more character of the literal matched. */
  lemma {:induction false} LiteralPrefixStep(s: seq<char>, p: nat, lit: seq<char>, i: nat)
    requires i < |lit| && p + i < |s| && s[p..p + i] == lit[..i] && s[p + i] == lit[i]
    ensures s[p..p + i + 1] == lit[..i + 1]
  {
    assert s[p..p + i + 1] == s[p..p + i] + [s[p + i]];
    assert lit[..i + 1] == lit[..i] + [lit[i]];
  }

  /** A character of the literal that is not the one at its place in the text, or the end of the text first. */
  lemma {:induction false} LiteralMismatch(s: seq<char>, p: nat, lit: seq<char>, i: nat)
    requires i < |lit| && lit[i] != '\0' && At(s, p + i) != lit[i]
    ensures p + |lit| > |s| || s[p..p + |lit|] != lit
  {
    if p + |lit| <= |s| {
      assert s[p..p + |lit|][i] == s[p + i];
    }
  }

  /** The digit loop of ParseNumber: push the current character and every digit after it. */
  method PushDigits(rs: StringReadStream, buffer: seq<char>) returns (out: seq<char>)
    requires rs.Valid() && rs.HasNext()
    modifies rs
    ensures rs.Valid() && rs.pos == Digits(rs.json, old(rs.pos) + 1)
    ensures out == buffer + rs.json[old(rs.pos)..rs.pos]
  {
    var c := rs.Next();
    out := buffer + [c];
    while IsDigit(rs.Peek())
      invariant rs.Valid() && old(rs.pos) < rs.pos
      invariant Digits(rs.json, rs.pos) == Digits(rs.json, old(rs.pos) + 1)
      invariant out == buffer + rs.json[old(rs.pos)..rs.pos]
      decreases |rs.json| - rs.pos
    {
      assert rs.json[old(rs.pos)..rs.pos + 1] == rs.json[old(rs.pos)..rs.pos] + [rs.json[rs.pos]];
      c := rs.Next();
      out := out + [c];
    }
  }

  /** The integer part: a lone '0', or a digit 1..9 and its digits; else BAD_VALUE. */
  method ReadInt(rs: StringReadStream, buffer: seq<char>) returns (ok: bool, out: seq<char>)
    requires rs.Valid()
    modifies rs
    ensures rs.Valid() && old(rs.pos) <= rs.pos
    ensures ok <==> ScanInt(rs.json, old(rs.pos)).Some?
    ensures ok ==> rs.pos == ScanInt(rs.json, old(rs.pos)).value && out == buffer + rs.json[old(rs.pos)..rs.pos]
  {
    if rs.Peek() == '0' {
      var c := rs.Next();
      out := buffer + [c];
      assert rs.json[old(rs.pos)..rs.pos] == [c];
    } else {
      if !IsDigit1To9(rs.Peek()) {
        return false, buffer;
      }
      out := PushDigits(rs, buffer);
    }
    ok := true;
  }

  /** The optional fraction: '.' and at least one digit, else BAD_VALUE. */
  method ReadFrac(rs: StringReadStream, buffer: seq<char>) returns (ok: bool, out: seq<char>)
    requires rs.Valid()
    modifies rs
    ensures rs.Valid() && old(rs.pos) <= rs.pos
    ensures ok <==> ScanFrac(rs.json, old(rs.pos)).Some?
    ensures ok ==> rs.pos == ScanFrac(rs.json, old(rs.pos)).value && out == buffer + rs.json[old(rs.pos)..rs.pos]
  {
    out := buffer;
    if rs.Peek() == '.' {
      var c := rs.Next();
      out := out + [c];
      if !IsDigit(rs.Peek()) {
        return false, out;
      }
      ghost var mid := rs.pos;
      out := PushDigits(rs, out);
      assert rs.json[old(rs.pos)..rs.pos] == [c] + rs.json[mid..rs.pos];
    }
    ok := true;
  }

  /** The optional exponent: 'e' or 'E', an optional sign, at least one digit, else BAD_VALUE. */
  method ReadExp(rs: StringReadStream, buffer: seq<char>) returns (ok: bool, out: seq<char>)
    requires rs.Valid()
    modifies rs
    ensures rs.Valid() && old(rs.pos) <= rs.pos
    ensures ok <==> ScanExp(rs.json, old(rs.pos)).Some?
    ensures ok ==> rs.pos == ScanExp(rs.json, old(rs.pos)).value && out == buffer + rs.json[old(rs.pos)..rs.pos]
  {
    out := buffer;
    if rs.Peek() == 'e' || rs.Peek() == 'E' {
      var c := rs.Next();
      out := out + [c];
      if rs.Peek() == '+' || rs.Peek() == '-' {
        c := rs.Next();
        out := out + [c];
      }
      if !IsDigit(rs.Peek()) {
        return false, out;
      }
      ghost var mid := rs.pos;
      assert out == buffer + rs.json[old(rs.pos)..mid];
      out := PushDigits(rs, out);
      assert rs.json[old(rs.pos)..rs.pos] == rs.json[old(rs.pos)..mid] + rs.json[mid..rs.pos];
    }
    ok := true;
  }

  /** The conversion at the end of ParseNumber: stod or stoll, then Double, Int32 or Int64. */
  method Report(rs: StringReadStream, h: Sink, stod: Stod, ghost p: nat, buffer: seq<char>, isDouble: bool)
    returns (err: ParseError)
    requires rs.Valid() && p <= rs.pos
    requires ScanNumber(rs.json, p).Some? && ScanNumber(rs.json, p).value.end == rs.pos
    requires buffer == rs.json[p..rs.pos] && isDouble == ScanNumber(rs.json, p).value.IsDouble()
    modifies h
    ensures Agrees(ConvertSpec(rs.json, p, h.accept, old(h.trace), stod), err, rs.pos, h.trace)
  {
    var ok;
    if isDouble {
      match stod(buffer)
      case None => return NUMBER_TOO_BIG;
      case Some(d) => ok := h.Handle(DoubleEvent(d));
    } else {
      IntegerTextDigits(rs.json, p);
      match Stoll(buffer)
      case None => return NUMBER_TOO_BIG;
      case Some(i64) =>
        if -0x8000_0000 <= i64 <= 0x7FFF_FFFF {
          ok := h.Handle(Int32Event(i64));
        } else {
          ok := h.Handle(Int64Event(i64));
        }
    }
    if !ok {
      return USER_STOPPED;
    }
    return OK;
  }

  /** ParseNumber: NaN and Infinity are literals; everything else is a numeric text. */
  method ParseNumber(rs: StringReadStream, h: Sink, stod: Stod) returns (err: ParseError)
    requires rs.Valid() && rs.HasNext()
    modifies rs, h
    ensures rs.Valid() && old(rs.pos) <= rs.pos
    ensures Agrees(NumberSpec(rs.json, old(rs.pos), h.accept, old(h.trace), stod), err, rs.pos, h.trace)
  {
    if rs.Peek() == 'N' {
      err := ParseLiteral(rs, h, "NaN", DOUBLE);
    } else if rs.Peek() == 'I' {
      err := ParseLiteral(rs, h, "Infinity", DOUBLE);
    } else {
      err := ParseNumeric(rs, h, stod);
    }
  }

  /** The numeric part of ParseNumber: the text is scanned into a buffer, then converted. */
  method ParseNumeric(rs: StringReadStream, h: Sink, stod: Stod) returns (err: ParseError)
    requires rs.Valid()
    modifies rs, h
    ensures rs.Valid() && old(rs.pos) <= rs.pos
    ensures Agrees(ConvertSpec(rs.json, old(rs.pos), h.accept, old(h.trace), stod), err, rs.pos, h.trace)
  {
    ghost var p := rs.pos;
    var ok, buffer, isDouble := ScanNumberText(rs);
    if !ok {
      return BAD_VALUE;
    }
    err := Report(rs, h, stod, p, buffer, isDouble);
  }

  /**
   * Sign, integer part, fraction and exponent, each pushed onto the buffer as it is read;
   * false for BAD_VALUE.
   */
  method ScanNumberText(rs: StringReadStream) returns (ok: bool, buffer: seq<char>, isDouble: bool)
    requires rs.Valid()
    modifies rs
    ensures rs.Valid() && old(rs.pos) <= rs.pos
    ensures ok <==> ScanNumber(rs.json, old(rs.pos)).Some?
    ensures ok ==> rs.pos == ScanNumber(rs.json, old(rs.pos)).value.end
    ensures ok ==> buffer == rs.json[old(rs.pos)..rs.pos]
    ensures ok ==> isDouble == ScanNumber(rs.json, old(rs.pos)).value.IsDouble()
  {
    ghost var p := rs.pos;
    buffer := [];
    if rs.Peek() == '-' {
      var c := rs.Next();
      buffer := buffer + [c];
    }
    assert buffer == rs.json[p..rs.pos];
    isDouble := false;
    ghost var a := rs.pos;
    ok, buffer := ReadInt(rs, buffer);
    if !ok {
      return;
    }
    ghost var b := rs.pos;
    assert ScanInt(rs.json, a) == Some(b);
    SliceJoin(rs.json, p, a, b);
    // expectType becomes NEU_DOUBLE when a fraction or an exponent starts
    if rs.Peek() == '.' {
      isDouble := true;
    }
    ok, buffer := ReadFrac(rs, buffer);
    if !ok {
      return;
    }
    ghost var c := rs.pos;
    assert ScanFrac(rs.json, b) == Some(c);
    SliceJoin(rs.json, p, b, c);
    if rs.Peek() == 'e' || rs.Peek() == 'E' {
      isDouble := true;
    }
    ok, buffer := ReadExp(rs, buffer);
    if !ok {
      return;
    }
    assert ScanExp(rs.json, c) == Some(rs.pos);
    assert ScanNumber(rs.json, p) == Some(Scan(a, b, c, rs.pos));
    SliceJoin(rs.json, p, c, rs.pos);
  }

  /** ParseArray: StartArray, '[', then elements separated by ',' up to ']'. */
  method ParseArray(rs: StringReadStream, h: Sink, stod: Stod) returns (err: ParseError)
    requires rs.Valid() && rs.HasNext() && rs.Peek() == '['
    modifies rs, h
    ensures rs.Valid() && old(rs.pos) <= rs.pos
    ensures Agrees(ArraySpec(rs.json, old(rs.pos), h.accept, old(h.trace), stod), err, rs.pos, h.trace)
    decreases |rs.json| - rs.pos, 2
  {
    ghost var target := ArraySpec(rs.json, rs.pos, h.accept, h.trace, stod);
    var ok := h.Handle(StartArrayEvent);
    if !ok {
      return USER_STOPPED;
    }
    rs.AssertNext('[');
    ParseWhitespace(rs);
    if rs.Peek() == ']' {
      var _ := rs.Next();
      ok := h.Handle(EndArrayEvent);
      if !ok {
        return USER_STOPPED;
      }
      return OK;
    }
    ghost var elems: seq<Value> := [];
    while true
      invariant rs.Valid() && old(rs.pos) < rs.pos
      invariant Elements(rs.json, rs.pos, h.accept, h.trace, stod, elems) == target
      decreases |rs.json| - rs.pos
    {
      var done;
      err, done, elems := ParseElement(rs, h, stod, elems);
      if done {
        return;
      }
    }
  }

  /**
   * One round of ParseArray's loop: the element, then ',' (the loop goes on, with the
   * element kept) or ']' or an error (done).
   */
  method ParseElement(rs: StringReadStream, h: Sink, stod: Stod, ghost elems: seq<Value>)
    returns (err: ParseError, done: bool, ghost elems': seq<Value>)
    requires rs.Valid()
    modifies rs, h
    ensures rs.Valid() && old(rs.pos) <= rs.pos
    ensures done ==> Agrees(Elements(rs.json, old(rs.pos), h.accept, old(h.trace), stod, elems), err, rs.pos, h.trace)
    ensures !done ==> (old(rs.pos) < rs.pos &&
      Elements(rs.json, old(rs.pos), h.accept, old(h.trace), stod, elems) ==
      Elements(rs.json, rs.pos, h.accept, h.trace, stod, elems'))
    decreases |rs.json| - rs.pos, 4
  {
    ghost var q := rs.pos;
    ghost var v := ValueSpec(rs.json, rs.pos, h.accept, h.trace, stod);
    assert Elements(rs.json, q, h.accept, h.trace, stod, elems) == AfterElement(rs.json, q, v, h.accept, stod, elems);
    err := ParseValue(rs, h, stod);
    if err != OK {
      return err, true, elems;
    }
    err, done, elems' := ElementSeparator(rs, h, stod, q, v, elems);
  }

  /** ParseArray's loop after an element was read into v: ',' goes on, ']' closes. */
  method ElementSeparator(rs: StringReadStream, h: Sink, stod: Stod, ghost q: nat, ghost v: Res, ghost elems: seq<Value>)
    returns (err: ParseError, done: bool, ghost elems': seq<Value>)
    requires rs.Valid() && q <= v.pos == rs.pos && v.err == OK && h.trace == v.trace
    modifies rs, h
    ensures rs.Valid() && old(rs.pos) <= rs.pos
    ensures done ==> Agrees(AfterElement(rs.json, q, v, h.accept, stod, elems), err, rs.pos, h.trace)
    ensures !done ==> (old(rs.pos) < rs.pos &&
      AfterElement(rs.json, q, v, h.accept, stod, elems) ==
      Elements(rs.json, rs.pos, h.accept, h.trace, stod, elems'))
  {
    ParseWhitespace(rs);
    var c := rs.Next();
    if c != ',' {
      AfterElementStop(rs.json, q, v, h.accept, stod, elems);
    }
    if c == ',' {
      AfterElementComma(rs.json, q, v, h.accept, stod, elems);
      ParseWhitespace(rs);
      return OK, false, elems + [v.value];
    } else if c == ']' {
      var ok := h.Handle(EndArrayEvent);
      if !ok {
        return USER_STOPPED, true, elems;
      }
      return OK, true, elems;
    } else {
      return MISS_COMMA_OR_SQUARE_BRACKET, true, elems;
    }
  }

  /** ParseObject: StartObject, '{', then key ':' value pairs separated by ',' up to '}'. */
  method ParseObject(rs: StringReadStream, h: Sink, stod: Stod) returns (err: ParseError)
    requires rs.Valid() && rs.HasNext() && rs.Peek() == '{'
    modifies rs, h
    ensures rs.Valid() && old(rs.pos) <= rs.pos
    ensures Agrees(ObjectSpec(rs.json, old(rs.pos), h.accept, old(h.trace), stod), err, rs.pos, h.trace)
    decreases |rs.json| - rs.pos, 2
  {
    ghost var target := ObjectSpec(rs.json, rs.pos, h.accept, h.trace, stod);
    var ok := h.Handle(StartObjectEvent);
    if !ok {
      return USER_STOPPED;
    }
    rs.AssertNext('{');
    ParseWhitespace(rs);
    if rs.Peek() == '}' {
      var _ := rs.Next();
      ok := h.Handle(EndObjectEvent);
      if !ok {
        return USER_STOPPED;
      }
      return OK;
    }
    ghost var members: seq<Member> := [];
    while true
      invariant rs.Valid() && old(rs.pos) < rs.pos
      invariant Members(rs.json, rs.pos, h.accept, h.trace, stod, members) == target
      decreases |rs.json| - rs.pos
    {
      var done;
      err, done, members := ParseMemberRound(rs, h, stod, members);
      if done {
        return;
      }
    }
  }

  /**
   * One round of ParseObject's loop: the member, then ',' (the loop goes on, with the
   * member kept) or '}' or an error (done).
   */
  method ParseMemberRound(rs: StringReadStream, h: Sink, stod: Stod, ghost members: seq<Member>)
    returns (err: ParseError, done: bool, ghost members': seq<Member>)
    requires rs.Valid()
    modifies rs, h
    ensures rs.Valid() && old(rs.pos) <= rs.pos
    ensures done ==> Agrees(Members(rs.json, old(rs.pos), h.accept, old(h.trace), stod, members), err, rs.pos, h.trace)
    ensures !done ==> (old(rs.pos) < rs.pos &&
      Members(rs.json, old(rs.pos), h.accept, old(h.trace), stod, members) ==
      Members(rs.json, rs.pos, h.accept, h.trace, stod, members'))
    decreases |rs.json| - rs.pos, 4
  {
    if rs.Peek() != '"' {
      return MISS_KEY, true, members;
    }
    ghost var q := rs.pos;
    ghost var pair := Pair(rs.json, rs.pos, h.accept, h.trace, stod);
    assert Members(rs.json, q, h.accept, h.trace, stod, members) == AfterMember(rs.json, q, pair, h.accept, stod, members);
    err := ParseMember(rs, h, stod);
    if err != OK {
      return err, true, members;
    }
    err, done, members' := MemberSeparator(rs, h, stod, q, pair, members);
  }

  /** ParseObject's loop after a member was read into pr: ',' goes on, '}' closes. */
  method MemberSeparator(rs: StringReadStream, h: Sink, stod: Stod, ghost q: nat, ghost pr: (Res, Value), ghost members: seq<Member>)
    returns (err: ParseError, done: bool, ghost members': seq<Member>)
    requires rs.Valid() && q < pr.0.pos == rs.pos && pr.0.err == OK && h.trace == pr.0.trace
    modifies rs, h
    ensures rs.Valid() && old(rs.pos) <= rs.pos
    ensures done ==> Agrees(AfterMember(rs.json, q, pr, h.accept, stod, members), err, rs.pos, h.trace)
    ensures !done ==> (old(rs.pos) < rs.pos &&
      AfterMember(rs.json, q, pr, h.accept, stod, members) ==
      Members(rs.json, rs.pos, h.accept, h.trace, stod, members'))
  {
    ghost var target := AfterMember(rs.json, q, pr, h.accept, stod, members);
    ParseWhitespace(rs);
    ghost var q3 := rs.pos;
    var c := rs.Next();
    if c != ',' {
      AfterMemberStop(rs.json, q, pr, h.accept, stod, members);
    }
    if c == ',' {
      AfterMemberComma(rs.json, q, pr, h.accept, stod, members);
      assert rs.pos == Advance(rs.json, q3, 1);
      members' := members + [Member(pr.1, pr.0.value)];
      assert target == Members(rs.json, SkipWs(rs.json, rs.pos), h.accept, h.trace, stod, members');
      ParseWhitespace(rs);
      return OK, false, members';
    } else if c == '}' {
      var ok := h.Handle(EndObjectEvent);
      if !ok {
        return USER_STOPPED, true, members;
      }
      return OK, true, members;
    } else {
      return MISS_COMMA_OR_CURLY_BRACKET, true, members;
    }
  }

  /** The body of ParseObject's loop from the key to the end of the value. */
  method ParseMember(rs: StringReadStream, h: Sink, stod: Stod) returns (err: ParseError)
    requires rs.Valid() && rs.HasNext() && rs.Peek() == '"'
    modifies rs, h
    ensures rs.Valid() && old(rs.pos) <= rs.pos
    ensures Agrees(Pair(rs.json, old(rs.pos), h.accept, old(h.trace), stod).0, err, rs.pos, h.trace)
    decreases |rs.json| - rs.pos, 3
  {
    ghost var target := Pair(rs.json, rs.pos, h.accept, h.trace, stod).0;
    ghost var k := StringSpec(rs.json, rs.pos, true, h.accept, h.trace);
    err := ParseString(rs, h, true);
    if err != OK {
      assert target == k;
      return;
    }
    assert rs.pos == k.pos && h.trace == k.trace;
    ParseWhitespace(rs);
    ghost var q1 := rs.pos;
    var c := rs.Next();
    if c != ':' {
      assert target == Res(MISS_COLON, q1, k.trace, NONE);
      return MISS_COLON;
    }
    ParseWhitespace(rs);
    assert target == ValueSpec(rs.json, rs.pos, h.accept, h.trace, stod);
    err := ParseValue(rs, h, stod);
  }

  /** ParseValue: EXPECT_VALUE at the end, otherwise dispatch on the current character. */
  method ParseValue(rs: StringReadStream, h: Sink, stod: Stod) returns (err: ParseError)
    requires rs.Valid()
    modifies rs, h
    ensures rs.Valid() && old(rs.pos) <= rs.pos
    ensures Agrees(ValueSpec(rs.json, old(rs.pos), h.accept, old(h.trace), stod), err, rs.pos, h.trace)
    decreases |rs.json| - rs.pos, 3
  {
    if !rs.HasNext() {
      return EXPECT_VALUE;
    }
    match rs.Peek()
    case 'n' => err := ParseLiteral(rs, h, "null", NULL);
    case 't' => err := ParseLiteral(rs, h, "true", BOOL);
    case 'f' => err := ParseLiteral(rs, h, "false", BOOL);
    case '"' => err := ParseString(rs, h, false);
    case '[' => err := ParseArray(rs, h, stod);
    case '{' => err := ParseObject(rs, h, stod);
    case _ => err := ParseNumber(rs, h, stod);
  }

  /** Reader::Parse: one value between optional whitespace, and nothing after it. */
  method Parse(rs: StringReadStream, h: Sink, stod: Stod) returns (err: ParseError)
    requires rs.Valid()
    modifies rs, h
    ensures rs.Valid()
    ensures err == ParseSpec(rs.json, old(rs.pos), h.accept, old(h.trace), stod).err
    ensures h.trace == ParseSpec(rs.json, old(rs.pos), h.accept, old(h.trace), stod).trace
  {
    ParseWhitespace(rs);
    err := ParseValue(rs, h, stod);
    if err != OK {
      return;
    }
    ParseWhitespace(rs);
    if rs.HasNext() {
      return ROOT_NOT_SINGULAR;
    }
    return OK;
  }
}
