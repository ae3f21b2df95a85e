// The compact serialiser of include/neujson/writer.h: a handler that turns each call into
// text on a StringWriteStream. A stack of open containers decides the separators; the
// source's NEUJSON_ASSERTs become preconditions of the calls (and None in the step function).

module Writer {
  import opened Arith
  import opened Handler
  import opened Values
  import opened Itoa
  import opened DigitCount
  import opened WriteStream
  import ReaderSpec

  /** One open container: array or object, and how many values it has received, keys included. */
  datatype Level = Level(inArray: bool, count: nat)

  /** The open containers, innermost last, and whether a root value has been started. */
  datatype WState = WState(stack: seq<Level>, hasRoot: bool)

  const Fresh: WState := WState([], false)

  /** The formatter behind WriteDouble: the "%.17g" rendering of a finite value, left opaque. */
  type Format = Double -> seq<char>

  // ---------------------------------------------------------------- Prefix

  /**
   * Prefix's assertions: inside an object an even-numbered value is a key and so a string;
   * with no container open there is at most one root.
   */
  predicate PrefixOk(st: WState, ty: Type)
  {
    if st.stack == [] then !st.hasRoot
    else
      var level := st.stack[|st.stack| - 1];
      level.inArray || level.count % 2 == 1 || ty == STRING
  }

  /** What Prefix writes: ',' between array elements and before every key but the first, ':' after a key. */
  function Separator(stack: seq<Level>): (sep: seq<char>)
    ensures |sep| <= 1
    ensures sep == [] <==> stack == [] || stack[|stack| - 1].count == 0
    ensures sep == [':'] <==> stack != [] && !stack[|stack| - 1].inArray && stack[|stack| - 1].count % 2 == 1
  {
    if stack == [] then []
    else
      var level := stack[|stack| - 1];
      if level.count == 0 then []
      else if level.inArray then [',']
      else if level.count % 2 == 0 then [',']
      else [':']
  }

  /** Prefix's bookkeeping: the innermost container counts one more value, or the root is taken. */
  function Counted(st: WState): (r: WState)
    ensures |r.stack| == |st.stack|
    ensures st.stack == [] ==> r == WState([], true)
    ensures st.stack != [] ==> (r.hasRoot == st.hasRoot &&
      r.stack[..|st.stack| - 1] == st.stack[..|st.stack| - 1] &&
      r.stack[|st.stack| - 1] == st.stack[|st.stack| - 1].(count := st.stack[|st.stack| - 1].count + 1))
  {
    if st.stack == [] then WState([], true)
    else
      var n := |st.stack| - 1;
      WState(st.stack[..n] + [Level(st.stack[n].inArray, st.stack[n].count + 1)], st.hasRoot)
  }

  // ---------------------------------------------------------------- value text

  /** An upper-case hexadecimal digit, as "%X" prints it. */
  function HexUpper(d: nat): (c: char)
    requires d < 16
    ensures ReaderSpec.HexDigit(c) == Some(d)
  {
    if d < 10 then (48 + d) as char else (55 + d) as char
  }

  /** "%04X" of a value below 0x10000: four upper-case digits, most significant first. */
  function Hex4Upper(u: nat): (t: seq<char>)
    requires u < 0x10000
    ensures |t| == 4
  {
    [HexUpper(u / 0x1000 % 16), HexUpper(u / 0x100 % 16), HexUpper(u / 0x10 % 16), HexUpper(u % 16)]
  }

  /** The text WriteString emits for one character of the string. */
  function EscapeChar(c: char): (t: seq<char>)
    ensures 1 <= |t| <= 6
    ensures |t| == 1 <==> c != '"' && c != '\\' && c as int >= 0x20
    ensures |t| == 1 ==> t == [c]
    ensures |t| > 1 ==> t[0] == '\\'
  {
    if c == '"' then "\\\""
    else if c as int == 0x08 then "\\b"
    else if c as int == 0x0C then "\\f"
    else if c == '\n' then "\\n"
    else if c == '\r' then "\\r"
    else if c == '\t' then "\\t"
    else if c == '\\' then "\\\\"
    else if c as int < 0x20 then "\\u" + Hex4Upper(c as int)
    else [c]
  }

  /** The escaped body of a string: each character's escape, in order. */
  function {:induction false} Escaped(s: seq<char>): (t: seq<char>)
    ensures |s| <= |t| <= 6 * |s|
  {
    if s == [] then [] else EscapeChar(s[0]) + Escaped(s[1..])
  }

  /** WriteString: the escaped text between double quotes. */
  function Quoted(s: seq<char>): (t: seq<char>)
    ensures |t| >= 2 && t[0] == '"' && t[|t| - 1] == '"'
  {
    ['"'] + Escaped(s) + ['"']
  }

  /** WriteDouble: "Infinity" for either infinity, "NaN", else the formatted text with ".0" when it is all digits. */
  function DoubleText(d: Double, g: seq<char>): (t: seq<char>)
    ensures IsInf(d) ==> t == "Infinity"
    ensures IsNaN(d) ==> t == "NaN"
    ensures !IsNonFinite(d) ==> t == g || t == g + ".0"
  {
    if IsInf(d) then "Infinity"
    else if IsNaN(d) then "NaN"
    else if ReaderSpec.AllDigits(g) then g + ".0"
    else g
  }

  /** The assertion in WriteDouble: the formatted text of a finite value has 1 to 31 characters. */
  predicate FormatOk(fmt: Format, d: Double)
  {
    IsNonFinite(d) || 0 < |fmt(d)| < 32
  }

  /** What the Write* helper for a call emits. */
  function Text(e: Event, fmt: Format): seq<char>
  {
    match e
    case NullEvent => "null"
    case BoolEvent(b) => if b then "true" else "false"
    case Int32Event(i) => SignedDecimal(i)
    case Int64Event(i) => SignedDecimal(i)
    case DoubleEvent(d) => DoubleText(d, fmt(d))
    case StringEvent(s) => Quoted(s)
    case KeyEvent(k) => Quoted(k)
    case StartObjectEvent => "{"
    case EndObjectEvent => "}"
    case StartArrayEvent => "["
    case EndArrayEvent => "]"
  }

  /** The type a call hands to Prefix; the two End calls do not call it. */
  function PrefixType(e: Event): Type
  {
    match e
    case BoolEvent(_) => BOOL
    case Int32Event(_) => INT32
    case Int64Event(_) => INT64
    case DoubleEvent(_) => DOUBLE
    case StringEvent(_) => STRING
    case KeyEvent(_) => STRING
    case StartObjectEvent => OBJECT
    case StartArrayEvent => ARRAY
    case _ => NULL
  }

  // ---------------------------------------------------------------- the calls as a step function

  /** The new state and the text one call appends. */
  datatype Out<S> = Out(st: S, text: seq<char>)

  /** EndObject / EndArray: the innermost container must be of the kind being closed. */
  function Close(st: WState, inArray: bool): (r: Option<Out<WState>>)
    ensures r.Some? <==> st.stack != [] && st.stack[|st.stack| - 1].inArray == inArray
    ensures r.Some? ==> r.value.st == WState(st.stack[..|st.stack| - 1], st.hasRoot)
    ensures r.Some? ==> r.value.text == (if inArray then "]" else "}")
  {
    if st.stack != [] && st.stack[|st.stack| - 1].inArray == inArray then
      Some(Out(WState(st.stack[..|st.stack| - 1], st.hasRoot), if inArray then "]" else "}"))
    else None
  }

  /** One handler call on the writer; None where one of the source's assertions fails. */
  function Step(st: WState, e: Event, fmt: Format): (r: Option<Out<WState>>)
  {
    if e.EndObjectEvent? then Close(st, false)
    else if e.EndArrayEvent? then Close(st, true)
    else if !PrefixOk(st, PrefixType(e)) then None
    else if e.DoubleEvent? && !FormatOk(fmt, e.d) then None
    else
      var st1 := Counted(st);
      var st2 := if e.StartObjectEvent? || e.StartArrayEvent? then
        WState(st1.stack + [Level(e.StartArrayEvent?, 0)], st1.hasRoot) else st1;
      Some(Out(st2, Separator(st.stack) + Text(e, fmt)))
  }

  /** A call that opens nothing and closes nothing, once Prefix's assertions hold. */
  lemma {:induction false} StepScalar(st: WState, e: Event, fmt: Format)
    requires !e.EndObjectEvent? && !e.EndArrayEvent? && !e.StartObjectEvent? && !e.StartArrayEvent?
    requires PrefixOk(st, PrefixType(e)) && (e.DoubleEvent? ==> FormatOk(fmt, e.d))
    ensures Step(st, e, fmt) == Some(Out(Counted(st), Separator(st.stack) + Text(e, fmt)))
  {
  }

  /** StartObject / StartArray, once Prefix's assertions hold: count, then open a level. */
  lemma {:induction false} StepOpen(st: WState, e: Event, fmt: Format)
    requires (e.StartObjectEvent? || e.StartArrayEvent?) && PrefixOk(st, PrefixType(e))
    ensures Step(st, e, fmt) == Some(Out(WState(Counted(st).stack + [Level(e.StartArrayEvent?, 0)], Counted(st).hasRoot),
      Separator(st.stack) + (if e.StartArrayEvent? then "[" else "{")))
  {
  }

  lemma {:induction false} AppendAssoc(a: seq<char>, b: seq<char>, c: seq<char>)
    ensures a + b + c == a + (b + c)
  {
  }

  /** The writer's calls as a step function of its state. */
  function WriterStep(fmt: Format): (WState, Event) -> Option<Out<WState>>
  {
    (st, e) => Step(st, e, fmt)
  }

  /** Prepending the text of earlier calls to the outcome of later ones. */
  function Prepend<S>(t: seq<char>, o: Option<Out<S>>): Option<Out<S>>
  {
    match o
    case None => None
    case Some(x) => Some(Out(x.st, t + x.text))
  }

  /**
   * A run of calls on a serialiser whose calls are step: the final state and all the text
   * appended, or None once an assertion fails.
   */
  function Run<S>(step: (S, Event) -> Option<Out<S>>, st: S, es: seq<Event>): Option<Out<S>>
    decreases |es|, 0
  {
    if es == [] then Some(Out(st, [])) else RunAfter(step, step(st, es[0]), es[1..])
  }

  function RunAfter<S>(step: (S, Event) -> Option<Out<S>>, o: Option<Out<S>>, es: seq<Event>): Option<Out<S>>
    decreases |es|, 1
  {
    match o
    case None => None
    case Some(x) => Prepend(x.text, Run(step, x.st, es))
  }

  // ---------------------------------------------------------------- integer text

  /** The largest length i32toa / i64toa write, so buf[16] and buf[32] are wide enough. */
  lemma {:induction false} SignedDecimalBound(n: int)
    ensures -(TWO_32 / 2) <= n < TWO_32 / 2 ==> |SignedDecimal(n)| <= 11
    ensures -(TWO_64 / 2) <= n < TWO_64 / 2 ==> |SignedDecimal(n)| <= 21
  {
    DigitsBound(if n < 0 then -n else n);
  }

  /** buf[N]{}: N zero characters. */
  function Zeros(n: nat): (z: seq<char>)
    ensures |z| == n && forall i :: 0 <= i < n ==> z[i] == '\0'
  {
    seq(n, _ => '\0')
  }

  /**
   * WriteInt32 as written: i32toa into a zeroed buf[16], then a view of
   * CountDecimalDigit32 of the value cast to uint32_t characters.
   */
  function Int32TextAsWritten(i: I32): (t: seq<char>)
  {
    SignedDecimalBound(i);
    (SignedDecimal(i) + Zeros(16))[..CountDecimalDigit32(ToUnsigned(i, TWO_32))]
  }

  /** WriteInt64 as written: the same with buf[32], i64toa and CountDecimalDigit64. */
  function Int64TextAsWritten(i: I64): (t: seq<char>)
  {
    SignedDecimalBound(i);
    (SignedDecimal(i) + Zeros(32))[..CountDecimalDigit64(ToUnsigned(i, TWO_64))]
  }

  /** The characters of a zeroed buffer after a conversion that wrote text at its start. */
  lemma {:induction false} ZeroedAfter(buf: array<char>, orig: seq<char>, text: seq<char>, end: nat)
    requires orig == Zeros(buf.Length) && end == |text| <= buf.Length
    requires buf[..end] == text && Unchanged(buf, orig, 0, end)
    ensures buf[..] == text + Zeros(buf.Length - end)
  {
    assert forall i :: 0 <= i < end ==> buf[..][i] == buf[..end][i];
  }

  /** The body of WriteInt32 as written, on a fresh zeroed buffer. */
  method WriteInt32AsWritten(i: I32) returns (t: seq<char>)
    ensures t == Int32TextAsWritten(i)
  {
    var buf := new char[16](_ => '\0');
    ghost var orig := buf[..];
    SignedDecimalBound(i);
    var end := I32ToA(i, buf, 0);
    ZeroedAfter(buf, orig, SignedDecimal(i), end);
    assert buf[..] + Zeros(end) == SignedDecimal(i) + Zeros(16);
    t := buf[..CountDecimalDigit32(ToUnsigned(i, TWO_32))];
  }

  /** The body of WriteInt64 as written, on a fresh zeroed buffer. */
  method WriteInt64AsWritten(i: I64) returns (t: seq<char>)
    ensures t == Int64TextAsWritten(i)
  {
    var buf := new char[32](_ => '\0');
    ghost var orig := buf[..];
    SignedDecimalBound(i);
    var end := I64ToA(i, buf, 0);
    ZeroedAfter(buf, orig, SignedDecimal(i), end);
    assert buf[..] + Zeros(end) == SignedDecimal(i) + Zeros(32);
    t := buf[..CountDecimalDigit64(ToUnsigned(i, TWO_64))];
  }

  // ---------------------------------------------------------------- the Write* members both writers share

  /** WriteString's switch for one character. */
  method WriteEscape(os: StringWriteStream, c: char)
    modifies os
    ensures os.buffer == old(os.buffer) + EscapeChar(c)
  {
    var u := c as int;
    if c == '"' {
      os.PutSv("\\\"");
    } else if u == 0x08 {
      os.PutSv("\\b");
    } else if u == 0x0C {
      os.PutSv("\\f");
    } else if c == '\n' {
      os.PutSv("\\n");
    } else if c == '\r' {
      os.PutSv("\\r");
    } else if c == '\t' {
      os.PutSv("\\t");
    } else if c == '\\' {
      os.PutSv("\\\\");
    } else if u < 0x20 {
      os.PutSv("\\u" + Hex4Upper(u));
    } else {
      os.Put(c);
    }
  }

  /** WriteString (and WriteKey): a quote, each character escaped in order, a quote. */
  method WriteString(os: StringWriteStream, s: seq<char>)
    modifies os
    ensures os.buffer == old(os.buffer) + Quoted(s)
  {
    os.Put('"');
    ghost var front := os.buffer;
    var i := 0;
    while i < |s|
      invariant 0 <= i <= |s|
      invariant os.buffer == front + Escaped(s[..i])
    {
      WriteEscape(os, s[i]);
      EscapedPrefix(front, s, i);
      i := i + 1;
    }
    assert s[..i] == s;
    os.Put('"');
    QuotedParts(old(os.buffer), s);
  }

  /** WriteInt32, with the length taken from i32toa's end position. */
  method WriteInt32(os: StringWriteStream, i: I32)
    modifies os
    ensures os.buffer == old(os.buffer) + SignedDecimal(i)
  {
    var buf := new char[16](_ => '\0');
    SignedDecimalBound(i);
    var end := I32ToA(i, buf, 0);
    os.PutSv(buf[..end]);
  }

  /** WriteInt64, with the length taken from i64toa's end position. */
  method WriteInt64(os: StringWriteStream, i: I64)
    modifies os
    ensures os.buffer == old(os.buffer) + SignedDecimal(i)
  {
    var buf := new char[32](_ => '\0');
    SignedDecimalBound(i);
    var end := I64ToA(i, buf, 0);
    os.PutSv(buf[..end]);
  }

  /** WriteDouble on the formatter's text. */
  method WriteDouble(os: StringWriteStream, fmt: Format, d: Double)
    requires FormatOk(fmt, d)
    modifies os
    ensures os.buffer == old(os.buffer) + DoubleText(d, fmt(d))
  {
    var buf: seq<char>;
    if IsInf(d) {
      buf := "Infinity";
    } else if IsNaN(d) {
      buf := "NaN";
    } else {
      buf := fmt(d);
      var k := 0;
      while k < |buf| && ReaderSpec.IsDigit(buf[k])
        invariant 0 <= k <= |buf|
        invariant forall j :: 0 <= j < k ==> ReaderSpec.IsDigit(buf[j])
      {
        k := k + 1;
      }
      if k == |buf| {
        buf := buf + ".0";
      }
    }
    os.PutSv(buf);
  }

  // ---------------------------------------------------------------- the writer object

  class Writer {
    var stack: seq<Level>
    var hasRoot: bool
    const os: StringWriteStream
    const fmt: Format

    constructor(os: StringWriteStream, fmt: Format)
      ensures this.os == os && this.fmt == fmt
      ensures stack == [] && !hasRoot
    {
      this.os := os;
      this.fmt := fmt;
      stack := [];
      hasRoot := false;
    }

    function State(): WState
      reads this
    {
      WState(stack, hasRoot)
    }

    /** The separator before a value, the key-is-a-string and single-root checks, and the count. */
    method Prefix(ty: Type)
      requires PrefixOk(State(), ty)
      modifies this, os
      ensures State() == Counted(old(State()))
      ensures os.buffer == old(os.buffer) + Separator(old(stack))
    {
      if stack != [] {
        var n := |stack| - 1;
        var level := stack[n];
        if level.count > 0 {
          if level.inArray {
            os.Put(',');
          } else {
            os.Put(if level.count % 2 == 0 then ',' else ':');
          }
        }
        stack := stack[..n] + [Level(level.inArray, level.count + 1)];
      } else {
        hasRoot := true;
      }
    }

    /** EndValue: the text is complete once no container is open. */
    method EndValue(ret: bool) returns (ok: bool)
      modifies os
      ensures ok == ret && os.buffer == old(os.buffer)
    {
      if stack == [] {
        os.Flush();
      }
      ok := ret;
    }

    method Null() returns (ok: bool)
      requires Step(State(), NullEvent, fmt).Some?
      modifies this, os
      ensures ok && State() == Step(old(State()), NullEvent, fmt).value.st
      ensures os.buffer == old(os.buffer) + Step(old(State()), NullEvent, fmt).value.text
    {
      StepScalar(State(), NullEvent, fmt);
      Prefix(NULL);
      os.PutSv("null");
      ok := EndValue(true);
    }

    method Bool(b: bool) returns (ok: bool)
      requires Step(State(), BoolEvent(b), fmt).Some?
      modifies this, os
      ensures ok && State() == Step(old(State()), BoolEvent(b), fmt).value.st
      ensures os.buffer == old(os.buffer) + Step(old(State()), BoolEvent(b), fmt).value.text
    {
      StepScalar(State(), BoolEvent(b), fmt);
      Prefix(BOOL);
      os.PutSv(if b then "true" else "false");
      ok := EndValue(true);
    }

    method Int32(i: I32) returns (ok: bool)
      requires Step(State(), Int32Event(i), fmt).Some?
      modifies this, os
      ensures ok && State() == Step(old(State()), Int32Event(i), fmt).value.st
      ensures os.buffer == old(os.buffer) + Step(old(State()), Int32Event(i), fmt).value.text
    {
      StepScalar(State(), Int32Event(i), fmt);
      Prefix(INT32);
      WriteInt32(os, i);
      ok := EndValue(true);
    }

    method Int64(i: I64) returns (ok: bool)
      requires Step(State(), Int64Event(i), fmt).Some?
      modifies this, os
      ensures ok && State() == Step(old(State()), Int64Event(i), fmt).value.st
      ensures os.buffer == old(os.buffer) + Step(old(State()), Int64Event(i), fmt).value.text
    {
      StepScalar(State(), Int64Event(i), fmt);
      Prefix(INT64);
      WriteInt64(os, i);
      ok := EndValue(true);
    }

    method Double(d: Double) returns (ok: bool)
      requires Step(State(), DoubleEvent(d), fmt).Some?
      modifies this, os
      ensures ok && State() == Step(old(State()), DoubleEvent(d), fmt).value.st
      ensures os.buffer == old(os.buffer) + Step(old(State()), DoubleEvent(d), fmt).value.text
    {
      StepScalar(State(), DoubleEvent(d), fmt);
      Prefix(DOUBLE);
      WriteDouble(os, fmt, d);
      ok := EndValue(true);
    }

    method String(s: seq<char>) returns (ok: bool)
      requires Step(State(), StringEvent(s), fmt).Some?
      modifies this, os
      ensures ok && State() == Step(old(State()), StringEvent(s), fmt).value.st
      ensures os.buffer == old(os.buffer) + Step(old(State()), StringEvent(s), fmt).value.text
    {
      ghost var b0, st0 := os.buffer, State();
      StepScalar(st0, StringEvent(s), fmt);
      Prefix(STRING);
      WriteString(os, s);
      ok := EndValue(true);
      AppendAssoc(b0, Separator(st0.stack), Quoted(s));
    }

    method Key(s: seq<char>) returns (ok: bool)
      requires Step(State(), KeyEvent(s), fmt).Some?
      modifies this, os
      ensures ok && State() == Step(old(State()), KeyEvent(s), fmt).value.st
      ensures os.buffer == old(os.buffer) + Step(old(State()), KeyEvent(s), fmt).value.text
    {
      ghost var b0, st0 := os.buffer, State();
      StepScalar(st0, KeyEvent(s), fmt);
      Prefix(STRING);
      WriteString(os, s);
      ok := EndValue(true);
      AppendAssoc(b0, Separator(st0.stack), Quoted(s));
    }

    method StartObject() returns (ok: bool)
      requires Step(State(), StartObjectEvent, fmt).Some?
      modifies this, os
      ensures ok && State() == Step(old(State()), StartObjectEvent, fmt).value.st
      ensures os.buffer == old(os.buffer) + Step(old(State()), StartObjectEvent, fmt).value.text
    {
      Prefix(OBJECT);
      stack := stack + [Level(false, 0)];
      os.Put('{');
      ok := EndValue(true);
    }

    method EndObject() returns (ok: bool)
      requires Step(State(), EndObjectEvent, fmt).Some?
      modifies this, os
      ensures ok && State() == Step(old(State()), EndObjectEvent, fmt).value.st
      ensures os.buffer == old(os.buffer) + Step(old(State()), EndObjectEvent, fmt).value.text
    {
      stack := stack[..|stack| - 1];
      os.Put('}');
      ok := EndValue(true);
    }

    method StartArray() returns (ok: bool)
      requires Step(State(), StartArrayEvent, fmt).Some?
      modifies this, os
      ensures ok && State() == Step(old(State()), StartArrayEvent, fmt).value.st
      ensures os.buffer == old(os.buffer) + Step(old(State()), StartArrayEvent, fmt).value.text
    {
      Prefix(ARRAY);
      stack := stack + [Level(true, 0)];
      os.Put('[');
      ok := EndValue(true);
    }

    method EndArray() returns (ok: bool)
      requires Step(State(), EndArrayEvent, fmt).Some?
      modifies this, os
      ensures ok && State() == Step(old(State()), EndArrayEvent, fmt).value.st
      ensures os.buffer == old(os.buffer) + Step(old(State()), EndArrayEvent, fmt).value.text
    {
      stack := stack[..|stack| - 1];
      os.Put(']');
      ok := EndValue(true);
    }
  }

  /** The escape of one more character of s. */
  lemma {:induction false} EscapedPrefix(front: seq<char>, s: seq<char>, i: nat)
    requires i < |s|
    ensures front + Escaped(s[..i]) + EscapeChar(s[i]) == front + Escaped(s[..i + 1])
  {
    assert s[..i + 1] == s[..i] + [s[i]];
    EscapedSnoc(s[..i], s[i]);
  }

  lemma {:induction false} QuotedParts(b: seq<char>, s: seq<char>)
    ensures b + ['"'] + Escaped(s) + ['"'] == b + Quoted(s)
  {
  }

  /** Escaping distributes over concatenation, one character at a time from the right. */
  lemma {:induction false} EscapedSnoc(s: seq<char>, c: char)
    ensures Escaped(s + [c]) == Escaped(s) + EscapeChar(c)
    decreases |s|
  {
    if s == [] {
      assert [] + [c] == [c];
      assert [c][1..] == [];
    } else {
      assert (s + [c])[0] == s[0];
      assert (s + [c])[1..] == s[1..] + [c];
      EscapedSnoc(s[1..], c);
    }
  }
}
