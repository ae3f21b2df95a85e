// The indenting serialiser of include/neujson/pretty_writer.h. It keeps the compact writer's
// stack of levels and its checks, and puts newlines and copies of an indent unit around
// the separators: keys and array elements start on a line of their own, indented to the
// depth of the container; a non-empty container closes on a line indented to its parent.
// With kFormatSingleLineArray an array stays on one line, its elements separated by ", ".

module Pretty {
  import opened Arith
  import opened Handler
  import opened Values
  import opened WriteStream
  import opened Writer

  /** PrettyFormatOptions. */
  datatype FormatOptions = FormatDefault | FormatSingleLineArray

  /** What the layout depends on besides the stack: the indent unit and the array option. */
  datatype Layout = Layout(indent: seq<char>, singleLineArray: bool)

  /** The characters SetIndent accepts for the indent unit. */
  predicate IsSpace(c: char)
  {
    c == ' ' || c == '\t' || c == '\n' || c == '\r'
  }

  /** n copies of the indent unit, as WriteIndent writes them. */
  function {:induction false} Repeat(unit: seq<char>, n: nat): (t: seq<char>)
    ensures |t| == |unit| * n
  {
    if n == 0 then [] else Repeat(unit, n - 1) + unit
  }

  // ---------------------------------------------------------------- PrettyPrefix

  /**
   * The text PrettyPrefix writes before a value, from the stack as it is before the count
   * goes up; depth is the number of open containers.
   */
  function PrettySeparator(lay: Layout, stack: seq<Level>): seq<char>
  {
    if stack == [] then []
    else
      var level := stack[|stack| - 1];
      if level.inArray then
        (if level.count > 0 then [','] + (if lay.singleLineArray then [' '] else []) else []) +
        (if lay.singleLineArray then [] else ['\n'] + Repeat(lay.indent, |stack|))
      else
        (if level.count > 0 then (if level.count % 2 == 0 then ",\n" else ": ") else "\n") +
        (if level.count % 2 == 0 then Repeat(lay.indent, |stack|) else [])
  }

  /**
   * The layout PrettyPrefix produces in an array: a comma after the first element, then a
   * newline and the indent to the array's depth; on a single line ", " alone.
   */
  lemma {:induction false} ArrayLayout(lay: Layout, stack: seq<Level>)
    requires stack != [] && stack[|stack| - 1].inArray
    ensures !lay.singleLineArray ==>
      PrettySeparator(lay, stack) == (if stack[|stack| - 1].count > 0 then [','] else []) + ['\n'] + Repeat(lay.indent, |stack|)
    ensures lay.singleLineArray ==> PrettySeparator(lay, stack) == (if stack[|stack| - 1].count > 0 then ", " else [])
  {
    if lay.singleLineArray && stack[|stack| - 1].count > 0 {
      assert [','] + [' '] + [] == ", ";
    }
  }

  /**
   * The layout PrettyPrefix produces in an object: a key on a new line (after ",\n" unless
   * it is the first) indented to the object's depth, a value after ": " with no indent.
   */
  lemma {:induction false} ObjectLayout(lay: Layout, stack: seq<Level>)
    requires stack != [] && !stack[|stack| - 1].inArray
    ensures stack[|stack| - 1].count % 2 == 0 ==>
      PrettySeparator(lay, stack) == (if stack[|stack| - 1].count > 0 then ",\n" else "\n") + Repeat(lay.indent, |stack|)
    ensures stack[|stack| - 1].count % 2 == 1 ==> PrettySeparator(lay, stack) == ": "
  {
    if stack[|stack| - 1].count % 2 == 1 {
      assert ": " + [] == ": ";
    }
  }

  /** With no container open, PrettyPrefix writes nothing. */
  lemma {:induction false} RootLayout(lay: Layout)
    ensures PrettySeparator(lay, []) == []
  {
  }

  // ---------------------------------------------------------------- the calls as a step function

  /**
   * EndObject / EndArray: the innermost container must be of the kind being closed, and an
   * object must hold whole key/value pairs. A non-empty container closes on a new line
   * indented to the parent's depth, except an array on a single line.
   */
  function PrettyClose(lay: Layout, st: WState, inArray: bool): (r: Option<Out<WState>>)
  {
    if st.stack == [] then None
    else
      var n := |st.stack| - 1;
      var level := st.stack[n];
      if level.inArray != inArray || (!inArray && level.count % 2 != 0) then None
      else
        var brk := if level.count != 0 && !(inArray && lay.singleLineArray) then ['\n'] + Repeat(lay.indent, n) else [];
        Some(Out(WState(st.stack[..n], st.hasRoot), brk + (if inArray then "]" else "}")))
  }

  /** One handler call on the pretty writer; None where one of the source's assertions fails. */
  function PrettyStep(lay: Layout, st: WState, e: Event, fmt: Format): (r: Option<Out<WState>>)
  {
    if e.EndObjectEvent? then PrettyClose(lay, st, false)
    else if e.EndArrayEvent? then PrettyClose(lay, st, true)
    else if !PrefixOk(st, PrefixType(e)) then None
    else if e.DoubleEvent? && !FormatOk(fmt, e.d) then None
    else
      var st1 := Counted(st);
      var st2 := if e.StartObjectEvent? || e.StartArrayEvent? then
        WState(st1.stack + [Level(e.StartArrayEvent?, 0)], st1.hasRoot) else st1;
      Some(Out(st2, PrettySeparator(lay, st.stack) + Text(e, fmt)))
  }

  /** A call that opens nothing and closes nothing, once PrettyPrefix's assertions hold. */
  lemma {:induction false} PrettyStepScalar(lay: Layout, st: WState, e: Event, fmt: Format)
    requires !e.EndObjectEvent? && !e.EndArrayEvent? && !e.StartObjectEvent? && !e.StartArrayEvent?
    requires PrefixOk(st, PrefixType(e)) && (e.DoubleEvent? ==> FormatOk(fmt, e.d))
    ensures PrettyStep(lay, st, e, fmt) == Some(Out(Counted(st), PrettySeparator(lay, st.stack) + Text(e, fmt)))
  {
  }

  /** The pretty writer's calls as a step function of its state. */
  function PrettyWriterStep(lay: Layout, fmt: Format): (WState, Event) -> Option<Out<WState>>
  {
    (st, e) => PrettyStep(lay, st, e, fmt)
  }

  // ---------------------------------------------------------------- the writer object

  class PrettyWriter {
    var stack: seq<Level>
    var hasRoot: bool
    var options: FormatOptions
    var indent: seq<char>
    const os: StringWriteStream
    const fmt: Format

    /** The constructor: default options and an indent of two spaces. */
    constructor(os: StringWriteStream, fmt: Format)
      ensures this.os == os && this.fmt == fmt
      ensures stack == [] && !hasRoot && options == FormatDefault && indent == "  "
    {
      this.os := os;
      this.fmt := fmt;
      stack := [];
      hasRoot := false;
      options := FormatDefault;
      new;
      InitIndent(' ', 2);
    }

    function State(): WState
      reads this
    {
      WState(stack, hasRoot)
    }

    function Lay(): Layout
      reads this
    {
      Layout(indent, options == FormatSingleLineArray)
    }

    /** InitIndent: the unit is count copies of the character. */
    method InitIndent(c: char, count: nat)
      modifies this
      ensures indent == seq(count, _ => c)
      ensures stack == old(stack) && hasRoot == old(hasRoot) && options == old(options)
    {
      indent := [];
      var i := 0;
      while i < count
        invariant 0 <= i <= count
        invariant indent == seq(i, _ => c)
        invariant stack == old(stack) && hasRoot == old(hasRoot) && options == old(options)
      {
        indent := indent + [c];
        i := i + 1;
      }
    }

    /** SetIndent: only a space, a tab, a newline or a carriage return may be the indent character. */
    method SetIndent(c: char, count: nat)
      requires IsSpace(c)
      modifies this
      ensures indent == seq(count, _ => c) && forall k :: 0 <= k < |indent| ==> IsSpace(indent[k])
      ensures stack == old(stack) && hasRoot == old(hasRoot) && options == old(options)
    {
      InitIndent(c, count);
    }

    method SetFormatOptions(o: FormatOptions)
      modifies this
      ensures options == o
      ensures stack == old(stack) && hasRoot == old(hasRoot) && indent == old(indent)
    {
      options := o;
    }

    /** WriteIndent: the unit, once per open container. */
    method WriteIndent()
      modifies os
      ensures os.buffer == old(os.buffer) + Repeat(indent, |stack|)
    {
      var count := |stack|;
      var i := 0;
      while i < count
        invariant 0 <= i <= count
        invariant os.buffer == old(os.buffer) + Repeat(indent, i)
      {
        os.PutSv(indent);
        i := i + 1;
      }
    }

    /** PrettyPrefix: the separator, newline and indent before a value, the checks, and the count. */
    method PrettyPrefix(ty: Type)
      requires PrefixOk(State(), ty)
      modifies this, os
      ensures State() == Counted(old(State())) && Lay() == old(Lay())
      ensures os.buffer == old(os.buffer) + PrettySeparator(old(Lay()), old(stack))
    {
      if stack != [] {
        var n := |stack| - 1;
        var level := stack[n];
        if level.inArray {
          ArraySeparator();
        } else {
          ObjectSeparator();
        }
        stack := stack[..n] + [Level(level.inArray, level.count + 1)];
      } else {
        hasRoot := true;
      }
    }

    /** PrettyPrefix's text inside an array. */
    method ArraySeparator()
      requires stack != [] && stack[|stack| - 1].inArray
      modifies os
      ensures os.buffer == old(os.buffer) + PrettySeparator(Lay(), stack)
    {
      var single := options == FormatSingleLineArray;
      ghost var b0 := os.buffer;
      ArrayLayout(Lay(), stack);
      if stack[|stack| - 1].count > 0 {
        os.Put(',');
        if single {
          os.Put(' ');
          assert os.buffer == b0 + ", ";
        }
      }
      ghost var comma: seq<char> := if stack[|stack| - 1].count > 0 then [','] else [];
      if !single {
        assert os.buffer == b0 + comma;
        os.Put('\n');
        WriteIndent();
        assert os.buffer == b0 + (comma + ['\n'] + Repeat(indent, |stack|));
      }
    }

    /** PrettyPrefix's text inside an object. */
    method ObjectSeparator()
      requires stack != [] && !stack[|stack| - 1].inArray
      modifies os
      ensures os.buffer == old(os.buffer) + PrettySeparator(Lay(), stack)
    {
      var count := stack[|stack| - 1].count;
      if count > 0 {
        if count % 2 == 0 {
          os.Put(',');
          os.Put('\n');
        } else {
          os.Put(':');
          os.Put(' ');
        }
      } else {
        os.Put('\n');
      }
      if count % 2 == 0 {
        WriteIndent();
      }
    }

    /** EndValue: the text is complete once no container is open. */
    method EndValue(ret: bool) returns (ok: bool)
      modifies os
      ensures ok == ret && os.buffer == old(os.buffer)
    {
      if stack == [] {
        os.Flush();
      }
      ok := ret;
    }

    method Null() returns (ok: bool)
      requires PrefixOk(State(), NULL)
      modifies this, os
      ensures ok && Lay() == old(Lay()) && State() == PrettyStep(old(Lay()), old(State()), NullEvent, fmt).value.st
      ensures os.buffer == old(os.buffer) + PrettyStep(old(Lay()), old(State()), NullEvent, fmt).value.text
    {
      PrettyStepScalar(Lay(), State(), NullEvent, fmt);
      PrettyPrefix(NULL);
      os.PutSv("null");
      ok := EndValue(true);
    }

    method Bool(b: bool) returns (ok: bool)
      requires PrefixOk(State(), BOOL)
      modifies this, os
      ensures ok && Lay() == old(Lay()) && State() == PrettyStep(old(Lay()), old(State()), BoolEvent(b), fmt).value.st
      ensures os.buffer == old(os.buffer) + PrettyStep(old(Lay()), old(State()), BoolEvent(b), fmt).value.text
    {
      PrettyStepScalar(Lay(), State(), BoolEvent(b), fmt);
      PrettyPrefix(BOOL);
      os.PutSv(if b then "true" else "false");
      ok := EndValue(true);
    }

    method Int32(i: I32) returns (ok: bool)
      requires PrefixOk(State(), INT32)
      modifies this, os
      ensures ok && Lay() == old(Lay()) && State() == PrettyStep(old(Lay()), old(State()), Int32Event(i), fmt).value.st
      ensures os.buffer == old(os.buffer) + PrettyStep(old(Lay()), old(State()), Int32Event(i), fmt).value.text
    {
      PrettyStepScalar(Lay(), State(), Int32Event(i), fmt);
      PrettyPrefix(INT32);
      WriteInt32(os, i);
      ok := EndValue(true);
    }

    method Int64(i: I64) returns (ok: bool)
      requires PrefixOk(State(), INT64)
      modifies this, os
      ensures ok && Lay() == old(Lay()) && State() == PrettyStep(old(Lay()), old(State()), Int64Event(i), fmt).value.st
      ensures os.buffer == old(os.buffer) + PrettyStep(old(Lay()), old(State()), Int64Event(i), fmt).value.text
    {
      PrettyStepScalar(Lay(), State(), Int64Event(i), fmt);
      PrettyPrefix(INT64);
      WriteInt64(os, i);
      ok := EndValue(true);
    }

    method Double(d: Double) returns (ok: bool)
      requires PrefixOk(State(), DOUBLE) && FormatOk(fmt, d)
      modifies this, os
      ensures ok && Lay() == old(Lay()) && State() == PrettyStep(old(Lay()), old(State()), DoubleEvent(d), fmt).value.st
      ensures os.buffer == old(os.buffer) + PrettyStep(old(Lay()), old(State()), DoubleEvent(d), fmt).value.text
    {
      PrettyStepScalar(Lay(), State(), DoubleEvent(d), fmt);
      PrettyPrefix(DOUBLE);
      WriteDouble(os, fmt, d);
      ok := EndValue(true);
    }

    /** What String and Key have in common: the prefix, then the quoted, escaped text. */
    method PrefixedString(s: seq<char>)
      requires PrefixOk(State(), STRING)
      modifies this, os
      ensures Lay() == old(Lay()) && State() == Counted(old(State()))
      ensures os.buffer == old(os.buffer) + (PrettySeparator(old(Lay()), old(stack)) + Quoted(s))
    {
      ghost var b0, sep := os.buffer, PrettySeparator(Lay(), stack);
      PrettyPrefix(STRING);
      assert os.buffer == b0 + sep;
      WriteString(os, s);
      assert os.buffer == b0 + sep + Quoted(s) == b0 + (sep + Quoted(s));
    }

    method String(s: seq<char>) returns (ok: bool)
      requires PrefixOk(State(), STRING)
      modifies this, os
      ensures ok && Lay() == old(Lay()) && State() == PrettyStep(old(Lay()), old(State()), StringEvent(s), fmt).value.st
      ensures os.buffer == old(os.buffer) + PrettyStep(old(Lay()), old(State()), StringEvent(s), fmt).value.text
    {
      PrettyStepScalar(Lay(), State(), StringEvent(s), fmt);
      PrefixedString(s);
      ok := EndValue(true);
    }

    method Key(s: seq<char>) returns (ok: bool)
      requires PrefixOk(State(), STRING)
      modifies this, os
      ensures ok && Lay() == old(Lay()) && State() == PrettyStep(old(Lay()), old(State()), KeyEvent(s), fmt).value.st
      ensures os.buffer == old(os.buffer) + PrettyStep(old(Lay()), old(State()), KeyEvent(s), fmt).value.text
    {
      PrettyStepScalar(Lay(), State(), KeyEvent(s), fmt);
      PrefixedString(s);
      ok := EndValue(true);
    }

    method StartObject() returns (ok: bool)
      requires PrettyStep(Lay(), State(), StartObjectEvent, fmt).Some?
      modifies this, os
      ensures ok && Lay() == old(Lay()) && State() == PrettyStep(old(Lay()), old(State()), StartObjectEvent, fmt).value.st
      ensures os.buffer == old(os.buffer) + PrettyStep(old(Lay()), old(State()), StartObjectEvent, fmt).value.text
    {
      PrettyPrefix(OBJECT);
      stack := stack + [Level(false, 0)];
      os.Put('{');
      ok := EndValue(true);
    }

    method EndObject() returns (ok: bool)
      requires PrettyStep(Lay(), State(), EndObjectEvent, fmt).Some?
      modifies this, os
      ensures ok && Lay() == old(Lay()) && State() == PrettyStep(old(Lay()), old(State()), EndObjectEvent, fmt).value.st
      ensures os.buffer == old(os.buffer) + PrettyStep(old(Lay()), old(State()), EndObjectEvent, fmt).value.text
    {
      var empty := stack[|stack| - 1].count == 0;
      stack := stack[..|stack| - 1];
      if !empty {
        os.Put('\n');
        WriteIndent();
      }
      os.Put('}');
      ok := EndValue(true);
      if stack == [] {
        os.Flush();
      }
      ok := true;
    }

    method StartArray() returns (ok: bool)
      requires PrettyStep(Lay(), State(), StartArrayEvent, fmt).Some?
      modifies this, os
      ensures ok && Lay() == old(Lay()) && State() == PrettyStep(old(Lay()), old(State()), StartArrayEvent, fmt).value.st
      ensures os.buffer == old(os.buffer) + PrettyStep(old(Lay()), old(State()), StartArrayEvent, fmt).value.text
    {
      PrettyPrefix(ARRAY);
      stack := stack + [Level(true, 0)];
      os.Put('[');
      ok := EndValue(true);
    }

    method EndArray() returns (ok: bool)
      requires PrettyStep(Lay(), State(), EndArrayEvent, fmt).Some?
      modifies this, os
      ensures ok && Lay() == old(Lay()) && State() == PrettyStep(old(Lay()), old(State()), EndArrayEvent, fmt).value.st
      ensures os.buffer == old(os.buffer) + PrettyStep(old(Lay()), old(State()), EndArrayEvent, fmt).value.text
    {
      var empty := stack[|stack| - 1].count == 0;
      stack := stack[..|stack| - 1];
      if !empty && options != FormatSingleLineArray {
        os.Put('\n');
        WriteIndent();
      }
      os.Put(']');
      ok := EndValue(true);
      if stack == [] {
        os.Flush();
      }
      ok := true;
    }
  }
}
