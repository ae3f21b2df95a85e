// What the pretty writer adds to the compact one is whitespace. Call by call it goes
// through the same states as Writer, and once the space, tab, newline and carriage-return
// characters are taken out its text is Writer's text, as long as the indent unit is made of
// the characters SetIndent accepts. For a whole value the text is given exactly by
// PrettyText, defined on the value: the compact writer's scalar and key texts, with the
// newlines and indents between them.

module PrettyProps {
  import opened Arith
  import opened Handler
  import opened Values
  import opened Writer
  import opened Pretty
  import WriterProps

  /** The text with the four whitespace characters taken out. */
  function {:induction false} Strip(t: seq<char>): (r: seq<char>)
    ensures |r| <= |t|
  {
    if t == [] then [] else (if IsSpace(t[0]) then [] else [t[0]]) + Strip(t[1..])
  }

  predicate Spaces(t: seq<char>)
  {
    forall k :: 0 <= k < |t| ==> IsSpace(t[k])
  }

  lemma {:induction false} StripConcat(a: seq<char>, b: seq<char>)
    ensures Strip(a + b) == Strip(a) + Strip(b)
    decreases |a|
  {
    if a == [] {
      assert a + b == b;
    } else {
      assert (a + b)[0] == a[0] && (a + b)[1..] == a[1..] + b;
      StripConcat(a[1..], b);
    }
  }

  lemma {:induction false} StripSpaces(t: seq<char>)
    requires Spaces(t)
    ensures Strip(t) == []
    decreases |t|
  {
    if t != [] {
      StripSpaces(t[1..]);
    }
  }

  lemma {:induction false} RepeatSpaces(unit: seq<char>, n: nat)
    requires Spaces(unit)
    ensures Spaces(Repeat(unit, n))
    decreases n
  {
    if n > 0 {
      RepeatSpaces(unit, n - 1);
      var r := Repeat(unit, n - 1);
      assert forall k :: 0 <= k < |r + unit| ==> (r + unit)[k] == (if k < |r| then r[k] else unit[k - |r|]);
    }
  }

  lemma {:induction false} StripNonSpace(c: char)
    requires !IsSpace(c)
    ensures Strip([c]) == [c]
  {
    assert [c][1..] == [];
  }

  /** A punctuation mark followed by whitespace strips to the mark. */
  lemma {:induction false} StripMarkThenSpaces(c: char, w: seq<char>)
    requires !IsSpace(c) && Spaces(w)
    ensures Strip([c] + w) == [c]
  {
    StripConcat([c], w);
    StripNonSpace(c);
    StripSpaces(w);
  }

  /** PrettyPrefix's text strips to Prefix's separator. */
  lemma {:induction false} SeparatorSkeleton(lay: Layout, stack: seq<Level>)
    requires Spaces(lay.indent)
    ensures Strip(PrettySeparator(lay, stack)) == Separator(stack)
  {
    if stack != [] {
      var level := stack[|stack| - 1];
      var ind := Repeat(lay.indent, |stack|);
      RepeatSpaces(lay.indent, |stack|);
      if level.inArray {
        ArrayLayout(lay, stack);
        if lay.singleLineArray {
          if level.count > 0 {
            assert ", " == [','] + [' '];
            StripMarkThenSpaces(',', [' ']);
          }
        } else if level.count > 0 {
          assert [','] + ['\n'] + ind == [','] + (['\n'] + ind);
          StripMarkThenSpaces(',', ['\n'] + ind);
        } else {
          assert [] + ['\n'] + ind == ['\n'] + ind;
          StripSpaces(['\n'] + ind);
        }
      } else {
        ObjectLayout(lay, stack);
        if level.count % 2 == 1 {
          assert ": " == [':'] + [' '];
          StripMarkThenSpaces(':', [' ']);
        } else if level.count > 0 {
          assert ",\n" + ind == [','] + (['\n'] + ind);
          StripMarkThenSpaces(',', ['\n'] + ind);
        } else {
          assert "\n" + ind == ['\n'] + ind;
          StripSpaces(['\n'] + ind);
        }
      }
    }
  }

  /**
   * A pretty call goes through where the compact one does, except EndObject on an object
   * with a key and no value, which only the pretty writer refuses.
   */
  lemma {:induction false} StepAgrees(lay: Layout, st: WState, e: Event, fmt: Format)
    ensures PrettyStep(lay, st, e, fmt).Some? <==>
      Step(st, e, fmt).Some? &&
      !(e.EndObjectEvent? && st.stack != [] && st.stack[|st.stack| - 1].count % 2 != 0)
    ensures PrettyStep(lay, st, e, fmt).Some? ==> PrettyStep(lay, st, e, fmt).value.st == Step(st, e, fmt).value.st
  {
  }

  /** Call by call, the pretty text strips to what the compact text strips to. */
  lemma {:induction false} StepSkeleton(lay: Layout, st: WState, e: Event, fmt: Format)
    requires Spaces(lay.indent) && PrettyStep(lay, st, e, fmt).Some?
    ensures Step(st, e, fmt).Some?
    ensures Strip(PrettyStep(lay, st, e, fmt).value.text) == Strip(Step(st, e, fmt).value.text)
  {
    StepAgrees(lay, st, e, fmt);
    if e.EndObjectEvent? || e.EndArrayEvent? {
      var n := |st.stack| - 1;
      var arr := e.EndArrayEvent?;
      var close: seq<char> := if arr then "]" else "}";
      var brk := if st.stack[n].count != 0 && !(arr && lay.singleLineArray) then ['\n'] + Repeat(lay.indent, n) else [];
      assert PrettyStep(lay, st, e, fmt).value.text == brk + close;
      assert Step(st, e, fmt).value.text == close;
      RepeatSpaces(lay.indent, n);
      StripConcat(brk, close);
      StripSpaces(brk);
      assert [] + Strip(close) == Strip(close);
    } else {
      var pt := PrettyStep(lay, st, e, fmt).value.text;
      var ct := Step(st, e, fmt).value.text;
      assert pt == PrettySeparator(lay, st.stack) + Text(e, fmt);
      assert ct == Separator(st.stack) + Text(e, fmt);
      SeparatorSkeleton(lay, st.stack);
      StripConcat(PrettySeparator(lay, st.stack), Text(e, fmt));
      StripConcat(Separator(st.stack), Text(e, fmt));
      SeparatorHasNoSpace(st.stack);
    }
  }

  /** Prefix's separator is a comma, a colon or nothing. */
  lemma {:induction false} SeparatorHasNoSpace(stack: seq<Level>)
    ensures Strip(Separator(stack)) == Separator(stack)
  {
    var sep := Separator(stack);
    if sep != [] {
      assert sep == [sep[0]] && !IsSpace(sep[0]);
      StripNonSpace(sep[0]);
    }
  }

  /** A run that begins with a call that goes through. */
  lemma {:induction false} RunCons<S>(step: (S, Event) -> Option<Out<S>>, st: S, es: seq<Event>)
    requires es != []
    ensures step(st, es[0]).None? ==> Run(step, st, es).None?
    ensures step(st, es[0]).Some? ==>
      Run(step, st, es) == Prepend(step(st, es[0]).value.text, Run(step, step(st, es[0]).value.st, es[1..]))
  {
  }

  /**
   * A run of calls the pretty writer accepts, the compact writer accepts too, ending in the
   * same state, with a text that strips to the same characters.
   */
  lemma {:induction false} RunSkeleton(lay: Layout, fmt: Format, st: WState, es: seq<Event>)
    requires Spaces(lay.indent) && Run(PrettyWriterStep(lay, fmt), st, es).Some?
    ensures Run(WriterStep(fmt), st, es).Some?
    ensures Run(PrettyWriterStep(lay, fmt), st, es).value.st == Run(WriterStep(fmt), st, es).value.st
    ensures Strip(Run(PrettyWriterStep(lay, fmt), st, es).value.text) == Strip(Run(WriterStep(fmt), st, es).value.text)
    decreases |es|
  {
    var ps, cs := PrettyWriterStep(lay, fmt), WriterStep(fmt);
    if es == [] {
      assert Run(ps, st, es) == Some(Out(st, [])) == Run(cs, st, es);
    } else {
      RunCons(ps, st, es);
      RunCons(cs, st, es);
      assert ps(st, es[0]) == PrettyStep(lay, st, es[0], fmt);
      assert cs(st, es[0]) == Step(st, es[0], fmt);
      var p := PrettyStep(lay, st, es[0], fmt).value;
      StepSkeleton(lay, st, es[0], fmt);
      StepAgrees(lay, st, es[0], fmt);
      var c := Step(st, es[0], fmt).value;
      RunSkeleton(lay, fmt, p.st, es[1..]);
      var pr, cr := Run(ps, p.st, es[1..]).value, Run(cs, p.st, es[1..]).value;
      StripConcat(p.text, pr.text);
      StripConcat(c.text, cr.text);
    }
  }

  // ---------------------------------------------------------------- pretty text, by value

  /**
   * The pretty text of a value whose first call finds d containers open. Scalars and keys
   * are written exactly as the compact writer writes them; newlines and indents go only
   * before an element, before a key and before the bracket that closes a non-empty
   * container, and ": " goes between a key and its value.
   */
  function PrettyText(v: Value, lay: Layout, d: nat, fmt: Format): seq<char>
    requires Wf(v)
    decreases v, 1
  {
    match v.tag
    case ARRAY =>
      "[" + ElemsPretty(v.data.elems, lay, d + 1, fmt) +
      (if v.data.elems == [] || lay.singleLineArray then [] else ['\n'] + Repeat(lay.indent, d)) + "]"
    case OBJECT =>
      "{" + MembersPretty(v.data.members, lay, d + 1, fmt) +
      (if v.data.members == [] then [] else ['\n'] + Repeat(lay.indent, d)) + "}"
    case _ => WriterProps.Compact(v, fmt)
  }

  /** What goes before element n of an array at depth d. */
  function ElemBreak(lay: Layout, d: nat, n: nat): seq<char>
  {
    if lay.singleLineArray then (if n == 0 then [] else ", ")
    else (if n == 0 then [] else [',']) + ['\n'] + Repeat(lay.indent, d)
  }

  /** The elements of an array at depth d, each after its break. */
  function ElemsPretty(elems: seq<Value>, lay: Layout, d: nat, fmt: Format): seq<char>
    requires ElemsWf(elems)
    decreases elems, 0
  {
    if elems == [] then []
    else
      var n := |elems| - 1;
      assert ElemsWf(elems[..n]) by {
        assert forall i :: 0 <= i < n ==> elems[..n][i] == elems[i];
      }
      assert elems[n] in elems;
      ElemsPretty(elems[..n], lay, d, fmt) + (ElemBreak(lay, d, n) + PrettyText(elems[n], lay, d, fmt))
  }

  /** The members of an object at depth d. */
  function MembersPretty(ms: seq<Member>, lay: Layout, d: nat, fmt: Format): seq<char>
    requires KeysAreStrings(ms) && MembersWf(ms)
    decreases ms, 0
  {
    if ms == [] then []
    else
      var n := |ms| - 1;
      assert KeysAreStrings(ms[..n]) && MembersWf(ms[..n]) by {
        assert forall i :: 0 <= i < n ==> ms[..n][i] == ms[i];
      }
      var m := ms[n];
      assert MemberWf(m) && m in ms;
      MembersPretty(ms[..n], lay, d, fmt) + MemberPretty(n, m, lay, d, fmt)
  }

  /** The member after n others: a new line (after a comma unless it is the first), the indent, the key, ": ", the value. */
  function MemberPretty(n: nat, m: Member, lay: Layout, d: nat, fmt: Format): seq<char>
    requires m.key.tag == STRING && m.key.data.StringData? && MemberWf(m)
    decreases m, 1
  {
    assert m.value < m;
    (if n == 0 then "\n" else ",\n") + Repeat(lay.indent, d) + Quoted(m.key.data.chars) + ": " + PrettyText(m.value, lay, d, fmt)
  }

  // ---------------------------------------------------------------- runs of the pretty writer

  lemma {:induction false} Regroup(a: seq<char>, b: seq<char>, c: seq<char>, d: seq<char>, e: seq<char>)
    ensures a + b + c + (d + e) == a + (b + c + d + e)
  {
  }

  /** StartObject / StartArray on the pretty writer, once PrettyPrefix's assertions hold. */
  lemma {:induction false} PrettyStepOpen(lay: Layout, st: WState, e: Event, fmt: Format)
    requires (e.StartObjectEvent? || e.StartArrayEvent?) && PrefixOk(st, PrefixType(e))
    ensures PrettyStep(lay, st, e, fmt) == Some(Out(WriterProps.Nest(Counted(st), e.StartArrayEvent?, 0),
      PrettySeparator(lay, st.stack) + (if e.StartArrayEvent? then "[" else "{")))
  {
  }

  /** Inside an array opened from state c, after k elements: the next break, and the close. */
  lemma {:induction false} PrettyArrayFacts(lay: Layout, c: WState, k: nat)
    ensures PrettySeparator(lay, WriterProps.Nest(c, true, k).stack) == ElemBreak(lay, |c.stack| + 1, k)
    ensures PrettyClose(lay, WriterProps.Nest(c, true, k), true) ==
      Some(Out(c, (if k == 0 || lay.singleLineArray then [] else ['\n'] + Repeat(lay.indent, |c.stack|)) + "]"))
  {
    var s := WriterProps.Nest(c, true, k).stack;
    assert s[..|c.stack|] == c.stack;
    ArrayLayout(lay, s);
  }

  /** Inside an object opened from state c, after n members: the break before the next key. */
  lemma {:induction false} PrettyKeyBreak(lay: Layout, c: WState, n: nat)
    ensures PrettySeparator(lay, WriterProps.Nest(c, false, 2 * n).stack) ==
      (if n == 0 then "\n" else ",\n") + Repeat(lay.indent, |c.stack| + 1)
  {
    var s := WriterProps.Nest(c, false, 2 * n).stack;
    assert s[..|c.stack|] == c.stack;
    assert (2 * n) % 2 == 0 && (2 * n == 0 <==> n == 0);
    ObjectLayout(lay, s);
  }

  /** Inside an object opened from state c, after n members and a key: ": " before the value. */
  lemma {:induction false} PrettyColon(lay: Layout, c: WState, n: nat, ty: Type)
    ensures PrettySeparator(lay, WriterProps.Nest(c, false, 2 * n + 1).stack) == ": "
    ensures PrefixOk(WriterProps.Nest(c, false, 2 * n + 1), ty)
  {
    var s := WriterProps.Nest(c, false, 2 * n + 1).stack;
    assert s[..|c.stack|] == c.stack;
    assert (2 * n + 1) % 2 == 1;
    ObjectLayout(lay, s);
  }

  /** Closing an object opened from state c after n members. */
  lemma {:induction false} PrettyObjectClose(lay: Layout, c: WState, n: nat)
    ensures PrettyClose(lay, WriterProps.Nest(c, false, 2 * n), false) ==
      Some(Out(c, (if n == 0 then [] else ['\n'] + Repeat(lay.indent, |c.stack|)) + "}"))
  {
    var s := WriterProps.Nest(c, false, 2 * n).stack;
    assert s[..|c.stack|] == c.stack;
    assert (2 * n) % 2 == 0 && (2 * n == 0 <==> n == 0);
  }

  /**
   * The calls of a value, made where PrettyPrefix accepts its type, go through: they advance
   * the count by one and append PrettyPrefix's text and then the pretty text of the value.
   */
  lemma {:induction false} PrettyValueRun(lay: Layout, st: WState, v: Value, fmt: Format)
    requires Wf(v) && PrefixOk(st, v.tag) && WriterProps.Formats(fmt)
    ensures Run(PrettyWriterStep(lay, fmt), st, Events(v)) ==
      Some(Out(Counted(st), PrettySeparator(lay, st.stack) + PrettyText(v, lay, |st.stack|, fmt)))
    decreases v, 2
  {
    if v.tag == ARRAY {
      PrettyArrayRun(lay, st, v, fmt);
    } else if v.tag == OBJECT {
      PrettyObjectRun(lay, st, v, fmt);
    } else {
      var e := Events(v)[0];
      assert Events(v) == [e];
      assert PrefixType(e) == v.tag;
      assert FormatOk(fmt, if v.tag == DOUBLE then v.data.d else Double(0));
      PrettyStepScalar(lay, st, e, fmt);
      assert Text(e, fmt) == WriterProps.Compact(v, fmt) == PrettyText(v, lay, |st.stack|, fmt);
      WriterProps.RunOne(PrettyWriterStep(lay, fmt), st, e);
    }
  }

  lemma {:induction false} PrettyArrayRun(lay: Layout, st: WState, v: Value, fmt: Format)
    requires Wf(v) && v.tag == ARRAY && PrefixOk(st, ARRAY) && WriterProps.Formats(fmt)
    ensures Run(PrettyWriterStep(lay, fmt), st, Events(v)) ==
      Some(Out(Counted(st), PrettySeparator(lay, st.stack) + PrettyText(v, lay, |st.stack|, fmt)))
    decreases v, 1
  {
    var elems := v.data.elems;
    var d := |st.stack|;
    var brk: seq<char> := if elems == [] || lay.singleLineArray then [] else ['\n'] + Repeat(lay.indent, d);
    assert Events(v) == [StartArrayEvent] + ElemsEvents(elems) + [EndArrayEvent];
    PrettyBracketedElems(lay, st, elems, fmt);
    PrettyArrayText(v, lay, d, fmt, PrettySeparator(lay, st.stack), brk);
  }

  /** StartArray, the elements' calls, EndArray. */
  lemma {:induction false} PrettyBracketedElems(lay: Layout, st: WState, elems: seq<Value>, fmt: Format)
    requires ElemsWf(elems) && PrefixOk(st, ARRAY) && WriterProps.Formats(fmt)
    ensures Run(PrettyWriterStep(lay, fmt), st, [StartArrayEvent] + ElemsEvents(elems) + [EndArrayEvent]) ==
      Some(Out(Counted(st), PrettySeparator(lay, st.stack) + "[" + ElemsPretty(elems, lay, |st.stack| + 1, fmt) +
        ((if elems == [] || lay.singleLineArray then [] else ['\n'] + Repeat(lay.indent, |st.stack|)) + "]")))
    decreases elems, 2
  {
    var c := Counted(st);
    var brk: seq<char> := if elems == [] || lay.singleLineArray then [] else ['\n'] + Repeat(lay.indent, |st.stack|);
    PrettyStepOpen(lay, st, StartArrayEvent, fmt);
    PrettyElemsRun(lay, c, elems, fmt);
    PrettyArrayFacts(lay, c, |elems|);
    WriterProps.Bracket(PrettyWriterStep(lay, fmt), st, StartArrayEvent, ElemsEvents(elems), EndArrayEvent,
      Out(WriterProps.Nest(c, true, 0), PrettySeparator(lay, st.stack) + "["),
      Out(WriterProps.Nest(c, true, |elems|), ElemsPretty(elems, lay, |c.stack| + 1, fmt)), Out(c, brk + "]"));
  }

  lemma {:induction false} PrettyArrayText(v: Value, lay: Layout, d: nat, fmt: Format, sep: seq<char>, brk: seq<char>)
    requires Wf(v) && v.tag == ARRAY
    requires brk == if v.data.elems == [] || lay.singleLineArray then [] else ['\n'] + Repeat(lay.indent, d)
    ensures sep + "[" + ElemsPretty(v.data.elems, lay, d + 1, fmt) + (brk + "]") == sep + PrettyText(v, lay, d, fmt)
  {
    var inner := ElemsPretty(v.data.elems, lay, d + 1, fmt);
    assert PrettyText(v, lay, d, fmt) == "[" + inner + brk + "]";
    Regroup(sep, "[", inner, brk, "]");
  }

  lemma {:induction false} PrettyObjectRun(lay: Layout, st: WState, v: Value, fmt: Format)
    requires Wf(v) && v.tag == OBJECT && PrefixOk(st, OBJECT) && WriterProps.Formats(fmt)
    ensures Run(PrettyWriterStep(lay, fmt), st, Events(v)) ==
      Some(Out(Counted(st), PrettySeparator(lay, st.stack) + PrettyText(v, lay, |st.stack|, fmt)))
    decreases v, 1
  {
    var ms := v.data.members;
    var d := |st.stack|;
    var brk: seq<char> := if ms == [] then [] else ['\n'] + Repeat(lay.indent, d);
    assert MembersWf(ms) by {
      forall i | 0 <= i < |ms| ensures MemberWf(ms[i]) { }
    }
    assert Events(v) == [StartObjectEvent] + MembersEvents(ms) + [EndObjectEvent];
    PrettyBracketedMembers(lay, st, ms, fmt);
    PrettyObjectText(v, lay, d, fmt, PrettySeparator(lay, st.stack), brk);
  }

  /** StartObject, the members' calls, EndObject. */
  lemma {:induction false} PrettyBracketedMembers(lay: Layout, st: WState, ms: seq<Member>, fmt: Format)
    requires KeysAreStrings(ms) && MembersWf(ms) && PrefixOk(st, OBJECT) && WriterProps.Formats(fmt)
    ensures Run(PrettyWriterStep(lay, fmt), st, [StartObjectEvent] + MembersEvents(ms) + [EndObjectEvent]) ==
      Some(Out(Counted(st), PrettySeparator(lay, st.stack) + "{" + MembersPretty(ms, lay, |st.stack| + 1, fmt) +
        ((if ms == [] then [] else ['\n'] + Repeat(lay.indent, |st.stack|)) + "}")))
    decreases ms, 2
  {
    var c := Counted(st);
    var brk: seq<char> := if ms == [] then [] else ['\n'] + Repeat(lay.indent, |st.stack|);
    PrettyStepOpen(lay, st, StartObjectEvent, fmt);
    PrettyMembersRun(lay, c, ms, fmt);
    PrettyObjectClose(lay, c, |ms|);
    WriterProps.Bracket(PrettyWriterStep(lay, fmt), st, StartObjectEvent, MembersEvents(ms), EndObjectEvent,
      Out(WriterProps.Nest(c, false, 0), PrettySeparator(lay, st.stack) + "{"),
      Out(WriterProps.Nest(c, false, 2 * |ms|), MembersPretty(ms, lay, |c.stack| + 1, fmt)), Out(c, brk + "}"));
  }

  lemma {:induction false} PrettyObjectText(v: Value, lay: Layout, d: nat, fmt: Format, sep: seq<char>, brk: seq<char>)
    requires Wf(v) && v.tag == OBJECT
    requires brk == if v.data.members == [] then [] else ['\n'] + Repeat(lay.indent, d)
    ensures sep + "{" + MembersPretty(v.data.members, lay, d + 1, fmt) + (brk + "}") == sep + PrettyText(v, lay, d, fmt)
  {
    var inner := MembersPretty(v.data.members, lay, d + 1, fmt);
    assert PrettyText(v, lay, d, fmt) == "{" + inner + brk + "}";
    Regroup(sep, "{", inner, brk, "}");
  }

  /** The elements' calls inside an array opened from state c. */
  lemma {:induction false} PrettyElemsRun(lay: Layout, c: WState, elems: seq<Value>, fmt: Format)
    requires ElemsWf(elems) && WriterProps.Formats(fmt)
    ensures Run(PrettyWriterStep(lay, fmt), WriterProps.Nest(c, true, 0), ElemsEvents(elems)) ==
      Some(Out(WriterProps.Nest(c, true, |elems|), ElemsPretty(elems, lay, |c.stack| + 1, fmt)))
    decreases elems, 1
  {
    if elems != [] {
      var n := |elems| - 1;
      var front, last := elems[..n], elems[n];
      var inner := WriterProps.Nest(c, true, n);
      ElemsSnoc(elems);
      PrettyElemsRun(lay, c, front, fmt);
      WriterProps.NestFacts(c, true, n);
      PrettyArrayFacts(lay, c, n);
      assert last in elems;
      PrettyValueRun(lay, inner, last, fmt);
      WriterProps.RunSplit(PrettyWriterStep(lay, fmt), WriterProps.Nest(c, true, 0), ElemsEvents(front), Events(last),
        Out(inner, ElemsPretty(front, lay, |c.stack| + 1, fmt)),
        Out(WriterProps.Nest(c, true, n + 1), PrettySeparator(lay, inner.stack) + PrettyText(last, lay, |inner.stack|, fmt)));
    }
  }

  /** The members' calls inside an object opened from state c: two counted calls per member. */
  lemma {:induction false} PrettyMembersRun(lay: Layout, c: WState, ms: seq<Member>, fmt: Format)
    requires KeysAreStrings(ms) && MembersWf(ms) && WriterProps.Formats(fmt)
    ensures Run(PrettyWriterStep(lay, fmt), WriterProps.Nest(c, false, 0), MembersEvents(ms)) ==
      Some(Out(WriterProps.Nest(c, false, 2 * |ms|), MembersPretty(ms, lay, |c.stack| + 1, fmt)))
    decreases ms, 1
  {
    var d := |c.stack| + 1;
    if ms != [] {
      var n := |ms| - 1;
      var m := ms[n];
      MembersSnoc(ms);
      PrettyMembersRun(lay, c, ms[..n], fmt);
      assert m in ms;
      PrettyMemberRun(lay, c, n, m, fmt);
      WriterProps.NestSame(c, false, 2 * n + 2, 2 * |ms|);
      WriterProps.RunSplitInto(PrettyWriterStep(lay, fmt), WriterProps.Nest(c, false, 0), MembersEvents(ms[..n]),
        [KeyEvent(m.key.data.chars)] + Events(m.value), MembersEvents(ms),
        Out(WriterProps.Nest(c, false, 2 * n), MembersPretty(ms[..n], lay, d, fmt)),
        Out(WriterProps.Nest(c, false, 2 * n + 2), MemberPretty(n, m, lay, d, fmt)),
        Out(WriterProps.Nest(c, false, 2 * |ms|), MembersPretty(ms, lay, d, fmt)));
    } else {
      assert Run(PrettyWriterStep(lay, fmt), WriterProps.Nest(c, false, 0), []) == Some(Out(WriterProps.Nest(c, false, 0), []));
    }
  }

  /** One member after n others: its key, then its value. */
  lemma {:induction false} PrettyMemberRun(lay: Layout, c: WState, n: nat, m: Member, fmt: Format)
    requires m.key.tag == STRING && m.key.data.StringData? && Wf(m.value) && WriterProps.Formats(fmt)
    ensures Run(PrettyWriterStep(lay, fmt), WriterProps.Nest(c, false, 2 * n), [KeyEvent(m.key.data.chars)] + Events(m.value)) ==
      Some(Out(WriterProps.Nest(c, false, 2 * n + 2), MemberPretty(n, m, lay, |c.stack| + 1, fmt)))
    decreases m, 0
  {
    var k := m.key.data.chars;
    var d := |c.stack| + 1;
    var brk: seq<char> := (if n == 0 then "\n" else ",\n") + Repeat(lay.indent, d);
    PrettyKeyRun(lay, c, n, k, fmt);
    assert m.value < m;
    PrettyValueAfterKey(lay, c, n, m.value, fmt);
    WriterProps.RunSplit(PrettyWriterStep(lay, fmt), WriterProps.Nest(c, false, 2 * n), [KeyEvent(k)], Events(m.value),
      Out(WriterProps.Nest(c, false, 2 * n + 1), brk + Quoted(k)),
      Out(WriterProps.Nest(c, false, 2 * n + 2), ": " + PrettyText(m.value, lay, d, fmt)));
    PrettyMemberText(n, m, lay, d, fmt, brk);
  }

  lemma {:induction false} PrettyMemberText(n: nat, m: Member, lay: Layout, d: nat, fmt: Format, brk: seq<char>)
    requires m.key.tag == STRING && m.key.data.StringData? && MemberWf(m)
    requires brk == (if n == 0 then "\n" else ",\n") + Repeat(lay.indent, d)
    ensures brk + Quoted(m.key.data.chars) + (": " + PrettyText(m.value, lay, d, fmt)) == MemberPretty(n, m, lay, d, fmt)
  {
  }

  /** The key of a member after n others: its new line and indent, then the quoted key. */
  lemma {:induction false} PrettyKeyRun(lay: Layout, c: WState, n: nat, k: seq<char>, fmt: Format)
    ensures Run(PrettyWriterStep(lay, fmt), WriterProps.Nest(c, false, 2 * n), [KeyEvent(k)]) ==
      Some(Out(WriterProps.Nest(c, false, 2 * n + 1), (if n == 0 then "\n" else ",\n") + Repeat(lay.indent, |c.stack| + 1) + Quoted(k)))
  {
    var st := WriterProps.Nest(c, false, 2 * n);
    assert (2 * n) % 2 == 0;
    WriterProps.NestFacts(c, false, 2 * n);
    PrettyKeyBreak(lay, c, n);
    assert PrefixOk(st, PrefixType(KeyEvent(k)));
    PrettyStepScalar(lay, st, KeyEvent(k), fmt);
    assert Text(KeyEvent(k), fmt) == Quoted(k);
    WriterProps.RunOne(PrettyWriterStep(lay, fmt), st, KeyEvent(k));
  }

  /** The value of a member after its key: ": ", then the value's pretty text. */
  lemma {:induction false} PrettyValueAfterKey(lay: Layout, c: WState, n: nat, v: Value, fmt: Format)
    requires Wf(v) && WriterProps.Formats(fmt)
    ensures Run(PrettyWriterStep(lay, fmt), WriterProps.Nest(c, false, 2 * n + 1), Events(v)) ==
      Some(Out(WriterProps.Nest(c, false, 2 * n + 2), ": " + PrettyText(v, lay, |c.stack| + 1, fmt)))
    decreases v, 3
  {
    WriterProps.NestFacts(c, false, 2 * n + 1);
    PrettyColon(lay, c, n, v.tag);
    PrettyValueRun(lay, WriterProps.Nest(c, false, 2 * n + 1), v, fmt);
  }

  /**
   * A fresh pretty writer fed the calls of writeTo for a value goes through every call,
   * writes exactly the pretty text of the value, and then holds a finished root with
   * nothing open.
   */
  lemma {:induction false} PrettyWriteValue(v: Value, lay: Layout, fmt: Format)
    requires Wf(v) && WriterProps.Formats(fmt)
    ensures Run(PrettyWriterStep(lay, fmt), Fresh, Events(v)) == Some(Out(WState([], true), PrettyText(v, lay, 0, fmt)))
  {
    PrettyValueRun(lay, Fresh, v, fmt);
    assert PrettySeparator(lay, Fresh.stack) + PrettyText(v, lay, 0, fmt) == PrettyText(v, lay, 0, fmt);
  }

  /**
   * With an indent unit of whitespace, the pretty text of a value is its compact text once
   * whitespace is stripped from both, and the pretty writer ends where the compact one does.
   */
  lemma {:induction false} PrettyValue(v: Value, lay: Layout, fmt: Format)
    requires Wf(v) && Spaces(lay.indent) && WriterProps.Formats(fmt)
    ensures Run(PrettyWriterStep(lay, fmt), Fresh, Events(v)) == Some(Out(WState([], true), PrettyText(v, lay, 0, fmt)))
    ensures Strip(PrettyText(v, lay, 0, fmt)) == Strip(WriterProps.Compact(v, fmt))
  {
    PrettyWriteValue(v, lay, fmt);
    WriterProps.WriteValue(v, fmt);
    RunSkeleton(lay, fmt, Fresh, Events(v));
  }
}
