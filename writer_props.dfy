// What the compact writer produces for whole values, and how its output reads back: the
// events Value::writeTo sends (include/neujson/value.h) drive Writer (include/neujson/writer.h)
// to the compact text of the value, and the reader's string loop (include/neujson/reader.h)
// decodes every string WriteString encodes.

module WriterProps {
  import opened Arith
  import opened Handler
  import opened Values
  import opened Itoa
  import opened DigitCount
  import opened Writer
  import opened ReadStream
  import opened Errors
  import ReaderSpec

  // ---------------------------------------------------------------- compact text, by value

  /** A formatter that meets WriteDouble's assertion for every finite value. */
  ghost predicate Formats(fmt: Format)
  {
    forall d :: FormatOk(fmt, d)
  }

  /** The compact JSON text of a value, defined on the value itself. */
  function Compact(v: Value, fmt: Format): (t: seq<char>)
    requires Wf(v)
    decreases v, 1
  {
    match v.tag
    case NULL => "null"
    case BOOL => if v.data.b then "true" else "false"
    case INT32 => SignedDecimal(v.data.i32)
    case INT64 => SignedDecimal(v.data.i64)
    case DOUBLE => DoubleText(v.data.d, fmt(v.data.d))
    case STRING => Quoted(v.data.chars)
    case ARRAY => "[" + ElemsText(v.data.elems, fmt) + "]"
    case OBJECT => "{" + MembersText(v.data.members, fmt) + "}"
  }

  /** The elements, comma separated. */
  function ElemsText(elems: seq<Value>, fmt: Format): (t: seq<char>)
    requires ElemsWf(elems)
    decreases elems, 0
  {
    if elems == [] then []
    else
      var n := |elems| - 1;
      assert ElemsWf(elems[..n]) by {
        assert forall i :: 0 <= i < n ==> elems[..n][i] == elems[i];
      }
      assert elems[n] in elems;
      ElemsText(elems[..n], fmt) + ((if n == 0 then [] else [',']) + Compact(elems[n], fmt))
  }

  /** The members as "key":value, comma separated. */
  function MembersText(ms: seq<Member>, fmt: Format): (t: seq<char>)
    requires KeysAreStrings(ms) && MembersWf(ms)
    decreases ms, 0
  {
    if ms == [] then []
    else
      var n := |ms| - 1;
      assert KeysAreStrings(ms[..n]) && MembersWf(ms[..n]) by {
        assert forall i :: 0 <= i < n ==> ms[..n][i] == ms[i];
      }
      var m := ms[n];
      assert MemberWf(m) && m in ms;
      assert m.value < m;
      MembersText(ms[..n], fmt) + MemberText(n, m, fmt)
  }

  /** The member after n others: a comma unless it is the first, the quoted key, a colon, the value. */
  function MemberText(n: nat, m: Member, fmt: Format): seq<char>
    requires m.key.tag == STRING && m.key.data.StringData? && MemberWf(m)
    decreases m, 1
  {
    (if n == 0 then [] else [',']) + Quoted(m.key.data.chars) + [':'] + Compact(m.value, fmt)
  }

  // ---------------------------------------------------------------- runs of calls

  /** A run of calls followed by another, once both go through. */
  lemma {:induction false} RunSplit<S>(step: (S, Event) -> Option<Out<S>>, st: S, a: seq<Event>, b: seq<Event>,
    x: Out<S>, y: Out<S>)
    requires Run(step, st, a) == Some(x) && Run(step, x.st, b) == Some(y)
    ensures Run(step, st, a + b) == Some(Out(y.st, x.text + y.text))
    decreases |a|
  {
    if a == [] {
      assert a + b == b && x == Out(st, []);
      assert [] + y.text == y.text;
    } else {
      var z := step(st, a[0]).value;
      var w := Run(step, z.st, a[1..]).value;
      assert x == Out(w.st, z.text + w.text);
      RunSplit(step, z.st, a[1..], b, w, y);
      assert (a + b)[0] == a[0] && (a + b)[1..] == a[1..] + b;
      assert z.text + (w.text + y.text) == x.text + y.text;
    }
  }

  /** RunSplit, with the joined calls and the joined outcome named. */
  lemma {:induction false} RunSplitInto<S>(step: (S, Event) -> Option<Out<S>>, st: S, a: seq<Event>, b: seq<Event>, ab: seq<Event>,
    x: Out<S>, y: Out<S>, z: Out<S>)
    requires Run(step, st, a) == Some(x) && Run(step, x.st, b) == Some(y)
    requires ab == a + b && z == Out(y.st, x.text + y.text)
    ensures Run(step, st, ab) == Some(z)
  {
    RunSplit(step, st, a, b, x, y);
  }

  /** A run of one call is that call. */
  lemma {:induction false} RunOne<S>(step: (S, Event) -> Option<Out<S>>, st: S, e: Event)
    requires step(st, e).Some?
    ensures Run(step, st, [e]) == step(st, e)
  {
    var x := step(st, e).value;
    assert [e][1..] == [];
    assert Run(step, x.st, []) == Some(Out(x.st, []));
    assert x.text + [] == x.text;
  }

  /** An opening call, a run of calls, and a closing call. */
  lemma {:induction false} Bracket<S>(step: (S, Event) -> Option<Out<S>>, st: S, first: Event, inner: seq<Event>, last: Event,
    o1: Out<S>, o2: Out<S>, o3: Out<S>)
    requires step(st, first) == Some(o1) && Run(step, o1.st, inner) == Some(o2) && step(o2.st, last) == Some(o3)
    ensures Run(step, st, [first] + inner + [last]) == Some(Out(o3.st, o1.text + o2.text + o3.text))
  {
    RunOne(step, st, first);
    RunSplit(step, st, [first], inner, o1, o2);
    RunOne(step, o2.st, last);
    RunSplit(step, st, [first] + inner, [last], Out(o2.st, o1.text + o2.text), o3);
  }

  /** The state inside a container opened from state c, after k values. */
  function Nest(c: WState, inArray: bool, k: nat): WState
  {
    WState(c.stack + [Level(inArray, k)], c.hasRoot)
  }

  lemma {:induction false} NestSame(c: WState, inArray: bool, a: nat, b: nat)
    requires a == b
    ensures Nest(c, inArray, a) == Nest(c, inArray, b)
  {
  }

  lemma {:induction false} NestFacts(c: WState, inArray: bool, k: nat)
    ensures Counted(Nest(c, inArray, k)) == Nest(c, inArray, k + 1)
    ensures Separator(Nest(c, inArray, k).stack) ==
      (if k == 0 then [] else if inArray || k % 2 == 0 then [','] else [':'])
    ensures Close(Nest(c, inArray, k), inArray) == Some(Out(c, if inArray then "]" else "}"))
  {
    var s := Nest(c, inArray, k).stack;
    assert s[..|c.stack|] == c.stack;
  }

  /** The scalar calls write the scalar text of their value. */
  lemma {:induction false} ScalarRun(st: WState, v: Value, fmt: Format)
    requires Wf(v) && v.tag !in {ARRAY, OBJECT} && PrefixOk(st, v.tag) && Formats(fmt)
    ensures Run(WriterStep(fmt), st, Events(v)) == Some(Out(Counted(st), Separator(st.stack) + Compact(v, fmt)))
  {
    var e := Events(v)[0];
    assert Events(v) == [e];
    assert PrefixType(e) == v.tag;
    assert FormatOk(fmt, if v.tag == DOUBLE then v.data.d else Double(0));
    StepScalar(st, e, fmt);
    assert Text(e, fmt) == Compact(v, fmt);
    RunOne(WriterStep(fmt), st, e);
  }

  /**
   * The calls of a value, made where Prefix accepts its type, advance the count by one and
   * append the separator Prefix writes and then the compact text of the value.
   */
  lemma {:induction false} ValueRun(st: WState, v: Value, fmt: Format)
    requires Wf(v) && PrefixOk(st, v.tag) && Formats(fmt)
    ensures Run(WriterStep(fmt), st, Events(v)) == Some(Out(Counted(st), Separator(st.stack) + Compact(v, fmt)))
    decreases v, 2
  {
    if v.tag == ARRAY {
      ArrayRun(st, v, fmt);
    } else if v.tag == OBJECT {
      ObjectRun(st, v, fmt);
    } else {
      ScalarRun(st, v, fmt);
    }
  }

  /** Closing the container opened from state c. */
  lemma {:induction false} NestClose(c: WState, inArray: bool, k: nat, fmt: Format)
    ensures Step(Nest(c, inArray, k), if inArray then EndArrayEvent else EndObjectEvent, fmt) ==
      Some(Out(c, if inArray then "]" else "}"))
  {
    NestFacts(c, inArray, k);
  }

  lemma {:induction false} ArrayText(st: WState, v: Value, fmt: Format)
    requires Wf(v) && v.tag == ARRAY
    ensures Separator(st.stack) + "[" + ElemsText(v.data.elems, fmt) + "]" == Separator(st.stack) + Compact(v, fmt)
  {
  }

  lemma {:induction false} ObjectText(st: WState, v: Value, fmt: Format)
    requires Wf(v) && v.tag == OBJECT
    ensures Separator(st.stack) + "{" + MembersText(v.data.members, fmt) + "}" == Separator(st.stack) + Compact(v, fmt)
  {
  }

  lemma {:induction false} ArrayRun(st: WState, v: Value, fmt: Format)
    requires Wf(v) && v.tag == ARRAY && PrefixOk(st, ARRAY) && Formats(fmt)
    ensures Run(WriterStep(fmt), st, Events(v)) == Some(Out(Counted(st), Separator(st.stack) + Compact(v, fmt)))
    decreases v, 1
  {
    var c := Counted(st);
    var elems := v.data.elems;
    StepOpen(st, StartArrayEvent, fmt);
    ElemsRun(c, elems, fmt);
    NestClose(c, true, |elems|, fmt);
    Bracket(WriterStep(fmt), st, StartArrayEvent, ElemsEvents(elems), EndArrayEvent,
      Out(Nest(c, true, 0), Separator(st.stack) + "["), Out(Nest(c, true, |elems|), ElemsText(elems, fmt)), Out(c, "]"));
    ArrayText(st, v, fmt);
  }

  lemma {:induction false} ObjectRun(st: WState, v: Value, fmt: Format)
    requires Wf(v) && v.tag == OBJECT && PrefixOk(st, OBJECT) && Formats(fmt)
    ensures Run(WriterStep(fmt), st, Events(v)) == Some(Out(Counted(st), Separator(st.stack) + Compact(v, fmt)))
    decreases v, 1
  {
    var c := Counted(st);
    var ms := v.data.members;
    StepOpen(st, StartObjectEvent, fmt);
    assert MembersWf(ms) by {
      forall i | 0 <= i < |ms| ensures MemberWf(ms[i]) { }
    }
    MembersRun(c, ms, fmt);
    NestClose(c, false, 2 * |ms|, fmt);
    Bracket(WriterStep(fmt), st, StartObjectEvent, MembersEvents(ms), EndObjectEvent,
      Out(Nest(c, false, 0), Separator(st.stack) + "{"), Out(Nest(c, false, 2 * |ms|), MembersText(ms, fmt)), Out(c, "}"));
    ObjectText(st, v, fmt);
  }

  /** The last element split off: its calls and its text. */
  lemma {:induction false} ElemsLast(elems: seq<Value>, fmt: Format)
    requires ElemsWf(elems) && elems != []
    ensures ElemsWf(elems[..|elems| - 1]) && Wf(elems[|elems| - 1])
    ensures ElemsEvents(elems) == ElemsEvents(elems[..|elems| - 1]) + Events(elems[|elems| - 1])
    ensures ElemsText(elems, fmt) == ElemsText(elems[..|elems| - 1], fmt) +
      ((if |elems| == 1 then [] else [',']) + Compact(elems[|elems| - 1], fmt))
  {
    var n := |elems| - 1;
    assert forall i :: 0 <= i < n ==> elems[..n][i] == elems[i];
  }

  /** The last member split off: the front stays well-formed. */
  lemma {:induction false} MembersFront(ms: seq<Member>)
    requires KeysAreStrings(ms) && MembersWf(ms) && ms != []
    ensures KeysAreStrings(ms[..|ms| - 1]) && MembersWf(ms[..|ms| - 1])
    ensures MemberWf(ms[|ms| - 1]) && ms[|ms| - 1].key.tag == STRING
  {
    var n := |ms| - 1;
    assert forall i :: 0 <= i < n ==> ms[..n][i] == ms[i];
  }

  /** The last member split off: its text. */
  lemma {:induction false} MembersLastText(ms: seq<Member>, fmt: Format)
    requires KeysAreStrings(ms) && MembersWf(ms) && ms != []
    requires KeysAreStrings(ms[..|ms| - 1]) && MembersWf(ms[..|ms| - 1])
    ensures MembersText(ms, fmt) == MembersText(ms[..|ms| - 1], fmt) + MemberText(|ms| - 1, ms[|ms| - 1], fmt)
  {
  }

  /** The elements' calls inside an array opened from state c. */
  lemma {:induction false} ElemsRun(c: WState, elems: seq<Value>, fmt: Format)
    requires ElemsWf(elems) && Formats(fmt)
    ensures Run(WriterStep(fmt), Nest(c, true, 0), ElemsEvents(elems)) ==
      Some(Out(Nest(c, true, |elems|), ElemsText(elems, fmt)))
    decreases elems, 1
  {
    if elems != [] {
      var n := |elems| - 1;
      var front, last := elems[..n], elems[n];
      ElemsLast(elems, fmt);
      ElemsRun(c, front, fmt);
      NestFacts(c, true, n);
      assert last in elems;
      ValueRun(Nest(c, true, n), last, fmt);
      RunSplit(WriterStep(fmt), Nest(c, true, 0), ElemsEvents(front), Events(last),
        Out(Nest(c, true, n), ElemsText(front, fmt)),
        Out(Nest(c, true, n + 1), Separator(Nest(c, true, n).stack) + Compact(last, fmt)));
    }
  }

  /** The members' calls inside an object opened from state c: two counted calls per member. */
  lemma {:induction false} MembersRun(c: WState, ms: seq<Member>, fmt: Format)
    requires KeysAreStrings(ms) && MembersWf(ms) && Formats(fmt)
    ensures Run(WriterStep(fmt), Nest(c, false, 0), MembersEvents(ms)) ==
      Some(Out(Nest(c, false, 2 * |ms|), MembersText(ms, fmt)))
    decreases ms, 1
  {
    if ms != [] {
      var n := |ms| - 1;
      MembersFront(ms);
      MembersRun(c, ms[..n], fmt);
      assert ms[n] in ms;
      MemberRun(c, n, ms[n], fmt);
      MembersRunJoin(WriterStep(fmt), c, ms, n, fmt);
    } else {
      assert MembersText(ms, fmt) == [] && MembersEvents(ms) == [];
      assert Run(WriterStep(fmt), Nest(c, false, 0), []) == Some(Out(Nest(c, false, 0), []));
      assert 2 * |ms| == 0;
    }
  }

  /** The events and the text of n + 1 members: those of the first n, then those of member n. */
  lemma {:induction false} MembersLastAt(ms: seq<Member>, n: nat, fmt: Format)
    requires KeysAreStrings(ms) && MembersWf(ms) && n + 1 == |ms|
    ensures KeysAreStrings(ms[..n]) && MembersWf(ms[..n])
    ensures MembersEvents(ms) == MembersEvents(ms[..n]) + ([KeyEvent(ms[n].key.data.chars)] + Events(ms[n].value))
    ensures MembersText(ms, fmt) == MembersText(ms[..n], fmt) + MemberText(n, ms[n], fmt)
  {
    MembersSnoc(ms);
    MembersLastText(ms, fmt);
  }

  /** The run of the first n members, then that of member n, as the run of all n + 1. */
  lemma {:induction false} MembersRunJoin(step: (WState, Event) -> Option<Out<WState>>, c: WState, ms: seq<Member>,
    n: nat, fmt: Format)
    requires KeysAreStrings(ms) && MembersWf(ms) && n + 1 == |ms|
    requires KeysAreStrings(ms[..n]) && MembersWf(ms[..n])
    requires Run(step, Nest(c, false, 0), MembersEvents(ms[..n])) ==
      Some(Out(Nest(c, false, 2 * n), MembersText(ms[..n], fmt)))
    requires Run(step, Nest(c, false, 2 * n), [KeyEvent(ms[n].key.data.chars)] + Events(ms[n].value)) ==
      Some(Out(Nest(c, false, 2 * n + 2), MemberText(n, ms[n], fmt)))
    ensures Run(step, Nest(c, false, 0), MembersEvents(ms)) ==
      Some(Out(Nest(c, false, 2 * |ms|), MembersText(ms, fmt)))
  {
    var m := ms[n];
    MembersLastAt(ms, n, fmt);
    NestSame(c, false, 2 * n + 2, 2 * |ms|);
    RunSplitInto(step, Nest(c, false, 0), MembersEvents(ms[..n]), [KeyEvent(m.key.data.chars)] + Events(m.value),
      MembersEvents(ms), Out(Nest(c, false, 2 * n), MembersText(ms[..n], fmt)),
      Out(Nest(c, false, 2 * n + 2), MemberText(n, m, fmt)), Out(Nest(c, false, 2 * |ms|), MembersText(ms, fmt)));
  }

  /** One member after n others: its key, then its value. */
  lemma {:induction false} MemberRun(c: WState, n: nat, m: Member, fmt: Format)
    requires m.key.tag == STRING && m.key.data.StringData? && Wf(m.value) && Formats(fmt)
    ensures Run(WriterStep(fmt), Nest(c, false, 2 * n), [KeyEvent(m.key.data.chars)] + Events(m.value)) ==
      Some(Out(Nest(c, false, 2 * n + 2), MemberText(n, m, fmt)))
    decreases m, 0
  {
    var k := m.key.data.chars;
    var sep: seq<char> := if n == 0 then [] else [','];
    KeyRun(c, n, k, fmt);
    assert m.value < m;
    ValueAfterKey(c, n, m.value, fmt);
    RunSplit(WriterStep(fmt), Nest(c, false, 2 * n), [KeyEvent(k)], Events(m.value),
      Out(Nest(c, false, 2 * n + 1), sep + Quoted(k)),
      Out(Nest(c, false, 2 * n + 2), [':'] + Compact(m.value, fmt)));
    assert sep + Quoted(k) + ([':'] + Compact(m.value, fmt)) == MemberText(n, m, fmt);
  }

  /** The key of a member after n others: the comma before it unless it is the first, then the quoted key. */
  lemma {:induction false} KeyRun(c: WState, n: nat, k: seq<char>, fmt: Format)
    requires Formats(fmt)
    ensures Run(WriterStep(fmt), Nest(c, false, 2 * n), [KeyEvent(k)]) ==
      Some(Out(Nest(c, false, 2 * n + 1), (if n == 0 then [] else [',']) + Quoted(k)))
  {
    var st := Nest(c, false, 2 * n);
    NestFacts(c, false, 2 * n);
    assert (2 * n) % 2 == 0;
    assert PrefixOk(st, PrefixType(KeyEvent(k)));
    StepScalar(st, KeyEvent(k), fmt);
    assert Text(KeyEvent(k), fmt) == Quoted(k);
    RunOne(WriterStep(fmt), st, KeyEvent(k));
  }

  /** The value of a member after its key: the colon, then the value's compact text. */
  lemma {:induction false} ValueAfterKey(c: WState, n: nat, v: Value, fmt: Format)
    requires Wf(v) && Formats(fmt)
    ensures Run(WriterStep(fmt), Nest(c, false, 2 * n + 1), Events(v)) ==
      Some(Out(Nest(c, false, 2 * n + 2), [':'] + Compact(v, fmt)))
    decreases v, 3
  {
    NestFacts(c, false, 2 * n + 1);
    assert (2 * n + 1) % 2 == 1;
    assert Separator(Nest(c, false, 2 * n + 1).stack) == [':'];
    ValueRun(Nest(c, false, 2 * n + 1), v, fmt);
  }

  /**
   * A fresh writer fed the calls of writeTo for a value writes exactly the compact text of
   * the value, and then holds a finished root with nothing open.
   */
  lemma {:induction false} WriteValue(v: Value, fmt: Format)
    requires Wf(v) && Formats(fmt)
    ensures Run(WriterStep(fmt), Fresh, Events(v)) == Some(Out(WState([], true), Compact(v, fmt)))
  {
    ValueRun(Fresh, v, fmt);
    assert Separator(Fresh.stack) + Compact(v, fmt) == Compact(v, fmt);
  }

  /** Once the root is complete no further value may start, and there is nothing to close. */
  lemma {:induction false} SingleRoot(e: Event, fmt: Format)
    ensures Step(WState([], true), e, fmt).None?
  {
  }

  /** Inside an object, a call at an even position that is not a string fails the key assertion. */
  lemma {:induction false} KeyMustBeString(st: WState, e: Event, fmt: Format)
    requires st.stack != [] && !st.stack[|st.stack| - 1].inArray && st.stack[|st.stack| - 1].count % 2 == 0
    requires !e.EndObjectEvent? && !e.EndArrayEvent? && PrefixType(e) != STRING
    ensures Step(st, e, fmt).None?
  {
  }

  // ---------------------------------------------------------------- escaping reads back

  /** A value below 0x10000 from its four base-16 digits, most significant first. */
  lemma {:induction false} Base16(u: nat)
    requires u < 0x10000
    ensures u == ((u / 0x1000 % 16 * 16 + u / 0x100 % 16) * 16 + u / 0x10 % 16) * 16 + u % 16
  {
    assert u == u / 0x10 * 16 + u % 16;
    assert u / 0x10 == u / 0x100 * 16 + u / 0x10 % 16;
    assert u / 0x100 == u / 0x1000 * 16 + u / 0x100 % 16;
    assert u / 0x1000 == u / 0x1000 % 16;
  }

  /** HexValue of a run of digits, one digit shorter on the right. */
  lemma {:induction false} HexValueFront(t: seq<char>, k: nat)
    requires 0 < k <= |t| && ReaderSpec.AllHex(t)
    ensures ReaderSpec.AllHex(t[..k]) && ReaderSpec.AllHex(t[..k - 1])
    ensures ReaderSpec.HexValue(t[..k]) ==
      ReaderSpec.HexValue(t[..k - 1]) * 16 + ReaderSpec.HexDigit(t[k - 1]).value
  {
    assert t[..k][..k - 1] == t[..k - 1];
    assert forall i :: 0 <= i < k ==> t[..k][i] == t[i];
  }

  /** The four digits "%04X" prints are read back by ParseHex4 as the value printed. */
  lemma {:induction false} HexReadsBack(u: nat)
    requires u < 0x10000
    ensures ReaderSpec.AllHex(Hex4Upper(u)) && ReaderSpec.HexValue(Hex4Upper(u)) == u
  {
    var t := Hex4Upper(u);
    assert ReaderSpec.AllHex(t);
    HexValueFront(t, 1);
    HexValueFront(t, 2);
    HexValueFront(t, 3);
    HexValueFront(t, 4);
    assert t[..0] == [] && t[..4] == t;
    Base16(u);
  }

  /** How each character is escaped: as itself, as a backslash and a letter, or as \u and four digits. */
  lemma {:induction false} EscapeShape(c: char)
    ensures |EscapeChar(c)| == 1 || |EscapeChar(c)| == 2 || |EscapeChar(c)| == 6
    ensures |EscapeChar(c)| == 2 ==>
      EscapeChar(c)[0] == '\\' && ReaderSpec.SimpleEscape(EscapeChar(c)[1]) == Some(c)
    ensures |EscapeChar(c)| == 6 ==> c as int < 0x20 && EscapeChar(c) == "\\u" + Hex4Upper(c as int)
  {
  }

  /** The reader's string loop over s as a function of where it starts and what it holds. */
  function Loop(s: seq<char>): (nat, seq<char>) -> ReaderSpec.Str
  {
    (p: nat, buf: seq<char>) =>
      if p <= |s| then ReaderSpec.StringBody(s, p, buf) else ReaderSpec.Str(MISS_QUOTATION_MARK, buf, p)
  }

  /** From a, whatever it holds so far, the loop f reads x and goes on at b. */
  ghost predicate Reads(f: (nat, seq<char>) -> ReaderSpec.Str, a: nat, x: seq<char>, b: nat)
  {
    forall buf {:trigger f(a, buf)} :: f(a, buf) == f(b, buf + x)
  }

  lemma {:induction false} ReadsSame(f: (nat, seq<char>) -> ReaderSpec.Str, a: nat, x: seq<char>, b: nat, b': nat)
    requires Reads(f, a, x, b) && b == b'
    ensures Reads(f, a, x, b')
  {
  }

  /** An unescaped character is read as itself. */
  lemma {:induction false} PlainReadsBack(s: seq<char>, p: nat, c: char)
    requires p < |s| && s[p] == c && c != '"' && c != '\\' && c as int >= 0x20
    ensures Reads(Loop(s), p, [c], p + 1)
  {
    forall buf ensures Loop(s)(p, buf) == Loop(s)(p + 1, buf + [c]) {
    }
  }

  /** A backslash and a letter are read as the character the letter stands for. */
  lemma {:induction false} SimpleReadsBack(s: seq<char>, p: nat, c: char)
    requires p + 2 <= |s| && s[p] == '\\' && ReaderSpec.SimpleEscape(s[p + 1]) == Some(c)
    ensures Reads(Loop(s), p, [c], p + 2)
  {
    assert At(s, p + 1) == s[p + 1] && Advance(s, p + 1, 1) == p + 2;
    assert s[p + 1] != 'u';
    forall buf ensures Loop(s)(p, buf) == Loop(s)(p + 2, buf + [c]) {
    }
  }

  /** \u and four digits of a control character are read as that character. */
  lemma {:induction false} UnicodeReadsBack(s: seq<char>, p: nat, c: char)
    requires c as int < 0x20 && p + 6 <= |s| && s[p..p + 6] == "\\u" + Hex4Upper(c as int)
    ensures Reads(Loop(s), p, [c], p + 6)
  {
    assert s[p] == '\\' && s[p + 1] == 'u';
    assert At(s, p + 1) == 'u' && Advance(s, p + 1, 1) == p + 2;
    UnicodeDigits(s, p, c);
    forall buf ensures Loop(s)(p, buf) == Loop(s)(p + 6, buf + [c]) {
      UnicodeStep(s, p, buf, c as int, p + 6);
    }
  }

  /** One \\u escape decoded without error: the loop goes on after it with the code's UTF-8 bytes. */
  lemma {:induction false} UnicodeStep(s: seq<char>, p: nat, buf: seq<char>, code: nat, e: nat)
    requires p + 2 <= |s| && s[p] == '\\' && At(s, p + 1) == 'u' && Advance(s, p + 1, 1) == p + 2
    requires ReaderSpec.UnicodeEscape(s, p + 2) == ReaderSpec.Esc(OK, code, e)
    ensures e <= |s| && ReaderSpec.StringBody(s, p, buf) == ReaderSpec.StringBody(s, e, buf + ReaderSpec.Utf8(code))
  {
  }

  /** The four digits after \u of a control character decode to that character. */
  lemma {:induction false} UnicodeDigits(s: seq<char>, p: nat, c: char)
    requires c as int < 0x20 && p + 6 <= |s| && s[p..p + 6] == "\\u" + Hex4Upper(c as int)
    ensures ReaderSpec.UnicodeEscape(s, p + 2) == ReaderSpec.Esc(OK, c as int, p + 6)
    ensures ReaderSpec.Utf8(c as int) == [c]
  {
    var u := c as int;
    HexReadsBack(u);
    assert s[p + 2..p + 6] == Hex4Upper(u);
    assert ReaderSpec.Hex4(s, p + 2) == Some(u);
  }

  /** The reader's string loop decodes one escaped character back to the character. */
  lemma {:induction false} EscapeReadsBack(s: seq<char>, p: nat, c: char)
    requires HoldsAt(s, p, EscapeChar(c))
    ensures Reads(Loop(s), p, [c], p + |EscapeChar(c)|)
  {
    EscapeShape(c);
    if |EscapeChar(c)| == 1 {
      PlainEscapeReads(s, p, c);
    } else if |EscapeChar(c)| == 2 {
      SimpleEscapeReads(s, p, c);
    } else {
      UnicodeEscapeReads(s, p, c);
    }
  }

  /** EscapeReadsBack for a character written as itself. */
  lemma {:induction false} PlainEscapeReads(s: seq<char>, p: nat, c: char)
    requires HoldsAt(s, p, EscapeChar(c)) && |EscapeChar(c)| == 1
    ensures Reads(Loop(s), p, [c], p + |EscapeChar(c)|)
  {
    var t := EscapeChar(c);
    HoldsIff(s, p, t);
    assert s[p] == t[0];
    PlainReadsBack(s, p, c);
    ReadsSame(Loop(s), p, [c], p + 1, p + |t|);
  }

  /** EscapeReadsBack for a backslash and a letter. */
  lemma {:induction false} SimpleEscapeReads(s: seq<char>, p: nat, c: char)
    requires HoldsAt(s, p, EscapeChar(c)) && |EscapeChar(c)| == 2
    ensures Reads(Loop(s), p, [c], p + |EscapeChar(c)|)
  {
    var t := EscapeChar(c);
    EscapeShape(c);
    HoldsIff(s, p, t);
    assert s[p] == t[0] && s[p + 1] == t[1];
    SimpleReadsBack(s, p, c);
    ReadsSame(Loop(s), p, [c], p + 2, p + |t|);
  }

  /** EscapeReadsBack for \u and four digits. */
  lemma {:induction false} UnicodeEscapeReads(s: seq<char>, p: nat, c: char)
    requires HoldsAt(s, p, EscapeChar(c)) && |EscapeChar(c)| == 6
    ensures Reads(Loop(s), p, [c], p + |EscapeChar(c)|)
  {
    var t := EscapeChar(c);
    EscapeShape(c);
    HoldsIff(s, p, t);
    UnicodeReadsBack(s, p, c);
    ReadsSame(Loop(s), p, [c], p + 6, p + |t|);
  }

  /** Where the escape of each character of x begins, from p on, and where the last one ends. */
  function {:induction false} Ends(p: nat, x: seq<char>): (r: seq<nat>)
    ensures |r| == |x| + 1 && r[0] == p && r[|x|] == p + |Escaped(x)|
    decreases |x|
  {
    if x == [] then [p] else [p] + Ends(p + |EscapeChar(x[0])|, x[1..])
  }

  lemma {:induction false} EndsCons(p: nat, x: seq<char>)
    requires x != []
    ensures Ends(p, x)[1..] == Ends(p + |EscapeChar(x[0])|, x[1..])
  {
  }

  /** The loop f reads each character of x, the k-th from ends[k] to ends[k + 1]. */
  ghost predicate {:induction false} EachReads(f: (nat, seq<char>) -> ReaderSpec.Str, ends: seq<nat>, x: seq<char>)
    decreases |x|
  {
    |ends| == |x| + 1 &&
    (x == [] || (Reads(f, ends[0], [x[0]], ends[1]) && EachReads(f, ends[1..], x[1..])))
  }

  /** s holds the escape of c from q on. */
  predicate EscapeAt(s: seq<char>, q: nat, c: char)
  {
    HoldsAt(s, q, EscapeChar(c))
  }

  /** The loop f reads every escape in s as its character. */
  ghost predicate ReadsEscapes(f: (nat, seq<char>) -> ReaderSpec.Str, s: seq<char>)
  {
    forall q: nat, c: char {:trigger EscapeAt(s, q, c)} :: EscapeAt(s, q, c) ==> Reads(f, q, [c], q + |EscapeChar(c)|)
  }

  /** The reader's string loop reads every escape as its character. */
  lemma {:induction false} LoopReadsEscapes(s: seq<char>)
    ensures ReadsEscapes(Loop(s), s)
  {
    forall q: nat, c: char | EscapeAt(s, q, c) ensures Reads(Loop(s), q, [c], q + |EscapeChar(c)|) {
      EscapeReadsBack(s, q, c);
    }
  }

  /** Each escape in a slice holding Escaped(x) is read as its character. */
  lemma {:induction false} EscapesRead(f: (nat, seq<char>) -> ReaderSpec.Str, s: seq<char>, p: nat, x: seq<char>)
    requires ReadsEscapes(f, s)
    requires HoldsAt(s, p, Escaped(x))
    ensures EachReads(f, Ends(p, x), x)
    decreases |x|
  {
    if x != [] {
      var b := p + |EscapeChar(x[0])|;
      ReadsHead(f, s, p, x);
      EscapesRead(f, s, b, x[1..]);
      EndsCons(p, x);
      EachReadsCons(f, Ends(p, x), x, p, b, Ends(b, x[1..]));
    }
  }

  /** EachReads of a non-empty x from its first step and the rest. */
  lemma {:induction false} EachReadsCons(f: (nat, seq<char>) -> ReaderSpec.Str, ends: seq<nat>, x: seq<char>,
    a: nat, b: nat, rest: seq<nat>)
    requires x != [] && |ends| == |x| + 1 && ends[0] == a && ends[1..] == rest && |rest| > 0 && rest[0] == b
    requires Reads(f, a, [x[0]], b) && EachReads(f, rest, x[1..])
    ensures EachReads(f, ends, x)
  {
  }

  /** The escape x begins with is read as its first character. */
  lemma {:induction false} ReadsHead(f: (nat, seq<char>) -> ReaderSpec.Str, s: seq<char>, p: nat, x: seq<char>)
    requires x != [] && ReadsEscapes(f, s) && HoldsAt(s, p, Escaped(x))
    ensures Reads(f, p, [x[0]], p + |EscapeChar(x[0])|)
    ensures HoldsAt(s, p + |EscapeChar(x[0])|, Escaped(x[1..]))
  {
    HoldsEscaped(s, p, x);
  }

  lemma {:induction false} ReadsCompose(f: (nat, seq<char>) -> ReaderSpec.Str, a: nat, x: seq<char>, b: nat, y: seq<char>, e: nat)
    requires Reads(f, a, x, b) && Reads(f, b, y, e)
    ensures Reads(f, a, x + y, e)
  {
    forall buf ensures f(a, buf) == f(e, buf + (x + y)) {
      assert f(a, buf) == f(b, buf + x);
      assert f(b, buf + x) == f(e, buf + x + y);
      assert buf + x + y == buf + (x + y);
    }
  }

  /** Reading the characters one after the other reads them all. */
  lemma {:induction false} ReadsRun(f: (nat, seq<char>) -> ReaderSpec.Str, ends: seq<nat>, x: seq<char>)
    requires EachReads(f, ends, x)
    ensures Reads(f, ends[0], x, ends[|x|])
    decreases |x|
  {
    if x == [] {
      forall buf ensures f(ends[0], buf) == f(ends[0], buf + x) {
        assert buf + x == buf;
      }
    } else {
      ReadsRun(f, ends[1..], x[1..]);
      ReadsCompose(f, ends[0], [x[0]], ends[1], x[1..], ends[|x|]);
      assert [x[0]] + x[1..] == x;
    }
  }

  /** The closing quote ends the string loop. */
  lemma {:induction false} CloseReadsBack(s: seq<char>, p: nat, buf: seq<char>)
    requires p < |s| && s[p] == '"'
    ensures ReaderSpec.StringBody(s, p, buf) == ReaderSpec.Str(OK, buf, p + 1)
  {
  }

  /** s holds t from p on. */
  predicate {:induction false} HoldsAt(s: seq<char>, p: nat, t: seq<char>)
    decreases |t|, 2
  {
    p + |t| <= |s| && HoldsFirst(s, p, t)
  }

  /** t is empty, or s holds its first character at p and the rest after it. */
  predicate {:induction false} HoldsFirst(s: seq<char>, p: nat, t: seq<char>)
    requires p + |t| <= |s|
    decreases |t|, 1
  {
    t == [] || HoldsNext(s, p, t)
  }

  /** s holds the first character of t at p, and the rest of t after it. */
  predicate {:induction false} HoldsNext(s: seq<char>, p: nat, t: seq<char>)
    requires p + |t| <= |s| && t != []
    decreases |t|, 0
  {
    s[p] == t[0] && HoldsAt(s, p + 1, t[1..])
  }

  /** HoldsAt one character at a time. */
  lemma {:induction false} HoldsUnfold(s: seq<char>, p: nat, t: seq<char>)
    ensures HoldsAt(s, p, t) <==> p + |t| <= |s| && (t == [] || (s[p] == t[0] && HoldsAt(s, p + 1, t[1..])))
  {
    if p + |t| <= |s| {
      assert HoldsAt(s, p, t) <==> HoldsFirst(s, p, t);
      if t != [] {
        assert HoldsFirst(s, p, t) <==> HoldsNext(s, p, t);
      }
    }
  }

  lemma {:induction false} HoldsIff(s: seq<char>, p: nat, t: seq<char>)
    requires p + |t| <= |s|
    ensures HoldsAt(s, p, t) <==> s[p..p + |t|] == t
    decreases |t|
  {
    HoldsUnfold(s, p, t);
    if t != [] {
      HoldsIff(s, p + 1, t[1..]);
      var w := s[p..p + |t|];
      assert w == [s[p]] + s[p + 1..p + |t|];
      assert t == [t[0]] + t[1..];
      if w == t {
        assert w[0] == t[0] && w[1..] == t[1..];
      }
    }
  }

  /** A slice holding a + b holds a, then b. */
  lemma {:induction false} HoldsSplit(s: seq<char>, p: nat, a: seq<char>, b: seq<char>)
    requires HoldsAt(s, p, a + b)
    ensures HoldsAt(s, p, a) && HoldsAt(s, p + |a|, b)
    decreases |a|
  {
    HoldsUnfold(s, p, a + b);
    HoldsUnfold(s, p, a);
    if a == [] {
      assert a + b == b;
    } else {
      assert (a + b)[0] == a[0] && (a + b)[1..] == a[1..] + b;
      HoldsSplit(s, p + 1, a[1..], b);
    }
  }

  /** The escapes of x: that of its first character, then those of the others. */
  lemma {:induction false} HoldsEscaped(s: seq<char>, p: nat, x: seq<char>)
    requires x != [] && HoldsAt(s, p, Escaped(x))
    ensures EscapeAt(s, p, x[0]) && HoldsAt(s, p + |EscapeChar(x[0])|, Escaped(x[1..]))
  {
    assert Escaped(x) == EscapeChar(x[0]) + Escaped(x[1..]);
    HoldsSplit(s, p, EscapeChar(x[0]), Escaped(x[1..]));
  }

  /** Whatever follows it, a string WriteString wrote is parsed back to the same characters. */
  lemma {:induction false} QuotedReadsBack(x: seq<char>, rest: seq<char>)
    ensures var s := Quoted(x) + rest;
      ReaderSpec.StringBody(s, 1, []) == ReaderSpec.Str(OK, x, |Quoted(x)|)
  {
    var s := Quoted(x) + rest;
    assert s[..|Quoted(x)|] == Quoted(x);
    HoldsIff(s, 0, Quoted(x));
    QuotedReadsAt(s, 0, x);
  }

  /** Wherever a text holds WriteString's output, the reader's string loop decodes it back. */
  lemma {:induction false} QuotedReadsAt(s: seq<char>, p: nat, x: seq<char>)
    requires HoldsAt(s, p, Quoted(x))
    ensures ReaderSpec.StringBody(s, p + 1, []) == ReaderSpec.Str(OK, x, p + |Quoted(x)|)
  {
    var b := p + 1 + |Escaped(x)|;
    QuotedHeld(s, p, x);
    LoopRuns(s, p + 1, b, x);
    ReadsClose(s, p + 1, b, p + |Quoted(x)|, x);
  }

  /** The opening quote, the escapes of x, then the closing quote at its place. */
  lemma {:induction false} QuotedHeld(s: seq<char>, p: nat, x: seq<char>)
    requires HoldsAt(s, p, Quoted(x))
    ensures HoldsAt(s, p + 1, Escaped(x)) && |Quoted(x)| == |Escaped(x)| + 2
    ensures p + 1 + |Escaped(x)| < |s| && s[p + 1 + |Escaped(x)|] == '"'
  {
    var n := |Escaped(x)|;
    HoldsSplit(s, p, ['"'] + Escaped(x), ['"']);
    HoldsSplit(s, p, ['"'], Escaped(x));
    HoldsIff(s, p + 1 + n, ['"']);
    assert s[p + 1 + n] == '"';
  }

  /** The loop reads the escapes of x as x, one character at a time. */
  lemma {:induction false} LoopRuns(s: seq<char>, q: nat, b: nat, x: seq<char>)
    requires HoldsAt(s, q, Escaped(x)) && b == q + |Escaped(x)|
    ensures Reads(Loop(s), q, x, b)
  {
    LoopReadsEscapes(s);
    EscapesRead(Loop(s), s, q, x);
    ReadsRun(Loop(s), Ends(q, x), x);
    ReadsBetween(Loop(s), Ends(q, x), x, q, b);
  }

  /** ReadsRun, with the first and the last end named. */
  lemma {:induction false} ReadsBetween(f: (nat, seq<char>) -> ReaderSpec.Str, ends: seq<nat>, x: seq<char>, a: nat, b: nat)
    requires |ends| == |x| + 1 && Reads(f, ends[0], x, ends[|x|]) && a == ends[0] && b == ends[|x|]
    ensures Reads(f, a, x, b)
  {
  }

  /** Reading x from a to b, from an empty buffer. */
  lemma {:induction false} ReadsBody(s: seq<char>, a: nat, b: nat, x: seq<char>)
    requires a <= |s| && b <= |s| && Reads(Loop(s), a, x, b)
    ensures ReaderSpec.StringBody(s, a, []) == ReaderSpec.StringBody(s, b, x)
  {
    var e: seq<char> := [];
    assert e + x == x;
    assert Loop(s)(a, e) == Loop(s)(b, e + x);
    LoopAt(s, a, e);
    LoopAt(s, b, x);
  }

  lemma {:induction false} LoopAt(s: seq<char>, p: nat, buf: seq<char>)
    requires p <= |s|
    ensures Loop(s)(p, buf) == ReaderSpec.StringBody(s, p, buf)
  {
  }

  /** Reading x from a up to a closing quote at b: the string ends one past it. */
  lemma {:induction false} ReadsClose(s: seq<char>, a: nat, b: nat, e: nat, x: seq<char>)
    requires a <= b < |s| && s[b] == '"' && e == b + 1 && Reads(Loop(s), a, x, b)
    ensures ReaderSpec.StringBody(s, a, []) == ReaderSpec.Str(OK, x, e)
  {
    ReadsBody(s, a, b, x);
    CloseReadsBack(s, b, x);
  }

  // ---------------------------------------------------------------- WriteInt32 / WriteInt64 as written

  /** The length WriteInt32 takes: the digits of the value converted to uint32_t. */
  lemma {:induction false} Int32CastDigits(i: I32)
    ensures i >= 0 ==> CountDecimalDigit32(ToUnsigned(i, TWO_32)) == |SignedDecimal(i)|
    ensures i < 0 ==> CountDecimalDigit32(ToUnsigned(i, TWO_32)) == 10
  {
    if i < 0 {
      assert ToUnsigned(i, TWO_32) == TWO_32 + i;
      DigitsAt(TWO_32 + i);
    }
  }

  /** The length WriteInt64 takes: the digits of the value converted to uint64_t. */
  lemma {:induction false} Int64CastDigits(i: I64)
    ensures i >= 0 ==> CountDecimalDigit64(ToUnsigned(i, TWO_64)) == |SignedDecimal(i)|
    ensures i < 0 ==> CountDecimalDigit64(ToUnsigned(i, TWO_64)) == (if i < -8446744073709551616 then 19 else 20)
  {
    if i < 0 {
      assert ToUnsigned(i, TWO_64) == TWO_64 + i;
      DigitsAt(TWO_64 + i);
    }
  }

  /** A prefix of sd padded with zeros is sd exactly when it is as long as sd. */
  lemma {:induction false} PaddedPrefix(sd: seq<char>, n: nat, k: nat)
    requires k <= |sd| + n
    ensures (sd + Zeros(n))[..k] == sd <==> k == |sd|
    ensures k <= |sd| ==> (sd + Zeros(n))[..k] == sd[..k]
    ensures |sd| <= k ==> (sd + Zeros(n))[..k] == sd + Zeros(k - |sd|)
  {
    if k == |sd| {
      assert (sd + Zeros(n))[..k] == sd;
    }
    if k <= |sd| {
      assert (sd + Zeros(n))[..k] == sd[..k];
    }
    if |sd| <= k {
      assert (sd + Zeros(n))[..k] == sd + Zeros(k - |sd|);
    }
  }

  /** The lengths of the text of a negative int32_t. */
  lemma {:induction false} NegativeLength32(i: I32)
    requires i < 0
    ensures |SignedDecimal(i)| == 1 + |Decimal(-(i as int))|
    ensures |SignedDecimal(i)| == 10 <==> -1000000000 < i <= -100000000
    ensures -100000000 < i ==> |SignedDecimal(i)| < 10
    ensures i <= -1000000000 ==> |SignedDecimal(i)| == 11
  {
    DigitsAt(-(i as int));
  }

  /** The lengths of the text of a negative int64_t. */
  lemma {:induction false} NegativeLength64(i: I64)
    requires i < 0
    ensures |SignedDecimal(i)| == 1 + |Decimal(-(i as int))|
    ensures |SignedDecimal(i)| == 20 <==> i <= -1000000000000000000
    ensures |SignedDecimal(i)| <= 20
  {
    DigitsAt(-(i as int));
  }

  /**
   * WriteInt32 as written writes the decimal text exactly for the non-negative values and
   * for the negative values of nine digits, and for no other value.
   */
  lemma {:induction false} Int32AsWrittenIff(i: I32)
    ensures Int32TextAsWritten(i) == SignedDecimal(i) <==> i >= 0 || -1000000000 < i <= -100000000
  {
    Int32CastDigits(i);
    SignedDecimalBound(i);
    PaddedPrefix(SignedDecimal(i), 16, CountDecimalDigit32(ToUnsigned(i, TWO_32)));
    if i < 0 {
      NegativeLength32(i);
    }
  }

  /**
   * What it writes instead: a negative value above -100000000 is followed by NUL characters up
   * to ten, and one at or below -1000000000 loses its last digit.
   */
  lemma {:induction false} Int32AsWrittenNegative(i: I32)
    requires i < 0
    ensures -100000000 < i ==>
      (|SignedDecimal(i)| < 10 && Int32TextAsWritten(i) == SignedDecimal(i) + Zeros(10 - |SignedDecimal(i)|))
    ensures i <= -1000000000 ==> |SignedDecimal(i)| == 11 && Int32TextAsWritten(i) == SignedDecimal(i)[..10]
  {
    Int32CastDigits(i);
    NegativeLength32(i);
    SignedDecimalBound(i);
    PaddedPrefix(SignedDecimal(i), 16, 10);
  }

  /**
   * WriteInt64 as written writes the decimal text exactly for the non-negative values and
   * for the negative values from -8446744073709551616 (where the uint64_t conversion drops
   * to nineteen digits) up to -10^18, and for no other value.
   */
  lemma {:induction false} Int64AsWrittenIff(i: I64)
    ensures Int64TextAsWritten(i) == SignedDecimal(i) <==>
      i >= 0 || -8446744073709551616 <= i <= -1000000000000000000
  {
    Int64CastDigits(i);
    SignedDecimalBound(i);
    PaddedPrefix(SignedDecimal(i), 32, CountDecimalDigit64(ToUnsigned(i, TWO_64)));
    if i < 0 {
      NegativeLength64(i);
    }
  }

  /** The round-trip tests of -1234567890 and -2147483648: one digit short. */
  lemma {:induction false} Int32AsWrittenExamples()
    ensures Int32TextAsWritten(-1) == "-1" + Zeros(8)
    ensures |Int32TextAsWritten(-1234567890)| == 10 && |SignedDecimal(-1234567890)| == 11
    ensures |Int32TextAsWritten(-2147483648)| == 10 && |SignedDecimal(-2147483648)| == 11
  {
    Int32AsWrittenNegative(-1);
    assert SignedDecimal(-1) == "-1";
    Int32AsWrittenNegative(-1234567890);
    DigitsAt(1234567890);
    Int32AsWrittenNegative(-2147483648);
    DigitsAt(2147483648);
  }

  /** INT64_MIN loses its last digit; -1 is followed by eighteen NUL characters. */
  lemma {:induction false} Int64AsWrittenExamples()
    ensures |Int64TextAsWritten(-9223372036854775808)| == 19 && |SignedDecimal(-9223372036854775808)| == 20
    ensures Int64TextAsWritten(-1) == "-1" + Zeros(18)
  {
    assert |Int64TextAsWritten(-9223372036854775808)| == 19 by {
      Int64CastDigits(-9223372036854775808);
    }
    assert |SignedDecimal(-9223372036854775808)| == 20 by {
      DigitsAt(9223372036854775808);
    }
    assert Int64TextAsWritten(-1) == "-1" + Zeros(18) by {
      Int64CastDigits(-1);
      assert SignedDecimal(-1) == "-1";
      PaddedPrefix("-1", 32, 20);
    }
  }

  // ---------------------------------------------------------------- the round-trip tests' texts

  /** Escaping distributes over concatenation. */
  lemma {:induction false} EscapedConcat(a: seq<char>, b: seq<char>)
    ensures Escaped(a + b) == Escaped(a) + Escaped(b)
    decreases |a|
  {
    if a == [] {
      assert a + b == b;
    } else {
      assert (a + b)[0] == a[0] && (a + b)[1..] == a[1..] + b;
      EscapedConcat(a[1..], b);
    }
  }

  /** Text with no quote, backslash or control character is written unchanged. */
  lemma {:induction false} EscapedPlain(s: seq<char>)
    requires forall i :: 0 <= i < |s| ==> s[i] != '"' && s[i] != '\\' && s[i] as int >= 0x20
    ensures Escaped(s) == s
    decreases |s|
  {
    if s != [] {
      EscapedPlain(s[1..]);
    }
  }

  /** A single character is written as its escape. */
  lemma {:induction false} EscapedOne(c: char)
    ensures Escaped([c]) == EscapeChar(c)
  {
    assert [c][1..] == [];
  }

  /** A character between two strings. */
  lemma {:induction false} EscapedAround(a: seq<char>, c: char, b: seq<char>)
    ensures Escaped(a + [c] + b) == Escaped(a) + EscapeChar(c) + Escaped(b)
  {
    EscapedConcat(a + [c], b);
    EscapedConcat(a, [c]);
    EscapedOne(c);
  }

  /** Quoting a plain text around one escaped character. */
  lemma {:induction false} QuotedAround(a: seq<char>, c: char, b: seq<char>)
    requires forall i :: 0 <= i < |a| ==> a[i] != '"' && a[i] != '\\' && a[i] as int >= 0x20
    requires forall i :: 0 <= i < |b| ==> b[i] != '"' && b[i] != '\\' && b[i] as int >= 0x20
    ensures Quoted(a + [c] + b) == ['"'] + (a + EscapeChar(c) + b) + ['"']
  {
    EscapedAround(a, c, b);
    EscapedPlain(a);
    EscapedPlain(b);
  }

  /** The strings of the string round-trip test are written back escaped as they were read. */
  lemma {:induction false} StringTestPlain()
    ensures Quoted("") == "\"\"" && Quoted("Hello") == "\"Hello\""
  {
    EscapedPlain("Hello");
  }

  lemma {:induction false} StringTestNewline()
    ensures Quoted("Hello\nWorld") == "\"Hello\\nWorld\""
  {
    NewlineLiterals();
    QuotedAround("Hello", '\n', "World");
    assert EscapeChar('\n') == "\\n";
  }

  lemma {:induction false} NewlineLiterals()
    ensures "Hello\nWorld" == "Hello" + ['\n'] + "World"
    ensures ['"'] + ("Hello" + "\\n" + "World") + ['"'] == "\"Hello\\nWorld\""
  {
  }

  lemma {:induction false} StringTestNul()
    ensures Quoted("Hello\0World") == "\"Hello\\u0000World\""
  {
    NulLiterals();
    QuotedAround("Hello", '\0', "World");
    assert Hex4Upper(0) == "0000";
    assert EscapeChar('\0') == "\\u0000";
  }

  lemma {:induction false} NulLiterals()
    ensures "Hello\0World" == "Hello" + ['\0'] + "World"
    ensures ['"'] + ("Hello" + "\\u0000" + "World") + ['"'] == "\"Hello\\u0000World\""
  {
  }
}
