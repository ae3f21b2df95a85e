// Properties of the parser specification: what the handler is told, and when it is told
// to stop; the events of a successful parse spell out the value it parsed.

module ReaderProps {
  import opened Handler
  import opened Errors
  import opened Values
  import opened ReadStream
  import opened ReaderSpec

  // ---------------------------------------------------------------- the handler's answers

  /**
   * What a result r says about the handler, given the events t reported before: r.trace
   * extends t, every new event but the last was accepted, the last one was refused exactly
   * when r is USER_STOPPED, and USER_STOPPED only ever follows a new event.
   */
  ghost predicate Honest(accept: seq<Event> -> bool, t: seq<Event>, r: Res)
  {
    |t| <= |r.trace| && r.trace[..|t|] == t &&
    (forall k :: |t| < k < |r.trace| ==> accept(r.trace[..k])) &&
    (|t| < |r.trace| ==> (accept(r.trace) <==> r.err != USER_STOPPED)) &&
    (r.err == USER_STOPPED ==> |t| < |r.trace|)
  }

  lemma {:induction false} HonestEmit(accept: seq<Event> -> bool, t: seq<Event>, e: Event, pos: nat, v: Value)
    ensures Honest(accept, t, Emit(accept, t, e, pos, v))
  {
    assert (t + [e])[..|t|] == t;
  }

  /** A result that did not stop, followed by one more: the two together. */
  lemma {:induction false} HonestThen(accept: seq<Event> -> bool, t: seq<Event>, v: Res, r: Res)
    requires Honest(accept, t, v) && v.err != USER_STOPPED && Honest(accept, v.trace, r)
    ensures Honest(accept, t, r)
  {
    var n, m := |t|, |v.trace|;
    assert r.trace[..m] == v.trace;
    assert r.trace[..n] == r.trace[..m][..n];
    forall k | n < k < |r.trace|
      ensures accept(r.trace[..k])
    {
      if k < m {
        assert r.trace[..k] == v.trace[..k];
      } else if k == m {
        assert r.trace[..k] == v.trace;
      }
    }
    if m == |r.trace| {
      assert r.trace == v.trace;
    }
  }

  lemma {:induction false} LiteralHonest(s: seq<char>, p: nat, lit: seq<char>, ty: Type, accept: seq<Event> -> bool, t: seq<Event>)
    requires p < |s| && |lit| > 0 && s[p] == lit[0] && ty in {NULL, BOOL, DOUBLE}
    ensures Honest(accept, t, LiteralSpec(s, p, lit, ty, accept, t))
  {
    if p + |lit| <= |s| && s[p..p + |lit|] == lit {
      HonestEmit(accept, t, LiteralEvent(lit[0], ty), p + |lit|, LiteralValue(lit[0], ty));
    }
  }

  lemma {:induction false} StringHonest(s: seq<char>, p: nat, isKey: bool, accept: seq<Event> -> bool, t: seq<Event>)
    requires p < |s| && s[p] == '"'
    ensures Honest(accept, t, StringSpec(s, p, isKey, accept, t))
  {
    var b := StringBody(s, p + 1, []);
    if b.err == OK {
      HonestEmit(accept, t, if isKey then KeyEvent(b.chars) else StringEvent(b.chars), b.pos, OfString(b.chars));
    }
  }

  lemma {:induction false} ConvertHonest(s: seq<char>, p: nat, accept: seq<Event> -> bool, t: seq<Event>, stod: Stod)
    requires p <= |s|
    ensures Honest(accept, t, ConvertSpec(s, p, accept, t, stod))
  {
    match ScanNumber(s, p)
    case None =>
    case Some(sc) =>
      var text := s[p..sc.end];
      if sc.IsDouble() {
        match stod(text)
        case None =>
        case Some(d) => HonestEmit(accept, t, DoubleEvent(d), sc.end, OfDouble(d));
      } else {
        IntegerTextDigits(s, p);
        match Stoll(text)
        case None =>
        case Some(i) =>
          if IsI32(i) {
            HonestEmit(accept, t, Int32Event(i), sc.end, OfInt32(i));
          } else {
            HonestEmit(accept, t, Int64Event(i), sc.end, OfInt64(i));
          }
      }
  }

  lemma {:induction false} NumberHonest(s: seq<char>, p: nat, accept: seq<Event> -> bool, t: seq<Event>, stod: Stod)
    requires p < |s|
    ensures Honest(accept, t, NumberSpec(s, p, accept, t, stod))
  {
    if s[p] == 'N' {
      LiteralHonest(s, p, "NaN", DOUBLE, accept, t);
    } else if s[p] == 'I' {
      LiteralHonest(s, p, "Infinity", DOUBLE, accept, t);
    } else {
      ConvertHonest(s, p, accept, t, stod);
    }
  }

  /**
   * Every production of the parser keeps faith with its handler: a refusal stops the parse
   * at once with USER_STOPPED, and USER_STOPPED means the last event was refused.
   */
  lemma {:induction false} ValueHonest(s: seq<char>, p: nat, accept: seq<Event> -> bool, t: seq<Event>, stod: Stod)
    requires p <= |s|
    ensures Honest(accept, t, ValueSpec(s, p, accept, t, stod))
    decreases |s| - p, 3
  {
    if p < |s| {
      match s[p]
      case 'n' => LiteralHonest(s, p, "null", NULL, accept, t);
      case 't' => LiteralHonest(s, p, "true", BOOL, accept, t);
      case 'f' => LiteralHonest(s, p, "false", BOOL, accept, t);
      case '"' => StringHonest(s, p, false, accept, t);
      case '[' => ArrayHonest(s, p, accept, t, stod);
      case '{' => ObjectHonest(s, p, accept, t, stod);
      case _ => NumberHonest(s, p, accept, t, stod);
    }
  }

  lemma {:induction false} ArrayHonest(s: seq<char>, p: nat, accept: seq<Event> -> bool, t: seq<Event>, stod: Stod)
    requires p < |s| && s[p] == '['
    ensures Honest(accept, t, ArraySpec(s, p, accept, t, stod))
    decreases |s| - p, 2
  {
    var t1 := t + [StartArrayEvent];
    var open := Emit(accept, t, StartArrayEvent, p, NONE);
    HonestEmit(accept, t, StartArrayEvent, p, NONE);
    if accept(t1) {
      var q := SkipWs(s, p + 1);
      if At(s, q) == ']' {
        HonestEmit(accept, t1, EndArrayEvent, q + 1, Value(ARRAY, ArrayData([])));
        HonestThen(accept, t, open, ArraySpec(s, p, accept, t, stod));
      } else {
        ElementsHonest(s, q, accept, t1, stod, []);
        HonestThen(accept, t, open, ArraySpec(s, p, accept, t, stod));
      }
    }
  }

  lemma {:induction false} ElementsHonest(s: seq<char>, q: nat, accept: seq<Event> -> bool, t: seq<Event>, stod: Stod, elems: seq<Value>)
    requires q <= |s|
    ensures Honest(accept, t, Elements(s, q, accept, t, stod, elems))
    decreases |s| - q, 4
  {
    ValueHonest(s, q, accept, t, stod);
    AfterElementHonest(s, q, ValueSpec(s, q, accept, t, stod), accept, t, stod, elems);
  }

  lemma {:induction false} AfterElementHonest(s: seq<char>, q: nat, v: Res, accept: seq<Event> -> bool, t: seq<Event>, stod: Stod, elems: seq<Value>)
    requires q <= v.pos <= |s| && Honest(accept, t, v)
    ensures Honest(accept, t, AfterElement(s, q, v, accept, stod, elems))
    decreases |s| - q, 3
  {
    if v.err == OK {
      var r := AfterElement(s, q, v, accept, stod, elems);
      var q1 := SkipWs(s, v.pos);
      var q2 := Advance(s, q1, 1);
      var c := At(s, q1);
      if c == ',' {
        ElementsHonest(s, SkipWs(s, q2), accept, v.trace, stod, elems + [v.value]);
      } else if c == ']' {
        HonestEmit(accept, v.trace, EndArrayEvent, q2, Value(ARRAY, ArrayData(elems + [v.value])));
      }
      HonestThen(accept, t, v, r);
    }
  }

  lemma {:induction false} ObjectHonest(s: seq<char>, p: nat, accept: seq<Event> -> bool, t: seq<Event>, stod: Stod)
    requires p < |s| && s[p] == '{'
    ensures Honest(accept, t, ObjectSpec(s, p, accept, t, stod))
    decreases |s| - p, 2
  {
    var t1 := t + [StartObjectEvent];
    var open := Emit(accept, t, StartObjectEvent, p, NONE);
    HonestEmit(accept, t, StartObjectEvent, p, NONE);
    if accept(t1) {
      var q := SkipWs(s, p + 1);
      if At(s, q) == '}' {
        HonestEmit(accept, t1, EndObjectEvent, q + 1, Value(OBJECT, ObjectData([])));
        HonestThen(accept, t, open, ObjectSpec(s, p, accept, t, stod));
      } else {
        MembersHonest(s, q, accept, t1, stod, []);
        HonestThen(accept, t, open, ObjectSpec(s, p, accept, t, stod));
      }
    }
  }

  lemma {:induction false} PairHonest(s: seq<char>, q: nat, accept: seq<Event> -> bool, t: seq<Event>, stod: Stod)
    requires q < |s| && s[q] == '"'
    ensures Honest(accept, t, Pair(s, q, accept, t, stod).0)
    decreases |s| - q, 3
  {
    var k := StringSpec(s, q, true, accept, t);
    StringHonest(s, q, true, accept, t);
    if k.err == OK {
      var q1 := SkipWs(s, k.pos);
      if At(s, q1) == ':' {
        ValueHonest(s, SkipWs(s, q1 + 1), accept, k.trace, stod);
      }
      HonestThen(accept, t, k, Pair(s, q, accept, t, stod).0);
    }
  }

  lemma {:induction false} MembersHonest(s: seq<char>, q: nat, accept: seq<Event> -> bool, t: seq<Event>, stod: Stod, members: seq<Member>)
    requires q <= |s|
    ensures Honest(accept, t, Members(s, q, accept, t, stod, members))
    decreases |s| - q, 4
  {
    if At(s, q) == '"' {
      PairHonest(s, q, accept, t, stod);
      AfterMemberHonest(s, q, Pair(s, q, accept, t, stod), accept, t, stod, members);
    }
  }

  lemma {:induction false} AfterMemberHonest(s: seq<char>, q: nat, pr: (Res, Value), accept: seq<Event> -> bool, t: seq<Event>, stod: Stod, members: seq<Member>)
    requires q < pr.0.pos <= |s| && Honest(accept, t, pr.0)
    ensures Honest(accept, t, AfterMember(s, q, pr, accept, stod, members))
    decreases |s| - q, 3
  {
    var v := pr.0;
    if v.err == OK {
      var r := AfterMember(s, q, pr, accept, stod, members);
      var q3 := SkipWs(s, v.pos);
      var q4 := Advance(s, q3, 1);
      var ms := members + [Member(pr.1, v.value)];
      var c := At(s, q3);
      if c == ',' {
        MembersHonest(s, SkipWs(s, q4), accept, v.trace, stod, ms);
      } else if c == '}' {
        HonestEmit(accept, v.trace, EndObjectEvent, q4, Value(OBJECT, ObjectData(ms)));
      }
      HonestThen(accept, t, v, r);
    }
  }

  /**
   * Reader::Parse tells its handler the truth: USER_STOPPED exactly when the handler's last
   * answer was false, and no event after a refused one.
   */
  lemma {:induction false} ParseHonest(s: seq<char>, p: nat, accept: seq<Event> -> bool, t: seq<Event>, stod: Stod)
    requires p <= |s|
    ensures Honest(accept, t, ParseSpec(s, p, accept, t, stod))
  {
    ValueHonest(s, SkipWs(s, p), accept, t, stod);
  }

  // ---------------------------------------------------------------- the events spell the value

  /** On success, r's value is in the builder's form and the new events are exactly its events. */
  ghost predicate Reports(t: seq<Event>, r: Res)
  {
    r.err == OK ==> Plain(r.value) && Wf(r.value) && r.trace == t + Events(r.value)
  }

  ghost predicate AllPlain(elems: seq<Value>)
  {
    forall i :: 0 <= i < |elems| ==> Plain(elems[i])
  }

  ghost predicate PlainMembers(members: seq<Member>)
  {
    KeysAreStrings(members) && forall i :: 0 <= i < |members| ==> Plain(members[i].value)
  }

  lemma {:induction false} StringReports(s: seq<char>, p: nat, accept: seq<Event> -> bool, t: seq<Event>)
    requires p < |s| && s[p] == '"'
    ensures Reports(t, StringSpec(s, p, false, accept, t))
  {
  }

  lemma {:induction false} ConvertReports(s: seq<char>, p: nat, accept: seq<Event> -> bool, t: seq<Event>, stod: Stod)
    requires p <= |s|
    ensures Reports(t, ConvertSpec(s, p, accept, t, stod))
  {
    if ScanNumber(s, p).Some? {
      var sc := ScanNumber(s, p).value;
      var text := s[p..sc.end];
      if sc.IsDouble() {
        if stod(text).Some? {
          var d := stod(text).value;
          EmitScalar(accept, t, DoubleEvent(d), sc.end, OfDouble(d));
        }
      } else {
        IntegerTextDigits(s, p);
        if Stoll(text).Some? {
          var i := Stoll(text).value;
          if IsI32(i) {
            EmitScalar(accept, t, Int32Event(i), sc.end, OfInt32(i));
          } else {
            EmitScalar(accept, t, Int64Event(i), sc.end, OfInt64(i));
          }
        }
      }
    }
  }

  /** A scalar's one call, emitted: the scalar is reported. */
  lemma {:induction false} EmitScalar(accept: seq<Event> -> bool, t: seq<Event>, e: Event, pos: nat, v: Value)
    requires Plain(v) && Wf(v) && Events(v) == [e]
    ensures Reports(t, Emit(accept, t, e, pos, v))
  {
  }

  lemma {:induction false} NumberReports(s: seq<char>, p: nat, accept: seq<Event> -> bool, t: seq<Event>, stod: Stod)
    requires p < |s|
    ensures Reports(t, NumberSpec(s, p, accept, t, stod))
  {
    if s[p] != 'N' && s[p] != 'I' {
      ConvertReports(s, p, accept, t, stod);
    }
  }

  /** The value ParseValue reports is the one whose events (writeTo's order) it emitted. */
  lemma {:induction false} ValueReports(s: seq<char>, p: nat, accept: seq<Event> -> bool, t: seq<Event>, stod: Stod)
    requires p <= |s|
    ensures Reports(t, ValueSpec(s, p, accept, t, stod))
    decreases |s| - p, 3
  {
    if p < |s| {
      match s[p]
      case 'n' =>
      case 't' =>
      case 'f' =>
      case '"' => StringReports(s, p, accept, t);
      case '[' => ArrayReports(s, p, accept, t, stod);
      case '{' => ObjectReports(s, p, accept, t, stod);
      case _ => NumberReports(s, p, accept, t, stod);
    }
  }

  lemma {:induction false} ArrayReports(s: seq<char>, p: nat, accept: seq<Event> -> bool, t: seq<Event>, stod: Stod)
    requires p < |s| && s[p] == '['
    ensures Reports(t, ArraySpec(s, p, accept, t, stod))
    decreases |s| - p, 2
  {
    var t1 := t + [StartArrayEvent];
    if accept(t1) {
      var q := SkipWs(s, p + 1);
      if At(s, q) == ']' {
        assert Events(Value(ARRAY, ArrayData([]))) == [StartArrayEvent, EndArrayEvent];
      } else {
        assert t1 == t + [StartArrayEvent] + ElemsEvents([]);
        ElementsReports(s, q, accept, t1, stod, [], t);
      }
    }
  }

  /** The loop of ParseArray, with the events of the elements before q already reported. */
  lemma {:induction false} ElementsReports(s: seq<char>, q: nat, accept: seq<Event> -> bool, t: seq<Event>, stod: Stod,
      elems: seq<Value>, pre: seq<Event>)
    requires q <= |s| && AllPlain(elems) && ElemsWf(elems) && t == pre + [StartArrayEvent] + ElemsEvents(elems)
    ensures var r := Elements(s, q, accept, t, stod, elems);
      r.err == OK ==> r.value.tag == ARRAY && Reports(pre, r)
    decreases |s| - q, 4
  {
    ValueReports(s, q, accept, t, stod);
    AfterElementReports(s, q, ValueSpec(s, q, accept, t, stod), accept, t, stod, elems, pre);
  }

  lemma {:induction false} AfterElementReports(s: seq<char>, q: nat, v: Res, accept: seq<Event> -> bool, t: seq<Event>,
      stod: Stod, elems: seq<Value>, pre: seq<Event>)
    requires q <= v.pos <= |s| && Reports(t, v)
    requires AllPlain(elems) && ElemsWf(elems) && t == pre + [StartArrayEvent] + ElemsEvents(elems)
    ensures var r := AfterElement(s, q, v, accept, stod, elems);
      r.err == OK ==> r.value.tag == ARRAY && Reports(pre, r)
    decreases |s| - q, 3
  {
    if v.err == OK {
      var es := elems + [v.value];
      ElemReported(t, v, elems, pre);
      var q1 := SkipWs(s, v.pos);
      if At(s, q1) == ',' {
        AfterElementComma(s, q, v, accept, stod, elems);
        ElementsReports(s, SkipWs(s, Advance(s, q1, 1)), accept, v.trace, stod, es, pre);
      } else {
        AfterElementStop(s, q, v, accept, stod, elems);
        CloseArrayReports(accept, pre, v.trace, q1 + 1, es);
      }
    }
  }

  /** One more element reported after the elements before it. */
  lemma {:induction false} ElemReported(t: seq<Event>, v: Res, elems: seq<Value>, pre: seq<Event>)
    requires Reports(t, v) && v.err == OK
    requires AllPlain(elems) && ElemsWf(elems) && t == pre + [StartArrayEvent] + ElemsEvents(elems)
    ensures var es := elems + [v.value];
      AllPlain(es) && ElemsWf(es) && v.trace == pre + [StartArrayEvent] + ElemsEvents(es)
  {
    var es := elems + [v.value];
    assert es[..|elems|] == elems && es[|elems|] == v.value;
  }

  /** The closing ']' after elements es reports the array of es. */
  lemma {:induction false} CloseArrayReports(accept: seq<Event> -> bool, pre: seq<Event>, trace: seq<Event>, pos: nat, es: seq<Value>)
    requires AllPlain(es) && ElemsWf(es) && trace == pre + [StartArrayEvent] + ElemsEvents(es)
    ensures var r := Emit(accept, trace, EndArrayEvent, pos, Value(ARRAY, ArrayData(es)));
      r.err == OK ==> r.value.tag == ARRAY && Reports(pre, r)
  {
    var arr := Value(ARRAY, ArrayData(es));
    PlainIsWf(arr);
    assert Events(arr) == [StartArrayEvent] + ElemsEvents(es) + [EndArrayEvent];
  }

  lemma {:induction false} ObjectReports(s: seq<char>, p: nat, accept: seq<Event> -> bool, t: seq<Event>, stod: Stod)
    requires p < |s| && s[p] == '{'
    ensures Reports(t, ObjectSpec(s, p, accept, t, stod))
    decreases |s| - p, 2
  {
    var t1 := t + [StartObjectEvent];
    if accept(t1) {
      var q := SkipWs(s, p + 1);
      if At(s, q) == '}' {
        assert Events(Value(OBJECT, ObjectData([]))) == [StartObjectEvent, EndObjectEvent];
      } else {
        assert t1 == t + [StartObjectEvent] + MembersEvents([]);
        MembersReports(s, q, accept, t1, stod, [], t);
      }
    }
  }

  /** A member: its key is a string, and Key then the value's events were reported. */
  lemma {:induction false} PairReports(s: seq<char>, q: nat, accept: seq<Event> -> bool, t: seq<Event>, stod: Stod)
    requires q < |s| && s[q] == '"'
    ensures var pr := Pair(s, q, accept, t, stod);
      pr.0.err == OK ==>
        pr.1.tag == STRING && pr.1.data.StringData? && Plain(pr.0.value) && Wf(pr.0.value) &&
        pr.0.trace == t + [KeyEvent(pr.1.data.chars)] + Events(pr.0.value)
    decreases |s| - q, 3
  {
    var k := StringSpec(s, q, true, accept, t);
    KeyReports(s, q, accept, t);
    if k.err == OK {
      var q1 := SkipWs(s, k.pos);
      if At(s, q1) == ':' {
        ValueReports(s, SkipWs(s, q1 + 1), accept, k.trace, stod);
      }
    }
  }

  /** A key that reads: a string value, reported as a Key event. */
  lemma {:induction false} KeyReports(s: seq<char>, q: nat, accept: seq<Event> -> bool, t: seq<Event>)
    requires q < |s| && s[q] == '"'
    ensures var k := StringSpec(s, q, true, accept, t);
      k.err == OK ==>
        k.value.tag == STRING && k.value.data.StringData? && k.trace == t + [KeyEvent(k.value.data.chars)]
  {
    var b := StringBody(s, q + 1, []);
    if b.err == OK {
      assert StringSpec(s, q, true, accept, t) == Emit(accept, t, KeyEvent(b.chars), b.pos, OfString(b.chars));
    }
  }

  /** The loop of ParseObject, with the events of the members before q already reported. */
  lemma {:induction false} MembersReports(s: seq<char>, q: nat, accept: seq<Event> -> bool, t: seq<Event>, stod: Stod,
      members: seq<Member>, pre: seq<Event>)
    requires q <= |s| && PlainMembers(members) && MembersWf(members)
    requires t == pre + [StartObjectEvent] + MembersEvents(members)
    ensures var r := Members(s, q, accept, t, stod, members);
      r.err == OK ==> r.value.tag == OBJECT && Reports(pre, r)
    decreases |s| - q, 4
  {
    if At(s, q) == '"' {
      PairReports(s, q, accept, t, stod);
      AfterMemberReports(s, q, Pair(s, q, accept, t, stod), accept, t, stod, members, pre);
    }
  }

  lemma {:induction false} AfterMemberReports(s: seq<char>, q: nat, pr: (Res, Value), accept: seq<Event> -> bool,
      t: seq<Event>, stod: Stod, members: seq<Member>, pre: seq<Event>)
    requires q < pr.0.pos <= |s|
    requires pr.0.err == OK ==>
      pr.1.tag == STRING && pr.1.data.StringData? && Plain(pr.0.value) && Wf(pr.0.value) &&
      pr.0.trace == t + [KeyEvent(pr.1.data.chars)] + Events(pr.0.value)
    requires PlainMembers(members) && MembersWf(members) && t == pre + [StartObjectEvent] + MembersEvents(members)
    ensures var r := AfterMember(s, q, pr, accept, stod, members);
      r.err == OK ==> r.value.tag == OBJECT && Reports(pre, r)
    decreases |s| - q, 3
  {
    var v := pr.0;
    if v.err == OK {
      var m := Member(pr.1, v.value);
      var ms := members + [m];
      MemberReported(members, m, pre, t, v.trace);
      var q3 := SkipWs(s, v.pos);
      if At(s, q3) == ',' {
        AfterMemberComma(s, q, pr, accept, stod, members);
        MembersReports(s, SkipWs(s, Advance(s, q3, 1)), accept, v.trace, stod, ms, pre);
      } else {
        AfterMemberStop(s, q, pr, accept, stod, members);
        CloseObjectReports(accept, pre, v.trace, q3 + 1, ms);
      }
    }
  }

  /** The closing '}' after members ms reports the object of ms. */
  lemma {:induction false} CloseObjectReports(accept: seq<Event> -> bool, pre: seq<Event>, trace: seq<Event>, pos: nat, ms: seq<Member>)
    requires PlainMembers(ms) && MembersWf(ms) && trace == pre + [StartObjectEvent] + MembersEvents(ms)
    ensures var r := Emit(accept, trace, EndObjectEvent, pos, Value(OBJECT, ObjectData(ms)));
      r.err == OK ==> r.value.tag == OBJECT && Reports(pre, r)
  {
    var obj := Value(OBJECT, ObjectData(ms));
    PlainIsWf(obj);
    assert Events(obj) == [StartObjectEvent] + MembersEvents(ms) + [EndObjectEvent];
  }

  /** One more member: still plain, and its key and value events follow the others. */
  lemma {:induction false} MemberReported(members: seq<Member>, m: Member, pre: seq<Event>, t: seq<Event>, trace: seq<Event>)
    requires PlainMembers(members) && MembersWf(members) && t == pre + [StartObjectEvent] + MembersEvents(members)
    requires m.key.tag == STRING && m.key.data.StringData? && Plain(m.value) && Wf(m.value)
    requires trace == t + [KeyEvent(m.key.data.chars)] + Events(m.value)
    ensures PlainMembers(members + [m]) && MembersWf(members + [m])
    ensures trace == pre + [StartObjectEvent] + MembersEvents(members + [m])
  {
    var ms := members + [m];
    assert ms[..|members|] == members && ms[|members|] == m;
  }

  /** A successful Reader::Parse reports exactly the events of the value it read, in order. */
  lemma {:induction false} ParseReports(s: seq<char>, p: nat, accept: seq<Event> -> bool, t: seq<Event>, stod: Stod)
    requires p <= |s|
    ensures Reports(t, ParseSpec(s, p, accept, t, stod))
  {
    ValueReports(s, SkipWs(s, p), accept, t, stod);
  }

  // ---------------------------------------------------------------- the catch-all in ParseNumber

  /**
   * The numeric part of ParseNumber as written: the handler call sits inside the try block
   * whose catch (...) rethrows every exception as NUMBER_TOO_BIG, the USER_STOPPED that a
   * refused Int32, Int64 or Double event raises included.
   */
  function ConvertAsWritten(s: seq<char>, p: nat, accept: seq<Event> -> bool, t: seq<Event>, stod: Stod): (r: Res)
    requires p <= |s|
    ensures r.err != USER_STOPPED
    ensures r.trace == ConvertSpec(s, p, accept, t, stod).trace
  {
    var r := ConvertSpec(s, p, accept, t, stod);
    if r.err == USER_STOPPED then r.(err := NUMBER_TOO_BIG) else r
  }

  /** "1" to a handler that refuses everything: the refusal is reported as NUMBER_TOO_BIG. */
  lemma {:induction false} ConvertAsWrittenMisreports(stod: Stod)
    ensures var accept := (u: seq<Event>) => false;
      var r := ConvertAsWritten("1", 0, accept, [], stod);
      r.err == NUMBER_TOO_BIG && r.trace == [Int32Event(1)] && !Honest(accept, [], r)
  {
    var s := "1";
    assert ScanNumber(s, 0) == Some(Scan(0, 1, 1, 1));
    assert s[0..1] == "1";
    assert Stoll("1") == Some(1) by {
      assert DecimalValue("1") == 1 by { assert "1"[..0] == []; }
    }
  }

  /** With the handler call outside the catch, a refused number is USER_STOPPED, as everywhere else. */
  lemma {:induction false} ConvertStopsHonestly(s: seq<char>, p: nat, accept: seq<Event> -> bool, t: seq<Event>, stod: Stod)
    requires p <= |s|
    ensures var r := ConvertSpec(s, p, accept, t, stod);
      Honest(accept, t, r) && (r.err == NUMBER_TOO_BIG ==> r.trace == t)
  {
    ConvertHonest(s, p, accept, t, stod);
  }
}
