// Document::parse (include/neujson/document.h): the reader run over a string stream, with
// the Document itself as the handler. A Document answers every call with true, so its
// calls are the ones the reader makes to a handler that accepts everything.

module DocumentParse {
  import opened Handler
  import opened Values
  import opened ReaderSpec
  import opened ReaderProps
  import opened Documents
  import opened Errors

  /** The Document's answer to every call. */
  const AcceptAll := (u: seq<Event>) => true

  /**
   * A successful parse leaves the Document holding the value read, with no Level open,
   * provided that no object in it repeats a key.
   */
  lemma {:induction false} ParseBuilds(json: seq<char>, stod: Stod)
    ensures var r := ParseSpec(json, 0, AcceptAll, [], stod);
      r.err == OK && UniqueKeys(r.value) ==>
        var d := Feed(Initial, r.trace);
        d.Some? && d.value.root == r.value && d.value.stack == [] && d.value.seeValue
  {
    var r := ParseSpec(json, 0, AcceptAll, [], stod);
    ParseReports(json, 0, AcceptAll, [], stod);
    if r.err == OK && UniqueKeys(r.value) {
      assert r.trace == Events(r.value);
      RoundTrip(r.value);
    }
  }

  /** The key "a" as the Document holds it. */
  const KeyA: Value := OfString("a")

  /** The object {"a":1}. */
  const ObjectA1: Value := Value(OBJECT, ObjectData([Member(KeyA, OfInt32(1))]))

  /** The Document after {, "a", 1 and "a": the object open with a key pending again. */
  const RepeatPending: DocState := DocState(ObjectA1, [3], KeyA, true)

  /** Feeding a call and then the rest is feeding the rest to the state that call leaves. */
  lemma {:induction false} FeedCons(s: DocState, e: Event, rest: seq<Event>, u: DocState)
    requires Step(s, e) == Some(u)
    ensures Feed(s, [e] + rest) == Feed(u, rest)
  {
    assert ([e] + rest)[0] == e && ([e] + rest)[1..] == rest;
  }

  /** The Document after {: the empty object is the root, and its Level is open. */
  const OpenedObject: DocState := DocState(OfType(OBJECT), [0], OfType(NULL), true)

  /** The Document after { and "a": the key is pending. */
  const KeyPending: DocState := DocState(OfType(OBJECT), [1], KeyA, true)

  /** The Document after {, "a" and 1: the member is in place. */
  const MemberPlaced: DocState := DocState(ObjectA1, [2], KeyA, true)

  lemma {:induction false} OpenStep()
    ensures Step(Initial, StartObjectEvent) == Some(OpenedObject)
  {
    var none: seq<nat> := [];
    assert none + [0] == [0];
  }

  lemma {:induction false} KeyStep()
    ensures Step(OpenedObject, KeyEvent("a")) == Some(KeyPending)
  {
    assert [0][0 := 1] == [1];
  }

  lemma {:induction false} MemberStep()
    ensures Step(KeyPending, Int32Event(1)) == Some(MemberPlaced)
  {
    assert [1][0 := 2] == [2];
    assert Append(OfType(OBJECT), KeyA, OfInt32(1)) == ObjectA1;
  }

  lemma {:induction false} KeyAgainStep()
    ensures Step(MemberPlaced, KeyEvent("a")) == Some(RepeatPending)
  {
    assert [2][0 := 3] == [3];
  }

  /** {, "a", 1, "a": each call is accepted. */
  lemma {:induction false} RepeatPrefix()
    ensures Feed(Initial, [StartObjectEvent, KeyEvent("a"), Int32Event(1), KeyEvent("a")]) == Some(RepeatPending)
  {
    OpenStep();
    KeyStep();
    MemberStep();
    KeyAgainStep();
    FeedCons(MemberPlaced, KeyEvent("a"), [], RepeatPending);
    FeedCons(KeyPending, Int32Event(1), [KeyEvent("a")], MemberPlaced);
    FeedCons(OpenedObject, KeyEvent("a"), [Int32Event(1), KeyEvent("a")], KeyPending);
    FeedCons(Initial, StartObjectEvent, [KeyEvent("a"), Int32Event(1), KeyEvent("a")], OpenedObject);
    assert [StartObjectEvent, KeyEvent("a"), Int32Event(1), KeyEvent("a")] ==
      [StartObjectEvent] + ([KeyEvent("a")] + ([Int32Event(1)] + ([KeyEvent("a")] + [])));
  }

  /** A repeated key trips addMember's assertion: the value of the second "a" is not accepted. */
  lemma {:induction false} RepeatedKeyRejected()
    ensures Feed(Initial, [StartObjectEvent, KeyEvent("a"), Int32Event(1), KeyEvent("a"), Int32Event(2)]) == None
  {
    RepeatPrefix();
    assert FindMember(ObjectA1, "a") == 0;
    assert Step(RepeatPending, Int32Event(2)) == None;
    FeedOne(RepeatPending, Int32Event(2));
    FeedSplit(Initial, [StartObjectEvent, KeyEvent("a"), Int32Event(1), KeyEvent("a")], [Int32Event(2)], RepeatPending);
    assert [StartObjectEvent, KeyEvent("a"), Int32Event(1), KeyEvent("a")] + [Int32Event(2)] ==
      [StartObjectEvent, KeyEvent("a"), Int32Event(1), KeyEvent("a"), Int32Event(2)];
  }
}
