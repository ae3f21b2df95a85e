// The document builder (include/neujson/document.h): a handler that assembles the parsed
// events into its root value. Each open container is remembered by a Level; a Level is
// always the container last added to the Level below it, so here a Level is the node at
// its depth on the rightmost path of the root, and carries only its value count.

module Documents {
  import opened Arith
  import opened Handler
  import opened Values

  // ---------------------------------------------------------------- the rightmost path

  /** A container whose payload is the one its tag names. */
  predicate IsContainer(v: Value)
  {
    (v.tag == ARRAY && v.data.ArrayData?) ||
    (v.tag == OBJECT && v.data.ObjectData? && KeysAreStrings(v.data.members))
  }

  /** A container with at least one child, so Level::lastValue has something to return. */
  predicate HasLast(v: Value)
  {
    IsContainer(v) && (if v.tag == ARRAY then |v.data.elems| > 0 else |v.data.members| > 0)
  }

  /** Level::lastValue: the last element of an array, the value of an object's last member. */
  function Last(v: Value): (c: Value)
    requires HasLast(v)
    ensures c < v
  {
    if v.tag == ARRAY then
      var e := v.data.elems[|v.data.elems| - 1];
      assert e in v.data.elems;
      e
    else
      var m := v.data.members[|v.data.members| - 1];
      assert m in v.data.members && m.value < m;
      m.value
  }

  /** v with its last child replaced by c. */
  function WithLast(v: Value, c: Value): (r: Value)
    requires HasLast(v)
    ensures HasLast(r) && Last(r) == c && r.tag == v.tag
    ensures r.tag == ARRAY ==> r.data.elems == v.data.elems[..|v.data.elems| - 1] + [c]
    ensures r.tag == OBJECT ==> (
        |r.data.members| == |v.data.members| &&
        r.data.members[..|v.data.members| - 1] == v.data.members[..|v.data.members| - 1] &&
        r.data.members[|v.data.members| - 1].key == v.data.members[|v.data.members| - 1].key)
  {
    if v.tag == ARRAY then
      Value(ARRAY, ArrayData(v.data.elems[..|v.data.elems| - 1] + [c]))
    else
      var n := |v.data.members| - 1;
      var r := Value(OBJECT, ObjectData(v.data.members[..n] + [Member(v.data.members[n].key, c)]));
      assert forall i :: 0 <= i < n ==> r.data.members[i] == v.data.members[i];
      r
  }

  /** The rightmost path of v is at least d steps long. */
  predicate HasDepth(v: Value, d: nat)
    decreases d
  {
    d == 0 || (HasLast(v) && HasDepth(Last(v), d - 1))
  }

  /** The node d steps down the rightmost path. */
  function Open(v: Value, d: nat): Value
    requires HasDepth(v, d)
    decreases d
  {
    if d == 0 then v else Open(Last(v), d - 1)
  }

  /** v with the node d steps down its rightmost path replaced by c. */
  function {:induction false} SetAt(v: Value, d: nat, c: Value): (r: Value)
    requires HasDepth(v, d)
    ensures HasDepth(r, d) && Open(r, d) == c
    ensures d > 0 ==> r.tag == v.tag
    decreases d
  {
    if d == 0 then c else WithLast(v, SetAt(Last(v), d - 1, c))
  }

  /** One more step down the rightmost path reaches the last child. */
  lemma {:induction false} OpenDeeper(v: Value, d: nat)
    requires HasDepth(v, d) && HasLast(Open(v, d))
    ensures HasDepth(v, d + 1) && Open(v, d + 1) == Last(Open(v, d))
    decreases d
  {
    if d > 0 {
      OpenDeeper(Last(v), d - 1);
    }
  }

  /** Replacing the same node twice keeps only the second replacement. */
  lemma {:induction false} SetAtTwice(v: Value, d: nat, c: Value, c': Value)
    requires HasDepth(v, d)
    ensures SetAt(SetAt(v, d, c), d, c') == SetAt(v, d, c')
    decreases d
  {
    if d > 0 {
      SetAtTwice(Last(v), d - 1, c, c');
    }
  }

  /** Replacing a node's last child is replacing the node one level further down. */
  lemma {:induction false} SetAtDeeper(v: Value, d: nat, c: Value, y: Value)
    requires HasDepth(v, d) && HasLast(c)
    ensures HasDepth(SetAt(v, d, c), d + 1)
    ensures SetAt(SetAt(v, d, c), d + 1, y) == SetAt(v, d, WithLast(c, y))
    decreases d
  {
    if d > 0 {
      SetAtDeeper(Last(v), d - 1, c, y);
    }
  }

  /** Putting back the node that is already there changes nothing. */
  lemma {:induction false} SetAtOpen(v: Value, d: nat)
    requires HasDepth(v, d)
    ensures SetAt(v, d, Open(v, d)) == v
    decreases d
  {
    if d > 0 {
      SetAtOpen(Last(v), d - 1);
      WithLastOfLast(v);
    }
  }

  lemma {:induction false} WithLastOfLast(v: Value)
    requires HasLast(v)
    ensures WithLast(v, Last(v)) == v
  {
    if v.tag == ARRAY {
      var es := v.data.elems;
      assert es[..|es| - 1] + [es[|es| - 1]] == es;
    } else {
      var ms := v.data.members;
      var n := |ms| - 1;
      assert Member(ms[n].key, ms[n].value) == ms[n];
      assert ms[..n] + [ms[n]] == ms;
    }
  }

  /** A new last child: addValue for an array, addMember with the given key for an object. */
  function Append(v: Value, key: Value, x: Value): (r: Value)
    requires IsContainer(v)
    requires v.tag == OBJECT ==> key.tag == STRING && key.data.StringData?
    ensures HasLast(r) && Last(r) == x && r.tag == v.tag
    ensures r.tag == ARRAY ==> r.data.elems == v.data.elems + [x]
    ensures r.tag == OBJECT ==> r.data.members == v.data.members + [Member(key, x)]
  {
    if v.tag == ARRAY then AddValue(v, x)
    else
      var r := Value(OBJECT, ObjectData(v.data.members + [Member(key, x)]));
      assert forall i :: 0 <= i < |v.data.members| ==> r.data.members[i] == v.data.members[i];
      r
  }

  // ---------------------------------------------------------------- the builder state

  /**
   * The Document's own value (the root), the value counts of its Levels from the root
   * down, the pending key, and whether a root value has been seen.
   */
  datatype DocState = DocState(root: Value, stack: seq<nat>, key: Value, seeValue: bool)

  /** A default-constructed Document. */
  const Initial: DocState := DocState(OfType(NULL), [], OfType(NULL), false)

  /**
   * Every Level is a container; every Level below the top has a last child, which is the
   * next Level, and if it is an object its count is even (its last value is in place).
   */
  predicate SpineOk(v: Value, stack: seq<nat>)
    decreases |stack|
  {
    |stack| > 0 ==>
      IsContainer(v) &&
      (|stack| > 1 ==> HasLast(v) && (v.tag == OBJECT ==> stack[0] % 2 == 0) && SpineOk(Last(v), stack[1..]))
  }

  /** The depth of the top Level. */
  function TopDepth(s: DocState): nat
    requires s.stack != []
  {
    |s.stack| - 1
  }

  /** What holds between handler calls. */
  ghost predicate Inv(s: DocState)
  {
    (!s.seeValue ==> s.stack == []) &&
    SpineOk(s.root, s.stack) &&
    (s.stack != [] ==>
      HasDepth(s.root, TopDepth(s)) && IsContainer(Open(s.root, TopDepth(s))) &&
      (Open(s.root, TopDepth(s)).tag == OBJECT && s.stack[TopDepth(s)] % 2 == 1 ==>
        s.key.tag == STRING && s.key.data.StringData?))
  }

  lemma {:induction false} SpineDepth(v: Value, stack: seq<nat>)
    requires SpineOk(v, stack) && |stack| > 0
    ensures HasDepth(v, |stack| - 1) && IsContainer(Open(v, |stack| - 1))
    decreases |stack|
  {
    if |stack| > 1 {
      SpineDepth(Last(v), stack[1..]);
    }
  }

  /** Replacing the top Level by a container of the same type, with a new count. */
  lemma {:induction false} SpineSet(v: Value, stack: seq<nat>, c: Value, n: nat)
    requires SpineOk(v, stack) && |stack| > 0 && HasDepth(v, |stack| - 1)
    requires IsContainer(c)
    ensures SpineOk(SetAt(v, |stack| - 1, c), stack[|stack| - 1 := n])
    decreases |stack|
  {
    if |stack| > 1 {
      var d := |stack| - 1;
      assert stack[d := n][1..] == stack[1..][d - 1 := n];
      SpineSet(Last(v), stack[1..], c, n);
      WithLastContainer(v, SetAt(Last(v), d - 1, c));
    }
  }

  /** Replacing a last child keeps the container's type and keys. */
  lemma {:induction false} WithLastContainer(v: Value, c: Value)
    requires HasLast(v)
    ensures IsContainer(WithLast(v, c))
  {
    var r := WithLast(v, c);
    if v.tag == OBJECT {
      var n := |v.data.members| - 1;
      assert forall i :: 0 <= i < n ==> r.data.members[i] == v.data.members[..n][i];
    }
  }

  /** Opening a container just added as the last child of the top Level. */
  lemma {:induction false} SpinePush(v: Value, stack: seq<nat>)
    requires SpineOk(v, stack) && |stack| > 0 && HasDepth(v, |stack| - 1)
    requires HasLast(Open(v, |stack| - 1)) && IsContainer(Last(Open(v, |stack| - 1)))
    requires Open(v, |stack| - 1).tag == OBJECT ==> stack[|stack| - 1] % 2 == 0
    ensures SpineOk(v, stack + [0])
    decreases |stack|
  {
    if |stack| > 1 {
      assert (stack + [0])[1..] == stack[1..] + [0];
      SpinePush(Last(v), stack[1..]);
    }
  }

  /** Closing the top Level. */
  lemma {:induction false} SpinePop(v: Value, stack: seq<nat>)
    requires SpineOk(v, stack) && |stack| > 0
    ensures SpineOk(v, stack[..|stack| - 1])
    ensures |stack| > 1 ==> (
        HasDepth(v, |stack| - 2) &&
        (Open(v, |stack| - 2).tag == OBJECT ==> stack[|stack| - 2] % 2 == 0))
    decreases |stack|
  {
    if |stack| > 1 {
      assert stack[..|stack| - 1][1..] == stack[1..][..|stack| - 2];
      SpinePop(Last(v), stack[1..]);
    }
  }

  // ---------------------------------------------------------------- the handler calls

  /** The value each handler call hands to addValue. */
  function ValueOf(e: Event): (v: Value)
    ensures Wf(v) && Plain(v)
  {
    match e
    case NullEvent => OfType(NULL)
    case BoolEvent(b) => OfBool(b)
    case Int32Event(i) => OfInt32(i)
    case Int64Event(i) => OfInt64(i)
    case DoubleEvent(d) => OfDouble(d)
    case StringEvent(t) => OfString(t)
    case KeyEvent(t) => OfString(t)
    case StartObjectEvent => OfType(OBJECT)
    case EndObjectEvent => OfType(NULL)
    case StartArrayEvent => OfType(ARRAY)
    case EndArrayEvent => OfType(NULL)
  }

  /**
   * Document::addValue. None is a failed assertion: a second root value, a root that is
   * not NULL, a key that is not a string, or a key the object already has. The top Level
   * always points at a container (Inv below); the model answers None where it would not.
   */
  function AddValueStep(s: DocState, x: Value): Option<DocState>
  {
    if !s.seeValue then
      // the first value becomes the root; a NULL leaves the root's payload alone
      if s.root.tag != NULL then None
      else Some(DocState(Value(x.tag, if x.tag == NULL then s.root.data else x.data), s.stack, s.key, true))
    else if s.stack == [] || !HasDepth(s.root, TopDepth(s)) then None
    else
      var d := TopDepth(s);
      var top := Open(s.root, d);
      if top.tag == ARRAY then
        if !top.data.ArrayData? then None
        else Some(s.(root := SetAt(s.root, d, Append(top, s.key, x)), stack := s.stack[d := s.stack[d] + 1]))
      else if top.tag != OBJECT then None
      else if s.stack[d] % 2 == 0 then
        // an even count: x is the next key
        if x.tag != STRING then None
        else Some(s.(stack := s.stack[d := s.stack[d] + 1], key := x))
      else if !(top.data.ObjectData? && KeysAreStrings(top.data.members)) then None
      else if !(s.key.tag == STRING && s.key.data.StringData?) then None
      else if FindMember(top, s.key.data.chars) != |top.data.members| then None
      else Some(s.(root := SetAt(s.root, d, Append(top, s.key, x)), stack := s.stack[d := s.stack[d] + 1]))
  }

  /** StartObject / StartArray: add an empty container, then open a Level for it. */
  function PushStep(s: DocState, t: Type): Option<DocState>
  {
    match AddValueStep(s, OfType(t))
    case None => None
    case Some(u) => Some(u.(stack := u.stack + [0]))
  }

  /** EndObject / EndArray: the top Level must be of that type; it is closed. */
  function PopStep(s: DocState, t: Type): Option<DocState>
  {
    if s.stack == [] || !HasDepth(s.root, TopDepth(s)) || Open(s.root, TopDepth(s)).tag != t then None
    else Some(s.(stack := s.stack[..TopDepth(s)]))
  }

  /** One handler call. Every call of the Document answers true. */
  function Step(s: DocState, e: Event): Option<DocState>
  {
    match e
    case StartObjectEvent => PushStep(s, OBJECT)
    case StartArrayEvent => PushStep(s, ARRAY)
    case EndObjectEvent => PopStep(s, OBJECT)
    case EndArrayEvent => PopStep(s, ARRAY)
    case _ => AddValueStep(s, ValueOf(e))
  }

  /** A sequence of handler calls; None once an assertion has failed. */
  function Feed(s: DocState, es: seq<Event>): Option<DocState>
    decreases |es|, 0
  {
    if es == [] then Some(s) else FeedAfter(Step(s, es[0]), es[1..])
  }

  /** The rest of the calls, once the previous one has answered r. */
  function FeedAfter(r: Option<DocState>, es: seq<Event>): Option<DocState>
    decreases |es|, 1
  {
    match r
    case None => None
    case Some(t) => Feed(t, es)
  }

  lemma {:induction false} FeedConcat(s: DocState, a: seq<Event>, b: seq<Event>)
    ensures Feed(s, a + b) == (if Feed(s, a).None? then None else Feed(Feed(s, a).value, b))
    decreases |a|
  {
    if a != [] {
      assert (a + b)[1..] == a[1..] + b;
      var t := Step(s, a[0]);
      if t.Some? {
        FeedConcat(t.value, a[1..], b);
      }
    } else {
      assert a + b == b;
    }
  }

  /** Feeding a + b is feeding b to what feeding a left. */
  lemma {:induction false} FeedSplit(s: DocState, a: seq<Event>, b: seq<Event>, s2: DocState)
    requires Feed(s, a) == Some(s2)
    ensures Feed(s, a + b) == Feed(s2, b)
  {
    FeedConcat(s, a, b);
  }

  lemma {:induction false} FeedOne(s: DocState, e: Event)
    ensures Feed(s, [e]) == Step(s, e)
  {
    assert [e][1..] == [];
    if Step(s, e).Some? {
      assert Feed(Step(s, e).value, []) == Step(s, e);
    }
  }

  // ---------------------------------------------------------------- the invariant is kept

  /** The value becomes the last child of the top Level: an element, or a member under the pending key. */
  ghost predicate Placement(s: DocState, x: Value, u: DocState)
    requires Deep(s)
  {
    var d := TopDepth(s);
    var top := Open(s.root, d);
    IsContainer(top) &&
    (top.tag == OBJECT ==> s.stack[d] % 2 == 1 && s.key.tag == STRING && s.key.data.StringData?) &&
    u == s.(root := SetAt(s.root, d, Append(top, s.key, x)), stack := s.stack[d := s.stack[d] + 1])
  }

  /** The value becomes the pending key of the top Level, an object at an even count. */
  ghost predicate Keying(s: DocState, x: Value, u: DocState)
    requires Deep(s)
  {
    var d := TopDepth(s);
    Open(s.root, d).tag == OBJECT && s.stack[d] % 2 == 0 && x.tag == STRING &&
    u == s.(stack := s.stack[d := s.stack[d] + 1], key := x)
  }

  /** The three ways addValue can succeed. */
  lemma {:induction false} AddValueShape(s: DocState, x: Value, u: DocState)
    requires AddValueStep(s, x) == Some(u)
    ensures !s.seeValue ==>
      s.root.tag == NULL && u == DocState(Value(x.tag, if x.tag == NULL then s.root.data else x.data), s.stack, s.key, true)
    ensures s.seeValue ==> Deep(s) && (Placement(s, x, u) || Keying(s, x, u))
  {
  }

  /** addValue keeps the invariant; a non-string value inside a Level becomes its last child. */
  lemma {:induction false} AddValueInv(s: DocState, x: Value, u: DocState)
    requires Inv(s) && Wf(x) && AddValueStep(s, x) == Some(u)
    ensures Inv(u) && u.seeValue && |u.stack| == |s.stack|
    ensures s.stack == [] && x.tag != NULL ==> u.root == x
    ensures s.stack != [] && x.tag != STRING ==>
      var d := TopDepth(s);
      HasDepth(u.root, d) && HasLast(Open(u.root, d)) && Last(Open(u.root, d)) == x &&
      (Open(u.root, d).tag == OBJECT ==> u.stack[d] % 2 == 0)
  {
    AddValueShape(s, x, u);
    if s.seeValue {
      if Placement(s, x, u) {
        PlaceInv(s, x, u);
      } else {
        KeyInv(s, x, u);
      }
    }
  }

  lemma {:induction false} KeyInv(s: DocState, x: Value, u: DocState)
    requires Inv(s) && s.seeValue && Deep(s) && Keying(s, x, u) && Wf(x)
    ensures Inv(u) && u.seeValue && |u.stack| == |s.stack|
  {
    var d := TopDepth(s);
    SpineSet(s.root, s.stack, Open(s.root, d), s.stack[d] + 1);
    SetAtOpen(s.root, d);
  }

  lemma {:induction false} PlaceInv(s: DocState, x: Value, u: DocState)
    requires Inv(s) && s.seeValue && Deep(s) && Placement(s, x, u)
    ensures Inv(u) && u.seeValue && |u.stack| == |s.stack|
    ensures var d := TopDepth(s);
      HasDepth(u.root, d) && HasLast(Open(u.root, d)) && Last(Open(u.root, d)) == x &&
      (Open(u.root, d).tag == OBJECT ==> u.stack[d] % 2 == 0)
  {
    var d := TopDepth(s);
    SpineSet(s.root, s.stack, Append(Open(s.root, d), s.key, x), s.stack[d] + 1);
  }

  /** StartObject / StartArray keep the invariant and open the new empty container. */
  lemma {:induction false} PushInv(s: DocState, t: Type, u: DocState)
    requires Inv(s) && t in {ARRAY, OBJECT} && PushStep(s, t) == Some(u)
    ensures Inv(u) && u.seeValue && |u.stack| == |s.stack| + 1
    ensures HasDepth(u.root, TopDepth(u)) && Open(u.root, TopDepth(u)) == OfType(t) && u.stack[TopDepth(u)] == 0
  {
    var a := AddValueStep(s, OfType(t)).value;
    AddValueInv(s, OfType(t), a);
    if s.stack != [] {
      var d := TopDepth(s);
      SpinePush(a.root, a.stack);
      OpenDeeper(a.root, d);
    }
  }

  /** EndObject / EndArray keep the invariant. */
  lemma {:induction false} PopInv(s: DocState, t: Type, u: DocState)
    requires Inv(s) && PopStep(s, t) == Some(u)
    ensures Inv(u) && u.seeValue == s.seeValue && u.root == s.root && |u.stack| == |s.stack| - 1
  {
    SpinePop(s.root, s.stack);
    if |s.stack| > 1 {
      SpineDepth(s.root, s.stack[..TopDepth(s)]);
    }
  }

  /** Every handler call keeps the invariant, and a seen root stays seen. */
  lemma {:induction false} StepInv(s: DocState, e: Event, u: DocState)
    requires Inv(s) && Step(s, e) == Some(u)
    ensures Inv(u) && (s.seeValue ==> u.seeValue)
  {
    match e
    case StartObjectEvent => PushInv(s, OBJECT, u);
    case StartArrayEvent => PushInv(s, ARRAY, u);
    case EndObjectEvent => PopInv(s, OBJECT, u);
    case EndArrayEvent => PopInv(s, ARRAY, u);
    case _ => AddValueInv(s, ValueOf(e), u);
  }

  /** Any run of handler calls from a Document satisfying the invariant keeps it. */
  lemma {:induction false} FeedInv(s: DocState, es: seq<Event>)
    requires Inv(s) && Feed(s, es).Some?
    ensures Inv(Feed(s, es).value)
    ensures s.seeValue ==> Feed(s, es).value.seeValue
    decreases |es|
  {
    if es != [] {
      var t := Step(s, es[0]).value;
      StepInv(s, es[0], t);
      FeedInv(t, es[1..]);
    }
  }

  /** A fresh Document satisfies the invariant, so every state it reaches does. */
  lemma {:induction false} ReachableInv(es: seq<Event>)
    requires Feed(Initial, es).Some?
    ensures Inv(Feed(Initial, es).value)
  {
    FeedInv(Initial, es);
  }

  // ---------------------------------------------------------------- rebuilding a value

  /** The top Level takes a value next: an array, or an object whose pending key is new. */
  ghost predicate Accepts(s: DocState)
  {
    s.seeValue && s.stack != [] && HasDepth(s.root, TopDepth(s)) &&
    var top := Open(s.root, TopDepth(s));
    (top.tag == ARRAY && top.data.ArrayData?) ||
    (top.tag == OBJECT && s.stack[TopDepth(s)] % 2 == 1 &&
     top.data.ObjectData? && KeysAreStrings(top.data.members) &&
     s.key.tag == STRING && s.key.data.StringData? &&
     FindMember(top, s.key.data.chars) == |top.data.members|)
  }

  /** The state after x has become the last child of the top Level. */
  ghost function Placing(s: DocState, x: Value): DocState
    requires Accepts(s)
  {
    var d := TopDepth(s);
    s.(root := SetAt(s.root, d, Append(Open(s.root, d), s.key, x)), stack := s.stack[d := s.stack[d] + 1])
  }

  lemma {:induction false} AddValueAccepted(s: DocState, x: Value)
    requires Accepts(s)
    ensures AddValueStep(s, x) == Some(Placing(s, x))
  {
  }

  /** A replaced last child of a freshly appended child is the other child appended. */
  lemma {:induction false} WithLastAppend(v: Value, key: Value, x: Value, y: Value)
    requires IsContainer(v)
    requires v.tag == OBJECT ==> key.tag == STRING && key.data.StringData?
    ensures WithLast(Append(v, key, x), y) == Append(v, key, y)
  {
    var a := Append(v, key, x);
    if v.tag == ARRAY {
      assert a.data.elems[..|a.data.elems| - 1] == v.data.elems;
    } else {
      assert a.data.members[..|a.data.members| - 1] == v.data.members;
    }
  }

  /** For a scalar value, its single event makes exactly that value. */
  lemma {:induction false} ScalarEvent(v: Value)
    requires Plain(v) && Wf(v) && v.tag !in {ARRAY, OBJECT}
    ensures |Events(v)| == 1 && ValueOf(Events(v)[0]) == v
    ensures Events(v)[0] !in {StartObjectEvent, EndObjectEvent, StartArrayEvent, EndArrayEvent}
  {
  }

  /** Three feeds in a row: an opening call, the calls in between, a closing call. */
  lemma {:induction false} Bracket(s: DocState, open: Event, mid: seq<Event>, close: Event, s1: DocState, s2: DocState)
    requires Step(s, open) == Some(s1) && Feed(s1, mid) == Some(s2)
    ensures Feed(s, [open] + mid + [close]) == Step(s2, close)
  {
    FeedConcat(s, [open] + mid, [close]);
    FeedConcat(s, [open], mid);
    FeedOne(s, open);
    FeedOne(s2, close);
  }

  /** An accepted StartObject / StartArray: the empty container is added and opened. */
  lemma {:induction false} PushAccepted(s: DocState, t: Type) returns (s1: DocState)
    requires Accepts(s) && t in {ARRAY, OBJECT}
    ensures Step(s, if t == ARRAY then StartArrayEvent else StartObjectEvent) == Some(s1)
    ensures s1.seeValue && |s1.stack| == |s.stack| + 1 && TopDepth(s1) == TopDepth(s) + 1
    ensures s1.root == Placing(s, OfType(t)).root
    ensures s1.stack == Placing(s, OfType(t)).stack + [0]
    ensures HasDepth(s1.root, TopDepth(s1)) && Open(s1.root, TopDepth(s1)) == OfType(t)
  {
    AddValueAccepted(s, OfType(t));
    s1 := PushStep(s, t).value;
    OpenDeeper(s1.root, TopDepth(s));
  }

  /** Closing a Level of the matching type. */
  lemma {:induction false} PopAccepted(s: DocState, t: Type)
    requires s.stack != [] && HasDepth(s.root, TopDepth(s)) && Open(s.root, TopDepth(s)).tag == t
    requires t in {ARRAY, OBJECT}
    ensures Step(s, if t == ARRAY then EndArrayEvent else EndObjectEvent) == Some(s.(stack := s.stack[..TopDepth(s)]))
  {
  }

  /** The root after a child container has been filled: the container appended in one go. */
  lemma {:induction false} FilledChild(s: DocState, t: Type, x: Value, s1: DocState)
    requires Accepts(s) && t in {ARRAY, OBJECT}
    requires s1.root == Placing(s, OfType(t)).root
    ensures HasDepth(s1.root, TopDepth(s) + 1)
    ensures SetAt(s1.root, TopDepth(s) + 1, x) == Placing(s, x).root
  {
    var d := TopDepth(s);
    var top := Open(s.root, d);
    SetAtDeeper(s.root, d, Append(top, s.key, OfType(t)), x);
    WithLastAppend(top, s.key, OfType(t), x);
  }

  /** What a parse produces: plain, well-formed, and no object with a repeated key. */
  predicate Buildable(v: Value)
  {
    Plain(v) && Wf(v) && UniqueKeys(v)
  }

  /** Every element is Buildable, stated one element at a time from the right. */
  predicate BuildableElems(es: seq<Value>)
    decreases |es|
  {
    es == [] || (BuildableElems(es[..|es| - 1]) && Buildable(es[|es| - 1]))
  }

  /** Every member has a string key and a Buildable value, one member at a time from the right. */
  predicate BuildableMembers(ms: seq<Member>)
    decreases |ms|
  {
    ms == [] ||
    (BuildableMembers(ms[..|ms| - 1]) &&
     ms[|ms| - 1].key.tag == STRING && ms[|ms| - 1].key.data.StringData? && Buildable(ms[|ms| - 1].value))
  }

  lemma {:induction false} ElemsBuildable(es: seq<Value>)
    requires forall i :: 0 <= i < |es| ==> Buildable(es[i])
    ensures BuildableElems(es)
    decreases |es|
  {
    if es != [] {
      var n := |es| - 1;
      assert forall i :: 0 <= i < n ==> es[..n][i] == es[i];
      ElemsBuildable(es[..n]);
    }
  }

  lemma {:induction false} MembersBuildable(ms: seq<Member>)
    requires KeysAreStrings(ms)
    requires forall i :: 0 <= i < |ms| ==> Buildable(ms[i].value)
    ensures BuildableMembers(ms)
    decreases |ms|
  {
    if ms != [] {
      var n := |ms| - 1;
      assert forall i :: 0 <= i < n ==> ms[..n][i] == ms[i];
      MembersBuildable(ms[..n]);
    }
  }

  /** The top Level exists and sits on the rightmost path. */
  ghost predicate Deep(s: DocState)
  {
    s.stack != [] && HasDepth(s.root, TopDepth(s))
  }

  /** The top Level is the array with elements pre. */
  ghost predicate ArrayTop(s: DocState, pre: seq<Value>)
  {
    s.seeValue && Deep(s) && Open(s.root, TopDepth(s)) == Value(ARRAY, ArrayData(pre))
  }

  /** The top Level is the object with members pre and takes a key next. */
  ghost predicate ObjectTop(s: DocState, pre: seq<Member>)
  {
    s.seeValue && Deep(s) && Open(s.root, TopDepth(s)) == Value(OBJECT, ObjectData(pre)) &&
    s.stack[TopDepth(s)] % 2 == 0
  }

  /** From s, the top Level has become c after k more values, and nothing else has moved. */
  ghost predicate Filled(s: DocState, s2: DocState, c: Value, k: nat)
    requires Deep(s)
  {
    var d := TopDepth(s);
    s2.seeValue && s2.root == SetAt(s.root, d, c) && s2.stack == s.stack[d := s.stack[d] + k]
  }

  /** Feeding the events of x to a Level that takes a value adds x to that Level. */
  lemma {:induction false} FeedValue(s: DocState, x: Value)
    requires Accepts(s) && Buildable(x)
    ensures var r := Feed(s, Events(x));
      r.Some? && r.value.seeValue && r.value.root == Placing(s, x).root && r.value.stack == Placing(s, x).stack
    decreases x, 1
  {
    if x.tag == ARRAY {
      FeedArray(s, x);
    } else if x.tag == OBJECT {
      FeedObject(s, x);
    } else {
      ScalarEvent(x);
      FeedOne(s, Events(x)[0]);
      AddValueAccepted(s, x);
    }
  }

  lemma {:induction false} FeedArray(s: DocState, x: Value)
    requires Accepts(s) && Buildable(x) && x.tag == ARRAY
    ensures var r := Feed(s, Events(x));
      r.Some? && r.value.seeValue && r.value.root == Placing(s, x).root && r.value.stack == Placing(s, x).stack
    decreases x, 0
  {
    var d := TopDepth(s);
    var es := x.data.elems;
    var s1 := PushAccepted(s, ARRAY);
    assert [] + es == es;
    assert x == Value(ARRAY, ArrayData([] + es));
    ElemsBuildable(es);
    var inner := ElemsEvents(es);
    var s2 := ElemsFeed(s1, es, [], inner);
    Bracket(s, StartArrayEvent, inner, EndArrayEvent, s1, s2);
    assert Events(x) == [StartArrayEvent] + inner + [EndArrayEvent];
    FilledChild(s, ARRAY, x, s1);
    FilledTop(s1, s2, Value(ARRAY, ArrayData([] + es)), |es|);
    PopAccepted(s2, ARRAY);
    assert s2.stack[..d + 1] == Placing(s, x).stack;
  }

  lemma {:induction false} FeedObject(s: DocState, x: Value)
    requires Accepts(s) && Buildable(x) && x.tag == OBJECT
    ensures var r := Feed(s, Events(x));
      r.Some? && r.value.seeValue && r.value.root == Placing(s, x).root && r.value.stack == Placing(s, x).stack
    decreases x, 0
  {
    var d := TopDepth(s);
    var ms := x.data.members;
    var s1 := PushAccepted(s, OBJECT);
    assert [] + ms == ms;
    assert x == Value(OBJECT, ObjectData([] + ms));
    MembersBuildable(ms);
    var inner := MembersEvents(ms);
    var s2 := MembersFeed(s1, ms, [], inner);
    Bracket(s, StartObjectEvent, inner, EndObjectEvent, s1, s2);
    assert Events(x) == [StartObjectEvent] + inner + [EndObjectEvent];
    FilledChild(s, OBJECT, x, s1);
    FilledTop(s1, s2, Value(OBJECT, ObjectData([] + ms)), 2 * |ms|);
    PopAccepted(s2, OBJECT);
    assert s2.stack[..d + 1] == Placing(s, x).stack;
  }

  /** Before any element, nothing has moved. */
  lemma {:induction false} NothingFilled(s: DocState, c: Value)
    requires Deep(s) && Open(s.root, TopDepth(s)) == c && s.seeValue
    ensures Filled(s, s, c, 0)
  {
    SetAtOpen(s.root, TopDepth(s));
    assert s.stack[TopDepth(s) := s.stack[TopDepth(s)]] == s.stack;
  }

  /** The events of a list of elements (ev), fed to an array Level, append them in order. */
  lemma {:induction false} ElemsFeed(s: DocState, es: seq<Value>, pre: seq<Value>, ev: seq<Event>) returns (s2: DocState)
    requires ArrayTop(s, pre) && ElemsWf(es) && BuildableElems(es) && ev == ElemsEvents(es)
    ensures Feed(s, ev) == Some(s2) && Filled(s, s2, Value(ARRAY, ArrayData(pre + es)), |es|)
    decreases es, 1
  {
    if es == [] {
      assert pre + es == pre;
      NothingFilled(s, Value(ARRAY, ArrayData(pre)));
      s2 := s;
    } else {
      var n := |es| - 1;
      var front, e := es[..n], es[n];
      ElemsSnoc(es);
      var s1 := ElemsFeed(s, front, pre, ElemsEvents(front));
      FeedSplit(s, ElemsEvents(front), Events(e), s1);
      assert e in es;
      s2 := ElemsExtend(s, s1, pre, front, e);
      SnocAppend(pre, es);
    }
  }

  /** One more element after the elements of front. */
  lemma {:induction false} ElemsExtend(s: DocState, s1: DocState, pre: seq<Value>, front: seq<Value>, e: Value)
    returns (s2: DocState)
    requires Deep(s) && Filled(s, s1, Value(ARRAY, ArrayData(pre + front)), |front|)
    requires Buildable(e)
    ensures Feed(s1, Events(e)) == Some(s2)
    ensures Filled(s, s2, Value(ARRAY, ArrayData(pre + front + [e])), |front| + 1)
    decreases e, 2
  {
    ArrayFilledAccepts(s, s1, pre + front, |front|);
    FeedValue(s1, e);
    s2 := Feed(s1, Events(e)).value;
    ElemPlaced(s, s1, s2, pre + front, |front|, e);
  }

  /** A Level filled to an array takes a value next. */
  lemma {:induction false} ArrayFilledAccepts(s: DocState, s1: DocState, es: seq<Value>, k: nat)
    requires Deep(s) && Filled(s, s1, Value(ARRAY, ArrayData(es)), k)
    ensures Accepts(s1)
  {
    FilledTop(s, s1, Value(ARRAY, ArrayData(es)), k);
  }

  /** After filling, the top Level is still at the same depth and holds c. */
  lemma {:induction false} FilledTop(s: DocState, s1: DocState, c: Value, k: nat)
    requires Deep(s) && Filled(s, s1, c, k)
    ensures s1.seeValue && s1.stack != [] && TopDepth(s1) == TopDepth(s)
    ensures HasDepth(s1.root, TopDepth(s1)) && Open(s1.root, TopDepth(s1)) == c
  {
    assert |s1.stack| == |s.stack|;
  }

  /** An element placed on the array Level that s has filled to es: the array gains it. */
  lemma {:induction false} ElemPlaced(s: DocState, s1: DocState, s2: DocState, es: seq<Value>, k: nat, e: Value)
    requires Deep(s) && Filled(s, s1, Value(ARRAY, ArrayData(es)), k) && Accepts(s1)
    requires s2.seeValue && s2.root == Placing(s1, e).root && s2.stack == Placing(s1, e).stack
    ensures Filled(s, s2, Value(ARRAY, ArrayData(es + [e])), k + 1)
  {
    var c1 := Value(ARRAY, ArrayData(es));
    PlacedFilled(s, s1, s2, c1, k, e);
    AppendElem(es, s1.key, e);
    FilledSame(s, s2, Append(c1, s1.key, e), Value(ARRAY, ArrayData(es + [e])), k + 1, k + 1);
  }

  /** A value placed on the top Level of s1, which s has filled to c, fills it to c with x appended. */
  lemma {:induction false} PlacedFilled(s: DocState, s1: DocState, s2: DocState, c: Value, k: nat, x: Value)
    requires Deep(s) && Filled(s, s1, c, k) && Accepts(s1)
    requires s2.seeValue && s2.root == Placing(s1, x).root && s2.stack == Placing(s1, x).stack
    ensures IsContainer(c) && (c.tag == OBJECT ==> s1.key.tag == STRING && s1.key.data.StringData?)
    ensures Filled(s, s2, Append(c, s1.key, x), k + 1)
  {
    var d := TopDepth(s);
    assert TopDepth(s1) == d;
    SetAtTwice(s.root, d, c, Append(c, s1.key, x));
  }

  lemma {:induction false} AppendElem(es: seq<Value>, key: Value, x: Value)
    ensures Append(Value(ARRAY, ArrayData(es)), key, x) == Value(ARRAY, ArrayData(es + [x]))
  {
  }

  /** What feeding the members ms to the object Level with members pre needs. */
  ghost predicate MembersReady(s: DocState, pre: seq<Member>, ms: seq<Member>)
  {
    ObjectTop(s, pre) && KeysAreStrings(pre + ms) && DistinctKeys(pre + ms) &&
    KeysAreStrings(ms) && MembersWf(ms) && BuildableMembers(ms)
  }

  /** The events of a list of members (ev), fed to an object Level at an even count, append them. */
  lemma {:induction false} MembersFeed(s: DocState, ms: seq<Member>, pre: seq<Member>, ev: seq<Event>)
    returns (s2: DocState)
    requires MembersReady(s, pre, ms) && ev == MembersEvents(ms)
    ensures Feed(s, ev) == Some(s2) && Filled(s, s2, Value(OBJECT, ObjectData(pre + ms)), 2 * |ms|)
    decreases ms, 1
  {
    if ms == [] {
      assert pre + ms == pre;
      NothingFilled(s, Value(OBJECT, ObjectData(pre)));
      s2 := s;
    } else {
      var n := |ms| - 1;
      MembersReadyFront(s, pre, ms);
      var s1 := MembersFeed(s, ms[..n], pre, MembersEvents(ms[..n]));
      assert ms[n] in ms;
      s2 := MembersLast(s, s1, pre, ms, ev);
    }
  }

  lemma {:induction false} MembersReadyFront(s: DocState, pre: seq<Member>, ms: seq<Member>)
    requires MembersReady(s, pre, ms) && ms != []
    ensures MembersReady(s, pre, ms[..|ms| - 1])
  {
    MembersPrefix(pre, ms);
    MembersSnoc(ms);
  }

  /** The last member, once the members before it are in place. */
  lemma {:induction false} MembersLast(s: DocState, s1: DocState, pre: seq<Member>, ms: seq<Member>, ev: seq<Event>)
    returns (s2: DocState)
    requires MembersReady(s, pre, ms) && ms != [] && ev == MembersEvents(ms)
    requires Feed(s, MembersEvents(ms[..|ms| - 1])) == Some(s1)
    requires Filled(s, s1, Value(OBJECT, ObjectData(pre + ms[..|ms| - 1])), 2 * (|ms| - 1))
    ensures Feed(s, ev) == Some(s2) && Filled(s, s2, Value(OBJECT, ObjectData(pre + ms)), 2 * |ms|)
    decreases ms[|ms| - 1], 4
  {
    var n := |ms| - 1;
    var front, m := ms[..n], ms[n];
    MembersPrefix(pre, ms);
    MembersSnoc(ms);
    var k := m.key.data.chars;
    FeedSplit(s, MembersEvents(front), [KeyEvent(k)] + Events(m.value), s1);
    s2 := MemberExtend(s, s1, pre, front, m);
    SnocAppend(pre, ms);
    FilledSame(s, s2, Value(OBJECT, ObjectData(pre + front + [m])), Value(OBJECT, ObjectData(pre + ms)),
      2 * |front| + 2, 2 * |ms|);
  }

  lemma {:induction false} FilledSame(s: DocState, s2: DocState, c: Value, c': Value, k: nat, k': nat)
    requires Deep(s) && Filled(s, s2, c, k) && c == c' && k == k'
    ensures Filled(s, s2, c', k')
  {
  }

  /** The facts about pre + ms that carry over to pre + ms without its last member. */
  lemma {:induction false} MembersPrefix(pre: seq<Member>, ms: seq<Member>)
    requires ms != [] && KeysAreStrings(pre + ms) && DistinctKeys(pre + ms) && KeysAreStrings(ms)
    ensures var front := ms[..|ms| - 1];
      KeysAreStrings(pre + front) && DistinctKeys(pre + front) &&
      (forall i :: 0 <= i < |pre| + |front| ==> (pre + front)[i].key.data.chars != ms[|ms| - 1].key.data.chars)
  {
    var n := |ms| - 1;
    var front := ms[..n];
    assert forall i :: 0 <= i < |pre| + n ==> (pre + front)[i] == (pre + ms)[i];
    assert (pre + ms)[|pre| + n] == ms[n];
  }

  /** One more member, key first, after the members of front. */
  lemma {:induction false} MemberExtend(s: DocState, s1: DocState, pre: seq<Member>, front: seq<Member>, m: Member)
    returns (s2: DocState)
    requires Deep(s) && s.stack[TopDepth(s)] % 2 == 0
    requires Filled(s, s1, Value(OBJECT, ObjectData(pre + front)), 2 * |front|)
    requires KeysAreStrings(pre + front) && m.key.tag == STRING && m.key.data.StringData?
    requires forall i :: 0 <= i < |pre| + |front| ==> (pre + front)[i].key.data.chars != m.key.data.chars
    requires Buildable(m.value)
    ensures Feed(s1, [KeyEvent(m.key.data.chars)] + Events(m.value)) == Some(s2)
    ensures Filled(s, s2, Value(OBJECT, ObjectData(pre + front + [m])), 2 * |front| + 2)
    decreases m, 3
  {
    s2 := MemberAfterKey(s, s1, pre + front, 2 * |front|, m);
  }

  /** A key the members ms lack, then its value: the member is appended. */
  lemma {:induction false} MemberAfterKey(s: DocState, s1: DocState, ms: seq<Member>, c: nat, m: Member)
    returns (s2: DocState)
    requires Deep(s) && s.stack[TopDepth(s)] % 2 == 0 && c % 2 == 0
    requires Filled(s, s1, Value(OBJECT, ObjectData(ms)), c)
    requires KeysAreStrings(ms) && m.key.tag == STRING && m.key.data.StringData?
    requires forall i :: 0 <= i < |ms| ==> ms[i].key.data.chars != m.key.data.chars
    requires Buildable(m.value)
    ensures Feed(s1, [KeyEvent(m.key.data.chars)] + Events(m.value)) == Some(s2)
    ensures Filled(s, s2, Value(OBJECT, ObjectData(ms + [m])), c + 2)
    decreases m, 2
  {
    var s3 := KeyThenAccepts(s, s1, ms, c, m.key.data.chars, Events(m.value));
    s2 := MemberValue(s, s3, ms, c, m);
  }

  /** The member's value, fed once its key is pending. */
  lemma {:induction false} MemberValue(s: DocState, s3: DocState, ms: seq<Member>, c: nat, m: Member) returns (s2: DocState)
    requires Deep(s) && Accepts(s3) && TopDepth(s3) == TopDepth(s)
    requires s3.root == SetAt(s.root, TopDepth(s), Value(OBJECT, ObjectData(ms)))
    requires m.key.tag == STRING && m.key.data.StringData? && s3.key == OfString(m.key.data.chars)
    requires s3.stack == s.stack[TopDepth(s) := s.stack[TopDepth(s)] + c + 1]
    requires Buildable(m.value)
    ensures Feed(s3, Events(m.value)) == Some(s2)
    ensures Filled(s, s2, Value(OBJECT, ObjectData(ms + [m])), c + 2)
    decreases m, 1
  {
    assert m.value < m;
    FeedValue(s3, m.value);
    s2 := Feed(s3, Events(m.value)).value;
    MemberPlaced(s, s3, ms, c, m, s2);
  }

  /** A new key at an even count: the Level then takes the member's value. */
  lemma {:induction false} KeyThenAccepts(s: DocState, s1: DocState, ms: seq<Member>, c: nat, k: seq<char>, rest: seq<Event>)
    returns (s3: DocState)
    requires Deep(s) && s.stack[TopDepth(s)] % 2 == 0 && c % 2 == 0
    requires Filled(s, s1, Value(OBJECT, ObjectData(ms)), c)
    requires KeysAreStrings(ms) && forall i :: 0 <= i < |ms| ==> ms[i].key.data.chars != k
    ensures Feed(s1, [KeyEvent(k)] + rest) == Feed(s3, rest) && Accepts(s3)
    ensures s3.root == SetAt(s.root, TopDepth(s), Value(OBJECT, ObjectData(ms))) && s3.key == OfString(k)
    ensures TopDepth(s3) == TopDepth(s) && s3.stack == s.stack[TopDepth(s) := s.stack[TopDepth(s)] + c + 1]
  {
    var d := TopDepth(s);
    FilledTop(s, s1, Value(OBJECT, ObjectData(ms)), c);
    s3 := KeyAccepted(s1, k);
    FeedSplit(s1, [KeyEvent(k)], rest, s3);
    BumpTwice(s.stack, d, c, 1);
    NewKey(ms, k);
    ObjectAccepts(s3, ms, k);
  }

  /** Counting a more values after b on Level d is counting b + a. */
  lemma {:induction false} BumpTwice(st: seq<nat>, d: nat, b: nat, a: nat)
    requires d < |st|
    ensures st[d := st[d] + b][d := st[d := st[d] + b][d] + a] == st[d := st[d] + b + a]
  {
  }

  /** An object Level holding ms, with a pending key k it lacks, takes the key's value next. */
  lemma {:induction false} ObjectAccepts(s: DocState, ms: seq<Member>, k: seq<char>)
    requires s.seeValue && Deep(s) && Open(s.root, TopDepth(s)) == Value(OBJECT, ObjectData(ms))
    requires s.stack[TopDepth(s)] % 2 == 1 && s.key == OfString(k)
    requires KeysAreStrings(ms) && FindMember(Value(OBJECT, ObjectData(ms)), k) == |ms|
    ensures Accepts(s)
  {
  }

  /** The member's value placed under its key completes the member. */
  lemma {:induction false} MemberPlaced(s: DocState, s3: DocState, ms: seq<Member>, c: nat, m: Member, s2: DocState)
    requires Deep(s) && Accepts(s3) && TopDepth(s3) == TopDepth(s)
    requires s3.root == SetAt(s.root, TopDepth(s), Value(OBJECT, ObjectData(ms)))
    requires m.key.tag == STRING && m.key.data.StringData? && s3.key == OfString(m.key.data.chars)
    requires s3.stack == s.stack[TopDepth(s) := s.stack[TopDepth(s)] + c + 1]
    requires s2.seeValue && s2.root == Placing(s3, m.value).root && s2.stack == Placing(s3, m.value).stack
    ensures Filled(s, s2, Value(OBJECT, ObjectData(ms + [m])), c + 2)
  {
    var d := TopDepth(s);
    var obj := Value(OBJECT, ObjectData(ms));
    assert Member(s3.key, m.value) == m;
    assert Append(obj, s3.key, m.value) == Value(OBJECT, ObjectData(ms + [m]));
    SetAtTwice(s.root, d, obj, Value(OBJECT, ObjectData(ms + [m])));
  }

  /** A key no member has is not found. */
  lemma {:induction false} NewKey(ms: seq<Member>, k: seq<char>)
    requires KeysAreStrings(ms)
    requires forall i :: 0 <= i < |ms| ==> ms[i].key.data.chars != k
    ensures FindMember(Value(OBJECT, ObjectData(ms)), k) == |ms|
  {
    FindMemberEnd(Value(OBJECT, ObjectData(ms)), k);
  }

  lemma {:induction false} SnocAppend<T>(pre: seq<T>, xs: seq<T>)
    requires xs != []
    ensures pre + xs[..|xs| - 1] + [xs[|xs| - 1]] == pre + xs
  {
    assert xs[..|xs| - 1] + [xs[|xs| - 1]] == xs;
  }

  /** A Key call at an even count of an object Level: the key becomes the pending key. */
  lemma {:induction false} KeyAccepted(s: DocState, k: seq<char>) returns (s3: DocState)
    requires s.seeValue && Deep(s)
    requires Open(s.root, TopDepth(s)).tag == OBJECT && s.stack[TopDepth(s)] % 2 == 0
    ensures Feed(s, [KeyEvent(k)]) == Some(s3)
    ensures s3 == DocState(s.root, s.stack[TopDepth(s) := s.stack[TopDepth(s)] + 1], OfString(k), true)
  {
    FeedOne(s, KeyEvent(k));
    s3 := AddValueStep(s, OfString(k)).value;
  }

  /**
   * A fresh Document fed the events writeTo makes for v ends up holding v itself, with no
   * Level open.
   */
  lemma {:induction false} RoundTrip(v: Value)
    requires Plain(v) && Wf(v) && UniqueKeys(v)
    ensures var r := Feed(Initial, Events(v));
      r.Some? && r.value.root == v && r.value.stack == [] && r.value.seeValue
  {
    if v.tag == ARRAY {
      RoundTripArray(v, ElemsEvents(v.data.elems));
    } else if v.tag == OBJECT {
      RoundTripObject(v, MembersEvents(v.data.members));
    } else {
      ScalarEvent(v);
      FeedOne(Initial, Events(v)[0]);
    }
  }

  /** The first StartArray / StartObject on a fresh Document: the root is the empty container, opened. */
  lemma {:induction false} InitialPush(t: Type) returns (s1: DocState)
    requires t in {ARRAY, OBJECT}
    ensures Step(Initial, if t == ARRAY then StartArrayEvent else StartObjectEvent) == Some(s1)
    ensures s1 == DocState(OfType(t), [0], OfType(NULL), true) && Deep(s1) && TopDepth(s1) == 0
    ensures t == ARRAY ==> ArrayTop(s1, [])
    ensures t == OBJECT ==> ObjectTop(s1, [])
  {
    s1 := DocState(OfType(t), [0], OfType(NULL), true);
    var u := DocState(OfType(t), [], OfType(NULL), true);
    assert AddValueStep(Initial, OfType(t)) == Some(u);
    assert u.stack + [0] == [0];
    assert PushStep(Initial, t) == Some(s1);
    assert Open(s1.root, 0) == OfType(t);
  }

  lemma {:induction false} RoundTripArray(v: Value, inner: seq<Event>)
    requires Buildable(v) && v.tag == ARRAY && inner == ElemsEvents(v.data.elems)
    ensures Events(v) == [StartArrayEvent] + inner + [EndArrayEvent]
    ensures Feed(Initial, [StartArrayEvent] + inner + [EndArrayEvent]).Some?
    ensures var r := Feed(Initial, [StartArrayEvent] + inner + [EndArrayEvent]).value;
      r.root == v && r.stack == [] && r.seeValue
  {
    var s1 := InitialPush(ARRAY);
    assert [] + v.data.elems == v.data.elems;
    ElemsBuildable(v.data.elems);
    var s2 := ElemsFeed(s1, v.data.elems, [], inner);
    Bracket(Initial, StartArrayEvent, inner, EndArrayEvent, s1, s2);
    assert TopDepth(s1) == 0 && s2.root == v && |s2.stack| == 1;
    PopAccepted(s2, ARRAY);
  }

  lemma {:induction false} RoundTripObject(v: Value, inner: seq<Event>)
    requires Buildable(v) && v.tag == OBJECT && inner == MembersEvents(v.data.members)
    ensures Events(v) == [StartObjectEvent] + inner + [EndObjectEvent]
    ensures Feed(Initial, [StartObjectEvent] + inner + [EndObjectEvent]).Some?
    ensures var r := Feed(Initial, [StartObjectEvent] + inner + [EndObjectEvent]).value;
      r.root == v && r.stack == [] && r.seeValue
  {
    var s1 := InitialPush(OBJECT);
    assert [] + v.data.members == v.data.members;
    MembersBuildable(v.data.members);
    var s2 := MembersFeed(s1, v.data.members, [], inner);
    Bracket(Initial, StartObjectEvent, inner, EndObjectEvent, s1, s2);
    assert TopDepth(s1) == 0 && s2.root == v && |s2.stack| == 1;
    PopAccepted(s2, OBJECT);
  }

  // ---------------------------------------------------------------- the Document object

  /** Document: the root value it builds, its Levels, the pending key, and see_value_. */
  class Document {
    var root: Value
    var stack: seq<nat>
    var key: Value
    var seeValue: bool

    function State(): DocState
      reads this
    {
      DocState(root, stack, key, seeValue)
    }

    constructor()
      ensures State() == Initial
    {
      root := OfType(NULL);
      stack := [];
      key := OfType(NULL);
      seeValue := false;
    }

    /** Document::addValue; the assertions it makes are its precondition. */
    method AddValueCall(x: Value)
      requires AddValueStep(State(), x).Some?
      modifies this
      ensures State() == AddValueStep(old(State()), x).value
    {
      if !seeValue {
        seeValue := true;
        root := Value(x.tag, if x.tag == NULL then root.data else x.data);
        return;
      }
      var d := |stack| - 1;
      var top := Open(root, d);
      if top.tag == ARRAY {
        root := SetAt(root, d, Values.AddValue(top, x));
      } else if stack[d] % 2 == 0 {
        key := x;
      } else {
        root := SetAt(root, d, Values.AddMember(top, key, x));
      }
      stack := stack[d := stack[d] + 1];
    }

    /** One of Null, Bool, Int32, Int64, Double, String and Key: addValue of the argument. */
    method AddScalar(e: Event) returns (ok: bool)
      requires !e.StartObjectEvent? && !e.EndObjectEvent? && !e.StartArrayEvent? && !e.EndArrayEvent?
      requires Step(State(), e).Some?
      modifies this
      ensures ok && State() == Step(old(State()), e).value
    {
      AddValueCall(ValueOf(e));
      return true;
    }

    method Null() returns (ok: bool)
      requires Step(State(), NullEvent).Some?
      modifies this
      ensures ok && State() == Step(old(State()), NullEvent).value
    {
      ok := AddScalar(NullEvent);
    }

    method Bool(b: bool) returns (ok: bool)
      requires Step(State(), BoolEvent(b)).Some?
      modifies this
      ensures ok && State() == Step(old(State()), BoolEvent(b)).value
    {
      ok := AddScalar(BoolEvent(b));
    }

    method Int32(i: I32) returns (ok: bool)
      requires Step(State(), Int32Event(i)).Some?
      modifies this
      ensures ok && State() == Step(old(State()), Int32Event(i)).value
    {
      ok := AddScalar(Int32Event(i));
    }

    method Int64(i: I64) returns (ok: bool)
      requires Step(State(), Int64Event(i)).Some?
      modifies this
      ensures ok && State() == Step(old(State()), Int64Event(i)).value
    {
      ok := AddScalar(Int64Event(i));
    }

    method Double(d: Handler.Double) returns (ok: bool)
      requires Step(State(), DoubleEvent(d)).Some?
      modifies this
      ensures ok && State() == Step(old(State()), DoubleEvent(d)).value
    {
      ok := AddScalar(DoubleEvent(d));
    }

    method String(str: seq<char>) returns (ok: bool)
      requires Step(State(), StringEvent(str)).Some?
      modifies this
      ensures ok && State() == Step(old(State()), StringEvent(str)).value
    {
      ok := AddScalar(StringEvent(str));
    }

    method Key(str: seq<char>) returns (ok: bool)
      requires Step(State(), KeyEvent(str)).Some?
      modifies this
      ensures ok && State() == Step(old(State()), KeyEvent(str)).value
    {
      ok := AddScalar(KeyEvent(str));
    }

    /** StartObject and StartArray: addValue of an empty container, then a new Level for it. */
    method Start(t: Type) returns (ok: bool)
      requires t == ARRAY || t == OBJECT
      requires PushStep(State(), t).Some?
      modifies this
      ensures ok && State() == PushStep(old(State()), t).value
    {
      AddValueCall(OfType(t));
      stack := stack + [0];
      return true;
    }

    method StartObject() returns (ok: bool)
      requires Step(State(), StartObjectEvent).Some?
      modifies this
      ensures ok && State() == Step(old(State()), StartObjectEvent).value
    {
      ok := Start(OBJECT);
    }

    method StartArray() returns (ok: bool)
      requires Step(State(), StartArrayEvent).Some?
      modifies this
      ensures ok && State() == Step(old(State()), StartArrayEvent).value
    {
      ok := Start(ARRAY);
    }

    /** EndObject and EndArray: the innermost Level, of the matching type, is dropped. */
    method End(t: Type) returns (ok: bool)
      requires PopStep(State(), t).Some?
      modifies this
      ensures ok && State() == PopStep(old(State()), t).value
    {
      stack := stack[..|stack| - 1];
      return true;
    }

    method EndObject() returns (ok: bool)
      requires Step(State(), EndObjectEvent).Some?
      modifies this
      ensures ok && State() == Step(old(State()), EndObjectEvent).value
    {
      ok := End(OBJECT);
    }

    method EndArray() returns (ok: bool)
      requires Step(State(), EndArrayEvent).Some?
      modifies this
      ensures ok && State() == Step(old(State()), EndArrayEvent).value
    {
      ok := End(ARRAY);
    }

    /** Any handler call, dispatched by its kind. */
    method Handle(e: Event) returns (ok: bool)
      requires Step(State(), e).Some?
      modifies this
      ensures ok && State() == Step(old(State()), e).value
    {
      match e
      case StartObjectEvent => ok := StartObject();
      case StartArrayEvent => ok := StartArray();
      case EndObjectEvent => ok := EndObject();
      case EndArrayEvent => ok := EndArray();
      case _ => ok := AddScalar(e);
    }
  }
}
