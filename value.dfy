// The JSON value (include/neujson/value.h, include/neujson/value.cc): a type tag next to a
// variant holding the payload. The two usually agree, but not always: Value(NEU_BOOL)
// has the BOOL tag and an empty (monostate) payload, and a moved-from value has the NULL
// tag and keeps whatever payload it had. Strings, arrays and objects are held by value
// here; the shared ownership of their storage is not modelled.

module Values {
  import opened Arith
  import opened Handler

  datatype Type = NULL | BOOL | INT32 | INT64 | DOUBLE | STRING | ARRAY | OBJECT

  /** The alternatives of the payload variant, in declaration order. */
  datatype Data =
    | Monostate
    | BoolData(b: bool)
    | Int32Data(i32: I32)
    | Int64Data(i64: I64)
    | DoubleData(d: Double)
    | StringData(chars: seq<char>)
    | ArrayData(elems: seq<Value>)
    | ObjectData(members: seq<Member>)

  datatype Value = Value(tag: Type, data: Data)

  datatype Member = Member(key: Value, value: Value)

  datatype Option<T> = None | Some(value: T)

  /** Either the alternative std::get asked for, or the bad_variant_access it throws. */
  datatype Access<T> = Got(value: T) | BadVariantAccess

  // ---------------------------------------------------------------- well-formedness

  /** Every key is a string value holding its characters (what getStringView demands). */
  predicate KeysAreStrings(members: seq<Member>)
  {
    forall i :: 0 <= i < |members| ==> members[i].key.tag == STRING && members[i].key.data.StringData?
  }

  /**
   * The payload holds the alternative the tag names, all the way down. A NULL value may
   * hold anything: nothing reads the payload of a NULL.
   */
  predicate Wf(v: Value)
  {
    match v.tag
    case NULL => true
    case BOOL => v.data.BoolData?
    case INT32 => v.data.Int32Data?
    case INT64 => v.data.Int64Data?
    case DOUBLE => v.data.DoubleData?
    case STRING => v.data.StringData?
    case ARRAY => v.data.ArrayData? && forall i :: 0 <= i < |v.data.elems| ==> Wf(v.data.elems[i])
    case OBJECT =>
      v.data.ObjectData? && KeysAreStrings(v.data.members) &&
      forall i :: 0 <= i < |v.data.members| ==> Wf(v.data.members[i].value)
  }

  predicate ElemsWf(elems: seq<Value>)
  {
    forall i :: 0 <= i < |elems| ==> Wf(elems[i])
  }

  predicate MembersWf(members: seq<Member>)
  {
    forall i :: 0 <= i < |members| ==> MemberWf(members[i])
  }

  predicate MemberWf(m: Member)
  {
    Wf(m.value)
  }

  /**
   * The form the constructors and the document builder produce: well-formed, and every
   * NULL holds the empty payload.
   */
  predicate Plain(v: Value)
  {
    match v.tag
    case NULL => v.data == Monostate
    case BOOL => v.data.BoolData?
    case INT32 => v.data.Int32Data?
    case INT64 => v.data.Int64Data?
    case DOUBLE => v.data.DoubleData?
    case STRING => v.data.StringData?
    case ARRAY => v.data.ArrayData? && forall i :: 0 <= i < |v.data.elems| ==> Plain(v.data.elems[i])
    case OBJECT =>
      v.data.ObjectData? && KeysAreStrings(v.data.members) &&
      forall i :: 0 <= i < |v.data.members| ==> Plain(v.data.members[i].value)
  }

  lemma {:induction false} PlainIsWf(v: Value)
    requires Plain(v)
    ensures Wf(v)
    decreases v
  {
    match v.tag
    case ARRAY =>
      forall i | 0 <= i < |v.data.elems|
        ensures Wf(v.data.elems[i])
      {
        PlainIsWf(v.data.elems[i]);
      }
    case OBJECT =>
      forall i | 0 <= i < |v.data.members|
        ensures Wf(v.data.members[i].value)
      {
        var m := v.data.members[i];
        assert m.value < m;
        PlainIsWf(m.value);
      }
    case _ =>
  }

  /** No two members of an object share a key, at any depth: what addMember keeps. */
  predicate UniqueKeys(v: Value)
  {
    match v.tag
    case ARRAY => v.data.ArrayData? ==> forall i :: 0 <= i < |v.data.elems| ==> UniqueKeys(v.data.elems[i])
    case OBJECT =>
      v.data.ObjectData? ==>
        KeysAreStrings(v.data.members) && DistinctKeys(v.data.members) &&
        forall i :: 0 <= i < |v.data.members| ==> UniqueKeys(v.data.members[i].value)
    case _ => true
  }

  predicate DistinctKeys(members: seq<Member>)
    requires KeysAreStrings(members)
  {
    forall i, j :: 0 <= i < j < |members| ==> members[i].key.data.chars != members[j].key.data.chars
  }

  // ---------------------------------------------------------------- constructors

  /** Value(Type): empty payload for the scalars, an empty string, array or object otherwise. */
  function OfType(t: Type): (v: Value)
    ensures v.tag == t
    ensures t in {NULL, BOOL, INT32, INT64, DOUBLE} ==> v.data == Monostate
    ensures t == STRING ==> v.data == StringData([])
    ensures t == ARRAY ==> v.data == ArrayData([])
    ensures t == OBJECT ==> v.data == ObjectData([])
  {
    match t
    case STRING => Value(t, StringData([]))
    case ARRAY => Value(t, ArrayData([]))
    case OBJECT => Value(t, ObjectData([]))
    case _ => Value(t, Monostate)
  }

  function OfBool(b: bool): Value { Value(BOOL, BoolData(b)) }
  function OfInt32(i: I32): Value { Value(INT32, Int32Data(i)) }
  function OfInt64(i: I64): Value { Value(INT64, Int64Data(i)) }
  function OfDouble(d: Double): Value { Value(DOUBLE, DoubleData(d)) }
  function OfString(s: seq<char>): Value { Value(STRING, StringData(s)) }

  /** Value(const char *): the characters up to the terminating NUL. */
  function OfCString(s: seq<char>): (v: Value)
    requires '\0' in s
    ensures v.tag == STRING && v.data.StringData?
    ensures '\0' !in v.data.chars
    ensures |v.data.chars| < |s| && s[..|v.data.chars| + 1] == v.data.chars + ['\0']
  {
    OfString(UpToNul(s))
  }

  /** strlen: the prefix before the first NUL. */
  function {:induction false} UpToNul(s: seq<char>): (r: seq<char>)
    requires '\0' in s
    ensures '\0' !in r
    ensures |r| < |s| && s[..|r| + 1] == r + ['\0']
  {
    if s[0] == '\0' then []
    else
      assert '\0' in s[1..] by {
        var k :| 0 <= k < |s| && s[k] == '\0';
        assert s[1..][k - 1] == '\0';
      }
      var r := UpToNul(s[1..]);
      assert s[..|r| + 2] == [s[0]] + s[1..][..|r| + 1];
      [s[0]] + r
  }

  /** Value(const char *, len): exactly the first len characters, NULs included. */
  function OfChars(s: seq<char>, len: nat): (v: Value)
    requires len <= |s|
    ensures v.tag == STRING && v.data.StringData? && |v.data.chars| == len
    ensures forall i :: 0 <= i < len ==> v.data.chars[i] == s[i]
  {
    OfString(s[..len])
  }

  /** The typed constructors agree with their tag, so they can be read back. */
  lemma {:induction false} ConstructorsWf(b: bool, i: I32, j: I64, d: Double, s: seq<char>)
    ensures Wf(OfBool(b)) && Wf(OfInt32(i)) && Wf(OfInt64(j)) && Wf(OfDouble(d)) && Wf(OfString(s))
    ensures forall t: Type :: Wf(OfType(t)) <==> t in {NULL, STRING, ARRAY, OBJECT}
  {
  }

  // ---------------------------------------------------------------- queries

  predicate IsNull(v: Value) { v.tag == NULL }
  predicate IsBool(v: Value) { v.tag == BOOL }
  predicate IsInt32(v: Value) { v.tag == INT32 }
  /** isInt64 also answers yes for an INT32 value. */
  predicate IsInt64(v: Value) { v.tag == INT64 || v.tag == INT32 }
  predicate IsDouble(v: Value) { v.tag == DOUBLE }
  predicate IsString(v: Value) { v.tag == STRING }
  predicate IsArray(v: Value) { v.tag == ARRAY }
  predicate IsObject(v: Value) { v.tag == OBJECT }

  // Each getter asserts the tag and then asks the variant for the alternative the tag
  // names; a payload holding another alternative makes std::get throw bad_variant_access.
  // Value(NEU_BOOL), Value(NEU_INT32), Value(NEU_INT64) and Value(NEU_DOUBLE) leave the
  // payload empty, so their getters throw.

  function GetBool(v: Value): (r: Access<bool>)
    requires v.tag == BOOL
    ensures r.Got? <==> Wf(v)
    ensures r.Got? ==> OfBool(r.value) == v
  {
    if v.data.BoolData? then Got(v.data.b) else BadVariantAccess
  }

  function GetInt32(v: Value): (r: Access<I32>)
    requires v.tag == INT32
    ensures r.Got? <==> Wf(v)
    ensures r.Got? ==> OfInt32(r.value) == v
  {
    if v.data.Int32Data? then Got(v.data.i32) else BadVariantAccess
  }

  /** getInt64 widens an INT32 value. */
  function GetInt64(v: Value): (r: Access<I64>)
    requires IsInt64(v)
    ensures r.Got? <==> Wf(v)
    ensures v.tag == INT64 && r.Got? ==> OfInt64(r.value) == v
    ensures v.tag == INT32 ==> (r.Got? <==> GetInt32(v).Got?) && (r.Got? ==> r.value == GetInt32(v).value)
  {
    if v.tag == INT64 then (if v.data.Int64Data? then Got(v.data.i64) else BadVariantAccess)
    else if v.data.Int32Data? then Got(v.data.i32) else BadVariantAccess
  }

  function GetDouble(v: Value): (r: Access<Double>)
    requires v.tag == DOUBLE
    ensures r.Got? <==> Wf(v)
    ensures r.Got? ==> OfDouble(r.value) == v
  {
    if v.data.DoubleData? then Got(v.data.d) else BadVariantAccess
  }

  /** getStringView; getString copies the same characters. */
  function GetString(v: Value): (r: Access<seq<char>>)
    requires v.tag == STRING
    ensures r.Got? <==> Wf(v)
    ensures r.Got? ==> OfString(r.value) == v
  {
    if v.data.StringData? then Got(v.data.chars) else BadVariantAccess
  }

  function GetArray(v: Value): (r: Access<seq<Value>>)
    requires v.tag == ARRAY
    ensures r.Got? <==> v.data.ArrayData?
    ensures r.Got? ==> Value(ARRAY, ArrayData(r.value)) == v
  {
    if v.data.ArrayData? then Got(v.data.elems) else BadVariantAccess
  }

  function GetObject(v: Value): (r: Access<seq<Member>>)
    requires v.tag == OBJECT
    ensures r.Got? <==> v.data.ObjectData?
    ensures r.Got? ==> Value(OBJECT, ObjectData(r.value)) == v
  {
    if v.data.ObjectData? then Got(v.data.members) else BadVariantAccess
  }

  /** Every typed constructor is read back by its getter, and by no other predicate. */
  lemma {:induction false} GettersInvertConstructors(b: bool, i: I32, j: I64, d: Double, s: seq<char>)
    ensures GetBool(OfBool(b)) == Got(b) && GetInt32(OfInt32(i)) == Got(i) && GetInt64(OfInt64(j)) == Got(j)
    ensures GetDouble(OfDouble(d)) == Got(d) && GetString(OfString(s)) == Got(s)
    ensures GetInt64(OfInt32(i)) == Got(i as I64) && IsInt64(OfInt32(i)) && !IsInt32(OfInt64(j))
    ensures IsBool(OfBool(b)) && !IsNull(OfBool(b)) && IsDouble(OfDouble(d)) && IsString(OfString(s))
    ensures GetArray(OfType(ARRAY)) == Got([]) && GetObject(OfType(OBJECT)) == Got([]) && GetString(OfType(STRING)) == Got([])
    ensures IsArray(OfType(ARRAY)) && !IsObject(OfType(ARRAY)) && IsObject(OfType(OBJECT)) && !IsArray(OfType(OBJECT))
  {
  }

  /** The scalar types built by Value(Type) hold no payload: their getters throw. */
  lemma {:induction false} GettersOfEmptyScalarsThrow()
    ensures GetBool(OfType(BOOL)) == BadVariantAccess && GetInt32(OfType(INT32)) == BadVariantAccess
    ensures GetInt64(OfType(INT64)) == BadVariantAccess && GetInt64(OfType(INT32)) == BadVariantAccess
    ensures GetDouble(OfType(DOUBLE)) == BadVariantAccess
  {
  }

  /**
   * getSize as written: the ARRAY case asks the variant for the STRING alternative, which
   * an array never holds, so every well-formed array makes std::get throw.
   */
  function GetSizeAsWritten(v: Value): (r: Access<nat>)
    ensures v.tag == ARRAY && v.data.ArrayData? ==> r == BadVariantAccess
    ensures v.tag == OBJECT && v.data.ObjectData? ==> r == Got(|v.data.members|)
    ensures v.tag !in {ARRAY, OBJECT} ==> r == Got(1)
  {
    match v.tag
    case ARRAY => if v.data.StringData? then Got(|v.data.chars|) else BadVariantAccess
    case OBJECT => if v.data.ObjectData? then Got(|v.data.members|) else BadVariantAccess
    case _ => Got(1)
  }

  /** getSize as intended: the element count of an array, the member count of an object, 1 otherwise. */
  function GetSize(v: Value): (r: Access<nat>)
    ensures Wf(v) ==> r.Got?
    ensures Wf(v) && v.tag == ARRAY ==> r.value == |v.data.elems|
    ensures Wf(v) && v.tag == OBJECT ==> r.value == |v.data.members|
    ensures v.tag !in {ARRAY, OBJECT} ==> r == Got(1)
  {
    match v.tag
    case ARRAY => if v.data.ArrayData? then Got(|v.data.elems|) else BadVariantAccess
    case OBJECT => if v.data.ObjectData? then Got(|v.data.members|) else BadVariantAccess
    case _ => Got(1)
  }

  /** The discrepancy: the size of any well-formed array, even an empty one, throws as written. */
  lemma {:induction false} GetSizeOfArrayThrows(v: Value)
    requires Wf(v) && v.tag == ARRAY
    ensures GetSizeAsWritten(v) == BadVariantAccess
    ensures GetSize(v) == Got(|v.data.elems|)
    ensures GetSizeAsWritten(OfType(ARRAY)) == BadVariantAccess && GetSize(OfType(ARRAY)) == Got(0)
  {
  }

  /** operator[](index): at() throws out_of_range, here None, past the last element. */
  function Index(v: Value, index: nat): (r: Option<Value>)
    requires v.tag == ARRAY && v.data.ArrayData?
    ensures r.Some? <==> index < |v.data.elems|
    ensures r.Some? ==> r.value == v.data.elems[index]
  {
    if index < |v.data.elems| then Some(v.data.elems[index]) else None
  }

  /** findMember: the position of the first member whose key is key, |members| (end) if none. */
  function FindMember(v: Value, key: seq<char>): (i: nat)
    requires v.tag == OBJECT && v.data.ObjectData? && KeysAreStrings(v.data.members)
    ensures i <= |v.data.members|
    ensures i < |v.data.members| ==> v.data.members[i].key.data.chars == key
    ensures forall j :: 0 <= j < i ==> v.data.members[j].key.data.chars != key
  {
    FindIn(v.data.members, key)
  }

  /** std::find_if over the members, comparing key views. */
  function {:induction false} FindIn(members: seq<Member>, key: seq<char>): (i: nat)
    requires KeysAreStrings(members)
    ensures i <= |members|
    ensures i < |members| ==> members[i].key.data.chars == key
    ensures forall j :: 0 <= j < i ==> members[j].key.data.chars != key
  {
    if members == [] then 0
    else if members[0].key.data.chars == key then 0
    else
      assert KeysAreStrings(members[1..]) by {
        forall j | 0 <= j < |members| - 1
          ensures members[1..][j].key.tag == STRING && members[1..][j].key.data.StringData?
        {
          assert members[1..][j] == members[j + 1];
        }
      }
      var i := FindIn(members[1..], key);
      assert forall j :: 1 <= j < i + 1 ==> members[j] == members[1..][j - 1];
      1 + i
  }

  /** Some member has key as its key. */
  predicate HasKey(members: seq<Member>, key: seq<char>)
    requires KeysAreStrings(members)
  {
    exists i :: 0 <= i < |members| && members[i].key.data.chars == key
  }

  /** findMember reaches the end exactly when no member has the key. */
  lemma {:induction false} FindMemberEnd(v: Value, key: seq<char>)
    requires v.tag == OBJECT && v.data.ObjectData? && KeysAreStrings(v.data.members)
    ensures FindMember(v, key) == |v.data.members| <==> !HasKey(v.data.members, key)
  {
  }

  /**
   * operator[](key): the value of the first member with that key. With no such member the
   * source fails an assertion, so the key must be there.
   */
  function Lookup(v: Value, key: seq<char>): (r: Value)
    requires v.tag == OBJECT && v.data.ObjectData? && KeysAreStrings(v.data.members)
    requires HasKey(v.data.members, key)
    ensures exists i :: 0 <= i < |v.data.members| && v.data.members[i].key.data.chars == key && v.data.members[i].value == r &&
                        forall j :: 0 <= j < i ==> v.data.members[j].key.data.chars != key
  {
    FindMemberEnd(v, key);
    v.data.members[FindMember(v, key)].value
  }

  // ---------------------------------------------------------------- building

  /** addValue: appends to an array (the result is the array after the call). */
  function AddValue(v: Value, x: Value): (r: Value)
    requires v.tag == ARRAY && v.data.ArrayData?
    ensures r.tag == ARRAY && r.data.ArrayData?
    ensures |r.data.elems| == |v.data.elems| + 1
    ensures Index(r, |v.data.elems|) == Some(x)
    ensures forall i :: 0 <= i < |v.data.elems| ==> Index(r, i) == Index(v, i)
  {
    Value(ARRAY, ArrayData(v.data.elems + [x]))
  }

  /**
   * addMember: appends a member to an object. The key must be a string that no member
   * has yet.
   */
  function AddMember(v: Value, key: Value, x: Value): (r: Value)
    requires v.tag == OBJECT && v.data.ObjectData? && KeysAreStrings(v.data.members)
    requires key.tag == STRING && key.data.StringData?
    requires FindMember(v, key.data.chars) == |v.data.members|
    ensures r.tag == OBJECT && r.data.ObjectData? && KeysAreStrings(r.data.members)
    ensures |r.data.members| == |v.data.members| + 1
    ensures r.data.members[..|v.data.members|] == v.data.members
    ensures FindMember(r, key.data.chars) == |v.data.members|
    ensures HasKey(r.data.members, key.data.chars) && Lookup(r, key.data.chars) == x
  {
    var r := Value(OBJECT, ObjectData(v.data.members + [Member(key, x)]));
    assert r.data.members[|v.data.members|].key.data.chars == key.data.chars;
    r
  }

  /** Growing a container keeps well-formedness and the size accounts for the new entry. */
  lemma {:induction false} AddValueGrows(v: Value, x: Value)
    requires Wf(v) && v.tag == ARRAY && Wf(x)
    ensures Wf(AddValue(v, x))
    ensures GetSize(AddValue(v, x)) == Got(GetSize(v).value + 1)
    ensures UniqueKeys(v) && UniqueKeys(x) ==> UniqueKeys(AddValue(v, x))
  {
    var r := AddValue(v, x);
    assert forall i :: 0 <= i < |v.data.elems| ==> r.data.elems[i] == v.data.elems[i];
  }

  lemma {:induction false} AddMemberGrows(v: Value, key: Value, x: Value)
    requires Wf(v) && v.tag == OBJECT && Wf(x)
    requires key.tag == STRING && key.data.StringData?
    requires FindMember(v, key.data.chars) == |v.data.members|
    ensures Wf(AddMember(v, key, x))
    ensures GetSize(AddMember(v, key, x)) == Got(GetSize(v).value + 1)
    ensures UniqueKeys(v) && UniqueKeys(x) ==> UniqueKeys(AddMember(v, key, x))
  {
    var r := AddMember(v, key, x);
    var n := |v.data.members|;
    assert forall i :: 0 <= i < n ==> r.data.members[i] == v.data.members[i];
    assert r.data.members[n] == Member(key, x);
    assert MembersWf(r.data.members) by {
      forall i | 0 <= i < n + 1
        ensures MemberWf(r.data.members[i])
      {
        if i < n {
          assert MemberWf(v.data.members[i]);
        }
      }
    }
    if UniqueKeys(v) && UniqueKeys(x) {
      assert DistinctKeys(r.data.members) by {
        forall i, j | 0 <= i < j < n + 1
          ensures r.data.members[i].key.data.chars != r.data.members[j].key.data.chars
        {
          if j == n {
            assert r.data.members[i] == v.data.members[i];
          }
        }
      }
      forall i | 0 <= i < n + 1
        ensures UniqueKeys(r.data.members[i].value)
      {
        if i < n {
          assert UniqueKeys(v.data.members[i].value);
        }
      }
    }
  }

  /**
   * The move assignment: the target takes the tag and the payload, and the source is left
   * with the NULL tag.
   */
  function MoveAssign(src: Value): (r: (Value, Value))
    ensures r.0 == src
    ensures IsNull(r.1)
  {
    (src, Value(NULL, src.data))
  }

  // ---------------------------------------------------------------- writeTo

  /** The calls writeTo makes on a handler that never says stop, in order. */
  function Events(v: Value): (es: seq<Event>)
    requires Wf(v)
    ensures |es| >= 1
  {
    match v.tag
    case NULL => [NullEvent]
    case BOOL => [BoolEvent(v.data.b)]
    case INT32 => [Int32Event(v.data.i32)]
    case INT64 => [Int64Event(v.data.i64)]
    case DOUBLE => [DoubleEvent(v.data.d)]
    case STRING => [StringEvent(v.data.chars)]
    case ARRAY => [StartArrayEvent] + ElemsEvents(v.data.elems) + [EndArrayEvent]
    case OBJECT => [StartObjectEvent] + MembersEvents(v.data.members) + [EndObjectEvent]
  }

  function ElemsEvents(elems: seq<Value>): seq<Event>
    requires ElemsWf(elems)
  {
    if elems == [] then []
    else
      var n := |elems| - 1;
      assert ElemsWf(elems[..n]) by {
        assert forall i :: 0 <= i < n ==> elems[..n][i] == elems[i];
      }
      ElemsEvents(elems[..n]) + Events(elems[n])
  }

  function MembersEvents(members: seq<Member>): seq<Event>
    requires KeysAreStrings(members) && MembersWf(members)
  {
    if members == [] then []
    else
      var n := |members| - 1;
      assert KeysAreStrings(members[..n]) && MembersWf(members[..n]) by {
        assert forall i :: 0 <= i < n ==> members[..n][i] == members[i];
      }
      var m := members[n];
      assert MemberWf(m);
      assert m.value < m;
      MembersEvents(members[..n]) + [KeyEvent(m.key.data.chars)] + Events(m.value)
  }

  /**
   * What a handler has received so far, and how writeTo stands: ok is the answer of the
   * last checked call; threw means std::get threw bad_variant_access, which ends the walk
   * at every level (ok is then false).
   */
  datatype Outcome = Outcome(trace: seq<Event>, ok: bool, threw: bool)

  /** One handler call: the event is recorded and the handler's answer returned. */
  function Send(accept: seq<Event> -> bool, trace: seq<Event>, e: Event): (o: Outcome)
    ensures o.trace == trace + [e] && o.ok == accept(trace + [e]) && !o.threw
  {
    Outcome(trace + [e], accept(trace + [e]), false)
  }

  /** std::get on a payload that holds another alternative: no call, and the walk ends. */
  function Throw(trace: seq<Event>): (o: Outcome)
    ensures o.trace == trace && !o.ok && o.threw
  {
    Outcome(trace, false, true)
  }

  /**
   * Every key writeTo reaches is tagged STRING: what the assertion in getStringView demands
   * before each Key call. Only the children of a matching payload are reached.
   */
  predicate KeysTagged(v: Value)
    ensures Wf(v) ==> KeysTagged(v)
  {
    match v.tag
    case ARRAY =>
      v.data.ArrayData? ==> forall i :: 0 <= i < |v.data.elems| ==> KeysTagged(v.data.elems[i])
    case OBJECT =>
      v.data.ObjectData? ==>
        forall i :: 0 <= i < |v.data.members| ==>
          v.data.members[i].key.tag == STRING && KeysTagged(v.data.members[i].value)
    case _ => true
  }

  predicate ElemsTagged(elems: seq<Value>)
    ensures ElemsWf(elems) ==> ElemsTagged(elems)
  {
    forall i :: 0 <= i < |elems| ==> KeysTagged(elems[i])
  }

  predicate MembersTagged(members: seq<Member>)
    ensures KeysAreStrings(members) && MembersWf(members) ==> MembersTagged(members)
  {
    forall i :: 0 <= i < |members| ==> members[i].key.tag == STRING && KeysTagged(members[i].value)
  }

  /**
   * writeTo against a handler answering by accept: every call but Key is checked, and the
   * first refusal ends the walk with false. A scalar's payload is read before its call; a
   * container's after StartArray or StartObject; a key's before its Key call.
   */
  function WriteSpec(v: Value, accept: seq<Event> -> bool, trace: seq<Event>): Outcome
    requires KeysTagged(v)
  {
    match v.tag
    case NULL => Send(accept, trace, NullEvent)
    case BOOL => if v.data.BoolData? then Send(accept, trace, BoolEvent(v.data.b)) else Throw(trace)
    case INT32 => if v.data.Int32Data? then Send(accept, trace, Int32Event(v.data.i32)) else Throw(trace)
    case INT64 => if v.data.Int64Data? then Send(accept, trace, Int64Event(v.data.i64)) else Throw(trace)
    case DOUBLE => if v.data.DoubleData? then Send(accept, trace, DoubleEvent(v.data.d)) else Throw(trace)
    case STRING => if v.data.StringData? then Send(accept, trace, StringEvent(v.data.chars)) else Throw(trace)
    case ARRAY =>
      var o := Send(accept, trace, StartArrayEvent);
      if !o.ok then o
      else if !v.data.ArrayData? then Throw(o.trace)
      else
        var r := ElemsSpec(v.data.elems, accept, o.trace);
        if !r.ok then r else Send(accept, r.trace, EndArrayEvent)
    case OBJECT =>
      var o := Send(accept, trace, StartObjectEvent);
      if !o.ok then o
      else if !v.data.ObjectData? then Throw(o.trace)
      else
        var r := MembersSpec(v.data.members, accept, o.trace);
        if !r.ok then r else Send(accept, r.trace, EndObjectEvent)
  }

  function ElemsSpec(elems: seq<Value>, accept: seq<Event> -> bool, trace: seq<Event>): Outcome
    requires ElemsTagged(elems)
  {
    if elems == [] then Outcome(trace, true, false)
    else
      var n := |elems| - 1;
      assert ElemsTagged(elems[..n]) by {
        assert forall i :: 0 <= i < n ==> elems[..n][i] == elems[i];
      }
      var o := ElemsSpec(elems[..n], accept, trace);
      if !o.ok then o else WriteSpec(elems[n], accept, o.trace)
  }

  /** Each member: its key's characters, Key (its answer ignored), then the member's value. */
  function MembersSpec(members: seq<Member>, accept: seq<Event> -> bool, trace: seq<Event>): Outcome
    requires MembersTagged(members)
  {
    if members == [] then Outcome(trace, true, false)
    else
      var n := |members| - 1;
      assert MembersTagged(members[..n]) by {
        assert forall i :: 0 <= i < n ==> members[..n][i] == members[i];
      }
      var o := MembersSpec(members[..n], accept, trace);
      var m := members[n];
      assert m.value < m;
      if !o.ok then o
      else if !m.key.data.StringData? then Throw(o.trace)
      else WriteSpec(m.value, accept, o.trace + [KeyEvent(m.key.data.chars)])
  }

  /** A stopped element list stays stopped when more elements follow. */
  lemma {:induction false} ElemsSticky(elems: seq<Value>, k: nat, accept: seq<Event> -> bool, trace: seq<Event>)
    requires ElemsTagged(elems) && k <= |elems|
    requires ElemsTagged(elems[..k]) && !ElemsSpec(elems[..k], accept, trace).ok
    ensures ElemsSpec(elems, accept, trace) == ElemsSpec(elems[..k], accept, trace)
    decreases |elems| - k
  {
    if k < |elems| {
      var n := |elems| - 1;
      assert elems[..n][..k] == elems[..k];
      assert ElemsTagged(elems[..n]) by {
        assert forall i :: 0 <= i < n ==> elems[..n][i] == elems[i];
      }
      ElemsSticky(elems[..n], k, accept, trace);
    } else {
      assert elems[..k] == elems;
    }
  }

  lemma {:induction false} MembersSticky(members: seq<Member>, k: nat, accept: seq<Event> -> bool, trace: seq<Event>)
    requires MembersTagged(members) && k <= |members|
    requires MembersTagged(members[..k]) && !MembersSpec(members[..k], accept, trace).ok
    ensures MembersSpec(members, accept, trace) == MembersSpec(members[..k], accept, trace)
    decreases |members| - k
  {
    if k < |members| {
      var n := |members| - 1;
      assert members[..n][..k] == members[..k];
      assert MembersTagged(members[..n]) by {
        assert forall i :: 0 <= i < n ==> members[..n][i] == members[i];
      }
      MembersSticky(members[..n], k, accept, trace);
    } else {
      assert members[..k] == members;
    }
  }

  /** One more member of a tagged list: its prefix stays tagged, and the shorter prefix is its front. */
  lemma {:induction false} MembersPrefixStep(members: seq<Member>, i: nat)
    requires MembersTagged(members) && i < |members|
    ensures MembersTagged(members[..i + 1]) && members[..i + 1][..i] == members[..i]
    ensures members[..i + 1][i] == members[i] && KeysTagged(members[i].value)
  {
    assert forall j :: 0 <= j < i + 1 ==> members[..i + 1][j] == members[j];
  }

  /**
   * writeTo: the walk over a value and its children, one handler call per event. Got(ok)
   * is the value returned; BadVariantAccess is the exception std::get throws.
   */
  method WriteTo(v: Value, h: Sink) returns (r: Access<bool>)
    requires KeysTagged(v)
    modifies h
    ensures WriteSpec(v, h.accept, old(h.trace)) == Outcome(h.trace, r == Got(true), r.BadVariantAccess?)
    decreases v, 1
  {
    match v.tag {
      case NULL =>
        var ok := h.Handle(NullEvent);
        r := Got(ok);
      case BOOL =>
        if !v.data.BoolData? {
          return BadVariantAccess;
        }
        var ok := h.Handle(BoolEvent(v.data.b));
        r := Got(ok);
      case INT32 =>
        if !v.data.Int32Data? {
          return BadVariantAccess;
        }
        var ok := h.Handle(Int32Event(v.data.i32));
        r := Got(ok);
      case INT64 =>
        if !v.data.Int64Data? {
          return BadVariantAccess;
        }
        var ok := h.Handle(Int64Event(v.data.i64));
        r := Got(ok);
      case DOUBLE =>
        if !v.data.DoubleData? {
          return BadVariantAccess;
        }
        var ok := h.Handle(DoubleEvent(v.data.d));
        r := Got(ok);
      case STRING =>
        if !v.data.StringData? {
          return BadVariantAccess;
        }
        var ok := h.Handle(StringEvent(v.data.chars));
        r := Got(ok);
      case ARRAY => r := WriteArray(v, h);
      case OBJECT => r := WriteObject(v, h);
    }
  }

  /** The ARRAY case of writeTo: StartArray, each element's walk, EndArray. */
  method WriteArray(v: Value, h: Sink) returns (r: Access<bool>)
    requires v.tag == ARRAY && KeysTagged(v)
    modifies h
    ensures WriteSpec(v, h.accept, old(h.trace)) == Outcome(h.trace, r == Got(true), r.BadVariantAccess?)
    decreases v, 0
  {
    var ok := h.Handle(StartArrayEvent);
    if !ok {
      return Got(false);
    }
    if !v.data.ArrayData? {
      return BadVariantAccess;
    }
    ghost var start := h.trace;
    var elems := v.data.elems;
    var i := 0;
    r := Got(true);
    while i < |elems| && r == Got(true)
      invariant 0 <= i <= |elems|
      invariant ElemsTagged(elems[..i])
      invariant ElemsSpec(elems[..i], h.accept, start) == Outcome(h.trace, r == Got(true), r.BadVariantAccess?)
    {
      assert elems[..i + 1][..i] == elems[..i];
      assert elems[i] in elems;
      assert ElemsTagged(elems[..i + 1]) by {
        assert forall j :: 0 <= j < i + 1 ==> elems[..i + 1][j] == elems[j];
      }
      r := WriteTo(elems[i], h);
      i := i + 1;
    }
    if r != Got(true) {
      ElemsSticky(elems, i, h.accept, start);
      return;
    }
    assert elems[..i] == elems;
    ok := h.Handle(EndArrayEvent);
    r := Got(ok);
  }

  /** The OBJECT case of writeTo: StartObject, each member's key and walk, EndObject. */
  method WriteObject(v: Value, h: Sink) returns (r: Access<bool>)
    requires v.tag == OBJECT && KeysTagged(v)
    modifies h
    ensures WriteSpec(v, h.accept, old(h.trace)) == Outcome(h.trace, r == Got(true), r.BadVariantAccess?)
    decreases v, 0
  {
    var ok := h.Handle(StartObjectEvent);
    if !ok {
      return Got(false);
    }
    if !v.data.ObjectData? {
      return BadVariantAccess;
    }
    ghost var start := h.trace;
    var members := v.data.members;
    var i := 0;
    r := Got(true);
    while i < |members| && r == Got(true)
      invariant 0 <= i <= |members|
      invariant MembersTagged(members[..i])
      invariant MembersSpec(members[..i], h.accept, start) == Outcome(h.trace, r == Got(true), r.BadVariantAccess?)
    {
      MembersPrefixStep(members, i);
      var m := members[i];
      assert m in members && m.value < m;
      if !m.key.data.StringData? {
        r := BadVariantAccess;
        i := i + 1;
        break;
      }
      var _ := h.Handle(KeyEvent(m.key.data.chars));
      r := WriteTo(m.value, h);
      i := i + 1;
    }
    if r != Got(true) {
      MembersSticky(members, i, h.accept, start);
      return;
    }
    assert members[..i] == members;
    ok := h.Handle(EndObjectEvent);
    r := Got(ok);
  }

  /** Taking a prefix of a concatenation. */
  lemma {:induction false} PrefixOfConcat(a: seq<Event>, b: seq<Event>, k: nat)
    ensures k <= |a| ==> (a + b)[..k] == a[..k]
    ensures |a| <= k <= |a| + |b| ==> (a + b)[..k] == a + b[..k - |a|]
  {
  }

  /**
   * A walk that was to make the calls es after trace: it threw nothing, and what it made is
   * trace followed by a prefix of es, all of es when it returns true, and otherwise at least
   * one call, the last of them refused; every call before it but a Key, whose answer is
   * ignored, was accepted.
   */
  ghost predicate Reports(o: Outcome, trace: seq<Event>, es: seq<Event>, accept: seq<Event> -> bool)
  {
    !o.threw && |trace| <= |o.trace| <= |trace| + |es| &&
    o.trace == trace + es[..|o.trace| - |trace|] &&
    (o.ok ==> o.trace == trace + es) &&
    (!o.ok ==> |o.trace| > |trace| && !accept(o.trace)) &&
    Heeded(o, trace, accept)
  }

  /** Each call after trace, the last one excepted when the walk stopped, and keys excepted, was accepted. */
  ghost predicate Heeded(o: Outcome, trace: seq<Event>, accept: seq<Event> -> bool)
  {
    forall k :: |trace| < k <= |o.trace| && (k < |o.trace| || o.ok) && !o.trace[k - 1].KeyEvent? ==>
      accept(o.trace[..k])
  }

  lemma {:induction false} SendReports(accept: seq<Event> -> bool, trace: seq<Event>, e: Event)
    ensures Reports(Send(accept, trace, e), trace, [e], accept)
  {
    assert [e][..1] == [e];
    var o := Send(accept, trace, e);
    assert o.trace[..|o.trace|] == o.trace;
  }

  /** A walk for a followed, when it went on, by a walk for b is a walk for a + b. */
  lemma {:induction false} ReportsThen(o: Outcome, r: Outcome, trace: seq<Event>, a: seq<Event>, b: seq<Event>, accept: seq<Event> -> bool)
    requires Reports(o, trace, a, accept)
    requires o.ok ==> Reports(r, o.trace, b, accept)
    ensures Reports(if o.ok then r else o, trace, a + b, accept)
  {
    if o.ok {
      var k := |r.trace| - |o.trace|;
      PrefixOfConcat(a, b, |a| + k);
      assert r.trace == trace + (a + b[..k]);
      HeededThen(o, r, trace, accept);
    } else {
      PrefixOfConcat(a, b, |o.trace| - |trace|);
    }
  }

  /** Calls accepted up to o.trace, then those of a walk from there that r completes. */
  lemma {:induction false} HeededThen(o: Outcome, r: Outcome, trace: seq<Event>, accept: seq<Event> -> bool)
    requires o.ok && |trace| <= |o.trace| <= |r.trace| && r.trace[..|o.trace|] == o.trace
    requires Heeded(o, trace, accept) && Heeded(r, o.trace, accept)
    ensures Heeded(r, trace, accept)
  {
    forall k | |trace| < k <= |o.trace| && !r.trace[k - 1].KeyEvent?
      ensures accept(r.trace[..k])
    {
      assert r.trace[..k] == o.trace[..k];
      assert r.trace[k - 1] == o.trace[k - 1];
    }
  }

  /**
   * What writeTo does to any handler when the value is well formed: nothing throws; the
   * calls it receives are a prefix of Events(v); true means all of them were made; false
   * means the handler refused the last one.
   */
  lemma {:induction false} WriteSpecMeaning(v: Value, accept: seq<Event> -> bool, trace: seq<Event>)
    requires Wf(v)
    ensures var o := WriteSpec(v, accept, trace);
      !o.threw && |trace| < |o.trace| <= |trace| + |Events(v)| &&
      o.trace == trace + Events(v)[..|o.trace| - |trace|] &&
      (o.ok ==> o.trace == trace + Events(v)) &&
      (!o.ok ==> !accept(o.trace)) &&
      (forall k :: |trace| < k <= |o.trace| && (k < |o.trace| || o.ok) && !o.trace[k - 1].KeyEvent? ==>
        accept(o.trace[..k]))
  {
    WriteReports(v, accept, trace);
  }

  lemma {:induction false} WriteReports(v: Value, accept: seq<Event> -> bool, trace: seq<Event>)
    requires Wf(v)
    ensures Reports(WriteSpec(v, accept, trace), trace, Events(v), accept)
    ensures |WriteSpec(v, accept, trace).trace| > |trace|
    decreases v, 1
  {
    if v.tag == ARRAY {
      WriteArrayReports(v, accept, trace);
    } else if v.tag == OBJECT {
      WriteObjectReports(v, accept, trace);
    } else {
      SendReports(accept, trace, Events(v)[0]);
      assert Events(v) == [Events(v)[0]];
    }
  }

  /** StartArray, the elements, EndArray. */
  lemma {:induction false} WriteArrayReports(v: Value, accept: seq<Event> -> bool, trace: seq<Event>)
    requires Wf(v) && v.tag == ARRAY
    ensures Reports(WriteSpec(v, accept, trace), trace, Events(v), accept)
    ensures |WriteSpec(v, accept, trace).trace| > |trace|
    decreases v, 0
  {
    var o := Send(accept, trace, StartArrayEvent);
    var inner := ElemsEvents(v.data.elems);
    SendReports(accept, trace, StartArrayEvent);
    if o.ok {
      var r := ElemsSpec(v.data.elems, accept, o.trace);
      ElemsReports(v.data.elems, accept, o.trace);
      if r.ok {
        SendReports(accept, r.trace, EndArrayEvent);
      }
      ReportsThen(r, Send(accept, r.trace, EndArrayEvent), o.trace, inner, [EndArrayEvent], accept);
    }
    ReportsThen(o, WriteSpec(v, accept, trace), trace, [StartArrayEvent], inner + [EndArrayEvent], accept);
    assert Events(v) == [StartArrayEvent] + (inner + [EndArrayEvent]);
  }

  /** StartObject, the members, EndObject. */
  lemma {:induction false} WriteObjectReports(v: Value, accept: seq<Event> -> bool, trace: seq<Event>)
    requires Wf(v) && v.tag == OBJECT
    ensures Reports(WriteSpec(v, accept, trace), trace, Events(v), accept)
    ensures |WriteSpec(v, accept, trace).trace| > |trace|
    decreases v, 0
  {
    var o := Send(accept, trace, StartObjectEvent);
    var inner := MembersEvents(v.data.members);
    SendReports(accept, trace, StartObjectEvent);
    if o.ok {
      var r := MembersSpec(v.data.members, accept, o.trace);
      MembersReports(v.data.members, accept, o.trace);
      if r.ok {
        SendReports(accept, r.trace, EndObjectEvent);
      }
      ReportsThen(r, Send(accept, r.trace, EndObjectEvent), o.trace, inner, [EndObjectEvent], accept);
    }
    ReportsThen(o, WriteSpec(v, accept, trace), trace, [StartObjectEvent], inner + [EndObjectEvent], accept);
    assert Events(v) == [StartObjectEvent] + (inner + [EndObjectEvent]);
  }

  lemma {:induction false} ElemsSpecMeaning(elems: seq<Value>, accept: seq<Event> -> bool, trace: seq<Event>)
    requires ElemsWf(elems)
    ensures var o := ElemsSpec(elems, accept, trace);
      !o.threw && |trace| <= |o.trace| <= |trace| + |ElemsEvents(elems)| &&
      o.trace == trace + ElemsEvents(elems)[..|o.trace| - |trace|] &&
      (o.ok ==> o.trace == trace + ElemsEvents(elems)) &&
      (!o.ok ==> |o.trace| > |trace| && !accept(o.trace)) &&
      (forall k :: |trace| < k <= |o.trace| && (k < |o.trace| || o.ok) && !o.trace[k - 1].KeyEvent? ==>
        accept(o.trace[..k]))
  {
    ElemsReports(elems, accept, trace);
  }

  lemma {:induction false} ElemsReports(elems: seq<Value>, accept: seq<Event> -> bool, trace: seq<Event>)
    requires ElemsWf(elems)
    ensures Reports(ElemsSpec(elems, accept, trace), trace, ElemsEvents(elems), accept)
    decreases elems
  {
    if elems == [] {
      assert trace + [] == trace;
    } else {
      var n := |elems| - 1;
      assert ElemsWf(elems[..n]) by {
        assert forall i :: 0 <= i < n ==> elems[..n][i] == elems[i];
      }
      ElemsReports(elems[..n], accept, trace);
      var o := ElemsSpec(elems[..n], accept, trace);
      if o.ok {
        WriteReports(elems[n], accept, o.trace);
      }
      ElemsSnoc(elems);
      ReportsThen(o, ElemsSpec(elems, accept, trace), trace, ElemsEvents(elems[..n]), Events(elems[n]), accept);
    }
  }

  lemma {:induction false} MembersSpecMeaning(members: seq<Member>, accept: seq<Event> -> bool, trace: seq<Event>)
    requires KeysAreStrings(members) && MembersWf(members)
    ensures var o := MembersSpec(members, accept, trace);
      !o.threw && |trace| <= |o.trace| <= |trace| + |MembersEvents(members)| &&
      o.trace == trace + MembersEvents(members)[..|o.trace| - |trace|] &&
      (o.ok ==> o.trace == trace + MembersEvents(members)) &&
      (!o.ok ==> |o.trace| > |trace| && !accept(o.trace)) &&
      (forall k :: |trace| < k <= |o.trace| && (k < |o.trace| || o.ok) && !o.trace[k - 1].KeyEvent? ==>
        accept(o.trace[..k]))
  {
    MembersReports(members, accept, trace);
  }

  lemma {:induction false} MembersReports(members: seq<Member>, accept: seq<Event> -> bool, trace: seq<Event>)
    requires KeysAreStrings(members) && MembersWf(members)
    ensures Reports(MembersSpec(members, accept, trace), trace, MembersEvents(members), accept)
    decreases members
  {
    if members == [] {
      assert trace + [] == trace;
    } else {
      var n := |members| - 1;
      assert KeysAreStrings(members[..n]) && MembersWf(members[..n]) by {
        assert forall i :: 0 <= i < n ==> members[..n][i] == members[i];
      }
      MembersReports(members[..n], accept, trace);
      var o := MembersSpec(members[..n], accept, trace);
      var m := members[n];
      assert MemberWf(m);
      assert m.value < m;
      var key := [KeyEvent(m.key.data.chars)];
      if o.ok {
        WriteReports(m.value, accept, o.trace + key);
        KeyReports(o.trace, key, Events(m.value), WriteSpec(m.value, accept, o.trace + key), accept);
      }
      MembersSnoc(members);
      ReportsThen(o, MembersSpec(members, accept, trace), trace, MembersEvents(members[..n]), key + Events(m.value), accept);
    }
  }

  /** The events of a non-empty list: those of its front, then those of its last element. */
  lemma {:induction false} ElemsSnoc(es: seq<Value>)
    requires ElemsWf(es) && es != []
    ensures var n := |es| - 1;
      ElemsWf(es[..n]) && Wf(es[n]) && ElemsEvents(es) == ElemsEvents(es[..n]) + Events(es[n])
  {
  }

  /** The events of a non-empty member list: those of its front, then the last key and value. */
  lemma {:induction false} MembersSnoc(ms: seq<Member>)
    requires KeysAreStrings(ms) && MembersWf(ms) && ms != []
    ensures var n := |ms| - 1;
      KeysAreStrings(ms[..n]) && MembersWf(ms[..n]) && MemberWf(ms[n]) && Wf(ms[n].value) &&
      MembersEvents(ms) == MembersEvents(ms[..n]) + ([KeyEvent(ms[n].key.data.chars)] + Events(ms[n].value))
  {
    var n := |ms| - 1;
    assert forall i :: 0 <= i < n ==> ms[..n][i] == ms[i];
    assert MemberWf(ms[n]);
  }

  /** The key's call, whose answer is ignored, followed by a walk for the member's value. */
  lemma {:induction false} KeyReports(trace: seq<Event>, key: seq<Event>, es: seq<Event>, r: Outcome, accept: seq<Event> -> bool)
    requires |key| == 1 && key[0].KeyEvent? && Reports(r, trace + key, es, accept) && |r.trace| > |trace + key|
    ensures Reports(r, trace, key + es, accept)
  {
    var k := |r.trace| - |trace + key|;
    PrefixOfConcat(key, es, 1 + k);
    assert r.trace == trace + (key + es[..k]);
    assert r.trace[|trace|] == key[0];
  }

  /** A handler that always goes on receives exactly Events(v), and writeTo returns true. */
  lemma {:induction false} WriteToAcceptingHandler(v: Value, accept: seq<Event> -> bool, trace: seq<Event>)
    requires Wf(v)
    requires forall t :: accept(t)
    ensures WriteSpec(v, accept, trace) == Outcome(trace + Events(v), true, false)
  {
    WriteSpecMeaning(v, accept, trace);
  }

  /**
   * Against a handler that always goes on, writeTo throws exactly when some payload it walks
   * through does not hold the alternative its tag names, and returns true otherwise.
   */
  lemma {:induction false} WriteThrowsIff(v: Value, accept: seq<Event> -> bool, trace: seq<Event>)
    requires KeysTagged(v) && forall t :: accept(t)
    ensures var o := WriteSpec(v, accept, trace);
      (o.threw <==> !Wf(v)) && (o.ok <==> !o.threw)
    decreases v, 1
  {
    if v.tag == ARRAY && v.data.ArrayData? {
      ElemsThrowIff(v.data.elems, accept, trace + [StartArrayEvent]);
    } else if v.tag == OBJECT && v.data.ObjectData? {
      MembersThrowIff(v.data.members, accept, trace + [StartObjectEvent]);
    }
  }

  lemma {:induction false} ElemsThrowIff(elems: seq<Value>, accept: seq<Event> -> bool, trace: seq<Event>)
    requires ElemsTagged(elems) && forall t :: accept(t)
    ensures var o := ElemsSpec(elems, accept, trace);
      (o.threw <==> !ElemsWf(elems)) && (o.ok <==> !o.threw)
    decreases elems
  {
    if elems != [] {
      var n := |elems| - 1;
      assert forall i :: 0 <= i < n ==> elems[..n][i] == elems[i];
      assert ElemsTagged(elems[..n]);
      ElemsThrowIff(elems[..n], accept, trace);
      var o := ElemsSpec(elems[..n], accept, trace);
      if o.ok {
        WriteThrowsIff(elems[n], accept, o.trace);
        assert ElemsWf(elems) <==> Wf(elems[n]) by {
          if Wf(elems[n]) {
            assert forall i :: 0 <= i < |elems| ==> i == n || elems[i] == elems[..n][i];
          }
        }
      }
    }
  }

  lemma {:induction false} MembersThrowIff(members: seq<Member>, accept: seq<Event> -> bool, trace: seq<Event>)
    requires MembersTagged(members) && forall t :: accept(t)
    ensures var o := MembersSpec(members, accept, trace);
      (o.threw <==> !(KeysAreStrings(members) && MembersWf(members))) && (o.ok <==> !o.threw)
    decreases members
  {
    if members != [] {
      var n := |members| - 1;
      var front, m := members[..n], members[n];
      assert forall i :: 0 <= i < n ==> front[i] == members[i];
      assert MembersTagged(front);
      MembersThrowIff(front, accept, trace);
      var o := MembersSpec(front, accept, trace);
      var whole := KeysAreStrings(members) && MembersWf(members);
      if o.ok {
        assert m.value < m;
        if m.key.data.StringData? {
          WriteThrowsIff(m.value, accept, o.trace + [KeyEvent(m.key.data.chars)]);
          assert whole <==> Wf(m.value) by {
            if Wf(m.value) {
              assert forall i :: 0 <= i < |members| ==> i == n || members[i] == front[i];
            }
          }
        } else {
          assert !whole;
        }
      }
    }
  }

  /**
   * Value(NEU_BOOL) throws before any call; an array holding Value(NEU_INT32) throws once
   * StartArray has been made.
   */
  lemma {:induction false} WriteEmptyPayloadsThrow(accept: seq<Event> -> bool, trace: seq<Event>)
    ensures WriteSpec(OfType(BOOL), accept, trace) == Outcome(trace, false, true)
    ensures accept(trace + [StartArrayEvent]) ==>
      WriteSpec(Value(ARRAY, ArrayData([OfType(INT32)])), accept, trace) == Outcome(trace + [StartArrayEvent], false, true)
  {
    var elems := [OfType(INT32)];
    var t1 := trace + [StartArrayEvent];
    assert elems[..0] == [];
    assert OfType(INT32).data == Monostate;
    assert WriteSpec(elems[0], accept, t1) == Throw(t1);
    assert ElemsSpec(elems, accept, t1) == Throw(t1);
  }
}
