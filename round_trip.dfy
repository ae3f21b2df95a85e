// The round trip of test/round_trip.cc: a Document parses a compact text, writes itself to a
// Writer, and the Writer's output is the text it parsed. Proved here for every value
// without a double: parsing the compact text of such a value (WriterProps.Compact) gives the
// value back, the Document built from the calls holds it, and writing it gives the text.

module RoundTrips {
  import opened Arith
  import opened Handler
  import opened Values
  import opened Errors
  import opened ReadStream
  import opened ReaderSpec
  import opened WriterProps
  import opened Writer
  import Itoa
  import Documents
  import DocumentParse

  /**
   * The values the reader gives back from their own compact text: every NULL with the empty
   * payload and every key a string, as the Document builds them; no double, whose text
   * comes from printf and is read by std::stod; and INT64 only for what int32 cannot hold,
   * since the reader makes every other integer an INT32.
   */
  predicate Reparses(v: Value)
    ensures Reparses(v) ==> Plain(v) && Wf(v)
  {
    match v.tag
    case NULL => v.data == Monostate
    case BOOL => v.data.BoolData?
    case INT32 => v.data.Int32Data?
    case INT64 => v.data.Int64Data? && !IsI32(v.data.i64)
    case DOUBLE => false
    case STRING => v.data.StringData?
    case ARRAY => v.data.ArrayData? && forall i :: 0 <= i < |v.data.elems| ==> Reparses(v.data.elems[i])
    case OBJECT =>
      v.data.ObjectData? && KeysAreStrings(v.data.members) &&
      forall i :: 0 <= i < |v.data.members| ==> Reparses(v.data.members[i].value)
  }

  /** Where an integer's text may stop inside a compact text: the end, or ',', ']' or '}'. */
  predicate Closes(s: seq<char>, q: nat)
  {
    q == |s| || (q < |s| && (s[q] == ',' || s[q] == ']' || s[q] == '}'))
  }

  // ---------------------------------------------------------------- integers

  /** Decimal's text: digits only, no leading zero, and the reader's value of it is n. */
  lemma {:induction false} DecimalReads(n: nat)
    ensures forall i :: 0 <= i < |Itoa.Decimal(n)| ==> IsDigit(Itoa.Decimal(n)[i])
    ensures n > 0 ==> Itoa.Decimal(n)[0] != '0'
    ensures n == 0 ==> Itoa.Decimal(n) == "0"
    ensures DecimalValue(Itoa.Decimal(n)) == n
    decreases n
  {
    var t := Itoa.Decimal(n);
    var k := |t| - 1;
    if n < 10 {
      assert t[..k] == [];
    } else {
      DecimalReads(n / 10);
      assert t[..k] == Itoa.Decimal(n / 10);
      assert t[0] == Itoa.Decimal(n / 10)[0];
    }
  }

  /** The digit loop stops at the first character that is not a digit. */
  lemma {:induction false} DigitsTo(s: seq<char>, a: nat, b: nat)
    requires a <= b <= |s|
    requires forall i :: a <= i < b ==> IsDigit(s[i])
    requires b < |s| ==> !IsDigit(s[b])
    ensures Digits(s, a) == b
    decreases b - a
  {
    if a < b {
      DigitsTo(s, a + 1, b);
    }
  }

  /** The digits of an integer's text: after the optional '-', the decimal text of its magnitude. */
  lemma {:induction false} IntegerText(s: seq<char>, p: nat, x: int)
    requires HoldsAt(s, p, Itoa.SignedDecimal(x))
    ensures var a := if x < 0 then p + 1 else p; var e := p + |Itoa.SignedDecimal(x)|;
      a < e <= |s| && (At(s, p) == '-' <==> x < 0) && s[a..e] == Itoa.Decimal(if x < 0 then -x else x) &&
      (forall i :: a <= i < e ==> IsDigit(s[i])) && s[p..e] == Itoa.SignedDecimal(x)
  {
    if x < 0 {
      NegativeText(s, p, x);
    } else {
      NonNegativeText(s, p, x);
    }
  }

  lemma {:induction false} NegativeText(s: seq<char>, p: nat, x: int)
    requires x < 0 && HoldsAt(s, p, Itoa.SignedDecimal(x))
    ensures var e := p + |Itoa.SignedDecimal(x)|;
      p + 1 < e <= |s| && At(s, p) == '-' && s[p + 1..e] == Itoa.Decimal(-x) &&
      (forall i :: p + 1 <= i < e ==> IsDigit(s[i])) && s[p..e] == Itoa.SignedDecimal(x)
  {
    SignedNegative(x);
    SignHeld(s, p, Itoa.SignedDecimal(x), Itoa.Decimal(-x));
    DigitsHeld(s, p + 1, p + |Itoa.SignedDecimal(x)|, -x);
  }

  lemma {:induction false} SignedNegative(x: int)
    requires x < 0
    ensures Itoa.SignedDecimal(x) == ['-'] + Itoa.Decimal(-x)
  {
  }

  /** The decimal digits of n, held from a to e: digits only, at least one. */
  lemma {:induction false} DigitsHeld(s: seq<char>, a: nat, e: nat, n: nat)
    requires a <= e <= |s| && s[a..e] == Itoa.Decimal(n)
    ensures a < e && forall i :: a <= i < e ==> IsDigit(s[i])
  {
    DecimalReads(n);
    SliceDigits(s, a, e, Itoa.Decimal(n));
  }

  /** A minus sign, then the digits d, held from p. */
  lemma {:induction false} SignHeld(s: seq<char>, p: nat, c: seq<char>, d: seq<char>)
    requires HoldsAt(s, p, c) && c == ['-'] + d
    ensures p + |c| <= |s| && s[p] == '-' && s[p + 1..p + |c|] == d && s[p..p + |c|] == c
  {
    HoldsIff(s, p, c);
    assert s[p + 1..p + |c|] == c[1..];
    assert c[1..] == d;
    assert s[p] == c[0];
  }

  lemma {:induction false} NonNegativeText(s: seq<char>, p: nat, x: int)
    requires x >= 0 && HoldsAt(s, p, Itoa.SignedDecimal(x))
    ensures var e := p + |Itoa.SignedDecimal(x)|;
      p < e <= |s| && At(s, p) != '-' && s[p..e] == Itoa.Decimal(x) &&
      (forall i :: p <= i < e ==> IsDigit(s[i])) && s[p..e] == Itoa.SignedDecimal(x)
  {
    var c := Itoa.SignedDecimal(x);
    var e := p + |c|;
    HoldsIff(s, p, c);
    assert s[p] == c[0];
    DigitsHeld(s, p, e, x);
  }

  lemma {:induction false} SliceDigits(s: seq<char>, a: nat, e: nat, d: seq<char>)
    requires a <= e <= |s| && s[a..e] == d && forall i :: 0 <= i < |d| ==> IsDigit(d[i])
    ensures forall i :: a <= i < e ==> IsDigit(s[i])
  {
    forall i | a <= i < e ensures IsDigit(s[i]) {
      assert s[i] == s[a..e][i - a];
    }
  }

  /** The scan of ParseNumber over an integer's text followed by a structural character. */
  lemma {:induction false} IntegerScan(s: seq<char>, p: nat, x: int)
    requires HoldsAt(s, p, Itoa.SignedDecimal(x)) && Closes(s, p + |Itoa.SignedDecimal(x)|)
    ensures var a := if x < 0 then p + 1 else p; var e := p + |Itoa.SignedDecimal(x)|;
      ScanNumber(s, p) == Some(Scan(a, e, e, e))
  {
    var e := p + |Itoa.SignedDecimal(x)|;
    var a := if x < 0 then p + 1 else p;
    var m: nat := if x < 0 then -x else x;
    IntegerText(s, p, x);
    DecimalReads(m);
    DecimalScan(s, a, e, m);
    ClosedScan(s, p, a, e);
  }

  /** The integer part of a scan over the decimal text of m ends where that text does. */
  lemma {:induction false} DecimalScan(s: seq<char>, a: nat, e: nat, m: nat)
    requires a < e <= |s| && s[a..e] == Itoa.Decimal(m) && Closes(s, e)
    requires forall i :: a <= i < e ==> IsDigit(s[i])
    requires m > 0 ==> Itoa.Decimal(m)[0] != '0'
    requires m == 0 ==> Itoa.Decimal(m) == "0"
    ensures ScanInt(s, a) == Some(e)
  {
    assert s[a] == s[a..e][0];
    if m != 0 {
      DigitsTo(s, a + 1, e);
    }
  }

  /** A scan whose integer part stops at a structural character has no fraction and no exponent. */
  lemma {:induction false} ClosedScan(s: seq<char>, p: nat, a: nat, e: nat)
    requires p <= |s| && a == (if At(s, p) == '-' then p + 1 else p) && a <= |s|
    requires ScanInt(s, a) == Some(e) && Closes(s, e)
    ensures ScanNumber(s, p) == Some(Scan(a, e, e, e))
  {
  }

  /** std::stoll reads an integer's text back as the integer. */
  lemma {:induction false} StollReads(x: int)
    requires IsI64(x)
    ensures var c := Itoa.SignedDecimal(x);
      |c| >= 1 && (c[0] == '-' || IsDigit(c[0])) && (forall i :: 1 <= i < |c| ==> IsDigit(c[i])) &&
      Stoll(c) == Some(x)
  {
    var c := Itoa.SignedDecimal(x);
    var m: nat := if x < 0 then -x else x;
    DecimalReads(m);
    if x < 0 {
      assert c[1..] == Itoa.Decimal(m);
    }
  }

  /**
   * ParseNumber on the text of an integer x followed by a structural character: the integer
   * part is the whole text, and std::stoll gives x back, as an Int32 call when x fits.
   */
  lemma {:induction false} IntegerReads(s: seq<char>, p: nat, x: int, t: seq<Event>, stod: Stod)
    requires IsI64(x)
    requires HoldsAt(s, p, Itoa.SignedDecimal(x)) && Closes(s, p + |Itoa.SignedDecimal(x)|)
    ensures var e := p + |Itoa.SignedDecimal(x)|;
      ConvertSpec(s, p, DocumentParse.AcceptAll, t, stod) ==
        if IsI32(x) then Res(OK, e, t + [Int32Event(x)], OfInt32(x))
        else Res(OK, e, t + [Int64Event(x)], OfInt64(x))
  {
    IntegerText(s, p, x);
    IntegerScan(s, p, x);
    StollReads(x);
  }

  // ---------------------------------------------------------------- the first character

  /** A value's compact text starts with a character that is no whitespace and closes nothing. */
  lemma {:induction false} FirstChar(s: seq<char>, p: nat, v: Value, fmt: Format)
    requires Reparses(v) && HoldsAt(s, p, Compact(v, fmt))
    ensures p < |s| && !IsWhitespace(s[p]) && s[p] != ']' && s[p] != '}'
    ensures SkipWs(s, p) == p
  {
    var c := Compact(v, fmt);
    if v.tag == INT32 || v.tag == INT64 {
      var x: int := if v.tag == INT32 then v.data.i32 else v.data.i64;
      DecimalReads(if x < 0 then -x else x);
      assert c == Itoa.SignedDecimal(x);
      assert c[0] == '-' || IsDigit(c[0]);
    } else if v.tag == STRING {
      assert c == Quoted(v.data.chars);
    }
    assert |c| > 0;
    HoldsIff(s, p, c);
    assert s[p] == s[p..p + |c|][0];
  }

  // ---------------------------------------------------------------- the text read forwards

  /** A text held from p holds its first character at p and the rest from p + 1. */
  lemma {:induction false} HoldsCons(s: seq<char>, p: nat, c: char, x: seq<char>)
    requires HoldsAt(s, p, [c] + x)
    ensures p < |s| && s[p] == c && HoldsAt(s, p + 1, x)
  {
    HoldsUnfold(s, p, [c] + x);
    assert ([c] + x)[0] == c && ([c] + x)[1..] == x;
  }

  lemma {:induction false} HoldsChar(s: seq<char>, p: nat, c: seq<char>, i: nat)
    requires HoldsAt(s, p, c) && i < |c|
    ensures p + i < |s| && s[p + i] == c[i]
  {
    HoldsIff(s, p, c);
    assert s[p..p + |c|][i] == s[p + i];
  }

  /** A text held from p holds its front from p. */
  lemma {:induction false} HoldsTake(s: seq<char>, p: nat, a: seq<char>, b: seq<char>)
    requires HoldsAt(s, p, a + b)
    ensures HoldsAt(s, p, a)
  {
    HoldsSplit(s, p, a, b);
  }

  /** A text held from p holds its back from p plus the length of the front. */
  lemma {:induction false} HoldsDrop(s: seq<char>, p: nat, a: seq<char>, b: seq<char>)
    requires HoldsAt(s, p, a + b)
    ensures HoldsAt(s, p + |a|, b)
  {
    HoldsSplit(s, p, a, b);
  }

  /** A text c = a + b held from p holds b from q, where a ends. */
  lemma {:induction false} HoldsAfter(s: seq<char>, p: nat, c: seq<char>, a: seq<char>, b: seq<char>, q: nat)
    requires HoldsAt(s, p, c) && c == a + b && q == p + |a|
    ensures HoldsAt(s, q, b)
  {
    HoldsSplit(s, p, a, b);
  }

  lemma {:induction false} Assoc<T>(a: seq<T>, b: seq<T>, c: seq<T>)
    ensures (a + b) + c == a + (b + c)
  {
  }

  /** The first k of the first k + 1 are the first k; the last of them is a[k]. */
  lemma {:induction false} TakeStep<T>(a: seq<T>, k: nat)
    requires k < |a|
    ensures a[..k + 1][..k] == a[..k] && a[..k + 1][k] == a[k]
  {
  }

  /** The suffix from k: its first item, then the suffix from k + 1. */
  lemma {:induction false} SuffixCons<T>(a: seq<T>, k: nat)
    requires k < |a|
    ensures a[k..] == [a[k]] + a[k + 1..] && (k + 1 == |a| ==> a[k..] == [a[k]])
  {
  }

  /**
   * What an array's compact text holds after its first k elements, in the order the reader
   * meets it: each further element with the comma before it, then ']'.
   */
  function ElemsAfter(es: seq<Value>, k: nat, fmt: Format): (t: seq<char>)
    requires ElemsWf(es) && k <= |es|
    ensures |t| >= 1
    decreases |es| - k
  {
    if k == |es| then "]" else ((if k == 0 then [] else [',']) + Compact(es[k], fmt)) + ElemsAfter(es, k + 1, fmt)
  }

  /** The calls for the elements from k on. */
  function ElemsEventsFrom(es: seq<Value>, k: nat): seq<Event>
    requires ElemsWf(es) && k <= |es|
    decreases |es| - k
  {
    if k == |es| then [] else Events(es[k]) + ElemsEventsFrom(es, k + 1)
  }

  /** Where element k starts in a text that holds ElemsAfter(es, 0) from p0. */
  function ElemStart(p0: nat, es: seq<Value>, k: nat, fmt: Format): nat
    requires ElemsWf(es) && k <= |es|
  {
    assert ElemsWf(es[..k]) by {
      assert forall i :: 0 <= i < k ==> es[..k][i] == es[i];
    }
    p0 + |ElemsText(es[..k], fmt)| + (if k == 0 then 0 else 1)
  }

  /** ElemsAfter(es, 0) is the text of the first k elements, then ElemsAfter(es, k). */
  lemma {:induction false} ElemsSplit(es: seq<Value>, k: nat, fmt: Format)
    requires ElemsWf(es) && k <= |es|
    ensures ElemsWf(es[..k])
    ensures ElemsAfter(es, 0, fmt) == ElemsText(es[..k], fmt) + ElemsAfter(es, k, fmt)
  {
    ElemsCut(es, k, fmt);
    ElemsAfterStart(es, fmt);
  }

  /** A text that holds ElemsAfter(es, 0) from p0 holds ElemsAfter(es, k) after the first k elements. */
  lemma {:induction false} ElemsFrom(s: seq<char>, p0: nat, es: seq<Value>, k: nat, q0: nat, fmt: Format)
    requires ElemsWf(es) && k <= |es| && HoldsAt(s, p0, ElemsAfter(es, 0, fmt))
    requires ElemsWf(es[..k]) && q0 == p0 + |ElemsText(es[..k], fmt)|
    ensures HoldsAt(s, q0, ElemsAfter(es, k, fmt))
    ensures q0 + |ElemsAfter(es, k, fmt)| == p0 + |ElemsAfter(es, 0, fmt)|
  {
    ElemsSplit(es, k, fmt);
    HoldsAfter(s, p0, ElemsAfter(es, 0, fmt), ElemsText(es[..k], fmt), ElemsAfter(es, k, fmt), q0);
  }

  /** Element k starts after the comma that ends element k - 1; element k + 1 one past the end of element k. */
  lemma {:induction false} ElemStartNext(p0: nat, es: seq<Value>, k: nat, fmt: Format)
    requires ElemsWf(es) && k < |es|
    ensures ElemsWf(es[..k])
    ensures ElemStart(p0, es, k, fmt) == p0 + |ElemsText(es[..k], fmt)| + (if k == 0 then 0 else 1)
    ensures ElemStart(p0, es, k + 1, fmt) == ElemStart(p0, es, k, fmt) + |Compact(es[k], fmt)| + 1
  {
    assert ElemsWf(es[..k + 1]) by {
      assert forall i :: 0 <= i < k + 1 ==> es[..k + 1][i] == es[i];
    }
    ElemsLast(es[..k + 1], fmt);
    TakeStep(es, k);
  }

  /** ElemsText followed by ']', cut after the first j elements: the rest is ElemsAfter(es, j). */
  lemma {:induction false} ElemsCut(es: seq<Value>, j: nat, fmt: Format)
    requires ElemsWf(es) && j <= |es|
    ensures ElemsWf(es[..j])
    ensures ElemsText(es, fmt) + "]" == ElemsText(es[..j], fmt) + ElemsAfter(es, j, fmt)
    decreases |es| - j
  {
    if j == |es| {
      assert es[..j] == es;
    } else {
      ElemsCut(es, j + 1, fmt);
      ElemsLast(es[..j + 1], fmt);
      TakeStep(es, j);
      Assoc(ElemsText(es[..j], fmt), (if j == 0 then [] else [',']) + Compact(es[j], fmt), ElemsAfter(es, j + 1, fmt));
    }
  }

  /** ElemsEvents cut after the first j elements: the rest is ElemsEventsFrom(es, j). */
  lemma {:induction false} ElemsEventsCut(es: seq<Value>, j: nat)
    requires ElemsWf(es) && j <= |es|
    ensures ElemsWf(es[..j])
    ensures ElemsEvents(es) == ElemsEvents(es[..j]) + ElemsEventsFrom(es, j)
    decreases |es| - j
  {
    if j == |es| {
      assert es[..j] == es;
    } else {
      ElemsEventsCut(es, j + 1);
      TakeStep(es, j);
      assert es[..j + 1][j] == es[j];
      Assoc(ElemsEvents(es[..j]), Events(es[j]), ElemsEventsFrom(es, j + 1));
    }
  }

  /** What an object's compact text holds after its first k members: each further member, then '}'. */
  function MembersAfter(ms: seq<Member>, k: nat, fmt: Format): (t: seq<char>)
    requires KeysAreStrings(ms) && MembersWf(ms) && k <= |ms|
    ensures |t| >= 1
    decreases |ms| - k
  {
    if k == |ms| then "}" else MemberText(k, ms[k], fmt) + MembersAfter(ms, k + 1, fmt)
  }

  /** Where the key of member k starts in a text that holds MembersAfter(ms, 0) from p0. */
  function MemberStart(p0: nat, ms: seq<Member>, k: nat, fmt: Format): nat
    requires KeysAreStrings(ms) && MembersWf(ms) && k <= |ms|
  {
    assert KeysAreStrings(ms[..k]) && MembersWf(ms[..k]) by {
      assert forall i :: 0 <= i < k ==> ms[..k][i] == ms[i];
    }
    p0 + |MembersText(ms[..k], fmt)| + (if k == 0 then 0 else 1)
  }

  /** MembersAfter(ms, 0) is the text of the first k members, then MembersAfter(ms, k). */
  lemma {:induction false} MembersSplit(ms: seq<Member>, k: nat, fmt: Format)
    requires KeysAreStrings(ms) && MembersWf(ms) && k <= |ms|
    ensures KeysAreStrings(ms[..k]) && MembersWf(ms[..k])
    ensures MembersAfter(ms, 0, fmt) == MembersText(ms[..k], fmt) + MembersAfter(ms, k, fmt)
  {
    MembersCut(ms, k, fmt);
    MembersAfterStart(ms, fmt);
  }

  /** A text that holds MembersAfter(ms, 0) from p0 holds MembersAfter(ms, k) after the first k members. */
  lemma {:induction false} MembersFrom(s: seq<char>, p0: nat, ms: seq<Member>, k: nat, q0: nat, fmt: Format)
    requires KeysAreStrings(ms) && MembersWf(ms) && k <= |ms| && HoldsAt(s, p0, MembersAfter(ms, 0, fmt))
    requires KeysAreStrings(ms[..k]) && MembersWf(ms[..k]) && q0 == p0 + |MembersText(ms[..k], fmt)|
    ensures HoldsAt(s, q0, MembersAfter(ms, k, fmt))
    ensures q0 + |MembersAfter(ms, k, fmt)| == p0 + |MembersAfter(ms, 0, fmt)|
    ensures MemberStart(p0, ms, k, fmt) <= |s|
  {
    MembersSplit(ms, k, fmt);
    HoldsAfter(s, p0, MembersAfter(ms, 0, fmt), MembersText(ms[..k], fmt), MembersAfter(ms, k, fmt), q0);
  }

  /** Member k's key starts one past the end of member k - 1's value; member k + 1's one past the end of member k's. */
  lemma {:induction false} MemberStartNext(p0: nat, ms: seq<Member>, k: nat, fmt: Format)
    requires KeysAreStrings(ms) && MembersWf(ms) && k < |ms|
    ensures KeysAreStrings(ms[..k]) && MembersWf(ms[..k])
    ensures MemberStart(p0, ms, k, fmt) == p0 + |MembersText(ms[..k], fmt)| + (if k == 0 then 0 else 1)
    ensures MemberStart(p0, ms, k + 1, fmt) == MemberStart(p0, ms, k, fmt) + MemberSpan(ms, k, fmt) + 1
  {
    MemberStartAt(p0, ms, k, fmt);
    MemberStartAt(p0, ms, k + 1, fmt);
    MembersTextStep(ms, k, fmt);
  }

  /** MemberStart written out. */
  lemma {:induction false} MemberStartAt(p0: nat, ms: seq<Member>, k: nat, fmt: Format)
    requires KeysAreStrings(ms) && MembersWf(ms) && k <= |ms|
    ensures KeysAreStrings(ms[..k]) && MembersWf(ms[..k])
    ensures MemberStart(p0, ms, k, fmt) == p0 + |MembersText(ms[..k], fmt)| + (if k == 0 then 0 else 1)
  {
    assert forall i :: 0 <= i < k ==> ms[..k][i] == ms[i];
  }

  /** The text of the first k + 1 members is that of the first k, then member k's with its separator. */
  lemma {:induction false} MembersTextStep(ms: seq<Member>, k: nat, fmt: Format)
    requires KeysAreStrings(ms) && MembersWf(ms) && k < |ms|
    requires KeysAreStrings(ms[..k]) && MembersWf(ms[..k]) && KeysAreStrings(ms[..k + 1]) && MembersWf(ms[..k + 1])
    ensures |MembersText(ms[..k + 1], fmt)| == |MembersText(ms[..k], fmt)| + (if k == 0 then 0 else 1) + MemberSpan(ms, k, fmt)
  {
    MembersFront(ms[..k + 1]);
    TakeStep(ms, k);
    MembersLastText(ms[..k + 1], fmt);
    MemberTextLength(k, ms[k], fmt);
  }

  /** The length of member k's text: its separator, then MemberSpan. */
  lemma {:induction false} MemberTextLength(k: nat, m: Member, fmt: Format)
    requires m.key.tag == STRING && m.key.data.StringData? && MemberWf(m)
    ensures |MemberText(k, m, fmt)| == (if k == 0 then 0 else 1) + |Quoted(m.key.data.chars)| + 1 + |Compact(m.value, fmt)|
  {
  }

  /** The calls for member k: its key, then its value's. */
  function MemberEvents(ms: seq<Member>, k: nat): seq<Event>
    requires KeysAreStrings(ms) && MembersWf(ms) && k < |ms|
  {
    [KeyEvent(ms[k].key.data.chars)] + Events(ms[k].value)
  }

  /** The length of the text of member k after its separator: the key, ':' and the value. */
  function MemberSpan(ms: seq<Member>, k: nat, fmt: Format): nat
    requires KeysAreStrings(ms) && MembersWf(ms) && k < |ms|
  {
    |Quoted(ms[k].key.data.chars)| + 1 + |Compact(ms[k].value, fmt)|
  }

  /** The calls for the members from k on. */
  function MembersEventsFrom(ms: seq<Member>, k: nat): seq<Event>
    requires KeysAreStrings(ms) && MembersWf(ms) && k <= |ms|
    decreases |ms| - k
  {
    if k == |ms| then [] else MemberEvents(ms, k) + MembersEventsFrom(ms, k + 1)
  }

  /** MembersText followed by '}', cut after the first j members: the rest is MembersAfter(ms, j). */
  lemma {:induction false} MembersCut(ms: seq<Member>, j: nat, fmt: Format)
    requires KeysAreStrings(ms) && MembersWf(ms) && j <= |ms|
    ensures KeysAreStrings(ms[..j]) && MembersWf(ms[..j])
    ensures MembersText(ms, fmt) + "}" == MembersText(ms[..j], fmt) + MembersAfter(ms, j, fmt)
    decreases |ms| - j
  {
    if j == |ms| {
      assert ms[..j] == ms;
    } else {
      MembersCut(ms, j + 1, fmt);
      MembersFront(ms[..j + 1]);
      TakeStep(ms, j);
      MembersLastText(ms[..j + 1], fmt);
      assert ms[..j + 1][j] == ms[j];
      Assoc(MembersText(ms[..j], fmt), MemberText(j, ms[j], fmt), MembersAfter(ms, j + 1, fmt));
    }
  }

  /** MembersEvents cut after the first j members: the rest is MembersEventsFrom(ms, j). */
  lemma {:induction false} MembersEventsCut(ms: seq<Member>, j: nat)
    requires KeysAreStrings(ms) && MembersWf(ms) && j <= |ms|
    ensures KeysAreStrings(ms[..j]) && MembersWf(ms[..j])
    ensures MembersEvents(ms) == MembersEvents(ms[..j]) + MembersEventsFrom(ms, j)
    decreases |ms| - j
  {
    if j == |ms| {
      assert ms[..j] == ms;
    } else {
      MembersEventsCut(ms, j + 1);
      MembersFront(ms[..j + 1]);
      TakeStep(ms, j);
      assert ms[..j + 1][j] == ms[j];
      var m := ms[j];
      Assoc(MembersEvents(ms[..j]) + [KeyEvent(m.key.data.chars)], Events(m.value), MembersEventsFrom(ms, j + 1));
      Assoc(MembersEvents(ms[..j]), [KeyEvent(m.key.data.chars)], Events(m.value));
      Assoc(MembersEvents(ms[..j]), [KeyEvent(m.key.data.chars)] + Events(m.value), MembersEventsFrom(ms, j + 1));
    }
  }

  /** The events of a container around those of its contents, regrouped. */
  lemma {:induction false} Wrap<T>(t: seq<T>, a: seq<T>, x: seq<T>, b: seq<T>)
    ensures t + ((a + x) + b) == ((t + a) + x) + b
    ensures x == [] ==> t + ((a + x) + b) == (t + a) + b
  {
  }

  /** A text held from p in two parts after a front: each part where it belongs. */
  lemma {:induction false} HoldsParts(s: seq<char>, p: nat, a: seq<char>, c: seq<char>, d: seq<char>, q: nat, e: nat)
    requires HoldsAt(s, p, (a + c) + d) && q == p + |a| && e == q + |c|
    ensures HoldsAt(s, q, c) && HoldsAt(s, e, d)
  {
    HoldsSplit(s, p, a + c, d);
    HoldsDrop(s, p, a, c);
  }

  /** A member's text held from p: the front, the key, ':', the value and what follows. */
  lemma {:induction false} HoldsMember(s: seq<char>, p: nat, a: seq<char>, b: seq<char>, c: seq<char>, d: seq<char>, q: nat, q1: nat, e: nat)
    requires HoldsAt(s, p, (((a + b) + [':']) + c) + d) && q == p + |a| && q1 == q + |b| && e == q1 + 1 + |c|
    ensures HoldsAt(s, q, b) && q1 < |s| && s[q1] == ':' && HoldsAt(s, q1 + 1, c) && HoldsAt(s, e, d)
  {
    var head := (a + b) + [':'];
    HoldsSplit(s, p, head + c, d);
    HoldsSplit(s, p, head, c);
    HoldsChar(s, p, head, |a + b|);
    HoldsTake(s, p, a + b, [':']);
    HoldsDrop(s, p, a, b);
  }

  // ---------------------------------------------------------------- the pieces of the text

  /** Every element reparses. */
  predicate ElemsReparse(es: seq<Value>)
    ensures ElemsReparse(es) ==> ElemsWf(es)
  {
    forall i :: 0 <= i < |es| ==> Reparses(es[i])
  }

  /** Every key is a string and every value reparses. */
  predicate MembersReparse(ms: seq<Member>)
    ensures MembersReparse(ms) ==> KeysAreStrings(ms) && MembersWf(ms)
  {
    KeysAreStrings(ms) && forall i :: 0 <= i < |ms| ==> Reparses(ms[i].value)
  }

  /** Element k where ElemsAfter(es, k) is held from q0: its own text from q, after the comma, then ElemsAfter(es, k + 1) from e. */
  lemma {:induction false} ElemPiece(s: seq<char>, q0: nat, q: nat, e: nat, es: seq<Value>, k: nat, fmt: Format)
    requires ElemsWf(es) && k < |es| && HoldsAt(s, q0, ElemsAfter(es, k, fmt))
    requires q == q0 + (if k == 0 then 0 else 1) && e == q + |Compact(es[k], fmt)|
    ensures HoldsAt(s, q, Compact(es[k], fmt)) && HoldsAt(s, e, ElemsAfter(es, k + 1, fmt))
    ensures q0 + |ElemsAfter(es, k, fmt)| == e + |ElemsAfter(es, k + 1, fmt)|
  {
    var sep: seq<char> := if k == 0 then [] else [','];
    HoldsParts(s, q0, sep, Compact(es[k], fmt), ElemsAfter(es, k + 1, fmt), q, e);
  }

  /** What follows element k: ',' before another element, else ']'. */
  lemma {:induction false} ElemEnd(s: seq<char>, e: nat, es: seq<Value>, k: nat, fmt: Format)
    requires ElemsWf(es) && k < |es| && HoldsAt(s, e, ElemsAfter(es, k + 1, fmt))
    ensures e < |s| && s[e] == (if k + 1 < |es| then ',' else ']') && Closes(s, e)
    ensures k + 1 == |es| ==> |ElemsAfter(es, k + 1, fmt)| == 1
  {
    var after := ElemsAfter(es, k + 1, fmt);
    if k + 1 < |es| {
      var sep: seq<char> := [','];
      assert after == (sep + Compact(es[k + 1], fmt)) + ElemsAfter(es, k + 2, fmt);
      HoldsTake(s, e, sep + Compact(es[k + 1], fmt), ElemsAfter(es, k + 2, fmt));
      HoldsTake(s, e, sep, Compact(es[k + 1], fmt));
      HoldsChar(s, e, sep, 0);
    } else {
      HoldsChar(s, e, after, 0);
    }
  }

  /** Where element k + 1 begins, after the comma: no whitespace before it. */
  lemma {:induction false} ElemNextStart(s: seq<char>, e: nat, es: seq<Value>, k: nat, fmt: Format)
    requires ElemsReparse(es) && k + 1 < |es| && HoldsAt(s, e, ElemsAfter(es, k + 1, fmt))
    ensures e + 1 <= |s| && SkipWs(s, e + 1) == e + 1
  {
    ElemPiece(s, e, e + 1, e + 1 + |Compact(es[k + 1], fmt)|, es, k + 1, fmt);
    FirstChar(s, e + 1, es[k + 1], fmt);
  }

  /** The first thing after '[': ']' for no elements, else the first element, with no whitespace. */
  lemma {:induction false} ElemsStart(s: seq<char>, q: nat, es: seq<Value>, fmt: Format)
    requires ElemsReparse(es) && HoldsAt(s, q, ElemsAfter(es, 0, fmt))
    ensures q < |s| && SkipWs(s, q) == q && (s[q] == ']' <==> es == [])
    ensures es == [] ==> |ElemsAfter(es, 0, fmt)| == 1
  {
    if es == [] {
      HoldsChar(s, q, ElemsAfter(es, 0, fmt), 0);
    } else {
      ElemPiece(s, q, q, q + |Compact(es[0], fmt)|, es, 0, fmt);
      FirstChar(s, q, es[0], fmt);
    }
  }

  /**
   * Member k where MembersAfter(ms, k) is held from q0: after the comma its quoted key from q,
   * ':' at q1, its value, then MembersAfter(ms, k + 1) from e.
   */
  lemma {:induction false} MemberPiece(s: seq<char>, q0: nat, q: nat, q1: nat, e: nat, ms: seq<Member>, k: nat, fmt: Format)
    requires KeysAreStrings(ms) && MembersWf(ms) && k < |ms| && HoldsAt(s, q0, MembersAfter(ms, k, fmt))
    requires q == q0 + (if k == 0 then 0 else 1) && q1 == q + |Quoted(ms[k].key.data.chars)|
    requires e == q1 + 1 + |Compact(ms[k].value, fmt)|
    ensures HoldsAt(s, q, Quoted(ms[k].key.data.chars)) && q1 < |s| && s[q1] == ':'
    ensures HoldsAt(s, q1 + 1, Compact(ms[k].value, fmt)) && HoldsAt(s, e, MembersAfter(ms, k + 1, fmt))
    ensures q0 + |MembersAfter(ms, k, fmt)| == e + |MembersAfter(ms, k + 1, fmt)|
  {
    var sep: seq<char> := if k == 0 then [] else [','];
    HoldsMember(s, q0, sep, Quoted(ms[k].key.data.chars), Compact(ms[k].value, fmt), MembersAfter(ms, k + 1, fmt), q, q1, e);
  }

  /** What follows member k: ',' before another member, else '}'. */
  lemma {:induction false} MemberEnd(s: seq<char>, e: nat, ms: seq<Member>, k: nat, fmt: Format)
    requires KeysAreStrings(ms) && MembersWf(ms) && k < |ms| && HoldsAt(s, e, MembersAfter(ms, k + 1, fmt))
    ensures e < |s| && s[e] == (if k + 1 < |ms| then ',' else '}') && Closes(s, e)
    ensures k + 1 == |ms| ==> |MembersAfter(ms, k + 1, fmt)| == 1
  {
    var after := MembersAfter(ms, k + 1, fmt);
    if k + 1 < |ms| {
      var m := ms[k + 1];
      var sep: seq<char> := [','];
      assert after == (((sep + Quoted(m.key.data.chars)) + [':']) + Compact(m.value, fmt)) + MembersAfter(ms, k + 2, fmt);
      HoldsTake(s, e, ((sep + Quoted(m.key.data.chars)) + [':']) + Compact(m.value, fmt), MembersAfter(ms, k + 2, fmt));
      HoldsTake(s, e, (sep + Quoted(m.key.data.chars)) + [':'], Compact(m.value, fmt));
      HoldsTake(s, e, sep + Quoted(m.key.data.chars), [':']);
      HoldsTake(s, e, sep, Quoted(m.key.data.chars));
      HoldsChar(s, e, sep, 0);
    } else {
      HoldsChar(s, e, after, 0);
    }
  }

  /** Where member k + 1 begins, after the comma: its key's quote, with no whitespace before it. */
  lemma {:induction false} MemberNextStart(s: seq<char>, e: nat, ms: seq<Member>, k: nat, fmt: Format)
    requires KeysAreStrings(ms) && MembersWf(ms) && k + 1 < |ms| && HoldsAt(s, e, MembersAfter(ms, k + 1, fmt))
    ensures e + 1 < |s| && s[e + 1] == '"' && SkipWs(s, e + 1) == e + 1
  {
    var q1 := e + 1 + |Quoted(ms[k + 1].key.data.chars)|;
    MemberPiece(s, e, e + 1, q1, q1 + 1 + |Compact(ms[k + 1].value, fmt)|, ms, k + 1, fmt);
    HoldsChar(s, e + 1, Quoted(ms[k + 1].key.data.chars), 0);
  }

  /** The first thing after '{': '}' for no members, else the first key's quote, with no whitespace. */
  lemma {:induction false} MembersStart(s: seq<char>, q: nat, ms: seq<Member>, fmt: Format)
    requires KeysAreStrings(ms) && MembersWf(ms) && HoldsAt(s, q, MembersAfter(ms, 0, fmt))
    ensures q < |s| && SkipWs(s, q) == q && (s[q] == '}' <==> ms == [])
    ensures ms != [] ==> s[q] == '"'
    ensures ms == [] ==> |MembersAfter(ms, 0, fmt)| == 1
  {
    if ms == [] {
      HoldsChar(s, q, MembersAfter(ms, 0, fmt), 0);
    } else {
      var q1 := q + |Quoted(ms[0].key.data.chars)|;
      MemberPiece(s, q, q, q1, q1 + 1 + |Compact(ms[0].value, fmt)|, ms, 0, fmt);
      HoldsChar(s, q, Quoted(ms[0].key.data.chars), 0);
    }
  }

  /** An array that reparses: its elements reparse, and it is built from them alone. */
  lemma {:induction false} ArrayShape(v: Value)
    requires v.tag == ARRAY && Reparses(v)
    ensures v.data.ArrayData? && ElemsReparse(v.data.elems) && v == Value(ARRAY, ArrayData(v.data.elems))
  {
  }

  /** An array's compact text: '[' and then ElemsAfter(es, 0). */
  lemma {:induction false} ArrayCompact(v: Value, fmt: Format)
    requires v.tag == ARRAY && Wf(v)
    ensures ElemsWf(v.data.elems) && Compact(v, fmt) == ['['] + ElemsAfter(v.data.elems, 0, fmt)
  {
    ElemsAfterStart(v.data.elems, fmt);
    Assoc("[", ElemsText(v.data.elems, fmt), "]");
  }

  /** ElemsAfter from the first element: all of ElemsText, then ']'. */
  lemma {:induction false} ElemsAfterStart(es: seq<Value>, fmt: Format)
    requires ElemsWf(es)
    ensures ElemsAfter(es, 0, fmt) == ElemsText(es, fmt) + "]"
  {
    ElemsCut(es, 0, fmt);
    assert es[..0] == [];
  }

  /** An array's calls: StartArray, its elements' calls, EndArray. */
  lemma {:induction false} ArrayEvents(v: Value)
    requires v.tag == ARRAY && Wf(v)
    ensures ElemsWf(v.data.elems) && Events(v) == [StartArrayEvent] + ElemsEventsFrom(v.data.elems, 0) + [EndArrayEvent]
  {
    ElemsEventsStart(v.data.elems);
  }

  /** ElemsEventsFrom from the first element: all of ElemsEvents. */
  lemma {:induction false} ElemsEventsStart(es: seq<Value>)
    requires ElemsWf(es)
    ensures ElemsEventsFrom(es, 0) == ElemsEvents(es)
  {
    ElemsEventsCut(es, 0);
    assert es[..0] == [];
  }

  /** An object that reparses: its keys are strings, its values reparse, and it is built from its members alone. */
  lemma {:induction false} ObjectShape(v: Value)
    requires v.tag == OBJECT && Reparses(v)
    ensures v.data.ObjectData? && MembersReparse(v.data.members) && v == Value(OBJECT, ObjectData(v.data.members))
  {
  }

  /** An object's compact text: '{' and then MembersAfter(ms, 0). */
  lemma {:induction false} ObjectCompact(v: Value, fmt: Format)
    requires v.tag == OBJECT && Wf(v)
    ensures KeysAreStrings(v.data.members) && MembersWf(v.data.members)
    ensures Compact(v, fmt) == ['{'] + MembersAfter(v.data.members, 0, fmt)
  {
    MembersAfterStart(v.data.members, fmt);
    Assoc("{", MembersText(v.data.members, fmt), "}");
  }

  /** MembersAfter from the first member: all of MembersText, then '}'. */
  lemma {:induction false} MembersAfterStart(ms: seq<Member>, fmt: Format)
    requires KeysAreStrings(ms) && MembersWf(ms)
    ensures MembersAfter(ms, 0, fmt) == MembersText(ms, fmt) + "}"
  {
    MembersCut(ms, 0, fmt);
    assert ms[..0] == [];
  }

  /** An object's calls: StartObject, its members' calls, EndObject. */
  lemma {:induction false} ObjectEvents(v: Value)
    requires v.tag == OBJECT && Wf(v)
    ensures KeysAreStrings(v.data.members) && MembersWf(v.data.members)
    ensures Events(v) == [StartObjectEvent] + MembersEventsFrom(v.data.members, 0) + [EndObjectEvent]
  {
    MembersEventsStart(v.data.members);
  }

  /** MembersEventsFrom from the first member: all of MembersEvents. */
  lemma {:induction false} MembersEventsStart(ms: seq<Member>)
    requires KeysAreStrings(ms) && MembersWf(ms)
    ensures MembersEventsFrom(ms, 0) == MembersEvents(ms)
  {
    MembersEventsCut(ms, 0);
    assert ms[..0] == [];
  }

  /** An integer that reparses: its compact text, its one call, and the value the reader builds for it. */
  lemma {:induction false} IntShape(v: Value, fmt: Format)
    requires Reparses(v) && (v.tag == INT32 || v.tag == INT64)
    ensures var x: int := if v.tag == INT32 then v.data.i32 else v.data.i64;
      IsI64(x) && Compact(v, fmt) == Itoa.SignedDecimal(x) &&
      (IsI32(x) ==> v == OfInt32(x) && Events(v) == [Int32Event(x)]) &&
      (!IsI32(x) ==> v == OfInt64(x) && Events(v) == [Int64Event(x)])
  {
  }

  // ---------------------------------------------------------------- the reader's side

  /** ParseValue at '[' with no whitespace after it: an empty array at ']', else the element loop. */
  lemma {:induction false} ArrayOpens(s: seq<char>, p: nat, t: seq<Event>, stod: Stod)
    requires p + 1 < |s| && s[p] == '[' && SkipWs(s, p + 1) == p + 1
    ensures ValueSpec(s, p, DocumentParse.AcceptAll, t, stod) ==
      if s[p + 1] == ']' then Res(OK, p + 2, (t + [StartArrayEvent]) + [EndArrayEvent], Value(ARRAY, ArrayData([])))
      else Elements(s, p + 1, DocumentParse.AcceptAll, t + [StartArrayEvent], stod, [])
  {
  }

  /** ParseValue at '{' with no whitespace after it: an empty object at '}', else the member loop. */
  lemma {:induction false} ObjectOpens(s: seq<char>, p: nat, t: seq<Event>, stod: Stod)
    requires p + 1 < |s| && s[p] == '{' && SkipWs(s, p + 1) == p + 1
    ensures ValueSpec(s, p, DocumentParse.AcceptAll, t, stod) ==
      if s[p + 1] == '}' then Res(OK, p + 2, (t + [StartObjectEvent]) + [EndObjectEvent], Value(OBJECT, ObjectData([])))
      else Members(s, p + 1, DocumentParse.AcceptAll, t + [StartObjectEvent], stod, [])
  {
  }

  /** ParseValue at an integer's text: ParseNumber's conversion. */
  lemma {:induction false} NumberOpens(s: seq<char>, p: nat, t: seq<Event>, stod: Stod)
    requires p < |s| && (s[p] == '-' || IsDigit(s[p]))
    ensures ValueSpec(s, p, DocumentParse.AcceptAll, t, stod) == ConvertSpec(s, p, DocumentParse.AcceptAll, t, stod)
  {
    var c := s[p];
    assert c != 'n' && c != 't' && c != 'f' && c != '"' && c != '[' && c != '{' && c != 'N' && c != 'I';
    assert ValueSpec(s, p, DocumentParse.AcceptAll, t, stod) == NumberSpec(s, p, DocumentParse.AcceptAll, t, stod);
  }

  /** The loop of ParseArray after an element read up to a comma: it goes on at the next element. */
  lemma {:induction false} ElementsComma(s: seq<char>, q: nat, t: seq<Event>, stod: Stod, acc: seq<Value>, r: Res)
    requires q <= |s| && r == ValueSpec(s, q, DocumentParse.AcceptAll, t, stod) && r.err == OK
    requires r.pos < |s| && s[r.pos] == ',' && SkipWs(s, r.pos + 1) == r.pos + 1
    ensures Elements(s, q, DocumentParse.AcceptAll, t, stod, acc) ==
      Elements(s, r.pos + 1, DocumentParse.AcceptAll, r.trace, stod, acc + [r.value])
  {
    assert SkipWs(s, r.pos) == r.pos && Advance(s, r.pos, 1) == r.pos + 1;
    AfterElementComma(s, q, r, DocumentParse.AcceptAll, stod, acc);
  }

  /** The loop of ParseArray after an element read up to ']': EndArray, and the array. */
  lemma {:induction false} ElementsStop(s: seq<char>, q: nat, t: seq<Event>, stod: Stod, acc: seq<Value>, r: Res)
    requires q <= |s| && r == ValueSpec(s, q, DocumentParse.AcceptAll, t, stod) && r.err == OK
    requires r.pos < |s| && s[r.pos] == ']'
    ensures Elements(s, q, DocumentParse.AcceptAll, t, stod, acc) ==
      Res(OK, r.pos + 1, r.trace + [EndArrayEvent], Value(ARRAY, ArrayData(acc + [r.value])))
  {
    assert SkipWs(s, r.pos) == r.pos && Advance(s, r.pos, 1) == r.pos + 1;
    AfterElementStop(s, q, r, DocumentParse.AcceptAll, stod, acc);
  }

  /** ParseObject's Pair at a key read to the colon and a value read to e: the value's result, and the key. */
  lemma {:induction false} PairReads(s: seq<char>, q: nat, q1: nat, e: nat, key: seq<char>, value: Value, ev: seq<Event>,
    t: seq<Event>, stod: Stod)
    requires q < |s| && s[q] == '"'
    requires StringSpec(s, q, true, DocumentParse.AcceptAll, t) == Res(OK, q1, t + [KeyEvent(key)], OfString(key))
    requires q1 < |s| && s[q1] == ':' && SkipWs(s, q1 + 1) == q1 + 1
    requires ValueSpec(s, q1 + 1, DocumentParse.AcceptAll, t + [KeyEvent(key)], stod) == Res(OK, e, t + [KeyEvent(key)] + ev, value)
    ensures Pair(s, q, DocumentParse.AcceptAll, t, stod) == (Res(OK, e, t + [KeyEvent(key)] + ev, value), OfString(key))
  {
    ColonAt(s, q1);
    PairAtColon(s, q, DocumentParse.AcceptAll, t, stod, Res(OK, q1, t + [KeyEvent(key)], OfString(key)), q1);
  }

  /** No whitespace to skip at a colon. */
  lemma {:induction false} ColonAt(s: seq<char>, q1: nat)
    requires q1 < |s| && s[q1] == ':'
    ensures SkipWs(s, q1) == q1 && At(s, q1) == ':'
  {
  }

  /** Pair once the key k has read and a colon follows it at q1. */
  lemma {:induction false} PairAtColon(s: seq<char>, q: nat, accept: seq<Event> -> bool, t: seq<Event>, stod: Stod,
    k: Res, q1: nat)
    requires q < |s| && s[q] == '"' && StringSpec(s, q, true, accept, t) == k && k.err == OK
    requires q1 <= |s| && SkipWs(s, k.pos) == q1 && At(s, q1) == ':'
    ensures Pair(s, q, accept, t, stod) == (ValueSpec(s, SkipWs(s, q1 + 1), accept, k.trace, stod), k.value)
  {
  }

  /** ParseObject's loop at a key read to the colon and a value read to a comma: it goes on at the next key. */
  lemma {:induction false} MemberStepComma(s: seq<char>, q: nat, q1: nat, e: nat, key: seq<char>, value: Value, ev: seq<Event>,
    t: seq<Event>, stod: Stod, acc: seq<Member>)
    requires q < |s| && s[q] == '"'
    requires StringSpec(s, q, true, DocumentParse.AcceptAll, t) == Res(OK, q1, t + [KeyEvent(key)], OfString(key))
    requires q1 < |s| && s[q1] == ':' && SkipWs(s, q1 + 1) == q1 + 1
    requires ValueSpec(s, q1 + 1, DocumentParse.AcceptAll, t + [KeyEvent(key)], stod) == Res(OK, e, t + [KeyEvent(key)] + ev, value)
    requires e < |s| && s[e] == ',' && SkipWs(s, e + 1) == e + 1
    ensures Members(s, q, DocumentParse.AcceptAll, t, stod, acc) ==
      Members(s, e + 1, DocumentParse.AcceptAll, t + [KeyEvent(key)] + ev, stod, acc + [Member(OfString(key), value)])
  {
    var pr := Pair(s, q, DocumentParse.AcceptAll, t, stod);
    PairReads(s, q, q1, e, key, value, ev, t, stod);
    assert SkipWs(s, e) == e && Advance(s, e, 1) == e + 1;
    AfterMemberComma(s, q, pr, DocumentParse.AcceptAll, stod, acc);
  }

  /** ParseObject's loop at a key read to the colon and a value read to '}': EndObject, and the object. */
  lemma {:induction false} MemberStepStop(s: seq<char>, q: nat, q1: nat, e: nat, key: seq<char>, value: Value, ev: seq<Event>,
    t: seq<Event>, stod: Stod, acc: seq<Member>)
    requires q < |s| && s[q] == '"'
    requires StringSpec(s, q, true, DocumentParse.AcceptAll, t) == Res(OK, q1, t + [KeyEvent(key)], OfString(key))
    requires q1 < |s| && s[q1] == ':' && SkipWs(s, q1 + 1) == q1 + 1
    requires ValueSpec(s, q1 + 1, DocumentParse.AcceptAll, t + [KeyEvent(key)], stod) == Res(OK, e, t + [KeyEvent(key)] + ev, value)
    requires e < |s| && s[e] == '}'
    ensures Members(s, q, DocumentParse.AcceptAll, t, stod, acc) ==
      Res(OK, e + 1, t + [KeyEvent(key)] + ev + [EndObjectEvent], Value(OBJECT, ObjectData(acc + [Member(OfString(key), value)])))
  {
    var pr := Pair(s, q, DocumentParse.AcceptAll, t, stod);
    PairReads(s, q, q1, e, key, value, ev, t, stod);
    assert SkipWs(s, e) == e && Advance(s, e, 1) == e + 1;
    AfterMemberStop(s, q, pr, DocumentParse.AcceptAll, stod, acc);
  }

  /** A key WriteString wrote, read by ParseString as a key: the Key call and the string's value. */
  lemma {:induction false} KeyReads(s: seq<char>, q: nat, key: seq<char>, t: seq<Event>)
    requires HoldsAt(s, q, Quoted(key))
    ensures q < |s| && s[q] == '"'
    ensures StringSpec(s, q, true, DocumentParse.AcceptAll, t) == Res(OK, q + |Quoted(key)|, t + [KeyEvent(key)], OfString(key))
  {
    HoldsChar(s, q, Quoted(key), 0);
    QuotedReadsAt(s, q, key);
  }

  // ---------------------------------------------------------------- reading the text back

  /**
   * ParseValue on the compact text of a value that reparses, followed by the end of the
   * text or a structural character: OK, the whole text consumed, the calls of writeTo for
   * the value reported, and the value itself built.
   */
  lemma {:induction false} ValueReads(s: seq<char>, p: nat, v: Value, t: seq<Event>, stod: Stod, fmt: Format)
    requires Reparses(v) && HoldsAt(s, p, Compact(v, fmt)) && Closes(s, p + |Compact(v, fmt)|)
    ensures ValueSpec(s, p, DocumentParse.AcceptAll, t, stod) == Res(OK, p + |Compact(v, fmt)|, t + Events(v), v)
    decreases v, 2
  {
    if v.tag == ARRAY {
      ArrayReads(s, p, v, t, stod, fmt);
    } else if v.tag == OBJECT {
      ObjectReads(s, p, v, t, stod, fmt);
    } else if v.tag == INT32 || v.tag == INT64 {
      IntValueReads(s, p, v, t, stod, fmt);
    } else {
      PlainValueReads(s, p, v, t, stod, fmt);
    }
  }

  /** ParseValue on the text of null, a boolean or a string. */
  lemma {:induction false} PlainValueReads(s: seq<char>, p: nat, v: Value, t: seq<Event>, stod: Stod, fmt: Format)
    requires Reparses(v) && v.tag in {NULL, BOOL, STRING} && HoldsAt(s, p, Compact(v, fmt))
    ensures ValueSpec(s, p, DocumentParse.AcceptAll, t, stod) == Res(OK, p + |Compact(v, fmt)|, t + Events(v), v)
  {
    if v.tag == STRING {
      StringValueReads(s, p, v, t, stod, fmt);
    } else {
      LiteralReads(s, p, v, t, stod, fmt);
    }
  }

  /** PlainValueReads for a string. */
  lemma {:induction false} StringValueReads(s: seq<char>, p: nat, v: Value, t: seq<Event>, stod: Stod, fmt: Format)
    requires Reparses(v) && v.tag == STRING && HoldsAt(s, p, Compact(v, fmt))
    ensures ValueSpec(s, p, DocumentParse.AcceptAll, t, stod) == Res(OK, p + |Compact(v, fmt)|, t + Events(v), v)
  {
    var x := v.data.chars;
    StringShape(v, fmt);
    HoldsChar(s, p, Quoted(x), 0);
    QuotedReadsAt(s, p, x);
    StringValueAt(s, p, t, stod, x, p + |Quoted(x)|);
  }

  /** The text and the events of a string value. */
  lemma {:induction false} StringShape(v: Value, fmt: Format)
    requires Reparses(v) && v.tag == STRING
    ensures v.data.StringData? && Compact(v, fmt) == Quoted(v.data.chars) && |Quoted(v.data.chars)| > 0
    ensures Quoted(v.data.chars)[0] == '"'
    ensures Events(v) == [StringEvent(v.data.chars)] && v == OfString(v.data.chars)
  {
  }

  /** ParseValue at a quote whose string loop ends well at e. */
  lemma {:induction false} StringValueAt(s: seq<char>, p: nat, t: seq<Event>, stod: Stod, x: seq<char>, e: nat)
    requires p < |s| && s[p] == '"' && ReaderSpec.StringBody(s, p + 1, []) == ReaderSpec.Str(OK, x, e)
    ensures ValueSpec(s, p, DocumentParse.AcceptAll, t, stod) == Res(OK, e, t + [StringEvent(x)], OfString(x))
  {
  }

  /** PlainValueReads for null, true and false. */
  lemma {:induction false} LiteralReads(s: seq<char>, p: nat, v: Value, t: seq<Event>, stod: Stod, fmt: Format)
    requires Reparses(v) && v.tag in {NULL, BOOL} && HoldsAt(s, p, Compact(v, fmt))
    ensures ValueSpec(s, p, DocumentParse.AcceptAll, t, stod) == Res(OK, p + |Compact(v, fmt)|, t + Events(v), v)
  {
    var c := Compact(v, fmt);
    HoldsChar(s, p, c, 0);
    HoldsIff(s, p, c);
    if v.tag == NULL {
      assert v == OfType(NULL);
    } else {
      assert v == OfBool(v.data.b);
    }
  }

  /** ParseValue on the text of an integer followed by a structural character. */
  lemma {:induction false} IntValueReads(s: seq<char>, p: nat, v: Value, t: seq<Event>, stod: Stod, fmt: Format)
    requires Reparses(v) && (v.tag == INT32 || v.tag == INT64)
    requires HoldsAt(s, p, Compact(v, fmt)) && Closes(s, p + |Compact(v, fmt)|)
    ensures ValueSpec(s, p, DocumentParse.AcceptAll, t, stod) == Res(OK, p + |Compact(v, fmt)|, t + Events(v), v)
  {
    var x: int := if v.tag == INT32 then v.data.i32 else v.data.i64;
    IntShape(v, fmt);
    IntReadsAt(s, p, x, t, stod);
  }

  /** ParseValue at an integer's decimal text: an Int32 call and value within int32's range, else Int64. */
  lemma {:induction false} IntReadsAt(s: seq<char>, p: nat, x: int, t: seq<Event>, stod: Stod)
    requires IsI64(x)
    requires HoldsAt(s, p, Itoa.SignedDecimal(x)) && Closes(s, p + |Itoa.SignedDecimal(x)|)
    ensures var e := p + |Itoa.SignedDecimal(x)|;
      ValueSpec(s, p, DocumentParse.AcceptAll, t, stod) ==
        if IsI32(x) then Res(OK, e, t + [Int32Event(x)], OfInt32(x))
        else Res(OK, e, t + [Int64Event(x)], OfInt64(x))
  {
    StollReads(x);
    HoldsChar(s, p, Itoa.SignedDecimal(x), 0);
    NumberOpens(s, p, t, stod);
    IntegerReads(s, p, x, t, stod);
  }

  /** ParseArray on an array's compact text: StartArray, the elements' calls, EndArray, and the array. */
  lemma {:induction false} ArrayReads(s: seq<char>, p: nat, v: Value, t: seq<Event>, stod: Stod, fmt: Format)
    requires v.tag == ARRAY && Reparses(v) && HoldsAt(s, p, Compact(v, fmt))
    ensures ValueSpec(s, p, DocumentParse.AcceptAll, t, stod) == Res(OK, p + |Compact(v, fmt)|, t + Events(v), v)
    decreases v, 1
  {
    var es := v.data.elems;
    ArrayShape(v);
    ArrayCompact(v, fmt);
    ArrayEvents(v);
    var after := ElemsAfter(es, 0, fmt);
    HoldsCons(s, p, '[', after);
    ElemsStart(s, p + 1, es, fmt);
    ArrayOpens(s, p, t, stod);
    Wrap(t, [StartArrayEvent], ElemsEventsFrom(es, 0), [EndArrayEvent]);
    if es != [] {
      ArrayElemsRead(s, p + 1, es, t + [StartArrayEvent], stod, fmt);
    }
  }

  /** The loop of ParseArray from the first element of a non-empty array, up to its ']'. */
  lemma {:induction false} ArrayElemsRead(s: seq<char>, p0: nat, es: seq<Value>, t: seq<Event>, stod: Stod, fmt: Format)
    requires ElemsReparse(es) && es != [] && HoldsAt(s, p0, ElemsAfter(es, 0, fmt))
    ensures p0 <= |s|
    ensures Elements(s, p0, DocumentParse.AcceptAll, t, stod, []) ==
      Res(OK, p0 + |ElemsAfter(es, 0, fmt)|, t + ElemsEventsFrom(es, 0) + [EndArrayEvent], Value(ARRAY, ArrayData(es)))
    decreases es, |es| + 1
  {
    ElemStartZero(p0, es, fmt);
    ElementsRead(s, p0, es, 0, t, [], stod, fmt);
    assert [] + es[0..] == es;
  }

  /** The first element starts where the elements' text does. */
  lemma {:induction false} ElemStartZero(p0: nat, es: seq<Value>, fmt: Format)
    requires ElemsWf(es)
    ensures ElemStart(p0, es, 0, fmt) == p0
  {
    assert es[..0] == [];
  }

  /** ParseObject on an object's compact text: StartObject, the members' calls, EndObject, and the object. */
  lemma {:induction false} ObjectReads(s: seq<char>, p: nat, v: Value, t: seq<Event>, stod: Stod, fmt: Format)
    requires v.tag == OBJECT && Reparses(v) && HoldsAt(s, p, Compact(v, fmt))
    ensures ValueSpec(s, p, DocumentParse.AcceptAll, t, stod) == Res(OK, p + |Compact(v, fmt)|, t + Events(v), v)
    decreases v, 1
  {
    var ms := v.data.members;
    ObjectShape(v);
    ObjectCompact(v, fmt);
    ObjectEvents(v);
    var after := MembersAfter(ms, 0, fmt);
    HoldsCons(s, p, '{', after);
    MembersStart(s, p + 1, ms, fmt);
    ObjectOpens(s, p, t, stod);
    Wrap(t, [StartObjectEvent], MembersEventsFrom(ms, 0), [EndObjectEvent]);
    if ms != [] {
      ObjectMembersRead(s, p + 1, ms, t + [StartObjectEvent], stod, fmt);
    }
  }

  /** The loop of ParseObject from the first member of a non-empty object, up to its '}'. */
  lemma {:induction false} ObjectMembersRead(s: seq<char>, p0: nat, ms: seq<Member>, t: seq<Event>, stod: Stod, fmt: Format)
    requires MembersReparse(ms) && ms != [] && HoldsAt(s, p0, MembersAfter(ms, 0, fmt))
    ensures p0 <= |s|
    ensures Members(s, p0, DocumentParse.AcceptAll, t, stod, []) ==
      Res(OK, p0 + |MembersAfter(ms, 0, fmt)|, t + MembersEventsFrom(ms, 0) + [EndObjectEvent], Value(OBJECT, ObjectData(ms)))
    decreases ms, |ms| + 1
  {
    MemberStartZero(p0, ms, fmt);
    MembersRead(s, p0, ms, 0, t, [], stod, fmt);
    assert [] + ms[0..] == ms;
  }

  /** The first member starts where the members' text does. */
  lemma {:induction false} MemberStartZero(p0: nat, ms: seq<Member>, fmt: Format)
    requires KeysAreStrings(ms) && MembersWf(ms)
    ensures MemberStart(p0, ms, 0, fmt) == p0
  {
    assert ms[..0] == [];
  }

  /** Element k read from q to e, a comma after it: the loop goes on at element k + 1, from n. */
  lemma {:induction false} ElementNext(s: seq<char>, q0: nat, q: nat, e: nat, n: nat, es: seq<Value>, k: nat, t: seq<Event>,
    acc: seq<Value>, stod: Stod, fmt: Format)
    requires ElemsReparse(es) && k + 1 < |es| && HoldsAt(s, q0, ElemsAfter(es, k, fmt))
    requires q == q0 + (if k == 0 then 0 else 1) && e == q + |Compact(es[k], fmt)| && n == e + 1
    ensures n <= |s|
    ensures Elements(s, q, DocumentParse.AcceptAll, t, stod, acc) ==
      Elements(s, n, DocumentParse.AcceptAll, t + Events(es[k]), stod, acc + [es[k]])
    decreases es, |es| - k, 0
  {
    ElemPiece(s, q0, q, e, es, k, fmt);
    ElemEnd(s, e, es, k, fmt);
    ElemNextStart(s, e, es, k, fmt);
    ValueReads(s, q, es[k], t, stod, fmt);
    ElementsComma(s, q, t, stod, acc, ValueSpec(s, q, DocumentParse.AcceptAll, t, stod));
  }

  /** The last element read from q to e, ']' after it: EndArray, and the array. */
  lemma {:induction false} ElementLast(s: seq<char>, q0: nat, q: nat, e: nat, es: seq<Value>, k: nat, t: seq<Event>,
    acc: seq<Value>, stod: Stod, fmt: Format)
    requires ElemsReparse(es) && k + 1 == |es| && HoldsAt(s, q0, ElemsAfter(es, k, fmt))
    requires q == q0 + (if k == 0 then 0 else 1) && e == q + |Compact(es[k], fmt)|
    ensures q <= |s|
    ensures Elements(s, q, DocumentParse.AcceptAll, t, stod, acc) ==
      Res(OK, q0 + |ElemsAfter(es, k, fmt)|, t + Events(es[k]) + [EndArrayEvent], Value(ARRAY, ArrayData(acc + [es[k]])))
    decreases es, |es| - k, 0
  {
    ElemPiece(s, q0, q, e, es, k, fmt);
    ElemEnd(s, e, es, k, fmt);
    ValueReads(s, q, es[k], t, stod, fmt);
    ElementsStop(s, q, t, stod, acc, ValueSpec(s, q, DocumentParse.AcceptAll, t, stod));
  }

  /** Element k, a comma after it, in an array whose elements' text is held from p0: the loop goes on at element k + 1. */
  lemma {:induction false} ElemNextAt(s: seq<char>, p0: nat, es: seq<Value>, k: nat, t: seq<Event>,
    acc: seq<Value>, stod: Stod, fmt: Format)
    requires ElemsReparse(es) && k + 1 < |es| && HoldsAt(s, p0, ElemsAfter(es, 0, fmt))
    ensures ElemStart(p0, es, k, fmt) <= |s| && ElemStart(p0, es, k + 1, fmt) <= |s|
    ensures Elements(s, ElemStart(p0, es, k, fmt), DocumentParse.AcceptAll, t, stod, acc) ==
      Elements(s, ElemStart(p0, es, k + 1, fmt), DocumentParse.AcceptAll, t + Events(es[k]), stod, acc + [es[k]])
    decreases es, |es| - k, 3
  {
    ElemStartNext(p0, es, k, fmt);
    var q0 := p0 + |ElemsText(es[..k], fmt)|;
    ElemsFrom(s, p0, es, k, q0, fmt);
    ElementNext(s, q0, ElemStart(p0, es, k, fmt), ElemStart(p0, es, k, fmt) + |Compact(es[k], fmt)|,
      ElemStart(p0, es, k + 1, fmt), es, k, t, acc, stod, fmt);
  }

  /**
   * The loop of ParseArray from element k, with acc read before it, in an array whose
   * elements' text is held from p0: the calls of the elements from k on and EndArray, and
   * the array of acc and those elements, with ']' read.
   */
  lemma {:induction false} ElementsRead(s: seq<char>, p0: nat, es: seq<Value>, k: nat, t: seq<Event>,
    acc: seq<Value>, stod: Stod, fmt: Format)
    requires ElemsReparse(es) && k < |es| && HoldsAt(s, p0, ElemsAfter(es, 0, fmt))
    ensures ElemStart(p0, es, k, fmt) <= |s|
    ensures Elements(s, ElemStart(p0, es, k, fmt), DocumentParse.AcceptAll, t, stod, acc) ==
      Res(OK, p0 + |ElemsAfter(es, 0, fmt)|, t + ElemsEventsFrom(es, k) + [EndArrayEvent], Value(ARRAY, ArrayData(acc + es[k..])))
    decreases es, |es| - k, 5
  {
    if k + 1 < |es| {
      ElementsReadMore(s, p0, es, k, t, acc, stod, fmt);
    } else {
      ElementsReadLast(s, p0, es, k, t, acc, stod, fmt);
    }
  }

  /** ElementsRead where element k is followed by another. */
  lemma {:induction false} ElementsReadMore(s: seq<char>, p0: nat, es: seq<Value>, k: nat, t: seq<Event>,
    acc: seq<Value>, stod: Stod, fmt: Format)
    requires ElemsReparse(es) && k + 1 < |es| && HoldsAt(s, p0, ElemsAfter(es, 0, fmt))
    ensures ElemStart(p0, es, k, fmt) <= |s|
    ensures Elements(s, ElemStart(p0, es, k, fmt), DocumentParse.AcceptAll, t, stod, acc) ==
      Res(OK, p0 + |ElemsAfter(es, 0, fmt)|, t + ElemsEventsFrom(es, k) + [EndArrayEvent], Value(ARRAY, ArrayData(acc + es[k..])))
    decreases es, |es| - k, 4
  {
    ElemNextAt(s, p0, es, k, t, acc, stod, fmt);
    ElementsRead(s, p0, es, k + 1, t + Events(es[k]), acc + [es[k]], stod, fmt);
    ElemsGlue(es, k, t, acc);
  }

  /** The calls and the elements read after element k, rewritten as those from element k. */
  lemma {:induction false} ElemsGlue(es: seq<Value>, k: nat, t: seq<Event>, acc: seq<Value>)
    requires ElemsWf(es) && k < |es|
    ensures t + Events(es[k]) + ElemsEventsFrom(es, k + 1) + [EndArrayEvent] == t + ElemsEventsFrom(es, k) + [EndArrayEvent]
    ensures acc + [es[k]] + es[k + 1..] == acc + es[k..]
  {
    Assoc(t, Events(es[k]), ElemsEventsFrom(es, k + 1));
    SuffixCons(es, k);
    Assoc(acc, [es[k]], es[k + 1..]);
  }

  /** ElementsRead at the last element. */
  lemma {:induction false} ElementsReadLast(s: seq<char>, p0: nat, es: seq<Value>, k: nat, t: seq<Event>,
    acc: seq<Value>, stod: Stod, fmt: Format)
    requires ElemsReparse(es) && k + 1 == |es| && HoldsAt(s, p0, ElemsAfter(es, 0, fmt))
    ensures ElemStart(p0, es, k, fmt) <= |s|
    ensures Elements(s, ElemStart(p0, es, k, fmt), DocumentParse.AcceptAll, t, stod, acc) ==
      Res(OK, p0 + |ElemsAfter(es, 0, fmt)|, t + ElemsEventsFrom(es, k) + [EndArrayEvent], Value(ARRAY, ArrayData(acc + es[k..])))
    decreases es, |es| - k, 4
  {
    ElemStartNext(p0, es, k, fmt);
    var q0 := p0 + |ElemsText(es[..k], fmt)|;
    ElemsFrom(s, p0, es, k, q0, fmt);
    ElementLast(s, q0, ElemStart(p0, es, k, fmt), ElemStart(p0, es, k, fmt) + |Compact(es[k], fmt)|, es, k, t, acc, stod, fmt);
    SuffixCons(es, k);
    assert ElemsEventsFrom(es, k) == Events(es[k]);
  }

  /** The value of member m read after the colon at q1, up to e. */
  lemma {:induction false} MemberValueReads(s: seq<char>, q1: nat, e: nat, m: Member, t: seq<Event>, stod: Stod, fmt: Format)
    requires Reparses(m.value) && HoldsAt(s, q1 + 1, Compact(m.value, fmt)) && e == q1 + 1 + |Compact(m.value, fmt)| && Closes(s, e)
    ensures SkipWs(s, q1 + 1) == q1 + 1
    ensures ValueSpec(s, q1 + 1, DocumentParse.AcceptAll, t, stod) == Res(OK, e, t + Events(m.value), m.value)
    decreases m, 3
  {
    FirstChar(s, q1 + 1, m.value, fmt);
    ValueReads(s, q1 + 1, m.value, t, stod, fmt);
  }

  /** Member k read from q to e, a comma after it: the loop goes on at member k + 1. */
  lemma {:induction false} MemberNext(s: seq<char>, q0: nat, q: nat, e: nat, n: nat, ms: seq<Member>, k: nat, t: seq<Event>,
    acc: seq<Member>, stod: Stod, fmt: Format)
    requires MembersReparse(ms) && k + 1 < |ms| && HoldsAt(s, q0, MembersAfter(ms, k, fmt))
    requires q == q0 + (if k == 0 then 0 else 1) && e == q + MemberSpan(ms, k, fmt) && n == e + 1
    ensures n <= |s|
    ensures Members(s, q, DocumentParse.AcceptAll, t, stod, acc) ==
      Members(s, n, DocumentParse.AcceptAll, t + MemberEvents(ms, k), stod, acc + [ms[k]])
    ensures q0 + |MembersAfter(ms, k, fmt)| == e + |MembersAfter(ms, k + 1, fmt)|
    decreases ms, |ms| - k, 1
  {
    var m := ms[k];
    var key := m.key.data.chars;
    var q1 := q + |Quoted(key)|;
    assert m in ms && Reparses(m.value);
    MemberPiece(s, q0, q, q1, e, ms, k, fmt);
    MemberEnd(s, e, ms, k, fmt);
    MemberNextStart(s, e, ms, k, fmt);
    KeyReads(s, q, key, t);
    MemberValueReads(s, q1, e, m, t + [KeyEvent(key)], stod, fmt);
    MemberStepComma(s, q, q1, e, key, m.value, Events(m.value), t, stod, acc);
    assert Member(OfString(key), m.value) == m;
    Assoc(t, [KeyEvent(key)], Events(m.value));
  }

  /** The last member read from q to e, '}' after it: EndObject, and the object. */
  lemma {:induction false} MemberLast(s: seq<char>, q0: nat, q: nat, e: nat, ms: seq<Member>, k: nat, t: seq<Event>,
    acc: seq<Member>, stod: Stod, fmt: Format)
    requires MembersReparse(ms) && k + 1 == |ms| && HoldsAt(s, q0, MembersAfter(ms, k, fmt))
    requires q == q0 + (if k == 0 then 0 else 1) && e == q + MemberSpan(ms, k, fmt)
    ensures Members(s, q, DocumentParse.AcceptAll, t, stod, acc) ==
      Res(OK, q0 + |MembersAfter(ms, k, fmt)|, t + MemberEvents(ms, k) + [EndObjectEvent], Value(OBJECT, ObjectData(acc + [ms[k]])))
    decreases ms, |ms| - k, 1
  {
    var m := ms[k];
    var key := m.key.data.chars;
    var q1 := q + |Quoted(key)|;
    assert m in ms && Reparses(m.value);
    MemberPiece(s, q0, q, q1, e, ms, k, fmt);
    MemberEnd(s, e, ms, k, fmt);
    KeyReads(s, q, key, t);
    MemberValueReads(s, q1, e, m, t + [KeyEvent(key)], stod, fmt);
    MemberStepStop(s, q, q1, e, key, m.value, Events(m.value), t, stod, acc);
    assert Member(OfString(key), m.value) == m;
    Assoc(t, [KeyEvent(key)], Events(m.value));
  }

  /** Member k, a comma after it, in an object whose members' text is held from p0: the loop goes on at member k + 1. */
  lemma {:induction false} MemberNextAt(s: seq<char>, p0: nat, ms: seq<Member>, k: nat, t: seq<Event>,
    acc: seq<Member>, stod: Stod, fmt: Format)
    requires MembersReparse(ms) && k + 1 < |ms| && HoldsAt(s, p0, MembersAfter(ms, 0, fmt))
    ensures MemberStart(p0, ms, k, fmt) <= |s| && MemberStart(p0, ms, k + 1, fmt) <= |s|
    ensures Members(s, MemberStart(p0, ms, k, fmt), DocumentParse.AcceptAll, t, stod, acc) ==
      Members(s, MemberStart(p0, ms, k + 1, fmt), DocumentParse.AcceptAll, t + MemberEvents(ms, k), stod, acc + [ms[k]])
    decreases ms, |ms| - k, 3
  {
    MemberStartNext(p0, ms, k, fmt);
    var q0 := p0 + |MembersText(ms[..k], fmt)|;
    MembersFrom(s, p0, ms, k, q0, fmt);
    MemberNext(s, q0, MemberStart(p0, ms, k, fmt), MemberStart(p0, ms, k, fmt) + MemberSpan(ms, k, fmt),
      MemberStart(p0, ms, k + 1, fmt), ms, k, t, acc, stod, fmt);
  }

  /**
   * The loop of ParseObject from member k, with acc read before it, in an object whose
   * members' text is held from p0: the calls of the members from k on and EndObject, and
   * the object of acc and those members, with '}' read.
   */
  lemma {:induction false} MembersRead(s: seq<char>, p0: nat, ms: seq<Member>, k: nat, t: seq<Event>,
    acc: seq<Member>, stod: Stod, fmt: Format)
    requires MembersReparse(ms) && k < |ms| && HoldsAt(s, p0, MembersAfter(ms, 0, fmt))
    ensures MemberStart(p0, ms, k, fmt) <= |s|
    ensures Members(s, MemberStart(p0, ms, k, fmt), DocumentParse.AcceptAll, t, stod, acc) ==
      Res(OK, p0 + |MembersAfter(ms, 0, fmt)|, t + MembersEventsFrom(ms, k) + [EndObjectEvent],
        Value(OBJECT, ObjectData(acc + ms[k..])))
    decreases ms, |ms| - k, 5
  {
    if k + 1 < |ms| {
      MembersReadMore(s, p0, ms, k, t, acc, stod, fmt);
    } else {
      MembersReadLast(s, p0, ms, k, t, acc, stod, fmt);
    }
  }

  /** MembersRead where member k is followed by another. */
  lemma {:induction false} MembersReadMore(s: seq<char>, p0: nat, ms: seq<Member>, k: nat, t: seq<Event>,
    acc: seq<Member>, stod: Stod, fmt: Format)
    requires MembersReparse(ms) && k + 1 < |ms| && HoldsAt(s, p0, MembersAfter(ms, 0, fmt))
    ensures MemberStart(p0, ms, k, fmt) <= |s|
    ensures Members(s, MemberStart(p0, ms, k, fmt), DocumentParse.AcceptAll, t, stod, acc) ==
      Res(OK, p0 + |MembersAfter(ms, 0, fmt)|, t + MembersEventsFrom(ms, k) + [EndObjectEvent],
        Value(OBJECT, ObjectData(acc + ms[k..])))
    decreases ms, |ms| - k, 4
  {
    MemberNextAt(s, p0, ms, k, t, acc, stod, fmt);
    MembersRead(s, p0, ms, k + 1, t + MemberEvents(ms, k), acc + [ms[k]], stod, fmt);
    MembersGlue(ms, k, t, acc);
  }

  /** The calls and the members read after member k, rewritten as those from member k. */
  lemma {:induction false} MembersGlue(ms: seq<Member>, k: nat, t: seq<Event>, acc: seq<Member>)
    requires KeysAreStrings(ms) && MembersWf(ms) && k < |ms|
    ensures t + MemberEvents(ms, k) + MembersEventsFrom(ms, k + 1) + [EndObjectEvent] == t + MembersEventsFrom(ms, k) + [EndObjectEvent]
    ensures acc + [ms[k]] + ms[k + 1..] == acc + ms[k..]
  {
    Assoc(t, MemberEvents(ms, k), MembersEventsFrom(ms, k + 1));
    SuffixCons(ms, k);
    Assoc(acc, [ms[k]], ms[k + 1..]);
  }

  /** MembersRead at the last member. */
  lemma {:induction false} MembersReadLast(s: seq<char>, p0: nat, ms: seq<Member>, k: nat, t: seq<Event>,
    acc: seq<Member>, stod: Stod, fmt: Format)
    requires MembersReparse(ms) && k + 1 == |ms| && HoldsAt(s, p0, MembersAfter(ms, 0, fmt))
    ensures MemberStart(p0, ms, k, fmt) <= |s|
    ensures Members(s, MemberStart(p0, ms, k, fmt), DocumentParse.AcceptAll, t, stod, acc) ==
      Res(OK, p0 + |MembersAfter(ms, 0, fmt)|, t + MembersEventsFrom(ms, k) + [EndObjectEvent],
        Value(OBJECT, ObjectData(acc + ms[k..])))
    decreases ms, |ms| - k, 4
  {
    MemberStartNext(p0, ms, k, fmt);
    var q0 := p0 + |MembersText(ms[..k], fmt)|;
    MembersFrom(s, p0, ms, k, q0, fmt);
    MemberLast(s, q0, MemberStart(p0, ms, k, fmt), MemberStart(p0, ms, k, fmt) + MemberSpan(ms, k, fmt),
      ms, k, t, acc, stod, fmt);
    SuffixCons(ms, k);
    assert MembersEventsFrom(ms, k) == MemberEvents(ms, k);
  }

  // ---------------------------------------------------------------- the whole text

  /** Reader::Parse of a compact text: the value back, with the calls that write it. */
  lemma {:induction false} ParseCompact(v: Value, stod: Stod, fmt: Format)
    requires Reparses(v)
    ensures ParseSpec(Compact(v, fmt), 0, DocumentParse.AcceptAll, [], stod) ==
      Res(OK, |Compact(v, fmt)|, Events(v), v)
  {
    var s := Compact(v, fmt);
    WholeHeld(s);
    FirstChar(s, 0, v, fmt);
    ValueReads(s, 0, v, [], stod, fmt);
    assert [] + Events(v) == Events(v);
    EndSkipsNothing(s);
  }

  /** A text holds itself from its start. */
  lemma {:induction false} WholeHeld(s: seq<char>)
    ensures HoldsAt(s, 0, s)
  {
    assert s[0..|s|] == s;
    HoldsIff(s, 0, s);
  }

  /** At the end of the text there is no whitespace to skip. */
  lemma {:induction false} EndSkipsNothing(s: seq<char>)
    ensures SkipWs(s, |s|) == |s|
  {
  }

  /**
   * The round trip of test/round_trip.cc for every value without a double or repeated key:
   * the Document parses the compact text into the value, writeTo reports the value's calls,
   * and the compact Writer fed those calls writes the text it parsed, character for character.
   */
  lemma {:induction false} CompactRoundTrip(v: Value, stod: Stod, fmt: Format)
    requires Reparses(v) && UniqueKeys(v) && Formats(fmt)
    ensures var r := ParseSpec(Compact(v, fmt), 0, DocumentParse.AcceptAll, [], stod);
      r.err == OK && r.value == v && r.trace == Events(v)
    ensures var d := Documents.Feed(Documents.Initial, Events(v));
      d.Some? && d.value.root == v && d.value.stack == [] && d.value.seeValue
    ensures WriteSpec(v, DocumentParse.AcceptAll, []) == Outcome(Events(v), true, false)
    ensures Run(WriterStep(fmt), Fresh, Events(v)) == Some(Out(WState([], true), Compact(v, fmt)))
  {
    ParseCompact(v, stod, fmt);
    DocumentParse.ParseBuilds(Compact(v, fmt), stod);
    WriteToAcceptingHandler(v, DocumentParse.AcceptAll, []);
    assert [] + Events(v) == Events(v);
    WriteValue(v, fmt);
  }
}
