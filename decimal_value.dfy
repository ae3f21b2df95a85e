// Facts about the value of a run of decimal digits, as the reader and BigInteger's decimal
// constructor read them: concatenation, bounds and the split of 10^n into 5^n 2^n.

module Decimals {
  import opened Arith
  import ReaderSpec
  import DigitCount

  predicate Digits(t: seq<char>)
  {
    forall i :: 0 <= i < |t| ==> ReaderSpec.IsDigit(t[i])
  }

  /** The digits' value. */
  function Dec(t: seq<char>): nat
    requires Digits(t)
  {
    ReaderSpec.DecimalValue(t)
  }

  /** One more digit: ten times the number, plus the digit. */
  lemma {:induction false} DecimalSnoc(t: seq<char>, c: char)
    requires Digits(t) && ReaderSpec.IsDigit(c)
    ensures Digits(t + [c]) && Dec(t + [c]) == Dec(t) * 10 + (c as int - '0' as int)
  {
    var s := t + [c];
    assert s[..|t|] == t && s[|t|] == c;
    assert Digits(s) by {
      assert forall i :: 0 <= i < |s| ==> s[i] == (if i < |t| then t[i] else c);
    }
  }

  /** Digits written after others shift those up by the new digits' count. */
  lemma {:induction false} DecimalConcat(a: seq<char>, b: seq<char>)
    requires Digits(a) && Digits(b)
    ensures Digits(a + b) && Dec(a + b) == Dec(a) * Pow10(|b|) + Dec(b)
    decreases |b|
  {
    var ab := a + b;
    assert Digits(ab) by {
      assert forall i :: 0 <= i < |ab| ==> ab[i] == (if i < |a| then a[i] else b[i - |a|]);
    }
    if b == [] {
      assert ab == a;
      var x: int := Dec(a);
      assert Pow10(0) == 1 && x * Pow10(0) == x;
    } else {
      var n := |b| - 1;
      assert Digits(b[..n]) by {
        assert forall i :: 0 <= i < n ==> b[..n][i] == b[i];
      }
      DecimalConcat(a, b[..n]);
      assert ab[..|ab| - 1] == a + b[..n] && ab[|ab| - 1] == b[n];
      var da: int, dn: int, p: int, dab: int := Dec(a), Dec(b[..n]), Pow10(n), Dec(a + b[..n]);
      var dig: int := b[n] as int - '0' as int;
      assert Dec(ab) == dab * 10 + dig;
      assert Dec(b) == dn * 10 + dig;
      assert dab == da * p + dn;
      assert Pow10(n + 1) == 10 * p;
      DecimalStep(da, p, dn, dig);
    }
  }

  lemma {:induction false} DecimalStep(da: int, p: int, dn: int, dig: int)
    ensures (da * p + dn) * 10 + dig == da * (10 * p) + (dn * 10 + dig)
  {
    assert da * (p * 10) == (da * p) * 10;
    assert p * 10 == 10 * p;
  }

  /** n digits spell less than 10^n. */
  lemma {:induction false} DecimalBound(t: seq<char>)
    requires Digits(t)
    ensures Dec(t) < Pow10(|t|)
    decreases |t|
  {
    if t != [] {
      var n := |t| - 1;
      assert Digits(t[..n]) by {
        assert forall i :: 0 <= i < n ==> t[..n][i] == t[i];
      }
      DecimalBound(t[..n]);
      assert ReaderSpec.IsDigit(t[n]);
    }
  }

  /** 10^e == 5^e 2^e: MultiplyPow5 then a shift by e multiply by 10^e. */
  lemma {:induction false} Pow10Split(e: nat)
    ensures Pow10(e) == Pow5(e) * Pow2(e)
    decreases e
  {
    if e > 0 {
      Pow10Split(e - 1);
      var a: int, b: int := Pow5(e - 1), Pow2(e - 1);
      assert Pow5(e) * Pow2(e) == (5 * a) * (2 * b);
      assert (5 * a) * (2 * b) == ((5 * a) * 2) * b;
      assert (5 * a) * 2 == 2 * (5 * a);
      assert 10 * (a * b) == (10 * a) * b;
    }
  }

  /** Up to 19 digits fit in a uint64_t. */
  lemma {:induction false} NineteenDigits(t: seq<char>)
    requires Digits(t) && |t| <= 19
    ensures Dec(t) < TWO_64
  {
    DecimalBound(t);
    Pow10Mono(|t|, 19);
    DigitCount.PowersOfTen();
  }

  /** A prefix of the digits spells at most the whole number. */
  lemma {:induction false} DecimalPrefix(d: seq<char>, j: nat)
    requires Digits(d) && j <= |d|
    ensures Digits(d[..j]) && Dec(d[..j]) <= Dec(d)
  {
    assert Digits(d[..j]) && Digits(d[j..]) by {
      assert forall k :: 0 <= k < j ==> d[..j][k] == d[k];
      assert forall k :: j <= k < |d| ==> d[j..][k - j] == d[k];
    }
    DecimalConcat(d[..j], d[j..]);
    assert d[..j] + d[j..] == d;
    var x: int := Dec(d[..j]);
    MulGe(x, Pow10(|d| - j));
  }

  /** The digits d[..j] are those of d[..i] followed by the chunk d[i..j]. */
  lemma {:induction false} ChunkSplit(d: seq<char>, i: nat, j: nat)
    requires Digits(d) && i <= j <= |d|
    ensures Digits(d[..i]) && Digits(d[i..j]) && Digits(d[..j])
    ensures Dec(d[..i]) * Pow10(j - i) + Dec(d[i..j]) == Dec(d[..j]) <= Dec(d)
  {
    DecimalPrefix(d, j);
    var a, b := d[..i], d[i..j];
    assert Digits(a) && Digits(b) by {
      assert forall k :: 0 <= k < i ==> a[k] == d[k];
      assert forall k :: i <= k < j ==> b[k - i] == d[k];
    }
    assert a + b == d[..j];
    DecimalConcat(a, b);
    var x: int, p: int, y: int := Dec(a), Pow10(j - i), Dec(b);
    assert Dec(d[..j]) == x * p + y;
  }

  /** Multiplying by 5^n gives at most what multiplying by 10^n does. */
  lemma {:induction false} Pow5Below10(x: nat, n: nat)
    ensures x * Pow5(n) <= x * Pow10(n)
  {
    Pow10Split(n);
    MulGe(Pow5(n), Pow2(n));
    MulLe(Pow5(n), Pow10(n), x);
    assert x * Pow5(n) == Pow5(n) * x;
    assert x * Pow10(n) == Pow10(n) * x;
  }
}
