// BigInteger's IsZero, operator<<= and decimal constructor as they are written in
// neujson/internal/big_integer.h, next to what they compute instead of what their names and
// comments promise. BigInts models the corrected operations.

module BigIntsAsWritten {
  import opened Arith
  import opened Values
  import opened Decimals
  import opened BigInts
  import DigitCount

  /** IsZero as written: `count_ == 1 & digits_[0] == 1`, which tests for the number 1. */
  function IsZeroAsWritten(s: seq<U64>): (r: bool)
    requires Normal(s)
    ensures r <==> Val(s) == 1
  {
    OneLimbIff(s, 1);
    |s| == 1 && s[0] == 1
  }

  /** Zero is not "zero" and one is. */
  lemma {:induction false} IsZeroAsWrittenWrong()
    ensures Normal([0]) && !IsZeroAsWritten([0])
    ensures Normal([1]) && IsZeroAsWritten([1])
  {
    assert Val([0]) == 0 by { ValOne(0); }
    assert Val([1]) == 1 by { ValOne(1); }
  }

  /**
   * operator<<= as written: the early return uses IsZeroAsWritten, and the inner shift is
   * `shift & 64` (0 or 64) rather than the remainder of the shift by 64. A zero inner shift
   * only moves the limbs up by the offset; an inner shift of 64 shifts a 64-bit limb by its
   * width, which C++ leaves undefined (None).
   */
  function ShiftAsWritten(s: seq<U64>, shift: nat): (r: Option<seq<U64>>)
    requires Normal(s)
    ensures r.Some? ==> Val(r.value) == Val(s) * Pow2(64 * (shift / 64)) || Val(s) == 1
    ensures r.None? <==> shift != 0 && Val(s) != 1 && (shift / 64) % 2 == 1
  {
    if IsZeroAsWritten(s) || shift == 0 then
      Some(s)
    else
      var offset := shift / 64;
      var inner := 64 * (offset % 2);
      if inner == 0 then
        ValZeros(offset, s);
        Pow2Base(offset);
        assert Base(offset) * Val(s) == Val(s) * Base(offset);
        Some(Zeros(offset) + s)
      else
        None
  }

  /** A shift by fewer than 64 bits leaves every normal number as it was. */
  lemma {:induction false} ShiftAsWrittenIgnoresSmall(s: seq<U64>, e: nat)
    requires Normal(s) && 0 < e < 64
    ensures ShiftAsWritten(s, e) == Some(s)
    ensures Val(s) > 0 ==> Val(s) < Val(s) * Pow2(e)
  {
    if !IsZeroAsWritten(s) {
      assert Zeros(0) + s == s;
    }
    if Val(s) > 0 {
      Pow2Strict(0, e);
      MulLt(1, Pow2(e), Val(s));
      assert Val(s) * Pow2(e) == Pow2(e) * Val(s);
    }
  }

  /** [3] shifted by one bit stays [3]; shifted by 64 bits it hits undefined behaviour. */
  lemma {:induction false} ShiftAsWrittenWrong()
    ensures Normal([3]) && ShiftAsWritten([3], 1) == Some([3])
    ensures ShiftAsWritten([3], 64) == None
    ensures ShiftLimbs([3], 1) == [6] && ShiftLimbs([3], 64) == [0, 3]
  {
    ValOne(3);
    ValOne(6);
    ShiftAsWrittenIgnoresSmall([3], 1);
    ShiftLimbsValue([3], 1);
    ShiftLimbsValue([3], 64);
    Pow2Values();
    assert Pow2(1) == 2;
    NormalIff(ShiftLimbs([3], 1), [6]);
    ValSnoc([0], 3);
    assert [0] + [3] == [0, 3];
    ValOne(0);
    NormalIff(ShiftLimbs([3], 64), [0, 3]);
  }

  /**
   * AppendDecimal64 as written, on numbers: IsZeroAsWritten sends 1 to `*this = u`, and the
   * shift by the chunk's length (below 64) does nothing, so everything else is multiplied by
   * 5^n where 10^n was meant.
   */
  function AppendAsWritten(v: nat, c: seq<char>): (r: nat)
    requires Digits(c) && 1 <= |c| <= 19
    ensures v != 1 ==> r == v * Pow5(|c|) + Dec(c)
    ensures v == 1 ==> r == Dec(c)
  {
    if v == 1 then Dec(c) else v * Pow5(|c|) + Dec(c)
  }

  /**
   * BigInteger(decimals, length) as written, from the number v already held: 19 digits at a
   * time, then the rest. From 0, a number of at most 19 digits comes out right.
   */
  function {:induction false} DecimalsAsWritten(d: seq<char>, v: nat): (r: nat)
    requires Digits(d) && |d| > 0
    ensures v == 0 && |d| <= 19 ==> r == Dec(d)
    decreases |d|
  {
    if |d| > 19 then
      assert Digits(d[..19]) by { assert forall k :: 0 <= k < 19 ==> d[..19][k] == d[k]; }
      assert Digits(d[19..]) by { assert forall k :: 19 <= k < |d| ==> d[19..][k - 19] == d[k]; }
      DecimalsAsWritten(d[19..], AppendAsWritten(v, d[..19]))
    else
      AppendAsWritten(v, d)
  }

  function OneThenZeros(n: nat): (r: seq<char>)
    ensures |r| == n + 1 && Digits(r)
  {
    ['1'] + seq(n, _ => '0')
  }

  lemma {:induction false} OneThenZerosValue(n: nat)
    ensures Dec(OneThenZeros(n)) == Pow10(n)
    decreases n
  {
    var r := OneThenZeros(n);
    if n == 0 {
      assert r == [] + ['1'];
      DecimalSnoc([], '1');
    } else {
      assert r == OneThenZeros(n - 1) + ['0'];
      DecimalSnoc(OneThenZeros(n - 1), '0');
      OneThenZerosValue(n - 1);
    }
  }

  /**
   * 10^19, twenty digits, is read as its first 19 digits (10^18) times 5 plus the last
   * digit: 5 10^18.
   */
  lemma {:induction false} DecimalsAsWrittenWrong()
    ensures DecimalsAsWritten(OneThenZeros(19), 0) == 5000000000000000000
    ensures Dec(OneThenZeros(19)) == 10000000000000000000
  {
    var d := OneThenZeros(19);
    assert d[..19] == OneThenZeros(18) && d[19..] == "0";
    OneThenZerosValue(18);
    OneThenZerosValue(19);
    DigitCount.PowersOfTen();
    var v := AppendAsWritten(0, d[..19]);
    assert v == 1000000000000000000;
    assert "0" == [] + ['0'];
    DecimalSnoc([], '0');
    assert DecimalsAsWritten(d, 0) == AppendAsWritten(v, "0");
  }
}
