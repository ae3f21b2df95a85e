// Digit counts by comparison chains (neujson/internal/itoa.h), used by the writers to
// size the output of u32toa / u64toa.

module DigitCount {
  import opened Arith
  import opened Itoa

  /** CountDecimalDigit32: the number of decimal digits of n, 1 for 0. */
  function CountDecimalDigit32(n: U32): (k: nat)
    ensures 1 <= k <= 10
    ensures k == |Decimal(n)|
  {
    DigitsAt(n);
    if n < 10 then 1
    else if n < 100 then 2
    else if n < 1000 then 3
    else if n < 10000 then 4
    else if n < 100000 then 5
    else if n < 1000000 then 6
    else if n < 10000000 then 7
    else if n < 100000000 then 8
    else if n < 1000000000 then 9
    else 10
  }

  /** CountDecimalDigit64: the number of decimal digits of n, 1 for 0. */
  function CountDecimalDigit64(n: U64): (k: nat)
    ensures 1 <= k <= 20
    ensures k == |Decimal(n)|
  {
    DigitsAt(n);
    if n < 10 then 1
    else if n < 100 then 2
    else if n < 1000 then 3
    else if n < 10000 then 4
    else if n < 100000 then 5
    else if n < 1000000 then 6
    else if n < 10000000 then 7
    else if n < 100000000 then 8
    else if n < 1000000000 then 9
    else if n < 10000000000 then 10
    else if n < 100000000000 then 11
    else if n < 1000000000000 then 12
    else if n < 10000000000000 then 13
    else if n < 100000000000000 then 14
    else if n < 1000000000000000 then 15
    else if n < 10000000000000000 then 16
    else if n < 100000000000000000 then 17
    else if n < 1000000000000000000 then 18
    else if n < 10000000000000000000 then 19
    else 20
  }

  /** The powers of ten up to 10^20 as literals. */
  lemma {:induction false} PowersOfTen()
    ensures Pow10(1) == 10 && Pow10(2) == 100 && Pow10(3) == 1000 && Pow10(4) == 10000
    ensures Pow10(5) == 100000 && Pow10(6) == 1000000 && Pow10(7) == 10000000
    ensures Pow10(8) == 100000000 && Pow10(9) == 1000000000 && Pow10(10) == 10000000000
    ensures Pow10(11) == 100000000000 && Pow10(12) == 1000000000000
    ensures Pow10(13) == 10000000000000 && Pow10(14) == 100000000000000
    ensures Pow10(15) == 1000000000000000 && Pow10(16) == 10000000000000000
    ensures Pow10(17) == 100000000000000000 && Pow10(18) == 1000000000000000000
    ensures Pow10(19) == 10000000000000000000 && Pow10(20) == 100000000000000000000
  {
    Pow10Values();
    Pow10Add(8, 1);
    Pow10Add(8, 2);
    Pow10Add(8, 3);
    Pow10Add(8, 4);
    Pow10Add(8, 5);
    Pow10Add(8, 6);
    Pow10Add(8, 7);
    Pow10Add(16, 1);
    Pow10Add(16, 2);
    Pow10Add(16, 3);
    Pow10Add(16, 4);
  }

  /** The number of digits of n, read off the power-of-ten interval n lies in. */
  lemma {:induction false} DigitsAt(n: nat)
    ensures n < 10 ==> |Decimal(n)| == 1
    ensures 10 <= n < 100 ==> |Decimal(n)| == 2
    ensures 100 <= n < 1000 ==> |Decimal(n)| == 3
    ensures 1000 <= n < 10000 ==> |Decimal(n)| == 4
    ensures 10000 <= n < 100000 ==> |Decimal(n)| == 5
    ensures 100000 <= n < 1000000 ==> |Decimal(n)| == 6
    ensures 1000000 <= n < 10000000 ==> |Decimal(n)| == 7
    ensures 10000000 <= n < 100000000 ==> |Decimal(n)| == 8
    ensures 100000000 <= n < 1000000000 ==> |Decimal(n)| == 9
    ensures 1000000000 <= n < 10000000000 ==> |Decimal(n)| == 10
    ensures 10000000000 <= n < 100000000000 ==> |Decimal(n)| == 11
    ensures 100000000000 <= n < 1000000000000 ==> |Decimal(n)| == 12
    ensures 1000000000000 <= n < 10000000000000 ==> |Decimal(n)| == 13
    ensures 10000000000000 <= n < 100000000000000 ==> |Decimal(n)| == 14
    ensures 100000000000000 <= n < 1000000000000000 ==> |Decimal(n)| == 15
    ensures 1000000000000000 <= n < 10000000000000000 ==> |Decimal(n)| == 16
    ensures 10000000000000000 <= n < 100000000000000000 ==> |Decimal(n)| == 17
    ensures 100000000000000000 <= n < 1000000000000000000 ==> |Decimal(n)| == 18
    ensures 1000000000000000000 <= n < 10000000000000000000 ==> |Decimal(n)| == 19
    ensures 10000000000000000000 <= n < 100000000000000000000 ==> |Decimal(n)| == 20
    ensures n >= 100000000000000000000 ==> |Decimal(n)| > 20
  {
    DecimalLength(n);
    PowersOfTen();
    var m := |Decimal(n)|;
    forall k | 2 <= k <= 20 && Pow10(k - 1) <= n < Pow10(k)
      ensures m == k
    {
      DecimalLengthIs(n, k);
    }
  }
}
