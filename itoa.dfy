// Integer-to-decimal conversion into a caller buffer (include/neujson/internal/itoa.h):
// a 200-entry table of two-digit pairs, and u32toa / i32toa / u64toa / i64toa, which
// write the digits of a value through an advancing buffer position and return the
// position just past the last digit. No terminator is written.

module Itoa {
  import opened Arith

  /** The table as listed in the header: row r holds the pairs "r0" .. "r9". */
  const kDigitsListing: seq<char> :=
    "00010203040506070809" +
    "10111213141516171819" +
    "20212223242526272829" +
    "30313233343536373839" +
    "40414243444546474849" +
    "50515253545556575859" +
    "60616263646566676869" +
    "70717273747576777879" +
    "80818283848586878889" +
    "90919293949596979899"

  function Digit(d: nat): (c: char)
    requires d < 10
    ensures '0' <= c <= '9'
  {
    (48 + d) as char
  }

  // ---------------------------------------------------------------------------
  // Reference decimal text

  /** The decimal text of n: no leading zeros, "0" for zero. */
  function Decimal(n: nat): (s: seq<char>)
    ensures |s| >= 1
    decreases n
  {
    if n < 10 then [Digit(n)] else Decimal(n / 10) + [Digit(n % 10)]
  }

  /** The k least significant decimal digits of c, with leading zeros. */
  function Pad(c: nat, k: nat): (s: seq<char>)
    ensures |s| == k
  {
    if k == 0 then [] else Pad(c / 10, k - 1) + [Digit(c % 10)]
  }

  /** Reading the digits back: the text is the value, digit by digit. */
  function DigitsValue(s: seq<char>): nat
    requires forall i :: 0 <= i < |s| ==> '0' <= s[i] <= '9'
  {
    if s == [] then 0 else 10 * DigitsValue(s[..|s| - 1]) + (s[|s| - 1] as int - 48)
  }

  lemma {:induction false} DecimalValue(n: nat)
    ensures forall i :: 0 <= i < |Decimal(n)| ==> '0' <= Decimal(n)[i] <= '9'
    ensures DigitsValue(Decimal(n)) == n
    decreases n
  {
    if n >= 10 {
      DecimalValue(n / 10);
      var s := Decimal(n);
      assert s[..|s| - 1] == Decimal(n / 10);
    }
  }

  /** The text has k digits exactly when 10^(k-1) <= n < 10^k (or n is 0 and k is 1). */
  lemma {:induction false} DecimalLength(n: nat)
    ensures n < 10 ==> |Decimal(n)| == 1
    ensures n >= 10 ==> Pow10(|Decimal(n)| - 1) <= n < Pow10(|Decimal(n)|)
    ensures n < Pow10(|Decimal(n)|)
    decreases n
  {
    if n >= 10 {
      DecimalLength(n / 10);
    }
  }

  lemma {:induction false} DecimalLengthIs(n: nat, k: nat)
    requires k >= 1
    requires (k == 1 && n < 10) || (k > 1 && Pow10(k - 1) <= n < Pow10(k))
    ensures |Decimal(n)| == k
  {
    DecimalLength(n);
    var m := |Decimal(n)|;
    if m < k {
      Pow10Mono(m, k - 1);
    } else if m > k {
      Pow10Mono(k, m - 1);
    }
  }

  /** a followed by k zero digits, built by multiplying by ten k times. */
  function Shifted(a: nat, k: nat): nat
  {
    if k == 0 then a else 10 * Shifted(a, k - 1)
  }

  lemma {:induction false} ShiftedIsMul(a: nat, k: nat)
    ensures Shifted(a, k) == a * Pow10(k)
    decreases k
  {
    if k > 0 {
      ShiftedIsMul(a, k - 1);
      assert a * (10 * Pow10(k - 1)) == (a * 10) * Pow10(k - 1);
    }
  }

  lemma {:induction false} ShiftedGe(a: nat, k: nat)
    ensures Shifted(a, k) >= a
    decreases k
  {
    if k > 0 {
      ShiftedGe(a, k - 1);
    }
  }

  /** Splitting a value at the k-th digit splits its text. */
  lemma {:induction false} DecimalSplit(a: nat, c: nat, k: nat)
    requires a >= 1 && c < Pow10(k)
    ensures Decimal(a * Pow10(k) + c) == Decimal(a) + Pad(c, k)
  {
    ShiftedIsMul(a, k);
    DecimalSplitShifted(a, c, k);
  }

  lemma {:induction false} DecimalSplitShifted(a: nat, c: nat, k: nat)
    requires a >= 1 && c < Pow10(k)
    ensures Decimal(Shifted(a, k) + c) == Decimal(a) + Pad(c, k)
    decreases k
  {
    if k == 0 {
      assert c == 0 && Decimal(a) + Pad(c, k) == Decimal(a);
    } else {
      var n := Shifted(a, k) + c;
      var q, r := c / 10, c % 10;
      ShiftedGe(a, k - 1);
      assert n == 10 * (Shifted(a, k - 1) + q) + r && n >= 10;
      assert n / 10 == Shifted(a, k - 1) + q && n % 10 == r;
      DecimalSplitShifted(a, q, k - 1);
      PadUnfold(c, k);
      Assoc(Decimal(a), Pad(q, k - 1), [Digit(r)]);
    }
  }

  lemma {:induction false} Assoc(x: seq<char>, y: seq<char>, z: seq<char>)
    ensures x + y + z == x + (y + z)
  {
  }

  lemma {:induction false} PadUnfold(c: nat, k: nat)
    requires k > 0
    ensures Pad(c, k) == Pad(c / 10, k - 1) + [Digit(c % 10)]
  {
  }

  /** Appending k low digits c below the digits of a splits the padded text there. */
  lemma {:induction false} PadConcat(a: nat, c: nat, j: nat, k: nat)
    requires c < Pow10(k)
    ensures Pad(a * Pow10(k) + c, j + k) == Pad(a, j) + Pad(c, k)
  {
    ShiftedIsMul(a, k);
    PadConcatShifted(a, c, j, k);
  }

  lemma {:induction false} PadConcatShifted(a: nat, c: nat, j: nat, k: nat)
    requires c < Pow10(k)
    ensures Pad(Shifted(a, k) + c, j + k) == Pad(a, j) + Pad(c, k)
    decreases k
  {
    if k == 0 {
      assert c == 0 && Pad(a, j) + Pad(c, k) == Pad(a, j);
    } else {
      var n := Shifted(a, k) + c;
      var q, r := c / 10, c % 10;
      assert n == 10 * (Shifted(a, k - 1) + q) + r;
      assert n / 10 == Shifted(a, k - 1) + q && n % 10 == r;
      PadConcatShifted(a, q, j, k - 1);
      PadUnfold(n, j + k);
      PadUnfold(c, k);
      Assoc(Pad(a, j), Pad(q, k - 1), [Digit(r)]);
    }
  }

  /** Padding a value to more digits than it has only adds leading zeros. */
  lemma {:induction false} PadOfShort(v: nat, k: nat)
    requires k >= 1 && v < Pow10(k)
    ensures k >= |Decimal(v)|
    ensures Pad(v, k) == Pad(0, k - |Decimal(v)|) + Decimal(v)
    decreases k
  {
    DecimalLength(v);
    var n := |Decimal(v)|;
    if k < n {
      Pow10Mono(k, n - 1);
    } else if k == n {
      PadOfLong(v, n);
    } else if v < 10 {
      PadUnfold(v, k);
      assert v / 10 == 0 && v % 10 == v;
    } else {
      PadUnfold(v, k);
      PadOfShort(v / 10, k - 1);
    }
  }

  /** A value with exactly k digits is its own k-digit padding. */
  lemma {:induction false} PadOfLong(v: nat, k: nat)
    requires k >= 1 && |Decimal(v)| == k && v < Pow10(k)
    ensures Pad(v, k) == Decimal(v)
    decreases k
  {
    if k > 1 {
      DecimalLength(v);
      PadOfLong(v / 10, k - 1);
    }
  }

  // ---------------------------------------------------------------------------
  // The pair table

  /** Entry i of the listing is the character the table formula gives. */
  predicate EntryOk(i: nat)
  {
    i < 200 && |kDigitsListing| == 200 && kDigitsListing[i] == LutChar(i)
  }

  lemma {:induction false} Row0() ensures forall i | 0 <= i < 10 :: EntryOk(i)
  {
    forall i | 0 <= i < 10 ensures EntryOk(i) {
      assert i == 0 || i == 1 || i == 2 || i == 3 || i == 4 || i == 5 || i == 6 || i == 7 || i == 8 || i == 9;
    }
  }

  lemma {:induction false} Row1() ensures forall i | 10 <= i < 20 :: EntryOk(i)
  {
    forall i | 10 <= i < 20 ensures EntryOk(i) {
      assert i == 10 || i == 11 || i == 12 || i == 13 || i == 14 || i == 15 || i == 16 || i == 17 || i == 18 || i == 19;
    }
  }

  lemma {:induction false} Row2() ensures forall i | 20 <= i < 30 :: EntryOk(i)
  {
    forall i | 20 <= i < 30 ensures EntryOk(i) {
      assert i == 20 || i == 21 || i == 22 || i == 23 || i == 24 || i == 25 || i == 26 || i == 27 || i == 28 || i == 29;
    }
  }

  lemma {:induction false} Row3() ensures forall i | 30 <= i < 40 :: EntryOk(i)
  {
    forall i | 30 <= i < 40 ensures EntryOk(i) {
      assert i == 30 || i == 31 || i == 32 || i == 33 || i == 34 || i == 35 || i == 36 || i == 37 || i == 38 || i == 39;
    }
  }

  lemma {:induction false} Row4() ensures forall i | 40 <= i < 50 :: EntryOk(i)
  {
    forall i | 40 <= i < 50 ensures EntryOk(i) {
      assert i == 40 || i == 41 || i == 42 || i == 43 || i == 44 || i == 45 || i == 46 || i == 47 || i == 48 || i == 49;
    }
  }

  lemma {:induction false} Row5() ensures forall i | 50 <= i < 60 :: EntryOk(i)
  {
    forall i | 50 <= i < 60 ensures EntryOk(i) {
      assert i == 50 || i == 51 || i == 52 || i == 53 || i == 54 || i == 55 || i == 56 || i == 57 || i == 58 || i == 59;
    }
  }

  lemma {:induction false} Row6() ensures forall i | 60 <= i < 70 :: EntryOk(i)
  {
    forall i | 60 <= i < 70 ensures EntryOk(i) {
      assert i == 60 || i == 61 || i == 62 || i == 63 || i == 64 || i == 65 || i == 66 || i == 67 || i == 68 || i == 69;
    }
  }

  lemma {:induction false} Row7() ensures forall i | 70 <= i < 80 :: EntryOk(i)
  {
    forall i | 70 <= i < 80 ensures EntryOk(i) {
      assert i == 70 || i == 71 || i == 72 || i == 73 || i == 74 || i == 75 || i == 76 || i == 77 || i == 78 || i == 79;
    }
  }

  lemma {:induction false} Row8() ensures forall i | 80 <= i < 90 :: EntryOk(i)
  {
    forall i | 80 <= i < 90 ensures EntryOk(i) {
      assert i == 80 || i == 81 || i == 82 || i == 83 || i == 84 || i == 85 || i == 86 || i == 87 || i == 88 || i == 89;
    }
  }

  lemma {:induction false} Row9() ensures forall i | 90 <= i < 100 :: EntryOk(i)
  {
    forall i | 90 <= i < 100 ensures EntryOk(i) {
      assert i == 90 || i == 91 || i == 92 || i == 93 || i == 94 || i == 95 || i == 96 || i == 97 || i == 98 || i == 99;
    }
  }

  lemma {:induction false} Row10() ensures forall i | 100 <= i < 110 :: EntryOk(i)
  {
    forall i | 100 <= i < 110 ensures EntryOk(i) {
      assert i == 100 || i == 101 || i == 102 || i == 103 || i == 104 || i == 105 || i == 106 || i == 107 || i == 108 || i == 109;
    }
  }

  lemma {:induction false} Row11() ensures forall i | 110 <= i < 120 :: EntryOk(i)
  {
    forall i | 110 <= i < 120 ensures EntryOk(i) {
      assert i == 110 || i == 111 || i == 112 || i == 113 || i == 114 || i == 115 || i == 116 || i == 117 || i == 118 || i == 119;
    }
  }

  lemma {:induction false} Row12() ensures forall i | 120 <= i < 130 :: EntryOk(i)
  {
    forall i | 120 <= i < 130 ensures EntryOk(i) {
      assert i == 120 || i == 121 || i == 122 || i == 123 || i == 124 || i == 125 || i == 126 || i == 127 || i == 128 || i == 129;
    }
  }

  lemma {:induction false} Row13() ensures forall i | 130 <= i < 140 :: EntryOk(i)
  {
    forall i | 130 <= i < 140 ensures EntryOk(i) {
      assert i == 130 || i == 131 || i == 132 || i == 133 || i == 134 || i == 135 || i == 136 || i == 137 || i == 138 || i == 139;
    }
  }

  lemma {:induction false} Row14() ensures forall i | 140 <= i < 150 :: EntryOk(i)
  {
    forall i | 140 <= i < 150 ensures EntryOk(i) {
      assert i == 140 || i == 141 || i == 142 || i == 143 || i == 144 || i == 145 || i == 146 || i == 147 || i == 148 || i == 149;
    }
  }

  lemma {:induction false} Row15() ensures forall i | 150 <= i < 160 :: EntryOk(i)
  {
    forall i | 150 <= i < 160 ensures EntryOk(i) {
      assert i == 150 || i == 151 || i == 152 || i == 153 || i == 154 || i == 155 || i == 156 || i == 157 || i == 158 || i == 159;
    }
  }

  lemma {:induction false} Row16() ensures forall i | 160 <= i < 170 :: EntryOk(i)
  {
    forall i | 160 <= i < 170 ensures EntryOk(i) {
      assert i == 160 || i == 161 || i == 162 || i == 163 || i == 164 || i == 165 || i == 166 || i == 167 || i == 168 || i == 169;
    }
  }

  lemma {:induction false} Row17() ensures forall i | 170 <= i < 180 :: EntryOk(i)
  {
    forall i | 170 <= i < 180 ensures EntryOk(i) {
      assert i == 170 || i == 171 || i == 172 || i == 173 || i == 174 || i == 175 || i == 176 || i == 177 || i == 178 || i == 179;
    }
  }

  lemma {:induction false} Row18() ensures forall i | 180 <= i < 190 :: EntryOk(i)
  {
    forall i | 180 <= i < 190 ensures EntryOk(i) {
      assert i == 180 || i == 181 || i == 182 || i == 183 || i == 184 || i == 185 || i == 186 || i == 187 || i == 188 || i == 189;
    }
  }

  lemma {:induction false} Row19() ensures forall i | 190 <= i < 200 :: EntryOk(i)
  {
    forall i | 190 <= i < 200 ensures EntryOk(i) {
      assert i == 190 || i == 191 || i == 192 || i == 193 || i == 194 || i == 195 || i == 196 || i == 197 || i == 198 || i == 199;
    }
  }

  /** kDigitsLut: entries 2k and 2k+1 are the tens and units digits of k. */
  function LutChar(i: nat): (c: char)
    requires i < 200
    ensures '0' <= c <= '9'
  {
    if i % 2 == 0 then Digit((i / 2) / 10) else Digit((i / 2) % 10)
  }

  const kDigitsLut: seq<char> := seq(200, i requires 0 <= i < 200 => LutChar(i))

  /** The table the conversions read is the listing, entry for entry. */
  lemma {:induction false} ListingIsLut()
    ensures kDigitsListing == kDigitsLut
  {
    Row0(); Row1(); Row2(); Row3(); Row4(); Row5(); Row6(); Row7(); Row8(); Row9();
    Row10(); Row11(); Row12(); Row13(); Row14(); Row15(); Row16(); Row17(); Row18(); Row19();
    forall i | 0 <= i < 200 ensures kDigitsListing[i] == kDigitsLut[i] {
      assert EntryOk(i);
    }
  }

  lemma {:induction false} LutEntry(k: nat)
    requires k < 100
    ensures LutChar(2 * k) == Digit(k / 10) && LutChar(2 * k + 1) == Digit(k % 10)
  {
  }

  /** The two table characters at index 2k: the 2-digit padding of k. */
  function Pair(k: nat): (s: seq<char>)
    requires k < 100
    ensures |s| == 2
  {
    LutEntry(k);
    [LutChar(2 * k), LutChar(2 * k + 1)]
  }

  lemma {:induction false} PairIsPad(k: nat)
    requires k < 100
    ensures Pair(k) == Pad(k, 2)
  {
    LutEntry(k);
    var t := k / 10;
    assert Pad(t, 1) == Pad(t / 10, 0) + [Digit(t % 10)];
    assert Pad(k, 2) == Pad(t, 1) + [Digit(k % 10)];
    assert t % 10 == t;
  }

  /** Four digits as the source assembles them from two table pairs. */
  lemma {:induction false} Group4(c: nat)
    requires c < 10000
    ensures Pair(c / 100) + Pair(c % 100) == Pad(c, 4)
  {
    var h, l := c / 100, c % 100;
    Pow10Values();
    assert h * Pow10(2) + l == c;
    PadConcat(h, l, 2, 2);
    PairIsPad(h);
    PairIsPad(l);
  }

  lemma {:induction false} Pow10Values()
    ensures Pow10(2) == 100 && Pow10(4) == 10000 && Pow10(8) == 100000000
    ensures Pow10(16) == 10000000000000000
  {
    Pow10Add(2, 2);
    Pow10Add(4, 4);
    Pow10Add(8, 8);
  }

  // ---------------------------------------------------------------------------
  // The digit groups as the conversions emit them

  /** The character c when the condition holds, nothing otherwise: one guarded store. */
  function Opt(b: bool, c: char): (s: seq<char>)
    ensures |s| == Ones(b)
  {
    if b then [c] else []
  }

  /** A value below 10^k is the tail of its k-digit padding. */
  lemma {:induction false} SuffixOfPad(v: nat, k: nat)
    requires k >= 1 && v < Pow10(k)
    ensures |Decimal(v)| <= k
    ensures Decimal(v) == Pad(v, k)[k - |Decimal(v)|..]
  {
    PadOfShort(v, k);
  }

  /** The number of digits of a value below 10^4, by range. */
  lemma {:induction false} DecimalLength4(v: nat)
    requires v < 10000
    ensures 1 <= |Decimal(v)| <= 4
    ensures |Decimal(v)| == 4 <==> v >= 1000
    ensures |Decimal(v)| >= 3 <==> v >= 100
    ensures |Decimal(v)| >= 2 <==> v >= 10
  {
    if v >= 1000 {
      DecimalLengthIs(v, 4);
    } else if v >= 100 {
      DecimalLengthIs(v, 3);
    } else if v >= 10 {
      DecimalLengthIs(v, 2);
    } else {
      DecimalLengthIs(v, 1);
    }
  }

  /** Dropping the first 4 - n of four characters is storing them under the digit-count guards. */
  lemma {:induction false} Select4(v: nat, c0: char, c1: char, c2: char, c3: char, d: seq<char>)
    requires 1 <= |d| <= 4 && d == [c0, c1, c2, c3][4 - |d|..]
    requires (|d| == 4 <==> v >= 1000) && (|d| >= 3 <==> v >= 100) && (|d| >= 2 <==> v >= 10)
    ensures d == Opt(v >= 1000, c0) + Opt(v >= 100, c1) + Opt(v >= 10, c2) + [c3]
  {
  }

  /** The four-digit padding of hhll, as its four table characters. */
  lemma {:induction false} Pad4Chars(v: nat, h: nat, l: nat)
    requires v < 10000 && h == v / 100 && l == v % 100
    ensures Pad(v, 4) == [LutChar(h * 2), LutChar(h * 2 + 1), LutChar(l * 2), LutChar(l * 2 + 1)]
  {
    Group4(v);
    PairsAt(h, l);
  }

  /** A value below 10^4 is the tail of its four-digit padding. */
  lemma {:induction false} Tail4(v: nat)
    requires v < 10000
    ensures 1 <= |Decimal(v)| <= 4
    ensures Decimal(v) == Pad(v, 4)[4 - |Decimal(v)|..]
  {
    Pow10Values();
    SuffixOfPad(v, 4);
    DecimalLength4(v);
  }

  /** Lead4 with the two table rows h = v / 100 and l = v % 100 named. */
  lemma {:induction false} Lead4Rows(v: nat, h: nat, l: nat)
    requires v < 10000 && h == v / 100 && l == v % 100
    ensures Decimal(v) ==
      Opt(v >= 1000, LutChar(h * 2)) + Opt(v >= 100, LutChar(h * 2 + 1)) +
      Opt(v >= 10, LutChar(l * 2)) + [LutChar(l * 2 + 1)]
  {
    Tail4(v);
    DecimalLength4(v);
    Pad4Chars(v, h, l);
    Select4(v, LutChar(h * 2), LutChar(h * 2 + 1), LutChar(l * 2), LutChar(l * 2 + 1), Decimal(v));
  }

  /** Below 10^4 the guarded stores of the four table characters leave out exactly the leading zeros. */
  lemma {:induction false} Lead4(v: nat)
    requires v < 10000
    ensures Decimal(v) ==
      Opt(v >= 1000, LutChar((v / 100) * 2)) + Opt(v >= 100, LutChar((v / 100) * 2 + 1)) +
      Opt(v >= 10, LutChar((v % 100) * 2)) + [LutChar((v % 100) * 2 + 1)]
  {
    Lead4Rows(v, v / 100, v % 100);
  }

  /** Two table pairs side by side, character by character. */
  lemma {:induction false} PairsAt(a: nat, b: nat)
    requires a < 100 && b < 100
    ensures Pair(a) + Pair(b) == [LutChar(a * 2), LutChar(a * 2 + 1), LutChar(b * 2), LutChar(b * 2 + 1)]
  {
    assert a * 2 == 2 * a && b * 2 == 2 * b;
  }

  lemma {:induction false} Snoc2(x: seq<char>, a: char, b: char)
    ensures x + [a] + [b] == x + ([a] + [b])
  {
  }

  lemma {:induction false} Snoc3(x: seq<char>, a: char, b: char, c: char)
    ensures x + [a] + [b] + [c] == x + ([a] + [b] + [c])
  {
  }

  lemma {:induction false} Cat4(x: seq<char>, a: seq<char>, b: seq<char>, c: seq<char>, d: seq<char>)
    ensures x + a + b + c + d == x + (a + b + c + d)
  {
  }

  lemma {:induction false} Cat8(x: seq<char>, a: seq<char>, b: seq<char>, c: seq<char>, d: seq<char>,
             e: seq<char>, f: seq<char>, g: seq<char>, h: seq<char>)
    ensures x + a + b + c + d + e + f + g + h == x + (a + b + c + d + e + f + g + h)
  {
    Cat4(x, a, b, c, d);
    Cat4(x + (a + b + c + d), e, f, g, h);
    Cat4(a + b + c + d, e, f, g, h);
  }

  lemma {:induction false} Snoc4(x: seq<char>, a: char, b: char, c: char, d: char)
    ensures x + [a, b, c, d] == x + [a] + [b] + [c] + [d]
  {
  }

  /** x followed by the four table digits of c, one character at a time. */
  lemma {:induction false} Quad(x: seq<char>, c: nat)
    requires c < 10000
    ensures x + Pad(c, 4) == x +
      [LutChar((c / 100) * 2)] + [LutChar((c / 100) * 2 + 1)] +
      [LutChar((c % 100) * 2)] + [LutChar((c % 100) * 2 + 1)]
  {
    var h, l := c / 100, c % 100;
    Group4(c);
    assert h * 2 == 2 * h && l * 2 == 2 * l;
    assert Pair(h) == [LutChar(h * 2), LutChar(h * 2 + 1)];
    assert Pair(l) == [LutChar(l * 2), LutChar(l * 2 + 1)];
    assert Pad(c, 4) == [LutChar(h * 2), LutChar(h * 2 + 1), LutChar(l * 2), LutChar(l * 2 + 1)];
    Snoc4(x, LutChar((c / 100) * 2), LutChar((c / 100) * 2 + 1),
          LutChar((c % 100) * 2), LutChar((c % 100) * 2 + 1));
  }

  /** The digits of bbbbcccc, b not zero: those of b, then the four of c. */
  lemma {:induction false} Split4(b: nat, c: nat)
    requires 1 <= b && c < 10000
    ensures Decimal(10000 * b + c) == Decimal(b) + Pad(c, 4)
  {
    Pow10Values();
    DecimalSplit(b, c, 4);
    assert b * Pow10(4) + c == 10000 * b + c;
  }

  /** Between 10^4 and 10^8: the guarded high group bbbb, then the four digits of cccc. */
  lemma {:induction false} Mid8(v: nat, b: nat, c: nat)
    requires 10000 <= v && v == 10000 * b + c && b < 10000 && c < 10000
    ensures Decimal(v) ==
      Opt(b >= 1000, LutChar((b / 100) * 2)) + Opt(b >= 100, LutChar((b / 100) * 2 + 1)) +
      Opt(b >= 10, LutChar((b % 100) * 2)) + Opt(true, LutChar((b % 100) * 2 + 1)) +
      Opt(true, LutChar((c / 100) * 2)) + Opt(true, LutChar((c / 100) * 2 + 1)) +
      Opt(true, LutChar((c % 100) * 2)) + [LutChar((c % 100) * 2 + 1)]
  {
    var l1, l2 := LutChar((b / 100) * 2), LutChar((b / 100) * 2 + 1);
    var l3, l4 := LutChar((b % 100) * 2), LutChar((b % 100) * 2 + 1);
    var l5, l6 := LutChar((c / 100) * 2), LutChar((c / 100) * 2 + 1);
    var l7, l8 := LutChar((c % 100) * 2), LutChar((c % 100) * 2 + 1);
    Split4(b, c);
    Quad(Decimal(b), c);
    assert Decimal(v) == Decimal(b) + Opt(true, l5) + Opt(true, l6) + Opt(true, l7) + [l8];
    Lead4(b);
    assert Decimal(b) == Opt(b >= 1000, l1) + Opt(b >= 100, l2) + Opt(b >= 10, l3) + Opt(true, l4);
  }

  /**
   * Lead8 after some text x, with the table characters c1 to c8 as the stores read them:
   * the text they make and its length.
   */
  lemma {:induction false} Lead8Text(x: seq<char>, v: nat, b: nat, c: nat, g1: bool, g2: bool, g3: bool, g4: bool, g5: bool, g6: bool, g7: bool,
                  c1: char, c2: char, c3: char, c4: char, c5: char, c6: char, c7: char, c8: char)
    requires 1 <= v && v == 10000 * b + c && b < 10000 && c < 10000
    requires g1 == (v >= 10000000) && g2 == (v >= 1000000) && g3 == (v >= 100000) && g4 == (v >= 10000)
    requires g5 == (v >= 1000) && g6 == (v >= 100) && g7 == (v >= 10)
    requires c1 == LutChar((b / 100) * 2) && c2 == LutChar((b / 100) * 2 + 1)
    requires c3 == LutChar((b % 100) * 2) && c4 == LutChar((b % 100) * 2 + 1)
    requires c5 == LutChar((c / 100) * 2) && c6 == LutChar((c / 100) * 2 + 1)
    requires c7 == LutChar((c % 100) * 2) && c8 == LutChar((c % 100) * 2 + 1)
    ensures x + Decimal(v) == x + Opt(g1, c1) + Opt(g2, c2) + Opt(g3, c3) + Opt(g4, c4) +
      Opt(g5, c5) + Opt(g6, c6) + Opt(g7, c7) + [c8]
    ensures |Decimal(v)| == 1 + Ones(g1) + Ones(g2) + Ones(g3) + Ones(g4) + Ones(g5) + Ones(g6) + Ones(g7)
  {
    Lead8(v, b, c, g1, g2, g3, g4, g5, g6, g7);
    Cat8(x, Opt(g1, c1), Opt(g2, c2), Opt(g3, c3), Opt(g4, c4), Opt(g5, c5), Opt(g6, c6), Opt(g7, c7), [c8]);
  }

  /**
   * The guards of the middle branch of u64toa compare the whole value with 10^15 down to
   * 10^9; each is the comparison of its leading eight digits v with 10^7 down to 10.
   */
  lemma {:induction false} Guards8(value: nat, v: nat)
    requires 100000000 <= value < 10000000000000000 && v == value / 100000000
    ensures 1 <= v < 100000000
    ensures (value >= 1000000000000000) == (v >= 10000000)
    ensures (value >= 100000000000000) == (v >= 1000000)
    ensures (value >= 10000000000000) == (v >= 100000)
    ensures (value >= 1000000000000) == (v >= 10000)
    ensures (value >= 100000000000) == (v >= 1000)
    ensures (value >= 10000000000) == (v >= 100)
    ensures (value >= 1000000000) == (v >= 10)
  {
    HighHalf(value);
  }

  /**
   * The leading eight digits v of a value between 10^8 and 10^16, every store but the
   * last under its own guard g1 to g7 (the middle branch of u64toa).
   */
  lemma {:induction false} Lead8(v: nat, b: nat, c: nat, g1: bool, g2: bool, g3: bool, g4: bool, g5: bool, g6: bool, g7: bool)
    requires 1 <= v && v == 10000 * b + c && b < 10000 && c < 10000
    requires g1 == (v >= 10000000) && g2 == (v >= 1000000) && g3 == (v >= 100000) && g4 == (v >= 10000)
    requires g5 == (v >= 1000) && g6 == (v >= 100) && g7 == (v >= 10)
    ensures Decimal(v) ==
      Opt(g1, LutChar((b / 100) * 2)) + Opt(g2, LutChar((b / 100) * 2 + 1)) +
      Opt(g3, LutChar((b % 100) * 2)) + Opt(g4, LutChar((b % 100) * 2 + 1)) +
      Opt(g5, LutChar((c / 100) * 2)) + Opt(g6, LutChar((c / 100) * 2 + 1)) +
      Opt(g7, LutChar((c % 100) * 2)) + [LutChar((c % 100) * 2 + 1)]
  {
    if v >= 10000 {
      assert g1 == (b >= 1000) && g2 == (b >= 100) && g3 == (b >= 10) && g4 && g5 && g6 && g7;
      Mid8(v, b, c);
    } else {
      assert b == 0 && c == v && !g1 && !g2 && !g3 && !g4;
      assert g5 == (c >= 1000) && g6 == (c >= 100) && g7 == (c >= 10);
      Lead4(c);
      Empty4(Opt(g5, LutChar((c / 100) * 2)) + Opt(g6, LutChar((c / 100) * 2 + 1)) +
        Opt(g7, LutChar((c % 100) * 2)) + [LutChar((c % 100) * 2 + 1)]);
    }
  }

  /** Four empty pieces in front of t. */
  lemma {:induction false} Empty4(t: seq<char>)
    ensures [] + [] + [] + [] + t == t
  {
  }


  /** Eight digits with leading zeros after some text x, from the table pairs of bbbb and cccc. */
  lemma {:induction false} Pad8(x: seq<char>, v: nat, b: nat, c: nat)
    requires v == 10000 * b + c && b < 10000 && c < 10000
    ensures x + Pad(v, 8) == x +
      [LutChar((b / 100) * 2)] + [LutChar((b / 100) * 2 + 1)] +
      [LutChar((b % 100) * 2)] + [LutChar((b % 100) * 2 + 1)] +
      [LutChar((c / 100) * 2)] + [LutChar((c / 100) * 2 + 1)] +
      [LutChar((c % 100) * 2)] + [LutChar((c % 100) * 2 + 1)]
  {
    Pow10Values();
    PadConcat(b, c, 4, 4);
    assert b * Pow10(4) + c == v;
    assert Pad(v, 8) == Pad(b, 4) + Pad(c, 4);
    Assoc(x, Pad(b, 4), Pad(c, 4));
    Quad(x, b);
    Quad(x + Pad(b, 4), c);
  }

  /** Sixteen padded digits are the padded eight of v0 followed by the padded eight of v1. */
  lemma {:induction false} Pad16(x: seq<char>, r: nat, v0: nat, v1: nat)
    requires r < 10000000000000000 && v0 == r / 100000000 && v1 == r % 100000000
    ensures x + Pad(r, 16) == x + Pad(v0, 8) + Pad(v1, 8)
  {
    Pow10Values();
    assert r == v0 * Pow10(8) + v1;
    PadConcat(v0, v1, 8, 8);
  }

  /** The leading one or two digits of a ten-digit uint32_t (a is 1 to 42). */
  lemma {:induction false} Head2(a: nat)
    requires 1 <= a < 100
    ensures a < 10 ==> Decimal(a) == [Digit(a)]
    ensures a >= 10 ==> Decimal(a) == [LutChar(a * 2)] + [LutChar(a * 2 + 1)]
  {
    LutEntry(a);
    if a >= 10 {
      assert a / 10 < 10 && a * 2 == 2 * a;
      assert Decimal(a) == Decimal(a / 10) + [Digit(a % 10)];
    }
  }

  /** Three leading digits: the hundreds digit written directly, then a table pair. */
  lemma {:induction false} Head3(a: nat)
    requires 100 <= a < 1000
    ensures Decimal(a) == [Digit(a / 100)] + [LutChar((a % 100) * 2)] + [LutChar((a % 100) * 2 + 1)]
  {
    var h := a / 100;
    assert a == h * 100 + a % 100;
    assert 1 <= h < 10;
    assert h % 10 == h;
    Lead4(a);
    LutEntry(h);
    assert Opt(a >= 1000, LutChar(h * 2)) == [];
    assert Opt(a >= 100, LutChar(h * 2 + 1)) == [Digit(h)];
  }

  /** The leading one to four digits of a twenty-digit uint64_t (a is 1 to 1844). */
  lemma {:induction false} Head4(a: nat)
    requires 1 <= a < 10000
    ensures a < 10 ==> Decimal(a) == [Digit(a)]
    ensures 10 <= a < 100 ==> Decimal(a) == [LutChar(a * 2)] + [LutChar(a * 2 + 1)]
    ensures 100 <= a < 1000 ==>
      Decimal(a) == [Digit(a / 100)] + [LutChar((a % 100) * 2)] + [LutChar((a % 100) * 2 + 1)]
    ensures 1000 <= a ==>
      Decimal(a) == [LutChar((a / 100) * 2)] + [LutChar((a / 100) * 2 + 1)] +
                    [LutChar((a % 100) * 2)] + [LutChar((a % 100) * 2 + 1)]
  {
    if a < 100 {
      Head2(a);
    } else if a < 1000 {
      Head3(a);
    } else {
      Pow10Values();
      DecimalLengthIs(a, 4);
      PadOfLong(a, 4);
      Quad([], a);
      assert [] + Pad(a, 4) == Decimal(a);
    }
  }

  /** A value of 10^k or more is its leading part a followed by the k-digit padding of the rest. */
  lemma {:induction false} SplitAt(v: nat, k: nat, a: nat, r: nat)
    requires k >= 1 && v >= Pow10(k) && a == v / Pow10(k) && r == v % Pow10(k)
    ensures a >= 1 && Decimal(v) == Decimal(a) + Pad(r, k)
  {
    DivBounds(v, Pow10(k));
    assert v == a * Pow10(k) + r;
    if a == 0 {
      assert false;
    }
    DecimalSplit(a, r, k);
  }

  // ---------------------------------------------------------------------------
  // The conversions

  /** Every cell of the buffer outside [start, end) still holds what orig holds. */
  ghost predicate Unchanged(buffer: array<char>, orig: seq<char>, start: nat, end: nat)
    reads buffer
  {
    |orig| == buffer.Length &&
    forall i | 0 <= i < buffer.Length && !(start <= i < end) :: buffer[i] == orig[i]
  }

  /** *buffer++ = c: one store at p; out is what has been written from start so far. */
  method Store(buffer: array<char>, p: nat, c: char, ghost start: nat, ghost out: seq<char>, ghost orig: seq<char>)
    returns (q: nat, ghost out': seq<char>)
    requires start <= p < buffer.Length && p == start + |out| && buffer[start..p] == out
    requires Unchanged(buffer, orig, start, p)
    modifies buffer
    ensures q == p + 1 && out' == out + [c] && buffer[start..q] == out'
    ensures Unchanged(buffer, orig, start, q)
  {
    buffer[p] := c;
    q := p + 1;
    out' := out + [c];
    assert buffer[start..q] == buffer[start..p] + [c];
  }

  /** if (cond) *buffer++ = c; */
  method StoreIf(cond: bool, buffer: array<char>, p: nat, c: char, ghost start: nat, ghost out: seq<char>, ghost orig: seq<char>)
    returns (q: nat, ghost out': seq<char>)
    requires start <= p <= buffer.Length && p == start + |out| && buffer[start..p] == out
    requires cond ==> p < buffer.Length
    requires Unchanged(buffer, orig, start, p)
    modifies buffer
    ensures q == p + Ones(cond) && out' == out + Opt(cond, c) && buffer[start..q] == out'
    ensures Unchanged(buffer, orig, start, q)
  {
    if cond {
      q, out' := Store(buffer, p, c, start, out, orig);
    } else {
      q, out' := p, out;
    }
  }

  function Ones(b: bool): nat
  {
    if b then 1 else 0
  }

  /** Four successive stores, each under its own guard. */
  method PutOpt4(g1: bool, g2: bool, g3: bool, g4: bool, c1: char, c2: char, c3: char, c4: char,
                 buffer: array<char>, p: nat, ghost start: nat, ghost out: seq<char>, ghost orig: seq<char>)
    returns (q: nat, ghost out': seq<char>)
    requires start <= p && p == start + |out|
    requires p + Ones(g1) + Ones(g2) + Ones(g3) + Ones(g4) <= buffer.Length
    requires buffer[start..p] == out && Unchanged(buffer, orig, start, p)
    modifies buffer
    ensures out' == out + Opt(g1, c1) + Opt(g2, c2) + Opt(g3, c3) + Opt(g4, c4)
    ensures q == p + Ones(g1) + Ones(g2) + Ones(g3) + Ones(g4)
    ensures q == start + |out'| && buffer[start..q] == out'
    ensures Unchanged(buffer, orig, start, q)
  {
    q, out' := StoreIf(g1, buffer, p, c1, start, out, orig);
    q, out' := StoreIf(g2, buffer, q, c2, start, out', orig);
    q, out' := StoreIf(g3, buffer, q, c3, start, out', orig);
    q, out' := StoreIf(g4, buffer, q, c4, start, out', orig);
  }

  /** Four successive stores, the first three each under its own guard. */
  method Put4(g1: bool, g2: bool, g3: bool, c1: char, c2: char, c3: char, c4: char,
              buffer: array<char>, p: nat, ghost start: nat, ghost out: seq<char>, ghost orig: seq<char>)
    returns (q: nat, ghost out': seq<char>)
    requires start <= p && p == start + |out|
    requires p + 1 + Ones(g1) + Ones(g2) + Ones(g3) <= buffer.Length
    requires buffer[start..p] == out && Unchanged(buffer, orig, start, p)
    modifies buffer
    ensures out' == out + Opt(g1, c1) + Opt(g2, c2) + Opt(g3, c3) + [c4]
    ensures q == p + 1 + Ones(g1) + Ones(g2) + Ones(g3)
    ensures q == start + |out'| && buffer[start..q] == out'
    ensures Unchanged(buffer, orig, start, q)
  {
    q, out' := StoreIf(g1, buffer, p, c1, start, out, orig);
    q, out' := StoreIf(g2, buffer, q, c2, start, out', orig);
    q, out' := StoreIf(g3, buffer, q, c3, start, out', orig);
    q, out' := Store(buffer, q, c4, start, out', orig);
  }

  /** Eight successive stores, the first seven each under its own guard. */
  method Put8(g1: bool, g2: bool, g3: bool, g4: bool, g5: bool, g6: bool, g7: bool,
              c1: char, c2: char, c3: char, c4: char, c5: char, c6: char, c7: char, c8: char,
              buffer: array<char>, p: nat, ghost start: nat, ghost out: seq<char>, ghost orig: seq<char>)
    returns (q: nat, ghost out': seq<char>)
    requires start <= p && p == start + |out|
    requires p + 1 + Ones(g1) + Ones(g2) + Ones(g3) + Ones(g4) + Ones(g5) + Ones(g6) + Ones(g7) <= buffer.Length
    requires buffer[start..p] == out && Unchanged(buffer, orig, start, p)
    modifies buffer
    ensures out' == out + Opt(g1, c1) + Opt(g2, c2) + Opt(g3, c3) + Opt(g4, c4) +
      Opt(g5, c5) + Opt(g6, c6) + Opt(g7, c7) + [c8]
    ensures q == start + |out'| && q <= buffer.Length && buffer[start..q] == out'
    ensures Unchanged(buffer, orig, start, q)
  {
    q, out' := PutOpt4(g1, g2, g3, g4, c1, c2, c3, c4, buffer, p, start, out, orig);
    q, out' := Put4(g5, g6, g7, c5, c6, c7, c8, buffer, q, start, out', orig);
  }

  /** The eight table reads for v = bbbbcccc: the characters at 2(b / 100), 2(b % 100), 2(c / 100), 2(c % 100) and after each. */
  method Lookup8(b: nat, c: nat) returns (c1: char, c2: char, c3: char, c4: char, c5: char, c6: char, c7: char, c8: char)
    requires b < 10000 && c < 10000
    ensures c1 == LutChar((b / 100) * 2) && c2 == LutChar((b / 100) * 2 + 1)
    ensures c3 == LutChar((b % 100) * 2) && c4 == LutChar((b % 100) * 2 + 1)
    ensures c5 == LutChar((c / 100) * 2) && c6 == LutChar((c / 100) * 2 + 1)
    ensures c7 == LutChar((c % 100) * 2) && c8 == LutChar((c % 100) * 2 + 1)
  {
    var d1, d2, d3, d4 := (b / 100) * 2, (b % 100) * 2, (c / 100) * 2, (c % 100) * 2;
    c1, c2, c3, c4 := kDigitsLut[d1], kDigitsLut[d1 + 1], kDigitsLut[d2], kDigitsLut[d2 + 1];
    c5, c6, c7, c8 := kDigitsLut[d3], kDigitsLut[d3 + 1], kDigitsLut[d4], kDigitsLut[d4 + 1];
  }

  /** The table indices of the two four-digit groups of v < 10^8. */
  lemma {:induction false} TableIndices(v: nat, b: nat, c: nat)
    requires v < 100000000 && b == v / 10000 && c == v % 10000
    ensures v == 10000 * b + c && b < 10000 && c < 10000
    ensures (b / 100) * 2 + 1 < 200 && (b % 100) * 2 + 1 < 200
    ensures (c / 100) * 2 + 1 < 200 && (c % 100) * 2 + 1 < 200
  {
  }

  /** The leading eight digits of a value below 10^16. */
  lemma {:induction false} HighHalf(value: nat)
    requires value < 10000000000000000
    ensures value / 100000000 < 100000000
    ensures value >= 100000000 ==> value / 100000000 >= 1
  {
  }

  /**
   * The stores for the leading eight digits v = value / 10^8 = bbbbcccc of a value
   * between 10^8 and 10^16: seven of them guarded by comparing the whole value with
   * 10^15 down to 10^9.
   */
  method PutLead8(value: nat, b: nat, c: nat, buffer: array<char>, p: nat, ghost start: nat, ghost out: seq<char>, ghost orig: seq<char>)
    returns (q: nat, ghost out': seq<char>)
    requires 100000000 <= value < 10000000000000000
    requires b == (value / 100000000) / 10000 && c == (value / 100000000) % 10000
    requires start <= p && p == start + |out|
    requires p + |Decimal(value / 100000000)| <= buffer.Length
    requires buffer[start..p] == out && Unchanged(buffer, orig, start, p)
    modifies buffer
    ensures out' == out + Decimal(value / 100000000)
    ensures q == start + |out'| && q <= buffer.Length && buffer[start..q] == out'
    ensures Unchanged(buffer, orig, start, q)
  {
    var v := value / 100000000;
    Guards8(value, v);
    var g1, g2, g3, g4 := value >= 1000000000000000, value >= 100000000000000, value >= 10000000000000, value >= 1000000000000;
    var g5, g6, g7 := value >= 100000000000, value >= 10000000000, value >= 1000000000;
    q, out' := PutGroups8(v, b, c, g1, g2, g3, g4, g5, g6, g7, buffer, p, start, out, orig);
  }

  /** PutLead8 once the guards are known to be those of the eight digits v = bbbbcccc. */
  method PutGroups8(v: nat, b: nat, c: nat, g1: bool, g2: bool, g3: bool, g4: bool, g5: bool, g6: bool, g7: bool,
                    buffer: array<char>, p: nat, ghost start: nat, ghost out: seq<char>, ghost orig: seq<char>)
    returns (q: nat, ghost out': seq<char>)
    requires 1 <= v < 100000000 && b == v / 10000 && c == v % 10000
    requires g1 == (v >= 10000000) && g2 == (v >= 1000000) && g3 == (v >= 100000) && g4 == (v >= 10000)
    requires g5 == (v >= 1000) && g6 == (v >= 100) && g7 == (v >= 10)
    requires start <= p && p == start + |out|
    requires p + |Decimal(v)| <= buffer.Length
    requires buffer[start..p] == out && Unchanged(buffer, orig, start, p)
    modifies buffer
    ensures out' == out + Decimal(v)
    ensures q == start + |out'| && q <= buffer.Length && buffer[start..q] == out'
    ensures Unchanged(buffer, orig, start, q)
  {
    TableIndices(v, b, c);
    var c1, c2, c3, c4, c5, c6, c7, c8 := Lookup8(b, c);
    Lead8Text(out, v, b, c, g1, g2, g3, g4, g5, g6, g7, c1, c2, c3, c4, c5, c6, c7, c8);
    q, out' := Put8(g1, g2, g3, g4, g5, g6, g7, c1, c2, c3, c4, c5, c6, c7, c8, buffer, p, start, out, orig);
  }

  /**
   * The stores for a value v below 10^4 (d1 = 2 * (v / 100), d2 = 2 * (v % 100)): the
   * leading table characters only where the value reaches them.
   */
  method PutDigits4(v: nat, buffer: array<char>, p: nat, ghost start: nat, ghost out: seq<char>, ghost orig: seq<char>)
    returns (q: nat, ghost out': seq<char>)
    requires v < 10000
    requires start <= p && p == start + |out| && p + |Decimal(v)| <= buffer.Length
    requires buffer[start..p] == out && Unchanged(buffer, orig, start, p)
    modifies buffer
    ensures out' == out + Decimal(v)
    ensures q == start + |out'| && buffer[start..q] == out'
    ensures Unchanged(buffer, orig, start, q)
  {
    var d1 := (v / 100) * 2;
    var d2 := (v % 100) * 2;
    var c1, c2, c3, c4 := kDigitsLut[d1], kDigitsLut[d1 + 1], kDigitsLut[d2], kDigitsLut[d2 + 1];
    assert c1 == LutChar(d1) && c2 == LutChar(d1 + 1) && c3 == LutChar(d2) && c4 == LutChar(d2 + 1);
    Lead4(v);
    q, out' := Put4(v >= 1000, v >= 100, v >= 10, c1, c2, c3, c4, buffer, p, start, out, orig);
    Cat4(out, Opt(v >= 1000, c1), Opt(v >= 100, c2), Opt(v >= 10, c3), [c4]);
  }

  /**
   * The stores for 10^4 <= v < 10^8, v = bbbbcccc: three of them guarded by the
   * magnitude of v, then five unconditional ones.
   */
  method PutDigits8(v: nat, b: nat, c: nat, buffer: array<char>, p: nat, ghost start: nat, ghost out: seq<char>, ghost orig: seq<char>)
    returns (q: nat, ghost out': seq<char>)
    requires 10000 <= v < 100000000 && b == v / 10000 && c == v % 10000
    requires start <= p && p == start + |out|
    requires p + |Decimal(v)| <= buffer.Length
    requires buffer[start..p] == out && Unchanged(buffer, orig, start, p)
    modifies buffer
    ensures out' == out + Decimal(v)
    ensures q == start + |out'| && buffer[start..q] == out'
    ensures Unchanged(buffer, orig, start, q)
  {
    TableIndices(v, b, c);
    var c1, c2, c3, c4, c5, c6, c7, c8 := Lookup8(b, c);
    Mid8(v, b, c);
    assert (v >= 10000000) == (b >= 1000) && (v >= 1000000) == (b >= 100) && (v >= 100000) == (b >= 10);
    q, out' := Put8(v >= 10000000, v >= 1000000, v >= 100000, true, true, true, true,
      c1, c2, c3, c4, c5, c6, c7, c8, buffer, p, start, out, orig);
    Cat8(out, Opt(v >= 10000000, c1), Opt(v >= 1000000, c2), Opt(v >= 100000, c3), Opt(true, c4),
      Opt(true, c5), Opt(true, c6), Opt(true, c7), [c8]);
  }

  /** Eight unguarded stores: the digits bbbbcccc of v < 10^8, leading zeros included. */
  method PutPadded8(v: nat, b: nat, c: nat, buffer: array<char>, p: nat, ghost start: nat, ghost out: seq<char>, ghost orig: seq<char>)
    returns (q: nat, ghost out': seq<char>)
    requires v < 100000000 && b == v / 10000 && c == v % 10000
    requires start <= p && p == start + |out| && p + 8 <= buffer.Length
    requires buffer[start..p] == out && Unchanged(buffer, orig, start, p)
    modifies buffer
    ensures out' == out + Pad(v, 8)
    ensures q == p + 8 && buffer[start..q] == out'
    ensures Unchanged(buffer, orig, start, q)
  {
    TableIndices(v, b, c);
    var c1, c2, c3, c4, c5, c6, c7, c8 := Lookup8(b, c);
    q, out' := Put8(true, true, true, true, true, true, true,
      c1, c2, c3, c4, c5, c6, c7, c8, buffer, p, start, out, orig);
    Pad8(out, v, b, c);
  }

  /** The decimal text of a signed value: a minus sign before the digits of its magnitude. */
  function SignedDecimal(n: int): (s: seq<char>)
  {
    if n < 0 then ['-'] + Decimal(-n) else Decimal(n)
  }

  /** A uint32_t has at most ten decimal digits, a uint64_t at most twenty. */
  lemma {:induction false} DigitsBound(n: nat)
    ensures n < TWO_32 ==> |Decimal(n)| <= 10
    ensures n < TWO_64 ==> |Decimal(n)| <= 20
  {
    DecimalLength(n);
    var k := |Decimal(n)|;
    Pow10Values();
    Pow10Add(8, 2);
    Pow10Add(16, 3);
    if n < TWO_32 && k > 10 {
      Pow10Mono(10, k - 1);
    }
    if n < TWO_64 && k > 20 {
      Pow10Add(16, 4);
      Pow10Mono(20, k - 1);
    }
  }

  /**
   * The two branches below 10^8, shared by u32toa and u64toa: four guarded table
   * stores under 10^4, otherwise three guarded and five unconditional ones.
   */
  method PutBelow8(value: nat, buffer: array<char>, start: nat) returns (end: nat)
    requires value < 100000000 && start + |Decimal(value)| <= buffer.Length
    modifies buffer
    ensures end == start + |Decimal(value)| && buffer[start..end] == Decimal(value)
    ensures Unchanged(buffer, old(buffer[..]), start, end)
  {
    ghost var orig := buffer[..];
    ghost var out: seq<char>;
    if value < 10000 {
      end, out := PutDigits4(value, buffer, start, start, [], orig);
    } else {
      var b := value / 10000;
      var c := value % 10000;
      end, out := PutDigits8(value, b, c, buffer, start, start, [], orig);
    }
    assert out == [] + Decimal(value) == Decimal(value);
  }

  /** The ten-digit branch of u32toa: the one or two digits of a = value / 10^8, then eight padded ones. */
  method PutUpper32(value: U32, buffer: array<char>, start: nat) returns (end: nat)
    requires value >= 100000000 && start + |Decimal(value)| <= buffer.Length
    modifies buffer
    ensures end == start + |Decimal(value)| && buffer[start..end] == Decimal(value)
    ensures Unchanged(buffer, old(buffer[..]), start, end)
  {
    ghost var orig := buffer[..];
    ghost var out: seq<char>;
    var a := value / 100000000;
    var v := value % 100000000;
    Pow10Values();
    SplitAt(value, 8, a, v);
    assert a < 100;
    Head2(a);
    if a >= 10 {
      var i := a * 2;
      end, out := Store(buffer, start, kDigitsLut[i], start, [], orig);
      end, out := Store(buffer, end, kDigitsLut[i + 1], start, out, orig);
    } else {
      end, out := Store(buffer, start, (48 + a) as char, start, [], orig);
    }
    assert out == Decimal(a);
    ghost var head := out;
    var b := v / 10000;
    var c := v % 10000;
    end, out := PutPadded8(v, b, c, buffer, end, start, out, orig);
  }

  /**
   * u32toa: writes the decimal digits of value from buffer[start] on and returns the
   * position after the last digit; nothing outside those positions changes.
   */
  method U32ToA(value: U32, buffer: array<char>, start: nat) returns (end: nat)
    requires start + |Decimal(value)| <= buffer.Length
    modifies buffer
    ensures end == start + |Decimal(value)| && buffer[start..end] == Decimal(value)
    ensures Unchanged(buffer, old(buffer[..]), start, end)
  {
    if value < 100000000 {
      end := PutBelow8(value, buffer, start);
    } else {
      end := PutUpper32(value, buffer, start);
    }
  }

  /** static_cast to the unsigned type of modulus m: reduction modulo m. */
  function ToUnsigned(x: int, m: nat): (u: nat)
    requires m > 0
    ensures u < m
  {
    x % m
  }

  /** ~u + 1 in unsigned arithmetic of modulus m. */
  function Negate(u: nat, m: nat): (r: nat)
    requires u < m
    ensures r < m && (r + u) % m == 0
  {
    DivModUnique(m, m, 1, 0);
    (m - 1 - u + 1) % m
  }

  /** For a negative value of a two's-complement type, ~u + 1 of its cast is its magnitude. */
  lemma {:induction false} Magnitude(x: int, m: nat)
    requires m > 0 && -(m / 2) <= x < 0
    ensures Negate(ToUnsigned(x, m), m) == -x
  {
    DivModUnique(x, m, -1, x + m);
    DivModUnique(-x, m, 0, -x);
  }

  /** A '-' stored at start over orig, then text t written after it with the '-' left in place. */
  lemma {:induction false} MinusThen(buffer: array<char>, orig: seq<char>, mid: seq<char>, start: nat, end: nat, t: seq<char>)
    requires start < end <= buffer.Length && |orig| == buffer.Length && mid == orig[start := '-']
    requires buffer[start + 1..end] == t && Unchanged(buffer, mid, start + 1, end)
    ensures buffer[start..end] == ['-'] + t && Unchanged(buffer, orig, start, end)
  {
    assert buffer[start] == '-';
    assert buffer[start..end] == [buffer[start]] + buffer[start + 1..end];
  }

  /** The text of a two's-complement value is the text of its cast to unsigned, or of ~u + 1 after a '-'. */
  lemma {:induction false} SignedParts(x: int, m: nat)
    requires m > 0 && -(m / 2) <= x < m / 2
    ensures x >= 0 ==> ToUnsigned(x, m) == x && SignedDecimal(x) == Decimal(ToUnsigned(x, m))
    ensures x < 0 ==> SignedDecimal(x) == ['-'] + Decimal(Negate(ToUnsigned(x, m), m))
  {
    if x >= 0 {
      DivModUnique(x, m, 0, x);
    } else {
      Magnitude(x, m);
    }
  }

  /** i32toa: a '-' for a negative value, then u32toa of the magnitude ~u + 1. */
  method I32ToA(value: I32, buffer: array<char>, start: nat) returns (end: nat)
    requires start + |SignedDecimal(value)| <= buffer.Length
    modifies buffer
    ensures end == start + |SignedDecimal(value)| && buffer[start..end] == SignedDecimal(value)
    ensures Unchanged(buffer, old(buffer[..]), start, end)
  {
    SignedParts(value, TWO_32);
    var u: U32 := ToUnsigned(value, TWO_32);
    if value < 0 {
      buffer[start] := '-';
      u := Negate(u, TWO_32);
      ghost var mid := buffer[..];
      end := U32ToA(u, buffer, start + 1);
      MinusThen(buffer, old(buffer[..]), mid, start, end, Decimal(u));
    } else {
      end := U32ToA(u, buffer, start);
    }
  }

  /** The leading one to four digits of a twenty-digit value: a digit, a pair, a digit and a pair, or two pairs. */
  method PutHead4(a: nat, buffer: array<char>, p: nat, ghost start: nat, ghost out: seq<char>, ghost orig: seq<char>)
    returns (q: nat, ghost out': seq<char>)
    requires 1 <= a < 10000
    requires start <= p && p == start + |out| && p + |Decimal(a)| <= buffer.Length
    requires buffer[start..p] == out && Unchanged(buffer, orig, start, p)
    modifies buffer
    ensures out' == out + Decimal(a)
    ensures q == start + |out'| && buffer[start..q] == out'
    ensures Unchanged(buffer, orig, start, q)
  {
    Head4(a);
    if a < 10 {
      q, out' := Store(buffer, p, (48 + a) as char, start, out, orig);
      assert out' == out + Decimal(a);
    } else if a < 100 {
      var i := a * 2;
      q, out' := Store(buffer, p, kDigitsLut[i], start, out, orig);
      q, out' := Store(buffer, q, kDigitsLut[i + 1], start, out', orig);
      Snoc2(out, LutChar(i), LutChar(i + 1));
      assert out' == out + Decimal(a);
    } else if a < 1000 {
      q, out' := Store(buffer, p, (48 + a / 100) as char, start, out, orig);
      var i := (a % 100) * 2;
      q, out' := Store(buffer, q, kDigitsLut[i], start, out', orig);
      q, out' := Store(buffer, q, kDigitsLut[i + 1], start, out', orig);
      Snoc3(out, Digit(a / 100), LutChar(i), LutChar(i + 1));
      assert out' == out + Decimal(a);
    } else {
      var i := (a / 100) * 2;
      var j := (a % 100) * 2;
      q, out' := Store(buffer, p, kDigitsLut[i], start, out, orig);
      q, out' := Store(buffer, q, kDigitsLut[i + 1], start, out', orig);
      q, out' := Store(buffer, q, kDigitsLut[j], start, out', orig);
      q, out' := Store(buffer, q, kDigitsLut[j + 1], start, out', orig);
      Cat4(out, [LutChar(i)], [LutChar(i + 1)], [LutChar(j)], [LutChar(j + 1)]);
      assert out' == out + Decimal(a);
    }
  }

  /** The middle branch of u64toa (10^8 <= value < 10^16): the guarded eight of v0, then the padded eight of v1. */
  method PutMiddle64(value: nat, buffer: array<char>, start: nat) returns (end: nat)
    requires 100000000 <= value < 10000000000000000 && start + |Decimal(value)| <= buffer.Length
    modifies buffer
    ensures end == start + |Decimal(value)| && buffer[start..end] == Decimal(value)
    ensures Unchanged(buffer, old(buffer[..]), start, end)
  {
    ghost var orig := buffer[..];
    ghost var out: seq<char>;
    var v0 := value / 100000000;
    var v1 := value % 100000000;
    Pow10Values();
    SplitAt(value, 8, v0, v1);
    HighHalf(value);
    var b0 := v0 / 10000;
    var c0 := v0 % 10000;
    var b1 := v1 / 10000;
    var c1 := v1 % 10000;
    end, out := PutLead8(value, b0, c0, buffer, start, start, [], orig);
    assert out == [] + Decimal(v0) == Decimal(v0);
    end, out := PutPadded8(v1, b1, c1, buffer, end, start, out, orig);
  }

  /** Sixteen unguarded stores: the digits of r < 10^16, leading zeros included. */
  method PutPadded16(r: nat, buffer: array<char>, p: nat, ghost start: nat, ghost out: seq<char>, ghost orig: seq<char>)
    returns (q: nat, ghost out': seq<char>)
    requires r < 10000000000000000
    requires start <= p && p == start + |out| && p + 16 <= buffer.Length
    requires buffer[start..p] == out && Unchanged(buffer, orig, start, p)
    modifies buffer
    ensures out' == out + Pad(r, 16)
    ensures q == p + 16 && buffer[start..q] == out'
    ensures Unchanged(buffer, orig, start, q)
  {
    var v0 := r / 100000000;
    var v1 := r % 100000000;
    var b0 := v0 / 10000;
    var c0 := v0 % 10000;
    var b1 := v1 / 10000;
    var c1 := v1 % 10000;
    HighHalf(r);
    q, out' := PutPadded8(v0, b0, c0, buffer, p, start, out, orig);
    q, out' := PutPadded8(v1, b1, c1, buffer, q, start, out', orig);
    Pad16(out, r, v0, v1);
  }

  /** The top branch of u64toa (value >= 10^16): the digits of a = value / 10^16, then sixteen padded ones. */
  method PutUpper64(value: U64, buffer: array<char>, start: nat) returns (end: nat)
    requires value >= 10000000000000000 && start + |Decimal(value)| <= buffer.Length
    modifies buffer
    ensures end == start + |Decimal(value)| && buffer[start..end] == Decimal(value)
    ensures Unchanged(buffer, old(buffer[..]), start, end)
  {
    ghost var orig := buffer[..];
    ghost var out: seq<char>;
    var a := value / 10000000000000000;
    var r := value % 10000000000000000;
    UpperSplit(value, a, r);
    end, out := PutHead4(a, buffer, start, start, [], orig);
    assert out == Decimal(a);
    end, out := PutPadded16(r, buffer, end, start, out, orig);
  }

  /** A uint64_t of seventeen or more digits: one to four leading digits, then sixteen. */
  lemma {:induction false} UpperSplit(value: nat, a: nat, r: nat)
    requires 10000000000000000 <= value < TWO_64 && a == value / 10000000000000000 && r == value % 10000000000000000
    ensures 1 <= a < 10000 && r < 10000000000000000
    ensures Decimal(value) == Decimal(a) + Pad(r, 16) && |Decimal(value)| == |Decimal(a)| + 16
  {
    Pow10Values();
    SplitAt(value, 16, a, r);
  }

  /** u64toa: the 64-bit counterpart of u32toa, with the same contract. */
  method U64ToA(value: U64, buffer: array<char>, start: nat) returns (end: nat)
    requires start + |Decimal(value)| <= buffer.Length
    modifies buffer
    ensures end == start + |Decimal(value)| && buffer[start..end] == Decimal(value)
    ensures Unchanged(buffer, old(buffer[..]), start, end)
  {
    if value < 100000000 {
      end := PutBelow8(value, buffer, start);
    } else if value < 10000000000000000 {
      end := PutMiddle64(value, buffer, start);
    } else {
      end := PutUpper64(value, buffer, start);
    }
  }

  /** i64toa: a '-' for a negative value, then u64toa of the magnitude ~u + 1. */
  method I64ToA(value: I64, buffer: array<char>, start: nat) returns (end: nat)
    requires start + |SignedDecimal(value)| <= buffer.Length
    modifies buffer
    ensures end == start + |SignedDecimal(value)| && buffer[start..end] == SignedDecimal(value)
    ensures Unchanged(buffer, old(buffer[..]), start, end)
  {
    SignedParts(value, TWO_64);
    var u: U64 := ToUnsigned(value, TWO_64);
    if value < 0 {
      buffer[start] := '-';
      u := Negate(u, TWO_64);
      ghost var mid := buffer[..];
      end := U64ToA(u, buffer, start + 1);
      MinusThen(buffer, old(buffer[..]), mid, start, end, Decimal(u));
    } else {
      end := U64ToA(u, buffer, start);
    }
  }
}
