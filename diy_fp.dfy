// "Do it yourself" floating point: a 64-bit significand f and a binary exponent e,
// standing for f * 2^e (include/neujson/internal/diy_fp.h). A binary64 double is
// handled through its 64-bit pattern: sign bit 63, exponent field bits 52..62,
// fraction field bits 0..51.

module Fp {
  import opened Arith
  import opened Clz

  const FRACTION_SIZE: nat := 52
  const EXPONENT_BIAS: int := 0x3FF + 52
  const MAX_EXPONENT: int := 0x7FF - EXPONENT_BIAS
  const MIN_EXPONENT: int := -EXPONENT_BIAS
  const START_EXPONENT: int := 1 - EXPONENT_BIAS
  const HIDDEN_BIT: nat := 0x10_0000_0000_0000
  /** Largest significand ToDouble accepts: hidden bit plus the fraction mask. */
  const MAX_SIGNIFICAND: nat := 0x1F_FFFF_FFFF_FFFF
  /** Bit pattern of +infinity. */
  const INFINITY_BITS: U64 := 0x7FF0_0000_0000_0000

  /** The 11-bit exponent field and the 52-bit fraction field of a bit pattern. */
  function ExponentField(u: U64): (x: nat)
    ensures x < 0x800
  {
    (u / HIDDEN_BIT) % 0x800
  }

  function FractionField(u: U64): (m: nat)
    ensures m < HIDDEN_BIT
  {
    u % HIDDEN_BIT
  }

  /** The fields reassemble the pattern, and they are determined by it. */
  lemma {:induction false} FieldsCompose(u: U64)
    requires u < Pow2(63)
    ensures u == FractionField(u) + ExponentField(u) * HIDDEN_BIT
  {
    Pow2Values();
    assert u / HIDDEN_BIT < 0x800;
  }

  lemma {:induction false} FieldsOfComposed(m: nat, x: nat)
    requires m < HIDDEN_BIT && x < 0x800
    ensures m + x * HIDDEN_BIT < Pow2(63)
    ensures FractionField(m + x * HIDDEN_BIT) == m
    ensures ExponentField(m + x * HIDDEN_BIT) == x
  {
    Pow2Values();
    var u := m + x * HIDDEN_BIT;
    assert u / HIDDEN_BIT == x;
  }

  /** Below 2^53, the hidden bit of a significand is clear exactly below 2^52. */
  lemma {:induction false} HiddenBitClear(f: nat)
    requires f <= MAX_SIGNIFICAND
    ensures ((f / HIDDEN_BIT) % 2 == 0) == (f < HIDDEN_BIT)
  {
    DivBounds(f, HIDDEN_BIT);
    if f >= HIDDEN_BIT {
      DivModUnique(f, HIDDEN_BIT, 1, f - HIDDEN_BIT);
    } else {
      DivModUnique(f, HIDDEN_BIT, 0, f);
    }
  }

  datatype DiyFp = DiyFp(f: U64, e: int) {

    /** f shifted left by clzll(f): the same number, with bit 63 of the significand set. */
    function Normalize(): (r: DiyFp)
      requires f != 0
      ensures e - r.e == LeadingZeros(f)
      ensures r.f == f * Pow2(e - r.e)
      ensures Pow2(63) <= r.f
    {
      var s := LeadingZeros(f);
      ShiftSetsTopBit(f);
      DiyFp((f * Pow2(s)) % TWO_64, e - s)
    }

    /**
     * The bit pattern of the double f * 2^e, for a significand of at most 53 bits:
     * 0.0 below the smallest exponent, +infinity from the largest one on, and
     * otherwise the fraction bits joined with the biased exponent (0 for a denormal).
     */
    function ToDouble(): (bits: U64)
      requires f <= MAX_SIGNIFICAND
      ensures e < START_EXPONENT ==> bits == 0
      ensures e >= MAX_EXPONENT ==> bits == INFINITY_BITS
      ensures START_EXPONENT <= e < MAX_EXPONENT ==>
        bits < Pow2(63) && FractionField(bits) == f % HIDDEN_BIT &&
        ExponentField(bits) == (if e == START_EXPONENT && f < HIDDEN_BIT then 0 else e + EXPONENT_BIAS)
    {
      if e < START_EXPONENT then 0
      else if e >= MAX_EXPONENT then INFINITY_BITS
      else
        HiddenBitClear(f);
        var exponent: nat := if e == START_EXPONENT && (f / HIDDEN_BIT) % 2 == 0 then 0 else e + EXPONENT_BIAS;
        // the two fields occupy disjoint bits, so the bitwise or is a sum
        FieldsOfComposed(f % HIDDEN_BIT, exponent);
        f % HIDDEN_BIT + exponent * HIDDEN_BIT
    }

    /** Significand difference with 64-bit wrap-around; a's exponent is kept. */
    function Sub(b: DiyFp): (r: DiyFp)
      ensures r.e == e
      ensures (r.f + b.f) % TWO_64 == f
      ensures b.f <= f ==> r.f == f - b.f
    {
      DiyFp((f - b.f) % TWO_64, e)
    }

    /**
     * The portable product: the high 64 bits of f * b.f, rounded up when bit 63 of
     * the low half is set, assembled from 32-bit halves.
     */
    function Mul(b: DiyFp): (r: DiyFp)
      ensures r.e == e + b.e + 64
      ensures r.f == (f * b.f + Pow2(63)) / TWO_64
      ensures r.f * TWO_64 <= f * b.f + Pow2(63) < r.f * TWO_64 + TWO_64
    {
      var hi := MulHigh(f, b.f);
      Pow2Values();
      DiyFp(hi, e + b.e + 64)
    }
  }

  /** 64x64 multiplication from 32-bit halves with the mult_round constant 2^31. */
  function MulHigh(x: U64, y: U64): (h: U64)
    ensures h == (x * y + 0x8000_0000_0000_0000) / 0x1_0000_0000_0000_0000
  {
    var a := x / 0x1_0000_0000;
    var b := x % 0x1_0000_0000;
    var c := y / 0x1_0000_0000;
    var d := y % 0x1_0000_0000;
    var ac := a * c;
    var bc := b * c;
    var ad := a * d;
    var bd := b * d;
    var tmp := bd / 0x1_0000_0000 + ad % 0x1_0000_0000 + bc % 0x1_0000_0000 + 0x8000_0000;
    ProductSplit(x, y, a, b, c, d);
    HalvesBounded(a, b, c, d);
    ProductBounded(x, y);
    Recombine(x * y, ac, ad, bc, bd);
    ac + ad / 0x1_0000_0000 + bc / 0x1_0000_0000 + tmp / 0x1_0000_0000
  }

  /** (aK + b)(cK + d) with K = 2^32, the schoolbook split of a 64x64 product. */
  lemma {:induction false} ProductSplit(x: nat, y: nat, a: nat, b: nat, c: nat, d: nat)
    requires x == a * 0x1_0000_0000 + b && y == c * 0x1_0000_0000 + d
    ensures x * y == (a * c) * 0x1_0000_0000_0000_0000 + (a * d + b * c) * 0x1_0000_0000 + b * d
  {
  }

  /** Products of two 32-bit halves fit in 64 bits. */
  lemma {:induction false} HalvesBounded(a: nat, b: nat, c: nat, d: nat)
    requires a < 0x1_0000_0000 && b < 0x1_0000_0000 && c < 0x1_0000_0000 && d < 0x1_0000_0000
    ensures a * c < 0x1_0000_0000_0000_0000 && a * d < 0x1_0000_0000_0000_0000
    ensures b * c < 0x1_0000_0000_0000_0000 && b * d < 0x1_0000_0000_0000_0000
    ensures 0 <= a * c && 0 <= a * d && 0 <= b * c && 0 <= b * d
  {
    MulLe(0, a, c);
    MulLe(0, a, d);
    MulLe(0, b, c);
    MulLe(0, b, d);
    MulLe(a, 0xFFFF_FFFF, c);
    MulLe(c, 0xFFFF_FFFF, 0xFFFF_FFFF);
    MulLe(a, 0xFFFF_FFFF, d);
    MulLe(d, 0xFFFF_FFFF, 0xFFFF_FFFF);
    MulLe(b, 0xFFFF_FFFF, c);
    MulLe(b, 0xFFFF_FFFF, d);
  }

  lemma {:induction false} ProductBounded(x: U64, y: U64)
    ensures x * y <= 0xFFFF_FFFF_FFFF_FFFE_0000_0000_0000_0001
  {
    MulLe(x, 0xFFFF_FFFF_FFFF_FFFF, y);
    MulLe(y, 0xFFFF_FFFF_FFFF_FFFF, 0xFFFF_FFFF_FFFF_FFFF);
  }

  /** Carrying the middle column: linear in the four partial products. */
  lemma {:induction false} Recombine(p: nat, ac: nat, ad: nat, bc: nat, bd: nat)
    requires p == ac * 0x1_0000_0000_0000_0000 + (ad + bc) * 0x1_0000_0000 + bd
    requires ad < 0x1_0000_0000_0000_0000 && bc < 0x1_0000_0000_0000_0000 && bd < 0x1_0000_0000_0000_0000
    requires p <= 0xFFFF_FFFF_FFFF_FFFE_0000_0000_0000_0001
    ensures (p + 0x8000_0000_0000_0000) / 0x1_0000_0000_0000_0000 ==
      ac + ad / 0x1_0000_0000 + bc / 0x1_0000_0000 +
      (bd / 0x1_0000_0000 + ad % 0x1_0000_0000 + bc % 0x1_0000_0000 + 0x8000_0000) / 0x1_0000_0000
    ensures (p + 0x8000_0000_0000_0000) / 0x1_0000_0000_0000_0000 < 0x1_0000_0000_0000_0000
  {
    var tmp := bd / 0x1_0000_0000 + ad % 0x1_0000_0000 + bc % 0x1_0000_0000 + 0x8000_0000;
    var q := ac + ad / 0x1_0000_0000 + bc / 0x1_0000_0000 + tmp / 0x1_0000_0000;
    var rem := (tmp % 0x1_0000_0000) * 0x1_0000_0000 + bd % 0x1_0000_0000;
    assert p + 0x8000_0000_0000_0000 == q * 0x1_0000_0000_0000_0000 + rem;
  }

  /** The constructor from a double's bit pattern. The sign bit is never looked at. */
  function FromBits(u: U64): (d: DiyFp)
    ensures ExponentField(u) != 0 ==>
      d.f == FractionField(u) + HIDDEN_BIT && d.e == ExponentField(u) - EXPONENT_BIAS
    ensures ExponentField(u) == 0 ==> d.f == FractionField(u) && d.e == MIN_EXPONENT + 1
    ensures d.f <= MAX_SIGNIFICAND
  {
    var exponent := ExponentField(u);
    var fraction := FractionField(u);
    if exponent != 0 then DiyFp(fraction + HIDDEN_BIT, exponent - EXPONENT_BIAS)
    else DiyFp(fraction, MIN_EXPONENT + 1)
  }

  /** A pattern and its negation give the same significand and exponent. */
  lemma {:induction false} SignIgnored(u: U64)
    requires u < Pow2(63)
    ensures u + Pow2(63) < TWO_64
    ensures FromBits(u + Pow2(63)) == FromBits(u)
  {
    assert Pow2(63) == 0x8000_0000_0000_0000 by { Pow2Values(); }
    var v: int := u + 0x8000_0000_0000_0000;
    var q: int, r: int := u / HIDDEN_BIT, u % HIDDEN_BIT;
    assert v == (q + 0x800) * HIDDEN_BIT + r;
    DivModUnique(v, HIDDEN_BIT, q + 0x800, r);
    DivModUnique(q + 0x800, 0x800, q / 0x800 + 1, q % 0x800);
    assert ExponentField(v) == ExponentField(u) && FractionField(v) == FractionField(u);
  }

  /** Round trip: every non-negative finite double comes back with its own bits. */
  lemma {:induction false} FromBitsToDouble(u: U64)
    requires u < Pow2(63) && ExponentField(u) != 0x7FF
    ensures FromBits(u).ToDouble() == u
  {
    FieldsCompose(u);
    Pow2Values();
  }

  /** The other direction: a normal or denormal (f, e) survives the trip through the bits. */
  lemma {:induction false} ToDoubleFromBits(d: DiyFp)
    requires START_EXPONENT <= d.e < MAX_EXPONENT
    requires (HIDDEN_BIT <= d.f <= MAX_SIGNIFICAND) || (d.f < HIDDEN_BIT && d.e == START_EXPONENT)
    ensures FromBits(d.ToDouble()) == d
  {
    Pow2Values();
  }
}
