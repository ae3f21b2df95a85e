// Count leading zeros of a non-zero 64-bit word (include/neujson/internal/cllzl.h).

module Clz {
  import opened Arith

  /** Number of significant bits of n. */
  function BitLength(n: nat): (k: nat)
    ensures n == 0 <==> k == 0
    decreases n
  {
    if n == 0 then 0 else 1 + BitLength(n / 2)
  }

  lemma {:induction false} BitLengthBounds(n: nat)
    requires n > 0
    ensures Pow2(BitLength(n) - 1) <= n < Pow2(BitLength(n))
    decreases n
  {
    if n > 1 {
      BitLengthBounds(n / 2);
    }
  }

  /** The reference count: 64 minus the significant bits. */
  function LeadingZeros(n: U64): (r: nat)
    requires n != 0
    ensures r <= 63
    ensures Pow2(63 - r) <= n < Pow2(64 - r)
  {
    BitLengthWord(n);
    64 - BitLength(n)
  }

  lemma {:induction false} BitLengthWord(n: U64)
    requires n != 0
    ensures 1 <= BitLength(n) <= 64
    ensures Pow2(BitLength(n) - 1) <= n < Pow2(BitLength(n))
  {
    BitLengthBounds(n);
    Pow2Values();
    if BitLength(n) > 64 {
      Pow2Mono(64, BitLength(n) - 1);
    }
  }

  /** The bounds 2^(63-r) <= n < 2^(64-r) leave exactly one candidate. */
  lemma {:induction false} LeadingZerosUnique(n: U64, r: nat)
    requires n != 0 && r <= 63
    requires Pow2(63 - r) <= n < Pow2(64 - r)
    ensures r == LeadingZeros(n)
  {
    var q := LeadingZeros(n);
    if r < q {
      Pow2Mono(64 - q, 63 - r);
    } else if q < r {
      Pow2Mono(64 - r, 63 - q);
    }
  }

  /** n << clzll(n) keeps every bit and has bit 63 set. */
  lemma {:induction false} ShiftSetsTopBit(n: U64)
    requires n != 0
    ensures Pow2(63) <= n * Pow2(LeadingZeros(n)) < TWO_64
  {
    var r := LeadingZeros(n);
    Pow2Add(63 - r, r);
    Pow2Add(64 - r, r);
    MulLe(Pow2(63 - r), n, Pow2(r));
    MulLt(n, Pow2(64 - r), Pow2(r));
    Pow2Values();
  }

  /** Once bit 63 of n * 2^r is set, r is the leading-zero count of n. */
  lemma {:induction false} ShiftedBounds(n: U64, r: nat, m: nat)
    requires n != 0 && r <= 63 && m == n * Pow2(r)
    requires Pow2(63) <= m < Pow2(64)
    ensures Pow2(63 - r) <= n < Pow2(64 - r)
  {
    Pow2Add(63 - r, r);
    Pow2Add(64 - r, r);
    if n >= Pow2(64 - r) {
      MulLe(Pow2(64 - r), n, Pow2(r));
    }
    if n < Pow2(63 - r) {
      MulLt(n, Pow2(63 - r), Pow2(r));
    }
  }

  /** The portable fallback: shift left until bit 63 is set, counting the shifts. */
  method Clzll(n: U64) returns (r: nat)
    requires n != 0
    ensures r <= 63
    ensures Pow2(63 - r) <= n < Pow2(64 - r)
    ensures r == LeadingZeros(n)
  {
    assert Pow2(63) == 0x8000_0000_0000_0000 && Pow2(64) == TWO_64 by { Pow2Values(); }
    var m: U64 := n;
    r := 0;
    while m < 0x8000_0000_0000_0000
      invariant r <= 63
      invariant m == n * Pow2(r)
      invariant Pow2(r) <= m
      decreases 63 - r
    {
      Pow2Below(r, 63);
      DoubleStep(n, r, m);
      m := m * 2;
      r := r + 1;
    }
    ShiftedBounds(n, r, m);
    LeadingZerosUnique(n, r);
  }

  /** One more shift doubles both the shifted word and the power of two. */
  lemma {:induction false} DoubleStep(n: nat, r: nat, m: nat)
    requires m == n * Pow2(r)
    ensures m * 2 == n * Pow2(r + 1) && Pow2(r + 1) == 2 * Pow2(r)
  {
    assert n * (Pow2(r) * 2) == (n * Pow2(r)) * 2;
    assert Pow2(r) * 2 == 2 * Pow2(r);
  }

  /** The values checked by the unit test of clzll. */
  lemma {:induction false} TestValues()
    ensures LeadingZeros(1) == 63 && LeadingZeros(2) == 62 && LeadingZeros(12) == 60
    ensures LeadingZeros(0x8000_0001) == 32 && LeadingZeros(0x8000_0000_0000_0001) == 0
  {
    Pow2Values();
    LeadingZerosUnique(1, 63);
    LeadingZerosUnique(2, 62);
    assert Pow2(3) == 8 && Pow2(4) == 16;
    LeadingZerosUnique(12, 60);
    LeadingZerosUnique(0x8000_0001, 32);
    LeadingZerosUnique(0x8000_0000_0000_0001, 0);
  }
}
