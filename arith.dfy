// Fixed-width unsigned integers and powers, shared by the numeric helpers.

module Arith {

  const TWO_32: nat := 0x1_0000_0000
  const TWO_64: nat := 0x1_0000_0000_0000_0000

  /** uint32_t and uint64_t values. */
  type U32 = x: nat | x < 0x1_0000_0000
  type U64 = x: nat | x < 0x1_0000_0000_0000_0000

  /** int32_t and int64_t values. */
  type I32 = x: int | -0x8000_0000 <= x < 0x8000_0000
  type I64 = x: int | -0x8000_0000_0000_0000 <= x < 0x8000_0000_0000_0000

  function Pow2(n: nat): (r: nat)
    ensures r >= 1
  {
    if n == 0 then 1 else 2 * Pow2(n - 1)
  }

  function Pow10(n: nat): (r: nat)
    ensures r >= 1
  {
    if n == 0 then 1 else 10 * Pow10(n - 1)
  }

  function Pow5(n: nat): (r: nat)
    ensures r >= 1
  {
    if n == 0 then 1 else 5 * Pow5(n - 1)
  }

  lemma {:induction false} Pow2Add(a: nat, b: nat)
    ensures Pow2(a + b) == Pow2(a) * Pow2(b)
  {
    if a > 0 {
      Pow2Add(a - 1, b);
    }
  }

  lemma {:induction false} Pow2Strict(a: nat, b: nat)
    requires a < b
    ensures Pow2(a) < Pow2(b)
  {
    if b > a + 1 {
      Pow2Strict(a, b - 1);
    }
  }

  lemma {:induction false} Pow2Mono(a: nat, b: nat)
    requires a <= b
    ensures Pow2(a) <= Pow2(b)
  {
    if a < b {
      Pow2Strict(a, b);
    }
  }

  lemma {:induction false} Pow2Below(a: nat, b: nat)
    requires Pow2(a) < Pow2(b)
    ensures a < b
  {
    if a >= b {
      Pow2Mono(b, a);
    }
  }

  lemma {:induction false} Pow10Add(a: nat, b: nat)
    ensures Pow10(a + b) == Pow10(a) * Pow10(b)
  {
    if a > 0 {
      Pow10Add(a - 1, b);
    }
  }

  lemma {:induction false} Pow10Strict(a: nat, b: nat)
    requires a < b
    ensures Pow10(a) < Pow10(b)
  {
    if b > a + 1 {
      Pow10Strict(a, b - 1);
    }
  }

  lemma {:induction false} Pow10Mono(a: nat, b: nat)
    requires a <= b
    ensures Pow10(a) <= Pow10(b)
  {
    if a < b {
      Pow10Strict(a, b);
    }
  }

  lemma {:induction false} Pow5Add(a: nat, b: nat)
    ensures Pow5(a + b) == Pow5(a) * Pow5(b)
  {
    if a > 0 {
      Pow5Add(a - 1, b);
    }
  }

  lemma {:induction false} MulLe(a: nat, b: nat, c: nat)
    requires a <= b
    ensures a * c <= b * c
  {
  }

  lemma {:induction false} MulLt(a: nat, b: nat, c: nat)
    requires a < b && c > 0
    ensures a * c < b * c
  {
  }

  lemma {:induction false} MulNeg(q: int, b: int)
    requires q <= -1 && b >= 1
    ensures q * b <= -b
  {
  }

  lemma {:induction false} MulGe(q: int, b: int)
    requires q >= 0 && b >= 1
    ensures q * b >= q
  {
  }

  lemma {:induction false} DivModUnique(x: int, d: int, q: int, r: int)
    requires d > 0 && 0 <= r < d && x == q * d + r
    ensures x / d == q && x % d == r
  {
    var q0, r0 := x / d, x % d;
    assert x == q0 * d + r0;
    assert (q - q0) * d == r0 - r;
    if q > q0 {
      MulLe(1, q - q0, d);
    } else if q < q0 {
      MulLe(1, q0 - q, d);
    }
  }

  lemma {:induction false} DivBounds(a: nat, b: nat)
    requires b > 0
    ensures 0 <= a / b <= a && 0 <= a % b < b
  {
    var q := a / b;
    if q < 0 {
      MulNeg(q, b);
    } else {
      MulGe(q, b);
    }
  }

  lemma {:induction false} Pow2Values()
    ensures Pow2(31) == 0x8000_0000 && Pow2(63) == 0x8000_0000_0000_0000
    ensures Pow2(52) == 0x10_0000_0000_0000 && Pow2(53) == 0x20_0000_0000_0000
    ensures Pow2(32) == TWO_32 && Pow2(64) == TWO_64
  {
    Pow2Low();
    Pow2Add(32, 20);
    Pow2Add(32, 21);
    Pow2Add(32, 31);
    Pow2Add(32, 32);
  }

  lemma {:induction false} Pow2Low()
    ensures Pow2(20) == 0x10_0000 && Pow2(21) == 0x20_0000
    ensures Pow2(31) == 0x8000_0000 && Pow2(32) == TWO_32
  {
    Pow2Sixteen();
    Pow2Add(16, 4);
    Pow2Add(16, 5);
    Pow2Add(16, 15);
    Pow2Add(16, 16);
  }

  lemma {:induction false} Pow2Sixteen()
    ensures Pow2(4) == 16 && Pow2(5) == 32 && Pow2(15) == 0x8000 && Pow2(16) == 0x1_0000
  {
    assert Pow2(4) == 16;
    assert Pow2(8) == 256 by { Pow2Add(4, 4); }
    Pow2Add(8, 7);
    Pow2Add(8, 8);
  }

  // These products are stated as lemmas so that the members using them get the
  // facts without proving them among their own nonlinear terms.

  lemma {:induction false} MulComm(x: int, y: int)
    ensures x * y == y * x
  {
  }

  lemma {:induction false} MulByOne(x: int, y: int)
    requires y == 1
    ensures x * y == x
  {
  }

  lemma {:induction false} MulDistrib(x: int, y: int, z: int)
    ensures x * (y + z) == x * y + x * z
  {
  }

  lemma {:induction false} MulAssoc(x: int, y: int, z: int)
    ensures x * (y * z) == (x * y) * z
  {
  }
}
