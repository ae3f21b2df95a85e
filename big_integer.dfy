// The arbitrary-precision unsigned integer the decimal-to-binary conversion works with: a
// fixed array of base-2^64 limbs, least significant first, of which the first `count` are in
// use. Every operation changes the object in place.

module BigInts {
  import opened Arith
  import opened Decimals

  /** kBitCount / sizeof(Type): 3328 / 8 limbs. */
  const CAPACITY: nat := 416

  /** The weight of limb i: 2^(64 i). */
  function Base(i: nat): (r: nat)
    ensures r >= 1
  {
    if i == 0 then 1 else 0x1_0000_0000_0000_0000 * Base(i - 1)
  }

  /** The number the limbs stand for, least significant limb first. */
  function Val(s: seq<U64>): nat
  {
    if s == [] then 0 else Val(s[..|s| - 1]) + Base(|s| - 1) * s[|s| - 1]
  }

  /** The definition of Val, unfolded once. */
  lemma {:induction false} ValSplit(s: seq<U64>)
    requires s != []
    ensures Val(s) == Val(s[..|s| - 1]) + Base(|s| - 1) * s[|s| - 1]
  {
  }

  /** n limbs hold less than 2^(64 n). */
  lemma {:induction false} ValBound(s: seq<U64>)
    ensures Val(s) < Base(|s|)
    decreases |s|
  {
    if s != [] {
      var n := |s| - 1;
      ValBound(s[..n]);
      var b, d, v := Base(n), s[n], Val(s[..n]);
      assert Base(|s|) == TWO_64 * b;
      assert Val(s) == v + b * d;
      MulLe(d, TWO_64 - 1, b);
      assert b * d <= (TWO_64 - 1) * b;
    }
  }

  /**
   * The representation the operations keep: at least one limb, and no zero limb on top
   * unless the number is zero itself.
   */
  predicate Normal(s: seq<U64>)
  {
    |s| >= 1 && (|s| == 1 || s[|s| - 1] != 0)
  }

  // ---------------------------------------------------------------- limb arithmetic

  lemma {:induction false} BaseStrict(a: nat, b: nat)
    requires a < b
    ensures Base(a) < Base(b)
    decreases b
  {
    if b > a + 1 {
      BaseStrict(a, b - 1);
    }
  }

  lemma {:induction false} ValSnoc(s: seq<U64>, d: U64)
    ensures Val(s + [d]) == Val(s) + Base(|s|) * d
  {
    assert (s + [d])[..|s|] == s;
  }

  lemma {:induction false} ValPushOne(s: seq<U64>)
    ensures Val(s + [1]) == Val(s) + Base(|s|)
  {
    ValSnoc(s, 1);
  }

  lemma {:induction false} NormalPush(s: seq<U64>, d: U64)
    requires |s| >= 1 && d != 0
    ensures Normal(s + [d])
  {
  }

  lemma {:induction false} ValOne(d: U64)
    ensures Val([d]) == d
  {
    ValSnoc([], d);
    assert [] + [d] == [d];
  }

  /** Changing one limb changes the number by that limb's weight times the difference. */
  lemma {:induction false} ValUpdate(s: seq<U64>, i: nat, x: U64)
    requires i < |s|
    ensures Val(s[i := x]) + Base(i) * s[i] == Val(s) + Base(i) * x
    decreases |s|
  {
    var n := |s| - 1;
    var t := s[i := x];
    var bn := Base(n);
    if i < n {
      assert t[..n] == s[..n][i := x] && t[n] == s[n];
      ValUpdate(s[..n], i, x);
      assert Val(t) == Val(t[..n]) + bn * s[n];
    } else {
      assert t[..n] == s[..n];
      assert Val(t) == Val(s[..n]) + bn * x;
    }
  }

  /** With more than one limb, the top one is zero exactly when the number fits one limb fewer. */
  lemma {:induction false} NormalByValue(s: seq<U64>)
    requires |s| >= 2
    ensures s[|s| - 1] != 0 <==> Val(s) >= Base(|s| - 1)
  {
    var n := |s| - 1;
    var b: int, d: int, v: int := Base(n), s[n], Val(s[..n]);
    ValBound(s[..n]);
    assert Val(s) == v + b * d;
    TopDigit(v, b, d);
  }

  /** Below b, plus b times d: at least b exactly when d is not 0. */
  lemma {:induction false} TopDigit(v: int, b: int, d: int)
    requires 0 <= v < b && d >= 0
    ensures d != 0 <==> v + b * d >= b
  {
    if d != 0 {
      MulLe(1, d, b);
    }
  }

  /** Two limb sequences of one length that stand for one number are the same. */
  lemma {:induction false} SameLengthUnique(a: seq<U64>, b: seq<U64>)
    requires |a| == |b| && Val(a) == Val(b)
    ensures a == b
    decreases |a|
  {
    if a != [] {
      var n := |a| - 1;
      var w: int, x: int := Base(n), Val(a);
      var ta: int, tb: int, ra: int, rb: int := a[n], b[n], Val(a[..n]), Val(b[..n]);
      ValBound(a[..n]);
      ValBound(b[..n]);
      assert x == ra + w * ta && x == rb + w * tb;
      assert w * ta == ta * w;
      assert w * tb == tb * w;
      DivModUnique(x, w, ta, ra);
      DivModUnique(x, w, tb, rb);
      SameLengthUnique(a[..n], b[..n]);
      assert a == a[..n] + [a[n]] && b == b[..n] + [b[n]];
    }
  }

  /** A shorter normal representation stands for a smaller number. */
  lemma {:induction false} ShorterIsSmaller(a: seq<U64>, b: seq<U64>)
    requires |a| >= 1 && Normal(b) && |a| < |b|
    ensures Val(a) < Val(b)
  {
    ValBound(a);
    NormalByValue(b);
    if |a| < |b| - 1 {
      BaseStrict(|a|, |b| - 1);
    }
  }

  /** A number has one normal representation. */
  lemma {:induction false} NormalUnique(a: seq<U64>, b: seq<U64>)
    requires Normal(a) && Normal(b) && Val(a) == Val(b)
    ensures a == b
  {
    if |a| < |b| {
      ShorterIsSmaller(a, b);
    } else if |b| < |a| {
      ShorterIsSmaller(b, a);
    } else {
      SameLengthUnique(a, b);
    }
  }

  // ---------------------------------------------------------------- MulAdd64

  lemma {:induction false} HalfProduct(x: nat, y: nat)
    requires x < TWO_32 && y < TWO_32
    ensures 0 <= x * y <= 0xFFFF_FFFE_0000_0001
  {
    var m: int := 0xFFFF_FFFF;
    MulLe(0, x, y);
    MulLe(x, m, y);
    MulLe(y, m, m);
    assert m * y == y * m;
    assert m * m == 0xFFFF_FFFE_0000_0001;
  }

  /** The four 32-bit partial products make up the 64-bit product. */
  lemma {:induction false} ProductSplit(a: nat, b: nat, al: nat, ah: nat, bl: nat, bh: nat)
    requires a == ah * TWO_32 + al && b == bh * TWO_32 + bl
    ensures a * b == (ah * bh) * TWO_64 + (al * bh + ah * bl) * TWO_32 + al * bl
  {
    calc {
      a * b;
      (ah * TWO_32 + al) * b;
      ah * TWO_32 * b + al * b;
      ah * TWO_32 * (bh * TWO_32 + bl) + al * (bh * TWO_32 + bl);
      (ah * bh) * (TWO_32 * TWO_32) + (ah * bl) * TWO_32 + (al * bh) * TWO_32 + al * bl;
    }
  }

  /** uint64_t addition, which wraps around. */
  function Add64(a: U64, b: U64): U64
  {
    (a + b) % TWO_64
  }

  /** A 64-bit addition wrapped exactly when the sum came out below an operand. */
  lemma {:induction false} WrapAdd(x: U64, y: U64)
    ensures (x + y) % TWO_64 < y <==> x + y >= TWO_64
    ensures x + y == (x + y) % TWO_64 + (if x + y >= TWO_64 then TWO_64 else 0)
  {
  }

  /**
   * The portable branch of MulAdd64: a b + k from 32-bit halves, with every 64-bit
   * addition wrapping and its carry recovered by comparing the sum with an operand.
   * The result is (low 64 bits, high 64 bits).
   */
  function MulAdd64(a: U64, b: U64, k: U64): (r: (U64, U64))
    ensures r.0 + TWO_64 * r.1 == a * b + k
  {
    var al, ah, bl, bh := a % TWO_32, a / TWO_32, b % TWO_32, b / TWO_32;
    var x0, x1, x2, x3 := al * bl, al * bh, ah * bl, ah * bh;
    var x1a := x1 + x0 / TWO_32;
    var x1b := (x1a + x2) % TWO_64;
    var x3a := if x1b < x2 then x3 + TWO_32 else x3;
    var l := (x1b % TWO_32) * TWO_32 + x0 % TWO_32;
    var h := x3a + x1b / TWO_32;
    var l2 := (l + k) % TWO_64;
    var h2 := if l2 < k then h + 1 else h;
    MulAdd64Facts(a, b, k, al, ah, bl, bh, x0, x1, x2, x3, x1a, x1b, x3a, l, h, l2, h2);
    (l2, h2)
  }

  lemma {:induction false} MulAdd64Facts(a: U64, b: U64, k: U64, al: nat, ah: nat, bl: nat, bh: nat,
                      x0: int, x1: int, x2: int, x3: int, x1a: int, x1b: int, x3a: int,
                      l: int, h: int, l2: int, h2: int)
    requires al == a % TWO_32 && ah == a / TWO_32 && bl == b % TWO_32 && bh == b / TWO_32
    requires x0 == al * bl && x1 == al * bh && x2 == ah * bl && x3 == ah * bh
    requires x1a == x1 + x0 / TWO_32 && x1b == (x1a + x2) % TWO_64
    requires x3a == (if x1b < x2 then x3 + TWO_32 else x3)
    requires l == (x1b % TWO_32) * TWO_32 + x0 % TWO_32 && h == x3a + x1b / TWO_32
    requires l2 == (l + k) % TWO_64 && h2 == (if l2 < k then h + 1 else h)
    ensures 0 <= l2 < TWO_64 && 0 <= h2 < TWO_64 && l2 + TWO_64 * h2 == a * b + k
  {
    HalfProduct(al, bl);
    HalfProduct(al, bh);
    HalfProduct(ah, bl);
    HalfProduct(ah, bh);
    ProductSplit(a, b, al, ah, bl, bh);
    assert x1a < TWO_64 && x2 < TWO_64;
    WrapAdd(x1a, x2);
    var c: nat := if x1a + x2 >= TWO_64 then 1 else 0;
    assert a * b == x3 * TWO_64 + (x1a + x2) * TWO_32 + x0 % TWO_32;
    assert a * b == x3a * TWO_64 + x1b * TWO_32 + x0 % TWO_32;
    assert x1b * TWO_32 == (x1b / TWO_32) * TWO_64 + (x1b % TWO_32) * TWO_32;
    assert a * b == h * TWO_64 + l;
    assert l < TWO_64;
    WrapAdd(l, k);
    assert a * b + k == h2 * TWO_64 + l2;
    MulLe(a, TWO_64 - 1, b);
    MulLe(b, TWO_64 - 1, TWO_64 - 1);
    HighBelow(a * b + k, l2, h2);
  }

  /** A number below 2^128 written as l + 2^64 h, l not negative, has h below 2^64. */
  lemma {:induction false} HighBelow(n: int, l: int, h: nat)
    requires 0 <= l && n == l + TWO_64 * h && n < TWO_64 * TWO_64
    ensures h < TWO_64
  {
    if h >= TWO_64 {
      MulLe(TWO_64, h, TWO_64);
      assert false;
    }
  }

  /** One limb of operator*=(uint32_t): 32-bit halves, each product and sum inside 64 bits. */
  lemma {:induction false} Mul32Step(d: U64, u: U32, carry: nat)
    requires carry < TWO_32
    ensures u * (d / TWO_32) < TWO_64 && u * (d % TWO_32) + carry < TWO_64
    ensures u * (d / TWO_32) + (u * (d % TWO_32) + carry) / TWO_32 < TWO_64
    ensures var p0 := u * (d % TWO_32) + carry;
            var p1 := u * (d / TWO_32) + p0 / TWO_32;
            p1 / TWO_32 < TWO_32 &&
            p0 % TWO_32 + (p1 % TWO_32) * TWO_32 + TWO_64 * (p1 / TWO_32) == d * u + carry
  {
    var h, l := d / TWO_32, d % TWO_32;
    HalfProduct(u, h);
    HalfProduct(u, l);
    var p0 := u * l + carry;
    var p1 := u * h + p0 / TWO_32;
    assert p1 * TWO_32 + p0 % TWO_32 == u * h * TWO_32 + p0;
    assert u * h * TWO_32 + u * l == d * u by {
      assert d == h * TWO_32 + l;
    }
    assert p1 * TWO_32 == (p1 / TWO_32) * TWO_64 + (p1 % TWO_32) * TWO_32;
  }

  /** 5^27, 5^13 and kPow5[i] == 5^(i+1) for i < 12. */
  const POW5_27: U64 := 0x6765_C793_FA10_079D
  const POW5_13: U32 := 1220703125
  const POW5_TABLE: seq<U32> := [5, 25, 125, 625, 3125, 15625, 78125, 390625, 1953125,
                                 9765625, 48828125, 244140625]

  lemma {:induction false} Pow5Constants()
    ensures POW5_27 == Pow5(27) && POW5_13 == Pow5(13)
    ensures |POW5_TABLE| == 12 && forall i :: 0 <= i < 12 ==> POW5_TABLE[i] == Pow5(i + 1)
  {
    assert Pow5(13) == 1220703125;
    Pow5Add(13, 14);
    assert Pow5(14) == 6103515625;
  }

  lemma {:induction false} Pow5Entry(e: nat)
    requires 1 <= e <= 12
    ensures POW5_TABLE[e - 1] == Pow5(e)
  {
    Pow5Constants();
  }

  // ---------------------------------------------------------------- the object

  class BigInteger {
    const digits: array<U64>
    var count: nat

    /** The array has the fixed capacity and 1 <= count_ <= kCapacity. */
    ghost predicate Sized()
      reads this
    {
      digits.Length == CAPACITY && 1 <= count <= CAPACITY
    }

    ghost predicate Valid()
      reads this, digits
    {
      Sized() && Normal(digits[..count])
    }

    ghost function Limbs(): seq<U64>
      reads this, digits
      requires Sized()
    {
      digits[..count]
    }

    ghost function Value(): nat
      reads this, digits
      requires Sized()
    {
      Val(digits[..count])
    }

    /** BigInteger(uint64_t): one limb. */
    constructor FromU64(u: U64)
      ensures Valid() && fresh(digits) && Value() == u
    {
      var a := new U64[CAPACITY](_ => 0);
      a[0] := u;
      digits := a;
      count := 1;
      new;
      assert digits[..count] == [u];
      ValOne(u);
    }

    /** The copy constructor: the limbs in use are copied. */
    constructor Copy(other: BigInteger)
      requires other.Valid()
      ensures Valid() && fresh(digits) && Limbs() == other.Limbs()
    {
      var a := new U64[CAPACITY](_ => 0);
      forall k | 0 <= k < other.count {
        a[k] := other.digits[k];
      }
      digits := a;
      count := other.count;
      new;
      assert digits[..count] == other.digits[..other.count];
    }

    /** operator=(const BigInteger &): the other's limbs, unless it is this object. */
    method AssignFrom(other: BigInteger)
      requires Sized() && other.Valid()
      modifies this, digits
      ensures Valid() && Limbs() == old(other.Limbs())
    {
      if this != other {
        count := other.count;
        forall k | 0 <= k < count {
          digits[k] := other.digits[k];
        }
        assert digits[..count] == old(other.digits[..other.count]);
      }
    }

    /** operator=(uint64_t): one limb. */
    method AssignU64(u: U64)
      requires Sized()
      modifies this, digits
      ensures Valid() && Value() == u
    {
      digits[0] := u;
      count := 1;
      assert digits[..count] == [u];
      ValOne(u);
    }

    /** operator==(const BigInteger *): the same limbs in use. */
    function Equals(other: BigInteger): (r: bool)
      reads this, digits, other, other.digits
      requires Valid() && other.Valid()
      ensures r <==> Value() == other.Value()
    {
      NormalIff(digits[..count], other.digits[..other.count]);
      count == other.count && digits[..count] == other.digits[..other.count]
    }

    /** operator==(const Type &): one limb holding that value. */
    function EqualsU64(t: U64): (r: bool)
      reads this, digits
      requires Valid()
      ensures r <==> Value() == t
    {
      OneLimbIff(digits[..count], t);
      count == 1 && digits[0] == t
    }

    /** IsZero, with the test the name promises: one limb holding 0. */
    function IsZero(): (r: bool)
      reads this, digits
      requires Valid()
      ensures r <==> Value() == 0
    {
      EqualsU64(0)
    }

    /** PushBack: one more limb on top; kCapacity must not be reached already. */
    method PushBack(d: U64)
      requires Sized() && count < CAPACITY
      modifies this, digits
      ensures Sized() && count == old(count) + 1 && Limbs() == old(Limbs()) + [d]
    {
      digits[count] := d;
      count := count + 1;
      assert digits[..count] == old(digits[..count]) + [d];
    }

    /**
     * operator+=(uint64_t): add to the lowest limb, then carry upwards while a limb wrapped
     * (it came out below what it held), and push a limb 1 when the top one wrapped.
     */
    method AddU64(u: U64)
      requires Valid() && (count < CAPACITY || Value() + u < Base(count))
      modifies this, digits
      ensures Valid() && Value() == old(Value()) + u
    {
      AddAtValue(Limbs(), 0, u);
      AddKeepsNormal(Limbs(), u);
      AddLimbs(u);
    }

    /** The body of operator+=, on the limbs: the carry loop and the final push. */
    method AddLimbs(u: U64)
      requires Sized() && (count < CAPACITY || |AddAt(Limbs(), 0, u)| == count)
      modifies this, digits
      ensures Sized() && Limbs() == AddAt(old(Limbs()), 0, u)
    {
      ghost var s0: seq<U64> := digits[..count];
      ghost var target := AddAt(s0, 0, u);
      var backup := digits[0];
      digits[0] := Add64(digits[0], u);
      ghost var cur: seq<U64> := s0[0 := digits[0]];
      assert digits[..count] == cur;
      var i := 0;
      while i < count - 1
        invariant Sized() && count == old(count) && 0 <= i <= count - 1
        invariant digits[..count] == cur && |cur| == count
        invariant target == Resume(cur, i, backup)
      {
        if digits[i] >= backup {
          return;
        }
        backup := digits[i + 1];
        digits[i + 1] := Add64(digits[i + 1], 1);
        cur := cur[i + 1 := digits[i + 1]];
        assert digits[..count] == cur;
        i := i + 1;
      }
      if digits[count - 1] < backup {
        PushBack(1);
      }
    }

    /**
     * operator*=(uint64_t): 0 and 1 are handled first, a number 1 becomes u, and otherwise
     * every limb is replaced by the low half of its product with u plus the carry, whose
     * high half is the next carry; a carry left at the end is pushed.
     */
    method MulU64(u: U64)
      requires Valid() && (count < CAPACITY || Value() * u < Base(count))
      modifies this, digits
      ensures Valid() && Value() == old(Value()) * u
    {
      if u == 0 {
        AssignU64(0);
        return;
      }
      if u == 1 {
        return;
      }
      if EqualsU64(1) {
        AssignU64(u);
        return;
      }
      MulKeepsNormal(Limbs(), u);
      MulLimbsU64(u);
    }

    /** The loop of operator*=(uint64_t) and its final push, on the limbs. */
    method MulLimbsU64(u: U64)
      requires Sized() && (count < CAPACITY || |MulFrom(Limbs(), 0, u, 0)| == count)
      modifies this, digits
      ensures Sized() && Limbs() == MulFrom(old(Limbs()), 0, u, 0)
    {
      ghost var s0: seq<U64> := digits[..count];
      ghost var target := MulFrom(s0, 0, u, 0);
      ghost var cur: seq<U64> := s0;
      var carry: U64 := 0;
      var i := 0;
      while i < count
        invariant Sized() && count == old(count) && 0 <= i <= count
        invariant digits[..count] == cur && |cur| == count
        invariant target == MulFrom(cur, i, u, carry)
      {
        var p := MulAdd64(digits[i], u, carry);
        digits[i] := p.0;
        cur := cur[i := p.0];
        assert digits[..count] == cur;
        carry := p.1;
        i := i + 1;
      }
      if carry > 0 {
        PushBack(carry);
      }
    }

    /**
     * operator*=(uint32_t): the same as operator*=(uint64_t), with each limb multiplied in
     * 32-bit halves.
     */
    method MulU32(u: U32)
      requires Valid() && (count < CAPACITY || Value() * u < Base(count))
      modifies this, digits
      ensures Valid() && Value() == old(Value()) * u
    {
      if u == 0 {
        AssignU64(0);
        return;
      }
      if u == 1 {
        return;
      }
      if EqualsU64(1) {
        AssignU64(u);
        return;
      }
      MulKeepsNormal(Limbs(), u);
      MulLimbsU32(u);
    }

    /** The loop of operator*=(uint32_t) and its final push, on the limbs. */
    method MulLimbsU32(u: U32)
      requires Sized() && (count < CAPACITY || |MulFrom(Limbs(), 0, u, 0)| == count)
      modifies this, digits
      ensures Sized() && Limbs() == MulFrom(old(Limbs()), 0, u, 0)
    {
      ghost var s0: seq<U64> := digits[..count];
      ghost var target := MulFrom(s0, 0, u, 0);
      ghost var cur: seq<U64> := s0;
      var carry: U64 := 0;
      var i := 0;
      while i < count
        invariant Sized() && count == old(count) && 0 <= i <= count
        invariant digits[..count] == cur && |cur| == count && carry < TWO_32
        invariant target == MulFrom(cur, i, u, carry)
      {
        var p := Mul32Limb(digits[i], u, carry);
        digits[i] := p.0;
        cur := cur[i := p.0];
        assert digits[..count] == cur;
        carry := p.1;
        i := i + 1;
      }
      if carry > 0 {
        PushBack(carry);
      }
    }

    /**
     * operator<<=, with the bit shift within a limb taken as shift % 64: a zero number and a
     * zero shift return at once; otherwise the limbs move up shift / 64 places.
     */
    method ShiftLeft(shift: U64)
      requires Valid()
      requires IsZero() || shift == 0 ||
               (count + shift / 64 <= CAPACITY && (shift % 64 == 0 || count + shift / 64 < CAPACITY))
      modifies this, digits
      ensures Valid() && Value() == old(Value()) * Pow2(shift)
      ensures Limbs() == ShiftLimbs(old(Limbs()), shift)
    {
      ShiftLimbsValue(Limbs(), shift);
      if IsZero() || shift == 0 {
        return;
      }
      ShiftUp(shift);
    }

    /** operator<<= past its early return: move, or shift bit by bit, then clear below. */
    method ShiftUp(shift: U64)
      requires Sized() && shift != 0 && !(count == 1 && digits[0] == 0)
      requires count + shift / 64 <= CAPACITY && (shift % 64 == 0 || count + shift / 64 < CAPACITY)
      modifies this, digits
      ensures Sized() && Limbs() == ShiftLimbs(old(Limbs()), shift)
    {
      ghost var s0 := digits[..count];
      var offset := shift / 64;
      var inner := shift % 64;
      ghost var moved := if inner == 0 then s0 else Trimmed(s0, inner);
      if inner == 0 {
        MoveUp(offset);
      } else {
        ShiftBitsUp(offset, inner);
      }
      ClearBelow(offset, moved);
    }

    /** The memmove of operator<<=: the limbs move up offset places. */
    method MoveUp(offset: nat)
      requires Sized() && count + offset <= CAPACITY
      modifies this, digits
      ensures Sized() && count == old(count) + offset && digits[offset..count] == old(Limbs())
    {
      forall k | 0 <= k < count {
        digits[k + offset] := digits[k];
      }
      count := count + offset;
    }

    /** The memset of operator<<=: the offset limbs below are cleared. */
    method ClearBelow(offset: nat, ghost moved: seq<U64>)
      requires Sized() && offset <= count && digits[offset..count] == moved
      modifies digits
      ensures Sized() && Limbs() == Zeros(offset) + moved
    {
      forall k | 0 <= k < offset {
        digits[k] := 0;
      }
      assert digits[..count] == Zeros(offset) + moved;
    }

    /**
     * The bit part of operator<<=, for 0 < inner < 64: after the loop, limb 0 moves to
     * offset shifted up, and the count grows by offset, and by one more when bits reach the
     * limb above.
     */
    method ShiftBitsUp(offset: nat, inner: nat)
      requires Sized() && 0 < inner < 64 && count + offset < CAPACITY
      modifies this, digits
      ensures Sized() && count == offset + |Trimmed(old(Limbs()), inner)|
      ensures digits[offset..count] == Trimmed(old(Limbs()), inner)
    {
      ghost var s0 := digits[..count];
      ghost var r := Shifted(s0, inner);
      ghost var n0 := count;
      assert Limbs() == s0;
      BitLoop(offset, inner);
      assert count == n0;
      assert forall k :: 0 < k <= count ==> digits[k + offset] == Shifted(s0, inner)[k];
      assert forall k :: 0 < k <= n0 ==> digits[k + offset] == r[k];
      digits[offset] := Shl(digits[0], inner);
      assert forall k :: 0 < k <= n0 ==> digits[k + offset] == r[k];
      assert digits[offset] == r[0];
      count := count + offset;
      if digits[count] != 0 {
        count := count + 1;
      }
      assert forall k :: 0 <= k <= n0 ==> digits[k + offset] == r[k];
      assert digits[offset..count] == Trimmed(s0, inner);
    }

    /**
     * The loop of operator<<=: a 0 above the top limb, then from the top down, limb i moves
     * to i + offset shifted up by inner bits, with the bits of limb i - 1 shifted in.
     */
    method BitLoop(offset: nat, inner: nat)
      requires Sized() && 0 < inner < 64 && count + offset < CAPACITY
      modifies digits
      ensures digits[0] == old(digits[0])
      ensures forall k :: 0 < k <= count ==> digits[k + offset] == Shifted(old(Limbs()), inner)[k]
    {
      ghost var s0 := digits[..count];
      ghost var r := Shifted(s0, inner);
      digits[count] := 0;
      var i := count;
      while i > 0
        invariant 0 <= i <= count
        invariant forall k :: 0 <= k <= i ==> digits[k] == (if k < count then s0[k] else 0)
        invariant forall k :: i < k <= count ==> digits[k + offset] == r[k]
      {
        ShiftHalves(digits[i], inner);
        digits[i + offset] := Shl(digits[i], inner) + Shr(digits[i - 1], inner);
        i := i - 1;
      }
    }

    /**
     * MultiplyPow5: multiply by 5^27 while the exponent allows, then by 5^13, then by the
     * table entry for what is left.
     */
    method MultiplyPow5(exponent: U32)
      requires Valid() && Value() * Pow5(exponent) < Base(CAPACITY)
      modifies this, digits
      ensures Valid() && Value() == old(Value()) * Pow5(exponent)
    {
      ghost var goal: int := old(Value()) * Pow5(exponent);
      if exponent == 0 {
        assert Pow5(exponent) == 1;
        return;
      }
      var e := exponent;
      while e >= 27
        invariant Valid() && Value() * Pow5(e) == goal
        invariant Value() * Pow5(e) < Base(CAPACITY)
      {
        Pow5Split(Value(), e, 27, count, CAPACITY);
        Pow5Constants();
        MulU64(POW5_27);
        e := e - 27;
      }
      while e >= 13
        invariant Valid() && Value() * Pow5(e) == goal
        invariant Value() * Pow5(e) < Base(CAPACITY)
      {
        Pow5Split(Value(), e, 13, count, CAPACITY);
        Pow5Constants();
        MulU32(POW5_13);
        e := e - 13;
      }
      if e > 0 {
        Pow5Split(Value(), e, e, count, CAPACITY);
        ghost var v := Value();
        var f := POW5_TABLE[e - 1];
        Pow5Entry(e);
        MulU32(f);
        assert Value() == v * Pow5(e);
      } else {
        MulByOne(Value(), Pow5(e));
      }
    }

    /**
     * AppendDecimal64: up to 19 more decimal digits, as this 10^n + the chunk, with the
     * multiplication by 10^n done as MultiplyPow5(n) then a shift by n bits.
     */
    method AppendDecimal64(chunk: seq<char>)
      requires Valid() && Digits(chunk) && 1 <= |chunk| <= 19
      requires Value() * Pow5(|chunk|) < Base(CAPACITY - 1)
      requires Value() * Pow10(|chunk|) + Dec(chunk) < Base(CAPACITY)
      modifies this, digits
      ensures Valid() && Value() == old(Value()) * Pow10(|chunk|) + Dec(chunk)
    {
      var u := ParseUint64(chunk);
      NineteenDigits(chunk);
      SmallMod(Dec(chunk));
      var zero := IsZero();
      if zero {
        AssignU64(u);
        MulZero(old(Value()), Pow10(|chunk|));
      } else {
        ScaleAndAdd(|chunk|, u);
      }
    }

    /** (MultiplyPow5(e) <<= e) += u: this 10^e + u, for a nonzero number and e < 64. */
    method ScaleAndAdd(e: nat, u: U64)
      requires Valid() && !IsZero() && e < 64
      requires Value() * Pow5(e) < Base(CAPACITY - 1) && Value() * Pow10(e) + u < Base(CAPACITY)
      modifies this, digits
      ensures Valid() && Value() == old(Value()) * Pow10(e) + u
    {
      ghost var v: int, p5: int, p2: int, p10: int := Value(), Pow5(e), Pow2(e), Pow10(e);
      ghost var below: int, top: int := Base(CAPACITY - 1), Base(CAPACITY);
      assert v * p5 < below && v * p10 + u < top;
      Pow10Split(e);
      BaseStrict(CAPACITY - 1, CAPACITY);
      MultiplyPow5(e);
      ghost var w: int := Value();
      ScaleAccount(v, p5, p2, p10, w, u, top);
      CountBound(Limbs(), CAPACITY - 1);
      ShiftThenAdd(e, u);
      AppendAccount(v, p5, p2, p10, w, Value() - u);
    }

    /** (*this <<= e) += u: this 2^e + u, for a nonzero number with a free limb on top. */
    method ShiftThenAdd(e: nat, u: U64)
      requires Valid() && Value() > 0 && count < CAPACITY && e < 64
      requires Value() * Pow2(e) + u < Base(CAPACITY)
      modifies this, digits
      ensures Valid() && Value() == old(Value()) * Pow2(e) + u
    {
      ghost var top: int := Base(CAPACITY);
      SmallShift(e);
      ShiftLeft(e);
      assert count == CAPACITY ==> Base(count) == top;
      AddU64(u);
    }

    /**
     * BigInteger(decimals, length): the decimal number, read 19 digits at a time and then
     * the rest.
     */
    constructor FromDecimals(decimals: seq<char>)
      requires |decimals| > 0 && Digits(decimals) && Dec(decimals) < Base(CAPACITY - 1)
      ensures Valid() && fresh(digits) && Value() == Dec(decimals)
    {
      var a := new U64[CAPACITY](_ => 0);
      digits := a;
      count := 1;
      new;
      assert digits[..count] == [0];
      ValOne(0);
      assert decimals[..0] == [];
      var i := 0;
      var length := |decimals|;
      while length > 19
        invariant i + length == |decimals| && length > 0
        invariant Valid() && fresh(digits) && Digits(decimals[..i]) && Value() == Dec(decimals[..i])
      {
        AppendChunk(decimals, i, i + 19);
        length := length - 19;
        i := i + 19;
      }
      AppendChunk(decimals, i, i + length);
      assert decimals[..i + length] == decimals;
    }

    /** AppendDecimal64 on the chunk d[i..j] of a number, after its digits d[..i]. */
    method AppendChunk(d: seq<char>, i: nat, j: nat)
      requires Valid() && Digits(d) && i < j <= |d| && j - i <= 19 && Dec(d) < Base(CAPACITY - 1)
      requires Digits(d[..i]) && Value() == Dec(d[..i])
      modifies this, digits
      ensures Valid() && Digits(d[..j]) && Value() == Dec(d[..j])
    {
      var chunk := d[i..j];
      ChunkFits(d, i, j, CAPACITY - 1);
      ghost var x: int, y: int, z: int := Dec(d[..i]), Dec(chunk), Dec(d[..j]);
      ghost var p5: int, p10: int := Pow5(|chunk|), Pow10(|chunk|);
      ghost var below: int, top: int := Base(CAPACITY - 1), Base(CAPACITY);
      assert x * p5 < below && x * p10 + y == z < top;
      AppendDecimal64(chunk);
      assert Value() == x * p10 + y;
    }
  }

  /**
   * What operator+= leaves in the limbs once limb i has become t[i] from b: nothing more
   * when it did not wrap, else a carry of 1 into limb i + 1, or a new top limb 1.
   */
  function {:induction false} Resume(t: seq<U64>, i: nat, b: U64): (r: seq<U64>)
    requires i < |t|
    decreases |t| - i, 0
  {
    if t[i] >= b then t
    else if i + 1 < |t| then AddAt(t, i + 1, 1)
    else t + [1]
  }

  /** The limbs after adding c to limb i and carrying upwards. */
  function {:induction false} AddAt(s: seq<U64>, i: nat, c: U64): (r: seq<U64>)
    requires i < |s|
    decreases |s| - i, 1
  {
    Resume(s[i := Add64(s[i], c)], i, s[i])
  }

  lemma {:induction false} MulAddDistrib(b: nat, y: nat, c: nat)
    ensures b * (y + c) == b * y + b * c
  {
  }

  /** Adding c to limb i, with and without a wrap. */
  lemma {:induction false} AddStep(s: seq<U64>, i: nat, c: U64)
    requires i < |s|
    ensures var x := Add64(s[i], c);
            (x >= s[i] ==> Val(s[i := x]) == Val(s) + Base(i) * c) &&
            (x < s[i] ==> Val(s[i := x]) + Base(i + 1) == Val(s) + Base(i) * c)
  {
    var x := Add64(s[i], c);
    WrapAdd(c, s[i]);
    if s[i] + c >= TWO_64 {
      AddWraps(s, i, c, x);
    } else {
      AddStops(s, i, c, x);
    }
  }

  lemma {:induction false} AddWraps(s: seq<U64>, i: nat, c: U64, x: U64)
    requires i < |s| && x + TWO_64 == s[i] + c
    ensures Val(s[i := x]) + Base(i + 1) == Val(s) + Base(i) * c
  {
    var b := Base(i);
    ValUpdate(s, i, x);
    MulAddDistrib(b, x, TWO_64);
    MulAddDistrib(b, s[i], c);
  }

  lemma {:induction false} AddStops(s: seq<U64>, i: nat, c: U64, x: U64)
    requires i < |s| && x == s[i] + c
    ensures Val(s[i := x]) == Val(s) + Base(i) * c
  {
    ValUpdate(s, i, x);
    MulAddDistrib(Base(i), s[i], c);
  }

  /**
   * operator+= adds exactly: c at limb i adds c times its weight, and the limbs grow by one,
   * a 1 on top, only when the sum no longer fits the old number of limbs.
   */
  lemma {:induction false} AddAtValue(s: seq<U64>, i: nat, c: U64)
    requires i < |s|
    ensures Val(AddAt(s, i, c)) == Val(s) + Base(i) * c
    ensures |AddAt(s, i, c)| == |s| || (|AddAt(s, i, c)| == |s| + 1 && AddAt(s, i, c)[|s|] == 1)
    ensures |AddAt(s, i, c)| == |s| + 1 ==> Val(s) + Base(i) * c >= Base(|s|)
    decreases |s| - i
  {
    var x := Add64(s[i], c);
    var t := s[i := x];
    var r := AddAt(s, i, c);
    AddStep(s, i, c);
    assert r == Resume(t, i, s[i]) && t[i] == x;
    if x >= s[i] {
      assert r == t;
    } else if i + 1 < |s| {
      assert r == AddAt(t, i + 1, 1);
      AddAtValue(t, i + 1, 1);
      assert Val(r) == Val(t) + Base(i + 1) * 1;
      assert Val(t) + Base(i + 1) == Val(s) + Base(i) * c;
    } else {
      assert r == t + [1];
      ValPushOne(t);
    }
  }

  /** A sum that keeps the number of limbs of a normal summand is normal. */
  lemma {:induction false} AddKeepsNormal(s: seq<U64>, u: U64)
    requires Normal(s)
    ensures Normal(AddAt(s, 0, u)) && Val(AddAt(s, 0, u)) == Val(s) + u
  {
    AddAtValue(s, 0, u);
    var r := AddAt(s, 0, u);
    if |r| == |s| + 1 {
      NormalPush(r[..|s|], 1);
      assert r == r[..|s|] + [1];
    } else if |s| >= 2 {
      NormalByValue(s);
      NormalByValue(r);
    }
  }

  // ---------------------------------------------------------------- multiplication

  /**
   * What operator*= leaves in the limbs once its loop has reached limb i with carry c: each
   * remaining limb becomes the low half of d u + c, the high half carries on, and a carry
   * left over at the end becomes a new top limb.
   */
  function {:induction false} MulFrom(t: seq<U64>, i: nat, u: U64, c: U64): (r: seq<U64>)
    requires i <= |t|
    decreases |t| - i
  {
    if i == |t| then (if c > 0 then t + [c] else t)
    else
      var p := MulAdd64(t[i], u, c);
      MulFrom(t[i := p.0], i + 1, u, p.1)
  }

  /**
   * operator*= multiplies exactly: with limbs below i already multiplied (and c owed at
   * limb i), the loop ends with s u, one limb longer only when a nonzero carry is left.
   */
  lemma {:induction false} MulFromValue(t: seq<U64>, s: seq<U64>, i: nat, u: U64, c: U64)
    requires |t| == |s| && i <= |s| && t[i..] == s[i..]
    requires Val(t[..i]) + Base(i) * c == Val(s[..i]) * u
    ensures Val(MulFrom(t, i, u, c)) == Val(s) * u
    ensures |MulFrom(t, i, u, c)| == |s| || (|MulFrom(t, i, u, c)| == |s| + 1 && MulFrom(t, i, u, c)[|s|] != 0)
    decreases |s| - i
  {
    var r := MulFrom(t, i, u, c);
    if i == |s| {
      assert t[..i] == t && s[..i] == s;
      if c > 0 {
        ValSnoc(t, c);
      } else {
        var b: int := Base(i);
        assert b * c == 0;
      }
    } else {
      var p := MulAdd64(t[i], u, c);
      var t2 := t[i := p.0];
      assert r == MulFrom(t2, i + 1, u, p.1);
      MulFromStep(t, s, i, u, c);
      MulFromValue(t2, s, i + 1, u, p.1);
    }
  }

  /** One turn of operator*='s loop keeps MulFromValue's account. */
  lemma {:induction false} MulFromStep(t: seq<U64>, s: seq<U64>, i: nat, u: U64, c: U64)
    requires |t| == |s| && i < |s| && t[i..] == s[i..]
    requires Val(t[..i]) + Base(i) * c == Val(s[..i]) * u
    ensures t[i := MulAdd64(t[i], u, c).0][i + 1..] == s[i + 1..]
    ensures Val(t[i := MulAdd64(t[i], u, c).0][..i + 1]) + Base(i + 1) * MulAdd64(t[i], u, c).1 == Val(s[..i + 1]) * u
  {
    var p := MulAdd64(t[i], u, c);
    var t2 := t[i := p.0];
    assert t[i] == s[i] && t2[i + 1..] == s[i + 1..] by {
      assert t[i..][0] == s[i..][0] && t[i + 1..] == t[i..][1..] && s[i + 1..] == s[i..][1..];
    }
    assert t2[..i + 1] == t[..i] + [p.0] && s[..i + 1] == s[..i] + [s[i]];
    ValSnoc(t[..i], p.0);
    ValSnoc(s[..i], s[i]);
    var bi: int := Base(i);
    var vs := Val(s[..i]);
    assert Base(i + 1) == TWO_64 * bi;
    MulComm(TWO_64, bi);
    MulAssoc(bi, TWO_64, p.1);
    MulDistrib(bi, p.0, TWO_64 * p.1);
    MulDistrib(bi, s[i] * u, c);
    MulAssoc(bi, s[i], u);
    MulComm(vs + bi * s[i], u);
    MulDistrib(u, vs, bi * s[i]);
    MulComm(u, vs);
    MulComm(u, bi * s[i]);
  }

  /** A product of a normal number and a nonzero factor is normal. */
  lemma {:induction false} MulKeepsNormal(s: seq<U64>, u: U64)
    requires Normal(s) && u != 0
    ensures Normal(MulFrom(s, 0, u, 0)) && Val(MulFrom(s, 0, u, 0)) == Val(s) * u
    ensures |MulFrom(s, 0, u, 0)| == |s| || (|MulFrom(s, 0, u, 0)| == |s| + 1 && Val(s) * u >= Base(|s|))
  {
    var r := MulFrom(s, 0, u, 0);
    assert s[..0] == [] && s[0..] == s;
    MulFromValue(s, s, 0, u, 0);
    var v: int := Val(s);
    if |r| == |s| + 1 {
      NormalByValue(r);
    } else if |s| >= 2 {
      NormalByValue(s);
      MulGe(v, u);
      NormalByValue(r);
    }
  }

  /**
   * One limb of operator*=(uint32_t), from 32-bit halves without overflow. The two parts of
   * the new limb occupy disjoint bits, so the source's | is a sum here. It computes what
   * MulAdd64 does.
   */
  function Mul32Limb(d: U64, u: U32, c: U64): (r: (U64, U64))
    requires c < TWO_32
    ensures r == MulAdd64(d, u, c) && r.1 < TWO_32
  {
    Mul32Step(d, u, c);
    var h, l := d / TWO_32, d % TWO_32;
    var p0 := u * l + c;
    var p1 := u * h + p0 / TWO_32;
    var r: (U64, U64) := (p0 % TWO_32 + (p1 % TWO_32) * TWO_32, p1 / TWO_32);
    SplitUnique(r, MulAdd64(d, u, c));
    r
  }

  /** Two (low, high) pairs of one 128-bit number are the same. */
  lemma {:induction false} SplitUnique(r: (U64, U64), q: (U64, U64))
    requires r.0 + TWO_64 * r.1 == q.0 + TWO_64 * q.1
    ensures r == q
  {
    var x: int := q.0 + TWO_64 * q.1;
    DivModUnique(x, TWO_64, r.1, r.0);
    DivModUnique(x, TWO_64, q.1, q.0);
  }

  /** After a factor k of 5^e is taken, what is left still fits where 5^e did. */
  lemma {:induction false} Pow5Split(v: nat, e: nat, k: nat, n: nat, m: nat)
    requires k <= e && n <= m && v * Pow5(e) < Base(m)
    ensures n < m || v * Pow5(k) < Base(n)
    ensures (v * Pow5(k)) * Pow5(e - k) == v * Pow5(e)
  {
    Pow5Add(k, e - k);
    var a: int, b: int, w: int := Pow5(k), Pow5(e - k), v;
    MulAssoc(w, a, b);
    MulGe(w * a, b);
  }

  // ---------------------------------------------------------------- shifting

  /** x << sh in uint64_t: the low 64 bits of x 2^sh. */
  function Shl(x: U64, sh: nat): U64
  {
    (x * Pow2(sh)) % TWO_64
  }

  /** x >> (64 - sh) in uint64_t, for 0 < sh < 64: the sh bits that x << sh loses. */
  function Shr(x: U64, sh: nat): (r: U64)
    requires 0 < sh < 64
    ensures r < Pow2(sh)
  {
    Pow2Split64(sh);
    DivBelow(x, Pow2(64 - sh), Pow2(sh));
    x / Pow2(64 - sh)
  }

  lemma {:induction false} Pow2Split64(sh: nat)
    requires sh <= 64
    ensures Pow2(64 - sh) * Pow2(sh) == TWO_64
  {
    Pow2Add(64 - sh, sh);
    Pow2Values();
  }

  lemma {:induction false} DivBelow(x: nat, a: nat, b: nat)
    requires a > 0 && x < a * b
    ensures x / a < b
  {
    var q: int := x / a;
    assert q * a <= x;
    if q >= b {
      MulLe(b, q, a);
      assert false;
    }
  }

  /**
   * The two halves of x 2^sh: x << sh leaves its low sh bits clear, room for the bits
   * another limb's x >> (64 - sh) brings in.
   */
  lemma {:induction false} ShiftHalves(x: U64, sh: nat)
    requires 0 < sh < 64
    ensures Shl(x, sh) + TWO_64 * Shr(x, sh) == x * Pow2(sh)
    ensures Shl(x, sh) + Pow2(sh) <= TWO_64
  {
    Pow2Split64(sh);
    var p: int, q: int := Pow2(sh), Pow2(64 - sh);
    MulDivSplit(x, p, q);
    var xp: int := x * p;
    assert xp == (q * p) * (xp / (q * p)) + xp % (q * p);
  }

  /** Scaling x and q by p scales the remainder of x / q and keeps the quotient. */
  lemma {:induction false} MulDivSplit(x: int, p: int, q: int)
    requires x >= 0 && p > 0 && q > 0
    ensures (x * p) / (q * p) == x / q && (x * p) % (q * p) == (x % q) * p
    ensures (x % q) * p + p <= q * p
  {
    var hi, lo := x / q, x % q;
    assert x * p == hi * (q * p) + lo * p by {
      assert x == hi * q + lo;
      assert hi * (q * p) == (hi * q) * p;
    }
    MulLe(lo + 1, q, p);
    DivModUnique(x * p, q * p, hi, lo * p);
  }

  /**
   * Limb k of x 2^sh for 0 < sh < 64, as the loop of operator<<= computes it: the limb
   * shifted up, with the bits from the limb below shifted in (the parts occupy disjoint
   * bits, so the source's | is a sum here).
   */
  function ShiftLimb(s: seq<U64>, k: nat, sh: nat): U64
    requires 0 < sh < 64 && k <= |s|
  {
    LimbRoom(s, k, sh);
    (if k < |s| then Shl(s[k], sh) else 0) + (if k > 0 then Shr(s[k - 1], sh) else 0)
  }

  lemma {:induction false} LimbRoom(s: seq<U64>, k: nat, sh: nat)
    requires 0 < sh < 64 && k <= |s|
    ensures (if k < |s| then Shl(s[k], sh) else 0) + (if k > 0 then Shr(s[k - 1], sh) else 0) < TWO_64
  {
    if k < |s| {
      ShiftHalves(s[k], sh);
    }
    if k > 0 {
      Pow2Values();
      Pow2Mono(sh, 64);
    }
  }

  /** The |s| + 1 limbs of s 2^sh. */
  function Shifted(s: seq<U64>, sh: nat): (r: seq<U64>)
    requires 0 < sh < 64
    ensures |r| == |s| + 1 && forall k :: 0 <= k <= |s| ==> r[k] == ShiftLimb(s, k, sh)
  {
    seq(|s| + 1, k requires 0 <= k <= |s| => ShiftLimb(s, k, sh))
  }

  /** The value of n + 2 limbs: the first n, then the top two as one 128-bit digit at weight Base(n). */
  lemma {:induction false} TopTwoLimbs(r: seq<U64>, n: nat)
    requires |r| == n + 2
    ensures Val(r) == Val(r[..n]) + Base(n) * (r[n] + TWO_64 * r[n + 1])
  {
    var r1 := r[..n + 1];
    assert r1[..n] == r[..n] && r[..n + 1] == r1 && r1[n] == r[n];
    ValSplit(r);
    ValSplit(r1);
    assert Base(n + 1) == TWO_64 * Base(n);
  }

  /** The loop of operator<<= multiplies by 2^sh, spread over one limb more. */
  lemma {:induction false} ShiftedValue(s: seq<U64>, sh: nat)
    requires 0 < sh < 64
    ensures Val(Shifted(s, sh)) == Val(s) * Pow2(sh)
    decreases |s|
  {
    if s == [] {
      assert Shifted(s, sh) == [0];
      ValOne(0);
    } else {
      var n := |s| - 1;
      ShiftedValue(s[..n], sh);
      ShiftedParts(s, sh);
      ShiftHalves(s[n], sh);
      ShiftedStep(s, Pow2(sh), Shifted(s, sh), Shifted(s[..n], sh), Shl(s[n], sh), Shr(s[n], sh));
    }
  }

  /** The limbs of s 2^sh against those of s without its top limb. */
  lemma {:induction false} ShiftedParts(s: seq<U64>, sh: nat)
    requires 0 < sh < 64 && s != []
    ensures var n := |s| - 1;
            var r, t := Shifted(s, sh), Shifted(s[..n], sh);
            r[..n] == t[..n] && r[n] == Shl(s[n], sh) + t[n] && r[n + 1] == Shr(s[n], sh)
  {
    var n := |s| - 1;
    var r, t := Shifted(s, sh), Shifted(s[..n], sh);
    forall k | 0 <= k < n
      ensures r[k] == t[k]
    {
      assert ShiftLimb(s, k, sh) == ShiftLimb(s[..n], k, sh);
    }
    assert r[..n] == t[..n];
  }

  lemma {:induction false} ShiftedStep(s: seq<U64>, p: nat, r: seq<U64>, t: seq<U64>, lo: nat, hi: nat)
    requires s != [] && |r| == |s| + 1 && |t| == |s|
    requires var n := |s| - 1;
             r[..n] == t[..n] && r[n] == lo + t[n] && r[n + 1] == hi && lo + TWO_64 * hi == s[n] * p
    requires Val(t) == Val(s[..|s| - 1]) * p
    ensures Val(r) == Val(s) * p
  {
    var n := |s| - 1;
    var b := Base(n);
    TopTwoLimbs(r, n);
    assert r[..n] == t[..n];
    ValSplit(t);
    ValSplit(s);
    var vt, vs := Val(t[..n]), Val(s[..n]);
    assert Val(r) == vt + b * (t[n] + (lo + TWO_64 * hi));
    MulDistrib(b, t[n], lo + TWO_64 * hi);
    assert Val(r) == Val(t) + b * (s[n] * p);
    MulAssoc(b, s[n], p);
    MulComm(vs + b * s[n], p);
    MulDistrib(p, vs, b * s[n]);
    MulComm(p, vs);
    MulComm(p, b * s[n]);
  }

  /** m zero limbs. */
  function Zeros(m: nat): (r: seq<U64>)
    ensures |r| == m && forall k :: 0 <= k < m ==> r[k] == 0
  {
    seq(m, _ => 0)
  }

  lemma {:induction false} ValZero(s: seq<U64>)
    requires forall k :: 0 <= k < |s| ==> s[k] == 0
    ensures Val(s) == 0
    decreases |s|
  {
    if s != [] {
      var n := |s| - 1;
      ValZero(s[..n]);
      var b: int := Base(n);
      assert b * s[n] == 0;
    }
  }

  lemma {:induction false} BaseAdd(m: nat, n: nat)
    ensures Base(m + n) == Base(m) * Base(n)
    decreases n
  {
    if n > 0 {
      BaseAdd(m, n - 1);
      var a: int, b: int := Base(m), Base(n - 1);
      assert Base(m + n) == TWO_64 * (a * b);
      assert Base(n) == TWO_64 * b;
      assert TWO_64 * (a * b) == (TWO_64 * a) * b;
      assert a * (TWO_64 * b) == (a * TWO_64) * b;
    }
  }

  /** 2^(64 m) is the weight of limb m. */
  lemma {:induction false} Pow2Base(m: nat)
    ensures Pow2(64 * m) == Base(m)
    decreases m
  {
    if m > 0 {
      Pow2Base(m - 1);
      Pow2Add(64, 64 * (m - 1));
      Pow2Values();
      assert 64 * m == 64 + 64 * (m - 1);
    }
  }

  /** m zero limbs below t multiply it by the weight of limb m. */
  lemma {:induction false} ValZeros(m: nat, t: seq<U64>)
    ensures Val(Zeros(m) + t) == Base(m) * Val(t)
    decreases |t|
  {
    var z := Zeros(m) + t;
    if t == [] {
      assert z == Zeros(m);
      ValZero(z);
    } else {
      var n := |t| - 1;
      ValZeros(m, t[..n]);
      assert z[..m + n] == Zeros(m) + t[..n] && z[m + n] == t[n];
      BaseAdd(m, n);
      var bm: int, bn: int, d: int, v: int := Base(m), Base(n), t[n], Val(t[..n]);
      ValSplit(z);
      ValSplit(t);
      assert Val(z) == Val(z[..m + n]) + Base(m + n) * d;
      assert Val(z[..m + n]) == bm * v;
      assert Val(z) == bm * v + (bm * bn) * d;
      assert Val(t) == v + bn * d;
      MulAssoc(bm, bn, d);
      MulDistrib(bm, v, bn * d);
    }
  }

  /** Zero limbs below a normal number whose top limb is not 0 keep it normal. */
  lemma {:induction false} NormalPad(m: nat, t: seq<U64>)
    requires Normal(t) && (m == 0 || t[|t| - 1] != 0)
    ensures Normal(Zeros(m) + t)
  {
    var z := Zeros(m) + t;
    assert z[|z| - 1] == t[|t| - 1];
  }

  /**
   * operator<<= on the limbs, with the bit shift within a limb taken as shift % 64: a zero
   * number and a zero shift stay; otherwise the limbs move up shift / 64 places, shifted
   * by the remaining bits, with a new top limb only when bits reach it.
   */
  function ShiftLimbs(s: seq<U64>, shift: nat): seq<U64>
    requires |s| >= 1
  {
    if (|s| == 1 && s[0] == 0) || shift == 0 then s
    else
      var offset, inner := shift / 64, shift % 64;
      if inner == 0 then Zeros(offset) + s
      else Zeros(offset) + Trimmed(s, inner)
  }

  /** operator<<= multiplies by 2^shift and keeps the representation normal. */
  lemma {:induction false} ShiftLimbsValue(s: seq<U64>, shift: nat)
    requires Normal(s)
    ensures Normal(ShiftLimbs(s, shift)) && Val(ShiftLimbs(s, shift)) == Val(s) * Pow2(shift)
  {
    var v: int := Val(s);
    if |s| == 1 && s[0] == 0 {
      ValOne(0);
    } else if shift == 0 {
      assert Pow2(shift) == 1 && v * Pow2(shift) == v;
    } else {
      var offset, inner := shift / 64, shift % 64;
      assert v >= 1 by {
        if |s| == 1 {
          ValOne(s[0]);
        } else {
          NormalByValue(s);
        }
      }
      Pow2Add(64 * offset, inner);
      assert 64 * offset + inner == shift;
      if inner == 0 {
        ShiftWords(s, offset);
      } else {
        ShiftBits(s, offset, inner);
      }
    }
  }

  /** A shift by whole limbs puts zero limbs below. */
  lemma {:induction false} ShiftWords(s: seq<U64>, offset: nat)
    requires Normal(s) && Val(s) >= 1
    ensures Normal(Zeros(offset) + s) && Val(Zeros(offset) + s) == Val(s) * (Pow2(64 * offset) * Pow2(0))
  {
    Pow2Base(offset);
    ValZeros(offset, s);
    NormalPad(offset, s);
    ScaleBy(Val(s), Pow2(64 * offset), Pow2(0), Base(offset));
  }

  /** v (p q) is b v when p is b and q is one. */
  lemma {:induction false} ScaleBy(v: int, p: int, q: int, b: int)
    requires p == b && q == 1
    ensures v * (p * q) == b * v
  {
    assert p * q == b;
  }

  /** The limbs of s 2^inner, without the top one when no bits reach it. */
  function Trimmed(s: seq<U64>, inner: nat): seq<U64>
    requires 0 < inner < 64
  {
    var r := Shifted(s, inner);
    if r[|s|] != 0 then r else r[..|s|]
  }

  lemma {:induction false} TrimmedValue(s: seq<U64>, inner: nat)
    requires 0 < inner < 64 && Normal(s) && Val(s) >= 1
    ensures var t := Trimmed(s, inner);
            Normal(t) && t[|t| - 1] != 0 && Val(t) == Val(s) * Pow2(inner)
  {
    var r := Shifted(s, inner);
    ShiftedValue(s, inner);
    var n := |s|;
    var t := Trimmed(s, inner);
    var v: int, pi: int := Val(s), Pow2(inner);
    assert Val(t) == v * pi by {
      if r[n] == 0 {
        assert r[..n + 1] == r;
        var b: int := Base(n);
        assert Val(r) == Val(r[..n]) + b * r[n];
        assert b * r[n] == 0;
      }
    }
    MulGe(v, pi);
    if r[n] == 0 && n >= 2 {
      NormalByValue(s);
      NormalByValue(t);
    } else if r[n] == 0 {
      ValOne(t[0]);
    }
  }

  /** A shift by whole limbs and then by 0 < inner < 64 bits. */
  lemma {:induction false} ShiftBits(s: seq<U64>, offset: nat, inner: nat)
    requires 0 < inner < 64 && Normal(s) && Val(s) >= 1
    ensures var t := Zeros(offset) + Trimmed(s, inner);
            Normal(t) && Val(t) == Val(s) * (Pow2(64 * offset) * Pow2(inner))
  {
    var t := Trimmed(s, inner);
    TrimmedValue(s, inner);
    NormalPad(offset, t);
    ValZeros(offset, t);
    Pow2Base(offset);
    var v: int, bo: int, pi: int := Val(s), Base(offset), Pow2(inner);
    MulAssoc(v, bo, pi);
    MulAssoc(bo, v, pi);
    MulComm(bo, v);
  }

  lemma {:induction false} ModStep(x: nat, d: nat)
    ensures ((x % TWO_64) * 10 + d) % TWO_64 == (x * 10 + d) % TWO_64
  {
    var m: int := TWO_64;
    var q: int, r: int := x / m, x % m;
    var y: int := r * 10 + d;
    var qy: int, ry: int := y / m, y % m;
    assert x * 10 + d == (qy + 10 * q) * m + ry by {
      assert x == q * m + r && y == qy * m + ry;
      assert (qy + 10 * q) * m == qy * m + 10 * (q * m);
    }
    DivModUnique(x * 10 + d, m, qy + 10 * q, ry);
  }

  /** ParseUint64: the digits as a decimal number, in wrapping uint64_t arithmetic. */
  method ParseUint64(t: seq<char>) returns (ret: U64)
    requires Digits(t)
    ensures ret == Dec(t) % TWO_64
  {
    ret := 0;
    var i := 0;
    while i < |t|
      invariant 0 <= i <= |t| && Digits(t[..i]) && ret == Dec(t[..i]) % TWO_64
    {
      var d := t[i] as int - '0' as int;
      assert t[..i + 1][..i] == t[..i] && t[..i + 1][i] == t[i];
      assert Digits(t[..i + 1]);
      ModStep(Dec(t[..i]), d);
      ret := (ret * 10 + d) % TWO_64;
      i := i + 1;
    }
    assert t[..i] == t;
  }

  lemma {:induction false} SmallShift(e: nat)
    requires e < 64
    ensures e / 64 == 0 && e % 64 == e
  {
  }

  /** What MultiplyPow5 leaves is nonzero and leaves room for the shift and the sum. */
  lemma {:induction false} ScaleAccount(v: int, p5: int, p2: int, p10: int, w: int, u: int, top: int)
    requires v > 0 && p5 >= 1 && p2 >= 1 && u >= 0
    requires w == v * p5 && p10 == p5 * p2 && v * p10 + u < top
    ensures w > 0 && w * p2 + u < top
  {
    assert v * (p5 * p2) == (v * p5) * p2;
    MulGe(v, p5);
  }

  lemma {:induction false} SmallMod(x: int)
    requires 0 <= x < TWO_64
    ensures x % TWO_64 == x
  {
  }

  lemma {:induction false} MulZero(v: int, p: int)
    requires v == 0
    ensures v * p == 0
  {
  }

  /** Multiplying by 5^n and then by 2^n multiplies by 10^n. */
  lemma {:induction false} AppendAccount(v: int, p5: int, p2: int, p10: int, w: int, x: int)
    requires w == v * p5 && x == w * p2 && p10 == p5 * p2
    ensures x == v * p10
  {
    assert v * (p5 * p2) == (v * p5) * p2;
  }

  /** A normal number below the weight of limb m (m >= 1) has at most m limbs. */
  lemma {:induction false} CountBound(s: seq<U64>, m: nat)
    requires Normal(s) && m >= 1 && Val(s) < Base(m)
    ensures |s| <= m
  {
    if |s| > m {
      NormalByValue(s);
      if |s| - 1 > m {
        BaseStrict(m, |s| - 1);
      }
    }
  }

  /**
   * The chunk d[i..j] of a number below the weight of limb m can be appended: the number
   * read so far times 5^n stays below that weight, and times 10^n plus the chunk is the
   * prefix d[..j].
   */
  lemma {:induction false} ChunkFits(d: seq<char>, i: nat, j: nat, m: nat)
    requires Digits(d) && i < j <= |d| && Dec(d) < Base(m)
    ensures Digits(d[..i]) && Digits(d[i..j]) && Digits(d[..j])
    ensures Dec(d[..i]) * Pow5(j - i) < Base(m)
    ensures Dec(d[..i]) * Pow10(j - i) + Dec(d[i..j]) == Dec(d[..j]) < Base(m + 1)
  {
    ChunkSplit(d, i, j);
    Pow5Below10(Dec(d[..i]), j - i);
    BaseStrict(m, m + 1);
  }

  /** Normal representations are equal exactly when their numbers are. */
  lemma {:induction false} NormalIff(a: seq<U64>, b: seq<U64>)
    requires Normal(a) && Normal(b)
    ensures a == b <==> Val(a) == Val(b)
  {
    if Val(a) == Val(b) {
      NormalUnique(a, b);
    }
  }

  /** A normal representation holds a one-limb value t exactly when it is the single limb t. */
  lemma {:induction false} OneLimbIff(s: seq<U64>, t: U64)
    requires Normal(s)
    ensures (|s| == 1 && s[0] == t) <==> Val(s) == t
  {
    if |s| == 1 {
      assert s == [s[0]];
      ValOne(s[0]);
    } else {
      NormalByValue(s);
      BaseStrict(0, |s| - 1);
      if |s| - 1 > 1 {
        BaseStrict(1, |s| - 1);
      }
    }
  }
}
