/** Java `int` arithmetic: 32-bit two's complement with wrap-around, division
    and remainder truncating toward zero, and shift distances masked to their
    low five bits (sections 15.17 and 15.19 of the Java Language Specification). */
module JavaInt {

  newtype int32 = x: int | -0x8000_0000 <= x < 0x8000_0000

  const MIN_INT: int32 := -0x8000_0000
  const MAX_INT: int32 := 0x7FFF_FFFF

  /** `x` and `y` are congruent modulo 2^32. */
  predicate Congruent(x: int, y: int) {
    (x - y) % 0x1_0000_0000 == 0
  }

  /** The unique 32-bit value congruent to `x` modulo 2^32. */
  function Wrap(x: int): (r: int32)
    ensures Congruent(x, r as int)
  {
    var m := (x + 0x8000_0000) % 0x1_0000_0000;
    assert x + 0x8000_0000 == 0x1_0000_0000 * ((x + 0x8000_0000) / 0x1_0000_0000) + m;
    (m - 0x8000_0000) as int32
  }

  /** A 32-bit value congruent to `x` is the wrapped value of `x`. */
  lemma WrapUnique(x: int, r: int32)
    requires Congruent(x, r as int)
    ensures Wrap(x) == r
  {
    var a := Wrap(x) as int;
    var qa := (x - a) / 0x1_0000_0000;
    var qr := (x - r as int) / 0x1_0000_0000;
    assert x - a == 0x1_0000_0000 * qa;
    assert x - r as int == 0x1_0000_0000 * qr;
    assert a - r as int == 0x1_0000_0000 * (qr - qa);
  }

  lemma WrapInRange(x: int)
    requires MIN_INT as int <= x <= MAX_INT as int
    ensures Wrap(x) as int == x
  {
    WrapUnique(x, x as int32);
  }

  /** Adding a multiple of 2^32 does not change the wrapped value. */
  lemma WrapPeriodic(x: int, k: int)
    ensures Wrap(x + k * 0x1_0000_0000) == Wrap(x)
  {
    var r := Wrap(x);
    var q := (x - r as int) / 0x1_0000_0000;
    assert x - r as int == 0x1_0000_0000 * q;
    assert x + k * 0x1_0000_0000 - r as int == 0x1_0000_0000 * (q + k);
    WrapUnique(x + k * 0x1_0000_0000, r);
  }

  function Add(a: int32, b: int32): (r: int32)
    ensures Congruent(a as int + b as int, r as int)
  {
    Wrap(a as int + b as int)
  }

  function Sub(a: int32, b: int32): (r: int32)
    ensures Congruent(a as int - b as int, r as int)
  {
    Wrap(a as int - b as int)
  }

  function Mul(a: int32, b: int32): (r: int32)
    ensures Congruent(a as int * b as int, r as int)
  {
    Wrap(a as int * b as int)
  }

  function Abs(x: int): nat {
    if x < 0 then -x else x
  }

  /** Mathematical quotient rounded toward zero. */
  function TruncQuot(x: int, y: int): int
    requires y != 0
  {
    if (x >= 0) == (y > 0) then Abs(x) / Abs(y) else -(Abs(x) / Abs(y))
  }

  /** Multiplication by a natural number is monotone. */
  lemma MulLe(a: int, b: int, c: nat)
    requires a <= b
    ensures a * c <= b * c
  {
    var d: nat := b - a;
    assert b * c == a * c + d * c;
  }

  /** A quotient rounded toward zero is no larger than the dividend, and at
      most half of it for a divisor of magnitude two or more. */
  lemma QuotBound(x: nat, y: nat)
    requires y >= 1
    ensures x / y <= x
    ensures y >= 2 ==> 2 * (x / y) <= x
  {
    var q := x / y;
    assert x == y * q + x % y;
    MulLe(1, y, q);
    if y >= 2 {
      MulLe(2, y, q);
    }
  }

  /** Java `/` on ints: the quotient rounded toward zero, which fits in 32
      bits except for MIN_INT / -1, where it wraps back to MIN_INT. */
  function Div(a: int32, b: int32): (r: int32)
    requires b != 0
    ensures Congruent(TruncQuot(a as int, b as int), r as int)
    ensures !(a == MIN_INT && b == -1) ==> r as int == TruncQuot(a as int, b as int)
  {
    var q := TruncQuot(a as int, b as int);
    assert !(a == MIN_INT && b == -1) ==> Wrap(q) as int == q by {
      if !(a == MIN_INT && b == -1) {
        QuotBound(Abs(a as int), Abs(b as int));
        WrapInRange(q);
      }
    }
    Wrap(q)
  }

  lemma RemainderFacts(x: int, y: int)
    requires y != 0
    ensures var r := x - y * TruncQuot(x, y);
            Abs(r) < Abs(y) && (x >= 0 ==> r >= 0) && (x < 0 ==> r <= 0)
  {
    var q := Abs(x) / Abs(y);
    var m := Abs(x) % Abs(y);
    assert Abs(x) == Abs(y) * q + m;
    if x >= 0 && y > 0 {
      assert x - y * q == m;
    } else if x >= 0 && y < 0 {
      assert y * q == -(Abs(y) * q);
    } else if x < 0 && y > 0 {
      assert x + y * q == -m;
    } else {
      assert y * q == -(Abs(y) * q);
      assert x - y * q == -m;
    }
  }

  /** Java `%` on ints: the remainder left by truncating division. */
  function Rem(a: int32, b: int32): (r: int32)
    requires b != 0
    ensures Abs(r as int) < Abs(b as int)
    ensures a >= 0 ==> r >= 0
    ensures a < 0 ==> r <= 0
  {
    RemainderFacts(a as int, b as int);
    (a as int - b as int * TruncQuot(a as int, b as int)) as int32
  }

  lemma MulCongruent(d: int, q: int, b: int)
    requires Congruent(q, d)
    ensures Congruent(q * b, d * b)
  {
    var k := (q - d) / 0x1_0000_0000;
    assert q - d == 0x1_0000_0000 * k;
    assert q * b - d * b == (q - d) * b;
    assert (q - d) * b == 0x1_0000_0000 * (k * b);
  }

  lemma CongruentTrans(x: int, y: int, z: int)
    requires Congruent(x, y) && Congruent(y, z)
    ensures Congruent(x, z)
  {
    var k1 := (x - y) / 0x1_0000_0000;
    var k2 := (y - z) / 0x1_0000_0000;
    assert x - y == 0x1_0000_0000 * k1;
    assert y - z == 0x1_0000_0000 * k2;
    assert x - z == 0x1_0000_0000 * (k1 + k2);
  }

  /** Java's guarantee `(a / b) * b + a % b == a`, which holds even when the
      division overflows. */
  lemma DivRemIdentity(a: int32, b: int32)
    requires b != 0
    ensures Add(Mul(Div(a, b), b), Rem(a, b)) == a
  {
    var q := TruncQuot(a as int, b as int);
    var d := Div(a, b);
    var r := Rem(a, b) as int;
    var p := Mul(d, b) as int;
    var s := Add(Mul(d, b), Rem(a, b)) as int;
    assert a as int == q * b as int + r;
    MulCongruent(d as int, q, b as int);
    CongruentTrans(q * b as int, d as int * b as int, p);
    assert Congruent(q * b as int + r, p + r);
    CongruentTrans(a as int, p + r, s);
    WrapUnique(a as int, s as int32);
    WrapInRange(a as int);
  }

  lemma DivOverflow()
    ensures Div(MIN_INT, -1) == MIN_INT
  {
    assert TruncQuot(MIN_INT as int, -1) == 0x8000_0000;
    WrapPeriodic(-0x8000_0000, 1);
    WrapInRange(-0x8000_0000);
  }

  /** The shift distance Java uses for an int shift: the low five bits of the
      right operand. */
  function ShiftDistance(s: int32): (k: nat)
    ensures k < 32
    ensures (s as int - k) % 32 == 0
  {
    s as int % 32
  }

  /** `2^k`. */
  function Pow2(k: nat): (p: nat)
    ensures p >= 1
  {
    if k == 0 then 1 else 2 * Pow2(k - 1)
  }

  /** `x * 2^k`, by repeated doubling. */
  function Double(x: int, k: nat): (r: int)
    ensures r == x * Pow2(k)
  {
    if k == 0 then x else 2 * Double(x, k - 1)
  }

  /** Euclidean division is determined by any quotient and remainder that
      fit the defining equation. */
  /** A nonzero multiple of `d` is at least `d` away from zero. */
  lemma MulAwayFromZero(d: nat, k: int)
    ensures k >= 1 ==> d * k >= d
    ensures k <= -1 ==> d * k <= -(d as int)
  {
    if k >= 1 {
      MulLe(1, k, d);
    } else if k <= -1 {
      MulLe(k, -1, d);
    }
  }

  lemma DivUnique(x: int, d: int, q: int, m: int)
    requires d > 0 && x == d * q + m && 0 <= m < d
    ensures x / d == q
  {
    var q' := x / d;
    var m' := x % d;
    assert x == d * q' + m';
    assert d * (q - q') == m' - m;
    MulAwayFromZero(d, q - q');
  }

  /** Halving the floor of `x / p` is the floor of `x / 2p`. */
  lemma DivDiv(x: int, p: int)
    requires p > 0
    ensures (x / p) / 2 == x / (2 * p)
  {
    var q := x / p;
    var m := x % p;
    var q2 := q / 2;
    var m2 := q % 2;
    assert x == p * q + m;
    assert q == 2 * q2 + m2;
    assert p * q == 2 * p * q2 + p * m2;
    assert 0 <= p * m2 + m < 2 * p;
    DivUnique(x, 2 * p, q2, p * m2 + m);
  }

  /** `x / 2^k` rounded toward negative infinity, by repeated halving. */
  function Halve(x: int, k: nat): (r: int)
    ensures r == x / Pow2(k)
    ensures x >= 0 ==> 0 <= r <= x
    ensures x < 0 ==> x <= r < 0
  {
    if k == 0 then x
    else
      DivDiv(x, Pow2(k - 1));
      Halve(x, k - 1) / 2
  }

  /** Java `<<`: multiply by 2 to the low five bits of the distance, keep
      the low 32 bits. */
  function Shl(a: int32, s: int32): (r: int32)
    ensures Congruent(a as int * Pow2(ShiftDistance(s)), r as int)
    ensures ShiftDistance(s) == 0 ==> r == a
  {
    assert ShiftDistance(s) == 0 ==> Wrap(a as int) == a by {
      WrapInRange(a as int);
    }
    Wrap(Double(a as int, ShiftDistance(s)))
  }

  /** Java `>>`: arithmetic shift, copying the sign bit in from the left,
      which divides by 2 to the distance and rounds toward negative
      infinity. */
  function Shr(a: int32, s: int32): (r: int32)
    ensures r as int == a as int / Pow2(ShiftDistance(s))
    ensures a >= 0 ==> r >= 0
    ensures a < 0 ==> r < 0
  {
    Halve(a as int, ShiftDistance(s)) as int32
  }

  /** The value of the 32 bits of `a` read as an unsigned number. */
  function Unsigned(a: int32): (u: nat)
    ensures u < 0x1_0000_0000
    ensures Congruent(u, a as int)
  {
    if a < 0 then a as int + 0x1_0000_0000 else a as int
  }

  /** Java `>>>`: logical shift, filling with zeros from the left. A shift by
      a nonzero distance divides the unsigned reading of the bits. */
  function Ushr(a: int32, s: int32): (r: int32)
    ensures ShiftDistance(s) == 0 ==> r == a
    ensures ShiftDistance(s) > 0 ==> r as int == Unsigned(a) / Pow2(ShiftDistance(s))
  {
    var k := ShiftDistance(s);
    assert Wrap(Halve(Unsigned(a), k)) as int == if k == 0 then a as int else Halve(Unsigned(a), k) by {
      if k == 0 {
        WrapUnique(Unsigned(a), a);
      } else {
        HalveBelow(Unsigned(a), k);
        WrapInRange(Halve(Unsigned(a), k));
      }
    }
    Wrap(Halve(Unsigned(a), k))
  }

  /** Shifting by 32 (or any multiple of it) shifts by nothing. */
  lemma ShiftByWidth(a: int32, s: int32)
    requires s as int % 32 == 0
    ensures Shl(a, s) == a && Shr(a, s) == a && Ushr(a, s) == a
  {
    WrapInRange(a as int);
    if a < 0 {
      WrapPeriodic(a as int, 1);
    }
  }

  /** The two right shifts agree on non-negative values; a logical shift by a
      non-zero distance is never negative. */
  lemma RightShifts(a: int32, s: int32)
    ensures a >= 0 ==> Ushr(a, s) == Shr(a, s)
    ensures ShiftDistance(s) > 0 ==> Ushr(a, s) >= 0
  {
    if a >= 0 {
      WrapInRange(Halve(a as int, ShiftDistance(s)));
    }
    var k := ShiftDistance(s);
    if k > 0 {
      HalveBelow(Unsigned(a), k);
      WrapInRange(Halve(Unsigned(a), k));
    }
  }

  lemma {:induction false} HalveBelow(u: nat, k: nat)
    requires u < 0x1_0000_0000 && k > 0
    ensures Halve(u, k) < 0x8000_0000
  {
    if k > 1 {
      HalveBelow(u, k - 1);
    }
  }

  function ToBits(a: int32): bv32 {
    Unsigned(a) as bv32
  }

  function FromBits(b: bv32): int32 {
    if b as int >= 0x8000_0000 then (b as int - 0x1_0000_0000) as int32 else (b as int) as int32
  }

  /** Every bit pattern is the two's-complement encoding of the value read from it. */
  lemma FromBitsInjective(b: bv32)
    ensures ToBits(FromBits(b)) == b
  {
    assert Unsigned(FromBits(b)) == b as int;
  }

  /** Java `&`: the bits of the result are the and of the operands' bits. */
  function And(a: int32, b: int32): (r: int32)
    ensures ToBits(r) == ToBits(a) & ToBits(b)
  {
    FromBitsInjective(ToBits(a) & ToBits(b));
    FromBits(ToBits(a) & ToBits(b))
  }

  /** Java `|`: the bits of the result are the or of the operands' bits. */
  function Or(a: int32, b: int32): (r: int32)
    ensures ToBits(r) == ToBits(a) | ToBits(b)
  {
    FromBitsInjective(ToBits(a) | ToBits(b));
    FromBits(ToBits(a) | ToBits(b))
  }

  /** Java `^`: the bits of the result are the exclusive or of the operands'
      bits. */
  function Xor(a: int32, b: int32): (r: int32)
    ensures ToBits(r) == ToBits(a) ^ ToBits(b)
  {
    FromBitsInjective(ToBits(a) ^ ToBits(b));
    FromBits(ToBits(a) ^ ToBits(b))
  }

}
