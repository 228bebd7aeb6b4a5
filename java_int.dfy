/**
 * Java's 32-bit `int` arithmetic, written out over Dafny's unbounded integers.
 *
 * Addition, subtraction and multiplication wrap modulo 2^32 (sections 15.17.1
 * and 15.18.2 of the Java Language Specification); division and remainder
 * round toward zero, the one overflowing quotient `MIN_VALUE / -1` wrapping to
 * `MIN_VALUE` (sections 15.17.2 and 15.17.3); a shift uses only the low five
 * bits of its distance, `<<` is multiplication by 2^s, `>>` is division by 2^s
 * rounded down and `>>>` shifts the unsigned bit pattern (section 15.19); `&`,
 * `|` and `^` combine the 32 two's-complement bits one by one (section 15.22.1).
 */
module JavaInt {

  const MinValue: int := -0x8000_0000
  const MaxValue: int := 0x7fff_ffff

  /** The values of a Java `int`. */
  type Int32 = x: int | -0x8000_0000 <= x <= 0x7fff_ffff

  /** The `int` whose bit pattern is the low 32 bits of `x`. */
  function Wrap(x: int): (r: Int32)
    ensures r % 0x1_0000_0000 == x % 0x1_0000_0000
  {
    var m := x % 0x1_0000_0000;
    if m > 0x7fff_ffff then m - 0x1_0000_0000 else m
  }

  /** The bit pattern of `a` read as an unsigned number. */
  function Unsigned(a: Int32): (u: int)
    ensures 0 <= u < 0x1_0000_0000
    ensures u % 0x1_0000_0000 == a % 0x1_0000_0000
  {
    a % 0x1_0000_0000
  }

  function Abs(x: int): nat
  {
    if x < 0 then -x else x
  }

  /** 2 to the power `n`. */
  function Pow2(n: nat): (p: nat)
    ensures p >= 1
  {
    if n == 0 then 1 else 2 * Pow2(n - 1)
  }

  /** Mathematical quotient rounded toward zero (no wrap-around yet). */
  function TruncDiv(a: int, b: int): int
    requires b != 0
  {
    var q := Abs(a) / Abs(b);
    if (a < 0) != (b < 0) then -q else q
  }

  function Add(a: Int32, b: Int32): Int32 { Wrap(a + b) }
  function Sub(a: Int32, b: Int32): Int32 { Wrap(a - b) }
  function Mul(a: Int32, b: Int32): Int32 { Wrap(a * b) }

  /** `a / b`: rounds toward zero; `MinValue / -1` overflows back to `MinValue`. */
  function Div(a: Int32, b: Int32): Int32
    requires b != 0
  {
    Wrap(TruncDiv(a, b))
  }

  /** `a % b`: the remainder that goes with the truncating quotient. */
  function Rem(a: Int32, b: Int32): (r: Int32)
    requires b != 0
    ensures r == a - b * TruncDiv(a, b)
  {
    RemBounds(a, b);
    a - b * TruncDiv(a, b)
  }

  /** The shift distance: the low five bits of `s`, i.e. `s & 31`. */
  function Distance(s: Int32): (d: nat)
    ensures d < 32
  {
    s % 32
  }

  /** `x` doubled `d` times, keeping 32 bits after each step. */
  function DoubleTimes(x: Int32, d: nat): Int32
  {
    if d == 0 then x else Wrap(2 * DoubleTimes(x, d - 1))
  }

  /** `x` halved `d` times, each time rounding toward negative infinity. */
  function HalveTimes(x: int, d: nat): (r: int)
    ensures 0 <= x ==> 0 <= r <= x
    ensures x < 0 ==> x <= r < 0
  {
    if d == 0 then x else HalveTimes(x, d - 1) / 2
  }

  function Shl(a: Int32, s: Int32): Int32 { DoubleTimes(a, Distance(s)) }

  /** Arithmetic right shift: the sign bit is shifted in. */
  function Shr(a: Int32, s: Int32): Int32 { HalveTimes(a, Distance(s)) }

  /** Logical right shift: the unsigned bit pattern shifted, zeros coming in. */
  function Ushr(a: Int32, s: Int32): Int32 { Wrap(HalveTimes(Unsigned(a), Distance(s))) }

  /** The low `n` bits of `x` and `y` combined bit by bit with `op`. */
  function Bitwise(op: (bool, bool) -> bool, x: int, y: int, n: nat): (r: int)
    ensures 0 <= r < Pow2(n)
    decreases n
  {
    if n == 0 then 0
    else
      (if op(x % 2 == 1, y % 2 == 1) then 1 else 0) + 2 * Bitwise(op, x / 2, y / 2, n - 1)
  }

  function BitAnd(p: bool, q: bool): bool { p && q }
  function BitOr(p: bool, q: bool): bool { p || q }
  function BitXor(p: bool, q: bool): bool { p != q }

  function And(a: Int32, b: Int32): Int32 { Wrap(Bitwise(BitAnd, Unsigned(a), Unsigned(b), 32)) }
  function Or(a: Int32, b: Int32): Int32 { Wrap(Bitwise(BitOr, Unsigned(a), Unsigned(b), 32)) }
  function Xor(a: Int32, b: Int32): Int32 { Wrap(Bitwise(BitXor, Unsigned(a), Unsigned(b), 32)) }

  // ---------------------------------------------------------------- helpers

  lemma MulSigns(x: int, y: int)
    ensures x * (-y) == -(x * y) && (-x) * y == -(x * y) && (-x) * (-y) == x * y
  {
  }

  lemma RemBounds(a: int, b: int)
    requires b != 0
    ensures Abs(a - b * TruncDiv(a, b)) < Abs(b)
    ensures a - b * TruncDiv(a, b) == 0 || ((a - b * TruncDiv(a, b) < 0) == (a < 0))
  {
    var aa: int, bb: int := Abs(a), Abs(b);
    var q: int, r: int := aa / bb, aa % bb;
    var p: int := bb * q;
    assert aa == p + r && 0 <= r < bb;
    var t := TruncDiv(a, b);
    assert b * t == (if a < 0 then -p else p) by {
      MulSigns(bb, q);
      if b > 0 {
        assert b == bb;
      } else {
        assert b == -bb;
      }
    }
  }

  /** Numbers with the same low 32 bits differ by a multiple of 2^32. */
  lemma SameResidue(x: int, y: int)
    requires x % 0x1_0000_0000 == y % 0x1_0000_0000
    ensures x - y == 0x1_0000_0000 * (x / 0x1_0000_0000 - y / 0x1_0000_0000)
  {
  }

  /** Multiplying preserves "same low 32 bits". */
  lemma {:induction false} MulResidue(x: int, y: int, b: int)
    requires x % 0x1_0000_0000 == y % 0x1_0000_0000
    ensures (x * b) % 0x1_0000_0000 == (y * b) % 0x1_0000_0000
  {
    var k := x / 0x1_0000_0000 - y / 0x1_0000_0000;
    SameResidue(x, y);
    assert x * b == y * b + 0x1_0000_0000 * (k * b) by {
      assert x == y + 0x1_0000_0000 * k;
      assert x * b == (y + 0x1_0000_0000 * k) * b;
    }
  }

  /** Adding preserves "same low 32 bits". */
  lemma AddResidue(x: int, y: int, c: int)
    requires x % 0x1_0000_0000 == y % 0x1_0000_0000
    ensures (x + c) % 0x1_0000_0000 == (y + c) % 0x1_0000_0000
  {
    SameResidue(x, y);
  }

  /** Multiplying by a positive factor does not make a natural number smaller. */
  lemma {:induction false} MulGrows(q: nat, m: nat)
    requires m >= 1
    ensures q * m >= q
  {
    if m > 1 {
      MulGrows(q, m - 1);
      assert q * m == q * (m - 1) + q;
    }
  }

  /** Multiplication by a natural number is monotone. */
  lemma {:induction false} MulMonotone(a: int, b: int, p: nat)
    requires a <= b
    ensures a * p <= b * p
  {
    if p > 0 {
      MulMonotone(a, b, p - 1);
      assert a * p == a * (p - 1) + a;
      assert b * p == b * (p - 1) + b;
    }
  }

  /** `n / m` with the bounds Euclidean division promises, for natural numbers. */
  lemma QuotientBounds(n: nat, m: nat)
    requires m >= 1
    ensures (n / m) * m <= n < (n / m + 1) * m
    ensures 0 <= n / m <= n
  {
    var q := n / m;
    assert n == q * m + n % m;
    assert (q + 1) * m == q * m + m;
    if q < 0 {
      MulMonotone(q, -1, m);
    }
    MulGrows(q, m);
  }

  /** 2^(m + n) is 2^m times 2^n. */
  lemma {:induction false} Pow2Add(m: nat, n: nat)
    ensures Pow2(m + n) == Pow2(m) * Pow2(n)
  {
    if m > 0 {
      Pow2Add(m - 1, n);
      assert Pow2(m + n) == 2 * Pow2(m - 1 + n);
    }
  }

  lemma Pow2Of32()
    ensures Pow2(32) == 0x1_0000_0000
  {
    assert Pow2(4) == 16;
    Pow2Add(4, 4);
    Pow2Add(8, 8);
    Pow2Add(16, 16);
  }

  // ---------------------------------------------------------------- properties

  /** An `int` is determined by its low 32 bits: `Wrap` is the only wrap-around. */
  lemma {:induction false} WrapUnique(x: int, y: int)
    requires MinValue <= y <= MaxValue
    requires y % 0x1_0000_0000 == x % 0x1_0000_0000
    ensures Wrap(x) == y
  {
    SameResidue(Wrap(x), y);
  }

  /**
   * Quotient and remainder fit together even across the overflow:
   * `(a / b) * b + a % b == a` (section 15.17.3).
   */
  lemma {:induction false} DivRemIdentity(a: Int32, b: Int32)
    requires b != 0
    ensures Add(Mul(Div(a, b), b), Rem(a, b)) == a
  {
    var q := TruncDiv(a, b);
    var r := Rem(a, b);
    // Div(a, b) agrees with q in the low 32 bits, so its product with b does.
    MulResidue(Div(a, b), q, b);
    assert Mul(Div(a, b), b) % 0x1_0000_0000 == (q * b) % 0x1_0000_0000;
    AddResidue(Mul(Div(a, b), b), q * b, r);
    assert q * b + r == a;
    WrapUnique(Mul(Div(a, b), b) + r, a);
  }

  /** The remainder is smaller than the divisor and has the sign of the dividend. */
  lemma RemSign(a: Int32, b: Int32)
    requires b != 0
    ensures Abs(Rem(a, b)) < Abs(b)
    ensures Rem(a, b) == 0 || ((Rem(a, b) < 0) == (a < 0))
  {
    RemBounds(a, b);
  }

  /** Apart from the one overflow, `/` is the quotient rounded toward zero. */
  lemma {:induction false} DivTruncates(a: Int32, b: Int32)
    requires b != 0 && !(a == MinValue && b == -1)
    ensures Abs(Div(a, b)) * Abs(b) <= Abs(a) < (Abs(Div(a, b)) + 1) * Abs(b)
    ensures Div(a, b) == 0 || ((Div(a, b) < 0) == ((a < 0) != (b < 0)))
  {
    var q := Abs(a) / Abs(b);
    QuotientBounds(Abs(a), Abs(b));
    if q == 0x8000_0000 && (a < 0) == (b < 0) {
      // |a| = 2^31 forces a = MinValue, then b < 0 and |b| = 1: the excluded case.
      assert false;
    }
    var t := TruncDiv(a, b);
    assert Abs(t) == q;
    WrapUnique(t, t);
    assert Div(a, b) == t;
  }

  /** `<<` is multiplication by 2^d, wrapped to 32 bits. */
  lemma {:induction false} ShlMultiplies(a: Int32, d: nat)
    ensures DoubleTimes(a, d) == Wrap(a * Pow2(d))
  {
    if d > 0 {
      var prev: int, p: int := DoubleTimes(a, d - 1), Pow2(d - 1);
      var m: int := a * p;
      var whole: int := a * Pow2(d);
      assert whole == m * 2 by {
        assert Pow2(d) == 2 * p;
        assert a * (2 * p) == (a * p) * 2;
      }
      assert (prev * 2) % 0x1_0000_0000 == whole % 0x1_0000_0000 by {
        ShlMultiplies(a, d - 1);
        MulResidue(prev, m, 2);
      }
      assert DoubleTimes(a, d) % 0x1_0000_0000 == (prev * 2) % 0x1_0000_0000;
      WrapUnique(whole, DoubleTimes(a, d));
    }
  }

  /** One halving step: if `h` lies in `[h*p, (h+1)*p)`, so does `h / 2` scaled by `2*p`. */
  lemma HalveStep(h: int, p: nat)
    ensures (h / 2) * (2 * p) <= h * p
    ensures (h + 1) * p <= (h / 2 + 1) * (2 * p)
  {
    var r := h / 2;
    assert (h / 2) * (2 * p) == (2 * r) * p;
    MulMonotone(2 * r, h, p);
    assert (r + 1) * (2 * p) == (2 * r + 2) * p;
    MulMonotone(h + 1, 2 * r + 2, p);
  }

  /** `>>` is division by 2^d rounded toward negative infinity. */
  lemma {:induction false} ShrFloor(x: int, d: nat)
    ensures HalveTimes(x, d) * Pow2(d) <= x < (HalveTimes(x, d) + 1) * Pow2(d)
  {
    if d > 0 {
      ShrFloor(x, d - 1);
      HalveStep(HalveTimes(x, d - 1), Pow2(d - 1));
    }
  }

  /** On a non-negative operand `>>>` and `>>` agree. */
  lemma UshrOfNonNegative(a: Int32, s: Int32)
    requires a >= 0
    ensures Ushr(a, s) == Shr(a, s)
  {
    assert Unsigned(a) == a;
  }

  /** Each halving of a natural number below 2^32 leaves it below 2^31. */
  lemma {:induction false} HalvingsShrink(u: int, d: nat)
    requires 0 <= u < 0x1_0000_0000 && d >= 1
    ensures 0 <= HalveTimes(u, d) <= MaxValue
  {
    if d > 1 {
      HalvingsShrink(u, d - 1);
    }
  }

  /** A logical shift by a non-zero distance always gives a non-negative result. */
  lemma UshrNonNegative(a: Int32, s: Int32)
    requires Distance(s) != 0
    ensures 0 <= Ushr(a, s)
  {
    HalvingsShrink(Unsigned(a), Distance(s));
  }

  /** Only the low five bits of the distance matter. */
  lemma ShiftDistanceLowBits(a: Int32, s: Int32, t: Int32)
    requires s % 32 == t % 32
    ensures Shl(a, s) == Shl(a, t) && Shr(a, s) == Shr(a, t) && Ushr(a, s) == Ushr(a, t)
  {
  }

  /** Combining with all ones under `&` changes no bit. */
  lemma {:induction false} AndOnes(x: int, n: nat)
    requires 0 <= x < Pow2(n)
    ensures Bitwise(BitAnd, x, Pow2(n) - 1, n) == x
    decreases n
  {
    if n > 0 {
      var p := Pow2(n - 1);
      assert Pow2(n) - 1 == 2 * p - 1;
      assert (2 * p - 1) % 2 == 1 && (2 * p - 1) / 2 == p - 1;
      AndOnes(x / 2, n - 1);
      assert Bitwise(BitAnd, x, Pow2(n) - 1, n) == (if x % 2 == 1 then 1 else 0) + 2 * (x / 2);
    }
  }

  /** Combining with zero under `|` or `^` changes no bit. */
  lemma {:induction false} OrXorZero(x: int, n: nat)
    requires 0 <= x < Pow2(n)
    ensures Bitwise(BitOr, x, 0, n) == x
    ensures Bitwise(BitXor, x, 0, n) == x
    decreases n
  {
    if n > 0 {
      OrXorZero(x / 2, n - 1);
    }
  }

  /** `x ^ x` clears every bit. */
  lemma {:induction false} XorSelf(x: int, n: nat)
    ensures Bitwise(BitXor, x, x, n) == 0
    decreases n
  {
    if n > 0 {
      XorSelf(x / 2, n - 1);
    }
  }

  /** All ones is the unit of `&`, zero the unit of `|` and `^`, and `a ^ a` is zero. */
  lemma BitwiseUnits(a: Int32)
    ensures And(a, -1) == a
    ensures Or(a, 0) == a
    ensures Xor(a, 0) == a
    ensures Xor(a, a) == 0
  {
    Pow2Of32();
    assert Unsigned(-1) == Pow2(32) - 1 && Unsigned(0) == 0;
    AndOnes(Unsigned(a), 32);
    OrXorZero(Unsigned(a), 32);
    XorSelf(Unsigned(a), 32);
    WrapUnique(Unsigned(a), a);
  }

  /** Entries of the Java arithmetic table at the edges of the range. */
  lemma ArithmeticTable()
    ensures Add(MaxValue, 1) == MinValue
    ensures Sub(MinValue, 1) == MaxValue
    ensures Mul(0x10000, 0x10000) == 0
    ensures Div(MinValue, -1) == MinValue && Rem(MinValue, -1) == 0
    ensures Div(-7, 2) == -3 && Rem(-7, 2) == -1
    ensures Div(7, -2) == -3 && Rem(7, -2) == 1
  {
  }

  /** Entries of the Java shift table: distances are taken modulo 32. */
  lemma ShiftTable()
    ensures Shl(1, 33) == 2 && Shl(-1, 1) == -2
    ensures Shr(-8, 1) == -4 && Shr(-1, 33) == -1
    ensures Ushr(-8, 32) == -8
  {
    assert Distance(33) == 1 && Distance(32) == 0;
  }
}
