/** C# `int` arithmetic as the virtual machine's accumulator uses it: 32-bit two's complement,
    unchecked (wrapping) `+`, `-`, `*`, truncating `/` and `%`, and bitwise `&` and `|` on the two's complement bits. */
module Int32 {

  newtype int32 = x: int | -0x8000_0000 <= x < 0x8000_0000

  const MinValue: int := -0x8000_0000
  const Modulus: int := 0x1_0000_0000

  /** Reduces a mathematical integer to the int32 it wraps around to. */
  function Wrap(x: int): (r: int32)
    ensures MinValue <= x < -MinValue ==> r as int == x
    ensures (r as int - x) % Modulus == 0
  {
    var y := x % Modulus;
    if y >= 0x8000_0000 then (y - Modulus) as int32 else y as int32
  }

  /** Unchecked addition. */
  function Add(a: int32, b: int32): (r: int32)
    ensures MinValue <= a as int + b as int < -MinValue ==> r as int == a as int + b as int
    ensures (r as int - (a as int + b as int)) % Modulus == 0
  {
    Wrap(a as int + b as int)
  }

  /** Unchecked subtraction. */
  function Sub(a: int32, b: int32): (r: int32)
    ensures MinValue <= a as int - b as int < -MinValue ==> r as int == a as int - b as int
    ensures (r as int - (a as int - b as int)) % Modulus == 0
  {
    Wrap(a as int - b as int)
  }

  /** Unchecked multiplication. */
  function Mul(a: int32, b: int32): (r: int32)
    ensures MinValue <= a as int * b as int < -MinValue ==> r as int == a as int * b as int
    ensures (r as int - a as int * b as int) % Modulus == 0
  {
    Wrap(a as int * b as int)
  }

  /** Shifting by a multiple of 2^32 does not change the int32 a value wraps to. */
  lemma WrapShift(x: int, k: int)
    requires -1 <= k <= 1
    ensures Wrap(x + k * Modulus) == Wrap(x)
  {
    assert (x + k * Modulus) % Modulus == x % Modulus;
  }

  /** Unchecked addition is undone by unchecked subtraction, overflow or not. */
  lemma SubAddCancel(a: int32, b: int32)
    ensures Sub(Add(a, b), b) == a
  {
    var s := a as int + b as int;
    if s >= -MinValue {
      assert Add(a, b) as int == s - Modulus;
      WrapShift(a as int, -1);
    } else if s < MinValue {
      assert Add(a, b) as int == s + Modulus;
      WrapShift(a as int, 1);
    }
  }

  function Abs(x: int): nat { if x < 0 then -x else x }

  /** The quotient C# computes: rounded toward zero (Dafny's own `/` is Euclidean). */
  function Quot(a: int, b: int): int
    requires b != 0
  {
    if (a >= 0) == (b >= 0) then Abs(a) / Abs(b) else -(Abs(a) / Abs(b))
  }

  /** The remainder C# computes: it takes the sign of the dividend. */
  function Rem(a: int, b: int): int
    requires b != 0
  {
    a - b * Quot(a, b)
  }

  /** Quotient and remainder of truncating division satisfy the division identity,
      the remainder is smaller than the divisor and never has the opposite sign of the dividend. */
  lemma QuotRemSpec(a: int, b: int)
    requires b != 0
    ensures a == b * Quot(a, b) + Rem(a, b)
    ensures Abs(Rem(a, b)) < Abs(b)
    ensures Rem(a, b) == 0 || (Rem(a, b) < 0 <==> a < 0)
    ensures Abs(Quot(a, b)) <= Abs(a)
  {
    var A: int, B: int := Abs(a), Abs(b);
    var q: int, r: int := A / B, A % B;
    EuclidPositive(A, B);
    if a >= 0 {
      RemCase(a, b, B, q, r, true);
    } else {
      RemCase(a, b, B, q, r, false);
    }
  }

  lemma EuclidPositive(A: int, B: int)
    requires A >= 0 && B > 0
    ensures A == B * (A / B) + A % B && 0 <= A % B < B
    ensures 0 <= A / B <= A
  {
    MulMonotone(B, A / B);
  }

  lemma RemCase(a: int, b: int, B: int, q: int, r: int, nonneg: bool)
    requires b != 0 && B == Abs(b) && nonneg == (a >= 0)
    requires Abs(a) == B * q + r && 0 <= r < B && 0 <= q <= Abs(a)
    requires q == Abs(a) / B
    ensures Rem(a, b) == (if nonneg then r else -r)
  {
    if b > 0 {
      assert B == b;
      if nonneg { assert Quot(a, b) == q; } else { assert Quot(a, b) == -q; }
    } else {
      assert B == -b;
      if nonneg {
        assert Quot(a, b) == -q;
        assert b * -q == B * q;
      } else {
        assert Quot(a, b) == q;
        assert b * q == -(B * q);
      }
    }
  }

  lemma MulMonotone(b: int, q: int)
    requires b >= 1 && q >= 0
    ensures q <= b * q
  {
    assert b * q == q + (b - 1) * q;
  }

  /** The only int32 quotient that does not fit in an int32 is MinValue / -1. */
  lemma QuotInRange(a: int32, b: int32)
    requires b != 0
    requires !(a as int == MinValue && b == -1)
    ensures MinValue <= Quot(a as int, b as int) < -MinValue
  {
    QuotRemSpec(a as int, b as int);
    if a as int == MinValue {
      assert Abs(b as int) >= 2 || b == 1;
      if b != 1 {
        assert Abs(a as int) / Abs(b as int) <= Abs(a as int) / 2;
      }
    }
  }

  /** 2 to the power n. */
  function Pow2(n: nat): (p: nat)
    ensures p >= 1
  {
    if n == 0 then 1 else 2 * Pow2(n - 1)
  }

  lemma {:induction false} Pow2Add(a: nat, b: nat)
    ensures Pow2(a + b) == Pow2(a) * Pow2(b)
    decreases a
  {
    if a > 0 {
      Pow2Add(a - 1, b);
    }
  }

  lemma Pow2Word()
    ensures Pow2(31) == -MinValue && Pow2(32) == Modulus
  {
    assert Pow2(4) == 16;
    Pow2Add(4, 4);
    Pow2Add(8, 8);
    Pow2Add(16, 16);
  }

  /** The two's complement bits of `x`, read as an unsigned 32-bit number: the top bit is set
      exactly for a negative `x`, and wrapping the bits gives `x` back. */
  function Unsigned(x: int32): (u: nat)
    ensures u < Modulus
    ensures x < 0 <==> u >= -MinValue
    ensures Wrap(u) == x
  {
    if x < 0 then x as int + Modulus else x as int
  }

  /** The lowest n bits of `x` and `y`, combined bit by bit with and. */
  function BitAnd(x: nat, y: nat, n: nat): nat
  {
    if n == 0 then 0
    else 2 * BitAnd(x / 2, y / 2, n - 1) + (if x % 2 == 1 && y % 2 == 1 then 1 else 0)
  }

  /** The lowest n bits of `x` and `y`, combined bit by bit with or. */
  function BitOr(x: nat, y: nat, n: nat): nat
  {
    if n == 0 then 0
    else 2 * BitOr(x / 2, y / 2, n - 1) + (if x % 2 == 1 || y % 2 == 1 then 1 else 0)
  }

  /** On n-bit operands, bitwise and stays below both operands, and its top bit is set exactly
      when both operands have it set. */
  lemma {:induction false} BitAndBounds(x: nat, y: nat, n: nat)
    requires x < Pow2(n) && y < Pow2(n)
    ensures BitAnd(x, y, n) <= x && BitAnd(x, y, n) <= y
    ensures n >= 1 ==> (BitAnd(x, y, n) >= Pow2(n - 1) <==> x >= Pow2(n - 1) && y >= Pow2(n - 1))
    decreases n
  {
    if n >= 1 {
      BitAndBounds(x / 2, y / 2, n - 1);
      var r := BitAnd(x / 2, y / 2, n - 1);
      if n >= 2 {
        assert r >= Pow2(n - 2) <==> x / 2 >= Pow2(n - 2) && y / 2 >= Pow2(n - 2);
      }
    }
  }

  /** On n-bit operands, bitwise or stays below 2^n and above both operands, and its top bit
      is set exactly when either operand has it set. */
  lemma {:induction false} BitOrBounds(x: nat, y: nat, n: nat)
    requires x < Pow2(n) && y < Pow2(n)
    ensures x <= BitOr(x, y, n) < Pow2(n) && y <= BitOr(x, y, n)
    ensures n >= 1 ==> (BitOr(x, y, n) >= Pow2(n - 1) <==> x >= Pow2(n - 1) || y >= Pow2(n - 1))
    decreases n
  {
    if n >= 1 {
      BitOrBounds(x / 2, y / 2, n - 1);
      var r := BitOr(x / 2, y / 2, n - 1);
      if n >= 2 {
        assert r >= Pow2(n - 2) <==> x / 2 >= Pow2(n - 2) || y / 2 >= Pow2(n - 2);
      }
    }
  }

  /** Bitwise and of the two's complement representations: negative exactly when both operands
      are, and for a non-negative operand never larger than that operand. */
  function And(a: int32, b: int32): (r: int32)
    ensures r < 0 <==> a < 0 && b < 0
    ensures 0 <= a ==> 0 <= r <= a
    ensures 0 <= b ==> 0 <= r <= b
  {
    Pow2Word();
    BitAndBounds(Unsigned(a), Unsigned(b), 32);
    Wrap(BitAnd(Unsigned(a), Unsigned(b), 32))
  }

  /** Bitwise or of the two's complement representations: negative exactly when either operand
      is, and for non-negative operands at least as large as both. */
  function Or(a: int32, b: int32): (r: int32)
    ensures r < 0 <==> a < 0 || b < 0
    ensures 0 <= a && 0 <= b ==> a <= r && b <= r
  {
    Pow2Word();
    BitOrBounds(Unsigned(a), Unsigned(b), 32);
    Wrap(BitOr(Unsigned(a), Unsigned(b), 32))
  }
}
