/** Two's-complement bit operations on unbounded integers, as Python's `&`, `|`,
    `^`, `<<` and `>>` compute them, and the facts that let them be compared with
    arithmetic modulo a power of two. */
module Bits {

  function Pow2(n: nat): (p: nat)
    ensures p >= 1
  {
    if n == 0 then 1 else 2 * Pow2(n - 1)
  }

  const TWO63 := 0x8000_0000_0000_0000
  const TWO64 := 0x1_0000_0000_0000_0000
  const INT64_MIN := -TWO63
  const INT64_MAX := TWO63 - 1

  predicate IsInt64(x: int) { INT64_MIN <= x <= INT64_MAX }

  lemma Pow2Double(n: nat)
    ensures Pow2(n + 1) == 2 * Pow2(n)
  {
  }

  lemma Pow2Of8()
    ensures Pow2(1) == 2 && Pow2(8) == 256
  {
    assert Pow2(4) == 16;
  }

  lemma Pow2Values()
    ensures Pow2(1) == 2 && Pow2(31) == 0x8000_0000 && Pow2(63) == TWO63 && Pow2(64) == TWO64
  {
    hide Pow2;
    Pow2Of8();
    Pow2Add(8, 8);
    Pow2Add(16, 16);
    Pow2Add(32, 32);
    Pow2Double(31);
    Pow2Double(63);
  }

  datatype Op = And | Or | Xor

  /** The operation on a single pair of bits. */
  function OnBits(op: Op, x: int, y: int): int
    requires 0 <= x <= 1 && 0 <= y <= 1
  {
    match op
    case And => if x == 1 && y == 1 then 1 else 0
    case Or => if x == 1 || y == 1 then 1 else 0
    case Xor => if x != y then 1 else 0
  }

  function Magnitude(a: int): nat {
    if a >= 0 then a else -a - 1
  }

  /** A bitwise operation on two infinite two's-complement strings: 0 and -1 are the
      strings of all zeros and all ones. */
  function Bitwise(op: Op, a: int, b: int): int
    decreases Magnitude(a) + Magnitude(b)
  {
    if (a == 0 || a == -1) && (b == 0 || b == -1) then
      -OnBits(op, -a, -b)
    else
      2 * Bitwise(op, a / 2, b / 2) + OnBits(op, a % 2, b % 2)
  }

  /** `x << n` and `x >> n`: the right shift rounds toward minus infinity. */
  function Shl(x: int, n: nat): int { x * Pow2(n) }
  function Shr(x: int, n: nat): int { x / Pow2(n) }

  /** The last n bits of a. */
  function Low(a: int, n: nat): (r: int)
    ensures 0 <= r < Pow2(n)
    decreases n
  {
    if n == 0 then 0 else a % 2 + 2 * Low(a / 2, n - 1)
  }

  lemma BitwiseUnfold(op: Op, a: int, b: int)
    ensures Bitwise(op, a, b) == 2 * Bitwise(op, a / 2, b / 2) + OnBits(op, a % 2, b % 2)
  {
  }

  lemma HalveBitwise(op: Op, a: int, b: int)
    ensures Bitwise(op, a, b) / 2 == Bitwise(op, a / 2, b / 2)
    ensures Bitwise(op, a, b) % 2 == OnBits(op, a % 2, b % 2)
  {
    BitwiseUnfold(op, a, b);
  }

  /** The remainder modulo 2^n is the last n bits. */
  lemma {:induction false} LowIsMod(a: int, n: nat)
    ensures Low(a, n) == a % Pow2(n)
    decreases n
  {
    if n > 0 {
      LowIsMod(a / 2, n - 1);
      HalfMod(a, Pow2(n - 1));
    }
  }

  lemma HalfMod(a: int, p: nat)
    requires p > 0
    ensures a % (2 * p) == a % 2 + 2 * ((a / 2) % p)
  {
    var q, r := (a / 2) / p, (a / 2) % p;
    Reassociate(q, p, 2);
    ModUnique(a, 2 * p, q, 2 * r + a % 2);
  }

  /** Quotient and remainder are determined by the division equation. */
  lemma ModUnique(a: int, m: nat, q: int, r: int)
    requires m > 0 && a == q * m + r && 0 <= r < m
    ensures a / m == q && a % m == r
  {
    MultipleBounds(q - a / m, m);
  }

  /** No multiple of m lies strictly between 0 and m or between -m and 0. */
  lemma MultipleBounds(k: int, m: nat)
    ensures k >= 1 ==> k * m >= m
    ensures k <= -1 ==> k * m <= -(m as int)
  {
    if k >= 1 {
      assert (k - 1) * m >= 0;
    } else if k <= -1 {
      assert (-k - 1) * m >= 0;
    }
  }

  /** The last n bits of a bitwise result depend only on the last n bits of the operands. */
  lemma {:induction false} BitwiseLow(op: Op, a: int, b: int, a': int, b': int, n: nat)
    requires Low(a, n) == Low(a', n) && Low(b, n) == Low(b', n)
    ensures Low(Bitwise(op, a, b), n) == Low(Bitwise(op, a', b'), n)
    decreases n
  {
    hide Bitwise, Pow2;
    if n > 0 {
      HalveBitwise(op, a, b);
      HalveBitwise(op, a', b');
      BitwiseLow(op, a / 2, b / 2, a' / 2, b' / 2, n - 1);
    }
  }

  lemma BitwiseCongruent(op: Op, a: int, b: int, a': int, b': int, n: nat)
    requires a % Pow2(n) == a' % Pow2(n) && b % Pow2(n) == b' % Pow2(n)
    ensures Bitwise(op, a, b) % Pow2(n) == Bitwise(op, a', b') % Pow2(n)
  {
    LowIsMod(a, n); LowIsMod(b, n); LowIsMod(a', n); LowIsMod(b', n);
    BitwiseLow(op, a, b, a', b', n);
    LowIsMod(Bitwise(op, a, b), n);
    LowIsMod(Bitwise(op, a', b'), n);
  }

  /** Masking with n ones keeps the last n bits. */
  lemma {:induction false} AndMask(a: int, n: nat)
    ensures Bitwise(And, a, Pow2(n) - 1) == a % Pow2(n)
  {
    LowIsMod(a, n);
    AndMaskLow(a, n);
  }

  lemma {:induction false} AndMaskLow(a: int, n: nat)
    ensures Bitwise(And, a, Pow2(n) - 1) == Low(a, n)
    decreases n
  {
    BitwiseUnfold(And, a, Pow2(n) - 1);
    if n == 0 {
      AndZero(a);
    } else {
      AndMaskLow(a / 2, n - 1);
      assert (Pow2(n) - 1) / 2 == Pow2(n - 1) - 1 && (Pow2(n) - 1) % 2 == 1;
    }
  }

  lemma {:induction false} AndZero(a: int)
    ensures Bitwise(And, a, 0) == 0
    decreases Magnitude(a)
  {
    if a != 0 && a != -1 { AndZero(a / 2); }
  }

  /** High and low bits do not interact. */
  lemma {:induction false} BitwiseSplit(op: Op, a: int, b: int, x: nat, y: nat, n: nat)
    requires x < Pow2(n) && y < Pow2(n)
    ensures Bitwise(op, a * Pow2(n) + x, b * Pow2(n) + y) == Bitwise(op, a, b) * Pow2(n) + Bitwise(op, x, y)
    decreases n
  {
    hide Bitwise;
    if n == 0 {
      NothingBitwise(op);
    } else {
      var p := Pow2(n - 1);
      HalfSum(a, p, x);
      HalfSum(b, p, y);
      BitwiseSplit(op, a, b, x / 2, y / 2, n - 1);
      BitwiseUnfold(op, a * Pow2(n) + x, b * Pow2(n) + y);
      BitwiseUnfold(op, x, y);
      Reassociate(2, Bitwise(op, a, b), p);
    }
  }

  lemma HalfSum(a: int, p: nat, x: nat)
    ensures (a * (2 * p) + x) / 2 == a * p + x / 2 && (a * (2 * p) + x) % 2 == x % 2
  {
    assert a * (2 * p) == 2 * (a * p);
  }

  lemma NothingBitwise(op: Op)
    ensures Bitwise(op, 0, 0) == 0
  {
  }

  lemma {:induction false} BitwiseRange(op: Op, a: nat, b: nat, n: nat)
    requires a < Pow2(n) && b < Pow2(n)
    ensures 0 <= Bitwise(op, a, b) < Pow2(n)
    decreases n
  {
    hide Bitwise;
    if n == 0 {
      NothingBitwise(op);
    } else {
      BitwiseRange(op, a / 2, b / 2, n - 1);
      BitwiseUnfold(op, a, b);
    }
  }

  /** Nothing to set, nothing to flip. */
  lemma {:induction false} WithZero(a: int)
    ensures Bitwise(Or, a, 0) == a && Bitwise(Xor, a, 0) == a && Bitwise(Or, 0, a) == a && Bitwise(Xor, 0, a) == a
    decreases Magnitude(a)
  {
    if a != 0 && a != -1 { WithZero(a / 2); }
  }

  /** Flipping every bit. */
  lemma {:induction false} XorOnes(a: int)
    ensures Bitwise(Xor, a, -1) == -1 - a
    decreases Magnitude(a)
  {
    if a != 0 && a != -1 { XorOnes(a / 2); }
  }

  lemma Pow2Add(m: nat, n: nat)
    ensures Pow2(m + n) == Pow2(m) * Pow2(n)
    decreases m
  {
    if m > 0 { Pow2Add(m - 1, n); }
  }

  /** A two-digit number in mixed radix. */
  lemma Regroup(p: int, b: nat, t: nat, a: nat, r: nat)
    requires t < b && r < a
    ensures a * b > 0
    ensures (p * b + t) * a + r == p * (a * b) + (t * a + r)
    ensures 0 <= t * a + r < a * b
  {
    Distribute(p * b, t, a);
    Reassociate(p, b, a);
    MulMonotone(t + 1, b, a);
    Distribute(t, 1, a);
    MulMonotone(0, t, a);
  }

  lemma Distribute(x: int, y: int, a: int)
    ensures (x + y) * a == x * a + y * a
  {
  }

  lemma Reassociate(p: int, b: int, a: int)
    ensures (p * b) * a == p * (a * b)
  {
  }

  lemma QuotientNatural(v: nat, p: nat)
    requires p > 0
    ensures v / p >= 0
  {
  }

  lemma QuotientBounds(v: nat, p: nat, m: nat)
    requires p > 0
    ensures v < m * p <==> v / p < m
  {
    var q := v / p;
    if q < m { MulMonotone(q + 1, m, p); } else { MulMonotone(m, q, p); }
  }

  lemma MulMonotone(a: nat, b: nat, p: nat)
    requires a <= b
    ensures a * p <= b * p
  {
    assert (b - a) * p >= 0;
  }
}
