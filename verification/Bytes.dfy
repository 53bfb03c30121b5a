/** Bytes and positional number formats. */
module Bytes {
  import opened Bits

  type Byte = b: int | 0 <= b < 256

  type ByteString = seq<Byte>

  function Reverse(s: ByteString): (r: ByteString)
    ensures |r| == |s|
  {
    if s == [] then [] else Reverse(s[1..]) + [s[0]]
  }

  /** The value of the bytes as an unsigned number, most significant byte first. */
  function BigEndian(s: ByteString): (n: nat)
    ensures n < Pow2(8 * |s|)
  {
    if s == [] then 0
    else
      Pow2Byte(|s| - 1);
      256 * BigEndian(s[..|s| - 1]) + s[|s| - 1]
  }

  /** The last n base-256 digits of v, least significant first. */
  function LowDigits(v: nat, n: nat): (s: ByteString)
    ensures |s| == n
  {
    if n == 0 then [] else [v % 256] + LowDigits(v / 256, n - 1)
  }

  /** The last n base-256 digits of v, most significant first: struct's '>' formats. */
  function Digits(v: nat, n: nat): (s: ByteString)
    ensures |s| == n
  {
    if n == 0 then [] else Digits(v / 256, n - 1) + [v % 256]
  }

  lemma Pow2Byte(n: nat)
    ensures Pow2(8 * (n + 1)) == 256 * Pow2(8 * n)
  {
    Pow2Add(8, 8 * n);
    assert Pow2(8) == 256;
  }

  lemma {:induction false} DigitsValue(v: nat, n: nat)
    requires v < Pow2(8 * n)
    ensures BigEndian(Digits(v, n)) == v
  {
    if n > 0 {
      Pow2Byte(n - 1);
      DigitsValue(v / 256, n - 1);
      assert Digits(v, n)[..n - 1] == Digits(v / 256, n - 1);
    }
  }

  /** n bytes hold a number in one way only. */
  lemma {:induction false} DigitsUnique(s: ByteString)
    ensures Digits(BigEndian(s), |s|) == s
  {
    if s != [] {
      var front, b := s[..|s| - 1], s[|s| - 1];
      DigitsUnique(front);
      assert BigEndian(s) / 256 == BigEndian(front) && BigEndian(s) % 256 == b;
      assert s == front + [b];
    }
  }

  lemma {:induction false} ReverseLowDigits(v: nat, n: nat)
    ensures Reverse(LowDigits(v, n)) == Digits(v, n)
  {
    if n > 0 {
      ReverseLowDigits(v / 256, n - 1);
      assert LowDigits(v, n)[1..] == LowDigits(v / 256, n - 1);
    }
  }

  lemma {:induction false} ReverseAppend(s: ByteString, t: ByteString)
    ensures Reverse(s + t) == Reverse(t) + Reverse(s)
  {
    if s == [] {
      assert s + t == t;
    } else {
      ReverseAppend(s[1..], t);
      assert (s + t)[1..] == s[1..] + t;
    }
  }

  /** One more digit on the most significant side. */
  lemma {:induction false} LowDigitsAppend(v: nat, n: nat)
    ensures LowDigits(v, n + 1) == LowDigits(v, n) + [(v / Pow2(8 * n)) % 256]
  {
    if n > 0 {
      LowDigitsAppend(v / 256, n - 1);
      Pow2Byte(n - 1);
      DivTwice(v, 256, Pow2(8 * (n - 1)));
    } else {
      assert LowDigits(v / 256, 0) == [];
      assert v / Pow2(8 * 0) == v;
    }
  }

  lemma DivTwice(v: int, a: nat, b: nat)
    requires a > 0 && b > 0
    ensures a * b > 0 && (v / a) / b == v / (a * b)
  {
    var q, r := v / a, v % a;
    var p, t := q / b, q % b;
    Regroup(p, b, t, a, r);
    ModUnique(v, a * b, p, t * a + r);
  }

  /** Byte i of n, counted from the most significant. */
  lemma {:induction false} DigitAt(v: nat, n: nat, i: nat)
    requires i < n
    ensures Digits(v, n)[i] == v / Pow2(8 * (n - 1 - i)) % 256
    decreases n
  {
    hide Pow2;
    if i == n - 1 {
      Pow2OfNone();
    } else {
      DigitAt(v / 256, n - 1, i);
      Pow2Byte(n - 2 - i);
      DivTwice(v, 256, Pow2(8 * (n - 2 - i)));
    }
  }

  lemma Pow2OfNone()
    ensures Pow2(8 * 0) == 1
  {
  }

  /** The bytes of a big-endian number are its digits in base 256. */
  lemma BigEndianAt(s: ByteString, i: nat)
    requires i < |s|
    ensures BigEndian(s) / Pow2(8 * (|s| - 1 - i)) % 256 == s[i]
  {
    DigitsUnique(s);
    DigitAt(BigEndian(s), |s|, i);
  }

  /** A byte as a plain number. */
  function Plain(b: Byte): int { b }

  lemma BigEndianShort(s: ByteString)
    ensures |s| == 1 ==> BigEndian(s) == s[0]
    ensures |s| == 2 ==> BigEndian(s) == Plain(s[0]) * 256 + Plain(s[1])
    ensures |s| == 4 ==>
              BigEndian(s) ==
              Plain(s[0]) * 0x100_0000 + Plain(s[1]) * 0x1_0000 + Plain(s[2]) * 256 + Plain(s[3])
  {
    if |s| >= 1 { assert |s| == 1 ==> s[..0] == []; }
    if |s| == 2 { BigEndianShort(s[..1]); }
    if |s| == 4 {
      BigEndianShort(s[..2]);
      assert s[..3][..2] == s[..2];
      assert BigEndian(s[..3]) == 256 * BigEndian(s[..2]) + s[2];
    }
  }

  /** Python's `int.bit_length` of a number that is not negative. */
  function BitLength(n: nat): nat {
    if n == 0 then 0 else 1 + BitLength(n / 2)
  }

  lemma {:induction false} BitLengthBounds(n: nat)
    ensures n == 0 <==> BitLength(n) == 0
    ensures n < Pow2(BitLength(n))
    ensures n > 0 ==> Pow2(BitLength(n) - 1) <= n
  {
    if n > 0 {
      BitLengthBounds(n / 2);
    }
  }

  lemma {:induction false} Pow2Monotone(m: nat, n: nat)
    requires m <= n
    ensures Pow2(m) <= Pow2(n)
    ensures m < n ==> Pow2(m) < Pow2(n)
    decreases n - m
  {
    if m < n {
      Pow2Monotone(m + 1, n);
    }
  }

  /** bit_length is the number of bits needed. */
  lemma BitLengthFits(n: nat, b: nat)
    ensures n < Pow2(b) <==> BitLength(n) <= b
  {
    BitLengthBounds(n);
    if BitLength(n) <= b {
      Pow2Monotone(BitLength(n), b);
    } else {
      Pow2Monotone(b, BitLength(n) - 1);
    }
  }
}
