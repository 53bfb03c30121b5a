/** The hash read in unsigned 64-bit words: rotations exchange the two parts of a word, shifts drop
    its low part, and the tail is a number in base 256. With that the hash of a given key can be
    worked out, and the values that the driver's own tests expect are proved. */
module Murmur3Words {
  import opened Bits
  import opened Bytes
  import opened Murmur3

  /** The unsigned reading of a register. */
  function Unsigned(x: int): (u: nat)
    ensures u < TWO64
  {
    x % TWO64
  }

  // ------------------------------------------------------------------------ the operations

  function MulW(u: nat, c: nat): nat { u * c % TWO64 }
  function AddW(u: nat, v: nat): nat { (u + v) % TWO64 }

  /** The low part of the word goes up by `r` places, and the high part comes round below it. */
  function RotW(u: nat, r: nat): nat
    requires 0 < r < 64
  {
    NaturalParts(u, Pow2(64 - r), Pow2(r));
    u % Pow2(64 - r) * Pow2(r) + u / Pow2(64 - r)
  }

  lemma NaturalParts(u: nat, q: nat, p: nat)
    requires q > 0
    ensures u % q * p >= 0 && u / q >= 0
  {
  }

  /** The high 31 bits are folded into the low ones. */
  function FoldW(u: nat): (w: nat)
    requires u < TWO64
    ensures w < TWO64
  {
    Pow2Values();
    BitwiseRange(Xor, u, u / 0x2_0000_0000, 64);
    Bitwise(Xor, u, u / 0x2_0000_0000)
  }

  function XorW(u: nat, v: nat): (w: nat)
    requires u < TWO64 && v < TWO64
    ensures w < TWO64
  {
    Pow2Values();
    BitwiseRange(Xor, u, v, 64);
    Bitwise(Xor, u, v)
  }

  lemma UnsignedWrap(x: int)
    ensures Unsigned(Wrap(x)) == Unsigned(x)
  {
    WrapAgrees(x);
  }

  lemma UnsignedMul(x: int, c: int)
    ensures Unsigned(Mul64(x, c)) == MulW(Unsigned(x), Unsigned(c))
  {
    hide Mul64, Wrap;
    UnsignedWrap(x * c);
    assert Eq64(x, Unsigned(x));
    MulAgrees(x, Unsigned(x), c);
    MulAgrees(c, Unsigned(c), Unsigned(x));
    UnsignedProduct(x, c);
  }

  lemma UnsignedProduct(x: int, c: int)
    ensures Unsigned(Mul64(x, c)) == Unsigned(Unsigned(x) * Unsigned(c))
  {
    var q, p := x / TWO64, c / TWO64;
    var u, v := x % TWO64, c % TWO64;
    UnsignedWrap(x * c);
    assert x * c == (q * TWO64 + u) * (p * TWO64 + v) == (q * p * TWO64 + q * v + p * u) * TWO64 + u * v;
    ModUnique(x * c, TWO64, q * p * TWO64 + q * v + p * u + u * v / TWO64, u * v % TWO64);
  }

  lemma UnsignedAdd(x: int, y: int)
    ensures Unsigned(Add64(x, y)) == AddW(Unsigned(x), Unsigned(y))
  {
    hide Wrap;
    UnsignedWrap(x + y);
    ModSum(x, y, TWO64);
  }

  lemma ModSum(x: int, y: int, m: nat)
    requires m > 0
    ensures (x + y) % m == (x % m + y % m) % m
  {
    var q, p, s := x / m, y / m, x % m + y % m;
    Distribute(q, p, m);
    Distribute(q + p, s / m, m);
    ModUnique(x + y, m, q + p + s / m, s % m);
  }

  lemma UnsignedXor(x: int, y: int)
    ensures Unsigned(Xor64(x, y)) == XorW(Unsigned(x), Unsigned(y))
  {
    hide Bitwise, Wrap, Pow2;
    Pow2Values();
    UnsignedWrap(Bitwise(Xor, x, y));
    BitwiseCongruent(Xor, x, y, Unsigned(x), Unsigned(y), 64);
    BitwiseRange(Xor, Unsigned(x), Unsigned(y), 64);
  }

  /** The logical shift drops the low bits of the unsigned word. */
  lemma UnsignedShift(x: int, n: nat)
    ensures Unsigned(LogicalShr64(x, n)) == Unsigned(x) / Pow2(n)
  {
    hide Pow2;
    UnsignedWrap(Shr(x % TWO64, n));
    QuotientSmall(x % TWO64, Pow2(n));
  }

  lemma QuotientSmall(u: nat, p: nat)
    requires p >= 1 && u < TWO64
    ensures 0 <= u / p < TWO64
  {
    assert u / p <= u by { MulMonotone(1, p, u / p); }
  }

  /** Rotation by the two shifts and the `or` exchanges the parts of the unsigned word. */
  lemma UnsignedRotl(x: int, r: nat)
    requires 0 < r < 64
    ensures Unsigned(Rotl64(x, r)) == RotW(Unsigned(x), r)
  {
    hide Bitwise, Wrap, Pow2, Shl64, LogicalShr64;
    var u, p, q := Unsigned(x), Pow2(r), Pow2(64 - r);
    var up, down := u % q * p, u / q;
    TwoPowers(r);
    UnsignedWrap(Bitwise(Or, Shl64(x, r), LogicalShr64(x, 64 - r)));
    UnsignedShift(x, 64 - r);
    ShiftedUp(x, r);
    QuotientBounds(u, q, p);
    PartsFit(u % q, q, down, p);
    PartsFit(u % q, q, 0, p);
    QuotientSmall(u, q);
    OrAgrees(Shl64(x, r), LogicalShr64(x, 64 - r), up, down);
    OrOfParts(u % q, down, r);
  }

  lemma TwoPowers(r: nat)
    requires 0 < r < 64
    ensures Pow2(64 - r) * Pow2(r) == TWO64 == Pow2(r) * Pow2(64 - r)
  {
    hide Pow2;
    Pow2Values();
    Pow2Add(64 - r, r);
  }

  lemma OrAgrees(x: int, y: int, u: nat, v: nat)
    requires Unsigned(x) == u && Unsigned(y) == v
    ensures Unsigned(Bitwise(Or, x, y)) == Unsigned(Bitwise(Or, u, v))
  {
    hide Bitwise, Pow2;
    Pow2Values();
    BitwiseCongruent(Or, x, y, u, v, 64);
  }

  lemma OrOfParts(a: int, b: nat, r: nat)
    requires b < Pow2(r)
    ensures Bitwise(Or, a * Pow2(r), b) == a * Pow2(r) + b
  {
    hide Bitwise, Pow2;
    BitwiseSplit(Or, a, 0, 0, b, r);
    WithZero(a);
    WithZero(b);
  }

  lemma PartsFit(a: nat, q: nat, b: nat, p: nat)
    requires a < q && b < p
    ensures 0 <= a * p + b < q * p
  {
    MulMonotone(a + 1, q, p);
    Distribute(a, 1, p);
  }

  lemma ShiftedUp(x: int, r: nat)
    requires 0 < r < 64
    ensures Unsigned(Shl64(x, r)) == Unsigned(x) % Pow2(64 - r) * Pow2(r)
  {
    hide Pow2, Wrap;
    var u, p, q := Unsigned(x), Pow2(r), Pow2(64 - r);
    Pow2Values();
    Pow2Add(64 - r, r);
    UnsignedWrap(x * p);
    var m := x / TWO64 * p + u / q;
    assert x * p == x / TWO64 * TWO64 * p + u * p;
    assert u * p == (u / q * q + u % q) * p == u / q * TWO64 + u % q * p by {
      Distribute(u / q * q, u % q, p);
      Reassociate(u / q, q, p);
    }
    assert x / TWO64 * TWO64 * p == x / TWO64 * p * TWO64;
    Distribute(x / TWO64 * p, u / q, TWO64);
    PartsFit(u % q, q, 0, p);
    ModUnique(x * p, TWO64, m, u % q * p);
  }

  // ---------------------------------------------------------------------------- the machine

  function ScrambleW(u: nat, before: nat, r: nat, after: nat): nat
    requires 0 < r < 64
  {
    MulW(RotW(MulW(u, before), r), after)
  }

  function FeedW(h: nat, k: nat, r: nat, other: nat, c: nat): nat
    requires 0 < r < 64 && h < TWO64 && k < TWO64
  {
    AddW(MulW(AddW(RotW(XorW(h, k), r), other), 5), c)
  }

  function FmixW(u: nat): nat
    requires u < TWO64
  {
    FoldW(MulW(FoldW(MulW(FoldW(u), F1)), F2))
  }

  lemma UnsignedScramble(k: int, before: int, r: nat, after: int)
    requires 0 < r < 64
    ensures Unsigned(Scramble64(k, before, r, after)) == ScrambleW(Unsigned(k), Unsigned(before), r, Unsigned(after))
  {
    hide Mul64, Rotl64, MulW, RotW;
    UnsignedMul(k, before);
    UnsignedRotl(Mul64(k, before), r);
    UnsignedMul(Rotl64(Mul64(k, before), r), after);
  }

  lemma UnsignedFeed(h: int, k: int, r: nat, other: int, c: nat)
    requires 0 < r < 64 && c < TWO64
    ensures Unsigned(Feed64(h, k, r, other, c)) == FeedW(Unsigned(h), Unsigned(k), r, Unsigned(other), c)
  {
    hide Mul64, Rotl64, MulW, RotW, Xor64, XorW, Add64, AddW;
    UnsignedXor(h, k);
    var x := Rotl64(Xor64(h, k), r);
    UnsignedRotl(Xor64(h, k), r);
    UnsignedAdd(x, other);
    UnsignedMul(Add64(x, other), 5);
    UnsignedAdd(Mul64(Add64(x, other), 5), c);
  }

  lemma UnsignedFold(k: int)
    ensures Unsigned(Xor64(k, LogicalShr64(k, 33))) == FoldW(Unsigned(k))
  {
    hide Xor64, LogicalShr64;
    Pow2Of33();
    UnsignedShift(k, 33);
    UnsignedXor(k, LogicalShr64(k, 33));
  }

  lemma Pow2Of33()
    ensures Pow2(33) == 0x2_0000_0000
  {
    hide Pow2;
    Pow2Values();
    Pow2Double(31);
    Pow2Double(32);
  }

  lemma UnsignedFmix(k: int)
    ensures Unsigned(Fmix64(k)) == FmixW(Unsigned(k))
  {
    hide Xor64, LogicalShr64, Mul64, MulW, FoldW;
    UnsignedFold(k);
    var a := Xor64(k, LogicalShr64(k, 33));
    UnsignedMul(a, F1);
    UnsignedFold(Mul64(a, F1));
    var b := Xor64(Mul64(a, F1), LogicalShr64(Mul64(a, F1), 33));
    UnsignedMul(b, F2);
    UnsignedFold(Mul64(b, F2));
  }

  /** Finalisation, in unsigned words. */
  function FinishW(h1: nat, h2: nat, len: nat): nat
    requires h1 < TWO64 && h2 < TWO64 && len < TWO64
  {
    var a, b := XorW(h1, len), XorW(h2, len);
    AddW(FmixW(AddW(a, b)), FmixW(AddW(b, AddW(a, b))))
  }

  lemma UnsignedFinish(s: Registers, len: nat)
    requires len < TWO64
    ensures Unsigned(Finish64(s, len)) == FinishW(Unsigned(s.h1), Unsigned(s.h2), len)
  {
    hide Xor64, XorW, Add64, AddW, Fmix64, FmixW;
    var a, b := Xor64(s.h1, len), Xor64(s.h2, len);
    UnsignedXor(s.h1, len);
    UnsignedXor(s.h2, len);
    UnsignedAdd(a, b);
    UnsignedAdd(b, Add64(a, b));
    UnsignedFmix(Add64(a, b));
    UnsignedFmix(Add64(b, Add64(a, b)));
    UnsignedAdd(Fmix64(Add64(a, b)), Fmix64(Add64(b, Add64(a, b))));
  }

  // ------------------------------------------------------------------------------- the tail

  /** The bytes as a number in base 256, each byte from 128 on complementing all that is above it. */
  function TailValue(bs: seq<Byte>): int {
    if bs == [] then 0
    else bs[0] + 256 * (if bs[0] < 128 then TailValue(bs[1..]) else -1 - TailValue(bs[1..]))
  }

  /** Without bytes from 128 on it is the little-endian word. */
  lemma {:induction false} PlainTail(bs: seq<Byte>)
    requires forall i :: 0 <= i < |bs| ==> bs[i] < 128
    ensures TailValue(bs) == LittleEndian(bs)
  {
    if bs != [] { PlainTail(bs[1..]); }
  }

  /** How many of the bytes are 128 or more. */
  function Negatives(bs: seq<Byte>): nat {
    if bs == [] then 0 else Negatives(bs[1..]) + if bs[0] < 128 then 0 else 1
  }

  /** The digit in base 256 that p is the place of. */
  function DigitOf(v: int, p: nat): int
    requires p > 0
  {
    v / p % 256
  }

  /** Byte j of the tail's word is byte j of the tail, complemented if an odd number of the bytes
      before it are 128 or more. */
  lemma {:induction false} TailByte(bs: seq<Byte>, j: nat)
    requires j < |bs|
    ensures TailValue(bs) / Pow2(8 * j) % 256 == if Negatives(bs[..j]) % 2 == 0 then bs[j] else 255 - bs[j]
  {
    hide Pow2, TailValue, Negatives;
    TailDigitIs(bs, j);
  }

  lemma {:induction false} TailDigitIs(bs: seq<Byte>, j: nat)
    requires j < |bs|
    ensures DigitOf(TailValue(bs), Pow2(8 * j)) == if Negatives(bs[..j]) % 2 == 0 then bs[j] else 255 - bs[j]
    decreases j
  {
    hide Pow2, TailValue, Negatives, DigitOf;
    NegativesStep(bs, j);
    if j == 0 {
      FirstDigit(bs);
    } else {
      TailDigitIs(bs[1..], j - 1);
      NextDigit(bs, j);
    }
  }

  lemma FirstDigit(bs: seq<Byte>)
    requires bs != []
    ensures DigitOf(TailValue(bs), Pow2(8 * 0)) == bs[0]
  {
    hide Pow2, TailValue;
    TailDigit(bs);
    Pow2Zero();
  }

  lemma NextDigit(bs: seq<Byte>, j: nat)
    requires 0 < j < |bs|
    ensures var rest := DigitOf(TailValue(bs[1..]), Pow2(8 * (j - 1)));
            DigitOf(TailValue(bs), Pow2(8 * j)) == if bs[0] < 128 then rest else 255 - rest
  {
    hide Pow2, TailValue;
    TailDigit(bs);
    ByteUp(j - 1);
    DivTwice(TailValue(bs), 256, Pow2(8 * (j - 1)));
    ComplementByte(TailValue(bs[1..]), Pow2(8 * (j - 1)));
  }

  lemma ByteUp(j: nat)
    ensures Pow2(8 * (j + 1)) == 256 * Pow2(8 * j)
  {
    hide Pow2;
    Pow2Of8();
    Pow2Add(8, 8 * j);
    assert 8 + 8 * j == 8 * (j + 1);
  }

  lemma TailDigit(bs: seq<Byte>)
    requires bs != []
    ensures TailValue(bs) % 256 == bs[0]
    ensures TailValue(bs) / 256 == if bs[0] < 128 then TailValue(bs[1..]) else -1 - TailValue(bs[1..])
  {
  }

  lemma NegativesStep(bs: seq<Byte>, j: nat)
    requires j < |bs|
    ensures Negatives(bs[..j]) == if j == 0 then 0 else Negatives(bs[1..][..j - 1]) + if bs[0] < 128 then 0 else 1
  {
    if j > 0 { assert bs[..j][1..] == bs[1..][..j - 1]; }
  }

  lemma Pow2Zero()
    ensures Pow2(0) == 1
  {
  }

  lemma ComplementByte(x: int, p: nat)
    requires p > 0
    ensures (-1 - x) / p % 256 == 255 - x / p % 256
  {
    var q, r := x / p, x % p;
    assert -1 - x == (-1 - q) * p + (p - 1 - r);
    ModUnique(-1 - x, p, -1 - q, p - 1 - r);
  }

  /** What the fall-through switch gathers from the eight bytes at `base` is that number, as a
      signed 64-bit word. */
  lemma TailWordIs(tail: seq<Byte>, base: nat)
    requires base <= |tail| && |tail| <= base + 8
    ensures TailWord64(tail, base, base) == Wrap(TailValue(tail[base..]))
  {
    hide TailWord64, TailValue, Wrap;
    TailWordFrom(tail, base, base, |tail|);
    assert tail[base..|tail|] == tail[base..];
  }

  /** The first eight bytes of a longer tail. */
  lemma FirstWordIs(tail: seq<Byte>)
    requires |tail| >= 8
    ensures TailWord64(tail, 0, 0) == Wrap(TailValue(tail[..8]))
  {
    hide TailWord64, TailValue, Wrap;
    TailWordFrom(tail, 0, 0, 8);
    assert tail[0..8] == tail[..8];
  }

  lemma TailWordFrom(tail: seq<Byte>, base: nat, i: nat, end: nat)
    requires base == i <= end <= |tail| && end <= base + 8 && (end == |tail| || end == base + 8)
    ensures TailWord64(tail, base, i) == Wrap(TailValue(tail[i..end]))
  {
    hide TailWord64, TailValue, Wrap, Pow2, Eq64, IsInt64;
    var v := TailValue(tail[i..end]);
    TailWordCongruent(tail, base, i, end);
    TailWordIsInt64(tail, base, i);
    Pow2Zero();
    assert Pow2(8 * (i - base)) * v == v;
    WrapAgrees(v);
    EqSymmetric(Wrap(v), v);
    Transitive(TailWord64(tail, base, i), v, Wrap(v));
    SameInt64(TailWord64(tail, base, i), Wrap(v));
  }

  lemma TailWordIsInt64(tail: seq<Byte>, base: nat, i: nat)
    requires base <= i
    ensures IsInt64(TailWord64(tail, base, i))
  {
  }

  lemma {:induction false} TailWordCongruent(tail: seq<Byte>, base: nat, i: nat, end: nat)
    requires base <= i <= end <= |tail| && end <= base + 8 && (end == |tail| || end == base + 8)
    ensures Eq64(TailWord64(tail, base, i), Pow2(8 * (i - base)) * TailValue(tail[i..end]))
    decreases end - i
  {
    hide Bitwise, Pow2, Xor64, Shl64, Eq64;
    if i == end {
      assert tail[i..end] == [];
      SelfAgrees(0);
    } else {
      var b, rest, p := tail[i], TailValue(tail[i + 1..end]), Pow2(8 * (i - base));
      assert tail[i..end][1..] == tail[i + 1..end];
      TailWordCongruent(tail, base, i + 1, end);
      Pow2Of8();
      Pow2Add(8, 8 * (i - base));
      assert 8 + 8 * (i - base) == 8 * (i + 1 - base);
      ShlAgrees(SignedByte(b), 8 * (i - base));
      EqSymmetric(TailWord64(tail, base, i + 1), 256 * p * rest);
      EqSymmetric(Shl64(SignedByte(b), 8 * (i - base)), SignedByte(b) * p);
      XorAgrees(256 * p * rest, SignedByte(b) * p, TailWord64(tail, base, i + 1),
        Shl64(SignedByte(b), 8 * (i - base)));
      XorOfByte(b, rest, 8 * (i - base));
      EqSymmetric(p * TailValue(tail[i..end]), TailWord64(tail, base, i));
    }
  }

  lemma ShlAgrees(x: int, n: nat)
    ensures Eq64(Shl64(x, n), x * Pow2(n))
  {
    WrapAgrees(x * Pow2(n));
  }

  lemma EqSymmetric(x: int, y: int)
    requires Eq64(x, y)
    ensures Eq64(y, x)
  {
  }

  /** One sign-extended byte under what is above it. */
  lemma XorOfByte(b: Byte, rest: int, n: nat)
    ensures Bitwise(Xor, 256 * Pow2(n) * rest, SignedByte(b) * Pow2(n)) ==
            Pow2(n) * (b + 256 * (if b < 128 then rest else -1 - rest))
  {
    hide Bitwise, Pow2;
    var p := Pow2(n);
    BitwiseSplit(Xor, 256 * rest, SignedByte(b), 0, 0, n);
    NothingBitwise(Xor);
    assert 256 * p * rest == 256 * rest * p;
    Pow2Of8();
    BitwiseSplit(Xor, rest, if b < 128 then 0 else -1, 0, b, 8);
    assert SignedByte(b) == (if b < 128 then 0 else -1) * 256 + b;
    WithZero(b);
    WithZero(rest);
    XorOnes(rest);
    var m := if b < 128 then rest else -1 - rest;
    assert Bitwise(Xor, 256 * rest, SignedByte(b)) == m * 256 + b;
    assert (m * 256 + b) * p == p * (b + 256 * m);
  }
}
