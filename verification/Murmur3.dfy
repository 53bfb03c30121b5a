/** The partitioner hash. `cassandra/murmur3.py` computes it on unbounded integers and
    truncates once at the end; `cassandra/cmurmur3.c` computes it in 64-bit registers that
    wrap at every operation. Both are modelled here, and the Python method is proved to
    return what the register machine returns, for every key. */
module Murmur3 {
  import opened Bits
  import opened Bytes

  const C1 := -8663945395140668459
  const C2 := 0x4cf5ad432745937f

  /** The constants as the C version writes them. */
  const BIG_C1 := 0x87c37b91114253d5
  const BIG_C2 := 0x4cf5ad432745937f

  const F1 := 0xff51afd7ed558ccd
  const F2 := 0xc4ceb9fe1a85ec53

  ghost predicate Eq64(x: int, y: int) { x % TWO64 == y % TWO64 }

  /** A byte read as C's `int8_t`, or as struct format 'b'. */
  function SignedByte(b: Byte): int { if b < 128 then b else b - 256 }

  function LittleEndian(bs: seq<Byte>): (n: nat) {
    if bs == [] then 0 else bs[0] + 256 * LittleEndian(bs[1..])
  }

  /** The i-th aligned 8-byte little-endian word of the key: struct format '<q', or a
      load through `const int64_t *` on a little-endian machine. */
  function Word(data: seq<Byte>, i: nat): int
    requires 8 * i + 8 <= |data|
  {
    Wrap(LittleEndian(data[8 * i..8 * i + 8]))
  }

  function Tail(data: seq<Byte>): (tail: seq<Byte>)
    ensures |tail| == |data| % 16
  {
    data[|data| - |data| % 16..]
  }

  // ---------------------------------------------------------------- 64-bit registers

  /** Conversion to int64_t: keep the last 64 bits, read them as two's complement. */
  function Wrap(x: int): (r: int)
    ensures IsInt64(r)
  {
    (x + TWO63) % TWO64 - TWO63
  }

  function Add64(x: int, y: int): int { Wrap(x + y) }
  function Mul64(x: int, y: int): int { Wrap(x * y) }
  function Xor64(x: int, y: int): int { Wrap(Bitwise(Xor, x, y)) }
  function Shl64(x: int, n: nat): int { Wrap(Shl(x, n)) }
  /** `((uint64_t) x) >> n`: the logical shift. */
  function LogicalShr64(x: int, n: nat): int { Wrap(Shr(x % TWO64, n)) }

  function Rotl64(x: int, r: nat): int
    requires 0 < r < 64
  {
    Wrap(Bitwise(Or, Shl64(x, r), LogicalShr64(x, 64 - r)))
  }

  function Fmix64(k: int): int {
    var k := Xor64(k, LogicalShr64(k, 33));
    var k := Mul64(k, F1);
    var k := Xor64(k, LogicalShr64(k, 33));
    var k := Mul64(k, F2);
    Xor64(k, LogicalShr64(k, 33))
  }

  function Scramble64(k: int, before: int, r: nat, after: int): int
    requires 0 < r < 64
  {
    Mul64(Rotl64(Mul64(k, before), r), after)
  }

  function Feed64(h: int, k: int, r: nat, other: int, c: int): int
    requires 0 < r < 64
  {
    Add64(Mul64(Add64(Rotl64(Xor64(h, k), r), other), 5), c)
  }

  datatype Registers = Registers(h1: int, h2: int)

  /** One turn of the block loop of `MurmurHash3_x64_128`. */
  function Block64(s: Registers, k1: int, k2: int): Registers {
    var h1 := Feed64(s.h1, Scramble64(k1, C1, 31, C2), 27, s.h2, 0x52dce729);
    var h2 := Feed64(s.h2, Scramble64(k2, C2, 33, C1), 31, h1, 0x38495ab5);
    Registers(h1, h2)
  }

  /** The registers after the first n blocks, with seed 0. */
  function Body64(data: seq<Byte>, n: nat): Registers
    requires 16 * n <= |data|
  {
    if n == 0 then Registers(0, 0)
    else Block64(Body64(data, n - 1), Word(data, 2 * n - 2), Word(data, 2 * n - 1))
  }

  /** The register that the fall-through switch has gathered once the bytes from the last
      one of the eight starting at `base` down to byte i have been folded in. */
  function TailWord64(tail: seq<Byte>, base: nat, i: nat): int
    requires base <= i
    decreases |tail| - i
  {
    if i >= |tail| || i >= base + 8 then 0
    else Xor64(TailWord64(tail, base, i + 1), Shl64(SignedByte(tail[i]), (i - base) * 8))
  }

  function TailMix64(s: Registers, tail: seq<Byte>): Registers {
    var h2 := if |tail| <= 8 then s.h2
              else Xor64(s.h2, Scramble64(TailWord64(tail, 8, 8), C2, 33, C1));
    var h1 := if |tail| == 0 then s.h1
              else Xor64(s.h1, Scramble64(TailWord64(tail, 0, 0), C1, 31, C2));
    Registers(h1, h2)
  }

  function Finish64(s: Registers, len: int): int {
    var h1, h2 := Xor64(s.h1, len), Xor64(s.h2, len);
    var h1 := Add64(h1, h2);
    var h2 := Add64(h2, h1);
    Add64(Fmix64(h1), Fmix64(h2))
  }

  /** The 64-bit half of the hash that the C extension returns for seed 0. */
  function Hash64(data: seq<Byte>): int {
    Finish64(TailMix64(Body64(data, |data| / 16), Tail(data)), |data|)
  }

  /** `MurmurHash3_x64_128` with seed 0. Its `len` is a C int, so a key of 2^31 bytes or
      more cannot be passed to it. */
  method MurmurHash3X64(data: seq<Byte>) returns (h1: int)
    requires |data| < 0x8000_0000
    ensures h1 == Hash64(data)
  {
    hide Add64, Mul64, Xor64, Rotl64, Shl64, Fmix64;
    var c1, c2 := Wrap(BIG_C1), Wrap(BIG_C2);
    SameConstants();
    var nblocks := |data| / 16;
    var h2 := 0;
    h1 := 0;
    var tail := Tail(data);
    var i := 0;
    while i < nblocks
      invariant 0 <= i <= nblocks
      invariant Registers(h1, h2) == Body64(data, i)
    {
      var k1, k2 := Word(data, 2 * i), Word(data, 2 * i + 1);
      k1 := Mul64(k1, c1); k1 := Rotl64(k1, 31); k1 := Mul64(k1, c2); h1 := Xor64(h1, k1);
      h1 := Rotl64(h1, 27); h1 := Add64(h1, h2); h1 := Add64(Mul64(h1, 5), 0x52dce729);
      k2 := Mul64(k2, c2); k2 := Rotl64(k2, 33); k2 := Mul64(k2, c1); h2 := Xor64(h2, k2);
      h2 := Rotl64(h2, 31); h2 := Add64(h2, h1); h2 := Add64(Mul64(h2, 5), 0x38495ab5);
      i := i + 1;
    }
    h1, h2 := SwitchTail(h1, h2, tail);
    h1 := Xor64(h1, |data|); h2 := Xor64(h2, |data|);
    h1 := Add64(h1, h2);
    h2 := Add64(h2, h1);
    h1 := Fmix64(h1);
    h2 := Fmix64(h2);
    h1 := Add64(h1, h2);
  }

  /** The `switch(len & 15)`: every case falls through to the ones below it. */
  method SwitchTail(a1: int, a2: int, tail: seq<Byte>) returns (h1: int, h2: int)
    requires |tail| < 16
    ensures Registers(h1, h2) == TailMix64(Registers(a1, a2), tail)
  {
    hide Mul64, Xor64, Rotl64, Shl64, SignedByte;
    var c1, c2 := Wrap(BIG_C1), Wrap(BIG_C2);
    SameConstants();
    h1, h2 := a1, a2;
    var n := |tail|;
    var k1, k2 := 0, 0;
    if n >= 15 { k2 := Xor64(k2, Shl64(SignedByte(tail[14]), 48)); } assert k2 == TailWord64(tail, 8, 14);
    if n >= 14 { k2 := Xor64(k2, Shl64(SignedByte(tail[13]), 40)); } assert k2 == TailWord64(tail, 8, 13);
    if n >= 13 { k2 := Xor64(k2, Shl64(SignedByte(tail[12]), 32)); } assert k2 == TailWord64(tail, 8, 12);
    if n >= 12 { k2 := Xor64(k2, Shl64(SignedByte(tail[11]), 24)); } assert k2 == TailWord64(tail, 8, 11);
    if n >= 11 { k2 := Xor64(k2, Shl64(SignedByte(tail[10]), 16)); } assert k2 == TailWord64(tail, 8, 10);
    if n >= 10 { k2 := Xor64(k2, Shl64(SignedByte(tail[9]), 8)); } assert k2 == TailWord64(tail, 8, 9);
    if n >= 9 {
      k2 := Xor64(k2, Shl64(SignedByte(tail[8]), 0));
      k2 := Mul64(k2, c2); k2 := Rotl64(k2, 33); k2 := Mul64(k2, c1); h2 := Xor64(h2, k2);
    }
    if n >= 8 { k1 := Xor64(k1, Shl64(SignedByte(tail[7]), 56)); } assert k1 == TailWord64(tail, 0, 7);
    if n >= 7 { k1 := Xor64(k1, Shl64(SignedByte(tail[6]), 48)); } assert k1 == TailWord64(tail, 0, 6);
    if n >= 6 { k1 := Xor64(k1, Shl64(SignedByte(tail[5]), 40)); } assert k1 == TailWord64(tail, 0, 5);
    if n >= 5 { k1 := Xor64(k1, Shl64(SignedByte(tail[4]), 32)); } assert k1 == TailWord64(tail, 0, 4);
    if n >= 4 { k1 := Xor64(k1, Shl64(SignedByte(tail[3]), 24)); } assert k1 == TailWord64(tail, 0, 3);
    if n >= 3 { k1 := Xor64(k1, Shl64(SignedByte(tail[2]), 16)); } assert k1 == TailWord64(tail, 0, 2);
    if n >= 2 { k1 := Xor64(k1, Shl64(SignedByte(tail[1]), 8)); } assert k1 == TailWord64(tail, 0, 1);
    if n >= 1 {
      k1 := Xor64(k1, Shl64(SignedByte(tail[0]), 0));
      k1 := Mul64(k1, c1); k1 := Rotl64(k1, 31); k1 := Mul64(k1, c2); h1 := Xor64(h1, k1);
    }
  }

  /** Python's negative constant and C's converted one are the same register. */
  lemma SameConstants()
    ensures Wrap(BIG_C1) == C1 && Wrap(BIG_C2) == C2
  {
  }

  // ------------------------------------------------------------- unbounded integers

  /** `rotl64`: leaves everything above bit 63 in place. */
  function PyRotl64(x: int, r: nat): int
    requires 0 < r < 64
  {
    var mask := Pow2(r) - 1;
    Bitwise(Or, Shl(x, r), Bitwise(And, Shr(x, 64 - r), mask))
  }

  /** `(k >> 33) & 0x7fffffff`. */
  function PyHigh31(k: int): int {
    Bitwise(And, Shr(k, 33), 0x7fffffff)
  }

  function PyFmix(k: int): int {
    var k := Bitwise(Xor, k, PyHigh31(k));
    var k := k * F1;
    var k := Bitwise(Xor, k, PyHigh31(k));
    var k := k * F2;
    Bitwise(Xor, k, PyHigh31(k))
  }

  function TruncateInt64(x: int): (r: int)
    ensures IsInt64(r) && Eq64(r, x)
  {
    if !(INT64_MIN <= x <= INT64_MAX) then (x + TWO63) % TWO64 - TWO63 else x
  }

  /** `body_and_tail`: the signed words of the whole blocks, and the rest of the bytes. */
  method BodyAndTail(data: seq<Byte>) returns (body: seq<int>, tail: seq<Byte>)
    ensures |body| == 2 * (|data| / 16)
    ensures forall i :: 0 <= i < |body| ==> body[i] == Word(data, i)
    ensures tail == Tail(data)
  {
    var nblocks := |data| / 16;
    body := seq(2 * nblocks, i requires 0 <= i < 2 * nblocks => Word(data, i));
    tail := Tail(data);
  }

  /** `_murmur3`. Nothing here wraps before the last line, yet the result is the one the
      register machine computes. */
  method PyMurmur3(data: seq<Byte>) returns (h: int)
    ensures h == Hash64(data)
  {
    hide Eq64, PyRotl64, Bitwise, Scramble64, Feed64, Word, TailMix64, Finish64;
    var h1, h2 := 0, 0;
    assert Eq64(h1, 0) && Eq64(h2, 0) by { SelfAgrees(0); }
    var body, tail := BodyAndTail(data);
    var i := 0;
    while i < |body|
      invariant 0 <= i <= |body| && i % 2 == 0
      invariant Eq64(h1, Body64(data, i / 2).h1) && Eq64(h2, Body64(data, i / 2).h2)
    {
      ghost var s := Body64(data, i / 2);
      var k1, k2 := body[i], body[i + 1];
      SelfAgrees(k1);
      SelfAgrees(k2);
      k1 := k1 * C1; k1 := PyRotl64(k1, 31); k1 := k1 * C2;
      ScrambleAgrees(body[i], body[i], C1, 31, C2);
      FeedAgrees(h1, k1, h2, s.h1, Scramble64(body[i], C1, 31, C2), s.h2, 27, 0x52dce729);
      h1 := Bitwise(Xor, h1, k1);
      h1 := PyRotl64(h1, 27); h1 := h1 + h2; h1 := h1 * 5 + 0x52dce729;
      k2 := k2 * C2; k2 := PyRotl64(k2, 33); k2 := k2 * C1;
      ScrambleAgrees(body[i + 1], body[i + 1], C2, 33, C1);
      FeedAgrees(h2, k2, h1, s.h2, Scramble64(body[i + 1], C2, 33, C1), Body64(data, i / 2 + 1).h1, 31, 0x38495ab5);
      h2 := Bitwise(Xor, h2, k2);
      h2 := PyRotl64(h2, 31); h2 := h2 + h1; h2 := h2 * 5 + 0x38495ab5;
      i := i + 2;
    }
    ghost var s := Body64(data, |data| / 16);
    h1, h2 := PyTail(h1, h2, tail, s);
    h := PyFinish(h1, h2, |data|, TailMix64(s, tail));
  }

  /** The tail section of `_murmur3`. */
  method PyTail(a1: int, a2: int, tail: seq<Byte>, ghost s: Registers) returns (h1: int, h2: int)
    requires |tail| < 16
    requires Eq64(a1, s.h1) && Eq64(a2, s.h2)
    ensures Eq64(h1, TailMix64(s, tail).h1) && Eq64(h2, TailMix64(s, tail).h2)
  {
    h1, h2 := a1, a2;
    var k1, k2 := 0, 0;
    if |tail| > 8 {
      var i := |tail| - 1;
      while i > 7
        invariant 7 <= i < |tail|
        invariant Eq64(k2, TailWord64(tail, 8, i + 1))
      {
        TailByteAgrees(k2, tail, 8, i);
        k2 := Bitwise(Xor, k2, Shl(SignedByte(tail[i]), (i - 8) * 8));
        i := i - 1;
      }
      ghost var gathered := k2;
      k2 := k2 * C2; k2 := PyRotl64(k2, 33); k2 := k2 * C1;
      ScrambleAgrees(gathered, TailWord64(tail, 8, 8), C2, 33, C1);
      XorAgrees(h2, k2, s.h2, Scramble64(TailWord64(tail, 8, 8), C2, 33, C1));
      h2 := Bitwise(Xor, h2, k2);
    }
    if |tail| > 0 {
      var i := if 7 <= |tail| - 1 then 7 else |tail| - 1;
      while i > -1
        invariant -1 <= i < |tail| && i <= 7
        invariant Eq64(k1, TailWord64(tail, 0, i + 1))
      {
        TailByteAgrees(k1, tail, 0, i);
        k1 := Bitwise(Xor, k1, Shl(SignedByte(tail[i]), i * 8));
        i := i - 1;
      }
      ghost var gathered := k1;
      k1 := k1 * C1; k1 := PyRotl64(k1, 31); k1 := k1 * C2;
      ScrambleAgrees(gathered, TailWord64(tail, 0, 0), C1, 31, C2);
      XorAgrees(h1, k1, s.h1, Scramble64(TailWord64(tail, 0, 0), C1, 31, C2));
      h1 := Bitwise(Xor, h1, k1);
    }
  }

  /** The finalization section of `_murmur3`. */
  method PyFinish(a1: int, a2: int, len: nat, ghost s: Registers) returns (h: int)
    requires Eq64(a1, s.h1) && Eq64(a2, s.h2)
    ensures h == Finish64(s, len)
  {
    hide Eq64, Bitwise, Xor64, PyFmix, Fmix64, Add64, Wrap, TruncateInt64;
    SelfAgrees(len);
    FinishIsInt64(s, len);
    XorAgrees(a1, len, s.h1, len);
    XorAgrees(a2, len, s.h2, len);
    var h1, h2 := Bitwise(Xor, a1, len), Bitwise(Xor, a2, len);
    AddAgrees(h1, h2, Xor64(s.h1, len), Xor64(s.h2, len));
    h1 := h1 + h2;
    ghost var r1 := Add64(Xor64(s.h1, len), Xor64(s.h2, len));
    AddAgrees(h2, h1, Xor64(s.h2, len), r1);
    h2 := h2 + h1;
    ghost var r2 := Add64(Xor64(s.h2, len), r1);
    FmixAgrees(h1, r1);
    FmixAgrees(h2, r2);
    h1 := PyFmix(h1);
    h2 := PyFmix(h2);
    AddAgrees(h1, h2, Fmix64(r1), Fmix64(r2));
    h1 := h1 + h2;
    h := TruncateInt64(h1);
    Transitive(h, h1, Finish64(s, len));
    SameInt64(h, Finish64(s, len));
  }

  // ------------------------------------------------------------------- step by step

  lemma FinishIsInt64(s: Registers, len: int)
    ensures IsInt64(Finish64(s, len))
  {
    hide Xor64, Fmix64;
  }

  lemma Transitive(x: int, y: int, z: int)
    requires Eq64(x, y) && Eq64(y, z)
    ensures Eq64(x, z)
  {
  }

  lemma SelfAgrees(x: int)
    ensures Eq64(x, x)
  {
  }

  lemma WrapAgrees(x: int)
    ensures Eq64(Wrap(x), x)
  {
  }

  lemma SameInt64(x: int, y: int)
    requires IsInt64(x) && IsInt64(y) && Eq64(x, y)
    ensures x == y
  {
  }

  lemma AddAgrees(x: int, y: int, x': int, y': int)
    requires Eq64(x, x') && Eq64(y, y')
    ensures Eq64(x + y, Add64(x', y'))
  {
  }

  lemma MulAgrees(x: int, x': int, c: int)
    requires Eq64(x, x')
    ensures Eq64(x * c, Mul64(x', c))
  {
    var q := x / TWO64 - x' / TWO64;
    assert x == x' + q * TWO64;
    assert x * c == x' * c + (q * c) * TWO64;
    ModUnique(x * c, TWO64, (x' * c) / TWO64 + q * c, (x' * c) % TWO64);
    WrapAgrees(x' * c);
  }

  lemma BitwiseAgrees(op: Op, x: int, y: int, x': int, y': int)
    requires Eq64(x, x') && Eq64(y, y')
    ensures Eq64(Bitwise(op, x, y), Wrap(Bitwise(op, x', y')))
  {
    Pow2Values();
    BitwiseCongruent(op, x, y, x', y', 64);
    WrapAgrees(Bitwise(op, x', y'));
  }

  lemma XorAgrees(x: int, y: int, x': int, y': int)
    requires Eq64(x, x') && Eq64(y, y')
    ensures Eq64(Bitwise(Xor, x, y), Xor64(x', y'))
  {
    BitwiseAgrees(Xor, x, y, x', y');
  }

  /** The top r bits of the low 64, by masking an arithmetic shift or by a logical one. */
  lemma HighBitsAgree(x: int, x': int, r: nat)
    requires 0 < r < 64
    requires Eq64(x, x')
    ensures Bitwise(And, Shr(x, 64 - r), Pow2(r) - 1) == Shr(x' % TWO64, 64 - r)
  {
    hide Bitwise, Pow2;
    Pow2Values();
    Pow2Add(64 - r, r);
    AndMask(Shr(x, 64 - r), r);
    ShiftThenMask(x, Pow2(64 - r), Pow2(r));
  }

  lemma ShiftThenMask(x: int, p: nat, q: nat)
    requires p > 0 && q > 0
    ensures p * q > 0
    ensures (x / p) % q == (x % (p * q)) / p
  {
    var a, r := x / p, x % p;
    var b, s := a / q, a % q;
    Regroup(b, q, s, p, r);
    ModUnique(x, p * q, b, s * p + r);
    ModUnique(s * p + r, p, s, r);
  }

  lemma RotlAgrees(x: int, x': int, r: nat)
    requires 0 < r < 64
    requires Eq64(x, x')
    ensures Eq64(PyRotl64(x, r), Rotl64(x', r))
  {
    HighBitsAgree(x, x', r);
    MulAgrees(x, x', Pow2(r));
    WrapAgrees(Shr(x' % TWO64, 64 - r));
    BitwiseAgrees(Or, Shl(x, r), Shr(x' % TWO64, 64 - r), Shl64(x', r), LogicalShr64(x', 64 - r));
  }

  lemma ScrambleAgrees(k: int, k': int, before: int, r: nat, after: int)
    requires 0 < r < 64
    requires Eq64(k, k')
    ensures Eq64(PyRotl64(k * before, r) * after, Scramble64(k', before, r, after))
  {
    MulAgrees(k, k', before);
    RotlAgrees(k * before, Mul64(k', before), r);
    MulAgrees(PyRotl64(k * before, r), Rotl64(Mul64(k', before), r), after);
  }

  lemma FeedAgrees(h: int, k: int, other: int, h': int, k': int, other': int, r: nat, c: int)
    requires 0 < r < 64
    requires Eq64(h, h') && Eq64(k, k') && Eq64(other, other')
    ensures Eq64((PyRotl64(Bitwise(Xor, h, k), r) + other) * 5 + c, Feed64(h', k', r, other', c))
  {
    XorAgrees(h, k, h', k');
    RotlAgrees(Bitwise(Xor, h, k), Xor64(h', k'), r);
    var t, t' := PyRotl64(Bitwise(Xor, h, k), r), Rotl64(Xor64(h', k'), r);
    AddAgrees(t, other, t', other');
    MulAgrees(t + other, Add64(t', other'), 5);
    AddAgrees((t + other) * 5, c, Mul64(Add64(t', other'), 5), c);
  }

  lemma FoldHighAgrees(k: int, k': int)
    requires Eq64(k, k')
    ensures Eq64(Bitwise(Xor, k, PyHigh31(k)), Xor64(k', LogicalShr64(k', 33)))
  {
    Pow2Values();
    HighBitsAgree(k, k', 31);
    WrapAgrees(Shr(k' % TWO64, 33));
    XorAgrees(k, PyHigh31(k), k', LogicalShr64(k', 33));
  }

  lemma FmixAgrees(k: int, k': int)
    requires Eq64(k, k')
    ensures Eq64(PyFmix(k), Fmix64(k'))
  {
    FoldHighAgrees(k, k');
    var a, a' := Bitwise(Xor, k, PyHigh31(k)), Xor64(k', LogicalShr64(k', 33));
    MulAgrees(a, a', F1);
    FoldHighAgrees(a * F1, Mul64(a', F1));
    var b, b' := Bitwise(Xor, a * F1, PyHigh31(a * F1)), Xor64(Mul64(a', F1), LogicalShr64(Mul64(a', F1), 33));
    MulAgrees(b, b', F2);
    FoldHighAgrees(b * F2, Mul64(b', F2));
  }

  lemma TailByteAgrees(k: int, tail: seq<Byte>, base: nat, i: nat)
    requires base <= i < |tail| && i < base + 8
    requires Eq64(k, TailWord64(tail, base, i + 1))
    ensures Eq64(Bitwise(Xor, k, Shl(SignedByte(tail[i]), (i - base) * 8)), TailWord64(tail, base, i))
  {
    WrapAgrees(Shl(SignedByte(tail[i]), (i - base) * 8));
    XorAgrees(k, Shl(SignedByte(tail[i]), (i - base) * 8),
              TailWord64(tail, base, i + 1), Shl64(SignedByte(tail[i]), (i - base) * 8));
  }
}
