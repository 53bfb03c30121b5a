/** The hash of the keys that the driver's own tests look at, worked out step by step in unsigned
    words. */
module Murmur3Values {
  import opened Bits
  import opened Bytes
  import opened Murmur3
  import opened Murmur3Words

  const HIGH_BYTES: seq<Byte> := [0xfe, 0xfe, 0xfe, 0xfe, 0xfe, 0xfe, 0xfe, 0xfe]

  const FIVE_BYTES: seq<Byte> := [0x00, 0xff, 0x10, 0xfa, 0x99]

  /** Five bytes, ten times over. */
  const LONG_KEY: seq<Byte> := seq(50, i requires 0 <= i < 50 => FIVE_BYTES[i % 5])

  // ------------------------------------------------------------------- exclusive or by bytes

  function Number(x: bv8): nat { x as nat }
  function HalfOf(x: bv8): bv8 { x >> 1 }
  function Both(x: bv8, y: bv8): bv8 { x ^ y }

  lemma HalfNumber(x: bv8)
    ensures Number(HalfOf(x)) == Number(x) / 2
  {
  }

  lemma HalfBoth(x: bv8, y: bv8)
    ensures HalfOf(Both(x, y)) == Both(HalfOf(x), HalfOf(y))
  {
  }

  lemma LowBit(x: bv8)
    ensures Number(x) % 2 == if x & 1 == 1 then 1 else 0
  {
  }

  lemma LowBoth(x: bv8, y: bv8)
    ensures Number(Both(x, y)) % 2 == OnBits(Xor, Number(x) % 2, Number(y) % 2)
  {
    LowBit(x);
    LowBit(y);
    LowBit(x ^ y);
  }

  lemma ZeroNumber(x: bv8)
    ensures Number(x) == 0 ==> x == 0
    ensures Number(Both(0, 0)) == 0
  {
  }

  /** The machine's exclusive or of two bytes is that of their values. */
  lemma {:induction false} XorOfBytes(x: bv8, y: bv8)
    ensures Bitwise(Xor, Number(x), Number(y)) == Number(Both(x, y))
    decreases Number(x) + Number(y)
  {
    hide Bitwise, Number, HalfOf, Both;
    if Number(x) == 0 && Number(y) == 0 {
      ZeroNumber(x);
      ZeroNumber(y);
      NothingBitwise(Xor);
    } else {
      HalfNumber(x);
      HalfNumber(y);
      HalfNumber(Both(x, y));
      HalfBoth(x, y);
      LowBoth(x, y);
      BitwiseUnfold(Xor, Number(x), Number(y));
      XorOfBytes(HalfOf(x), HalfOf(y));
    }
  }

  lemma ByteBelow(b: bv8, c: bv8, m: nat, n: nat)
    ensures Bitwise(Xor, Number(b) + 256 * m, Number(c) + 256 * n) == Number(Both(b, c)) + 256 * Bitwise(Xor, m, n)
  {
    ByteRange(b);
    ByteRange(c);
    hide Bitwise, Number, Both, Pow2;
    Pow2Of8();
    BitwiseSplit(Xor, m, n, Number(b), Number(c), 8);
    XorOfBytes(b, c);
  }

  lemma ByteRange(b: bv8)
    ensures Number(b) < 256
  {
  }

  function FourBytes(b0: bv8, b1: bv8, b2: bv8, b3: bv8, high: nat): nat {
    Number(b0) + 256 * (Number(b1) + 256 * (Number(b2) + 256 * (Number(b3) + 256 * high)))
  }

  function EightBytes(b0: bv8, b1: bv8, b2: bv8, b3: bv8, b4: bv8, b5: bv8, b6: bv8, b7: bv8): nat {
    FourBytes(b0, b1, b2, b3, FourBytes(b4, b5, b6, b7, 0))
  }

  lemma XorFour(b0: bv8, b1: bv8, b2: bv8, b3: bv8, m: nat, c0: bv8, c1: bv8, c2: bv8, c3: bv8, n: nat)
    requires Bitwise(Xor, m, n) >= 0
    ensures Bitwise(Xor, FourBytes(b0, b1, b2, b3, m), FourBytes(c0, c1, c2, c3, n)) ==
            FourBytes(Both(b0, c0), Both(b1, c1), Both(b2, c2), Both(b3, c3), Bitwise(Xor, m, n))
  {
    hide Bitwise, Number, Both;
    var m3, n3 := Number(b3) + 256 * m, Number(c3) + 256 * n;
    var m2, n2 := Number(b2) + 256 * m3, Number(c2) + 256 * n3;
    ByteBelow(b3, c3, m, n);
    ByteBelow(b2, c2, m3, n3);
    ByteBelow(b1, c1, m2, n2);
    ByteBelow(b0, c0, Number(b1) + 256 * m2, Number(c1) + 256 * n2);
  }

  lemma XorBytes(b0: bv8, b1: bv8, b2: bv8, b3: bv8, b4: bv8, b5: bv8, b6: bv8, b7: bv8,
    c0: bv8, c1: bv8, c2: bv8, c3: bv8, c4: bv8, c5: bv8, c6: bv8, c7: bv8)
    ensures Bitwise(Xor, EightBytes(b0, b1, b2, b3, b4, b5, b6, b7), EightBytes(c0, c1, c2, c3, c4, c5, c6, c7)) ==
            EightBytes(Both(b0, c0), Both(b1, c1), Both(b2, c2), Both(b3, c3), Both(b4, c4), Both(b5, c5),
                       Both(b6, c6), Both(b7, c7))
  {
    hide Bitwise, Number, Both, FourBytes;
    NothingBitwise(Xor);
    XorFour(b4, b5, b6, b7, 0, c4, c5, c6, c7, 0);
    XorFour(b0, b1, b2, b3, FourBytes(b4, b5, b6, b7, 0), c0, c1, c2, c3, FourBytes(c4, c5, c6, c7, 0));
  }

  lemma FromZero(u: nat)
    ensures Bitwise(Xor, 0, u) == u
  {
    WithZero(u);
  }

  // ------------------------------------------------------------------------------ rotations

  lemma Powers()
    ensures Pow2(27) == 0x800_0000 && Pow2(31) == 0x8000_0000 && Pow2(33) == 0x2_0000_0000 &&
            Pow2(37) == 0x20_0000_0000
  {
    hide Pow2;
    Pow2Values();
    Pow2Of33();
    Pow2Of4();
    Pow2Add(27, 4);
    Pow2Add(33, 4);
  }

  lemma Pow2Of4()
    ensures Pow2(4) == 16
  {
  }

  lemma Rot31(u: nat)
    ensures RotW(u, 31) == u % 0x2_0000_0000 * 0x8000_0000 + u / 0x2_0000_0000
  {
    hide Pow2;
    Powers();
  }

  lemma Rot33(u: nat)
    ensures RotW(u, 33) == u % 0x8000_0000 * 0x2_0000_0000 + u / 0x8000_0000
  {
    hide Pow2;
    Powers();
  }

  lemma Rot27(u: nat)
    ensures RotW(u, 27) == u % 0x20_0000_0000 * 0x800_0000 + u / 0x20_0000_0000
  {
    hide Pow2;
    Powers();
  }

  /** A product, by its quotient and remainder. */
  lemma Product(a: nat, c: nat, q: nat, r: nat)
    requires a * c == q * TWO64 + r && r < TWO64
    ensures MulW(a, c) == r
  {
    ModUnique(a * c, TWO64, q, r);
  }

  // ----------------------------------------------------------------------- the key's parts

  lemma ConstantWords()
    ensures Unsigned(C1) == BIG_C1 && Unsigned(C2) == C2
  {
  }

  lemma SignedReading(h: int, u: nat)
    requires IsInt64(h) && Unsigned(h) == u
    ensures h == if u < TWO63 then u else u - TWO64
  {
  }

  lemma HashIsInt64(data: seq<Byte>)
    ensures IsInt64(Hash64(data))
  {
    hide TailMix64, Body64, Tail, Finish64;
    FinishIsInt64(TailMix64(Body64(data, |data| / 16), Tail(data)), |data|);
  }

  /** A key without blocks and with at most eight bytes: the tail goes into the first register. */
  lemma ShortKey(data: seq<Byte>, k: nat)
    requires 0 < |data| <= 8 && k == ScrambleW(Unsigned(TailValue(data)), BIG_C1, 31, C2)
    ensures k < TWO64 && Unsigned(Hash64(data)) == FinishW(k, 0, |data|) && IsInt64(Hash64(data))
  {
    hide Finish64, FinishW, ScrambleW, TailWord64, TailValue, Wrap, XorW, Body64, TailMix64, Tail;
    NoBlocks(data);
    HashIsInt64(data);
    var s := TailMix64(Registers(0, 0), data);
    TailKey(Registers(0, 0), data, k);
    UnsignedFinish(s, |data|);
    XorFromZero(k);
  }

  lemma NoBlocks(data: seq<Byte>)
    requires |data| < 16
    ensures Tail(data) == data && Body64(data, |data| / 16) == Registers(0, 0)
  {
    hide Body64;
    assert |data| / 16 == 0 && |data| % 16 == |data| && data[0..] == data;
    BodyStart(data);
  }

  lemma XorFromZero(k: nat)
    requires k < TWO64
    ensures XorW(0, k) == k
  {
    WithZero(k);
  }

  /** A tail of at most eight bytes. */
  lemma TailKey(s: Registers, tail: seq<Byte>, k: nat)
    requires 0 < |tail| <= 8 && k == ScrambleW(Unsigned(TailValue(tail)), BIG_C1, 31, C2)
    ensures k < TWO64
    ensures Unsigned(TailMix64(s, tail).h1) == XorW(Unsigned(s.h1), k) && TailMix64(s, tail).h2 == s.h2
  {
    hide Scramble64, ScrambleW, TailWord64, TailValue, Wrap, Xor64, XorW;
    TailWordIs(tail, 0);
    assert tail[0..] == tail;
    UnsignedWrap(TailValue(tail));
    ConstantWords();
    var word := TailWord64(tail, 0, 0);
    UnsignedScramble(word, C1, 31, C2);
    UnsignedXor(s.h1, Scramble64(word, C1, 31, C2));
  }

  /** A tail of nine to fifteen bytes: the first eight go into the first register, the others, with
      the constants exchanged and a rotation by 33, into the second. */
  lemma LongTailMix(s: Registers, tail: seq<Byte>)
    requires 8 < |tail| < 16
    ensures var k1 := ScrambleW(Unsigned(TailValue(tail[..8])), BIG_C1, 31, BIG_C2);
            var k2 := ScrambleW(Unsigned(TailValue(tail[8..])), BIG_C2, 33, BIG_C1);
            && k1 < TWO64 && k2 < TWO64
            && Unsigned(TailMix64(s, tail).h1) == XorW(Unsigned(s.h1), k1)
            && Unsigned(TailMix64(s, tail).h2) == XorW(Unsigned(s.h2), k2)
  {
    hide Scramble64, ScrambleW, TailWord64, TailValue, Wrap, Xor64, XorW;
    ConstantWords();
    FirstWordIs(tail);
    TailWordIs(tail, 8);
    var low, high := TailWord64(tail, 0, 0), TailWord64(tail, 8, 8);
    UnsignedWrap(TailValue(tail[..8]));
    UnsignedWrap(TailValue(tail[8..]));
    UnsignedScramble(low, C1, 31, C2);
    UnsignedScramble(high, C2, 33, C1);
    UnsignedXor(s.h1, Scramble64(low, C1, 31, C2));
    UnsignedXor(s.h2, Scramble64(high, C2, 33, C1));
  }

  /** A key with three blocks and a tail of at most eight bytes. */
  lemma LongKey(data: seq<Byte>, k: nat)
    requires 48 < |data| <= 56 && k == ScrambleW(Unsigned(TailValue(data[48..])), BIG_C1, 31, C2)
    ensures var s := Body64(data, 3);
            && k < TWO64
            && Unsigned(Hash64(data)) == FinishW(XorW(Unsigned(s.h1), k), Unsigned(s.h2), |data|)
            && IsInt64(Hash64(data))
  {
    assert |data| / 16 == 3 && Tail(data) == data[48..];
    HashIsInt64(data);
    hide Finish64, FinishW, ScrambleW, TailValue, TailMix64, XorW, Body64;
    TailKey(Body64(data, 3), data[48..], k);
    UnsignedFinish(TailMix64(Body64(data, 3), data[48..]), |data|);
  }

  /** One block, in unsigned words. */
  function BlockW(h1: nat, h2: nat, k1: nat, k2: nat): (nat, nat)
    requires h1 < TWO64 && h2 < TWO64
  {
    var n1 := FeedW(h1, ScrambleW(k1, BIG_C1, 31, C2), 27, h2, 0x52dce729);
    (n1, FeedW(h2, ScrambleW(k2, C2, 33, BIG_C1), 31, n1, 0x38495ab5))
  }

  lemma UnsignedBlock(s: Registers, k1: int, k2: int)
    ensures var t := Block64(s, k1, k2);
            (Unsigned(t.h1), Unsigned(t.h2)) == BlockW(Unsigned(s.h1), Unsigned(s.h2), Unsigned(k1), Unsigned(k2))
  {
    hide Scramble64, ScrambleW, Feed64, FeedW;
    ConstantWords();
    UnsignedScramble(k1, C1, 31, C2);
    UnsignedScramble(k2, C2, 33, C1);
    UnsignedFeed(s.h1, Scramble64(k1, C1, 31, C2), 27, s.h2, 0x52dce729);
    UnsignedFeed(s.h2, Scramble64(k2, C2, 33, C1), 31, Block64(s, k1, k2).h1, 0x38495ab5);
  }

  lemma BodyStart(data: seq<Byte>)
    ensures Body64(data, 0) == Registers(0, 0)
  {
  }

  lemma BodyStep(data: seq<Byte>, n: nat)
    requires 16 * n + 16 <= |data|
    ensures var s, t := Body64(data, n), Body64(data, n + 1);
            (Unsigned(t.h1), Unsigned(t.h2)) ==
            BlockW(Unsigned(s.h1), Unsigned(s.h2), Unsigned(Word(data, 2 * n)), Unsigned(Word(data, 2 * n + 1)))
  {
    hide Word, Block64, BlockW;
    UnsignedBlock(Body64(data, n), Word(data, 2 * n), Word(data, 2 * n + 1));
  }

  function Horner(b0: int, b1: int, b2: int, b3: int, b4: int, b5: int, b6: int, b7: int): int {
    b0 + 256 * (b1 + 256 * (b2 + 256 * (b3 + 256 * (b4 + 256 * (b5 + 256 * (b6 + 256 * b7))))))
  }

  /** A word of the key by its bytes. */
  lemma WordIs(data: seq<Byte>, i: nat, bs: seq<Byte>)
    requires 8 * i + 8 <= |data| && |bs| == 8 && data[8 * i..8 * i + 8] == bs
    ensures Unsigned(Word(data, i)) == Horner(bs[0], bs[1], bs[2], bs[3], bs[4], bs[5], bs[6], bs[7])
  {
    hide Wrap, LittleEndian, Horner;
    UnsignedWrap(LittleEndian(bs));
    EightDigits(bs);
    FitsWord(bs[0], bs[1], bs[2], bs[3], bs[4], bs[5], bs[6], bs[7]);
  }

  lemma EightDigits(bs: seq<Byte>)
    requires |bs| == 8
    ensures LittleEndian(bs) == Horner(bs[0], bs[1], bs[2], bs[3], bs[4], bs[5], bs[6], bs[7])
  {
    assert bs[1..][1..] == bs[2..] && bs[2..][1..] == bs[3..] && bs[3..][1..] == bs[4..] && bs[4..][1..] == bs[5..];
    assert bs[5..][1..] == bs[6..] && bs[6..][1..] == bs[7..] && bs[7..][1..] == [];
    assert LittleEndian([]) == 0;
    assert LittleEndian(bs[7..]) == bs[7];
    assert LittleEndian(bs[6..]) == bs[6] + 256 * LittleEndian(bs[7..]);
    assert LittleEndian(bs[5..]) == bs[5] + 256 * LittleEndian(bs[6..]);
    assert LittleEndian(bs[4..]) == bs[4] + 256 * LittleEndian(bs[5..]);
    assert LittleEndian(bs[3..]) == bs[3] + 256 * LittleEndian(bs[4..]);
    assert LittleEndian(bs[2..]) == bs[2] + 256 * LittleEndian(bs[3..]);
    assert LittleEndian(bs[1..]) == bs[1] + 256 * LittleEndian(bs[2..]);
  }

  lemma FitsWord(b0: Byte, b1: Byte, b2: Byte, b3: Byte, b4: Byte, b5: Byte, b6: Byte, b7: Byte)
    ensures 0 <= Horner(b0, b1, b2, b3, b4, b5, b6, b7) < TWO64
  {
  }

  /** The tail's number digit by digit, for at most eight of them. */
  lemma TailDigits(bs: seq<Byte>)
    requires 1 <= |bs| <= 8
    ensures TailValue(bs[|bs|..]) == 0
    ensures forall i :: 0 <= i < |bs| ==>
              TailValue(bs[i..]) ==
              bs[i] + 256 * (if bs[i] < 128 then TailValue(bs[i + 1..]) else -1 - TailValue(bs[i + 1..]))
    ensures bs[0..] == bs
  {
    forall i | 0 <= i < |bs|
      ensures TailValue(bs[i..]) ==
              bs[i] + 256 * (if bs[i] < 128 then TailValue(bs[i + 1..]) else -1 - TailValue(bs[i + 1..]))
    {
      assert bs[i..][1..] == bs[i + 1..];
    }
  }

  // ---------------------------------------------------------------------------- the values

  lemma TailOfDigits()
    ensures ScrambleW(0x333231, BIG_C1, 31, C2) == 0xe0401f6f2a18a3d4
  {
    hide RotW, MulW;
    Product(0x333231, BIG_C1, 0x1b268f, 0xc8736c59f580a5c5);
    Rot31(0xc8736c59f580a5c5);
    assert RotW(0xc8736c59f580a5c5, 31) == 0xfac052e2e439b62c;
    Product(0xfac052e2e439b62c, C2, 0x4b61bc606db605dc, 0xe0401f6f2a18a3d4);
  }

  lemma FirstMixOfDigits()
    ensures FmixW(0xe0401f6f2a18a3da) == 0xee37b8524cbe2f6b
  {
    hide FoldW, MulW;
    FoldFirstMixOfDigits();
    Product(0xe0401f6f5a38ac6d, F1, 0xdfa76da2d857d29b, 0xcffdd07f66deaf49);
    Product(0xcffdd07f01204776, F2, 0x9fe648fbe21cda8e, 0xee37b8523ba5f342);
  }

  lemma FoldFirstMixOfDigits()
    ensures FoldW(0xe0401f6f2a18a3da) == 0xe0401f6f5a38ac6d
    ensures FoldW(0xcffdd07f66deaf49) == 0xcffdd07f01204776
    ensures FoldW(0xee37b8523ba5f342) == 0xee37b8524cbe2f6b
  {
    hide Bitwise;
    XorBytes(0xda, 0xa3, 0x18, 0x2a, 0x6f, 0x1f, 0x40, 0xe0, 0xb7, 0x0f, 0x20, 0x70, 0x00, 0x00, 0x00, 0x00);
    XorBytes(0x49, 0xaf, 0xde, 0x66, 0x7f, 0xd0, 0xfd, 0xcf, 0x3f, 0xe8, 0xfe, 0x67, 0x00, 0x00, 0x00, 0x00);
    XorBytes(0x42, 0xf3, 0xa5, 0x3b, 0x52, 0xb8, 0x37, 0xee, 0x29, 0xdc, 0x1b, 0x77, 0x00, 0x00, 0x00, 0x00);
  }

  lemma SecondMixOfDigits()
    ensures FmixW(0xe0401f6f2a18a3dd) == 0xaa2374c8c0a84fff
  {
    hide FoldW, MulW;
    FoldSecondMixOfDigits();
    Product(0xe0401f6f5a38ac6a, F1, 0xdfa76da2d857d298, 0xd208c0f79ede08e2);
    Product(0xd208c0f7f7da6899, F2, 0xa1784f61ef321603, 0xaa2374c895b9f59b);
  }

  lemma FoldSecondMixOfDigits()
    ensures FoldW(0xe0401f6f2a18a3dd) == 0xe0401f6f5a38ac6a
    ensures FoldW(0xd208c0f79ede08e2) == 0xd208c0f7f7da6899
    ensures FoldW(0xaa2374c895b9f59b) == 0xaa2374c8c0a84fff
  {
    hide Bitwise;
    XorBytes(0xdd, 0xa3, 0x18, 0x2a, 0x6f, 0x1f, 0x40, 0xe0, 0xb7, 0x0f, 0x20, 0x70, 0x00, 0x00, 0x00, 0x00);
    XorBytes(0xe2, 0x08, 0xde, 0x9e, 0xf7, 0xc0, 0x08, 0xd2, 0x7b, 0x60, 0x04, 0x69, 0x00, 0x00, 0x00, 0x00);
    XorBytes(0x9b, 0xf5, 0xb9, 0x95, 0xc8, 0x74, 0x23, 0xaa, 0x64, 0xba, 0x11, 0x55, 0x00, 0x00, 0x00, 0x00);
  }

  lemma FinishOfDigits()
    ensures FinishW(0xe0401f6f2a18a3d4, 0x0, 3) == 0x985b2d1b0d667f6a
  {
    hide Bitwise, FmixW;
    XorBytes(0xd4, 0xa3, 0x18, 0x2a, 0x6f, 0x1f, 0x40, 0xe0, 0x03, 0x00, 0x00, 0x00, 0x00, 0x00, 0x00, 0x00);
    FromZero(3);
    assert AddW(0xe0401f6f2a18a3d7, 0x3) == 0xe0401f6f2a18a3da;
    assert AddW(0x3, 0xe0401f6f2a18a3da) == 0xe0401f6f2a18a3dd;
    FirstMixOfDigits();
    SecondMixOfDigits();
  }

  /** The key "123". */
  lemma HashOfDigits()
    ensures Hash64([49, 50, 51]) == -7468325962851647638
  {
    hide Hash64, ScrambleW, FinishW;
    TailValueOfDigits();
    TailOfDigits();
    FinishOfDigits();
    ShortKey([49, 50, 51], 0xe0401f6f2a18a3d4);
    SignedReading(Hash64([49, 50, 51]), 0x985b2d1b0d667f6a);
  }

  lemma TailValueOfDigits()
    ensures Unsigned(TailValue([49, 50, 51])) == 0x333231
  {
    TailDigits([49, 50, 51]);
  }

  lemma TailOfHighBytes()
    ensures ScrambleW(0x1fe01fe01fe01fe, BIG_C1, 31, C2) == 0x51c4d26e3f4c0a44
  {
    hide RotW, MulW;
    Product(0x1fe01fe01fe01fe, BIG_C1, 0x10e787ea37f05a2, 0x6e98f7964790256);
    Rot31(0x6e98f7964790256);
    assert RotW(0x6e98f7964790256, 31) == 0xb23c812b0374c7bc;
    Product(0xb23c812b0374c7bc, C2, 0x359502e207a88254, 0x51c4d26e3f4c0a44);
  }

  lemma FirstMixOfHighBytes()
    ensures FmixW(0x51c4d26e3f4c0a54) == 0x6f36ee7ee8b7ee29
  {
    hide FoldW, MulW;
    FoldFirstMixOfHighBytes();
    Product(0x51c4d26e17ae6363, F1, 0x518d250cc260b9f6, 0x10e42b2afbdeba47);
    Product(0x10e42b2af3acafd2, F2, 0xcfc54ed46752ccc, 0x6f36ee7edf2c9916);
  }

  lemma FoldFirstMixOfHighBytes()
    ensures FoldW(0x51c4d26e3f4c0a54) == 0x51c4d26e17ae6363
    ensures FoldW(0x10e42b2afbdeba47) == 0x10e42b2af3acafd2
    ensures FoldW(0x6f36ee7edf2c9916) == 0x6f36ee7ee8b7ee29
  {
    hide Bitwise;
    XorBytes(0x54, 0x0a, 0x4c, 0x3f, 0x6e, 0xd2, 0xc4, 0x51, 0x37, 0x69, 0xe2, 0x28, 0x00, 0x00, 0x00, 0x00);
    XorBytes(0x47, 0xba, 0xde, 0xfb, 0x2a, 0x2b, 0xe4, 0x10, 0x95, 0x15, 0x72, 0x08, 0x00, 0x00, 0x00, 0x00);
    XorBytes(0x16, 0x99, 0x2c, 0xdf, 0x7e, 0xee, 0x36, 0x6f, 0x3f, 0x77, 0x9b, 0x37, 0x00, 0x00, 0x00, 0x00);
  }

  lemma SecondMixOfHighBytes()
    ensures FmixW(0x51c4d26e3f4c0a5c) == 0x14e4768d2faf0a68
  {
    hide FoldW, MulW;
    FoldSecondMixOfHighBytes();
    Product(0x51c4d26e17ae636b, F1, 0x518d250cc260b9fe, 0xb71a9ea668b20af);
    Product(0xb71a9ea6333f45a, F2, 0x8cc43deae501b02, 0x14e4768d25dd312e);
  }

  lemma FoldSecondMixOfHighBytes()
    ensures FoldW(0x51c4d26e3f4c0a5c) == 0x51c4d26e17ae636b
    ensures FoldW(0xb71a9ea668b20af) == 0xb71a9ea6333f45a
    ensures FoldW(0x14e4768d25dd312e) == 0x14e4768d2faf0a68
  {
    hide Bitwise;
    XorBytes(0x5c, 0x0a, 0x4c, 0x3f, 0x6e, 0xd2, 0xc4, 0x51, 0x37, 0x69, 0xe2, 0x28, 0x00, 0x00, 0x00, 0x00);
    XorBytes(0xaf, 0x20, 0x8b, 0x66, 0xea, 0xa9, 0x71, 0x0b, 0xf5, 0xd4, 0xb8, 0x05, 0x00, 0x00, 0x00, 0x00);
    XorBytes(0x2e, 0x31, 0xdd, 0x25, 0x8d, 0x76, 0xe4, 0x14, 0x46, 0x3b, 0x72, 0x0a, 0x00, 0x00, 0x00, 0x00);
  }

  lemma FinishOfHighBytes()
    ensures FinishW(0x51c4d26e3f4c0a44, 0x0, 8) == 0x841b650c1866f891
  {
    hide Bitwise, FmixW;
    XorBytes(0x44, 0x0a, 0x4c, 0x3f, 0x6e, 0xd2, 0xc4, 0x51, 0x08, 0x00, 0x00, 0x00, 0x00, 0x00, 0x00, 0x00);
    FromZero(8);
    assert AddW(0x51c4d26e3f4c0a4c, 0x8) == 0x51c4d26e3f4c0a54;
    assert AddW(0x8, 0x51c4d26e3f4c0a54) == 0x51c4d26e3f4c0a5c;
    FirstMixOfHighBytes();
    SecondMixOfHighBytes();
  }

  /** Eight bytes 0xfe, each of them sign-extended. */
  lemma HashOfHighBytes()
    ensures Hash64(HIGH_BYTES) == -8927430733708461935
  {
    hide Hash64, ScrambleW, FinishW;
    TailValueOfHighBytes();
    TailOfHighBytes();
    FinishOfHighBytes();
    ShortKey(HIGH_BYTES, 0x51c4d26e3f4c0a44);
    SignedReading(Hash64(HIGH_BYTES), 0x841b650c1866f891);
  }

  lemma TailValueOfHighBytes()
    ensures Unsigned(TailValue(HIGH_BYTES)) == 0x1fe01fe01fe01fe
  {
    TailDigits(HIGH_BYTES);
  }

  lemma Block1First()
    ensures ScrambleW(0x10ff0099fa10ff00, BIG_C1, 31, C2) == 0x2f5cf08621e7a5c0
  {
    hide RotW, MulW;
    Product(0x10ff0099fa10ff00, BIG_C1, 0x90373c2cf071a21, 0x3dd0748150d12b00);
    Rot31(0x3dd0748150d12b00);
    assert RotW(0x3dd0748150d12b00, 31) == 0xa86895801ee83a40;
    Product(0xa86895801ee83a40, C2, 0x32a0aa73f706eef4, 0x2f5cf08621e7a5c0);
  }

  lemma Block1Second()
    ensures ScrambleW(0x99fa10ff0099fa, C2, 33, BIG_C1) == 0x40f89eb7f6545c10
  {
    hide RotW, MulW;
    Product(0x99fa10ff0099fa, C2, 0x2e4a019459c701, 0x6de0e1e87018f106);
    Rot33(0x6de0e1e87018f106);
    assert RotW(0x6de0e1e87018f106, 33) == 0xe031e20cdbc1c3d0;
    Product(0xe031e20cdbc1c3d0, BIG_C1, 0x76e5806afaa93003, 0x40f89eb7f6545c10);
  }

  lemma Block1Left()
    ensures FeedW(0x0, 0x2f5cf08621e7a5c0, 27, 0x0, 0x52dce729) == 0xf54c31e65a436cbd
  {
    hide RotW, Bitwise, MulW;
    FromZero(0x2f5cf08621e7a5c0);
    assert XorW(0x0, 0x2f5cf08621e7a5c0) == 0x2f5cf08621e7a5c0;
    Rot27(0x2f5cf08621e7a5c0);
    assert RotW(0x2f5cf08621e7a5c0, 27) == 0x310f3d2e017ae784;
    assert AddW(0x310f3d2e017ae784, 0x0) == 0x310f3d2e017ae784;
    Product(0x310f3d2e017ae784, 5, 0x0, 0xf54c31e607668594);
    assert AddW(0xf54c31e607668594, 0x52dce729) == 0xf54c31e65a436cbd;
  }

  lemma Block1Right()
    ensures FeedW(0x0, 0x40f89eb7f6545c10, 31, 0xf54c31e65a436cbd, 0x38495ab5) == 0xb24fdfa89e08072d
  {
    hide RotW, Bitwise, MulW;
    FromZero(0x40f89eb7f6545c10);
    assert XorW(0x0, 0x40f89eb7f6545c10) == 0x40f89eb7f6545c10;
    Rot31(0x40f89eb7f6545c10);
    assert RotW(0x40f89eb7f6545c10, 31) == 0xfb2a2e08207c4f5b;
    assert AddW(0xfb2a2e08207c4f5b, 0xf54c31e65a436cbd) == 0xf0765fee7abfbc18;
    Product(0xf0765fee7abfbc18, 5, 0x4, 0xb24fdfa865beac78);
    assert AddW(0xb24fdfa865beac78, 0x38495ab5) == 0xb24fdfa89e08072d;
  }

  lemma Block1()
    ensures BlockW(0x0, 0x0, 0x10ff0099fa10ff00, 0x99fa10ff0099fa) ==
            (0xf54c31e65a436cbd, 0xb24fdfa89e08072d)
  {
    hide ScrambleW, FeedW;
    Block1First();
    Block1Second();
    Block1Left();
    Block1Right();
  }

  lemma Block2First()
    ensures ScrambleW(0xfa10ff0099fa10ff, BIG_C1, 31, C2) == 0xb8213334ead082c6
  {
    hide RotW, MulW;
    Product(0xfa10ff0099fa10ff, BIG_C1, 0x849dea1f6da9ccf8, 0x233dd0748150d12b);
    Rot31(0x233dd0748150d12b);
    assert RotW(0x233dd0748150d12b, 31) == 0x40a86895919ee83a;
    Product(0x40a86895919ee83a, C2, 0x13700bfb430b3726, 0xb8213334ead082c6);
  }

  lemma Block2Second()
    ensures ScrambleW(0xff0099fa10ff0099, C2, 33, BIG_C1) == 0xb10ff8692171a78c
  {
    hide RotW, MulW;
    Product(0xff0099fa10ff0099, C2, 0x4ca8e5dfe5b2a7b2, 0x3745f5ae541626e7);
    Rot33(0x3745f5ae541626e7);
    assert RotW(0x3745f5ae541626e7, 33) == 0xa82c4dce6e8beb5c;
    Product(0xa82c4dce6e8beb5c, BIG_C1, 0x592fc7f3b65ac264, 0xb10ff8692171a78c);
  }

  lemma Block2Left()
    ensures FeedW(0xf54c31e65a436cbd, 0xb8213334ead082c6, 27, 0xb24fdfa89e08072d, 0x52dce729) == 0x67267b8ead1e1378
  {
    hide RotW, Bitwise, MulW;
    XorBytes(0xbd, 0x6c, 0x43, 0x5a, 0xe6, 0x31, 0x4c, 0xf5, 0xc6, 0x82, 0xd0, 0xea, 0x34, 0x33, 0x21, 0xb8);
    assert XorW(0xf54c31e65a436cbd, 0xb8213334ead082c6) == 0x4d6d02d2b093ee7b;
    Rot27(0x4d6d02d2b093ee7b);
    assert RotW(0x4d6d02d2b093ee7b, 27) == 0x95849f73da6b6816;
    assert AddW(0x95849f73da6b6816, 0xb24fdfa89e08072d) == 0x47d47f1c78736f43;
    Product(0x47d47f1c78736f43, 5, 0x1, 0x67267b8e5a412c4f);
    assert AddW(0x67267b8e5a412c4f, 0x52dce729) == 0x67267b8ead1e1378;
  }

  lemma Block2Right()
    ensures FeedW(0xb24fdfa89e08072d, 0xb10ff8692171a78c, 31, 0x67267b8ead1e1378, 0x38495ab5) == 0x62707b5c22001f6d
  {
    hide RotW, Bitwise, MulW;
    XorBytes(0x2d, 0x07, 0x08, 0x9e, 0xa8, 0xdf, 0x4f, 0xb2, 0x8c, 0xa7, 0x71, 0x21, 0x69, 0xf8, 0x0f, 0xb1);
    assert XorW(0xb24fdfa89e08072d, 0xb10ff8692171a78c) == 0x34027c1bf79a0a1;
    Rot31(0x34027c1bf79a0a1);
    assert RotW(0x34027c1bf79a0a1, 31) == 0xdfbcd05081a013e0;
    assert AddW(0xdfbcd05081a013e0, 0x67267b8ead1e1378) == 0x46e34bdf2ebe2758;
    Product(0x46e34bdf2ebe2758, 5, 0x1, 0x62707b5be9b6c4b8);
    assert AddW(0x62707b5be9b6c4b8, 0x38495ab5) == 0x62707b5c22001f6d;
  }

  lemma Block2()
    ensures BlockW(0xf54c31e65a436cbd, 0xb24fdfa89e08072d, 0xfa10ff0099fa10ff, 0xff0099fa10ff0099) ==
            (0x67267b8ead1e1378, 0x62707b5c22001f6d)
  {
    hide ScrambleW, FeedW;
    Block2First();
    Block2Second();
    Block2Left();
    Block2Right();
  }

  lemma Block3First()
    ensures ScrambleW(0x99fa10ff0099fa10, BIG_C1, 31, C2) == 0x80ea7647446392a3
  {
    hide RotW, MulW;
    Product(0x99fa10ff0099fa10, BIG_C1, 0x51a872c3d2be4de6, 0xbde785baf4503f50);
    Rot31(0xbde785baf4503f50);
    assert RotW(0xbde785baf4503f50, 31) == 0x7a281fa85ef3c2dd;
    Product(0x7a281fa85ef3c2dd, C2, 0x24b9247970f59e63, 0x80ea7647446392a3);
  }

  lemma Block3Second()
    ensures ScrambleW(0x10ff0099fa10ff00, C2, 33, BIG_C1) == 0x85b445a95a587ae5
  {
    hide RotW, MulW;
    Product(0x10ff0099fa10ff00, C2, 0x51c03ba125a0bdf, 0x743871688bdb8100);
    Rot33(0x743871688bdb8100);
    assert RotW(0x743871688bdb8100, 33) == 0x17b70200e870e2d1;
    Product(0x17b70200e870e2d1, BIG_C1, 0xc939de75f7c73df, 0x85b445a95a587ae5);
  }

  lemma Block3Left()
    ensures FeedW(0x67267b8ead1e1378, 0x80ea7647446392a3, 27, 0x62707b5c22001f6d, 0x52dce729) == 0x78ae051759156670
  {
    hide RotW, Bitwise, MulW;
    XorBytes(0x78, 0x13, 0x1e, 0xad, 0x8e, 0x7b, 0x26, 0x67, 0xa3, 0x92, 0x63, 0x44, 0x47, 0x76, 0xea, 0x80);
    assert XorW(0x67267b8ead1e1378, 0x80ea7647446392a3) == 0xe7cc0dc9e97d81db;
    Rot27(0xe7cc0dc9e97d81db);
    assert RotW(0xe7cc0dc9e97d81db, 27) == 0x4f4bec0edf3e606e;
    assert AddW(0x4f4bec0edf3e606e, 0x62707b5c22001f6d) == 0xb1bc676b013e7fdb;
    Product(0xb1bc676b013e7fdb, 5, 0x3, 0x78ae051706387f47);
    assert AddW(0x78ae051706387f47, 0x52dce729) == 0x78ae051759156670;
  }

  lemma Block3Right()
    ensures FeedW(0x62707b5c22001f6d, 0x85b445a95a587ae5, 31, 0x78ae051759156670, 0x38495ab5) == 0x843174b391ef847
  {
    hide RotW, Bitwise, MulW;
    XorBytes(0x6d, 0x1f, 0x00, 0x22, 0x5c, 0x7b, 0x70, 0x62, 0xe5, 0x7a, 0x58, 0x5a, 0xa9, 0x45, 0xb4, 0x85);
    assert XorW(0x62707b5c22001f6d, 0x85b445a95a587ae5) == 0xe7c43ef578586588;
    Rot31(0xe7c43ef578586588);
    assert RotW(0xe7c43ef578586588, 31) == 0xbc2c32c473e21f7a;
    assert AddW(0xbc2c32c473e21f7a, 0x78ae051759156670) == 0x34da37dbccf785ea;
    Product(0x34da37dbccf785ea, 5, 0x1, 0x843174b00d59d92);
    assert AddW(0x843174b00d59d92, 0x38495ab5) == 0x843174b391ef847;
  }

  lemma Block3()
    ensures BlockW(0x67267b8ead1e1378, 0x62707b5c22001f6d, 0x99fa10ff0099fa10, 0x10ff0099fa10ff00) ==
            (0x78ae051759156670, 0x843174b391ef847)
  {
    hide ScrambleW, FeedW;
    Block3First();
    Block3Second();
    Block3Left();
    Block3Right();
  }

  lemma TailOfLong()
    ensures ScrambleW(0x66fa, BIG_C1, 31, C2) == 0x4dd58ffd73c1853b
  {
    hide RotW, MulW;
    Product(0x66fa, BIG_C1, 0x369c, 0x7822788b482cbc02);
    Rot31(0x7822788b482cbc02);
    assert RotW(0x7822788b482cbc02, 31) == 0xa4165e013c113c45;
    Product(0xa4165e013c113c45, C2, 0x31541c5e7d910b31, 0x4dd58ffd73c1853b);
  }

  lemma FirstMixOfLong()
    ensures FmixW(0x3dbea23563f3dbee) == 0x927970f1ee119c57
  {
    hide FoldW, MulW;
    FoldFirstMixOfLong();
    Product(0x3dbea2357d2c8af4, F1, 0x3d94974dffd6e36b, 0xa99b70a39facb564);
    Product(0xa99b70a3cb610d35, F2, 0x8263f88bb9b69a76, 0x927970f1a72d242f);
  }

  lemma FoldFirstMixOfLong()
    ensures FoldW(0x3dbea23563f3dbee) == 0x3dbea2357d2c8af4
    ensures FoldW(0xa99b70a39facb564) == 0xa99b70a3cb610d35
    ensures FoldW(0x927970f1a72d242f) == 0x927970f1ee119c57
  {
    hide Bitwise;
    XorBytes(0xee, 0xdb, 0xf3, 0x63, 0x35, 0xa2, 0xbe, 0x3d, 0x1a, 0x51, 0xdf, 0x1e, 0x00, 0x00, 0x00, 0x00);
    XorBytes(0x64, 0xb5, 0xac, 0x9f, 0xa3, 0x70, 0x9b, 0xa9, 0x51, 0xb8, 0xcd, 0x54, 0x00, 0x00, 0x00, 0x00);
    XorBytes(0x2f, 0x24, 0x2d, 0xa7, 0xf1, 0x70, 0x79, 0x92, 0x78, 0xb8, 0x3c, 0x49, 0x00, 0x00, 0x00, 0x00);
  }

  lemma SecondMixOfLong()
    ensures FmixW(0x4601b9809d12d463) == 0xbe88f750e7d64c5e
  {
    hide FoldW, MulW;
    FoldSecondMixOfLong();
    Product(0x4601b980be1208a3, F1, 0x45d20e692938e52c, 0xd6296fead6490e87);
    Product(0xd6296feabd5db972, F2, 0xa4a4aaa04d0e0fbf, 0xbe88f750b89237f6);
  }

  lemma FoldSecondMixOfLong()
    ensures FoldW(0x4601b9809d12d463) == 0x4601b980be1208a3
    ensures FoldW(0xd6296fead6490e87) == 0xd6296feabd5db972
    ensures FoldW(0xbe88f750b89237f6) == 0xbe88f750e7d64c5e
  {
    hide Bitwise;
    XorBytes(0x63, 0xd4, 0x12, 0x9d, 0x80, 0xb9, 0x01, 0x46, 0xc0, 0xdc, 0x00, 0x23, 0x00, 0x00, 0x00, 0x00);
    XorBytes(0x87, 0x0e, 0x49, 0xd6, 0xea, 0x6f, 0x29, 0xd6, 0xf5, 0xb7, 0x14, 0x6b, 0x00, 0x00, 0x00, 0x00);
    XorBytes(0xf6, 0x37, 0x92, 0xb8, 0x50, 0xf7, 0x88, 0xbe, 0xa8, 0x7b, 0x44, 0x5f, 0x00, 0x00, 0x00, 0x00);
  }

  lemma FinishOfLong()
    ensures FinishW(0x357b8aea2ad4e34b, 0x843174b391ef847, 50) == 0x51026842d5e7e8b5
  {
    hide Bitwise, FmixW;
    XorBytes(0x4b, 0xe3, 0xd4, 0x2a, 0xea, 0x8a, 0x7b, 0x35, 0x32, 0x00, 0x00, 0x00, 0x00, 0x00, 0x00, 0x00);
    XorBytes(0x47, 0xf8, 0x1e, 0x39, 0x4b, 0x17, 0x43, 0x08, 0x32, 0x00, 0x00, 0x00, 0x00, 0x00, 0x00, 0x00);
    assert AddW(0x357b8aea2ad4e379, 0x843174b391ef875) == 0x3dbea23563f3dbee;
    assert AddW(0x843174b391ef875, 0x3dbea23563f3dbee) == 0x4601b9809d12d463;
    FirstMixOfLong();
    SecondMixOfLong();
  }

  lemma LongWord0()
    ensures Unsigned(Word(LONG_KEY, 0)) == 0x10ff0099fa10ff00
  {
    hide Word;
    assert LONG_KEY[0..8] == [0x00, 0xff, 0x10, 0xfa, 0x99, 0x00, 0xff, 0x10];
    WordIs(LONG_KEY, 0, [0x00, 0xff, 0x10, 0xfa, 0x99, 0x00, 0xff, 0x10]);
    assert Horner(0x00, 0xff, 0x10, 0xfa, 0x99, 0x00, 0xff, 0x10) == 0x10ff0099fa10ff00;
  }

  lemma LongWord1()
    ensures Unsigned(Word(LONG_KEY, 1)) == 0x99fa10ff0099fa
  {
    hide Word;
    assert LONG_KEY[8..16] == [0xfa, 0x99, 0x00, 0xff, 0x10, 0xfa, 0x99, 0x00];
    WordIs(LONG_KEY, 1, [0xfa, 0x99, 0x00, 0xff, 0x10, 0xfa, 0x99, 0x00]);
    assert Horner(0xfa, 0x99, 0x00, 0xff, 0x10, 0xfa, 0x99, 0x00) == 0x99fa10ff0099fa;
  }

  lemma LongWord2()
    ensures Unsigned(Word(LONG_KEY, 2)) == 0xfa10ff0099fa10ff
  {
    hide Word;
    assert LONG_KEY[16..24] == [0xff, 0x10, 0xfa, 0x99, 0x00, 0xff, 0x10, 0xfa];
    WordIs(LONG_KEY, 2, [0xff, 0x10, 0xfa, 0x99, 0x00, 0xff, 0x10, 0xfa]);
    assert Horner(0xff, 0x10, 0xfa, 0x99, 0x00, 0xff, 0x10, 0xfa) == 0xfa10ff0099fa10ff;
  }

  lemma LongWord3()
    ensures Unsigned(Word(LONG_KEY, 3)) == 0xff0099fa10ff0099
  {
    hide Word;
    assert LONG_KEY[24..32] == [0x99, 0x00, 0xff, 0x10, 0xfa, 0x99, 0x00, 0xff];
    WordIs(LONG_KEY, 3, [0x99, 0x00, 0xff, 0x10, 0xfa, 0x99, 0x00, 0xff]);
    assert Horner(0x99, 0x00, 0xff, 0x10, 0xfa, 0x99, 0x00, 0xff) == 0xff0099fa10ff0099;
  }

  lemma LongWord4()
    ensures Unsigned(Word(LONG_KEY, 4)) == 0x99fa10ff0099fa10
  {
    hide Word;
    assert LONG_KEY[32..40] == [0x10, 0xfa, 0x99, 0x00, 0xff, 0x10, 0xfa, 0x99];
    WordIs(LONG_KEY, 4, [0x10, 0xfa, 0x99, 0x00, 0xff, 0x10, 0xfa, 0x99]);
    assert Horner(0x10, 0xfa, 0x99, 0x00, 0xff, 0x10, 0xfa, 0x99) == 0x99fa10ff0099fa10;
  }

  lemma LongWord5()
    ensures Unsigned(Word(LONG_KEY, 5)) == 0x10ff0099fa10ff00
  {
    hide Word;
    assert LONG_KEY[40..48] == [0x00, 0xff, 0x10, 0xfa, 0x99, 0x00, 0xff, 0x10];
    WordIs(LONG_KEY, 5, [0x00, 0xff, 0x10, 0xfa, 0x99, 0x00, 0xff, 0x10]);
    assert Horner(0x00, 0xff, 0x10, 0xfa, 0x99, 0x00, 0xff, 0x10) == 0x10ff0099fa10ff00;
  }

  lemma LongBody()
    ensures var s := Body64(LONG_KEY, 3);
            Unsigned(s.h1) == 0x78ae051759156670 && Unsigned(s.h2) == 0x843174b391ef847
  {
    hide Word, Block64, BlockW, Body64;
    LongWord0();
    LongWord1();
    LongWord2();
    LongWord3();
    LongWord4();
    LongWord5();
    Block1();
    Block2();
    Block3();
    BodyStep(LONG_KEY, 0);
    BodyStep(LONG_KEY, 1);
    BodyStep(LONG_KEY, 2);
    BodyStart(LONG_KEY);
  }

  /** Fifty bytes: three blocks and a tail of two bytes, one of them sign-extended. */
  lemma HashOfLongKey()
    ensures Hash64(LONG_KEY) == 5837342703291459765
  {
    hide Hash64, Body64, ScrambleW, FinishW, TailMix64, Bitwise, TailValue;
    LongBody();
    assert LONG_KEY[48..] == [250, 153];
    LongTail();
    TailOfLong();
    XorBytes(0x70, 0x66, 0x15, 0x59, 0x17, 0x05, 0xae, 0x78, 0x3b, 0x85, 0xc1, 0x73, 0xfd, 0x8f, 0xd5, 0x4d);
    FinishOfLong();
    LongKey(LONG_KEY, 0x4dd58ffd73c1853b);
    SignedReading(Hash64(LONG_KEY), 0x51026842d5e7e8b5);
  }

  lemma LongTail()
    ensures Unsigned(TailValue([250, 153])) == 0x66fa
  {
    TailDigits([250, 153]);
  }
}
