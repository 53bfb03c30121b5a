/** The `varint` format of `cassandra/marshal.py`: two's complement, most significant byte
    first, as many bytes as needed. Section 6.23 of the CQL native protocol v4. */
module Varint {
  import opened Bits
  import opened Bytes

  /** `varint_unpack`: the value of n bytes read as an 8n-bit two's-complement number. */
  function VarintUnpack(term: ByteString): int
    requires term != []
  {
    var val := BigEndian(term);
    if term[0] >= 128 then val - Pow2(8 * |term|) else val
  }

  /** n bytes hold exactly the numbers from -2^(8n-1) to 2^(8n-1) - 1. */
  lemma UnpackRange(term: ByteString)
    requires term != []
    ensures -(Pow2(8 * |term| - 1) as int) <= VarintUnpack(term) < Pow2(8 * |term| - 1)
  {
    TopBit(term);
    assert Pow2(8 * |term|) == 2 * Pow2(8 * |term| - 1);
  }

  /** The first byte is 128 or more exactly when the top bit is set. */
  lemma {:induction false} TopBit(term: ByteString)
    requires term != []
    ensures term[0] >= 128 <==> BigEndian(term) >= Pow2(8 * |term| - 1)
  {
    if |term| == 1 {
      assert term[..0] == [];
      assert Pow2(7) == 128;
    } else {
      var front := term[..|term| - 1];
      TopBit(front);
      Pow2Step8(8 * |front| - 1);
      var x, p, b := BigEndian(front), Pow2(8 * |front| - 1), term[|term| - 1];
      assert BigEndian(term) == 256 * x + b;
      assert 256 * x + b >= 256 * p <==> x >= p;
    }
  }

  lemma Pow2Step8(n: nat)
    ensures Pow2(8 + n) == 256 * Pow2(n)
  {
    Pow2Add(8, n);
    assert Pow2(8) == 256;
  }

  /** Two byte strings of one length with the same value are the same. */
  lemma UnpackInjective(s: ByteString, t: ByteString)
    requires s != [] && |s| == |t|
    requires VarintUnpack(s) == VarintUnpack(t)
    ensures s == t
  {
    TopBit(s);
    TopBit(t);
    assert Pow2(8 * |s|) == 2 * Pow2(8 * |s| - 1);
    DigitsUnique(s);
    DigitsUnique(t);
  }

  /** `varint_pack`. The result reads back as the number; no shorter byte string does, and no
      other of the same length. */
  method VarintPack(n: int) returns (bytes: ByteString)
    ensures bytes != [] && VarintUnpack(bytes) == n
    ensures IsShortest(bytes, n)
  {
    hide Pow2, VarintUnpack, IsShortest, LowDigits, Reverse, BigEndian, BitLength;
    var pos, big := true, n;
    if big == 0 {
      bytes := [0];
      ZeroIsShortest();
      return;
    }
    ghost var length := 0;
    if big < 0 {
      var bytelength := BitLength(-big - 1) / 8 + 1;
      length := bytelength;
      NegativeLength(-big - 1);
      big := Pow2(8 * bytelength) + big;
      pos := false;
    }
    var revbytes := GatherDigits(big);
    ghost var k := |revbytes|;
    if pos && revbytes[|revbytes| - 1] >= 128 {
      AppendZero(big, k);
      revbytes := revbytes + [0];
    }
    bytes := Reverse(revbytes);
    PackedValue(big, k, |revbytes|, bytes);
    if pos {
      PositiveIsShortest(big, k, bytes);
    } else {
      NegativeIsShortest(n, length, k, bytes);
    }
  }

  /** The loop that peels off the digits, least significant first. */
  method GatherDigits(v: nat) returns (revbytes: ByteString)
    requires v > 0
    ensures var k := |revbytes|;
            && k > 0
            && revbytes == LowDigits(v, k)
            && Pow2(8 * (k - 1)) <= v < Pow2(8 * k)
            && revbytes[k - 1] == v / Pow2(8 * (k - 1))
  {
    hide LowDigits;
    var big := v;
    revbytes := [];
    LowDigitsNone(v);
    while big > 0
      invariant big == v / Pow2(8 * |revbytes|)
      invariant revbytes == LowDigits(v, |revbytes|)
      invariant revbytes != [] ==> v / Pow2(8 * (|revbytes| - 1)) > 0
    {
      LowDigitsAppend(v, |revbytes|);
      Pow2Byte(|revbytes|);
      DivTwice(v, Pow2(8 * |revbytes|), 256);
      revbytes := revbytes + [big % 256];
      big := big / 256;
    }
    DigitCount(v, |revbytes|);
  }

  lemma LowDigitsNone(v: nat)
    ensures LowDigits(v, 0) == [] && v / Pow2(8 * 0) == v
  {
  }

  lemma AppendZero(v: nat, k: nat)
    requires v < Pow2(8 * k)
    ensures LowDigits(v, k) + [0] == LowDigits(v, k + 1)
  {
    hide LowDigits, Pow2;
    LowDigitsAppend(v, k);
    QuotientBounds(v, Pow2(8 * k), 1);
    assert v / Pow2(8 * k) == 0;
  }

  /** No shorter byte string, and no other of this length, reads as n. */
  ghost predicate IsShortest(bytes: ByteString, n: int) {
    forall t: ByteString :: t != [] && VarintUnpack(t) == n ==> |bytes| < |t| || t == bytes
  }

  lemma OutOfReachIsShortest(bytes: ByteString, n: int)
    requires bytes != [] && VarintUnpack(bytes) == n
    requires |bytes| > 1 ==> n >= Pow2(8 * (|bytes| - 1) - 1) || n < -(Pow2(8 * (|bytes| - 1) - 1) as int)
    ensures IsShortest(bytes, n)
  {
    hide Pow2, VarintUnpack;
    var m := |bytes|;
    forall t: ByteString | t != [] && VarintUnpack(t) == n ensures m < |t| || t == bytes {
      UnpackRange(t);
      if |t| < m {
        Pow2Monotone(8 * |t| - 1, 8 * (m - 1) - 1);
      } else if |t| == m {
        UnpackInjective(t, bytes);
      }
    }
  }

  lemma ZeroIsShortest()
    ensures VarintUnpack([0]) == 0 && IsShortest([0], 0)
  {
    assert [0][..0] == [];
    OutOfReachIsShortest([0], 0);
  }

  /** A number whose quotient by 256^(k-1) is positive and by 256^k is 0 has k digits. */
  lemma DigitCount(v: nat, k: nat)
    requires k > 0 && v / Pow2(8 * k) == 0 && v / Pow2(8 * (k - 1)) > 0
    ensures Pow2(8 * (k - 1)) <= v < Pow2(8 * k)
    ensures LowDigits(v, k)[k - 1] == v / Pow2(8 * (k - 1))
  {
    hide Pow2, LowDigits;
    LowDigitsAppend(v, k - 1);
    Pow2Byte(k - 1);
    QuotientBounds(v, Pow2(8 * (k - 1)), 256);
    QuotientBounds(v, Pow2(8 * (k - 1)), 1);
    QuotientBounds(v, Pow2(8 * k), 1);
  }

  lemma NegativeLength(m: nat)
    ensures var length := BitLength(m) / 8 + 1;
            && m < Pow2(8 * length - 1)
            && Pow2(8 * length) == 2 * Pow2(8 * length - 1)
            && (length > 1 ==> m >= Pow2(8 * (length - 1) - 1))
  {
    hide Pow2, BitLength;
    var b := BitLength(m);
    var length := b / 8 + 1;
    assert b <= 8 * length - 1;
    Pow2Double(8 * length - 1);
    BitLengthBounds(m);
    Pow2Monotone(b, 8 * length - 1);
    if length > 1 {
      Pow2Monotone(8 * (length - 1) - 1, b - 1);
    }
  }

  /** The digits gathered, reversed, with or without the sign byte. */
  lemma PackedValue(v: nat, k: nat, m: nat, bytes: ByteString)
    requires k <= m <= k + 1 && v < Pow2(8 * k)
    requires bytes == Reverse(LowDigits(v, m))
    ensures |bytes| == m && BigEndian(bytes) == v
  {
    ReverseLowDigits(v, m);
    Pow2Monotone(8 * k, 8 * m);
    DigitsValue(v, m);
  }

  lemma PositiveIsShortest(v: nat, k: nat, bytes: ByteString)
    requires k > 0 && Pow2(8 * (k - 1)) <= v < Pow2(8 * k)
    requires |bytes| == if v / Pow2(8 * (k - 1)) >= 128 then k + 1 else k
    requires BigEndian(bytes) == v
    ensures VarintUnpack(bytes) == v && IsShortest(bytes, v)
  {
    hide Pow2, IsShortest, BigEndian;
    TopBit(bytes);
    HighDigit(v, k);
    Pow2Monotone(8 * k, 8 * (k + 1) - 1);
    if k > 1 { Pow2Monotone(8 * (k - 1) - 1, 8 * (k - 1)); }
    OutOfReachIsShortest(bytes, v);
  }

  /** A number between half of 256^length and 256^length has `length` digits. */
  lemma LengthIsCount(v: nat, length: nat, k: nat)
    requires length > 0 && k > 0
    requires Pow2(8 * length - 1) <= v < Pow2(8 * length)
    requires Pow2(8 * (k - 1)) <= v < Pow2(8 * k)
    ensures k == length
  {
    hide Pow2;
    if 8 * k <= 8 * length - 1 {
      Pow2Monotone(8 * k, 8 * length - 1);
    } else if 8 * length <= 8 * (k - 1) {
      Pow2Monotone(8 * length, 8 * (k - 1));
    }
  }

  lemma NegativeIsShortest(n: int, length: nat, k: nat, bytes: ByteString)
    requires n < 0 && length > 0 && k > 0 && |bytes| == k
    requires -n - 1 < Pow2(8 * length - 1) && (length > 1 ==> -n - 1 >= Pow2(8 * (length - 1) - 1))
    requires Pow2(8 * length) == 2 * Pow2(8 * length - 1)
    requires Pow2(8 * (k - 1)) <= Pow2(8 * length) + n < Pow2(8 * k)
    requires BigEndian(bytes) == Pow2(8 * length) + n
    ensures VarintUnpack(bytes) == n && IsShortest(bytes, n)
  {
    hide Pow2, IsShortest, BigEndian;
    LengthIsCount(Pow2(8 * length) + n, length, k);
    TopBit(bytes);
    OutOfReachIsShortest(bytes, n);
  }

  lemma HighDigit(v: nat, k: nat)
    requires k > 0
    ensures v / Pow2(8 * (k - 1)) >= 128 <==> v >= Pow2(8 * k - 1)
  {
    Pow2Add(7, 8 * (k - 1));
    assert Pow2(7) == 128;
    QuotientBounds(v, Pow2(8 * (k - 1)), 128);
  }
}
