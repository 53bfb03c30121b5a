/** The `vint` format of `cassandra/marshal.py`: zig-zag numbers whose first byte says, by its
    leading ones, how many bytes follow. Section 3 of the CQL native protocol v5. */
module Vints {
  import opened Bits
  import opened Bytes
  import opened Seqs

  function EncodeZigZag(n: int): int { Bitwise(Xor, Shl(n, 1), Shr(n, 63)) }

  function DecodeZigZag(n: int): int { Bitwise(Xor, Shr(n, 1), -Bitwise(And, n, 1)) }

  // --------------------------------------------------------------------------- zig-zag

  /** Numbers of one sign differ in finitely many places, and in none only when equal. */
  lemma {:induction false} XorSameSign(a: int, b: int)
    requires a >= 0 <==> b >= 0
    ensures Bitwise(Xor, a, b) >= 0
    ensures Bitwise(Xor, a, b) == 0 ==> a == b
    decreases Magnitude(a) + Magnitude(b)
  {
    if !((a == 0 || a == -1) && (b == 0 || b == -1)) {
      XorSameSign(a / 2, b / 2);
    }
  }

  /** Shifting right commutes with the bitwise operations. */
  lemma {:induction false} BitwiseShr(op: Op, a: int, b: int, n: nat)
    ensures Bitwise(op, a, b) / Pow2(n) == Bitwise(op, a / Pow2(n), b / Pow2(n))
    decreases n
  {
    if n == 0 {
      assert Pow2(n) == 1;
    } else {
      HalveBitwise(op, a, b);
      BitwiseShr(op, a / 2, b / 2, n - 1);
      HalveThenShift(a, n);
      HalveThenShift(b, n);
      HalveThenShift(Bitwise(op, a, b), n);
    }
  }

  lemma HalveThenShift(a: int, n: nat)
    requires n > 0
    ensures (a / 2) / Pow2(n - 1) == a / Pow2(n)
  {
    var p := Pow2(n - 1);
    var q, r := a / 2, a % 2;
    var s, t := q / p, q % p;
    Regroup(s, p, t, 2, r);
    ModUnique(a, 2 * p, s, t * 2 + r);
  }

  /** The zig-zag code of a number is never negative, fits 64 bits exactly when the number
      does, and decodes to it. */
  lemma ZigZag(n: int)
    ensures EncodeZigZag(n) >= 0
    ensures EncodeZigZag(n) < TWO64 <==> IsInt64(n)
    ensures IsInt64(n) ==> DecodeZigZag(EncodeZigZag(n)) == n
  {
    hide Bitwise;
    Pow2Values();
    if IsInt64(n) {
      ZigZagInside(n);
    } else {
      ZigZagOutside(n);
    }
  }

  lemma ZigZagInside(n: int)
    requires IsInt64(n)
    ensures 0 <= EncodeZigZag(n) < TWO64
    ensures DecodeZigZag(EncodeZigZag(n)) == n
  {
    hide Bitwise, Pow2;
    Pow2Values();
    if n >= 0 {
      assert Shr(n, 63) == 0;
      WithZero(2 * n);
      AndMask(2 * n, 1);
      assert EncodeZigZag(n) == 2 * n;
      WithZero(n);
    } else {
      assert Shr(n, 63) == -1;
      XorOnes(2 * n);
      AndMask(-2 * n - 1, 1);
      assert EncodeZigZag(n) == -2 * n - 1;
      XorOnes(-n - 1);
    }
  }

  /** The code counts 0, -1, 1, -2, 2 and so on: even for the numbers from 0 up, odd for those below. */
  lemma ZigZagCounts(n: int)
    ensures IsInt64(n) ==> EncodeZigZag(n) == if n >= 0 then 2 * n else -2 * n - 1
    ensures n >= 0 ==> DecodeZigZag(n) == if n % 2 == 0 then n / 2 else -(n + 1) / 2
  {
    hide Bitwise, Pow2;
    Pow2Values();
    if IsInt64(n) {
      assert Shr(n, 63) == if n >= 0 then 0 else -1;
      WithZero(2 * n);
      XorOnes(2 * n);
    }
    AndMask(n, 1);
    WithZero(n / 2);
    XorOnes(n / 2);
  }

  lemma ZigZagOutside(n: int)
    requires !IsInt64(n)
    ensures EncodeZigZag(n) >= TWO64
  {
    hide Bitwise, Pow2;
    Pow2Values();
    var q := Shr(n, 63);
    assert (2 * n) / TWO64 == q;
    assert q != 0 && q != -1;
    BitwiseShr(Xor, 2 * n, q, 64);
    XorSameSign(q, q / TWO64);
    assert q / TWO64 != q;
    assert EncodeZigZag(n) / TWO64 >= 1;
  }

  // ------------------------------------------------------------------ one unsigned vint

  /** How many bytes follow the first: n of them, up to 7, leave 7 - n bits in it, and 8 leave
      none. */
  function ExtraBytes(u: nat): (n: nat)
    requires u < TWO64
    ensures n <= 8
  {
    var bits := BitLength(u);
    if bits <= 7 then 0 else if bits <= 14 then 1 else if bits <= 21 then 2 else if bits <= 28 then 3
    else if bits <= 35 then 4 else if bits <= 42 then 5 else if bits <= 49 then 6 else if bits <= 56 then 7 else 8
  }

  /** The first byte: n ones over the top bits of the number. */
  function LeadByte(n: nat, top: nat): Byte
    requires n <= 8 && top < Pow2(8 - n)
  {
    Pow2Monotone(8 - n, 8);
    Pow2Small();
    256 - Pow2(8 - n) + top
  }

  /** A number spread over a first byte and n more. */
  function Layout(u: nat, n: nat): (s: ByteString)
    requires n <= 8 && u / Pow2(8 * n) < Pow2(8 - n)
    ensures |s| == n + 1
  {
    QuotientNatural(u, Pow2(8 * n));
    [LeadByte(n, u / Pow2(8 * n))] + Digits(u, n)
  }

  /** The layout of an unsigned number below 2^64: n ones, then a zero unless n is 8, then the
      number. */
  function VintBytes(u: nat): (s: ByteString)
    requires u < TWO64
    ensures |s| == ExtraBytes(u) + 1
  {
    FirstByte(u);
    Layout(u, ExtraBytes(u))
  }

  /** The top part fits under the leading ones and the zero after them. */
  lemma FirstByte(u: nat)
    requires u < TWO64
    ensures var n := ExtraBytes(u);
            u / Pow2(8 * n) < (if n == 8 then 1 else Pow2(7 - n)) <= Pow2(8 - n)
  {
    hide Pow2, BitLength;
    var n := ExtraBytes(u);
    Pow2Values();
    Pow2Small();
    BitLengthFits(u, 64);
    if n < 8 {
      BitLengthFits(u, 7 + 7 * n);
      Pow2Add(8 * n, 7 - n);
      QuotientBounds(u, Pow2(8 * n), Pow2(7 - n));
    } else {
      QuotientBounds(u, Pow2(64), 1);
    }
  }

  /** The bytes of a vint: as many ones as bytes follow, then a zero unless there are eight of them,
      then the number, most significant bits first, in as few bytes as will do. */
  lemma VintLayout(u: nat, i: nat)
    requires u < TWO64
    ensures var s := VintBytes(u);
            var n := |s| - 1;
            && n <= 8 && (n < 8 ==> u < Pow2(7 * n + 7)) && (n > 0 ==> u >= Pow2(7 * n))
            && (i < n ==> s[0] / Pow2(7 - i) % 2 == 1)
            && (n < 8 ==> s[0] / Pow2(7 - n) % 2 == 0)
            && s[0] % Pow2(8 - n) == u / Pow2(8 * n)
            && (i < n ==> s[1 + i] == u / Pow2(8 * (n - 1 - i)) % 256)
  {
    hide Pow2, BitLength, LeadByte, Digits;
    var n := ExtraBytes(u);
    FirstByte(u);
    VintLength(u);
    var top := u / Pow2(8 * n);
    QuotientNatural(u, Pow2(8 * n));
    LeadByteTop(n, top);
    LeadBits(n, top, i);
    if i < n { DigitAt(u, n, i); }
  }

  lemma VintLength(u: nat)
    requires u < TWO64
    ensures var n := ExtraBytes(u); (n < 8 ==> u < Pow2(7 * n + 7)) && (n > 0 ==> u >= Pow2(7 * n))
  {
    hide Pow2, BitLength;
    var n := ExtraBytes(u);
    BitLengthFits(u, 7 * n);
    BitLengthFits(u, 7 * n + 7);
  }

  lemma LeadBits(n: nat, top: nat, i: nat)
    requires n <= 8 && top < (if n == 8 then 1 else Pow2(7 - n)) <= Pow2(8 - n)
    ensures i < n ==> LeadByte(n, top) / Pow2(7 - i) % 2 == 1
    ensures n < 8 ==> LeadByte(n, top) / Pow2(7 - n) % 2 == 0
  {
    hide Pow2;
    Pow2Small();
    var b := LeadByte(n, top);
    if i < n {
      var p := Pow2(7 - i);
      Pow2Add(8 - n, n - 1 - i);
      Pow2Add(i, 8 - i);
      Pow2Double(7 - i);
      Pow2Monotone(8 - n, 7 - i);
      OneAbove(b, p, Pow2(i));
    }
    if n < 8 {
      Pow2Double(7 - n);
      Pow2Add(n, 8 - n);
      ZeroAbove(b, Pow2(7 - n), Pow2(n));
    }
  }

  /** A byte less than p below 256, which is 2pq, has a one at p. */
  lemma OneAbove(b: int, p: nat, q: nat)
    requires p > 0 && q * (2 * p) == 256 && 256 - p <= b < 256
    ensures b / p % 2 == 1
  {
    assert (2 * q - 1) * p == 256 - p by { Distribute(2 * q, -1, p); }
    ModUnique(b, p, 2 * q - 1, b - (256 - p));
  }

  lemma ZeroAbove(b: int, p: nat, q: nat)
    requires p > 0 && q * (2 * p) == 256 && 256 - 2 * p <= b < 256 - p
    ensures b / p % 2 == 0
  {
    assert (2 * q - 2) * p == 256 - 2 * p by { Distribute(2 * q, -2, p); }
    ModUnique(b, p, 2 * q - 2, b - (256 - 2 * p));
  }

  lemma Pow2Small()
    ensures Pow2(0) == 1 && Pow2(1) == 2 && Pow2(2) == 4 && Pow2(3) == 8 && Pow2(4) == 16
    ensures Pow2(5) == 32 && Pow2(6) == 64 && Pow2(7) == 128 && Pow2(8) == 256
  {
  }

  function Not(a: int): int { -a - 1 }

  /** The number of leading ones of a byte. */
  function LeadingOnes(first: Byte): int {
    8 - BitLength(255 - first)
  }

  /** `~first_byte & 0xff` flips the eight bits. */
  lemma Complement(first: Byte)
    ensures Bitwise(And, Not(first), 0xff) == 255 - first
    ensures 0 <= LeadingOnes(first) <= 8 && (first < 128 <==> LeadingOnes(first) == 0)
  {
    hide Bitwise, BitLength, Pow2;
    Pow2Small();
    AndMask(Not(first), 8);
    BitLengthFits(255 - first, 8);
    BitLengthFits(255 - first, 7);
  }

  /** The bytes that follow the first, folded in one by one. */
  function FoldIn(val: nat, bytes: ByteString): nat {
    if bytes == [] then val else FoldIn(val, bytes[..|bytes| - 1]) * 256 + bytes[|bytes| - 1]
  }

  lemma {:induction false} FoldInValue(val: nat, bytes: ByteString)
    ensures FoldIn(val, bytes) == val * Pow2(8 * |bytes|) + BigEndian(bytes)
  {
    if bytes == [] {
      assert Pow2(8 * |bytes|) == 1;
    } else {
      var front := bytes[..|bytes| - 1];
      FoldInValue(val, front);
      Pow2Byte(|front|);
      var p := Pow2(8 * |front|);
      assert (val * p) * 256 == val * (256 * p);
    }
  }

  /** One turn of `vints_unpack`: the number and how many bytes it takes; nothing when the
      bytes run out, where the source raises IndexError. */
  function UnpackOne(term: ByteString): (r: Option<(int, nat)>)
    requires term != []
    ensures r.Some? ==> 0 < r.value.1 <= |term|
  {
    Complement(term[0]);
    var n := LeadingOnes(term[0]);
    if n == 0 then Some((DecodeZigZag(term[0]), 1))
    else if n >= |term| then None
    else Some((DecodeZigZag(FoldIn(term[0] % Pow2(8 - n), term[1..n + 1])), n + 1))
  }

  function Unpack(term: ByteString): Option<seq<int>>
    decreases |term|
  {
    if term == [] then Some([])
    else
      match UnpackOne(term)
      case None => None
      case Some((v, k)) =>
        Prepend([v], Unpack(term[k..]))
  }

  function Prepend(vs: seq<int>, r: Option<seq<int>>): Option<seq<int>> {
    match r
    case None => None
    case Some(more) => Some(vs + more)
  }

  lemma PrependNone(r: Option<seq<int>>)
    ensures Prepend([], r) == r
  {
    if r.Some? { assert [] + r.value == r.value; }
  }

  lemma PrependTwice(s: seq<int>, t: seq<int>, r: Option<seq<int>>)
    ensures Prepend(s, Prepend(t, r)) == Prepend(s + t, r)
  {
    if r.Some? { assert s + (t + r.value) == (s + t) + r.value; }
  }

  /** The first byte tells how many follow, and which of its bits belong to the number. */
  lemma LeadByteFacts(n: nat, top: nat)
    requires n <= 8 && top < (if n == 8 then 1 else Pow2(7 - n)) <= Pow2(8 - n)
    ensures LeadingOnes(LeadByte(n, top)) == n
    ensures LeadByte(n, top) % Pow2(8 - n) == top
  {
    hide Pow2, BitLength;
    LeadByteTop(n, top);
    LeadByteOnes(n, top);
  }

  lemma LeadByteTop(n: nat, top: nat)
    requires n <= 8 && top < Pow2(8 - n)
    ensures LeadByte(n, top) % Pow2(8 - n) == top
  {
    hide Pow2;
    Pow2Small();
    var p, q := Pow2(8 - n), Pow2(n);
    Pow2Add(n, 8 - n);
    Distribute(q - 1, 1, p);
    ModUnique(LeadByte(n, top), p, q - 1, top);
  }

  lemma LeadByteOnes(n: nat, top: nat)
    requires n <= 8 && top < (if n == 8 then 1 else Pow2(7 - n)) <= Pow2(8 - n)
    ensures LeadingOnes(LeadByte(n, top)) == n
  {
    hide Pow2, BitLength;
    Pow2Small();
    var p := Pow2(8 - n);
    BitLengthFits(p - 1 - top, 8 - n);
    if n < 8 {
      BitLengthFits(p - 1 - top, 7 - n);
      Pow2Double(7 - n);
    }
  }

  /** A vint is self-delimiting: whatever follows it, reading gives the number and stops. */
  lemma VintReadsBack(u: nat, rest: ByteString)
    requires u < TWO64
    ensures UnpackOne(VintBytes(u) + rest) == Some((DecodeZigZag(u), |VintBytes(u)|))
  {
    hide Pow2, BitLength, DecodeZigZag, LeadByte, LeadingOnes;
    var n := ExtraBytes(u);
    var term := VintBytes(u) + rest;
    FirstByte(u);
    var top := u / Pow2(8 * n);
    LeadByteFacts(n, top);
    assert term[0] == LeadByte(n, top);
    Complement(term[0]);
    if n == 0 {
      NoExtra(u);
    } else {
      assert term[1..n + 1] == Digits(u, n);
      DigitsOfTail(u, n);
      FoldInValue(top, Digits(u, n));
    }
  }

  lemma NoExtra(u: nat)
    requires u < TWO64 && ExtraBytes(u) == 0
    ensures u / Pow2(8 * 0) == u && u < 128
    ensures LeadByte(0, u) == u
  {
    Pow2Small();
    BitLengthFits(u, 7);
  }

  lemma {:induction false} DigitsOfTail(u: nat, n: nat)
    ensures BigEndian(Digits(u, n)) == u % Pow2(8 * n)
    ensures u == (u / Pow2(8 * n)) * Pow2(8 * n) + BigEndian(Digits(u, n))
  {
    if n == 0 {
      assert Pow2(8 * n) == 1;
    } else {
      DigitsOfTail(u / 256, n - 1);
      assert Digits(u, n)[..n - 1] == Digits(u / 256, n - 1);
      Pow2Byte(n - 1);
      var p := Pow2(8 * (n - 1));
      DivTwice(u, 256, p);
      var q, r := u / (256 * p), (u / 256) % p;
      assert u == (q * p + r) * 256 + u % 256;
      Regroup(q, p, r, 256, u % 256);
      ModUnique(u, 256 * p, q, r * 256 + u % 256);
    }
  }

  // --------------------------------------------------------------------- lists of numbers

  predicate AllInt64(values: seq<int>) {
    forall i :: 0 <= i < |values| ==> IsInt64(values[i])
  }

  /** The packed form of a list: the vints of its numbers, one after another. */
  function PackedForm(values: seq<int>): ByteString
    requires AllInt64(values)
  {
    if values == [] then []
    else
      ZigZag(values[0]);
      VintBytes(EncodeZigZag(values[0])) + PackedForm(values[1..])
  }

  /** Unpacking undoes packing, for every list of 64-bit numbers and whatever follows it. */
  lemma {:induction false} UnpackPacked(values: seq<int>, rest: ByteString)
    requires AllInt64(values)
    ensures Unpack(PackedForm(values) + rest) == Prepend(values, Unpack(rest))
  {
    hide EncodeZigZag, DecodeZigZag, VintBytes, UnpackOne, IsInt64;
    if values == [] {
      assert PackedForm(values) + rest == rest;
      PrependNone(Unpack(rest));
    } else {
      var u := EncodeZigZag(values[0]);
      ZigZag(values[0]);
      var tail := PackedForm(values[1..]) + rest;
      assert PackedForm(values) + rest == VintBytes(u) + tail;
      VintReadsBack(u, tail);
      assert (VintBytes(u) + tail)[|VintBytes(u)|..] == tail;
      UnpackPacked(values[1..], rest);
      assert [values[0]] + values[1..] == values;
      PrependTwice([values[0]], values[1..], Unpack(rest));
    }
  }

  lemma RoundTrip(values: seq<int>)
    requires AllInt64(values)
    ensures Unpack(PackedForm(values)) == Some(values)
  {
    UnpackPacked(values, []);
    assert PackedForm(values) + [] == PackedForm(values);
    assert values + [] == values;
  }

  /** `vints_unpack`; nothing where it raises IndexError. */
  method VintsUnpack(term: ByteString) returns (result: Option<seq<int>>)
    ensures result == Unpack(term)
  {
    hide UnpackOne;
    var values := [];
    var n := 0;
    assert term[0..] == term;
    PrependNone(Unpack(term));
    while n < |term|
      invariant 0 <= n <= |term|
      invariant Unpack(term) == Prepend(values, Unpack(term[n..]))
    {
      var one := ReadVint(term, n);
      if one.None? {
        return None;
      }
      var (value, next) := one.value;
      assert term[n..][next - n..] == term[next..];
      PrependTwice(values, [value], Unpack(term[next..]));
      values, n := values + [value], next;
    }
    assert term[n..] == [] && values + [] == values;
    result := Some(values);
  }

  /** The body of the loop, from the first byte at n to the position after the number. */
  method ReadVint(term: ByteString, start: nat) returns (result: Option<(int, nat)>)
    requires start < |term|
    ensures result.Some? <==> UnpackOne(term[start..]).Some?
    ensures result.Some? ==> start < result.value.1 <= |term|
    ensures result.Some? ==> UnpackOne(term[start..]) == Some((result.value.0, result.value.1 - start))
  {
    hide DecodeZigZag, BitLength, Pow2, LeadingOnes;
    var n, first := start, term[start];
    Complement(first);
    var val := first;
    if first >= 128 {
      var extra := LeadingOnesOf(first);
      val := MaskFirst(first, extra);
      if n + extra >= |term| {
        return None;
      }
      ghost var top, rest := val, term[start..];
      var end := n + extra;
      while n < end
        invariant start <= n <= end
        invariant val == FoldIn(top, rest[1..n - start + 1])
      {
        n := n + 1;
        assert rest[1..n - start + 1][..n - start - 1] == rest[1..n - start];
        val := ShiftIn(val, term[n]);
      }
    }
    n := n + 1;
    result := Some((DecodeZigZag(val), n));
  }

  method LeadingOnesOf(first: Byte) returns (extra: nat)
    requires first >= 128
    ensures extra == LeadingOnes(first)
  {
    Complement(first);
    extra := 8 - BitLength(Bitwise(And, Not(first), 0xff));
  }

  /** `first_byte & (0xff >> num_extra_bytes)`. */
  method MaskFirst(first: Byte, extra: nat) returns (val: nat)
    requires extra <= 8
    ensures val == first % Pow2(8 - extra)
  {
    hide Bitwise, Pow2;
    MaskValue(extra);
    AndMask(first, 8 - extra);
    val := Bitwise(And, first, Shr(0xff, extra));
  }

  lemma MaskValue(extra: nat)
    requires extra <= 8
    ensures Shr(0xff, extra) == Pow2(8 - extra) - 1
  {
    hide Pow2;
    Pow2Small();
    Pow2Add(extra, 8 - extra);
    var p, q := Pow2(extra), Pow2(8 - extra);
    assert 0xff == (q - 1) * p + (p - 1);
    ModUnique(0xff, p, q - 1, p - 1);
  }

  /** `val <<= 8; val |= byte & 0xff`. */
  method ShiftIn(val: nat, b: Byte) returns (r: nat)
    ensures r == val * 256 + b
  {
    hide Bitwise, Pow2;
    Pow2Small();
    AndMask(b, 8);
    OrDisjoint(b, val, 8);
    r := Bitwise(Or, Shl(val, 8), Bitwise(And, b, 0xff));
  }

  /** Or-ing a number below 2^n into a multiple of 2^n adds it. */
  lemma {:induction false} OrDisjoint(low: nat, k: nat, n: nat)
    requires low < Pow2(n)
    ensures Bitwise(Or, k * Pow2(n), low) == k * Pow2(n) + low == Bitwise(Or, low, k * Pow2(n))
    decreases n
  {
    hide Bitwise;
    if n == 0 {
      OrZero(k);
    } else {
      OrDisjoint(low / 2, k, n - 1);
      HalveMultiple(k, n);
      BitwiseUnfold(Or, k * Pow2(n), low);
      BitwiseUnfold(Or, low, k * Pow2(n));
    }
  }

  lemma HalveMultiple(k: nat, n: nat)
    requires n > 0
    ensures k * Pow2(n) == 2 * (k * Pow2(n - 1))
    ensures (k * Pow2(n)) / 2 == k * Pow2(n - 1) && (k * Pow2(n)) % 2 == 0
  {
  }

  lemma {:induction false} OrZero(a: nat)
    ensures Bitwise(Or, a, 0) == a == Bitwise(Or, 0, a)
  {
    if a > 0 { OrZero(a / 2); }
  }

  /** `vints_pack`: fails exactly on a list with a number outside 64 bits. */
  method VintsPack(values: seq<int>) returns (result: Option<ByteString>)
    ensures result.Some? <==> AllInt64(values)
    ensures result.Some? ==> result.value == PackedForm(values)
  {
    hide EncodeZigZag, VintBytes, Reverse, IsInt64;
    var revbytes: ByteString := [];
    assert values[|values|..] == [];
    ReverseNone();
    var k := |values|;
    while k > 0
      invariant 0 <= k <= |values|
      invariant AllInt64(values[k..]) && Reverse(revbytes) == PackedForm(values[k..])
    {
      k := k - 1;
      ZigZag(values[k]);
      assert values[k..][1..] == values[k + 1..];
      var more := PackOne(revbytes, values[k]);
      if more.None? {
        return None;
      }
      revbytes := more.value;
    }
    assert values[0..] == values;
    result := Some(Reverse(revbytes));
  }

  lemma ReverseNone()
    ensures Reverse([]) == []
  {
  }

  /** One turn of the loop: the bytes go on in reverse order. */
  method PackOne(before: ByteString, value: int) returns (result: Option<ByteString>)
    ensures result.Some? <==> EncodeZigZag(value) < TWO64
    ensures EncodeZigZag(value) >= 0
    ensures result.Some? ==> Reverse(result.value) == VintBytes(EncodeZigZag(value)) + Reverse(before)
  {
    hide EncodeZigZag, VintBytes, Reverse, BitLength, Pow2;
    var v := EncodeZigZag(value);
    ZigZag(value);
    if v < 128 {
      result := Some(before + [v]);
      SingleByte(v);
      ReverseAppend(before, [v]);
    } else {
      var extra, revbytes;
      extra, v, revbytes := TakeExtraBytes(before, v);
      if extra > 8 {
        return None;
      }
      var first := MarkFirst(EncodeZigZag(value), extra, v);
      result := Some(revbytes + [first]);
      VintReversed(EncodeZigZag(value), before);
    }
  }

  lemma SingleByte(v: Byte)
    requires v < 128
    ensures VintBytes(v) == [v] && Reverse([v]) == [v]
  {
    hide Pow2, BitLength;
    Pow2Small();
    BitLengthFits(v, 7);
    NoExtra(v);
  }

  lemma VintReversed(u: nat, before: ByteString)
    requires u < TWO64
    ensures u / Pow2(8 * ExtraBytes(u)) < Pow2(8 - ExtraBytes(u))
    ensures var n := ExtraBytes(u);
            Reverse(before + LowDigits(u, n) + [LeadByte(n, u / Pow2(8 * n))]) == VintBytes(u) + Reverse(before)
  {
    hide Pow2, ExtraBytes, LeadByte;
    FirstByte(u);
    var n := ExtraBytes(u);
    var first := LeadByte(n, u / Pow2(8 * n));
    ReverseAppend(before + LowDigits(u, n), [first]);
    ReverseAppend(before, LowDigits(u, n));
    ReverseLowDigits(u, n);
    ReverseOne(first);
    assert VintBytes(u) + Reverse(before) == [first] + Digits(u, n) + Reverse(before);
  }

  lemma ReverseOne(b: Byte)
    ensures Reverse([b]) == [b]
  {
  }

  /** The inner loop: shed low bytes until the rest fits beside the marker bits. */
  method TakeExtraBytes(before: ByteString, u: nat) returns (extra: nat, v: nat, revbytes: ByteString)
    requires u >= 128
    ensures extra > 8 <==> u >= TWO64
    ensures extra <= 8 ==> extra == ExtraBytes(u)
    ensures v == u / Pow2(8 * extra) && revbytes == before + LowDigits(u, extra)
  {
    hide Pow2, BitLength, LowDigits;
    extra, v, revbytes := 0, u, before;
    var bits := BitLength(u);
    var reserved := extra + 1;
    NoDigits(u);
    while bits > 8 - reserved
      invariant bits == BitLength(u) - 8 * extra
      invariant reserved == Min(extra + 1, 8)
      invariant extra > 0 ==> BitLength(u) - 8 * (extra - 1) > 8 - Min(extra, 8)
      invariant v == u / Pow2(8 * extra) && revbytes == before + LowDigits(u, extra)
      decreases bits
    {
      LowDigitsAppend(u, extra);
      Pow2Byte(extra);
      DivTwice(u, Pow2(8 * extra), 256);
      extra := extra + 1;
      bits := bits - 8;
      reserved := Min(extra + 1, 8);
      revbytes := revbytes + [v % 256];
      v := v / 256;
    }
    Pow2Values();
    BitLengthFits(u, 64);
  }

  lemma NoDigits(u: nat)
    ensures u / Pow2(8 * 0) == u && LowDigits(u, 0) == []
  {
  }

  /** `v |= (0xff >> n << n)` with n = 8 - num_extra_bytes. */
  method MarkFirst(ghost u: nat, extra: nat, v: nat) returns (first: Byte)
    requires u < TWO64 && extra == ExtraBytes(u) && v == u / Pow2(8 * extra)
    ensures v < Pow2(8 - extra) && first == LeadByte(extra, v)
  {
    hide Pow2, Bitwise, ExtraBytes;
    FirstByte(u);
    Pow2Small();
    var n := 8 - extra;
    MaskValue(n);
    OrDisjoint(v, Pow2(extra) - 1, n);
    Pow2Add(extra, n);
    assert (Pow2(extra) - 1) * Pow2(n) == 256 - Pow2(n);
    first := Bitwise(Or, v, Shl(Shr(0xff, n), n));
  }
}
