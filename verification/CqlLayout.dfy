/** CQL values on the wire, byte by byte: numbers and texts by the value of each byte, collections
    and tuples by the place where each part stands. Section 6 of the CQL native protocol v4. */
module CqlLayout {
  import opened Bits
  import opened Bytes
  import opened Seqs
  import opened Varint
  import opened CqlLeaves
  import opened CqlWire
  import opened CqlCodec
  import CqlMaps
  import Frames
  import Utf8

  // -------------------------------------------------------------------------------- leaves

  /** An int is its four bytes in two's complement, most significant first, and nothing outside the
      32-bit range is written. */
  lemma IntBytes(n: int)
    ensures var bytes := SerializeLeaf(Int32, IntV(n));
            if -0x8000_0000 <= n < 0x8000_0000
            then bytes == Some([n / 0x100_0000 % 256, n / 0x1_0000 % 256, n / 256 % 256, n % 256])
            else bytes == None
  {
    hide Frames.PackSigned, Frames.FitsSigned;
    Frames.SignedBytes(n);
  }

  /** Any four bytes are an int; no other number of bytes is. */
  lemma IntOf(b: ByteString)
    requires b != []
    ensures DeserializeLeaf(Int32, b) ==
            if |b| != 4 then None
            else Some(IntV(Plain(b[0]) * 0x100_0000 + Plain(b[1]) * 0x1_0000 + Plain(b[2]) * 256 + Plain(b[3]) -
                           if b[0] >= 128 then 0x1_0000_0000 else 0))
  {
    hide VarintUnpack;
    Frames.SignedOf(b);
  }

  /** Byte i of a varint, and the fewest bytes that can hold it. */
  lemma VarintByteAt(n: int, i: nat)
    requires i < |VarintBytes(n)|
    ensures SerializeLeaf(VarInt, IntV(n)) == Some(VarintBytes(n))
    ensures VarintBytes(n)[i] == n / Pow2(8 * (|VarintBytes(n)| - 1 - i)) % 256
    ensures IsShortest(VarintBytes(n), n)
  {
    VarintBytesShortest(n);
    hide Frames.PackSigned, VarintLength, IsShortest;
    Frames.SignedByteAt(n, VarintLength(n), i);
  }

  /** Any bytes are a varint: the number in range whose digits in base 256 they are. */
  lemma VarintOf(b: ByteString, i: nat)
    requires i < |b|
    ensures DeserializeLeaf(VarInt, b).Some? && DeserializeLeaf(VarInt, b).value.IntV?
    ensures var n := DeserializeLeaf(VarInt, b).value.n;
            && -(Pow2(8 * |b| - 1) as int) <= n < Pow2(8 * |b| - 1)
            && n / Pow2(8 * (|b| - 1 - i)) % 256 == b[i]
  {
    hide VarintUnpack, Pow2;
    UnpackRange(b);
    Frames.UnpackedByteAt(b, i);
  }

  /** A character below 128 is its own byte. Any other has a lead byte that starts with as many ones as
      there are bytes, and continuation bytes that start with one; the bits after those are the
      character's number, in as few bytes as will do. */
  lemma CharBytes(c: char)
    ensures var b, n := Utf8.EncodeChar(c), c as int;
            && |b| == (if n < 0x80 then 1 else if n < 0x800 then 2 else if n < 0x1_0000 then 3 else 4)
            && (|b| == 1 ==> b == [n])
            && (|b| == 2 ==> 0xC0 <= b[0] < 0xE0 && (Plain(b[0]) - 0xC0) * 64 + (Plain(b[1]) - 0x80) == n)
            && (|b| == 3 ==>
                  && 0xE0 <= b[0] < 0xF0
                  && (Plain(b[0]) - 0xE0) * 4096 + (Plain(b[1]) - 0x80) * 64 + (Plain(b[2]) - 0x80) == n)
            && (|b| == 4 ==>
                  && 0xF0 <= b[0] < 0xF8
                  && n == (Plain(b[0]) - 0xF0) * 262144 + (Plain(b[1]) - 0x80) * 4096 + (Plain(b[2]) - 0x80) * 64 +
                          (Plain(b[3]) - 0x80))
            && (forall i :: 1 <= i < |b| ==> 0x80 <= b[i] < 0xC0)
  {
    Utf8.ThreeDigits(c as int);
    Utf8.FourDigits(c as int);
  }

  /** A text is its characters' bytes, one after the other. */
  lemma TextBytes(s: string, t: string)
    ensures SerializeLeaf(Text, TextV(s)) == Some(Utf8.Encode(s))
    ensures Utf8.Encode(s + t) == Utf8.Encode(s) + Utf8.Encode(t)
    ensures |s| == 1 ==> Utf8.Encode(s) == Utf8.EncodeChar(s[0])
  {
    hide Utf8.EncodeChar;
    TextConcat(s, t);
    if |s| == 1 {
      assert s[1..] == [] && Utf8.Encode([]) == [];
      assert Utf8.EncodeChar(s[0]) + [] == Utf8.EncodeChar(s[0]);
    }
  }

  lemma {:induction false} TextConcat(s: string, t: string)
    ensures Utf8.Encode(s + t) == Utf8.Encode(s) + Utf8.Encode(t)
    decreases |s|
  {
    hide Utf8.EncodeChar;
    if s == [] {
      assert s + t == t && Utf8.Encode([]) == [];
      assert [] + Utf8.Encode(t) == Utf8.Encode(t);
    } else {
      TextConcat(s[1..], t);
      assert (s + t)[1..] == s[1..] + t && (s + t)[0] == s[0];
      assert Utf8.EncodeChar(s[0]) + (Utf8.Encode(s[1..]) + Utf8.Encode(t)) == Utf8.Encode(s) + Utf8.Encode(t);
    }
  }

  lemma BlobBytes(b: ByteString)
    ensures SerializeLeaf(Blob, BytesV(b)) == Some(b) && DeserializeLeaf(Blob, b) == Some(BytesV(b))
  {
  }

  // ------------------------------------------------------------------------ lengths on the wire

  /** A count or length: four bytes from version 3 on, two before, and nothing that does not fit. */
  lemma LengthBytes(n: nat, pv: int)
    ensures PackLength(n, pv) ==
            if pv >= 3 then
              if n < 0x8000_0000 then Some([n / 0x100_0000 % 256, n / 0x1_0000 % 256, n / 256 % 256, n % 256]) else None
            else if n < 0x1_0000 then Some([n / 256, n % 256]) else None
  {
    hide Frames.PackSigned, Frames.FitsSigned;
    if pv >= 3 {
      Frames.SignedBytes(n);
    } else if n < 0x1_0000 {
      TwoDigits(n);
    }
  }

  lemma TwoDigits(n: nat)
    requires n < 0x1_0000
    ensures Digits(n, 2) == [n / 256, n % 256]
  {
    assert Digits(n / 256, 1) == [] + [n / 256 % 256];
  }

  /** The length of a null part: four bytes 255. */
  lemma NullPartBytes()
    ensures PackPartLength(None) == Some([255, 255, 255, 255])
  {
    hide Frames.PackSigned;
    MinusOneFits();
    Frames.SignedBytes(-1);
  }

  // ---------------------------------------------------------------------------- collections

  /** Where the length of item i stands, behind the count and the items before it. */
  function OffsetOf(cs: seq<ByteString>, pv: int, i: nat): nat
    requires i <= |cs|
  {
    if i == 0 then LengthWidth(pv) else OffsetOf(cs, pv, i - 1) + LengthWidth(pv) + |cs[i - 1]|
  }

  /** What stands at a place of a byte string. */
  predicate StandsAt(b: ByteString, at: nat, part: ByteString) {
    at + |part| <= |b| && b[at..at + |part|] == part
  }

  lemma StandsInside(pre: ByteString, mid: ByteString, post: ByteString)
    ensures StandsAt(pre + mid + post, |pre|, mid)
  {
  }

  /** A head, what comes before, two pieces and what comes after. */
  lemma PiecesStand(head: ByteString, before: ByteString, p: ByteString, q: ByteString, after: ByteString)
    ensures var b, at := head + (before + (p + q + after)), |head| + |before|;
            StandsAt(b, 0, head) && StandsAt(b, at, p) && StandsAt(b, at + |p|, q)
  {
    hide StandsAt;
    var b := head + (before + (p + q + after));
    StandsInside([], head, before + (p + q + after));
    assert [] + head + (before + (p + q + after)) == b;
    StandsInside(head + before, p, q + after);
    assert head + before + p + (q + after) == b;
    StandsInside(head + before + p, q, after);
    assert head + before + p + q + after == b;
  }

  /** The chunks up to some place, and those from there on. */
  lemma {:induction false} ChunksSplit(cs: seq<ByteString>, pv: int, i: nat)
    requires WriteChunks(cs, pv).Some? && i <= |cs|
    ensures WriteChunks(cs[..i], pv).Some? && WriteChunks(cs[i..], pv).Some?
    ensures WriteChunks(cs, pv).value == WriteChunks(cs[..i], pv).value + WriteChunks(cs[i..], pv).value
    ensures LengthWidth(pv) + |WriteChunks(cs[..i], pv).value| == OffsetOf(cs, pv, i)
    decreases i
  {
    hide PackLength;
    if i == 0 {
      assert cs[..0] == [] && cs[0..] == cs;
    } else {
      ChunksSplit(cs, pv, i - 1);
      var front, c := cs[..i - 1], cs[i - 1];
      assert cs[i - 1..][0] == c && cs[i - 1..][1..] == cs[i..];
      LengthReadsBack(|c|, pv);
      assert cs[..i] == front + [c];
      ChunksAppend(front, c, pv);
      assert WriteChunks(cs, pv).value == WriteChunks(front, pv).value +
             (PackLength(|c|, pv).value + c + WriteChunks(cs[i..], pv).value);
    }
  }

  lemma {:induction false} ChunksAppend(cs: seq<ByteString>, c: ByteString, pv: int)
    requires WriteChunks(cs, pv).Some? && PackLength(|c|, pv).Some?
    ensures WriteChunks(cs + [c], pv) == Some(WriteChunks(cs, pv).value + (PackLength(|c|, pv).value + c))
    decreases |cs|
  {
    hide PackLength;
    var len := PackLength(|c|, pv).value;
    if cs == [] {
      assert [c][1..] == [] && cs + [c] == [c];
      assert WriteChunks([], pv) == Some([]);
      assert WriteChunks([c], pv) == Some(len + c + []);
      assert len + c + [] == len + c && [] + (len + c) == len + c;
    } else {
      ChunksAppend(cs[1..], c, pv);
      assert (cs + [c])[1..] == cs[1..] + [c] && (cs + [c])[0] == cs[0];
      var first, rest := PackLength(|cs[0]|, pv).value + cs[0], WriteChunks(cs[1..], pv).value;
      assert first + (rest + (len + c)) == first + rest + (len + c);
    }
  }

  /** A counted collection: the count first, then each chunk behind its length, and nothing else. */
  lemma CollectionLayout(count: nat, cs: seq<ByteString>, pv: int, i: nat)
    requires WriteCollection(count, cs, pv).Some? && i < |cs|
    ensures PackLength(count, pv).Some? && PackLength(|cs[i]|, pv).Some?
    ensures var b, at := WriteCollection(count, cs, pv).value, OffsetOf(cs, pv, i);
            && |b| == OffsetOf(cs, pv, |cs|)
            && StandsAt(b, 0, PackLength(count, pv).value)
            && StandsAt(b, at, PackLength(|cs[i]|, pv).value)
            && StandsAt(b, at + LengthWidth(pv), cs[i])
  {
    hide PackLength, StandsAt, WriteChunks, OffsetOf;
    LengthReadsBack(count, pv);
    var head, c := PackLength(count, pv).value, cs[i];
    ChunksSplit(cs, pv, i);
    ChunksSplit(cs, pv, |cs|);
    NoMore(cs, pv);
    assert cs[i..][0] == c && cs[i..][1..] == cs[i + 1..];
    FirstOf(cs[i..], pv);
    LengthReadsBack(|c|, pv);
    PiecesStand(head, WriteChunks(cs[..i], pv).value, PackLength(|c|, pv).value, c, WriteChunks(cs[i + 1..], pv).value);
  }

  lemma NoMore(cs: seq<ByteString>, pv: int)
    ensures cs[|cs|..] == [] && cs[..|cs|] == cs && WriteChunks([], pv) == Some([])
  {
  }

  lemma FirstOf(cs: seq<ByteString>, pv: int)
    requires cs != [] && WriteChunks(cs, pv).Some?
    ensures PackLength(|cs[0]|, pv).Some? && WriteChunks(cs[1..], pv).Some?
    ensures WriteChunks(cs, pv).value == PackLength(|cs[0]|, pv).value + cs[0] + WriteChunks(cs[1..], pv).value
  {
  }

  /** The empty collection is its count. */
  lemma EmptyCollection(pv: int)
    ensures WriteCollection(0, [], pv) == PackLength(0, pv)
  {
    if PackLength(0, pv).Some? { assert PackLength(0, pv).value + [] == PackLength(0, pv).value; }
  }

  lemma {:induction false} ItemChunk(t: CqlType, items: seq<Value>, pv: int, i: nat)
    requires ToBinaryAll(t, items, pv).Some? && i < |items|
    ensures ToBinary(t, items[i], pv) == Some(ToBinaryAll(t, items, pv).value[i])
    decreases |items|
  {
    hide ToBinary;
    if i > 0 { ItemChunk(t, items[1..], pv, i - 1); }
  }

  /** A list: the number of items, and item i, in the format of version 3 and up, behind its length. */
  lemma ListLayout(element: CqlType, items: seq<Value>, pv: int, i: nat)
    requires Serialize(ListOf(element), ListV(items), pv).Some? && i < |items|
    ensures ToBinaryAll(element, items, Inner(pv)).Some? && ToBinary(element, items[i], Inner(pv)).Some?
    ensures PackLength(|items|, pv).Some? && PackLength(|ToBinary(element, items[i], Inner(pv)).value|, pv).Some?
    ensures var b := Serialize(ListOf(element), ListV(items), pv).value;
            var cs := ToBinaryAll(element, items, Inner(pv)).value;
            var item, at := ToBinary(element, items[i], Inner(pv)).value, OffsetOf(cs, pv, i);
            && item == cs[i] && |b| == OffsetOf(cs, pv, |items|)
            && StandsAt(b, 0, PackLength(|items|, pv).value)
            && StandsAt(b, at, PackLength(|item|, pv).value)
            && StandsAt(b, at + LengthWidth(pv), item)
  {
    hide PackLength, StandsAt, WriteCollection, OffsetOf, ToBinaryAll, ToBinary;
    var cs := ToBinaryAll(element, items, Inner(pv)).value;
    ItemChunk(element, items, Inner(pv), i);
    CollectionLayout(|items|, cs, pv, i);
  }

  lemma {:induction false} MemberChunk(t: LeafType, members: seq<LeafValue>, i: nat)
    requires LeavesToBinary(t, members).Some? && i < |members|
    ensures SerializeLeaf(t, members[i]) == Some(LeavesToBinary(t, members).value[i])
    decreases |members|
  {
    hide SerializeLeaf;
    if i > 0 { MemberChunk(t, members[1..], i - 1); }
  }

  /** A set, in the order in which it is given: the number of members, and each behind its length. */
  lemma SetLayout(member: LeafType, members: seq<LeafValue>, pv: int, i: nat)
    requires Serialize(SetOf(member), SetV(members), pv).Some? && i < |members|
    ensures LeavesToBinary(member, members).Some? && SerializeLeaf(member, members[i]).Some?
    ensures PackLength(|members|, pv).Some? && PackLength(|SerializeLeaf(member, members[i]).value|, pv).Some?
    ensures var b, cs := Serialize(SetOf(member), SetV(members), pv).value, LeavesToBinary(member, members).value;
            var item, at := SerializeLeaf(member, members[i]).value, OffsetOf(cs, pv, i);
            && item == cs[i] && |b| == OffsetOf(cs, pv, |members|)
            && StandsAt(b, 0, PackLength(|members|, pv).value)
            && StandsAt(b, at, PackLength(|item|, pv).value)
            && StandsAt(b, at + LengthWidth(pv), item)
  {
    hide PackLength, StandsAt, WriteCollection, OffsetOf, LeavesToBinary, SerializeLeaf;
    MemberChunk(member, members, i);
    CollectionLayout(|members|, LeavesToBinary(member, members).value, pv, i);
  }

  /** A map: the number of entries, and for entry i its key and then its value, each behind its
      length. */
  lemma MapLayout(t: CqlType, entries: seq<(Value, Value)>, pv: int, i: nat)
    requires t.MapOf? && Serialize(t, MapV(entries), pv).Some? && i < |entries|
    ensures ToBinaryPairs(t, entries, Inner(pv)).Some?
    ensures ToBinary(t.key, entries[i].0, Inner(pv)).Some? && ToBinary(t.value, entries[i].1, Inner(pv)).Some?
    ensures var key, value := ToBinary(t.key, entries[i].0, Inner(pv)).value,
              ToBinary(t.value, entries[i].1, Inner(pv)).value;
            PackLength(|entries|, pv).Some? && PackLength(|key|, pv).Some? && PackLength(|value|, pv).Some?
    ensures var b, cs, w := Serialize(t, MapV(entries), pv).value, ToBinaryPairs(t, entries, Inner(pv)).value,
              LengthWidth(pv);
            var key, value := ToBinary(t.key, entries[i].0, Inner(pv)).value,
              ToBinary(t.value, entries[i].1, Inner(pv)).value;
            var at := OffsetOf(cs, pv, 2 * i);
            && |b| == OffsetOf(cs, pv, 2 * |entries|)
            && StandsAt(b, 0, PackLength(|entries|, pv).value)
            && StandsAt(b, at, PackLength(|key|, pv).value)
            && StandsAt(b, at + w, key)
            && StandsAt(b, at + w + |key|, PackLength(|value|, pv).value)
            && StandsAt(b, at + w + |key| + w, value)
  {
    hide PackLength, StandsAt, WriteCollection, ToBinaryPairs, ToBinary;
    CqlMaps.SerializedMap(t, entries, pv);
    var cs := ToBinaryPairs(t, entries, Inner(pv)).value;
    CqlMaps.PairChunk(t, entries, Inner(pv), i);
    CollectionLayout(|entries|, cs, pv, 2 * i);
    CollectionLayout(|entries|, cs, pv, 2 * i + 1);
    assert OffsetOf(cs, pv, 2 * i + 1) == OffsetOf(cs, pv, 2 * i) + LengthWidth(pv) + |cs[2 * i]|;
  }

  // --------------------------------------------------------------------------------- tuples

  function PartLength(part: Option<ByteString>): nat { if part.Some? then |part.value| else 0 }

  function PartOffset(cs: seq<Option<ByteString>>, i: nat): nat
    requires i <= |cs|
  {
    if i == 0 then 0 else PartOffset(cs, i - 1) + 4 + PartLength(cs[i - 1])
  }

  /** A part behind its four bytes of length; for a null part these are 255 and nothing follows. */
  predicate PartStands(b: ByteString, at: nat, part: Option<ByteString>) {
    if part.None? then StandsAt(b, at, [255, 255, 255, 255])
    else
      && PackLength(|part.value|, 3).Some? && StandsAt(b, at, PackLength(|part.value|, 3).value)
      && StandsAt(b, at + 4, part.value)
  }

  lemma PartsSplit(cs: seq<Option<ByteString>>)
    requires WriteParts(cs).Some? && cs != []
    ensures PackPartLength(cs[0]).Some? && WriteParts(cs[1..]).Some?
    ensures WriteParts(cs).value ==
            PackPartLength(cs[0]).value + (if cs[0].Some? then cs[0].value else []) + WriteParts(cs[1..]).value
  {
    hide PackPartLength;
  }

  lemma FirstPartStands(pre: ByteString, cs: seq<Option<ByteString>>)
    requires WriteParts(cs).Some? && cs != []
    ensures PartStands(pre + WriteParts(cs).value, |pre|, cs[0])
  {
    hide PackPartLength, StandsAt, WriteParts;
    PartsSplit(cs);
    PartLengthReadsBack(cs[0]);
    var len, rest := PackPartLength(cs[0]).value, WriteParts(cs[1..]).value;
    var item := if cs[0].Some? then cs[0].value else [];
    PiecesStand([], pre, len, item, rest);
    assert [] + (pre + (len + item + rest)) == pre + WriteParts(cs).value;
    if cs[0].None? { NullPartBytes(); } else { SomePartLength(cs[0].value); }
  }

  lemma {:induction false} PartsLayout(pre: ByteString, cs: seq<Option<ByteString>>, i: nat)
    requires WriteParts(cs).Some? && i < |cs|
    ensures PartStands(pre + WriteParts(cs).value, |pre| + PartOffset(cs, i), cs[i])
    decreases i
  {
    hide PackPartLength, WriteParts, PartStands, PartOffset;
    if i == 0 {
      FirstPartStands(pre, cs);
      NoOffset(cs);
    } else {
      PartsSplit(cs);
      PartLengthReadsBack(cs[0]);
      PartOffsetLater(cs, i);
      var len, rest := PackPartLength(cs[0]).value, WriteParts(cs[1..]).value;
      var item := if cs[0].Some? then cs[0].value else [];
      PartsLayout(pre + (len + item), cs[1..], i - 1);
      assert pre + (len + item) + rest == pre + WriteParts(cs).value;
    }
  }

  lemma NoOffset(cs: seq<Option<ByteString>>)
    ensures PartOffset(cs, 0) == 0
  {
  }

  lemma {:induction false} PartsLength(cs: seq<Option<ByteString>>)
    requires WriteParts(cs).Some?
    ensures |WriteParts(cs).value| == PartOffset(cs, |cs|)
  {
    hide PackPartLength;
    if cs != [] {
      PartLengthReadsBack(cs[0]);
      PartsLength(cs[1..]);
      PartOffsetLater(cs, |cs|);
    }
  }

  lemma {:induction false} PartOffsetLater(cs: seq<Option<ByteString>>, i: nat)
    requires 0 < i <= |cs|
    ensures PartOffset(cs, i) == 4 + PartLength(cs[0]) + PartOffset(cs[1..], i - 1)
    decreases i
  {
    if i > 1 { PartOffsetLater(cs, i - 1); }
  }

  lemma {:induction false} PartAt(types: seq<CqlType>, parts: seq<Value>, pv: int, i: nat)
    requires |parts| <= |types| && ToBinaryParts(types, parts, pv).Some? && i < |parts|
    ensures ToBinaryParts(types, parts, pv).value[i] ==
            if parts[i] == Null then None else Serialize(types[i], parts[i], pv)
    ensures parts[i] != Null ==> Serialize(types[i], parts[i], pv).Some?
    decreases |parts|
  {
    hide Serialize;
    if i > 0 { PartAt(types[1..], parts[1..], pv, i - 1); }
  }

  /** Where part i of a tuple stands. */
  lemma TupleLayout(types: seq<CqlType>, parts: seq<Value>, pv: int, i: nat)
    requires Serialize(TupleOf(types), TupleV(parts), pv).Some? && i < |parts|
    ensures |parts| <= |types| && ToBinaryParts(types, parts, Inner(pv)).Some?
    ensures var b := Serialize(TupleOf(types), TupleV(parts), pv).value;
            var cs := ToBinaryParts(types, parts, Inner(pv)).value;
            && cs[i] == (if parts[i] == Null then None else Serialize(types[i], parts[i], Inner(pv)))
            && |b| == PartOffset(cs, |parts|)
            && PartStands(b, PartOffset(cs, i), cs[i])
  {
    TupleParts(types, parts, pv);
    hide Serialize, PartStands, WriteParts, ToBinaryParts, PartOffset;
    var cs := ToBinaryParts(types, parts, Inner(pv)).value;
    PartAt(types, parts, Inner(pv), i);
    PartsLayout([], cs, i);
    PartsLength(cs);
    assert [] + WriteParts(cs).value == WriteParts(cs).value;
  }

  lemma TupleParts(types: seq<CqlType>, parts: seq<Value>, pv: int)
    requires Serialize(TupleOf(types), TupleV(parts), pv).Some?
    ensures |parts| <= |types| && ToBinaryParts(types, parts, Inner(pv)).Some?
    ensures Serialize(TupleOf(types), TupleV(parts), pv) == WriteParts(ToBinaryParts(types, parts, Inner(pv)).value)
  {
    hide ToBinaryParts, ToBinaryAll, ToBinaryPairs, LeavesToBinary, SerializeLeaf, WriteParts, WriteCollection;
  }

  lemma SomePartLength(part: ByteString)
    ensures PackPartLength(Some(part)) == PackLength(|part|, 3)
  {
  }
}
