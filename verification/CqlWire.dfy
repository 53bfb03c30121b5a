/** The length-prefixed byte layout of collections and tuples. Section 6 of the CQL native
    protocol v4. */
module CqlWire {
  import opened Bits
  import opened Bytes
  import opened Seqs
  import opened Varint
  import opened Frames

  function Clamp(i: int, n: nat): (k: nat)
    ensures k <= n
  {
    if i < 0 then Max(0, n + i) else Min(i, n)
  }

  /** Python's `s[i:j]`: bounds past an end are cut off, and negative ones count from the end. */
  function Slice(s: ByteString, i: int, j: int): ByteString {
    var lo, hi := Clamp(i, |s|), Clamp(j, |s|);
    if lo < hi then s[lo..hi] else []
  }

  lemma SliceInside(pre: ByteString, mid: ByteString, post: ByteString)
    ensures Slice(pre + mid + post, |pre|, |pre| + |mid|) == mid
  {
  }

  // ------------------------------------------------------------------------------- lengths

  function LengthWidth(pv: int): nat { if pv >= 3 then 4 else 2 }

  /** `int32_pack` or `uint16_pack`; nothing is the struct.error. */
  function PackLength(n: nat, pv: int): Option<ByteString> {
    if pv >= 3 then
      if n < 0x8000_0000 then LengthFits(n); Some(PackSigned(n, 4)) else None
    else if n < 0x1_0000 then Some(Digits(n, 2))
    else None
  }

  /** `int32_unpack` or `uint16_unpack`. */
  function UnpackLength(b: ByteString, pv: int): Option<int> {
    if |b| != LengthWidth(pv) then None
    else if pv >= 3 then Some(VarintUnpack(b))
    else Some(BigEndian(b))
  }

  lemma LengthReadsBack(n: nat, pv: int)
    requires PackLength(n, pv).Some?
    ensures var b := PackLength(n, pv).value; |b| == LengthWidth(pv) && UnpackLength(b, pv) == Some(n)
  {
    if pv >= 3 {
      LengthFits(n);
      SignedReadsBack(n, 4);
    } else {
      Pow2Add(8, 8);
      assert Pow2(8) == 256;
      DigitsValue(n, 2);
    }
  }

  // --------------------------------------------------------------------------- collections

  /** Each chunk behind its length. */
  function WriteChunks(cs: seq<ByteString>, pv: int): Option<ByteString> {
    if cs == [] then Some([])
    else
      match PackLength(|cs[0]|, pv)
      case None => None
      case Some(len) =>
        match WriteChunks(cs[1..], pv)
        case None => None
        case Some(rest) => Some(len + cs[0] + rest)
  }

  /** `n` chunks from offset `p` on. */
  function ReadChunks(b: ByteString, p: int, n: int, pv: int): (r: Option<seq<ByteString>>)
    ensures r.Some? ==> |r.value| == Max(0, n)
    decreases n
  {
    if n <= 0 then Some([])
    else
      var w := LengthWidth(pv);
      match UnpackLength(Slice(b, p, p + w), pv)
      case None => None
      case Some(len) =>
        match ReadChunks(b, p + w + len, n - 1, pv)
        case None => None
        case Some(rest) => Some([Slice(b, p + w, p + w + len)] + rest)
  }

  /** The layout is self-delimiting: the chunks are found again wherever they stand. */
  lemma {:induction false} ChunksReadBack(pre: ByteString, cs: seq<ByteString>, post: ByteString, pv: int)
    requires WriteChunks(cs, pv).Some?
    ensures ReadChunks(pre + WriteChunks(cs, pv).value + post, |pre|, |cs|, pv) == Some(cs)
    decreases |cs|
  {
    hide PackLength, UnpackLength, Slice;
    if cs != [] {
      var len, rest := PackLength(|cs[0]|, pv).value, WriteChunks(cs[1..], pv).value;
      var b := pre + WriteChunks(cs, pv).value + post;
      LengthReadsBack(|cs[0]|, pv);
      assert b == pre + len + (cs[0] + rest + post);
      SliceInside(pre, len, cs[0] + rest + post);
      assert b == (pre + len) + cs[0] + (rest + post);
      SliceInside(pre + len, cs[0], rest + post);
      assert b == (pre + len + cs[0]) + rest + post;
      ChunksReadBack(pre + len + cs[0], cs[1..], post, pv);
      assert [cs[0]] + cs[1..] == cs;
    }
  }

  /** A count and that many elements of `per` chunks each. */
  function WriteCollection(count: nat, cs: seq<ByteString>, pv: int): Option<ByteString> {
    match PackLength(count, pv)
    case None => None
    case Some(head) =>
      match WriteChunks(cs, pv)
      case None => None
      case Some(body) => Some(head + body)
  }

  function ReadCollection(b: ByteString, per: nat, pv: int): (r: Option<seq<ByteString>>)
    ensures r.Some? && per == 2 ==> |r.value| % 2 == 0
  {
    var w := LengthWidth(pv);
    match UnpackLength(Slice(b, 0, w), pv)
    case None => None
    case Some(count) => ReadChunks(b, w, count * per, pv)
  }

  lemma CollectionReadsBack(count: nat, per: nat, cs: seq<ByteString>, pv: int)
    requires WriteCollection(count, cs, pv).Some? && |cs| == count * per
    ensures ReadCollection(WriteCollection(count, cs, pv).value, per, pv) == Some(cs)
    ensures WriteCollection(count, cs, pv).value != []
  {
    hide PackLength, UnpackLength, Slice, WriteChunks, ReadChunks;
    var head, body := PackLength(count, pv).value, WriteChunks(cs, pv).value;
    LengthReadsBack(count, pv);
    SliceInside([], head, body);
    assert [] + head + body == head + body;
    ChunksReadBack(head, cs, [], pv);
    assert head + body + [] == head + body;
  }

  /** Two collections with the same bytes have the same chunks. */
  lemma CollectionInjective(count: nat, cs: seq<ByteString>, count': nat, cs': seq<ByteString>, per: nat, pv: int)
    requires WriteCollection(count, cs, pv).Some? && |cs| == count * per
    requires WriteCollection(count', cs', pv).Some? && |cs'| == count' * per
    ensures WriteCollection(count, cs, pv) == WriteCollection(count', cs', pv) ==> cs == cs'
  {
    hide WriteCollection, ReadCollection;
    CollectionReadsBack(count, per, cs, pv);
    CollectionReadsBack(count', per, cs', pv);
  }

  // -------------------------------------------------------------------------------- tuples

  lemma MinusOneFits()
    ensures FitsSigned(-1, 4)
  {
    assert Pow2(31) > 0;
  }

  function PackPartLength(part: Option<ByteString>): Option<ByteString> {
    if part.None? then MinusOneFits(); Some(PackSigned(-1, 4)) else PackLength(|part.value|, 3)
  }

  /** Each part behind its 32-bit length; a missing part is length -1. */
  function WriteParts(cs: seq<Option<ByteString>>): Option<ByteString> {
    if cs == [] then Some([])
    else
      match PackPartLength(cs[0])
      case None => None
      case Some(len) =>
        match WriteParts(cs[1..])
        case None => None
        case Some(rest) => Some(len + (if cs[0].Some? then cs[0].value else []) + rest)
  }

  /** At most `n` parts from offset `p`, fewer when the bytes end there. */
  function ReadParts(b: ByteString, p: nat, n: nat): (r: Option<seq<Option<ByteString>>>)
    ensures r.Some? ==> |r.value| <= n
    decreases n
  {
    if n == 0 || p == |b| then Some([])
    else
      match UnpackLength(Slice(b, p, p + 4), 3)
      case None => None
      case Some(len) =>
        match ReadParts(b, if len >= 0 then p + 4 + len else p + 4, n - 1)
        case None => None
        case Some(rest) => Some([if len >= 0 then Some(Slice(b, p + 4, p + 4 + len)) else None] + rest)
  }

  lemma PartLengthReadsBack(part: Option<ByteString>)
    requires PackPartLength(part).Some?
    ensures var b := PackPartLength(part).value;
            |b| == 4 && UnpackLength(b, 3) == Some(if part.Some? then |part.value| else -1)
  {
    if part.Some? {
      LengthReadsBack(|part.value|, 3);
    } else {
      MinusOneFits();
      SignedReadsBack(-1, 4);
    }
  }

  lemma {:induction false} PartsReadBack(pre: ByteString, cs: seq<Option<ByteString>>, n: nat)
    requires WriteParts(cs).Some? && |cs| <= n
    ensures ReadParts(pre + WriteParts(cs).value, |pre|, n) == Some(cs)
    ensures WriteParts(cs).value == [] <==> cs == []
    decreases |cs|
  {
    hide PackPartLength, UnpackLength, Slice;
    if cs == [] {
      assert pre + [] == pre;
    } else {
      var len, rest := PackPartLength(cs[0]).value, WriteParts(cs[1..]).value;
      var item := if cs[0].Some? then cs[0].value else [];
      var b := pre + WriteParts(cs).value;
      PartLengthReadsBack(cs[0]);
      assert b == pre + len + (item + rest);
      SliceInside(pre, len, item + rest);
      assert b == (pre + len) + item + rest;
      SliceInside(pre + len, item, rest);
      assert b == (pre + len + item) + rest;
      PartsReadBack(pre + len + item, cs[1..], n - 1);
      assert |pre + len + item| == |pre| + 4 + |item|;
      assert [cs[0]] + cs[1..] == cs;
    }
  }

  lemma PartsInjective(cs: seq<Option<ByteString>>, cs': seq<Option<ByteString>>)
    requires WriteParts(cs).Some? && WriteParts(cs').Some?
    ensures WriteParts(cs) == WriteParts(cs') ==> cs == cs'
  {
    var n := Max(|cs|, |cs'|);
    PartsReadBack([], cs, n);
    PartsReadBack([], cs', n);
  }
}
