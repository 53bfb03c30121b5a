/** Protocol frames: `_ProtocolHandler._write_header`, which lays a frame out, and
    `Connection.process_io_buffer`, which finds the frames again in whatever pieces the socket
    delivers. Section 2 of the CQL native protocol v4. */
module Frames {
  import opened Bits
  import opened Bytes
  import opened Varint

  const MAX_SUPPORTED := 5

  datatype Frame = Frame(version: int, flags: int, stream: int, opcode: int, body: ByteString)

  // ----------------------------------------------------------------- fixed-width numbers

  predicate FitsSigned(v: int, n: nat)
    requires n > 0
  {
    -(Pow2(8 * n - 1) as int) <= v < Pow2(8 * n - 1)
  }

  /** struct's '>b', '>h' and '>i'. */
  function PackSigned(v: int, n: nat): (s: ByteString)
    requires n > 0 && FitsSigned(v, n)
    ensures |s| == n
  {
    Pow2Double(8 * n - 1);
    Digits(if v >= 0 then v else v + Pow2(8 * n), n)
  }

  lemma SignedReadsBack(v: int, n: nat)
    requires n > 0 && FitsSigned(v, n)
    ensures VarintUnpack(PackSigned(v, n)) == v
  {
    hide Pow2, BigEndian, Digits;
    Pow2Double(8 * n - 1);
    var u := if v >= 0 then v else v + Pow2(8 * n);
    DigitsValue(u, n);
    TopBit(PackSigned(v, n));
  }

  /** Byte i of a signed number in two's complement, counted from the most significant; the quotient
      is rounded down. */
  lemma SignedByteAt(v: int, n: nat, i: nat)
    requires 0 <= i < n && FitsSigned(v, n)
    ensures PackSigned(v, n)[i] == v / Pow2(8 * (n - 1 - i)) % 256
  {
    hide Pow2, Digits;
    Pow2Double(8 * n - 1);
    var p := Pow2(8 * (n - 1 - i));
    if v >= 0 {
      DigitAt(v, n, i);
    } else {
      DigitAt(v + Pow2(8 * n), n, i);
      Pow2Add(8 * (n - 1 - i), 8 * (i + 1));
      assert 8 * (n - 1 - i) + 8 * (i + 1) == 8 * n;
      Pow2Byte(i);
      WholeTurns(v, p, Pow2(8 * i));
    }
  }

  /** Adding a multiple of 256 p does not change the digit above p. */
  lemma WholeTurns(v: int, p: nat, q: nat)
    requires p > 0
    ensures (v + p * (256 * q)) / p % 256 == v / p % 256
  {
    var a, t := v / p, 256 * q;
    Distribute(a, t, p);
    ModUnique(v + p * t, p, a + t, v % p);
    TurnsDropOut(a, q);
  }

  lemma TurnsDropOut(a: int, q: int)
    ensures (a + 256 * q) % 256 == a % 256
  {
  }

  /** The digits of what is read are the bytes it is read from. */
  lemma UnpackedByteAt(b: ByteString, i: nat)
    requires i < |b|
    ensures VarintUnpack(b) / Pow2(8 * (|b| - 1 - i)) % 256 == b[i]
  {
    hide Pow2, BigEndian;
    BigEndianAt(b, i);
    if b[0] >= 128 {
      Pow2Add(8 * (|b| - 1 - i), 8 * (i + 1));
      assert 8 * (|b| - 1 - i) + 8 * (i + 1) == 8 * |b|;
      Pow2Byte(i);
      WholeTurns(VarintUnpack(b), Pow2(8 * (|b| - 1 - i)), Pow2(8 * i));
    }
  }

  lemma ShortPowers()
    ensures Pow2(8) == 256 && Pow2(16) == 0x1_0000 && Pow2(24) == 0x100_0000 && Pow2(32) == 0x1_0000_0000
    ensures Pow2(8 * 0) == 1
  {
    hide Pow2;
    Pow2OfNone();
    Pow2Of8();
    Pow2Add(8, 8);
    Pow2Add(16, 8);
    Pow2Add(16, 16);
  }

  /** One, two and four bytes of a signed number. */
  lemma SignedBytes(v: int)
    ensures FitsSigned(v, 1) <==> -0x80 <= v < 0x80
    ensures FitsSigned(v, 2) <==> -0x8000 <= v < 0x8000
    ensures FitsSigned(v, 4) <==> -0x8000_0000 <= v < 0x8000_0000
    ensures FitsSigned(v, 1) ==> PackSigned(v, 1) == [v % 256]
    ensures FitsSigned(v, 2) ==> PackSigned(v, 2) == [v / 256 % 256, v % 256]
    ensures FitsSigned(v, 4) ==>
              PackSigned(v, 4) == [v / 0x100_0000 % 256, v / 0x1_0000 % 256, v / 256 % 256, v % 256]
  {
    hide FitsSigned, PackSigned;
    OneSignedByte(v);
    TwoSignedBytes(v);
    FourSignedBytes(v);
  }

  lemma OneSignedByte(v: int)
    ensures FitsSigned(v, 1) <==> -0x80 <= v < 0x80
    ensures FitsSigned(v, 1) ==> PackSigned(v, 1) == [v % 256]
  {
    hide Pow2, PackSigned;
    ShortPowers();
    Pow2Double(7);
    if FitsSigned(v, 1) { SignedByteAt(v, 1, 0); }
  }

  lemma TwoSignedBytes(v: int)
    ensures FitsSigned(v, 2) <==> -0x8000 <= v < 0x8000
    ensures FitsSigned(v, 2) ==> PackSigned(v, 2) == [v / 256 % 256, v % 256]
  {
    hide Pow2, PackSigned;
    ShortPowers();
    Pow2Double(15);
    if FitsSigned(v, 2) {
      SignedByteAt(v, 2, 0);
      SignedByteAt(v, 2, 1);
    }
  }

  lemma FourSignedBytes(v: int)
    ensures FitsSigned(v, 4) <==> -0x8000_0000 <= v < 0x8000_0000
    ensures FitsSigned(v, 4) ==>
              PackSigned(v, 4) == [v / 0x100_0000 % 256, v / 0x1_0000 % 256, v / 256 % 256, v % 256]
  {
    hide Pow2, PackSigned;
    ShortPowers();
    Pow2Double(31);
    if FitsSigned(v, 4) {
      SignedByteAt(v, 4, 0);
      SignedByteAt(v, 4, 1);
      SignedByteAt(v, 4, 2);
      SignedByteAt(v, 4, 3);
    }
  }

  /** One, two and four bytes read as a signed number. */
  lemma SignedOf(b: ByteString)
    ensures |b| == 1 ==> VarintUnpack(b) == Plain(b[0]) - if b[0] >= 128 then 256 else 0
    ensures |b| == 2 ==> VarintUnpack(b) == Plain(b[0]) * 256 + Plain(b[1]) - if b[0] >= 128 then 0x1_0000 else 0
    ensures |b| == 4 ==>
              VarintUnpack(b) == Plain(b[0]) * 0x100_0000 + Plain(b[1]) * 0x1_0000 + Plain(b[2]) * 256 + Plain(b[3]) -
                                 if b[0] >= 128 then 0x1_0000_0000 else 0
  {
    hide Pow2, BigEndian;
    ShortPowers();
    BigEndianShort(b);
  }

  // ----------------------------------------------------------------------- writing frames

  function StreamWidth(version: int): nat { if version >= 3 then 2 else 1 }

  function HeaderSize(version: int): nat { if version >= 3 then 9 else 8 }

  /** What struct.pack accepts: it raises for anything else. */
  predicate Packable(f: Frame) {
    && 1 <= f.version <= MAX_SUPPORTED
    && 0 <= f.flags < 256
    && FitsSigned(f.stream, StreamWidth(f.version))
    && 0 <= f.opcode < 256
    && |f.body| < 0x8000_0000
  }

  lemma LengthFits(n: nat)
    requires n < 0x8000_0000
    ensures FitsSigned(n, 4)
  {
    assert Pow2(8) == 256;
    Pow2Add(8, 8);
    Pow2Add(16, 8);
    Pow2Add(24, 7);
    assert Pow2(7) == 128;
  }

  /** A frame on the wire. The server sets the top bit of the version byte. */
  function Encode(f: Frame, fromServer: bool): (s: ByteString)
    requires Packable(f)
    ensures |s| == HeaderSize(f.version) + |f.body|
  {
    LengthFits(|f.body|);
    [if fromServer then f.version + 128 else f.version, f.flags] + PackSigned(f.stream, StreamWidth(f.version)) +
    [f.opcode] + PackSigned(|f.body|, 4) + f.body
  }

  /** `_write_header` followed by the body, as `encode_message` writes them. */
  method WriteFrame(f: Frame) returns (buff: ByteString)
    requires Packable(f)
    ensures buff == Encode(f, false)
  {
    LengthFits(|f.body|);
    var start: ByteString := [f.version, f.flags];
    if f.version >= 3 {
      buff := start + PackSigned(f.stream, 2) + [f.opcode];
    } else {
      buff := start + PackSigned(f.stream, 1) + [f.opcode];
    }
    buff := buff + PackSigned(|f.body|, 4);
    buff := buff + f.body;
  }

  // ----------------------------------------------------------------------- reading frames

  datatype Header = Header(version: int, flags: int, stream: int, opcode: int, bodyOffset: nat, endPos: nat)

  datatype Scan = Incomplete | Malformed | Found(header: Header)

  /** `_read_frame_header` on the bytes at hand; malformed is where it raises ProtocolError. */
  function ScanHeader(buf: ByteString): (r: Scan)
    ensures r.Found? ==> 0 < r.header.bodyOffset <= r.header.endPos && r.header.bodyOffset <= |buf|
  {
    if buf == [] then Incomplete
    else
      var version := buf[0] % 128;
      if version > MAX_SUPPORTED then Malformed
      else
        var size := HeaderSize(version);
        if |buf| < size then Incomplete
        else
          var length := VarintUnpack(buf[size - 4..size]);
          if length < 0 then Malformed
          else Found(Header(version, buf[1], VarintUnpack(buf[2..size - 5]), buf[size - 5], size, size + length))
  }

  datatype Parsed = Parsed(frames: seq<Frame>, rest: ByteString, malformed: bool)

  function FrameAt(h: Header, buf: ByteString): Frame
    requires h.bodyOffset <= h.endPos <= |buf|
  {
    Frame(h.version, h.flags, h.stream, h.opcode, buf[h.bodyOffset..h.endPos])
  }

  /** The complete frames at the front of a byte string, and what is left. */
  function Parse(buf: ByteString): Parsed
    decreases |buf|
  {
    match ScanHeader(buf)
    case Incomplete => Parsed([], buf, false)
    case Malformed => Parsed([], buf, true)
    case Found(h) =>
      if |buf| < h.endPos then Parsed([], buf, false)
      else Prepend([FrameAt(h, buf)], Parse(buf[h.endPos..]))
  }

  function Prepend(frames: seq<Frame>, p: Parsed): Parsed {
    p.(frames := frames + p.frames)
  }

  lemma PrependTwice(s: seq<Frame>, t: seq<Frame>, p: Parsed)
    ensures Prepend(s, Prepend(t, p)) == Prepend(s + t, p)
    ensures Prepend([], p) == p
  {
    assert s + (t + p.frames) == (s + t) + p.frames;
    assert [] + p.frames == p.frames;
  }

  /** A header, once complete or malformed, does not change when more bytes arrive. */
  lemma ScanStable(a: ByteString, b: ByteString)
    ensures !ScanHeader(a).Incomplete? ==> ScanHeader(a + b) == ScanHeader(a)
  {
    hide VarintUnpack;
    if a != [] {
      var version := a[0] % 128;
      var size := HeaderSize(version);
      if version <= MAX_SUPPORTED && |a| >= size {
        assert (a + b)[size - 4..size] == a[size - 4..size];
        assert (a + b)[2..size - 5] == a[2..size - 5];
      }
    }
  }

  /** Parsing can stop anywhere and go on from what was left. */
  lemma {:induction false} ParseResumes(a: ByteString, b: ByteString)
    ensures Parse(a + b) == Prepend(Parse(a).frames, Parse(Parse(a).rest + b))
    decreases |a|
  {
    hide ScanHeader;
    ScanStable(a, b);
    match ScanHeader(a)
    case Incomplete => PrependTwice([], [], Parse(a + b));
    case Malformed => PrependTwice([], [], Parse(a + b));
    case Found(h) =>
      if |a| < h.endPos {
        PrependTwice([], [], Parse(a + b));
      } else {
        ParseResumes(a[h.endPos..], b);
        assert (a + b)[h.endPos..] == a[h.endPos..] + b;
        assert (a + b)[h.bodyOffset..h.endPos] == a[h.bodyOffset..h.endPos];
        PrependTwice([FrameAt(h, a)], Parse(a[h.endPos..]).frames, Parse(Parse(a).rest + b));
      }
  }

  /** After a malformed header nothing more comes out. */
  lemma {:induction false} MalformedStays(a: ByteString, b: ByteString)
    requires Parse(a).malformed
    ensures Parse(Parse(a).rest + b) == Parsed([], Parse(a).rest + b, true)
    decreases |a|
  {
    match ScanHeader(a)
    case Malformed => ScanStable(a, b);
    case Found(h) => MalformedStays(a[h.endPos..], b);
  }

  /** The header that was written is the header that is read. */
  lemma HeaderReadsBack(f: Frame, fromServer: bool, more: ByteString)
    requires Packable(f)
    ensures ScanHeader(Encode(f, fromServer) + more) ==
            Found(Header(f.version, f.flags, f.stream, f.opcode, HeaderSize(f.version),
              HeaderSize(f.version) + |f.body|))
  {
    hide VarintUnpack, PackSigned, FitsSigned;
    LengthFits(|f.body|);
    var w, size := StreamWidth(f.version), HeaderSize(f.version);
    var buf := Encode(f, fromServer) + more;
    SignedReadsBack(f.stream, w);
    SignedReadsBack(|f.body|, 4);
    assert buf[2..size - 5] == PackSigned(f.stream, w);
    assert buf[size - 4..size] == PackSigned(|f.body|, 4);
  }

  /** Where everything stands in a frame: version and direction, flags, stream id, opcode, the length
      of the body, the body; the stream id takes two bytes from version 3 on and one before. */
  lemma FrameLayout(f: Frame, fromServer: bool)
    requires Packable(f)
    ensures var s, n := Encode(f, fromServer), |f.body|;
            && s[0] == f.version + (if fromServer then 128 else 0) && s[1] == f.flags
            && (f.version >= 3 ==>
                  && s[2..5] == [f.stream / 256 % 256, f.stream % 256, f.opcode]
                  && s[5..9] == [n / 0x100_0000 % 256, n / 0x1_0000 % 256, n / 256 % 256, n % 256]
                  && s[9..] == f.body)
            && (f.version < 3 ==>
                  && s[2..4] == [f.stream % 256, f.opcode]
                  && s[4..8] == [n / 0x100_0000 % 256, n / 0x1_0000 % 256, n / 256 % 256, n % 256]
                  && s[8..] == f.body)
  {
    hide PackSigned, FitsSigned;
    LengthFits(|f.body|);
    SignedBytes(f.stream);
    SignedBytes(|f.body|);
    var s, w, size := Encode(f, fromServer), StreamWidth(f.version), HeaderSize(f.version);
    assert s[2..2 + w] == PackSigned(f.stream, w);
    assert s[2 + w] == f.opcode;
    assert s[2..3 + w] == PackSigned(f.stream, w) + [f.opcode];
    assert s[3 + w..size] == PackSigned(|f.body|, 4);
    assert s[size..] == f.body;
  }

  /** What is read from each place of a header that is complete: of any bytes at all. */
  lemma HeaderLayout(buf: ByteString)
    requires |buf| >= 9 && buf[0] % 128 <= MAX_SUPPORTED
    ensures var wide := buf[0] % 128 >= 3;
            var size := if wide then 9 else 8;
            var length := Plain(buf[size - 4]) * 0x100_0000 + Plain(buf[size - 3]) * 0x1_0000 +
                          Plain(buf[size - 2]) * 256 + Plain(buf[size - 1]);
            if buf[size - 4] >= 128 then ScanHeader(buf) == Malformed
            else
              && ScanHeader(buf).Found?
              && (var h := ScanHeader(buf).header;
                  && h.version == buf[0] % 128 && h.flags == buf[1] && h.opcode == buf[size - 5]
                  && h.stream == (if wide then Plain(buf[2]) * 256 + Plain(buf[3]) else Plain(buf[2])) -
                                 (if buf[2] < 128 then 0 else if wide then 0x1_0000 else 256)
                  && h.bodyOffset == size && h.endPos == size + length)
  {
    hide VarintUnpack;
    var size := HeaderSize(buf[0] % 128);
    SignedOf(buf[size - 4..size]);
    SignedOf(buf[2..size - 5]);
  }

  /** A frame cut short is never mistaken for a whole one, nor for a malformed one. */
  lemma PartialFrame(f: Frame, fromServer: bool, n: nat)
    requires Packable(f) && n < |Encode(f, fromServer)|
    ensures Parse(Encode(f, fromServer)[..n]) == Parsed([], Encode(f, fromServer)[..n], false)
  {
    var whole := Encode(f, fromServer);
    var part := whole[..n];
    HeaderReadsBack(f, fromServer, []);
    assert whole + [] == whole && part + whole[n..] == whole;
    ScanStable(part, whole[n..]);
  }

  /** A whole frame at the front is delivered with its header fields and body. */
  lemma WholeFrame(f: Frame, fromServer: bool, more: ByteString)
    requires Packable(f)
    ensures Parse(Encode(f, fromServer) + more) == Prepend([f], Parse(more))
  {
    hide ScanHeader;
    HeaderReadsBack(f, fromServer, more);
    var buf, size := Encode(f, fromServer) + more, HeaderSize(f.version);
    assert buf[size..size + |f.body|] == f.body;
    assert buf[size + |f.body|..] == more;
  }

  function EncodeAll(frames: seq<Frame>, fromServer: bool): ByteString
    requires forall f :: f in frames ==> Packable(f)
  {
    if frames == [] then [] else Encode(frames[0], fromServer) + EncodeAll(frames[1..], fromServer)
  }

  /** Of any beginning of a stream of frames, exactly the frames that are complete come out,
      and the bytes of the one that is not are kept. */
  lemma {:induction false} PrefixOfStream(frames: seq<Frame>, fromServer: bool, n: nat) returns (k: nat, m: nat)
    requires forall f :: f in frames ==> Packable(f)
    requires n <= |EncodeAll(frames, fromServer)|
    ensures k <= |frames| && (k == |frames| ==> m == 0) && (k < |frames| ==> m < |Encode(frames[k], fromServer)|)
    ensures var cut := if k < |frames| then Encode(frames[k], fromServer)[..m] else [];
            && EncodeAll(frames, fromServer)[..n] == EncodeAll(frames[..k], fromServer) + cut
            && Parse(EncodeAll(frames, fromServer)[..n]) == Parsed(frames[..k], cut, false)
  {
    hide Encode, ScanHeader, Parse, Packable;
    if frames == [] {
      k, m := 0, 0;
      ParseNothing();
      assert frames[..0] == [];
    } else {
      var first, rest := Encode(frames[0], fromServer), EncodeAll(frames[1..], fromServer);
      if n < |first| {
        k, m := 0, n;
        assert (first + rest)[..n] == first[..n];
        assert frames[..0] == [];
        PartialFrame(frames[0], fromServer, n);
      } else {
        k, m := PrefixOfStream(frames[1..], fromServer, n - |first|);
        assert (first + rest)[..n] == first + rest[..n - |first|];
        OneFrameMore(frames, fromServer, k, m, rest[..n - |first|]);
        k := k + 1;
      }
    }
  }

  /** A whole frame before what the rest of the stream gives. */
  lemma OneFrameMore(frames: seq<Frame>, fromServer: bool, k: nat, m: nat, part: ByteString)
    requires (forall f :: f in frames ==> Packable(f)) && k < |frames|
    requires k + 1 < |frames| ==> m < |Encode(frames[k + 1], fromServer)|
    requires var cut := if k + 1 < |frames| then Encode(frames[k + 1], fromServer)[..m] else [];
             && part == EncodeAll(frames[1..][..k], fromServer) + cut
             && Parse(part) == Parsed(frames[1..][..k], cut, false)
    ensures var cut := if k + 1 < |frames| then Encode(frames[k + 1], fromServer)[..m] else [];
            && Encode(frames[0], fromServer) + part == EncodeAll(frames[..k + 1], fromServer) + cut
            && Parse(Encode(frames[0], fromServer) + part) == Parsed(frames[..k + 1], cut, false)
  {
    hide Encode, ScanHeader, Parse, Packable;
    WholeFrame(frames[0], fromServer, part);
    assert frames[..k + 1] == [frames[0]] + frames[1..][..k];
    assert frames[..k + 1][1..] == frames[1..][..k];
  }

  lemma ParseNothing()
    ensures Parse([]) == Parsed([], [], false)
  {
  }

  // -------------------------------------------------------------------------- the object

  lemma ParseWaits(buf: ByteString)
    requires ScanHeader(buf).Found? ==> |buf| < ScanHeader(buf).header.endPos
    ensures Parse(buf) == Parsed([], buf, ScanHeader(buf).Malformed?)
  {
    hide ScanHeader;
  }

  lemma ParseGoesOn(buf: ByteString)
    requires ScanHeader(buf).Found? && ScanHeader(buf).header.endPos <= |buf|
    ensures var h := ScanHeader(buf).header; Parse(buf) == Prepend([FrameAt(h, buf)], Parse(buf[h.endPos..]))
  {
    hide ScanHeader;
  }

  datatype Current = NoFrame | InFrame(header: Header)

  /** The receiving side of `Connection`: the buffer with its position, the frame whose header
      has been read, and the frames handed to `process_msg`. `received` is everything the
      socket has delivered. */
  class Receiver {
    var iobuf: ByteString
    var position: nat
    var currentFrame: Current
    var processed: seq<Frame>
    var isDefunct: bool
    ghost var received: ByteString

    constructor ()
      ensures Valid() && received == [] && processed == [] && iobuf == []
    {
      iobuf, position, currentFrame, processed, isDefunct, received := [], 0, NoFrame, [], false, [];
      ParseNothing();
    }

    /** What has been handed on and what is kept are what parsing everything at once gives. */
    ghost predicate Valid()
      reads this
    {
      && Parse(received) == Parsed(processed, iobuf, isDefunct)
      && Buffered()
    }

    ghost predicate Buffered()
      reads this
    {
      && position == |iobuf|
      && (currentFrame.InFrame? ==> ScanHeader(iobuf) == Found(currentFrame.header))
    }

    /** A socket read: append the bytes and look for frames. However the bytes are cut up, the
        frames processed are those of the whole. */
    method Receive(chunk: ByteString)
      requires Valid()
      modifies this
      ensures Valid() && received == old(received) + chunk
      ensures old(processed) <= processed
    {
      hide ScanHeader, Parse;
      ParseResumes(received, chunk);
      if isDefunct {
        MalformedStays(received, chunk);
      }
      if currentFrame.InFrame? {
        ScanStable(iobuf, chunk);
      }
      received := received + chunk;
      iobuf := iobuf + chunk;
      position := |iobuf|;
      ProcessIoBuffer();
    }

    method ReadFrameHeader()
      requires position == |iobuf| && currentFrame.NoFrame?
      modifies this`currentFrame, this`isDefunct
      ensures currentFrame == if ScanHeader(iobuf).Found? then InFrame(ScanHeader(iobuf).header) else NoFrame
      ensures isDefunct == (old(isDefunct) || ScanHeader(iobuf).Malformed?)
    {
      var buf := iobuf;
      if |buf| > 0 {
        var version := buf[0] % 128;
        if version > MAX_SUPPORTED {
          isDefunct := true;
          return;
        }
        var headerSize := if version >= 3 then 9 else 8;
        if |buf| >= headerSize {
          var flags, stream := buf[1], VarintUnpack(buf[2..headerSize - 5]);
          var op, bodyLen := buf[headerSize - 5], VarintUnpack(buf[headerSize - 4..headerSize]);
          if bodyLen < 0 {
            isDefunct := true;
            return;
          }
          currentFrame := InFrame(Header(version, flags, stream, op, headerSize, bodyLen + headerSize));
        }
      }
    }

    method ResetFrame()
      requires position <= |iobuf|
      modifies this`iobuf, this`position, this`currentFrame
      ensures iobuf == old(iobuf[position..]) && position == |iobuf| && currentFrame.NoFrame?
    {
      iobuf := iobuf[position..];
      position := |iobuf|;
      currentFrame := NoFrame;
    }

    method ProcessIoBuffer()
      requires Buffered()
      requires Parse(received) == Prepend(processed, Parse(iobuf))
      requires isDefunct ==> Parse(iobuf) == Parsed([], iobuf, true)
      modifies this`iobuf, this`position, this`currentFrame, this`processed, this`isDefunct
      ensures Valid() && old(processed) <= processed
    {
      hide ScanHeader, Parse;
      while true
        invariant Buffered() && old(processed) <= processed
        invariant Parse(received) == Prepend(processed, Parse(iobuf))
        invariant isDefunct ==> Parse(iobuf) == Parsed([], iobuf, true)
        decreases |iobuf|
      {
        if currentFrame.NoFrame? {
          ReadFrameHeader();
        }
        if currentFrame.NoFrame? || position < currentFrame.header.endPos {
          ParseWaits(iobuf);
          assert processed + [] == processed;
          return;
        }
        var frame := currentFrame.header;
        position := frame.bodyOffset;
        var msg := iobuf[position..frame.endPos];
        position := frame.endPos;
        ParseGoesOn(iobuf);
        PrependTwice(processed, [FrameAt(frame, iobuf)], Parse(iobuf[frame.endPos..]));
        processed := processed + [Frame(frame.version, frame.flags, frame.stream, frame.opcode, msg)];
        ResetFrame();
      }
    }
  }

  function Joined(chunks: seq<ByteString>): ByteString {
    if chunks == [] then [] else Joined(chunks[..|chunks| - 1]) + chunks[|chunks| - 1]
  }

  /** However a stream of frames is cut into chunks, and wherever it breaks off: the frames handed
      on are exactly those that are complete, unchanged and in order, the bytes of the next one are
      kept, and the connection is not given up. */
  method ReceiveStream(frames: seq<Frame>, fromServer: bool, chunks: seq<ByteString>) returns (r: Receiver, k: nat)
    requires forall f :: f in frames ==> Packable(f)
    requires Joined(chunks) <= EncodeAll(frames, fromServer)
    ensures r.Valid() && !r.isDefunct
    ensures k <= |frames| && r.processed == frames[..k]
    ensures k == |frames| ==> r.iobuf == []
    ensures k < |frames| ==> r.iobuf < Encode(frames[k], fromServer)
    ensures Joined(chunks) == EncodeAll(frames[..k], fromServer) + r.iobuf
  {
    hide Encode, Parse, Packable, Receiver.Buffered;
    r := new Receiver();
    var i := 0;
    assert Joined(chunks[..0]) == [];
    while i < |chunks|
      invariant 0 <= i <= |chunks| && r.Valid() && fresh(r)
      invariant r.received == Joined(chunks[..i])
    {
      assert chunks[..i + 1][..i] == chunks[..i];
      r.Receive(chunks[i]);
      i := i + 1;
    }
    assert chunks[..i] == chunks;
    var n := |r.received|;
    ghost var j, m := PrefixOfStream(frames, fromServer, n);
    assert EncodeAll(frames, fromServer)[..n] == r.received;
    k := |r.processed|;
    assert k == j;
  }
}
