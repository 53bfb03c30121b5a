/** The UTF-8 codec that text values go through. */
module Utf8 {
  import opened Bytes
  import opened Seqs

  function EncodeChar(c: char): (b: ByteString)
    ensures 1 <= |b| <= 4
  {
    var n := c as int;
    if n < 0x80 then [n]
    else if n < 0x800 then [0xC0 + n / 64, 0x80 + n % 64]
    else if n < 0x1_0000 then [0xE0 + n / 4096, 0x80 + n / 64 % 64, 0x80 + n % 64]
    else [0xF0 + n / 262144, 0x80 + n / 4096 % 64, 0x80 + n / 64 % 64, 0x80 + n % 64]
  }

  function Encode(s: string): (b: ByteString)
    ensures b == [] <==> s == []
  {
    if s == [] then [] else EncodeChar(s[0]) + Encode(s[1..])
  }

  predicate Continues(b: Byte) { 0x80 <= b < 0xC0 }

  function Past(b: int, mark: int): int { b - mark }

  /** The character at the front and its length; nothing is the UnicodeDecodeError, raised also
      for overlong forms, surrogates and numbers past the last character. */
  function DecodeChar(b: ByteString): (r: Option<(char, nat)>)
    requires b != []
    ensures r.Some? ==> 1 <= r.value.1 <= |b|
  {
    var b0 := b[0];
    if b0 < 0x80 then Some((b0 as char, 1))
    else if 0xC2 <= b0 < 0xE0 && |b| >= 2 && Continues(b[1]) then
      Some(((Past(b0, 0xC0) * 64 + Past(b[1], 0x80)) as char, 2))
    else if 0xE0 <= b0 < 0xF0 && |b| >= 3 && Continues(b[1]) && Continues(b[2]) then
      var n := Past(b0, 0xE0) * 4096 + Past(b[1], 0x80) * 64 + Past(b[2], 0x80);
      if n < 0x800 || 0xD800 <= n < 0xE000 then None else Some((n as char, 3))
    else if 0xF0 <= b0 < 0xF5 && |b| >= 4 && Continues(b[1]) && Continues(b[2]) && Continues(b[3]) then
      var n := Past(b0, 0xF0) * 262144 + Past(b[1], 0x80) * 4096 + Past(b[2], 0x80) * 64 + Past(b[3], 0x80);
      if n < 0x1_0000 || n >= 0x11_0000 then None else Some((n as char, 4))
    else None
  }

  function Decode(b: ByteString): Option<string>
    decreases |b|
  {
    if b == [] then Some("")
    else
      match DecodeChar(b)
      case None => None
      case Some((c, n)) =>
        match Decode(b[n..])
        case None => None
        case Some(rest) => Some([c] + rest)
  }

  lemma CharReadsBack(c: char, rest: ByteString)
    ensures DecodeChar(EncodeChar(c) + rest) == Some((c, |EncodeChar(c)|))
  {
    var n := c as int;
    var b := EncodeChar(c) + rest;
    if n < 0x80 {
      assert b[0] == n;
    } else if n < 0x800 {
      assert b[0] == 0xC0 + n / 64 && b[1] == 0x80 + n % 64;
    } else if n < 0x1_0000 {
      assert b[0] == 0xE0 + n / 4096 && b[1] == 0x80 + n / 64 % 64 && b[2] == 0x80 + n % 64;
      ThreeDigits(n);
    } else {
      assert b[0] == 0xF0 + n / 262144 && b[1] == 0x80 + n / 4096 % 64;
      assert b[2] == 0x80 + n / 64 % 64 && b[3] == 0x80 + n % 64;
      ThreeDigits(n);
      FourDigits(n);
    }
  }

  lemma ThreeDigits(n: nat)
    ensures n == n / 4096 * 4096 + n / 64 % 64 * 64 + n % 64
  {
    assert n / 64 / 64 == n / 4096;
  }

  lemma FourDigits(n: nat)
    ensures n == n / 262144 * 262144 + n / 4096 % 64 * 4096 + n / 64 % 64 * 64 + n % 64
  {
    ThreeDigits(n);
    assert n / 4096 / 64 == n / 262144;
  }

  /** Decoding undoes encoding. */
  lemma {:induction false} TextReadsBack(s: string)
    ensures Decode(Encode(s)) == Some(s)
  {
    hide DecodeChar, EncodeChar;
    if s != [] {
      var first, rest := EncodeChar(s[0]), Encode(s[1..]);
      CharReadsBack(s[0], rest);
      assert (first + rest)[|first|..] == rest;
      TextReadsBack(s[1..]);
      assert [s[0]] + s[1..] == s;
    }
  }

  /** The bytes a character is read from are the ones it is written as. */
  lemma CharOnlyFrom(b: ByteString)
    requires b != [] && DecodeChar(b).Some?
    ensures var (c, n) := DecodeChar(b).value; b[..n] == EncodeChar(c)
  {
    var b0 := b[0];
    if b0 < 0x80 {
    } else if 0xC2 <= b0 < 0xE0 && |b| >= 2 && Continues(b[1]) {
      TwoBytes(Past(b0, 0xC0), Past(b[1], 0x80));
    } else if 0xE0 <= b0 < 0xF0 && |b| >= 3 && Continues(b[1]) && Continues(b[2]) {
      ThreeBytes(Past(b0, 0xE0), Past(b[1], 0x80), Past(b[2], 0x80));
    } else {
      FourBytes(Past(b0, 0xF0), Past(b[1], 0x80), Past(b[2], 0x80), Past(b[3], 0x80));
    }
  }

  lemma TwoBytes(x: nat, y: nat)
    requires y < 64
    ensures (x * 64 + y) / 64 == x && (x * 64 + y) % 64 == y
  {
  }

  lemma ThreeBytes(x: nat, y: nat, z: nat)
    requires y < 64 && z < 64
    ensures var n := x * 4096 + y * 64 + z; n / 4096 == x && n / 64 % 64 == y && n % 64 == z
  {
    TwoBytes(x * 64 + y, z);
    TwoBytes(x, y);
  }

  lemma FourBytes(w: nat, x: nat, y: nat, z: nat)
    requires x < 64 && y < 64 && z < 64
    ensures var n := w * 262144 + x * 4096 + y * 64 + z;
            n / 262144 == w && n / 4096 % 64 == x && n / 64 % 64 == y && n % 64 == z
  {
    ThreeBytes(w * 64 + x, y, z);
    TwoBytes(w, x);
  }

  /** Exactly the encodings of texts are decoded: nothing overlong, cut off or out of range. */
  lemma {:induction false} DecodesOnlyEncodings(b: ByteString, s: string)
    ensures Decode(b) == Some(s) <==> b == Encode(s)
    decreases |b|
  {
    hide DecodeChar, EncodeChar;
    if b == Encode(s) { TextReadsBack(s); }
    if Decode(b) == Some(s) && b != [] {
      CharOnlyFrom(b);
      var (c, n) := DecodeChar(b).value;
      DecodesOnlyEncodings(b[n..], s[1..]);
      assert s == [c] + s[1..];
      assert b == b[..n] + b[n..];
    }
  }
}
