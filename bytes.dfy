/**
 * Bytes as java.nio.ByteBuffer writes them: big-endian two's-complement
 * integers of 4 and 8 bytes, and strings in UTF-8 (RFC 3629).
 */
module Bytes {
  import opened Wrappers
  import JavaLang

  newtype byte = b: int | 0 <= b < 256

  // ---------------------------------------------------------------------
  // Unsigned big-endian numbers
  // ---------------------------------------------------------------------

  function Pow256(n: nat): (r: nat)
    ensures r >= 1
  {
    if n == 0 then 1 else 256 * Pow256(n - 1)
  }

  /** The n low-order bytes of u, most significant first. */
  function UnsignedToBytes(u: nat, n: nat): (r: seq<byte>)
    ensures |r| == n
  {
    if n == 0 then [] else UnsignedToBytes(u / 256, n - 1) + [(u % 256) as byte]
  }

  /** The unsigned value of a big-endian byte sequence. */
  function BytesToUnsigned(bs: seq<byte>): (r: nat)
    ensures r < Pow256(|bs|)
  {
    if bs == [] then 0
    else
      var h := BytesToUnsigned(bs[..|bs| - 1]);
      assert h * 256 + bs[|bs| - 1] as int < 256 * Pow256(|bs| - 1) by {
        assert h + 1 <= Pow256(|bs| - 1);
      }
      h * 256 + bs[|bs| - 1] as nat
  }

  lemma {:induction false} UnsignedRoundTrip(u: nat, n: nat)
    requires u < Pow256(n)
    ensures BytesToUnsigned(UnsignedToBytes(u, n)) == u
  {
    if n > 0 {
      var q, m := u / 256, u % 256;
      assert q < Pow256(n - 1);
      UnsignedRoundTrip(q, n - 1);
      var bs := UnsignedToBytes(u, n);
      assert bs[..|bs| - 1] == UnsignedToBytes(q, n - 1);
    }
  }

  lemma {:induction false} BytesRoundTrip(bs: seq<byte>)
    ensures UnsignedToBytes(BytesToUnsigned(bs), |bs|) == bs
  {
    if bs != [] {
      var init := bs[..|bs| - 1];
      BytesRoundTrip(init);
      var u := BytesToUnsigned(bs);
      assert u / 256 == BytesToUnsigned(init) && u % 256 == bs[|bs| - 1] as int;
      assert bs == init + [bs[|bs| - 1]];
    }
  }

  // ---------------------------------------------------------------------
  // ByteBuffer.putInt / getInt and putLong / getLong
  // ---------------------------------------------------------------------

  function IntToBytes(x: int): (r: seq<byte>)
    requires JavaLang.IsInt(x)
    ensures |r| == 4
  {
    UnsignedToBytes(if x < 0 then x + JavaLang.TWO_32 else x, 4)
  }

  function BytesToInt(bs: seq<byte>): (x: int)
    requires |bs| == 4
    ensures JavaLang.IsInt(x)
  {
    var u := BytesToUnsigned(bs);
    assert Pow256(4) == JavaLang.TWO_32;
    if u >= 0x8000_0000 then u - JavaLang.TWO_32 else u
  }

  lemma IntRoundTrip(x: int)
    requires JavaLang.IsInt(x)
    ensures BytesToInt(IntToBytes(x)) == x
  {
    assert Pow256(4) == JavaLang.TWO_32;
    UnsignedRoundTrip(if x < 0 then x + JavaLang.TWO_32 else x, 4);
  }

  function LongToBytes(x: int): (r: seq<byte>)
    requires JavaLang.IsLong(x)
    ensures |r| == 8
  {
    UnsignedToBytes(if x < 0 then x + JavaLang.TWO_64 else x, 8)
  }

  function BytesToLong(bs: seq<byte>): (x: int)
    requires |bs| == 8
    ensures JavaLang.IsLong(x)
  {
    var u := BytesToUnsigned(bs);
    assert Pow256(8) == JavaLang.TWO_64;
    if u >= 0x8000_0000_0000_0000 then u - JavaLang.TWO_64 else u
  }

  lemma LongRoundTrip(x: int)
    requires JavaLang.IsLong(x)
    ensures BytesToLong(LongToBytes(x)) == x
  {
    assert Pow256(8) == JavaLang.TWO_64;
    UnsignedRoundTrip(if x < 0 then x + JavaLang.TWO_64 else x, 8);
  }

  // ---------------------------------------------------------------------
  // UTF-8 (RFC 3629, section 3)
  // ---------------------------------------------------------------------

  predicate IsContinuation(b: byte) { 0x80 <= b < 0xC0 }

  /** The UTF-8 encoding of one Unicode scalar value. */
  function EncodeChar(c: char): (r: seq<byte>)
    ensures 1 <= |r| <= 4
    ensures forall i :: 1 <= i < |r| ==> IsContinuation(r[i])
  {
    var cp := c as int;
    var q1 := cp / 64;
    var q2 := q1 / 64;
    var q3 := q2 / 64;
    if cp < 0x80 then [cp as byte]
    else if cp < 0x800 then [(0xC0 + q1) as byte, (0x80 + cp % 64) as byte]
    else if cp < 0x10000 then
      [(0xE0 + q2) as byte, (0x80 + q1 % 64) as byte, (0x80 + cp % 64) as byte]
    else
      [(0xF0 + q3) as byte, (0x80 + q2 % 64) as byte, (0x80 + q1 % 64) as byte, (0x80 + cp % 64) as byte]
  }

  predicate IsScalar(cp: int) { 0 <= cp < 0xD800 || 0xE000 <= cp < 0x11_0000 }

  /**
   * Decodes the character at the start of bs: the character and the number
   * of bytes it takes, or None when the bytes there are not well-formed
   * UTF-8 (a stray continuation byte, a truncated or overlong sequence, a
   * surrogate or a value above U+10FFFF).
   */
  function DecodeChar(bs: seq<byte>): (r: Option<(char, nat)>)
    ensures r.Some? ==> 1 <= r.value.1 <= |bs|
  {
    if bs == [] then None
    else
      var b0 := bs[0] as int;
      if b0 < 0x80 then Some((b0 as char, 1))
      else if 0xC0 <= b0 < 0xE0 && |bs| >= 2 && IsContinuation(bs[1]) then
        var cp := (b0 - 0xC0) * 64 + (bs[1] as int - 0x80);
        if 0x80 <= cp then Some((cp as char, 2)) else None
      else if 0xE0 <= b0 < 0xF0 && |bs| >= 3 && IsContinuation(bs[1]) && IsContinuation(bs[2]) then
        var cp := (b0 - 0xE0) * 4096 + (bs[1] as int - 0x80) * 64 + (bs[2] as int - 0x80);
        if 0x800 <= cp && IsScalar(cp) then Some((cp as char, 3)) else None
      else if 0xF0 <= b0 < 0xF8 && |bs| >= 4 && IsContinuation(bs[1]) && IsContinuation(bs[2])
              && IsContinuation(bs[3]) then
        var cp := (b0 - 0xF0) * 262144 + (bs[1] as int - 0x80) * 4096
                  + (bs[2] as int - 0x80) * 64 + (bs[3] as int - 0x80);
        if 0x1_0000 <= cp && IsScalar(cp) then Some((cp as char, 4)) else None
      else None
  }

  /** String.getBytes("UTF-8"). */
  function Encode(s: string): (r: seq<byte>)
    ensures |r| >= |s|
  {
    if s == [] then [] else EncodeChar(s[0]) + Encode(s[1..])
  }

  /** new String(bytes, "UTF-8") on well-formed input; None otherwise. */
  function Decode(bs: seq<byte>): (r: Option<string>)
    decreases |bs|
  {
    if bs == [] then Some([])
    else
      match DecodeChar(bs)
      case None => None
      case Some((c, n)) =>
        match Decode(bs[n..])
        case None => None
        case Some(rest) => Some([c] + rest)
  }

  /** The replacement character Charset.decode substitutes for malformed input. */
  const REPLACEMENT: char := '\U{FFFD}'

  /**
   * The second bytes the JDK's UTF-8 decoder accepts after lead byte b0
   * before it looks at the bytes after them: a continuation byte, with the
   * overlong E0 80..9F and the out-of-range F0 80..8F and F4 90..BF ruled
   * out.  ED A0..BF is accepted here: the decoder reads the third byte
   * before it finds the surrogate.
   */
  predicate SecondFits(b0: byte, b1: byte)
  {
    if b0 == 0xE0 then 0xA0 <= b1 < 0xC0
    else if b0 == 0xF0 then 0x90 <= b1 < 0xC0
    else if b0 == 0xF4 then 0x80 <= b1 < 0x90
    else IsContinuation(b1)
  }

  /**
   * The number of bytes one replacement character stands for when the
   * bytes at the start of bs are malformed, as the JDK's UTF-8 decoder
   * (sun.nio.cs.UTF_8) reports them: one byte when the lead byte or the
   * second byte is refused; otherwise two when the third byte is missing
   * or is no continuation, and three when it is one (for a three-byte lead
   * that is an encoded surrogate, for a four-byte lead a missing or bad
   * fourth byte).  At the end of the input the decoder reports what is
   * left as one malformed unit, which is the same count.
   */
  function MalformedLength(bs: seq<byte>): (r: nat)
    requires bs != []
    ensures 1 <= r <= |bs| && r <= 3
  {
    var b0 := bs[0];
    if 0xE0 <= b0 < 0xF5 then
      if |bs| < 2 || !SecondFits(b0, bs[1]) then 1
      else if |bs| < 3 || !IsContinuation(bs[2]) then 2
      else 3
    else 1
  }

  /**
   * Charset.decode: well-formed UTF-8 becomes its characters, and each
   * malformed subpart becomes one U+FFFD.
   */
  function DecodeReplacing(bs: seq<byte>): (r: string)
    ensures |r| <= |bs|
    decreases |bs|
  {
    if bs == [] then []
    else
      match DecodeChar(bs)
      case Some((c, n)) => [c] + DecodeReplacing(bs[n..])
      case None => [REPLACEMENT] + DecodeReplacing(bs[MalformedLength(bs)..])
  }

  /** On well-formed input the replacing decoder gives exactly the strict decoding. */
  lemma {:induction false} DecodeReplacingAgrees(bs: seq<byte>)
    requires Decode(bs).Some?
    ensures DecodeReplacing(bs) == Decode(bs).value
    decreases |bs|
  {
    if bs != [] {
      var n := DecodeChar(bs).value.1;
      DecodeReplacingAgrees(bs[n..]);
    }
  }

  /** A lone 0xFF byte decodes to one replacement character. */
  lemma DecodeReplacingInvalidByte()
    ensures Decode([0xFF]) == None
    ensures DecodeReplacing([0xFF]) == [REPLACEMENT]
  {
    assert DecodeChar([0xFF]) == None;
    assert [0xFF][1..] == [];
  }

  /** A truncated three-byte sequence followed by 'A' is one replacement, then 'A'. */
  lemma DecodeReplacingTruncated()
    ensures DecodeReplacing([0xE2, 0x82, 0x41]) == [REPLACEMENT, 'A']
  {
    var bs: seq<byte> := [0xE2, 0x82, 0x41];
    assert DecodeChar(bs) == None;
    assert MalformedLength(bs) == 2;
    assert bs[2..] == [0x41];
    assert DecodeChar([0x41]) == Some(('A', 1));
    assert [0x41][1..] == [];
  }

  /**
   * An encoded surrogate (ED A0..BF and a continuation byte) is one
   * malformed unit of three bytes; with no continuation byte after ED A0
   * the unit is two bytes, as it is when ED A0 ends the input.
   */
  lemma DecodeReplacingSurrogate()
    ensures DecodeReplacing([0xED, 0xA0, 0x80]) == [REPLACEMENT]
    ensures DecodeReplacing([0xED, 0xA0, 0x41]) == [REPLACEMENT, 'A']
    ensures DecodeReplacing([0xED, 0xA0]) == [REPLACEMENT]
  {
    var s: seq<byte> := [0xED, 0xA0, 0x80];
    assert DecodeChar(s) == None && MalformedLength(s) == 3 && s[3..] == [];
    var t: seq<byte> := [0xED, 0xA0, 0x41];
    assert DecodeChar(t) == None && MalformedLength(t) == 2 && t[2..] == [0x41];
    assert DecodeChar([0x41]) == Some(('A', 1));
    assert [0x41][1..] == [];
    var u: seq<byte> := [0xED, 0xA0];
    assert DecodeChar(u) == None && MalformedLength(u) == 2 && u[2..] == [];
  }

  lemma DecodeEncodeChar(c: char, rest: seq<byte>)
    ensures DecodeChar(EncodeChar(c) + rest) == Some((c, |EncodeChar(c)|))
  {
    var cp := c as int;
    if cp < 0x80 {
    } else if cp < 0x800 {
      DecodeEncode2(c, rest);
    } else if cp < 0x10000 {
      DecodeEncode3(c, rest);
    } else {
      DecodeEncode4(c, rest);
    }
  }

  lemma DecodeEncode2(c: char, rest: seq<byte>)
    requires 0x80 <= c as int < 0x800
    ensures DecodeChar(EncodeChar(c) + rest) == Some((c, 2))
  {
    var cp := c as int;
    var bs := EncodeChar(c) + rest;
    assert cp == (cp / 64) * 64 + cp % 64;
    assert bs[0] as int == 0xC0 + cp / 64 && bs[1] as int == 0x80 + cp % 64;
  }

  lemma DecodeEncode3(c: char, rest: seq<byte>)
    requires 0x800 <= c as int < 0x10000
    ensures DecodeChar(EncodeChar(c) + rest) == Some((c, 3))
  {
    var cp := c as int;
    var bs := EncodeChar(c) + rest;
    var q1 := cp / 64;
    var q2 := q1 / 64;
    assert cp == q1 * 64 + cp % 64 && q1 == q2 * 64 + q1 % 64;
    assert bs[0] as int == 0xE0 + q2 && bs[1] as int == 0x80 + q1 % 64 && bs[2] as int == 0x80 + cp % 64;
  }

  lemma DecodeEncode4(c: char, rest: seq<byte>)
    requires 0x10000 <= c as int
    ensures DecodeChar(EncodeChar(c) + rest) == Some((c, 4))
  {
    var cp := c as int;
    var bs := EncodeChar(c) + rest;
    var q1 := cp / 64;
    var q2 := q1 / 64;
    var q3 := q2 / 64;
    assert cp == q1 * 64 + cp % 64 && q1 == q2 * 64 + q1 % 64 && q2 == q3 * 64 + q2 % 64;
    assert bs[0] as int == 0xF0 + q3 && bs[1] as int == 0x80 + q2 % 64;
    assert bs[2] as int == 0x80 + q1 % 64 && bs[3] as int == 0x80 + cp % 64;
  }

  /** Decoding what Encode produced gives back the string. */
  lemma {:induction false} DecodeEncode(s: string)
    ensures Decode(Encode(s)) == Some(s)
  {
    if s != [] {
      var e := EncodeChar(s[0]);
      DecodeEncodeChar(s[0], Encode(s[1..]));
      assert (e + Encode(s[1..]))[|e|..] == Encode(s[1..]);
      DecodeEncode(s[1..]);
      assert [s[0]] + s[1..] == s;
    }
  }

  /**
   * The 16-byte header both JCarder file readers check: an 8-byte magic
   * cookie, the major and the minor version.  A file too short for the
   * long or an int fails like getLong/getInt on a short buffer; the minor
   * version is read but never checked.
   */
  function ValidateHeader(file: seq<byte>, cookie: int, major: int): (r: Result<()>)
    ensures r.Ok? <==> |file| >= 16 && BytesToLong(file[..8]) == cookie && BytesToInt(file[8..12]) == major
  {
    if |file| < 8 then Err(Runtime("BufferUnderflowException"))
    else if BytesToLong(file[..8]) != cookie then Err(IO("Invalid file contents"))
    else if |file| < 16 then Err(Runtime("BufferUnderflowException"))
    else if BytesToInt(file[8..12]) != major then Err(IO("Incompatible version"))
    else Ok(())
  }
}
