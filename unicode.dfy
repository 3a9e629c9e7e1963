/**
 * UTF-8 as Rust's `String` stores text (RFC 3629): `EncodeString` gives the bytes of a
 * string, `DecodeUtf8` is `String::from_utf8` (it refuses overlong forms, surrogates and
 * code points above U+10FFFF), and `ByteLength` is `str::len`.
 */
module Unicode {
  import opened Wrappers

  type Byte = b: int | 0 <= b < 0x100

  predicate IsContinuation(b: Byte)
  {
    0x80 <= b < 0xC0
  }

  /** The UTF-8 bytes of one Unicode scalar value: one to four bytes. */
  function EncodeChar(c: char): (bs: seq<Byte>)
    ensures 1 <= |bs| <= 4
    ensures |bs| == 1 <==> (c as int) < 0x80
  {
    var cp := c as int;
    if cp < 0x80 then [cp]
    else if cp < 0x800 then [0xC0 + cp / 64, 0x80 + cp % 64]
    else if cp < 0x10000 then [0xE0 + cp / 4096, 0x80 + (cp / 64) % 64, 0x80 + cp % 64]
    else [0xF0 + cp / 262144, 0x80 + (cp / 4096) % 64, 0x80 + (cp / 64) % 64, 0x80 + cp % 64]
  }

  function EncodeString(s: string): (bs: seq<Byte>)
    ensures |bs| >= |s|
  {
    if s == [] then [] else EncodeChar(s[0]) + EncodeString(s[1..])
  }

  /** `s.len()` on a Rust `String`: its length in UTF-8 bytes, not in characters. */
  function ByteLength(s: string): nat
  {
    |EncodeString(s)|
  }

  predicate IsAscii(s: string)
  {
    forall i :: 0 <= i < |s| ==> (s[i] as int) < 0x80
  }

  /**
   * Decodes the one character at the head of `s`, if the leading bytes form a
   * well-formed sequence; returns the character and the number of bytes it used.
   */
  function DecodeOne(s: seq<Byte>): (r: Option<(char, nat)>)
    requires |s| > 0
    ensures r.Some? ==> 1 <= r.value.1 <= |s| && r.value.1 <= 4
  {
    var b0: int := s[0];
    if b0 < 0x80 then Some((b0 as char, 1))
    else if 0xC2 <= b0 <= 0xDF then
      if |s| >= 2 && IsContinuation(s[1]) then
        var b1: int := s[1];
        Some((((b0 - 0xC0) * 64 + (b1 - 0x80)) as char, 2))
      else None
    else if 0xE0 <= b0 <= 0xEF then
      var lo := if b0 == 0xE0 then 0xA0 else 0x80;
      var hi := if b0 == 0xED then 0x9F else 0xBF;
      if |s| >= 3 && lo <= s[1] <= hi && IsContinuation(s[2]) then
        var b1: int, b2: int := s[1], s[2];
        var cp := (b0 - 0xE0) * 4096 + (b1 - 0x80) * 64 + (b2 - 0x80);
        Some((cp as char, 3))
      else None
    else if 0xF0 <= b0 <= 0xF4 then
      var lo := if b0 == 0xF0 then 0x90 else 0x80;
      var hi := if b0 == 0xF4 then 0x8F else 0xBF;
      if |s| >= 4 && lo <= s[1] <= hi && IsContinuation(s[2]) && IsContinuation(s[3]) then
        var b1: int, b2: int, b3: int := s[1], s[2], s[3];
        var cp := (b0 - 0xF0) * 262144 + (b1 - 0x80) * 4096 + (b2 - 0x80) * 64 + (b3 - 0x80);
        Some((cp as char, 4))
      else None
    else None
  }

  /** `String::from_utf8`: the text the bytes encode, or None when they are not UTF-8. */
  function DecodeUtf8(s: seq<Byte>): Option<string>
    decreases |s|
  {
    if s == [] then Some([])
    else match DecodeOne(s)
      case None => None
      case Some((c, n)) =>
        match DecodeUtf8(s[n..])
        case None => None
        case Some(rest) => Some([c] + rest)
  }

  lemma DecodeOneTwoBytes(cp: int, s: seq<Byte>)
    requires 0x80 <= cp < 0x800
    requires |s| >= 2 && s[0] == 0xC0 + cp / 64 && s[1] == 0x80 + cp % 64
    ensures DecodeOne(s) == Some((cp as char, 2))
  {
  }

  lemma DecodeOneThreeBytes(cp: int, s: seq<Byte>)
    requires 0x800 <= cp < 0x10000 && !(0xD800 <= cp < 0xE000)
    requires |s| >= 3 && s[0] == 0xE0 + cp / 4096 && s[1] == 0x80 + (cp / 64) % 64 && s[2] == 0x80 + cp % 64
    ensures DecodeOne(s) == Some((cp as char, 3))
  {
    var q, m := cp / 64, cp % 64;
    assert cp == q * 64 + m;
    var hi, mid := q / 64, q % 64;
    assert q == hi * 64 + mid;
    assert cp / 4096 == hi;
    assert cp == hi * 4096 + mid * 64 + m;
  }

  lemma DecodeOneFourBytes(cp: int, s: seq<Byte>)
    requires 0x10000 <= cp < 0x110000
    requires |s| >= 4 && s[0] == 0xF0 + cp / 262144 && s[1] == 0x80 + (cp / 4096) % 64
    requires s[2] == 0x80 + (cp / 64) % 64 && s[3] == 0x80 + cp % 64
    ensures DecodeOne(s) == Some((cp as char, 4))
  {
    var q, m := cp / 64, cp % 64;
    assert cp == q * 64 + m;
    var q2, m2 := q / 64, q % 64;
    assert q == q2 * 64 + m2;
    var q3, m3 := q2 / 64, q2 % 64;
    assert q2 == q3 * 64 + m3;
    assert cp / 4096 == q2;
    assert cp / 262144 == q3;
    assert cp == q3 * 262144 + m3 * 4096 + m2 * 64 + m;
  }

  /** Decoding reads back exactly the character that was encoded, whatever follows it. */
  lemma DecodeOneOfEncodeChar(c: char, rest: seq<Byte>)
    ensures DecodeOne(EncodeChar(c) + rest) == Some((c, |EncodeChar(c)|))
  {
    var cp := c as int;
    var s := EncodeChar(c) + rest;
    if cp < 0x80 {
    } else if cp < 0x800 {
      DecodeOneTwoBytes(cp, s);
    } else if cp < 0x10000 {
      DecodeOneThreeBytes(cp, s);
    } else {
      DecodeOneFourBytes(cp, s);
    }
  }

  lemma {:induction false} EncodeStringAppend(a: string, b: string)
    ensures EncodeString(a + b) == EncodeString(a) + EncodeString(b)
  {
    if a == [] {
      assert a + b == b;
    } else {
      assert (a + b)[1..] == a[1..] + b;
      EncodeStringAppend(a[1..], b);
    }
  }

  /** Round trip: `String::from_utf8` accepts the bytes of every string and gives it back. */
  lemma {:induction false} DecodeEncode(s: string)
    ensures DecodeUtf8(EncodeString(s)) == Some(s)
  {
    if s != [] {
      var bs := EncodeString(s);
      var head := EncodeChar(s[0]);
      DecodeOneOfEncodeChar(s[0], EncodeString(s[1..]));
      assert bs[|head|..] == EncodeString(s[1..]);
      DecodeEncode(s[1..]);
      assert [s[0]] + s[1..] == s;
    }
  }

  /** A string's byte length is at least its character count, and equal to it for ASCII. */
  lemma {:induction false} ByteLengthOfAscii(s: string)
    ensures ByteLength(s) >= |s|
    ensures IsAscii(s) ==> ByteLength(s) == |s|
  {
    if s != [] {
      ByteLengthOfAscii(s[1..]);
    }
  }
  lemma EncodeTwoByteForm(b0: int, b1: int)
    requires 0xC2 <= b0 <= 0xDF && 0x80 <= b1 < 0xC0
    ensures var cp := (b0 - 0xC0) * 64 + (b1 - 0x80);
      0x80 <= cp < 0x800 && EncodeChar(cp as char) == [b0, b1]
  {
    var cp := (b0 - 0xC0) * 64 + (b1 - 0x80);
    assert cp / 64 == b0 - 0xC0 && cp % 64 == b1 - 0x80;
  }

  lemma EncodeThreeByteForm(b0: int, b1: int, b2: int)
    requires 0xE0 <= b0 <= 0xEF && 0x80 <= b2 < 0xC0
    requires (if b0 == 0xE0 then 0xA0 else 0x80) <= b1 <= (if b0 == 0xED then 0x9F else 0xBF)
    ensures var cp := (b0 - 0xE0) * 4096 + (b1 - 0x80) * 64 + (b2 - 0x80);
      0x800 <= cp < 0x10000 && !(0xD800 <= cp < 0xE000) && EncodeChar(cp as char) == [b0, b1, b2]
  {
    var q := (b0 - 0xE0) * 64 + (b1 - 0x80);
    var cp := q * 64 + (b2 - 0x80);
    assert cp == (b0 - 0xE0) * 4096 + (b1 - 0x80) * 64 + (b2 - 0x80);
    assert cp / 64 == q && cp % 64 == b2 - 0x80;
    assert q / 64 == b0 - 0xE0 && q % 64 == b1 - 0x80;
    assert cp / 4096 == q / 64;
  }

  lemma EncodeFourByteForm(b0: int, b1: int, b2: int, b3: int)
    requires 0xF0 <= b0 <= 0xF4 && 0x80 <= b2 < 0xC0 && 0x80 <= b3 < 0xC0
    requires (if b0 == 0xF0 then 0x90 else 0x80) <= b1 <= (if b0 == 0xF4 then 0x8F else 0xBF)
    ensures var cp := (b0 - 0xF0) * 262144 + (b1 - 0x80) * 4096 + (b2 - 0x80) * 64 + (b3 - 0x80);
      0x10000 <= cp < 0x110000 && EncodeChar(cp as char) == [b0, b1, b2, b3]
  {
    var q2 := (b0 - 0xF0) * 64 + (b1 - 0x80);
    var q := q2 * 64 + (b2 - 0x80);
    var cp := q * 64 + (b3 - 0x80);
    assert cp == (b0 - 0xF0) * 262144 + (b1 - 0x80) * 4096 + (b2 - 0x80) * 64 + (b3 - 0x80);
    assert cp / 64 == q && cp % 64 == b3 - 0x80;
    assert q / 64 == q2 && q % 64 == b2 - 0x80;
    assert q2 / 64 == b0 - 0xF0 && q2 % 64 == b1 - 0x80;
    assert cp / 4096 == q2;
    assert cp / 262144 == b0 - 0xF0;
  }

  /** What `DecodeOne` reads is exactly the encoding of the character it returns. */
  lemma EncodeCharOfDecodeOne(s: seq<Byte>)
    requires |s| > 0 && DecodeOne(s).Some?
    ensures var (c, n) := DecodeOne(s).value; s[..n] == EncodeChar(c)
  {
    var b0: int := s[0];
    var n := DecodeOne(s).value.1;
    if b0 < 0x80 {
      assert s[..1] == [s[0]];
    } else if b0 <= 0xDF {
      EncodeTwoByteForm(b0, s[1]);
      assert s[..2] == [s[0], s[1]];
    } else if b0 <= 0xEF {
      EncodeThreeByteForm(b0, s[1], s[2]);
      assert s[..3] == [s[0], s[1], s[2]];
    } else {
      EncodeFourByteForm(b0, s[1], s[2], s[3]);
      assert s[..4] == [s[0], s[1], s[2], s[3]];
    }
  }

  /**
   * The other direction: whatever `String::from_utf8` accepts is exactly the encoding
   * of the text it returns, so the decoder is one-to-one.
   */
  lemma {:induction false} EncodeDecode(bs: seq<Byte>)
    requires DecodeUtf8(bs).Some?
    ensures EncodeString(DecodeUtf8(bs).value) == bs
  {
    if bs != [] {
      var (c, n) := DecodeOne(bs).value;
      EncodeCharOfDecodeOne(bs);
      EncodeDecode(bs[n..]);
      var s := DecodeUtf8(bs).value;
      assert s[0] == c && s[1..] == DecodeUtf8(bs[n..]).value;
      assert bs == bs[..n] + bs[n..];
    }
  }
}
