/**
 * Percent-encoding as `urlencoding::Encoded` prints it: the UTF-8 bytes of the text,
 * ASCII letters, digits and `-._~` kept, every other byte written `%XX` with upper-case
 * hex digits.
 */
module UrlEncoding {
  import opened Wrappers
  import opened Unicode

  predicate IsUnreserved(b: Byte)
  {
    ('A' as int <= b <= 'Z' as int) || ('a' as int <= b <= 'z' as int) || ('0' as int <= b <= '9' as int)
    || b == '-' as int || b == '.' as int || b == '_' as int || b == '~' as int
  }

  function UpperHexDigit(d: int): char
    requires 0 <= d < 16
  {
    if d < 10 then ('0' as int + d) as char else ('A' as int + (d - 10)) as char
  }

  function UpperHexValue(c: char): Option<int>
  {
    if '0' <= c <= '9' then Some(c as int - '0' as int)
    else if 'A' <= c <= 'F' then Some(c as int - 'A' as int + 10)
    else None
  }

  function EncodeByte(b: Byte): (s: string)
    ensures |s| == 1 || |s| == 3
  {
    if IsUnreserved(b) then [b as char] else ['%', UpperHexDigit(b / 16), UpperHexDigit(b % 16)]
  }

  function EncodeBytes(bs: seq<Byte>): string
  {
    if bs == [] then [] else EncodeByte(bs[0]) + EncodeBytes(bs[1..])
  }

  /** `urlencoding::Encoded::new(text).to_string()`. */
  function Encode(text: string): string
  {
    EncodeBytes(EncodeString(text))
  }

  /** Percent-decoding: `%XX` gives that byte, an unreserved character gives itself. */
  function DecodeBytes(s: string): Option<seq<Byte>>
    decreases |s|
  {
    if s == [] then Some([])
    else if s[0] == '%' then
      if |s| < 3 then None
      else match (UpperHexValue(s[1]), UpperHexValue(s[2]), DecodeBytes(s[3..]))
        case (Some(hi), Some(lo), Some(rest)) => Some([hi * 16 + lo] + rest)
        case _ => None
    else if (s[0] as int) < 0x100 && IsUnreserved(s[0] as int) then
      match DecodeBytes(s[1..])
      case Some(rest) => Some([s[0] as int] + rest)
      case None => None
    else None
  }

  lemma DecodeEncodeByte(b: Byte, rest: string, tail: seq<Byte>)
    requires DecodeBytes(rest) == Some(tail)
    ensures DecodeBytes(EncodeByte(b) + rest) == Some([b] + tail)
  {
    var s := EncodeByte(b) + rest;
    if !IsUnreserved(b) {
      assert s[3..] == rest;
      assert UpperHexValue(UpperHexDigit(b / 16)) == Some(b / 16);
      assert UpperHexValue(UpperHexDigit(b % 16)) == Some(b % 16);
    } else {
      assert s[1..] == rest;
    }
  }

  /** Round trip: percent-decoding an encoding gives back exactly the bytes encoded. */
  lemma {:induction false} DecodeEncode(bs: seq<Byte>)
    ensures DecodeBytes(EncodeBytes(bs)) == Some(bs)
  {
    if bs != [] {
      DecodeEncode(bs[1..]);
      DecodeEncodeByte(bs[0], EncodeBytes(bs[1..]), bs[1..]);
      assert [bs[0]] + bs[1..] == bs;
    }
  }

  /** Text made only of unreserved ASCII characters is printed unchanged. */
  lemma {:induction false} EncodeUnreservedText(text: string)
    requires forall i :: 0 <= i < |text| ==> (text[i] as int) < 0x80 && IsUnreserved(text[i] as int)
    ensures Encode(text) == text
  {
    if text != [] {
      EncodeUnreservedText(text[1..]);
      assert EncodeString(text)[1..] == EncodeString(text[1..]);
      assert [text[0]] + text[1..] == text;
    }
  }
}
