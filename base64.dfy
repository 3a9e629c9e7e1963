/**
 * Base 64 with the standard alphabet and canonical padding, section 4 of RFC 4648,
 * as the `base64` crate's `general_purpose::STANDARD` engine applies it: the input
 * length must be a multiple of four, `=` may only pad the last group, and the bits a
 * padded group leaves over must be zero.
 */
module Base64 {
  import opened Wrappers
  import opened Unicode

  type Sextet = i: int | 0 <= i < 64

  /** The character that stands for a six-bit value. */
  function Symbol(i: Sextet): char
  {
    if i < 26 then ('A' as int + i) as char
    else if i < 52 then ('a' as int + (i - 26)) as char
    else if i < 62 then ('0' as int + (i - 52)) as char
    else if i == 62 then '+'
    else '/'
  }

  /** The six-bit value a character stands for, or None outside the alphabet. */
  function SextetOf(c: char): Option<Sextet>
  {
    if 'A' <= c <= 'Z' then Some(c as int - 'A' as int)
    else if 'a' <= c <= 'z' then Some(c as int - 'a' as int + 26)
    else if '0' <= c <= '9' then Some(c as int - '0' as int + 52)
    else if c == '+' then Some(62)
    else if c == '/' then Some(63)
    else None
  }

  lemma SextetOfSymbol(i: Sextet)
    ensures SextetOf(Symbol(i)) == Some(i)
  {
  }

  lemma SymbolOfSextet(c: char)
    requires SextetOf(c).Some?
    ensures Symbol(SextetOf(c).value) == c
  {
  }

  /** Characters an encoding may contain: the alphabet and the pad. */
  predicate IsEncodingChar(c: char)
  {
    SextetOf(c).Some? || c == '='
  }

  function EncodeGroup(x: Byte, y: Byte, z: Byte): (s: string)
    ensures |s| == 4
  {
    [Symbol(x / 4), Symbol((x % 4) * 16 + y / 16), Symbol((y % 16) * 4 + z / 64), Symbol(z % 64)]
  }

  function Encode(bs: seq<Byte>): (s: string)
    ensures |s| == 4 * ((|bs| + 2) / 3)
  {
    if |bs| == 0 then []
    else if |bs| == 1 then
      [Symbol(bs[0] / 4), Symbol((bs[0] % 4) * 16), '=', '=']
    else if |bs| == 2 then
      [Symbol(bs[0] / 4), Symbol((bs[0] % 4) * 16 + bs[1] / 16), Symbol((bs[1] % 16) * 4), '=']
    else
      EncodeGroup(bs[0], bs[1], bs[2]) + Encode(bs[3..])
  }

  /** The three bytes that four sextets a, b, c, d carry, 24 bits in all. */
  function FirstByte(a: Sextet, b: Sextet): Byte { (a as int) * 4 + (b as int) / 16 }
  function SecondByte(b: Sextet, c: Sextet): Byte { ((b as int) % 16) * 16 + (c as int) / 4 }
  function ThirdByte(c: Sextet, d: Sextet): Byte { ((c as int) % 4) * 64 + (d as int) }

  /** A group of four alphabet characters, anywhere in the input: three bytes. */
  function DecodeGroup(q: string): Option<seq<Byte>>
    requires |q| == 4
  {
    match (SextetOf(q[0]), SextetOf(q[1]), SextetOf(q[2]), SextetOf(q[3]))
    case (Some(a), Some(b), Some(c), Some(d)) =>
      Some([FirstByte(a, b), SecondByte(b, c), ThirdByte(c, d)])
    case _ => None
  }

  /** The last group, which may end in one or two pad characters. */
  function DecodeLastGroup(q: string): Option<seq<Byte>>
    requires |q| == 4
  {
    if q[2] == '=' && q[3] == '=' then
      match (SextetOf(q[0]), SextetOf(q[1]))
      case (Some(a), Some(b)) => if b % 16 == 0 then Some([FirstByte(a, b)]) else None
      case _ => None
    else if q[3] == '=' then
      match (SextetOf(q[0]), SextetOf(q[1]), SextetOf(q[2]))
      case (Some(a), Some(b), Some(c)) =>
        if c % 4 == 0 then Some([FirstByte(a, b), SecondByte(b, c)]) else None
      case _ => None
    else DecodeGroup(q)
  }

  /** `STANDARD.decode`: the bytes, or None for any malformed input. */
  function Decode(s: string): Option<seq<Byte>>
    decreases |s|
  {
    if |s| == 0 then Some([])
    else if |s| < 4 then None
    else if |s| == 4 then DecodeLastGroup(s)
    else
      match DecodeGroup(s[..4])
      case None => None
      case Some(g) =>
        match Decode(s[4..])
        case None => None
        case Some(rest) => Some(g + rest)
  }

  /** Reassembling the sextets of one group gives back each byte. */
  lemma SextetsOfBytes(x: Byte, y: Byte, z: Byte)
    ensures FirstByte(x / 4, (x % 4) * 16 + y / 16) == x
    ensures SecondByte((x % 4) * 16 + y / 16, (y % 16) * 4 + z / 64) == y
    ensures ThirdByte((y % 16) * 4 + z / 64, z % 64) == z
  {
    var x0, x1: int := x / 4, x % 4;
    var y0, y1: int := y / 16, y % 16;
    var z0, z1: int := z / 64, z % 64;
    assert x == x0 * 4 + x1 && y == y0 * 16 + y1 && z == z0 * 64 + z1;
    assert (x1 * 16 + y0) / 16 == x1 && (x1 * 16 + y0) % 16 == y0;
    assert (y1 * 4 + z0) / 4 == y1 && (y1 * 4 + z0) % 4 == z0;
  }

  lemma DecodeEncodeGroup(x: Byte, y: Byte, z: Byte)
    ensures DecodeGroup(EncodeGroup(x, y, z)) == Some([x, y, z])
  {
    SextetOfSymbol(x / 4);
    SextetOfSymbol((x % 4) * 16 + y / 16);
    SextetOfSymbol((y % 16) * 4 + z / 64);
    SextetOfSymbol(z % 64);
    SextetsOfBytes(x, y, z);
  }

  lemma DecodeEncodeOne(x: Byte)
    ensures Decode(Encode([x])) == Some([x])
  {
    var a, b: Sextet := x / 4, (x % 4) * 16;
    SextetOfSymbol(a);
    SextetOfSymbol(b);
    SextetsOfBytes(x, 0, 0);
    var q := Encode([x]);
    assert q == [Symbol(a), Symbol(b), '=', '='];
    assert b == (x % 4) * 16 + 0 / 16;
    assert DecodeLastGroup(q) == Some([FirstByte(a, b)]);
  }

  lemma DecodeEncodeTwo(x: Byte, y: Byte)
    ensures Decode(Encode([x, y])) == Some([x, y])
  {
    var a, b, c: Sextet := x / 4, (x % 4) * 16 + y / 16, (y % 16) * 4;
    SextetOfSymbol(a);
    SextetOfSymbol(b);
    SextetOfSymbol(c);
    SextetsOfBytes(x, y, 0);
    var q := Encode([x, y]);
    assert q == [Symbol(a), Symbol(b), Symbol(c), '='];
    assert q[2] != '=';
    assert c == (y % 16) * 4 + 0 / 64;
    assert DecodeLastGroup(q) == Some([FirstByte(a, b), SecondByte(b, c)]);
  }

  /** Round trip: decoding an encoding gives back exactly the bytes encoded. */
  lemma {:induction false} DecodeEncode(bs: seq<Byte>)
    ensures Decode(Encode(bs)) == Some(bs)
  {
    if |bs| == 1 {
      DecodeEncodeOne(bs[0]);
      assert [bs[0]] == bs;
    } else if |bs| == 2 {
      DecodeEncodeTwo(bs[0], bs[1]);
      assert [bs[0], bs[1]] == bs;
    } else if |bs| == 3 {
      DecodeEncodeGroup(bs[0], bs[1], bs[2]);
      assert Encode(bs) == EncodeGroup(bs[0], bs[1], bs[2]) + [];
      assert [bs[0], bs[1], bs[2]] == bs;
    } else if |bs| > 3 {
      DecodeEncode(bs[3..]);
      DecodeEncodeStep(bs);
    }
  }

  lemma DecodeEncodeStep(bs: seq<Byte>)
    requires |bs| > 3 && Decode(Encode(bs[3..])) == Some(bs[3..])
    ensures Decode(Encode(bs)) == Some(bs)
  {
    var s := Encode(bs);
    var head := EncodeGroup(bs[0], bs[1], bs[2]);
    assert s == head + Encode(bs[3..]);
    assert s[..4] == head && s[4..] == Encode(bs[3..]);
    DecodeEncodeGroup(bs[0], bs[1], bs[2]);
    SplitAfterThree(bs);
  }

  lemma SplitAfterThree(bs: seq<Byte>)
    requires |bs| >= 3
    ensures [bs[0], bs[1], bs[2]] + bs[3..] == bs
  {
    assert bs[..3] == [bs[0], bs[1], bs[2]];
    assert bs[..3] + bs[3..] == bs;
  }

  lemma EncodeDecodeGroup(q: string)
    requires |q| == 4 && DecodeGroup(q).Some?
    ensures var g := DecodeGroup(q).value; |g| == 3 && EncodeGroup(g[0], g[1], g[2]) == q
  {
    var a, b, c, d := SextetOf(q[0]).value, SextetOf(q[1]).value, SextetOf(q[2]).value, SextetOf(q[3]).value;
    SymbolOfSextet(q[0]);
    SymbolOfSextet(q[1]);
    SymbolOfSextet(q[2]);
    SymbolOfSextet(q[3]);
    var x, y, z := FirstByte(a, b), SecondByte(b, c), ThirdByte(c, d);
    assert x / 4 == a && (x % 4) * 16 + y / 16 == b && (y % 16) * 4 + z / 64 == c && z % 64 == d;
  }

  /**
   * The other direction: the engine accepts only canonical encodings, so whatever it
   * decodes is exactly the encoding of its result.
   */
  lemma {:induction false} EncodeDecode(s: string)
    requires Decode(s).Some?
    ensures Encode(Decode(s).value) == s
  {
    if |s| == 4 {
      var q := s;
      if q[2] == '=' && q[3] == '=' {
        var a, b := SextetOf(q[0]).value, SextetOf(q[1]).value;
        SymbolOfSextet(q[0]);
        SymbolOfSextet(q[1]);
        var x := FirstByte(a, b);
        assert x / 4 == a && (x % 4) * 16 == b;
      } else if q[3] == '=' {
        var a, b, c := SextetOf(q[0]).value, SextetOf(q[1]).value, SextetOf(q[2]).value;
        SymbolOfSextet(q[0]);
        SymbolOfSextet(q[1]);
        SymbolOfSextet(q[2]);
        var x, y := FirstByte(a, b), SecondByte(b, c);
        assert x / 4 == a && (x % 4) * 16 + y / 16 == b && (y % 16) * 4 == c;
      } else {
        EncodeDecodeGroup(q);
        var g := DecodeGroup(q).value;
        assert Encode(g) == EncodeGroup(g[0], g[1], g[2]) + Encode(g[3..]);
      }
    } else if |s| > 4 {
      EncodeDecodeGroup(s[..4]);
      var g := DecodeGroup(s[..4]).value;
      var rest := Decode(s[4..]).value;
      EncodeDecode(s[4..]);
      var bs := g + rest;
      assert bs[3..] == rest;
      assert Encode(bs) == EncodeGroup(g[0], g[1], g[2]) + Encode(rest);
      assert s == s[..4] + s[4..];
    }
  }
  /** Every character of an encoding is in the alphabet or is the pad. */
  lemma {:induction false} EncodeUsesAlphabet(bs: seq<Byte>)
    ensures forall i :: 0 <= i < |Encode(bs)| ==> IsEncodingChar(Encode(bs)[i])
  {
    if |bs| >= 3 {
      EncodeUsesAlphabet(bs[3..]);
      var head := EncodeGroup(bs[0], bs[1], bs[2]);
      assert Encode(bs) == head + Encode(bs[3..]);
      forall i | 0 <= i < |Encode(bs)| ensures IsEncodingChar(Encode(bs)[i]) {
        if i < 4 {
          assert Encode(bs)[i] == head[i];
          SextetOfSymbol(if i == 0 then bs[0] / 4
                         else if i == 1 then (bs[0] % 4) * 16 + bs[1] / 16
                         else if i == 2 then (bs[1] % 16) * 4 + bs[2] / 64
                         else bs[2] % 64);
        } else {
          assert Encode(bs)[i] == Encode(bs[3..])[i - 4];
        }
      }
    } else if |bs| == 2 {
      SextetOfSymbol(bs[0] / 4);
      SextetOfSymbol((bs[0] % 4) * 16 + bs[1] / 16);
      SextetOfSymbol((bs[1] % 16) * 4);
    } else if |bs| == 1 {
      SextetOfSymbol(bs[0] / 4);
      SextetOfSymbol((bs[0] % 4) * 16);
    }
  }
}
