/**
 * Uuids as 128-bit numbers and their `Display` form, the hyphenated lower-case hex
 * text `xxxxxxxx-xxxx-xxxx-xxxx-xxxxxxxxxxxx`.
 */
module Uuids {
  import opened Wrappers

  /** 16^32 = 2^128, one past the largest Uuid. */
  type Uuid = n: nat | n < Pow16(32)

  function Pow16(k: nat): (p: nat)
    ensures p >= 1
  {
    if k == 0 then 1 else 16 * Pow16(k - 1)
  }

  function HexDigit(d: nat): char
    requires d < 16
  {
    if d < 10 then ('0' as int + d) as char else ('a' as int + (d - 10)) as char
  }

  function HexValue(c: char): Option<nat>
  {
    if '0' <= c <= '9' then Some(c as int - '0' as int)
    else if 'a' <= c <= 'f' then Some(c as int - 'a' as int + 10)
    else None
  }

  /** The low `width` hex digits of `n`, most significant first. */
  function Hex(n: nat, width: nat): (s: string)
    ensures |s| == width
  {
    if width == 0 then [] else Hex(n / 16, width - 1) + [HexDigit(n % 16)]
  }

  function ParseHex(s: string): Option<nat>
  {
    if s == [] then Some(0)
    else match (ParseHex(s[..|s| - 1]), HexValue(s[|s| - 1]))
      case (Some(high), Some(low)) => Some(high * 16 + low)
      case _ => None
  }

  lemma DivBound(n: nat, k: nat)
    requires n < Pow16(k + 1)
    ensures n / 16 < Pow16(k)
  {
  }

  lemma {:induction false} ParseHexOfHex(n: nat, width: nat)
    requires n < Pow16(width)
    ensures ParseHex(Hex(n, width)) == Some(n)
  {
    if width > 0 {
      DivBound(n, width - 1);
      ParseHexOfHex(n / 16, width - 1);
      var s := Hex(n, width);
      assert s[..|s| - 1] == Hex(n / 16, width - 1);
    }
  }

  /** The text `Uuid` prints: 32 hex digits grouped 8-4-4-4-12. */
  function Display(u: Uuid): (s: string)
    ensures |s| == 36
  {
    var h := Hex(u, 32);
    h[..8] + "-" + h[8..12] + "-" + h[12..16] + "-" + h[16..20] + "-" + h[20..]
  }

  /** Reads a hyphenated Uuid back: the digits without the hyphens, as a number. */
  function ParseDisplay(s: string): Option<nat>
  {
    if |s| == 36 && s[8] == '-' && s[13] == '-' && s[18] == '-' && s[23] == '-' then
      ParseHex(s[..8] + s[9..13] + s[14..18] + s[19..23] + s[24..])
    else None
  }

  /** The printed form identifies the Uuid: it reads back as exactly that number. */
  lemma ParseDisplayOfDisplay(u: Uuid)
    ensures ParseDisplay(Display(u)) == Some(u as nat)
  {
    var h := Hex(u, 32);
    var s := Display(u);
    assert s[..8] == h[..8] && s[9..13] == h[8..12] && s[14..18] == h[12..16];
    assert s[19..23] == h[16..20] && s[24..] == h[20..];
    assert h[..8] + h[8..12] + h[12..16] + h[16..20] + h[20..] == h;
    ParseHexOfHex(u, 32);
  }
}
