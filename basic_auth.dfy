/**
 * `basic_authentication` of the legacy publish route: the `Authorization` header is read
 * as text, must start with exactly `Basic `, the rest is standard base 64, the decoded
 * bytes must be UTF-8, and the text splits at its first `:` into user-id and password,
 * the `user-pass = user-id ":" password` rule of section 2 of RFC 7617.
 */
module BasicAuth {
  import opened Wrappers
  import opened Unicode
  import opened Authentication
  import opened Errors
  import Base64

  /** The context each failing step attaches to the error it returns. */
  datatype AuthFailure =
    | MissingHeader
    | HeaderNotText
    | NotBasicScheme
    | NotBase64
    | NotUtf8
    | MissingUsername
    | MissingPassword
  {
    function Message(): (m: string)
      ensures m != ""
    {
      match this
      case MissingHeader => "The 'Authorization' header was missing"
      case HeaderNotText => "The 'Authorization' header was not a valid UTF8 string"
      case NotBasicScheme => "The authorization scheme was not 'Basic'."
      case NotBase64 => "Failed to base64-decode 'Basic' credentials."
      case NotUtf8 => "The decoded credential string is not valid UTF8"
      case MissingUsername => "A username must be provided in 'Basic' auth."
      case MissingPassword => "A password must be provided in 'Basic' auth."
    }

    /** The `anyhow::Error` returned: the step's message (the library error beneath is not kept). */
    function AsError(): (e: Error)
      ensures e.display == Message()
    {
      Error(Message(), None)
    }
  }

  /** Each failing step has its own context message, so the message names the step. */
  lemma MessageNamesStep(a: AuthFailure, b: AuthFailure)
    ensures a.Message() == b.Message() <==> a == b
  {
  }

  /**
   * Request headers by name, each with its first value as raw bytes. Header names are
   * case-insensitive and stored lower-case, so `get("Authorization")` looks up
   * `authorization`.
   */
  type HeaderMap = map<string, seq<Byte>>

  const AuthorizationHeader: string := "authorization"
  const BasicPrefix: string := "Basic "

  /** The bytes `HeaderValue::to_str` accepts: visible ASCII and the tab. */
  predicate IsHeaderByte(b: Byte)
  {
    b == 9 || 32 <= b < 127
  }

  predicate IsHeaderText(t: string)
  {
    forall i :: 0 <= i < |t| ==> t[i] == '\t' || ' ' <= t[i] <= '~'
  }

  /** `HeaderValue::to_str`: the header as text, or None if a byte is not visible ASCII. */
  function HeaderToStr(v: seq<Byte>): (r: Option<string>)
    ensures r.Some? <==> forall i :: 0 <= i < |v| ==> IsHeaderByte(v[i])
    ensures r.Some? ==> IsHeaderText(r.value) && EncodeString(r.value) == v
  {
    if v == [] then Some([])
    else if !IsHeaderByte(v[0]) then None
    else match HeaderToStr(v[1..])
      case None => None
      case Some(rest) =>
        assert EncodeString([v[0] as char] + rest) == [v[0]] + EncodeString(rest);
        assert [v[0]] + v[1..] == v;
        Some([v[0] as char] + rest)
  }

  /** Header text read back from its bytes is the text itself. */
  lemma {:induction false} HeaderToStrOfText(t: string)
    requires IsHeaderText(t)
    ensures HeaderToStr(EncodeString(t)) == Some(t)
  {
    if t != [] {
      HeaderToStrOfText(t[1..]);
      assert EncodeString(t)[1..] == EncodeString(t[1..]);
      assert [t[0]] + t[1..] == t;
    }
  }

  /** `str::strip_prefix`: the text after `prefix`, if the text starts with it exactly. */
  function StripPrefix(s: string, prefix: string): (r: Option<string>)
    ensures r.Some? <==> prefix <= s
    ensures r.Some? ==> s == prefix + r.value
  {
    if prefix <= s then Some(s[|prefix|..]) else None
  }

  /** The position of the first `c` in `s`. */
  function IndexOf(s: string, c: char): (r: Option<nat>)
    ensures r.None? <==> c !in s
    ensures r.Some? ==> r.value < |s| && s[r.value] == c && c !in s[..r.value]
  {
    if s == [] then None
    else if s[0] == c then Some(0)
    else match IndexOf(s[1..], c)
      case None => None
      case Some(k) =>
        assert s[..k + 1] == [s[0]] + s[1..][..k];
        Some(k + 1)
  }

  /**
   * `s.splitn(2, c)` collected: the text before the first `c` and, when there is one,
   * everything after it (later `c`s included).
   */
  function SplitOnce(s: string, c: char): (pieces: seq<string>)
    ensures 1 <= |pieces| <= 2 && c !in pieces[0]
    ensures |pieces| == 2 <==> c in s
    ensures |pieces| == 2 ==> s == pieces[0] + [c] + pieces[1]
    ensures |pieces| == 1 ==> pieces[0] == s
  {
    match IndexOf(s, c)
    case None => [s]
    case Some(k) =>
      assert s == s[..k] + [c] + s[k + 1..];
      [s[..k], s[k + 1..]]
  }

  /** `basic_authentication(headers)`. */
  function BasicAuthentication(headers: HeaderMap): (r: Result<Credentials, AuthFailure>)
    ensures AuthorizationHeader !in headers ==> r == Failure(MissingHeader)
    ensures r != Failure(MissingUsername)
    ensures r.Success? ==> ':' !in r.value.username
  {
    if AuthorizationHeader !in headers then Failure(MissingHeader)
    else match HeaderToStr(headers[AuthorizationHeader])
      case None => Failure(HeaderNotText)
      case Some(value) =>
        match StripPrefix(value, BasicPrefix)
        case None => Failure(NotBasicScheme)
        case Some(segment) =>
          match Base64.Decode(segment)
          case None => Failure(NotBase64)
          case Some(decoded) =>
            match DecodeUtf8(decoded)
            case None => Failure(NotUtf8)
            case Some(text) =>
              var pieces := SplitOnce(text, ':');
              if |pieces| < 1 then Failure(MissingUsername)
              else if |pieces| < 2 then Failure(MissingPassword)
              else Success(Credentials(pieces[0], pieces[1]))
  }

  /** The header a client sends for user-id `u` and password `p`. */
  function AuthorizationValue(u: string, p: string): seq<Byte>
  {
    EncodeString(BasicPrefix + Base64.Encode(EncodeString(u + ":" + p)))
  }
  /** Splitting `u:p` at its first colon gives back `u` and `p` when `u` has no colon. */
  lemma SplitOnceAtJoin(u: string, p: string)
    requires ':' !in u
    ensures SplitOnce(u + ":" + p, ':') == [u, p]
  {
    var s := u + ":" + p;
    assert s[|u|] == ':';
    var pieces := SplitOnce(s, ':');
    var k := |pieces[0]|;
    assert pieces[0] == s[..k] == u;
    assert pieces[1] == s[k + 1..] == p;
  }

  /** The value sent for `u:p` is header text. */
  lemma AuthorizationValueIsText(u: string, p: string)
    ensures IsHeaderText(BasicPrefix + Base64.Encode(EncodeString(u + ":" + p)))
  {
    var enc := Base64.Encode(EncodeString(u + ":" + p));
    Base64.EncodeUsesAlphabet(EncodeString(u + ":" + p));
    var t := BasicPrefix + enc;
    forall i | 0 <= i < |t| ensures t[i] == '\t' || ' ' <= t[i] <= '~' {
      if i >= |BasicPrefix| {
        assert t[i] == enc[i - |BasicPrefix|];
      }
    }
  }

  /**
   * Round trip: for a user-id without `:` and any password, the header a client builds
   * parses back to exactly that user-id and password.
   */
  lemma RoundTrip(u: string, p: string)
    requires ':' !in u
    ensures BasicAuthentication(map[AuthorizationHeader := AuthorizationValue(u, p)]) == Success(Credentials(u, p))
  {
    var text := u + ":" + p;
    var segment := Base64.Encode(EncodeString(text));
    AuthorizationValueIsText(u, p);
    HeaderToStrOfText(BasicPrefix + segment);
    assert StripPrefix(BasicPrefix + segment, BasicPrefix) == Some(segment);
    Base64.DecodeEncode(EncodeString(text));
    Unicode.DecodeEncode(text);
    SplitOnceAtJoin(u, p);
  }

  /**
   * The parser accepts exactly the headers built by `AuthorizationValue`: credentials
   * come out of it if and only if the header is the encoding of `u:p` and `u` has no colon.
   */
  lemma SuccessIff(headers: HeaderMap, u: string, p: string)
    ensures BasicAuthentication(headers) == Success(Credentials(u, p)) <==>
      AuthorizationHeader in headers && headers[AuthorizationHeader] == AuthorizationValue(u, p) && ':' !in u
  {
    if BasicAuthentication(headers) == Success(Credentials(u, p)) {
      var v := headers[AuthorizationHeader];
      var value := HeaderToStr(v).value;
      var segment := StripPrefix(value, BasicPrefix).value;
      var decoded := Base64.Decode(segment).value;
      var text := DecodeUtf8(decoded).value;
      Base64.EncodeDecode(segment);
      Unicode.EncodeDecode(decoded);
      assert text == u + ":" + p;
    }
    if AuthorizationHeader in headers && headers[AuthorizationHeader] == AuthorizationValue(u, p) && ':' !in u {
      RoundTrip(u, p);
      assert headers[AuthorizationHeader] == map[AuthorizationHeader := AuthorizationValue(u, p)][AuthorizationHeader];
    }
  }

  /** Decoded text with no colon at all fails with the missing-password error. */
  lemma NoColonNoPassword(text: string)
    requires ':' !in text
    ensures BasicAuthentication(map[AuthorizationHeader := EncodeString(BasicPrefix + Base64.Encode(EncodeString(text)))])
      == Failure(MissingPassword)
  {
    var segment := Base64.Encode(EncodeString(text));
    Base64.EncodeUsesAlphabet(EncodeString(text));
    var t := BasicPrefix + segment;
    forall i | 0 <= i < |t| ensures t[i] == '\t' || ' ' <= t[i] <= '~' {
      if i >= |BasicPrefix| {
        assert t[i] == segment[i - |BasicPrefix|];
      }
    }
    HeaderToStrOfText(t);
    assert StripPrefix(t, BasicPrefix) == Some(segment);
    Base64.DecodeEncode(EncodeString(text));
    Unicode.DecodeEncode(text);
  }
}
