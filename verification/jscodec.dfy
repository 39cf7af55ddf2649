/** The three browser built-ins that `toBase64Utf8` (src/App.tsx) chains together:
    `encodeURIComponent` percent-escapes the UTF-8 bytes of the text, `unescape`
    turns each `%XX` back into one code unit, and `btoa` base64-encodes a string whose
    code units are all below 256. JavaScript strings are sequences of 16-bit code units. */
module JsCodec {
  import opened Bytes
  import opened Options
  import Utf8
  import Base64

  type CodeUnit = x: int | 0 <= x < 0x1_0000
  type JsString = seq<CodeUnit>

  const Percent: CodeUnit := 37    // '%'
  const LetterU: CodeUnit := 117   // 'u'

  /** The characters `encodeURIComponent` leaves alone. */
  predicate IsUnreserved(c: char)
  {
    ('A' <= c <= 'Z') || ('a' <= c <= 'z') || ('0' <= c <= '9')
    || c == '-' || c == '_' || c == '.' || c == '!' || c == '~' || c == '*' || c == '\'' || c == '(' || c == ')'
  }

  function HexDigitUpper(d: nat): (u: CodeUnit)
    requires d < 16
  {
    if d < 10 then 48 + d else 55 + d
  }

  predicate IsHexUnit(u: CodeUnit)
  {
    (48 <= u <= 57) || (65 <= u <= 70) || (97 <= u <= 102)
  }

  function HexValue(u: CodeUnit): (d: nat)
    requires IsHexUnit(u)
    ensures d < 16
  {
    if u <= 57 then u - 48 else if u <= 70 then u - 55 else u - 87
  }

  /** `%XX` with upper-case hex digits. */
  function PercentByte(b: byte): JsString
  {
    [Percent, HexDigitUpper(b / 16), HexDigitUpper(b % 16)]
  }

  function PercentBytes(bs: seq<byte>): JsString
  {
    if |bs| == 0 then [] else PercentByte(bs[0]) + PercentBytes(bs[1..])
  }

  function EncodeUriChar(c: char): JsString
  {
    if IsUnreserved(c) then [c as int] else PercentBytes(Utf8.EncodeChar(c))
  }

  /** `encodeURIComponent` on a well-formed string. */
  function EncodeUriComponent(s: string): JsString
  {
    if |s| == 0 then [] else EncodeUriChar(s[0]) + EncodeUriComponent(s[1..])
  }

  /** `unescape` (section B.2.1.2 of ECMAScript): `%uXXXX` and `%XX` become one code
      unit; any other `%` and every other unit are copied. */
  function Unescape(t: JsString): JsString
    decreases |t|
  {
    if |t| == 0 then []
    else if t[0] == Percent && |t| >= 6 && t[1] == LetterU
            && IsHexUnit(t[2]) && IsHexUnit(t[3]) && IsHexUnit(t[4]) && IsHexUnit(t[5]) then
      [HexValue(t[2]) * 4096 + HexValue(t[3]) * 256 + HexValue(t[4]) * 16 + HexValue(t[5])] + Unescape(t[6..])
    else if t[0] == Percent && |t| >= 3 && IsHexUnit(t[1]) && IsHexUnit(t[2]) then
      [HexValue(t[1]) * 16 + HexValue(t[2])] + Unescape(t[3..])
    else [t[0]] + Unescape(t[1..])
  }

  /** Bytes viewed as a string of code units below 256. */
  function Units(bs: seq<byte>): (r: JsString)
    ensures |r| == |bs|
    ensures forall i :: 0 <= i < |bs| ==> r[i] == bs[i] as CodeUnit
  {
    if |bs| == 0 then [] else [bs[0] as CodeUnit] + Units(bs[1..])
  }

  /** The bytes of a string whose code units are all below 256, if it is one. */
  function Latin1Bytes(t: JsString): (r: Option<seq<byte>>)
    ensures r.Some? <==> forall i :: 0 <= i < |t| ==> t[i] < 256
    ensures r.Some? ==> Units(r.value) == t
  {
    if |t| == 0 then Some([])
    else if t[0] >= 256 then None
    else
      match Latin1Bytes(t[1..])
      case None => None
      case Some(rest) => Some([t[0] as byte] + rest)
  }

  /** `btoa`: throws (here `None`) when a code unit is 256 or more. */
  function Btoa(t: JsString): Option<string>
  {
    match Latin1Bytes(t)
    case None => None
    case Some(bs) => Some(Base64.Encode(bs))
  }

  lemma UnitsAppend(a: seq<byte>, b: seq<byte>)
    ensures Units(a + b) == Units(a) + Units(b)
  {
    if |a| > 0 {
      assert (a + b)[1..] == a[1..] + b;
      UnitsAppend(a[1..], b);
    } else {
      assert a + b == b;
    }
  }

  lemma Latin1Units(bs: seq<byte>)
    ensures Latin1Bytes(Units(bs)) == Some(bs)
  {
    var r := Latin1Bytes(Units(bs));
    assert r.Some?;
    UnitsInjective(r.value, bs);
  }

  lemma {:induction false} UnitsInjective(a: seq<byte>, b: seq<byte>)
    requires Units(a) == Units(b)
    ensures a == b
  {
    if |a| > 0 {
      assert Units(a)[0] == a[0] && Units(b)[0] == b[0];
      assert Units(a)[1..] == Units(a[1..]) && Units(b)[1..] == Units(b[1..]);
      UnitsInjective(a[1..], b[1..]);
      assert a == [a[0]] + a[1..] && b == [b[0]] + b[1..];
    }
  }

  lemma UnescapePercentByte(b: byte, rest: JsString)
    ensures Unescape(PercentByte(b) + rest) == [b as CodeUnit] + Unescape(rest)
  {
    var t := PercentByte(b) + rest;
    assert t[1] == HexDigitUpper(b / 16) && t[2] == HexDigitUpper(b % 16);
    assert t[3..] == rest;
  }

  lemma {:induction false} UnescapePercentBytes(bs: seq<byte>, rest: JsString)
    ensures Unescape(PercentBytes(bs) + rest) == Units(bs) + Unescape(rest)
  {
    if |bs| > 0 {
      assert PercentBytes(bs) + rest == PercentByte(bs[0]) + (PercentBytes(bs[1..]) + rest);
      UnescapePercentByte(bs[0], PercentBytes(bs[1..]) + rest);
      UnescapePercentBytes(bs[1..], rest);
      assert Units(bs) == [bs[0] as CodeUnit] + Units(bs[1..]);
    } else {
      assert PercentBytes(bs) + rest == rest;
    }
  }

  lemma UnescapeUriChar(c: char, rest: JsString)
    ensures Unescape(EncodeUriChar(c) + rest) == Units(Utf8.EncodeChar(c)) + Unescape(rest)
  {
    if IsUnreserved(c) {
      var t := EncodeUriChar(c) + rest;
      assert t[0] == c as int && t[0] != Percent;
      assert t[1..] == rest;
    } else {
      UnescapePercentBytes(Utf8.EncodeChar(c), rest);
    }
  }

  /** `unescape(encodeURIComponent(s))` is the UTF-8 of `s`, one byte per code unit. */
  lemma {:induction false} UnescapeEncodeUri(s: string)
    ensures Unescape(EncodeUriComponent(s)) == Units(Utf8.Encode(s))
  {
    if |s| > 0 {
      UnescapeUriChar(s[0], EncodeUriComponent(s[1..]));
      UnescapeEncodeUri(s[1..]);
      UnitsAppend(Utf8.EncodeChar(s[0]), Utf8.Encode(s[1..]));
    }
  }

  /** `toBase64Utf8` (src/App.tsx): `btoa(unescape(encodeURIComponent(input)))`. For
      every well-formed input the chain never throws, and its result is the base64
      of the UTF-8 bytes of the input. */
  function ToBase64Utf8(input: string): (r: string)
    ensures r == Base64.Encode(Utf8.Encode(input))
  {
    UnescapeEncodeUri(input);
    Latin1Units(Utf8.Encode(input));
    Btoa(Unescape(EncodeUriComponent(input))).value
  }

  /** Reading the payload back: base64-decode, then UTF-8-decode. */
  function FromBase64Utf8(t: string): Option<string>
  {
    match Base64.Decode(t)
    case None => None
    case Some(bs) => Utf8.Decode(bs)
  }

  /** The payload is lossless: decoding it gives back exactly the original text,
      whatever characters it holds. */
  lemma PayloadRoundTrip(input: string)
    ensures FromBase64Utf8(ToBase64Utf8(input)) == Some(input)
  {
    Base64.RoundTrip(Utf8.Encode(input));
    Utf8.RoundTrip(input);
  }

  /** The payload's length is 4 * ceil(n / 3) for n UTF-8 bytes, and it uses only
      the base64 alphabet and `=`: nothing that form encoding must escape structurally. */
  lemma PayloadShape(input: string)
    ensures var n := |Utf8.Encode(input)|;
            var r := ToBase64Utf8(input);
            |r| == 4 * ((n + 2) / 3)
            && forall i :: 0 <= i < |r| ==> Base64.IsAlphabetChar(r[i]) || r[i] == '='
  {
    PayloadLength(input);
    PayloadAlphabet(input);
  }

  lemma PayloadLength(input: string)
    ensures |ToBase64Utf8(input)| == 4 * ((|Utf8.Encode(input)| + 2) / 3)
  {
  }

  lemma PayloadAlphabet(input: string)
    ensures forall i :: 0 <= i < |ToBase64Utf8(input)| ==>
              Base64.IsAlphabetChar(ToBase64Utf8(input)[i]) || ToBase64Utf8(input)[i] == '='
  {
    Base64.EncodeAlphabet(Utf8.Encode(input));
  }

  /** The empty text encodes to the empty payload. */
  lemma EmptyPayload()
    ensures ToBase64Utf8("") == ""
  {
  }
}
