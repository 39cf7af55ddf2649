/** Base64 with the standard alphabet and `=` padding (section 4 of RFC 4648), the
    encoding `btoa` produces. The encoder is split in two layers: bytes to 6-bit
    symbols (with padding), then symbols to characters; the decoder undoes each. */
module Base64 {
  import opened Bytes
  import opened Options

  type sextet = x: int | 0 <= x < 64

  /** One output position: a 6-bit value or the pad character. */
  datatype Symbol = Digit(v: sextet) | Pad

  /** A member of the 64-character alphabet (the pad character `=` is not one). */
  predicate IsAlphabetChar(c: char)
  {
    ('A' <= c <= 'Z') || ('a' <= c <= 'z') || ('0' <= c <= '9') || c == '+' || c == '/'
  }

  /** The alphabet of section 4 of RFC 4648: value 0..63 to character. */
  function CharOf(i: sextet): (c: char)
    ensures IsAlphabetChar(c)
  {
    if i < 26 then ('A' as int + i) as char
    else if i < 52 then ('a' as int + (i - 26)) as char
    else if i < 62 then ('0' as int + (i - 52)) as char
    else if i == 62 then '+'
    else '/'
  }

  function IndexOf(c: char): sextet
    requires IsAlphabetChar(c)
  {
    if 'A' <= c <= 'Z' then c as int - 'A' as int
    else if 'a' <= c <= 'z' then c as int - 'a' as int + 26
    else if '0' <= c <= '9' then c as int - '0' as int + 52
    else if c == '+' then 62
    else 63
  }

  /** `IndexOf` inverts `CharOf`, in both directions. */
  lemma IndexOfCharOf(i: sextet)
    ensures IndexOf(CharOf(i)) == i
  {
  }

  lemma CharOfIndexOf(c: char)
    requires IsAlphabetChar(c)
    ensures CharOf(IndexOf(c)) == c
  {
  }

  // ---- bytes <-> symbols ----

  function Group(b0: byte, b1: byte, b2: byte): seq<Symbol>
  {
    [Digit(b0 / 4), Digit((b0 % 4) * 16 + b1 / 16), Digit((b1 % 16) * 4 + b2 / 64), Digit(b2 % 64)]
  }

  /** Three bytes become four digits; a final one or two bytes become two or three
      digits followed by two or one pad symbols. */
  function ToSymbols(b: seq<byte>): (r: seq<Symbol>)
    ensures |r| == 4 * ((|b| + 2) / 3)
  {
    if |b| == 0 then []
    else if |b| == 1 then [Digit(b[0] / 4), Digit((b[0] % 4) * 16), Pad, Pad]
    else if |b| == 2 then [Digit(b[0] / 4), Digit((b[0] % 4) * 16 + b[1] / 16), Digit((b[1] % 16) * 4), Pad]
    else Group(b[0], b[1], b[2]) + ToSymbols(b[3..])
  }

  function FromGroup(q: seq<Symbol>): (r: Option<seq<byte>>)
    requires |q| == 4
  {
    match (q[0], q[1], q[2], q[3])
    case (Digit(c0), Digit(c1), Pad, Pad) => Some([c0 * 4 + c1 / 16])
    case (Digit(c0), Digit(c1), Digit(c2), Pad) => Some([c0 * 4 + c1 / 16, (c1 % 16) * 16 + c2 / 4])
    case (Digit(c0), Digit(c1), Digit(c2), Digit(c3)) =>
      Some([c0 * 4 + c1 / 16, (c1 % 16) * 16 + c2 / 4, (c2 % 4) * 64 + c3])
    case _ => None
  }

  /** Symbols back to bytes, four at a time; padding is accepted only in the last group. */
  function FromSymbols(s: seq<Symbol>): Option<seq<byte>>
    decreases |s|
  {
    if |s| == 0 then Some([])
    else if |s| < 4 then None
    else
      match FromGroup(s[..4])
      case None => None
      case Some(head) =>
        if |s| == 4 then Some(head)
        else if |head| < 3 then None
        else
          match FromSymbols(s[4..])
          case None => None
          case Some(tail) => Some(head + tail)
  }

  /** A digit that holds `hi` above `lo` in the low four bits gives `hi` back under
      `/ 16` and `lo` under `% 16`; likewise for the two- and six-bit splits. */
  lemma Split16(hi: nat, lo: nat)
    requires lo < 16
    ensures (hi * 16 + lo) / 16 == hi && (hi * 16 + lo) % 16 == lo
  {
  }

  lemma Split4(hi: nat, lo: nat)
    requires lo < 4
    ensures (hi * 4 + lo) / 4 == hi && (hi * 4 + lo) % 4 == lo
  {
  }

  /** The first byte comes back from the first digit and the top of the second. */
  lemma FirstByte(b0: byte, b1: byte)
    ensures b0 / 4 * 4 + ((b0 % 4) * 16 + b1 / 16) / 16 == b0
  {
    Split16(b0 % 4, b1 / 16);
  }

  /** The second byte comes back from the bottom of the second digit and the top
      of the third. */
  lemma SecondByte(b0: byte, b1: byte, b2: byte)
    ensures (((b0 % 4) * 16 + b1 / 16) % 16) * 16 + ((b1 % 16) * 4 + b2 / 64) / 4 == b1
  {
    Split16(b0 % 4, b1 / 16);
    Split4(b1 % 16, b2 / 64);
  }

  /** The third byte comes back from the bottom of the third digit and the fourth. */
  lemma ThirdByte(b1: byte, b2: byte)
    ensures (((b1 % 16) * 4 + b2 / 64) % 4) * 64 + b2 % 64 == b2
  {
    Split4(b1 % 16, b2 / 64);
  }

  lemma FromGroupOne(b0: byte)
    ensures FromGroup([Digit(b0 / 4), Digit((b0 % 4) * 16), Pad, Pad]) == Some([b0])
  {
    FirstByte(b0, 0);
  }

  lemma FromGroupTwo(b0: byte, b1: byte)
    ensures FromGroup([Digit(b0 / 4), Digit((b0 % 4) * 16 + b1 / 16), Digit((b1 % 16) * 4), Pad])
            == Some([b0, b1])
  {
    FirstByte(b0, b1);
    SecondByte(b0, b1, 0);
  }

  lemma FromGroupThree(b0: byte, b1: byte, b2: byte)
    ensures FromGroup(Group(b0, b1, b2)) == Some([b0, b1, b2])
  {
    var c0: sextet := b0 / 4;
    var c1: sextet := (b0 % 4) * 16 + b1 / 16;
    var c2: sextet := (b1 % 16) * 4 + b2 / 64;
    var c3: sextet := b2 % 64;
    assert Group(b0, b1, b2) == [Digit(c0), Digit(c1), Digit(c2), Digit(c3)];
    FirstByte(b0, b1);
    SecondByte(b0, b1, b2);
    ThirdByte(b1, b2);
    assert FromGroup([Digit(c0), Digit(c1), Digit(c2), Digit(c3)])
           == Some([c0 * 4 + c1 / 16, (c1 % 16) * 16 + c2 / 4, (c2 % 4) * 64 + c3]);
  }

  lemma FromSymbolsCons(q: seq<Symbol>, t: seq<Symbol>, head: seq<byte>, tail: seq<byte>)
    requires |q| == 4 && |t| > 0
    requires FromGroup(q) == Some(head) && |head| == 3
    requires FromSymbols(t) == Some(tail)
    ensures FromSymbols(q + t) == Some(head + tail)
  {
    assert (q + t)[..4] == q && (q + t)[4..] == t;
  }

  lemma FromSymbolsLast(q: seq<Symbol>)
    requires |q| == 4
    ensures FromSymbols(q) == FromGroup(q)
  {
    assert q[..4] == q;
  }

  lemma {:induction false} SymbolsRoundTrip(b: seq<byte>)
    ensures FromSymbols(ToSymbols(b)) == Some(b)
    decreases |b|
  {
    if |b| == 1 {
      FromGroupOne(b[0]);
      FromSymbolsLast(ToSymbols(b));
      assert b == [b[0]];
    } else if |b| == 2 {
      FromGroupTwo(b[0], b[1]);
      FromSymbolsLast(ToSymbols(b));
      assert b == [b[0], b[1]];
    } else if |b| == 3 {
      FromGroupThree(b[0], b[1], b[2]);
      assert ToSymbols(b) == Group(b[0], b[1], b[2]) + [];
      FromSymbolsLast(Group(b[0], b[1], b[2]));
      assert b == [b[0], b[1], b[2]];
    } else if |b| > 3 {
      FromGroupThree(b[0], b[1], b[2]);
      SymbolsRoundTrip(b[3..]);
      FromSymbolsCons(Group(b[0], b[1], b[2]), ToSymbols(b[3..]), [b[0], b[1], b[2]], b[3..]);
      assert [b[0], b[1], b[2]] + b[3..] == b;
    }
  }

  // ---- symbols <-> characters ----

  function Render(s: seq<Symbol>): (r: string)
    ensures |r| == |s|
    ensures forall i :: 0 <= i < |s| ==> r[i] == (if s[i].Pad? then '=' else CharOf(s[i].v))
  {
    if |s| == 0 then "" else [if s[0].Pad? then '=' else CharOf(s[0].v)] + Render(s[1..])
  }

  function Parse(t: string): (r: Option<seq<Symbol>>)
    ensures r.Some? ==> |r.value| == |t|
  {
    if |t| == 0 then Some([])
    else
      var first :=
        if t[0] == '=' then Some(Pad)
        else if IsAlphabetChar(t[0]) then Some(Digit(IndexOf(t[0])))
        else None;
      match (first, Parse(t[1..]))
      case (Some(x), Some(rest)) => Some([x] + rest)
      case _ => None
  }

  lemma {:induction false} ParseRender(s: seq<Symbol>)
    ensures Parse(Render(s)) == Some(s)
  {
    if |s| > 0 {
      var t := Render(s);
      assert t[1..] == Render(s[1..]);
      ParseRender(s[1..]);
      if s[0].Digit? {
        IndexOfCharOf(s[0].v);
      }
      assert [s[0]] + s[1..] == s;
    }
  }

  // ---- the codec ----

  function Encode(b: seq<byte>): (r: string)
    ensures |r| == 4 * ((|b| + 2) / 3)
  {
    Render(ToSymbols(b))
  }

  /** Decoding; `None` when a character is outside the alphabet and not `=`, the
      length is not a multiple of four, or padding appears before the last group. */
  function Decode(t: string): Option<seq<byte>>
  {
    match Parse(t)
    case None => None
    case Some(s) => FromSymbols(s)
  }

  /** Decoding the encoding of any byte string gives the bytes back. */
  lemma RoundTrip(b: seq<byte>)
    ensures Decode(Encode(b)) == Some(b)
  {
    ParseRender(ToSymbols(b));
    SymbolsRoundTrip(b);
  }

  /** The encoding is injective. */
  lemma EncodeInjective(a: seq<byte>, b: seq<byte>)
    requires Encode(a) == Encode(b)
    ensures a == b
  {
    RoundTrip(a);
    RoundTrip(b);
  }

  lemma {:induction false} SymbolsShape(b: seq<byte>)
    ensures forall i :: 0 <= i < |ToSymbols(b)| - 2 ==> ToSymbols(b)[i].Digit?
    ensures |b| % 3 == 0 ==> forall i :: 0 <= i < |ToSymbols(b)| ==> ToSymbols(b)[i].Digit?
    decreases |b|
  {
    if |b| >= 3 {
      var rest := ToSymbols(b[3..]);
      SymbolsShape(b[3..]);
      var r := ToSymbols(b);
      assert r == Group(b[0], b[1], b[2]) + rest;
      forall i | 0 <= i < |r| && (i < |r| - 2 || |b| % 3 == 0)
        ensures r[i].Digit?
      {
        if i >= 4 {
          assert r[i] == rest[i - 4];
        }
      }
    }
  }

  /** The output uses only the alphabet and `=`; `=` appears only in the last two
      positions, and not at all when the input length is a multiple of three. */
  lemma EncodeAlphabet(b: seq<byte>)
    ensures forall i :: 0 <= i < |Encode(b)| ==> IsAlphabetChar(Encode(b)[i]) || Encode(b)[i] == '='
    ensures forall i :: 0 <= i < |Encode(b)| - 2 ==> IsAlphabetChar(Encode(b)[i])
    ensures |b| % 3 == 0 ==> forall i :: 0 <= i < |Encode(b)| ==> IsAlphabetChar(Encode(b)[i])
  {
    var s := ToSymbols(b);
    var r := Encode(b);
    SymbolsShape(b);
    assert r == Render(s);
    forall i | 0 <= i < |r|
      ensures s[i].Digit? ==> IsAlphabetChar(r[i])
      ensures s[i].Pad? ==> r[i] == '='
    {
    }
  }
}
