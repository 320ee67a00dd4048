/**
 * ECMAScript's `encodeURIComponent` and `decodeURIComponent`: percent-encoding as in
 * section 2.1 of RFC 3986, over the UTF-8 octets of each character (RFC 3629).
 * A Dafny `char` is a Unicode scalar value, so the lone surrogates on which
 * `encodeURIComponent` throws cannot occur here.
 */
module Percent {
  import opened Wrappers

  type byte = b: int | 0 <= b < 256

  /** The characters `encodeURIComponent` leaves as they are: letters, digits and `-_.!~*'()`. */
  predicate Unescaped(c: char) {
    || ('A' <= c <= 'Z') || ('a' <= c <= 'z') || ('0' <= c <= '9')
    || c == '-' || c == '_' || c == '.' || c == '!' || c == '~'
    || c == '*' || c == '\'' || c == '(' || c == ')'
  }

  /** The upper-case hexadecimal digit for `d`. */
  function HexDigit(d: int): (c: char)
    requires 0 <= d < 16
    ensures Unescaped(c)
  {
    if d < 10 then ('0' as int + d) as char else ('A' as int + d - 10) as char
  }

  /** The value of a hexadecimal digit of either case; None for any other character. */
  function HexValue(c: char): (r: Option<int>)
    ensures r.Some? <==> ('0' <= c <= '9' || 'A' <= c <= 'F' || 'a' <= c <= 'f')
    ensures r.Some? ==> 0 <= r.value < 16
  {
    if '0' <= c <= '9' then Some(c as int - '0' as int)
    else if 'A' <= c <= 'F' then Some(c as int - 'A' as int + 10)
    else if 'a' <= c <= 'f' then Some(c as int - 'a' as int + 10)
    else None
  }

  /** `%XY` for one octet. */
  function Escape(b: byte): string {
    ['%', HexDigit(b / 16), HexDigit(b % 16)]
  }

  function EscapeAll(bs: seq<byte>): (s: string)
    ensures |s| == 3 * |bs|
    ensures forall i :: 0 <= i < |s| ==> Unescaped(s[i]) || s[i] == '%'
  {
    if bs == [] then [] else Escape(bs[0]) + EscapeAll(bs[1..])
  }

  /** The UTF-8 octets of a scalar value (RFC 3629, section 3). */
  function Utf8(c: char): (bs: seq<byte>)
    ensures 1 <= |bs| <= 4
  {
    var n := c as int;
    if n < 0x80 then [n]
    else if n < 0x800 then [0xC0 + n / 0x40, 0x80 + n % 0x40]
    else if n < 0x10000 then [0xE0 + n / 0x1000, 0x80 + n / 0x40 % 0x40, 0x80 + n % 0x40]
    else [0xF0 + n / 0x40000, 0x80 + n / 0x1000 % 0x40, 0x80 + n / 0x40 % 0x40, 0x80 + n % 0x40]
  }

  function EncodeChar(c: char): string {
    if Unescaped(c) then [c] else EscapeAll(Utf8(c))
  }

  /** `encodeURIComponent(s)`: only unescaped characters and `%` escapes remain. */
  function Encode(s: string): (r: string)
    ensures forall i :: 0 <= i < |r| ==> Unescaped(r[i]) || r[i] == '%'
  {
    if s == [] then [] else EncodeChar(s[0]) + Encode(s[1..])
  }

  /** The octet written as `%XY` at the front of `s`, if there is one. */
  function OctetAt(s: string): (r: Option<byte>)
    ensures r.Some? ==> |s| >= 3 && s[0] == '%'
  {
    if |s| < 3 || s[0] != '%' then None
    else match (HexValue(s[1]), HexValue(s[2]))
      case (Some(high), Some(low)) => Some(high * 16 + low)
      case _ => None
  }

  /** `count` consecutive `%XY` octets at the front of `s`. */
  function OctetsAt(s: string, count: nat): (r: Option<seq<byte>>)
    ensures r.Some? ==> |r.value| == count && 3 * count <= |s|
    decreases count
  {
    if count == 0 then Some([])
    else match OctetAt(s)
      case None => None
      case Some(b) =>
        match OctetsAt(s[3..], count - 1)
        case None => None
        case Some(more) => Some([b] + more)
  }

  /** How many octets a UTF-8 sequence with this first octet has; 0 when it cannot start one. */
  function SequenceLength(b: byte): nat {
    if b < 0x80 then 1
    else if 0xC0 <= b < 0xE0 then 2
    else if 0xE0 <= b < 0xF0 then 3
    else if 0xF0 <= b < 0xF8 then 4
    else 0
  }

  predicate Continuation(b: byte) {
    0x80 <= b < 0xC0
  }

  /**
   * The scalar value a multi-octet UTF-8 sequence encodes; None for a malformed sequence, an
   * overlong form, a surrogate or a value past U+10FFFF.
   */
  function Utf8Decode(bs: seq<byte>): (r: Option<char>)
    requires 2 <= |bs| <= 4
    ensures r.Some? ==> r.value as int >= 0x80 && SequenceLength(bs[0]) == |bs|
  {
    var o: seq<int> := bs;
    var v :=
      if |o| == 2 then (o[0] - 0xC0) * 0x40 + (o[1] - 0x80)
      else if |o| == 3 then (o[0] - 0xE0) * 0x1000 + (o[1] - 0x80) * 0x40 + (o[2] - 0x80)
      else (o[0] - 0xF0) * 0x40000 + (o[1] - 0x80) * 0x1000 + (o[2] - 0x80) * 0x40 + (o[3] - 0x80);
    var least := if |bs| == 2 then 0x80 else if |bs| == 3 then 0x800 else 0x10000;
    if && SequenceLength(bs[0]) == |bs|
       && (forall i | 1 <= i < |bs| :: Continuation(bs[i]))
       && least <= v <= 0x10FFFF && !(0xD800 <= v <= 0xDFFF)
    then Some(v as char)
    else None
  }

  function Prepend(p: string, r: Option<string>): Option<string> {
    match r
    case None => None
    case Some(t) => Some(p + t)
  }

  /**
   * `decodeURIComponent(s)`; None where it throws URIError (a `%` not followed by two
   * hexadecimal digits, or escaped octets that are not valid UTF-8). Every escape is decoded,
   * including those of reserved characters; `+` stays `+`.
   */
  function Decode(s: string): (r: Option<string>)
    ensures r.Some? ==> |r.value| <= |s|
    decreases |s|
  {
    if s == [] then Some([])
    else if s[0] != '%' then Prepend([s[0]], Decode(s[1..]))
    else match OctetAt(s)
      case None => None
      case Some(b) =>
        var n := SequenceLength(b);
        if n == 1 then Prepend([b as char], Decode(s[3..]))
        else if n == 0 then None
        else match OctetsAt(s[3..], n - 1)
          case None => None
          case Some(more) =>
            match Utf8Decode([b] + more)
            case None => None
            case Some(c) => Prepend([c], Decode(s[3 * n..]))
  }

  /** Text without `%` decodes to itself. */
  lemma {:induction false} DecodePlain(s: string)
    requires '%' !in s
    ensures Decode(s) == Some(s)
    decreases |s|
  {
    if s != [] {
      assert '%' !in s[1..] by {
        forall i | 0 <= i < |s[1..]| ensures s[1..][i] != '%' {
          assert s[1..][i] == s[i + 1];
        }
      }
      DecodePlain(s[1..]);
      assert [s[0]] + s[1..] == s;
    }
  }

  /** Text of unescaped characters encodes to itself. */
  lemma {:induction false} EncodePlain(s: string)
    requires forall i :: 0 <= i < |s| ==> Unescaped(s[i])
    ensures Encode(s) == s
    decreases |s|
  {
    if s != [] {
      EncodePlain(s[1..]);
      assert [s[0]] + s[1..] == s;
    }
  }

  lemma HexRoundTrip(d: int)
    requires 0 <= d < 16
    ensures HexValue(HexDigit(d)) == Some(d)
  {
  }

  lemma OctetAtEscape(b: byte, rest: string)
    ensures OctetAt(Escape(b) + rest) == Some(b)
  {
    var s := Escape(b) + rest;
    assert s[0] == '%' && s[1] == HexDigit(b / 16) && s[2] == HexDigit(b % 16);
    HexRoundTrip(b / 16);
    HexRoundTrip(b % 16);
  }

  lemma {:induction false} OctetsAtEscaped(bs: seq<byte>, rest: string)
    ensures OctetsAt(EscapeAll(bs) + rest, |bs|) == Some(bs)
    decreases |bs|
  {
    if bs != [] {
      var s := EscapeAll(bs) + rest;
      assert s == Escape(bs[0]) + (EscapeAll(bs[1..]) + rest);
      OctetAtEscape(bs[0], EscapeAll(bs[1..]) + rest);
      assert s[3..] == EscapeAll(bs[1..]) + rest;
      OctetsAtEscaped(bs[1..], rest);
      assert [bs[0]] + bs[1..] == bs;
    }
  }

  /** A character outside ASCII is recovered from its UTF-8 octets. */
  lemma Utf8RoundTrip(c: char)
    requires c as int >= 0x80
    ensures |Utf8(c)| >= 2 && SequenceLength(Utf8(c)[0]) == |Utf8(c)|
    ensures Utf8Decode(Utf8(c)) == Some(c)
  {
    var n := c as int;
    if n < 0x800 {
      Utf8TwoOctets(c);
    } else if n < 0x10000 {
      Utf8ThreeOctets(c);
    } else {
      Utf8FourOctets(c);
    }
  }

  lemma Utf8TwoOctets(c: char)
    requires 0x80 <= c as int < 0x800
    ensures |Utf8(c)| == 2 && SequenceLength(Utf8(c)[0]) == 2
    ensures Utf8Decode(Utf8(c)) == Some(c)
  {
    var n := c as int;
    var q, r := n / 0x40, n % 0x40;
    assert n == q * 0x40 + r && 2 <= q < 0x20;
    assert Utf8(c) == [0xC0 + q, 0x80 + r];
  }

  lemma Utf8ThreeOctets(c: char)
    requires 0x800 <= c as int < 0x10000
    ensures |Utf8(c)| == 3 && SequenceLength(Utf8(c)[0]) == 3
    ensures Utf8Decode(Utf8(c)) == Some(c)
  {
    var n := c as int;
    var q, r := n / 0x40, n % 0x40;
    var q2, r2 := q / 0x40, q % 0x40;
    assert n == q * 0x40 + r && q == q2 * 0x40 + r2 && 0 <= q2 < 0x10;
    assert n == q2 * 0x1000 + r2 * 0x40 + r;
    assert n / 0x1000 == q2;
    assert Utf8(c) == [0xE0 + q2, 0x80 + r2, 0x80 + r];
  }

  lemma Utf8FourOctets(c: char)
    requires 0x10000 <= c as int
    ensures |Utf8(c)| == 4 && SequenceLength(Utf8(c)[0]) == 4
    ensures Utf8Decode(Utf8(c)) == Some(c)
  {
    var n := c as int;
    var q, r := n / 0x40, n % 0x40;
    var q2, r2 := q / 0x40, q % 0x40;
    var q3, r3 := q2 / 0x40, q2 % 0x40;
    assert n == q * 0x40 + r && q == q2 * 0x40 + r2 && q2 == q3 * 0x40 + r3;
    assert n == q3 * 0x40000 + r3 * 0x1000 + r2 * 0x40 + r;
    assert n / 0x1000 == q2 && n / 0x40000 == q3 && q3 <= 4;
    assert Utf8(c) == [0xF0 + q3, 0x80 + r3, 0x80 + r2, 0x80 + r];
  }

  /** One unfolding of Decode at an escaped ASCII character. */
  lemma DecodeAsciiEscape(s: string, b: byte)
    requires OctetAt(s) == Some(b) && b < 0x80
    ensures Decode(s) == Prepend([b as char], Decode(s[3..]))
  {
  }

  /** One unfolding of Decode at a well-formed escaped multi-octet sequence. */
  lemma DecodeSequenceEscape(s: string, b: byte, more: seq<byte>, c: char)
    requires OctetAt(s) == Some(b) && SequenceLength(b) == |more| + 1 >= 2
    requires OctetsAt(s[3..], |more|) == Some(more)
    requires Utf8Decode([b] + more) == Some(c)
    ensures Decode(s) == Prepend([c], Decode(s[3 * (|more| + 1)..]))
  {
  }

  /** Decoding consumes exactly one encoded character from the front. */
  lemma DecodeEncodedChar(c: char, rest: string)
    ensures Decode(EncodeChar(c) + rest) == Prepend([c], Decode(rest))
  {
    if Unescaped(c) {
      var s := [c] + rest;
      assert s[0] == c && s[1..] == rest;
    } else if c as int < 0x80 {
      DecodeEscapedAscii(c, rest);
    } else {
      DecodeEscapedSequence(c, rest);
    }
  }

  lemma DecodeEscapedAscii(c: char, rest: string)
    requires !Unescaped(c) && c as int < 0x80
    ensures Decode(EscapeAll(Utf8(c)) + rest) == Prepend([c], Decode(rest))
  {
    var b: byte := c as int;
    assert Utf8(c) == [b];
    var s := Escape(b) + rest;
    assert EscapeAll(Utf8(c)) + rest == s;
    OctetAtEscape(b, rest);
    DecodeAsciiEscape(s, b);
    assert s[3..] == rest;
  }

  lemma DecodeEscapedSequence(c: char, rest: string)
    requires c as int >= 0x80
    ensures Decode(EscapeAll(Utf8(c)) + rest) == Prepend([c], Decode(rest))
  {
    var bs := Utf8(c);
    var s := EscapeAll(bs) + rest;
    assert s == Escape(bs[0]) + (EscapeAll(bs[1..]) + rest);
    OctetAtEscape(bs[0], EscapeAll(bs[1..]) + rest);
    assert s[3..] == EscapeAll(bs[1..]) + rest;
    Utf8RoundTrip(c);
    OctetsAtEscaped(bs[1..], rest);
    assert [bs[0]] + bs[1..] == bs;
    DecodeSequenceEscape(s, bs[0], bs[1..], c);
    assert s[3 * |bs|..] == rest;
  }

  /** `decodeURIComponent(encodeURIComponent(s)) == s`. */
  lemma {:induction false} DecodeEncode(s: string)
    ensures Decode(Encode(s)) == Some(s)
    decreases |s|
  {
    if s != [] {
      DecodeEncodedChar(s[0], Encode(s[1..]));
      DecodeEncode(s[1..]);
      assert [s[0]] + s[1..] == s;
    }
  }
}
