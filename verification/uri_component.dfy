/**
 * `encodeURIComponent` and its inverse `decodeURIComponent`, following the
 * Encode and Decode abstract operations of ECMA-262 (URI handling
 * functions, section 19.2.6) with the component-level sets: every
 * character except the unreserved marks below is written as the `%XX`
 * triplets of its UTF-8 bytes, upper-case hex, as section 2.1 of RFC 3986
 * describes.
 */
module UriComponent {
  import opened JsValues
  import opened Utf8

  /** What `encodeURIComponent` leaves as it is: A–Z, a–z, 0–9 and `- _ . ! ~ * ' ( )`. */
  predicate IsUnreserved(c: char) {
    || ('A' <= c <= 'Z') || ('a' <= c <= 'z') || ('0' <= c <= '9')
    || c == '-' || c == '_' || c == '.' || c == '!' || c == '~'
    || c == '*' || c == '\'' || c == '(' || c == ')'
  }

  /** The characters an encoded component is made of. */
  predicate IsEncodedChar(c: char) {
    IsUnreserved(c) || c == '%'
  }

  /** The value of a hex digit, upper or lower case. */
  function HexValue(c: char): (r: Option<nat>)
    ensures r.Some? ==> r.value < 16
  {
    if '0' <= c <= '9' then Some(c as int - '0' as int)
    else if 'A' <= c <= 'F' then Some(c as int - 'A' as int + 10)
    else if 'a' <= c <= 'f' then Some(c as int - 'a' as int + 10)
    else None
  }

  /** The upper-case hex digit for `d`. */
  function HexDigit(d: nat): (c: char)
    requires d < 16
    ensures HexValue(c) == Some(d)
    ensures IsUnreserved(c) && !('a' <= c <= 'z')
  {
    if d < 10 then ('0' as int + d) as char else ('A' as int + d - 10) as char
  }

  /** The `%XX` triplet of one byte. */
  function EscapeByte(b: Byte): (t: string)
    ensures |t| == 3 && t[0] == '%' && IsUnreserved(t[1]) && IsUnreserved(t[2])
    ensures HexValue(t[1]) == Some(b / 16) && HexValue(t[2]) == Some(b % 16)
    ensures !('a' <= t[1] <= 'z') && !('a' <= t[2] <= 'z')
  {
    ['%', HexDigit(b / 16), HexDigit(b % 16)]
  }

  /** The triplets of a byte sequence, in order. */
  function EscapeBytes(bs: seq<Byte>): (t: string)
    ensures |t| == 3 * |bs|
    ensures forall i :: 0 <= i < |t| ==> IsEncodedChar(t[i])
  {
    if bs == [] then [] else EscapeByte(bs[0]) + EscapeBytes(bs[1..])
  }

  /** One character of `encodeURIComponent`: kept when unreserved, else its UTF-8 bytes escaped. */
  function EncodeChar(c: char): (t: string)
    ensures forall i :: 0 <= i < |t| ==> IsEncodedChar(t[i])
  {
    if IsUnreserved(c) then [c] else EscapeBytes(EncodeScalar(c as int))
  }

  /** `encodeURIComponent(s)`. */
  function Encode(s: string): (r: string)
    ensures forall i :: 0 <= i < |r| ==> IsEncodedChar(r[i])
    ensures |r| >= |s|
  {
    if s == [] then [] else EncodeChar(s[0]) + Encode(s[1..])
  }

  /** Encoding works character by character, so it distributes over concatenation. */
  lemma {:induction false} EncodeAppend(a: string, b: string)
    ensures Encode(a + b) == Encode(a) + Encode(b)
  {
    if a == [] {
      assert a + b == b;
    } else {
      assert (a + b)[0] == a[0] && (a + b)[1..] == a[1..] + b;
      EncodeAppend(a[1..], b);
    }
  }

  /** A string of unreserved characters is its own encoding. */
  lemma {:induction false} EncodeUnreserved(s: string)
    requires forall i :: 0 <= i < |s| ==> IsUnreserved(s[i])
    ensures Encode(s) == s
  {
    if s != [] {
      EncodeUnreserved(s[1..]);
    }
  }

  function Concat(xs: seq<string>): string {
    if xs == [] then [] else xs[0] + Concat(xs[1..])
  }

  /** Encoding a concatenation of pieces concatenates the pieces' encodings. */
  lemma {:induction false} EncodeConcat(xs: seq<string>, ys: seq<string>)
    requires |xs| == |ys|
    requires forall i :: 0 <= i < |xs| ==> Encode(xs[i]) == ys[i]
    ensures Encode(Concat(xs)) == Concat(ys)
  {
    if xs != [] {
      EncodeAppend(xs[0], Concat(xs[1..]));
      EncodeConcat(xs[1..], ys[1..]);
    }
  }

  /** An encoded component never holds a URL separator: no `&`, `=`, `|`, `?`, `#`, `/` or space. */
  lemma EncodedHasNoSeparator(s: string)
    ensures var r := Encode(s);
      '&' !in r && '=' !in r && '|' !in r && '?' !in r && '#' !in r && '/' !in r && ' ' !in r
  {
    var r := Encode(s);
    Absent(r, '&');
    Absent(r, '=');
    Absent(r, '|');
    Absent(r, '?');
    Absent(r, '#');
    Absent(r, '/');
    Absent(r, ' ');
  }

  /** A character outside the encoded alphabet does not occur in a string over that alphabet. */
  lemma Absent(r: string, c: char)
    requires forall i :: 0 <= i < |r| ==> IsEncodedChar(r[i])
    requires !IsEncodedChar(c)
    ensures c !in r
  {
  }

  /** Reads a `%XX` triplet at the front of `s`, hex digits in either case. */
  function ReadOctet(s: string): (r: Option<Byte>)
    ensures r.Some? ==> |s| >= 3
  {
    if |s| < 3 || s[0] != '%' then None
    else match (HexValue(s[1]), HexValue(s[2]))
      case (Some(h), Some(l)) => Some(h * 16 + l)
      case _ => None
  }

  /** Reads `n` consecutive `%XX` triplets at the front of `s`. */
  function ReadOctets(s: string, n: nat): (r: Option<seq<Byte>>)
    ensures r.Some? ==> |r.value| == n && 3 * n <= |s|
  {
    if n == 0 then Some([])
    else match ReadOctet(s)
      case None => None
      case Some(b) =>
        match ReadOctets(s[3..], n - 1)
        case None => None
        case Some(rest) => Some([b] + rest)
  }

  function Prepend(c: char, r: Option<string>): Option<string> {
    match r
    case None => None
    case Some(t) => Some([c] + t)
  }

  /**
   * `decodeURIComponent(s)`: characters other than `%` pass through; a
   * `%XX` run is read as one UTF-8 sequence and becomes the scalar value
   * it encodes. `None` stands for the `URIError` thrown on a malformed
   * escape or an invalid UTF-8 sequence.
   */
  function Decode(s: string): (r: Option<string>)
    decreases |s|
  {
    if s == [] then Some([])
    else if s[0] != '%' then Prepend(s[0], Decode(s[1..]))
    else match ReadOctet(s)
      case None => None
      case Some(lead) =>
        var n := SequenceLength(lead);
        if n == 0 then None
        else match ReadOctets(s, n)
          case None => None
          case Some(bs) =>
            match DecodeScalar(bs)
            case None => None
            case Some(cp) => Prepend(cp as char, Decode(s[3 * n..]))
  }

  lemma ReadEscapedOctet(b: Byte, rest: string)
    ensures ReadOctet(EscapeByte(b) + rest) == Some(b)
  {
  }

  lemma {:induction false} ReadEscapedOctets(bs: seq<Byte>, rest: string)
    ensures ReadOctets(EscapeBytes(bs) + rest, |bs|) == Some(bs)
  {
    if bs != [] {
      var t := EscapeBytes(bs) + rest;
      assert t == EscapeByte(bs[0]) + (EscapeBytes(bs[1..]) + rest);
      ReadEscapedOctet(bs[0], EscapeBytes(bs[1..]) + rest);
      assert t[3..] == EscapeBytes(bs[1..]) + rest;
      ReadEscapedOctets(bs[1..], rest);
      assert [bs[0]] + bs[1..] == bs;
    }
  }

  /** Decoding one encoded character in front of any suffix yields the character, then the suffix's decoding. */
  lemma DecodeEncodedChar(c: char, rest: string)
    ensures Decode(EncodeChar(c) + rest) == Prepend(c, Decode(rest))
  {
    var t := EncodeChar(c) + rest;
    if IsUnreserved(c) {
      assert t[0] == c && t[1..] == rest;
    } else {
      var bs := EncodeScalar(c as int);
      assert t == EscapeByte(bs[0]) + (EscapeBytes(bs[1..]) + rest);
      ReadEscapedOctet(bs[0], EscapeBytes(bs[1..]) + rest);
      ReadEscapedOctets(bs, rest);
      DecodeEncodeScalar(c as int);
      assert t[3 * |bs|..] == rest;
    }
  }

  /** Round trip: `decodeURIComponent(encodeURIComponent(s)) === s` for every string. */
  lemma {:induction false} DecodeEncode(s: string)
    ensures Decode(Encode(s)) == Some(s)
  {
    if s != [] {
      DecodeEncode(s[1..]);
      DecodeEncodedChar(s[0], Encode(s[1..]));
      assert [s[0]] + s[1..] == s;
    }
  }

  /** Encoding is injective: distinct strings never share an encoding. */
  lemma EncodeInjective(s: string, t: string)
    requires Encode(s) == Encode(t)
    ensures s == t
  {
    DecodeEncode(s);
    DecodeEncode(t);
  }

  /** A space and a pipe inside a component are escaped, so neither can be mistaken for part of the URL's structure. */
  lemma OneByteExamples()
    ensures Encode(" ") == "%20"
    ensures Encode("|") == "%7C"
  {
  }

  /** `ó` (U+00F3) takes two UTF-8 bytes. */
  lemma TwoByteExample()
    ensures Encode("ó") == "%C3%B3"
  {
    assert 'ó' as int == 0xF3;
    assert EncodeScalar(0xF3) == [0xC3, 0xB3];
    assert EscapeBytes([0xC3, 0xB3]) == "%C3%B3";
  }

  /** `€` (U+20AC) takes three UTF-8 bytes. */
  lemma ThreeByteExample()
    ensures Encode("€") == "%E2%82%AC"
  {
    assert '€' as int == 0x20AC;
    assert EncodeScalar(0x20AC) == [0xE2, 0x82, 0xAC];
    assert EscapeBytes([0xE2, 0x82, 0xAC]) == "%E2%82%AC";
  }

  /** U+1F600 (an emoji outside the Basic Multilingual Plane) takes four UTF-8 bytes. */
  lemma FourByteExample()
    ensures Encode("\U{1F600}") == "%F0%9F%98%80"
  {
    assert '\U{1F600}' as int == 0x1F600;
    assert EncodeScalar(0x1F600) == [0xF0, 0x9F, 0x98, 0x80];
    assert EscapeBytes([0xF0, 0x9F, 0x98, 0x80]) == "%F0%9F%98%80";
  }
}
