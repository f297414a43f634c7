/**
 * UTF-8 encoding and decoding of a single Unicode scalar value, as
 * `encodeURIComponent` and `decodeURIComponent` use it (the UTF-8 table of
 * section 3.9 of the Unicode Standard / RFC 3629).
 */
module Utf8 {
  import opened JsValues

  type Byte = x: int | 0 <= x < 256

  /** A Unicode scalar value: a code point that is not a surrogate. Exactly the values a Dafny `char` holds. */
  predicate IsScalar(cp: int) {
    0 <= cp < 0xD800 || 0xE000 <= cp < 0x11_0000
  }

  /** A continuation byte `10xxxxxx`. */
  predicate IsContinuation(b: Byte) {
    0x80 <= b < 0xC0
  }

  /**
   * The length of the UTF-8 sequence a lead byte announces (the number of
   * leading one bits, or 1 for `0xxxxxxx`); 0 when the byte cannot start a
   * sequence (a continuation byte, or five or more leading one bits).
   */
  function SequenceLength(lead: Byte): (n: nat)
    ensures n <= 4
  {
    if lead < 0x80 then 1
    else if lead < 0xC0 then 0
    else if lead < 0xE0 then 2
    else if lead < 0xF0 then 3
    else if lead < 0xF8 then 4
    else 0
  }

  /** The UTF-8 bytes of one scalar value. */
  function EncodeScalar(cp: int): (bs: seq<Byte>)
    requires IsScalar(cp)
    ensures 1 <= |bs| <= 4
    ensures SequenceLength(bs[0]) == |bs|
    ensures |bs| == 1 <==> cp < 0x80
    ensures forall k :: 1 <= k < |bs| ==> IsContinuation(bs[k])
  {
    if cp < 0x80 then [cp]
    else if cp < 0x800 then [0xC0 + cp / 64, 0x80 + cp % 64]
    else if cp < 0x1_0000 then [0xE0 + cp / 4096, 0x80 + (cp / 64) % 64, 0x80 + cp % 64]
    else [0xF0 + cp / 262144, 0x80 + (cp / 4096) % 64, 0x80 + (cp / 64) % 64, 0x80 + cp % 64]
  }

  /**
   * Decodes one complete UTF-8 sequence (lead byte plus continuation
   * bytes). Fails on a bad lead byte, a wrong length, a bad continuation
   * byte, an overlong form, a surrogate or a value above U+10FFFF.
   */
  function DecodeScalar(bs: seq<Byte>): (r: Option<int>)
    ensures r.Some? ==> IsScalar(r.value) && EncodeScalar(r.value) == bs
  {
    if |bs| == 0 || SequenceLength(bs[0]) != |bs| then None
    else if exists k :: 1 <= k < |bs| && !IsContinuation(bs[k]) then None
    else if |bs| == 1 then Some(bs[0])
    else if |bs| == 2 then
      var cp: int := (bs[0] - 0xC0) as int * 64 + (bs[1] - 0x80) as int;
      if cp < 0x80 then None
      else
        assert EncodeScalar(cp) == bs by { Split64(cp, bs[0] - 0xC0, bs[1] - 0x80); }
        Some(cp)
    else if |bs| == 3 then
      var hi: int := (bs[0] - 0xE0) as int * 64 + (bs[1] - 0x80) as int;
      var cp: int := hi * 64 + (bs[2] - 0x80) as int;
      if cp < 0x800 || (0xD800 <= cp < 0xE000) then None
      else
        assert EncodeScalar(cp) == bs by {
          Split64(cp, hi, bs[2] - 0x80);
          Split64(hi, bs[0] - 0xE0, bs[1] - 0x80);
          assert cp / 4096 == hi / 64;
        }
        Some(cp)
    else
      var top: int := (bs[0] - 0xF0) as int * 64 + (bs[1] - 0x80) as int;
      var hi: int := top * 64 + (bs[2] - 0x80) as int;
      var cp: int := hi * 64 + (bs[3] - 0x80) as int;
      if cp < 0x1_0000 || cp >= 0x11_0000 then None
      else
        assert EncodeScalar(cp) == bs by {
          Split64(cp, hi, bs[3] - 0x80);
          Split64(hi, top, bs[2] - 0x80);
          Split64(top, bs[0] - 0xF0, bs[1] - 0x80);
          assert cp / 4096 == hi / 64;
          assert cp / 262144 == top / 64;
        }
        Some(cp)
  }

  /** Quotient and remainder of `q * 64 + r` by 64. */
  lemma Split64(x: int, q: int, r: int)
    requires 0 <= r < 64 && x == q * 64 + r
    ensures x / 64 == q && x % 64 == r
  {
  }

  /** Decoding the encoding of a scalar value gives it back. */
  lemma DecodeEncodeScalar(cp: int)
    requires IsScalar(cp)
    ensures DecodeScalar(EncodeScalar(cp)) == Some(cp)
  {
    var bs := EncodeScalar(cp);
    if cp < 0x80 {
    } else if cp < 0x800 {
      Split64(cp, cp / 64, cp % 64);
    } else if cp < 0x1_0000 {
      var hi := cp / 64;
      assert cp == hi * 64 + cp % 64;
      assert hi == (cp / 4096) * 64 + hi % 64;
    } else {
      var hi := cp / 64;
      var top := hi / 64;
      assert cp == hi * 64 + cp % 64;
      assert hi == top * 64 + hi % 64;
      assert top == cp / 4096;
      assert top == (cp / 262144) * 64 + top % 64;
    }
  }
}
