/**
 * UTF-8 encoding of Dafny strings, as Python's `str.encode("utf-8")`
 * produces it. A Dafny `char` is a Unicode scalar value, so every string
 * encodes; Python raises for lone surrogates, which Dafny cannot represent.
 */
module Utf8 {

  type byte = x: int | 0 <= x < 256

  /** Continuation bytes of a multi-byte sequence are 10xxxxxx. */
  predicate IsContinuation(b: byte) {
    0x80 <= b < 0xC0
  }

  /** The one to four bytes that encode one code point. */
  function EncodeChar(c: char): (bs: seq<byte>)
    ensures 1 <= |bs| <= 4
    ensures |bs| == 1 <==> c as int < 0x80
    ensures |bs| == 2 <==> 0x80 <= c as int < 0x800
    ensures |bs| == 1 ==> bs[0] == c as int
    ensures |bs| > 1 ==> 0xC0 <= bs[0] && forall i :: 1 <= i < |bs| ==> IsContinuation(bs[i])
  {
    var cp := c as int;
    if cp < 0x80 then [cp]
    else if cp < 0x800 then [0xC0 + cp / 64, 0x80 + cp % 64]
    else if cp < 0x10000 then [0xE0 + cp / 4096, 0x80 + (cp / 64) % 64, 0x80 + cp % 64]
    else [0xF0 + cp / 262144, 0x80 + (cp / 4096) % 64, 0x80 + (cp / 64) % 64, 0x80 + cp % 64]
  }

  function Encode(s: string): seq<byte> {
    if s == [] then [] else EncodeChar(s[0]) + Encode(s[1..])
  }

  predicate IsAscii(s: string) {
    forall i :: 0 <= i < |s| ==> s[i] as int < 0x80
  }

  /** Every character takes between one and four bytes. */
  lemma {:induction false} EncodeLengthBounds(s: string)
    ensures |s| <= |Encode(s)| <= 4 * |s|
  {
    if s != [] {
      EncodeLengthBounds(s[1..]);
    }
  }

  /** An ASCII string encodes to exactly one byte per character. */
  lemma {:induction false} AsciiEncodeLength(s: string)
    requires IsAscii(s)
    ensures |Encode(s)| == |s|
  {
    if s != [] {
      assert IsAscii(s[1..]) by {
        forall i | 0 <= i < |s[1..]| ensures s[1..][i] as int < 0x80 {
          assert s[1..][i] == s[i + 1];
        }
      }
      AsciiEncodeLength(s[1..]);
    }
  }

  /** A string of characters from U+0080 to U+07FF (Latin-1 letters such as 'é') takes two bytes per character. */
  lemma {:induction false} TwoByteEncodeLength(s: string)
    requires forall i :: 0 <= i < |s| ==> 0x80 <= s[i] as int < 0x800
    ensures |Encode(s)| == 2 * |s|
  {
    if s != [] {
      assert forall i :: 0 <= i < |s[1..]| ==> s[1..][i] == s[i + 1];
      TwoByteEncodeLength(s[1..]);
    }
  }
}
