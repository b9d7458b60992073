/** Octets, and the UTF-8 encoding of the texts this service hashes.
    Every text that is hashed is an issued API key, which is pure ASCII; for
    ASCII text UTF-8 (section 3 of RFC 3629) writes each character as the
    single octet of its code point. */
module Bytes {

  type byte = x: int | 0 <= x < 256

  predicate IsAscii(s: string) {
    forall i :: 0 <= i < |s| ==> s[i] as int < 128
  }

  /** `s.encode('utf-8')` for an ASCII string `s`: one octet per character.
      Utf8OfAscii shows that this agrees with the full encoding Utf8Of. */
  function Utf8(s: string): (b: seq<byte>)
    requires IsAscii(s)
    ensures |b| == |s|
    ensures forall i :: 0 <= i < |s| ==> b[i] as char == s[i]
  {
    seq(|s|, i requires 0 <= i < |s| => s[i] as int)
  }

  /** The UTF-8 encoding of one Unicode scalar value (section 3 of RFC
      3629): one octet below U+0080, two below U+0800, three below
      U+10000, four above. */
  function EncodeScalar(c: char): (b: seq<byte>)
    ensures 1 <= |b| <= 4
    ensures |b| == 1 <==> c as int < 0x80
  {
    var n := c as int;
    if n < 0x80 then [n]
    else if n < 0x800 then [0xC0 + n / 0x40, 0x80 + n % 0x40]
    else if n < 0x1_0000 then [0xE0 + n / 0x1000, 0x80 + n / 0x40 % 0x40, 0x80 + n % 0x40]
    else [0xF0 + n / 0x4_0000, 0x80 + n / 0x1000 % 0x40, 0x80 + n / 0x40 % 0x40, 0x80 + n % 0x40]
  }

  /** The UTF-8 encoding of a string: the encodings of its characters, in
      order. */
  function Utf8Of(s: string): seq<byte> {
    if s == [] then [] else EncodeScalar(s[0]) + Utf8Of(s[1..])
  }

  /** On ASCII text the one-octet-per-character encoding is the UTF-8
      encoding. */
  lemma {:induction false} Utf8OfAscii(s: string)
    requires IsAscii(s)
    ensures Utf8Of(s) == Utf8(s)
  {
    if s != [] {
      assert IsAscii(s[1..]) by {
        forall i | 0 <= i < |s[1..]| ensures s[1..][i] as int < 128 {
          assert s[1..][i] == s[i + 1];
        }
      }
      Utf8OfAscii(s[1..]);
      assert Utf8(s) == [Utf8(s)[0]] + Utf8(s[1..]);
    }
  }
}
