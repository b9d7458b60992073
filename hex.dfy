/** The lower-case hexadecimal text of a digest, as `hexdigest()` writes it:
    two characters per octet, the high nibble first. */
module Hex {

  import opened Wrappers
  import opened Bytes

  /** A character of `0-9 a-f`. */
  predicate IsHexChar(c: char) {
    ('0' <= c <= '9') || ('a' <= c <= 'f')
  }

  predicate IsHexText(s: string) {
    forall i :: 0 <= i < |s| ==> IsHexChar(s[i])
  }

  /** The digit for the nibble `v`. */
  function NibbleChar(v: nat): (c: char)
    requires v < 16
    ensures IsHexChar(c)
  {
    if v < 10 then ('0' as int + v) as char else ('a' as int + (v - 10)) as char
  }

  /** The nibble a digit stands for. */
  function NibbleValue(c: char): (v: nat)
    requires IsHexChar(c)
    ensures v < 16
    ensures NibbleChar(v) == c
  {
    if '0' <= c <= '9' then c as int - '0' as int else c as int - 'a' as int + 10
  }

  lemma NibbleValueOfChar(v: nat)
    requires v < 16
    ensures NibbleValue(NibbleChar(v)) == v
  {
  }

  function Encode(b: seq<byte>): (s: string)
    ensures |s| == 2 * |b|
    ensures IsHexText(s)
  {
    if |b| == 0 then "" else [NibbleChar(b[0] / 16), NibbleChar(b[0] % 16)] + Encode(b[1..])
  }

  /** The inverse of Encode: reads pairs of digits; an odd length or a
      character that is not a lower-case digit is rejected. */
  function Decode(s: string): (r: Option<seq<byte>>)
  {
    if |s| == 0 then Some([])
    else if |s| == 1 || !IsHexChar(s[0]) || !IsHexChar(s[1]) then None
    else match Decode(s[2..])
      case None => None
      case Some(rest) => Some([NibbleValue(s[0]) * 16 + NibbleValue(s[1])] + rest)
  }

  /** Decoding the hexadecimal text gives back the octets. */
  lemma {:induction false} DecodeEncode(b: seq<byte>)
    ensures Decode(Encode(b)) == Some(b)
  {
    if |b| > 0 {
      var s := Encode(b);
      assert s[2..] == Encode(b[1..]);
      NibbleValueOfChar(b[0] / 16);
      NibbleValueOfChar(b[0] % 16);
      DecodeEncode(b[1..]);
      assert b == [b[0]] + b[1..];
    }
  }

  /** Distinct digests have distinct hexadecimal texts. */
  lemma EncodeInjective(a: seq<byte>, b: seq<byte>)
    ensures Encode(a) == Encode(b) ==> a == b
  {
    DecodeEncode(a);
    DecodeEncode(b);
  }
}
