/** The URL- and filename-safe base64 alphabet of section 5 of RFC 4648,
    written without padding, as `secrets.token_urlsafe` produces it: the
    encoding of the random octets with every trailing '=' stripped. */
module Base64Url {

  import opened Wrappers
  import opened Bytes

  /** A character of the alphabet `A-Z a-z 0-9 - _`. */
  predicate IsUrlSafeChar(c: char) {
    ('A' <= c <= 'Z') || ('a' <= c <= 'z') || ('0' <= c <= '9') || c == '-' || c == '_'
  }

  /** The character that encodes the 6-bit value `v`. */
  function SextetChar(v: nat): (c: char)
    requires v < 64
    ensures IsUrlSafeChar(c)
  {
    if v < 26 then ('A' as int + v) as char
    else if v < 52 then ('a' as int + (v - 26)) as char
    else if v < 62 then ('0' as int + (v - 52)) as char
    else if v == 62 then '-'
    else '_'
  }

  /** The 6-bit value a character of the alphabet stands for. */
  function SextetValue(c: char): (v: nat)
    requires IsUrlSafeChar(c)
    ensures v < 64
    ensures SextetChar(v) == c
  {
    if 'A' <= c <= 'Z' then c as int - 'A' as int
    else if 'a' <= c <= 'z' then c as int - 'a' as int + 26
    else if '0' <= c <= '9' then c as int - '0' as int + 52
    else if c == '-' then 62
    else 63
  }

  lemma SextetValueOfChar(v: nat)
    requires v < 64
    ensures SextetValue(SextetChar(v)) == v
  {
  }

  /** Encodes the octets three at a time into four characters; a final group
      of one or two octets gives two or three characters (the padding is
      stripped). */
  function Encode(b: seq<byte>): (s: string)
    ensures |s| == (4 * |b| + 2) / 3
    ensures forall i :: 0 <= i < |s| ==> IsUrlSafeChar(s[i])
    decreases |b|
  {
    if |b| == 0 then ""
    else if |b| == 1 then
      [SextetChar(b[0] / 4), SextetChar(b[0] % 4 * 16)]
    else if |b| == 2 then
      [SextetChar(b[0] / 4), SextetChar(b[0] % 4 * 16 + b[1] / 16), SextetChar(b[1] % 16 * 4)]
    else
      [SextetChar(b[0] / 4), SextetChar(b[0] % 4 * 16 + b[1] / 16),
       SextetChar(b[1] % 16 * 4 + b[2] / 64), SextetChar(b[2] % 64)]
      + Encode(b[3..])
  }

  /** The inverse of Encode: reads four characters into three octets, and a
      final group of two or three characters into one or two octets. A
      character outside the alphabet, or a lone final character, is
      rejected. */
  function Decode(s: string): (r: Option<seq<byte>>)
    decreases |s|
  {
    if |s| == 0 then Some([])
    else if |s| == 1 || !IsUrlSafeChar(s[0]) || !IsUrlSafeChar(s[1]) then None
    else
      var v0, v1 := SextetValue(s[0]), SextetValue(s[1]);
      if |s| == 2 then Some([v0 * 4 + v1 / 16])
      else if !IsUrlSafeChar(s[2]) then None
      else
        var v2 := SextetValue(s[2]);
        if |s| == 3 then Some([v0 * 4 + v1 / 16, v1 % 16 * 16 + v2 / 4])
        else if !IsUrlSafeChar(s[3]) then None
        else
          var v3 := SextetValue(s[3]);
          match Decode(s[4..])
          case None => None
          case Some(rest) => Some([v0 * 4 + v1 / 16, v1 % 16 * 16 + v2 / 4, v2 % 4 * 64 + v3] + rest)
  }

  /** The bit arithmetic of one group: the sextets that Encode writes for
      one, two or three octets give those octets back the way Decode reads
      them. */
  lemma OneOctetRoundTrip(x: byte)
    ensures x / 4 * 4 + x % 4 * 16 / 16 == x
  {
  }

  lemma TwoOctetsRoundTrip(x: byte, y: byte)
    ensures var v1 := x % 4 * 16 + y / 16;
            x / 4 * 4 + v1 / 16 == x && v1 % 16 * 16 + y % 16 * 4 / 4 == y
  {
    var v1 := x % 4 * 16 + y / 16;
    assert v1 / 16 == x % 4 && v1 % 16 == y / 16;
  }

  lemma ThreeOctetsRoundTrip(x: byte, y: byte, z: byte)
    ensures var v1, v2 := x % 4 * 16 + y / 16, y % 16 * 4 + z / 64;
            && x / 4 * 4 + v1 / 16 == x
            && v1 % 16 * 16 + v2 / 4 == y
            && v2 % 4 * 64 + z % 64 == z
  {
    var v1, v2 := x % 4 * 16 + y / 16, y % 16 * 4 + z / 64;
    assert v1 / 16 == x % 4 && v1 % 16 == y / 16;
    assert v2 / 4 == y % 16 && v2 % 4 == z / 64;
  }

  /** Decoding the encoding gives back the octets. */
  lemma {:induction false} DecodeEncode(b: seq<byte>)
    ensures Decode(Encode(b)) == Some(b)
    decreases |b|
  {
    if |b| == 0 {
    } else if |b| == 1 {
      SextetValueOfChar(b[0] / 4);
      SextetValueOfChar(b[0] % 4 * 16);
      OneOctetRoundTrip(b[0]);
      assert b == [b[0]];
    } else if |b| == 2 {
      SextetValueOfChar(b[0] / 4);
      SextetValueOfChar(b[0] % 4 * 16 + b[1] / 16);
      SextetValueOfChar(b[1] % 16 * 4);
      TwoOctetsRoundTrip(b[0], b[1]);
      assert b == [b[0], b[1]];
    } else {
      DecodeEncodeGroup(b);
    }
  }

  /** The step of DecodeEncode for three or more octets. */
  lemma {:induction false} DecodeEncodeGroup(b: seq<byte>)
    requires |b| >= 3
    ensures Decode(Encode(b)) == Some(b)
    decreases |b|, 0
  {
    var s := Encode(b);
    var tail := Encode(b[3..]);
    assert s[4..] == tail;
    SextetValueOfChar(b[0] / 4);
    SextetValueOfChar(b[0] % 4 * 16 + b[1] / 16);
    SextetValueOfChar(b[1] % 16 * 4 + b[2] / 64);
    SextetValueOfChar(b[2] % 64);
    ThreeOctetsRoundTrip(b[0], b[1], b[2]);
    DecodeEncode(b[3..]);
    assert Decode(s) == Some([b[0], b[1], b[2]] + b[3..]);
    assert b == [b[0], b[1], b[2]] + b[3..];
  }

  /** Distinct octet strings have distinct encodings. */
  lemma EncodeInjective(a: seq<byte>, b: seq<byte>)
    ensures Encode(a) == Encode(b) ==> a == b
  {
    DecodeEncode(a);
    DecodeEncode(b);
  }
}
