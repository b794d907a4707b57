/**
 * Standard Base64 (section 4 of RFC 4648) as `base64.b64encode(...).decode()`
 * produces it, the decoder that undoes it, and `rstrip("=")`.
 */
module Base64 {
  import opened Text

  /** The character for a 6-bit value in the standard alphabet. */
  function Sextet(n: nat): (c: char)
    requires n < 64
    ensures c != '=' && c as int < 128
  {
    if n < 26 then (65 + n) as char
    else if n < 52 then (97 + n - 26) as char
    else if n < 62 then (48 + n - 52) as char
    else if n == 62 then '+'
    else '/'
  }

  /** The 6-bit value of an alphabet character; anything else reads as 0. */
  function SextetValue(c: char): (n: nat)
    ensures n < 64
  {
    if 'A' <= c <= 'Z' then c as int - 65
    else if 'a' <= c <= 'z' then c as int - 97 + 26
    else if '0' <= c <= '9' then c as int - 48 + 52
    else if c == '+' then 62
    else if c == '/' then 63
    else 0
  }

  lemma SextetRoundTrip(n: nat)
    requires n < 64
    ensures SextetValue(Sextet(n)) == n
  {
  }

  /** `b64encode`: three bytes to four characters, the last group padded with `=`. */
  function Encode(bs: seq<byte>): (s: string)
    ensures |s| == 4 * ((|bs| + 2) / 3)
  {
    if bs == [] then []
    else if |bs| == 1 then [Sextet(bs[0] / 4), Sextet(bs[0] % 4 * 16), '=', '=']
    else if |bs| == 2 then
      [Sextet(bs[0] / 4), Sextet(bs[0] % 4 * 16 + bs[1] / 16), Sextet(bs[1] % 16 * 4), '=']
    else EncodeGroup(bs[0], bs[1], bs[2]) + Encode(bs[3..])
  }

  /** Three bytes as four characters. */
  function EncodeGroup(b0: byte, b1: byte, b2: byte): (g: string)
    ensures |g| == 4 && '=' !in g
  {
    [Sextet(b0 / 4), Sextet(b0 % 4 * 16 + b1 / 16), Sextet(b1 % 16 * 4 + b2 / 64), Sextet(b2 % 64)]
  }

  function Byte0(v0: nat, v1: nat): byte
    requires v0 < 64 && v1 < 64
  {
    v0 * 4 + v1 / 16
  }

  function Byte1(v1: nat, v2: nat): byte
    requires v1 < 64 && v2 < 64
  {
    v1 % 16 * 16 + v2 / 4
  }

  function Byte2(v2: nat, v3: nat): byte
    requires v2 < 64 && v3 < 64
  {
    v2 % 4 * 64 + v3
  }

  /** `b64decode` of well-formed text: groups of four characters, padding only at the end. */
  function Decode(s: string): seq<byte>
    decreases |s|
  {
    if |s| < 4 then []
    else
      var v0, v1, v2, v3 := SextetValue(s[0]), SextetValue(s[1]), SextetValue(s[2]), SextetValue(s[3]);
      if s[2] == '=' then [Byte0(v0, v1)]
      else if s[3] == '=' then [Byte0(v0, v1), Byte1(v1, v2)]
      else [Byte0(v0, v1), Byte1(v1, v2), Byte2(v2, v3)] + Decode(s[4..])
  }

  lemma GroupRoundTrip(b0: byte, b1: byte, b2: byte)
    ensures Byte0(b0 / 4, b0 % 4 * 16 + b1 / 16) == b0
    ensures Byte1(b0 % 4 * 16 + b1 / 16, b1 % 16 * 4 + b2 / 64) == b1
    ensures Byte2(b1 % 16 * 4 + b2 / 64, b2 % 64) == b2
  {
    assert (b0 % 4 * 16 + b1 / 16) / 16 == b0 % 4;
    assert (b0 % 4 * 16 + b1 / 16) % 16 == b1 / 16;
    assert (b1 % 16 * 4 + b2 / 64) / 4 == b1 % 16;
    assert (b1 % 16 * 4 + b2 / 64) % 4 == b2 / 64;
  }

  /** A final group of one byte decodes back to that byte. */
  lemma DecodeOneByte(bs: seq<byte>)
    requires |bs| == 1
    ensures Decode(Encode(bs)) == bs
  {
    SextetRoundTrip(bs[0] / 4);
    SextetRoundTrip(bs[0] % 4 * 16);
    GroupRoundTrip(bs[0], 0, 0);
  }

  /** A final group of two bytes decodes back to those bytes. */
  lemma DecodeTwoBytes(bs: seq<byte>)
    requires |bs| == 2
    ensures Decode(Encode(bs)) == bs
  {
    var v0, v1, v2 := bs[0] / 4, bs[0] % 4 * 16 + bs[1] / 16, bs[1] % 16 * 4;
    var s := [Sextet(v0), Sextet(v1), Sextet(v2), '='];
    assert Encode(bs) == s;
    SextetRoundTrip(v0);
    SextetRoundTrip(v1);
    SextetRoundTrip(v2);
    GroupRoundTrip(bs[0], bs[1], 0);
    assert Decode(s) == [Byte0(v0, v1), Byte1(v1, v2)];
  }

  /** Four alphabet characters decode to three bytes, and decoding goes on with the rest. */
  lemma DecodeGroup(v0: nat, v1: nat, v2: nat, v3: nat, rest: string)
    requires v0 < 64 && v1 < 64 && v2 < 64 && v3 < 64
    ensures Decode([Sextet(v0), Sextet(v1), Sextet(v2), Sextet(v3)] + rest)
         == [Byte0(v0, v1), Byte1(v1, v2), Byte2(v2, v3)] + Decode(rest)
  {
    var s := [Sextet(v0), Sextet(v1), Sextet(v2), Sextet(v3)] + rest;
    SextetRoundTrip(v0);
    SextetRoundTrip(v1);
    SextetRoundTrip(v2);
    SextetRoundTrip(v3);
    assert s[4..] == rest;
  }

  /** A whole group decodes back to its three bytes, and decoding goes on with the rest. */
  lemma DecodeWholeGroup(b0: byte, b1: byte, b2: byte, rest: string)
    ensures Decode(EncodeGroup(b0, b1, b2) + rest) == [b0, b1, b2] + Decode(rest)
  {
    DecodeGroup(b0 / 4, b0 % 4 * 16 + b1 / 16, b1 % 16 * 4 + b2 / 64, b2 % 64, rest);
    GroupRoundTrip(b0, b1, b2);
  }

  /** Decoding undoes encoding. */
  lemma {:induction false} DecodeEncode(bs: seq<byte>)
    ensures Decode(Encode(bs)) == bs
  {
    if |bs| == 1 {
      DecodeOneByte(bs);
    } else if |bs| == 2 {
      DecodeTwoBytes(bs);
    } else if |bs| >= 3 {
      DecodeWholeGroup(bs[0], bs[1], bs[2], Encode(bs[3..]));
      DecodeEncode(bs[3..]);
      assert bs == bs[..3] + bs[3..];
    }
  }

  /** Different byte strings have different encodings. */
  lemma EncodeInjective(a: seq<byte>, b: seq<byte>)
    requires Encode(a) == Encode(b)
    ensures a == b
  {
    DecodeEncode(a);
    DecodeEncode(b);
  }

  /** Without a partial last group there is no padding. */
  lemma {:induction false} WholeGroupsUnpadded(bs: seq<byte>)
    requires |bs| % 3 == 0
    ensures '=' !in Encode(bs)
  {
    if bs != [] {
      WholeGroupsUnpadded(bs[3..]);
    }
  }

  /** `s.rstrip("=")`. */
  function StripPadding(s: string): (r: string)
    ensures r <= s
    ensures r == [] || r[|r| - 1] != '='
    ensures forall i :: |r| <= i < |s| ==> s[i] == '='
  {
    if s != [] && s[|s| - 1] == '=' then
      var r := StripPadding(s[..|s| - 1]);
      assert forall i :: |r| <= i < |s| - 1 ==> s[..|s| - 1][i] == s[i];
      r
    else s
  }

  lemma StripPaddingNoop(s: string)
    requires '=' !in s
    ensures StripPadding(s) == s
  {
  }
}
