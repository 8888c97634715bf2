/**
 * Base64 as defined in section 4 of RFC 4648 (alphabet A-Z a-z 0-9 + /,
 * padding '='): the encoding the document listing applies to stored images,
 * and the decoding a client applies to get the bytes back.
 */
module Base64 {
  import opened Common

  /** A six-bit value: one character of the encoding. */
  type sextet = x: int | 0 <= x < 64

  const Pad: char := '='

  /** The character for `v` in the RFC 4648 section 4 alphabet. */
  function CharOf(v: sextet): char {
    if v < 26 then ('A' as int + v) as char
    else if v < 52 then ('a' as int + (v - 26)) as char
    else if v < 62 then ('0' as int + (v - 52)) as char
    else if v == 62 then '+'
    else '/'
  }

  /** The value of an alphabet character; `None` for anything else, padding included. */
  function ValueOf(c: char): (r: Option<sextet>)
    ensures r.Some? ==> CharOf(r.value) == c
  {
    if 'A' <= c <= 'Z' then Some(c as int - 'A' as int)
    else if 'a' <= c <= 'z' then Some(c as int - 'a' as int + 26)
    else if '0' <= c <= '9' then Some(c as int - '0' as int + 52)
    else if c == '+' then Some(62)
    else if c == '/' then Some(63)
    else None
  }

  lemma ValueOfCharOf(v: sextet)
    ensures ValueOf(CharOf(v)) == Some(v) && CharOf(v) != Pad
  {
  }

  /** Three bytes as four characters. */
  function EncodeGroup(b0: byte, b1: byte, b2: byte): string {
    [CharOf(b0 / 4), CharOf(b0 % 4 * 16 + b1 / 16), CharOf(b1 % 16 * 4 + b2 / 64), CharOf(b2 % 64)]
  }

  /** `base64.b64encode`: groups of three bytes, the last group padded with '='. */
  function Encode(b: seq<byte>): (s: string)
    ensures |s| == 4 * ((|b| + 2) / 3)
  {
    if |b| == 0 then []
    else if |b| == 1 then [CharOf(b[0] / 4), CharOf(b[0] % 4 * 16), Pad, Pad]
    else if |b| == 2 then [CharOf(b[0] / 4), CharOf(b[0] % 4 * 16 + b[1] / 16), CharOf(b[1] % 16 * 4), Pad]
    else EncodeGroup(b[0], b[1], b[2]) + Encode(b[3..])
  }

  /** Decoding: four characters at a time; padding only in the last group. */
  function Decode(s: string): Option<seq<byte>>
    decreases |s|
  {
    if s == [] then Some([])
    else if |s| < 4 then None
    else
      var v0, v1, v2, v3 := ValueOf(s[0]), ValueOf(s[1]), ValueOf(s[2]), ValueOf(s[3]);
      if v0.None? || v1.None? then None
      else if |s| == 4 && s[2] == Pad && s[3] == Pad then
        Some([v0.value * 4 + v1.value / 16])
      else if v2.None? then None
      else if |s| == 4 && s[3] == Pad then
        Some([v0.value * 4 + v1.value / 16, v1.value % 16 * 16 + v2.value / 4])
      else if v3.None? then None
      else match Decode(s[4..])
        case None => None
        case Some(rest) =>
          Some([v0.value * 4 + v1.value / 16, v1.value % 16 * 16 + v2.value / 4, v2.value % 4 * 64 + v3.value] + rest)
  }

  /** Splitting three bytes into four sextets loses nothing. */
  lemma GroupBits(b0: byte, b1: byte, b2: byte)
    ensures b0 / 4 * 4 + (b0 % 4 * 16 + b1 / 16) / 16 == b0
    ensures (b0 % 4 * 16 + b1 / 16) % 16 * 16 + (b1 % 16 * 4 + b2 / 64) / 4 == b1
    ensures (b1 % 16 * 4 + b2 / 64) % 4 * 64 + b2 % 64 == b2
  {
    assert (b0 % 4 * 16 + b1 / 16) / 16 == b0 % 4;
    assert (b0 % 4 * 16 + b1 / 16) % 16 == b1 / 16;
    assert (b1 % 16 * 4 + b2 / 64) / 4 == b1 % 16;
    assert (b1 % 16 * 4 + b2 / 64) % 4 == b2 / 64;
  }

  /** Decoding an encoding gives back the original bytes (the client's `b64decode`). */
  lemma {:induction false} DecodeEncode(b: seq<byte>)
    ensures Decode(Encode(b)) == Some(b)
    decreases |b|
  {
    if |b| == 1 {
      DecodeOneByte(b[0]);
      assert b == [b[0]];
    } else if |b| == 2 {
      DecodeTwoBytes(b[0], b[1]);
      assert b == [b[0], b[1]];
    } else if |b| >= 3 {
      DecodeEncode(b[3..]);
      DecodeGroup(b[0], b[1], b[2], Encode(b[3..]), b[3..]);
      assert b == [b[0], b[1], b[2]] + b[3..];
    }
  }

  lemma DecodeOneByte(b0: byte)
    ensures Decode([CharOf(b0 / 4), CharOf(b0 % 4 * 16), Pad, Pad]) == Some([b0])
  {
    ValueOfCharOf(b0 / 4);
    ValueOfCharOf(b0 % 4 * 16);
    assert b0 % 4 * 16 / 16 == b0 % 4;
  }

  lemma DecodeTwoBytes(b0: byte, b1: byte)
    ensures Decode([CharOf(b0 / 4), CharOf(b0 % 4 * 16 + b1 / 16), CharOf(b1 % 16 * 4), Pad]) == Some([b0, b1])
  {
    ValueOfCharOf(b0 / 4);
    ValueOfCharOf(b0 % 4 * 16 + b1 / 16);
    ValueOfCharOf(b1 % 16 * 4);
    GroupBits(b0, b1, 0);
  }

  lemma DecodeGroup(b0: byte, b1: byte, b2: byte, s: string, rest: seq<byte>)
    requires Decode(s) == Some(rest)
    ensures Decode(EncodeGroup(b0, b1, b2) + s) == Some([b0, b1, b2] + rest)
  {
    var t := EncodeGroup(b0, b1, b2) + s;
    ValueOfCharOf(b0 / 4);
    ValueOfCharOf(b0 % 4 * 16 + b1 / 16);
    ValueOfCharOf(b1 % 16 * 4 + b2 / 64);
    ValueOfCharOf(b2 % 64);
    GroupBits(b0, b1, b2);
    assert t[4..] == s;
  }

  /**
   * `Decode` is lenient like `b64decode`: the unused low bits of a padded last
   * group are ignored, so a non-canonical text decodes too. It is strict where
   * `b64decode` by default is not: a character outside the alphabet is refused.
   */
  lemma DecodeLeniency()
    ensures Encode([0]) == "AA==" && Decode("AB==") == Some([0])
    ensures Decode("A*==") == None
  {
    assert CharOf(0) == 'A';
  }
}
