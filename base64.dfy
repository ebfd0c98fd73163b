/**
 * Standard Base64 with padding (the alphabet of section 4 of RFC 4648), as Foundation's
 * `base64EncodedString()` produces it. Report ids and key exports are Base64 strings.
 */
module Base64 {
  import opened Common

  /** The character for a six-bit value: A-Z, a-z, 0-9, '+', '/'. */
  function Digit(i: nat): (c: char)
    requires i < 64
  {
    if i < 26 then ('A' as int + i) as char
    else if i < 52 then ('a' as int + i - 26) as char
    else if i < 62 then ('0' as int + i - 52) as char
    else if i == 62 then '+'
    else '/'
  }

  /** The six-bit value of an alphabet character (0 for anything else). */
  function DigitValue(c: char): nat
  {
    if 'A' <= c <= 'Z' then c as int - 'A' as int
    else if 'a' <= c <= 'z' then c as int - 'a' as int + 26
    else if '0' <= c <= '9' then c as int - '0' as int + 52
    else if c == '+' then 62
    else if c == '/' then 63
    else 0
  }

  lemma DigitRoundTrip(i: nat)
    requires i < 64
    ensures DigitValue(Digit(i)) == i && DigitValue(Digit(i)) % 64 == i && Digit(i) != '='
  {
  }

  function EncodeBlock(b0: byte, b1: byte, b2: byte): (r: string)
  {
    [Digit(b0 / 4), Digit((b0 % 4) * 16 + b1 / 16), Digit((b1 % 16) * 4 + b2 / 64), Digit(b2 % 64)]
  }

  /** `base64EncodedString()`: four characters per three bytes, the last group padded with '='. */
  function Encode(s: seq<byte>): (r: string)
    ensures |r| == 4 * ((|s| + 2) / 3)
  {
    if |s| == 0 then ""
    else if |s| == 1 then [Digit(s[0] / 4), Digit((s[0] % 4) * 16), '=', '=']
    else if |s| == 2 then [Digit(s[0] / 4), Digit((s[0] % 4) * 16 + s[1] / 16), Digit((s[1] % 16) * 4), '=']
    else EncodeBlock(s[0], s[1], s[2]) + Encode(s[3..])
  }

  function DecodeBlock(t: string): (r: seq<byte>)
    requires |t| == 4
    ensures |r| == 3
  {
    var v0, v1, v2, v3 := DigitValue(t[0]) % 64, DigitValue(t[1]) % 64, DigitValue(t[2]) % 64, DigitValue(t[3]) % 64;
    [v0 * 4 + v1 / 16, (v1 % 16) * 16 + v2 / 4, (v2 % 4) * 64 + v3]
  }

  /** The inverse of `Encode` on its image; it makes no claim about other strings. */
  function Decode(t: string): seq<byte>
  {
    if |t| < 4 then []
    else if |t| == 4 && t[2] == '=' then [DecodeBlock(t)[0]]
    else if |t| == 4 && t[3] == '=' then DecodeBlock(t)[..2]
    else DecodeBlock(t[..4]) + Decode(t[4..])
  }

  lemma DivMod16(x: int, q: int, r: int)
    requires 0 <= r < 16 && x == q * 16 + r
    ensures x / 16 == q && x % 16 == r
  {
  }

  lemma DivMod4(x: int, q: int, r: int)
    requires 0 <= r < 4 && x == q * 4 + r
    ensures x / 4 == q && x % 4 == r
  {
  }

  lemma DivMod64(x: int, q: int, r: int)
    requires 0 <= r < 64 && x == q * 64 + r
    ensures x / 64 == q && x % 64 == r
  {
  }

  /** The four six-bit groups of three bytes put back together give the bytes. */
  lemma Regroup(b0: byte, b1: byte, b2: byte)
    ensures var v1, v2 := (b0 % 4) * 16 + b1 / 16, (b1 % 16) * 4 + b2 / 64;
      v1 < 64 && v2 < 64 &&
      (b0 / 4) * 4 + v1 / 16 == b0 && (v1 % 16) * 16 + v2 / 4 == b1 && (v2 % 4) * 64 + b2 % 64 == b2
  {
    var v1, v2 := (b0 % 4) * 16 + b1 / 16, (b1 % 16) * 4 + b2 / 64;
    DivMod4(b0, b0 / 4, b0 % 4);
    DivMod16(b1, b1 / 16, b1 % 16);
    DivMod64(b2, b2 / 64, b2 % 64);
    DivMod16(v1, b0 % 4, b1 / 16);
    DivMod4(v2, b1 % 16, b2 / 64);
  }

  /** Four alphabet characters decode to the bytes their six-bit values spell. */
  lemma DecodeDigits(v0: nat, v1: nat, v2: nat, v3: nat)
    requires v0 < 64 && v1 < 64 && v2 < 64 && v3 < 64
    ensures DecodeBlock([Digit(v0), Digit(v1), Digit(v2), Digit(v3)]) == [v0 * 4 + v1 / 16, (v1 % 16) * 16 + v2 / 4, (v2 % 4) * 64 + v3]
  {
    var t := [Digit(v0), Digit(v1), Digit(v2), Digit(v3)];
    DigitRoundTrip(v0);
    DigitRoundTrip(v1);
    DigitRoundTrip(v2);
    DigitRoundTrip(v3);
    assert DigitValue(t[0]) % 64 == v0 && DigitValue(t[1]) % 64 == v1;
    assert DigitValue(t[2]) % 64 == v2 && DigitValue(t[3]) % 64 == v3;
  }

  lemma BlockRoundTrip(b0: byte, b1: byte, b2: byte)
    ensures DecodeBlock(EncodeBlock(b0, b1, b2)) == [b0, b1, b2]
    ensures EncodeBlock(b0, b1, b2)[2] != '=' && EncodeBlock(b0, b1, b2)[3] != '='
  {
    var v1, v2 := (b0 % 4) * 16 + b1 / 16, (b1 % 16) * 4 + b2 / 64;
    Regroup(b0, b1, b2);
    DecodeDigits(b0 / 4, v1, v2, b2 % 64);
    DigitRoundTrip(v2);
    DigitRoundTrip(b2 % 64);
  }

  /** A final group of one byte decodes like a full block padded with zero bytes. */
  lemma OneByteRoundTrip(b0: byte)
    ensures Decode(Encode([b0])) == [b0]
  {
    var t := Encode([b0]);
    BlockRoundTrip(b0, 0, 0);
    var block := EncodeBlock(b0, 0, 0);
    assert t == block[..2] + ['=', '='];
    assert DecodeBlock(t)[0] == DecodeBlock(block)[0];
  }

  /** A final group of two bytes decodes like a full block padded with a zero byte. */
  lemma TwoBytesRoundTrip(b0: byte, b1: byte)
    ensures Decode(Encode([b0, b1])) == [b0, b1]
  {
    var t := Encode([b0, b1]);
    BlockRoundTrip(b0, b1, 0);
    var block := EncodeBlock(b0, b1, 0);
    assert t == block[..3] + ['='];
    assert DecodeBlock(t)[..2] == DecodeBlock(block)[..2];
  }

  /** Encoding three or more bytes starts with a full block, which decoding takes back first. */
  lemma DecodeEncodeStep(s: seq<byte>)
    requires |s| >= 3
    ensures Decode(Encode(s)) == [s[0], s[1], s[2]] + Decode(Encode(s[3..]))
  {
    var t := Encode(s);
    var block := EncodeBlock(s[0], s[1], s[2]);
    BlockRoundTrip(s[0], s[1], s[2]);
    assert t[..4] == block && t[4..] == Encode(s[3..]);
    if |t| == 4 {
      assert t[2] == block[2] && t[3] == block[3];
    }
  }

  lemma SplitThree(s: seq<byte>)
    requires |s| >= 3
    ensures s == [s[0], s[1], s[2]] + s[3..]
  {
  }

  lemma {:induction false} DecodeEncode(s: seq<byte>)
    ensures Decode(Encode(s)) == s
    decreases |s|
  {
    if |s| == 1 {
      OneByteRoundTrip(s[0]);
      assert s == [s[0]];
    } else if |s| == 2 {
      TwoBytesRoundTrip(s[0], s[1]);
      assert s == [s[0], s[1]];
    } else if |s| >= 3 {
      DecodeEncodeStep(s);
      DecodeEncode(s[3..]);
      SplitThree(s);
    }
  }

  /** Distinct byte strings have distinct encodings. */
  lemma EncodeInjective(a: seq<byte>, b: seq<byte>)
    requires Encode(a) == Encode(b)
    ensures a == b
  {
    DecodeEncode(a);
    DecodeEncode(b);
  }
}
