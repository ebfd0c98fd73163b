/** Decimal and hexadecimal numerals as the Swift, Python and JavaScript runtimes print and parse them. */
module Numerals {
  import opened Common

  const INT64_MIN: int := -0x8000_0000_0000_0000
  const INT64_MAX: int := 0x7FFF_FFFF_FFFF_FFFF

  /** Swift's `Int` on a 64-bit platform. */
  predicate IsInt64(x: int)
  {
    INT64_MIN <= x <= INT64_MAX
  }

  // ---------------------------------------------------------------------------
  // Decimal

  predicate IsDigit(c: char)
  {
    '0' <= c <= '9'
  }

  predicate AllDigits(s: string)
  {
    forall i :: 0 <= i < |s| ==> IsDigit(s[i])
  }

  function DigitChar(d: nat): (c: char)
    requires d < 10
    ensures IsDigit(c)
  {
    ('0' as int + d) as char
  }

  function DigitsValue(s: string): nat
    requires AllDigits(s)
  {
    if s == [] then 0
    else 10 * DigitsValue(s[..|s| - 1]) + (s[|s| - 1] as int - '0' as int)
  }

  /** The shortest decimal numeral of `n`. */
  function NatToString(n: nat): (s: string)
    ensures s != [] && AllDigits(s)
  {
    if n < 10 then [DigitChar(n)] else NatToString(n / 10) + [DigitChar(n % 10)]
  }

  lemma {:induction false} NatToStringValue(n: nat)
    ensures DigitsValue(NatToString(n)) == n
  {
    var s := NatToString(n);
    if n >= 10 {
      NatToStringValue(n / 10);
      assert s[..|s| - 1] == NatToString(n / 10);
    }
  }

  /** Swift's `String(_: Int)` and Python's `%d`. */
  function IntToString(x: int): (s: string)
  {
    if x < 0 then "-" + NatToString(-x) else NatToString(x)
  }

  /**
   * Swift's `Int(_: String)`: an optional `+` or `-`, then at least one ASCII digit and nothing
   * else; `nil` when the value does not fit in 64 bits.
   */
  function ParseInt(s: string): (r: Option<int>)
    ensures r.Some? ==> IsInt64(r.value)
  {
    if s == [] then None
    else
      var negative := s[0] == '-';
      var digits := if s[0] == '-' || s[0] == '+' then s[1..] else s;
      if digits == [] || !AllDigits(digits) then None
      else
        var n: int := DigitsValue(digits);
        var v := if negative then -n else n;
        if IsInt64(v) then Some(v) else None
  }

  lemma ParseIntOfIntToString(x: int)
    requires IsInt64(x)
    ensures ParseInt(IntToString(x)) == Some(x)
  {
    NatToStringValue(if x < 0 then -x else x);
    if x < 0 {
      assert ("-" + NatToString(-x))[1..] == NatToString(-x);
    }
  }

  // ---------------------------------------------------------------------------
  // Hexadecimal

  function HexDigitChar(d: nat): (c: char)
    requires d < 16
  {
    if d < 10 then ('0' as int + d) as char else ('a' as int + d - 10) as char
  }

  predicate IsHexDigit(c: char)
  {
    '0' <= c <= '9' || 'a' <= c <= 'f'
  }

  function HexDigitValue(c: char): (d: nat)
    requires IsHexDigit(c)
    ensures d < 16
  {
    if '0' <= c <= '9' then c as int - '0' as int else c as int - 'a' as int + 10
  }

  lemma HexDigitRoundTrip(d: nat)
    requires d < 16
    ensures IsHexDigit(HexDigitChar(d)) && HexDigitValue(HexDigitChar(d)) == d
  {
  }

  predicate AllHexDigits(s: string)
  {
    forall i :: 0 <= i < |s| ==> IsHexDigit(s[i])
  }

  /** Value of a lower-case hexadecimal numeral (Python's `int(s, 16)`, JavaScript's `parseInt(s, 16)`). */
  function HexValue(s: string): nat
    requires AllHexDigits(s)
  {
    if s == [] then 0 else 16 * HexValue(s[..|s| - 1]) + HexDigitValue(s[|s| - 1])
  }

  /**
   * The shortest lower-case hexadecimal numeral of `n`, without prefix or padding
   * (Swift's `String(n, radix: 16)`, Python's `format(n, "x")`).
   */
  function ToHex(n: nat): (s: string)
    ensures s != [] && AllHexDigits(s)
  {
    if n < 16 then [HexDigitChar(n)] else ToHex(n / 16) + [HexDigitChar(n % 16)]
  }

  lemma {:induction false} ToHexValue(n: nat)
    ensures HexValue(ToHex(n)) == n
  {
    var s := ToHex(n);
    if n >= 16 {
      ToHexValue(n / 16);
      assert s[..|s| - 1] == ToHex(n / 16);
      HexDigitRoundTrip(n % 16);
    } else {
      HexDigitRoundTrip(n);
    }
  }

  /** A byte takes one hex digit below 16 and two otherwise. */
  lemma ToHexByteLength(b: byte)
    ensures |ToHex(b)| == if b < 16 then 1 else 2
  {
  }

  /**
   * Python's `bytearray.fromhex` on a string of lower-case hex digit pairs; `None` where Python
   * raises `ValueError` (an odd length or a character that is not a hex digit).
   */
  function FromHex(s: string): (r: Option<seq<byte>>)
    ensures r.Some? ==> 2 * |r.value| == |s|
  {
    if s == [] then Some([])
    else if |s| < 2 || !IsHexDigit(s[0]) || !IsHexDigit(s[1]) then None
    else match FromHex(s[2..])
      case None => None
      case Some(rest) => Some([16 * HexDigitValue(s[0]) + HexDigitValue(s[1])] + rest)
  }

  lemma FromHexPair(c0: char, c1: char)
    requires IsHexDigit(c0) && IsHexDigit(c1)
    ensures FromHex([c0, c1]) == Some([16 * HexDigitValue(c0) + HexDigitValue(c1)])
  {
    var s := [c0, c1];
    assert s[2..] == [];
    assert FromHex(s[2..]) == Some([]);
    var v: seq<byte> := [16 * HexDigitValue(c0) + HexDigitValue(c1)];
    assert v + [] == v;
  }

  lemma {:induction false} FromHexAppend(a: string, b: string)
    requires |a| % 2 == 0
    ensures FromHex(a + b) ==
      if FromHex(a).Some? && FromHex(b).Some? then Some(FromHex(a).value + FromHex(b).value) else None
    decreases |a|
  {
    if a == [] {
      assert a + b == b;
      if FromHex(b).Some? {
        assert FromHex(a).value + FromHex(b).value == FromHex(b).value;
      }
    } else {
      assert (a + b)[2..] == a[2..] + b;
      assert (a + b)[0] == a[0] && (a + b)[1] == a[1];
      FromHexAppend(a[2..], b);
      if IsHexDigit(a[0]) && IsHexDigit(a[1]) && FromHex(a[2..]).Some? && FromHex(b).Some? {
        var h := [16 * HexDigitValue(a[0]) + HexDigitValue(a[1])];
        assert FromHex(a).value == h + FromHex(a[2..]).value;
        assert FromHex(a + b).value == h + (FromHex(a[2..]).value + FromHex(b).value);
        assert h + (FromHex(a[2..]).value + FromHex(b).value) == (h + FromHex(a[2..]).value) + FromHex(b).value;
      }
    }
  }
}
