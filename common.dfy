/** Shared vocabulary: bytes, optional values, results, fixed-width integers. */
module Common {

  /** An 8-bit unsigned value, as stored in `Data`, `bytearray` and `uint8_t`. */
  type byte = b: int | 0 <= b < 256

  datatype Option<+T> = None | Some(value: T)

  datatype Result<+T, +E> = Ok(value: T) | Err(error: E)

  const TWO_32: int := 0x1_0000_0000
  const TWO_31: int := 0x8000_0000

  /** `n` zero bytes. */
  function Zeros(n: nat): (r: seq<byte>)
    ensures |r| == n
    ensures forall i :: 0 <= i < n ==> r[i] == 0
  {
    seq(n, _ => 0)
  }

  predicate AllZero(s: seq<byte>)
  {
    forall i :: 0 <= i < |s| ==> s[i] == 0
  }

  /** Quotient and remainder by 256 are unique. */
  lemma DivMod256(x: int, q: int, r: int)
    requires 0 <= r < 256 && x == q * 256 + r
    ensures x / 256 == q && x % 256 == r
  {
  }

  // ---------------------------------------------------------------------------
  // Little-endian unsigned 32-bit words (struct "<I", int.to_bytes(4, "little"))

  function U32LE(x: nat): (r: seq<byte>)
    requires x < TWO_32
    ensures |r| == 4
  {
    [x % 256, (x / 256) % 256, (x / 256 / 256) % 256, x / 256 / 256 / 256]
  }

  function DecodeU32LE(b: seq<byte>): (x: nat)
    requires |b| == 4
    ensures x < TWO_32
  {
    b[0] as int + 256 * (b[1] as int + 256 * (b[2] as int + 256 * (b[3] as int)))
  }

  lemma U32LERoundTrip(x: nat)
    requires x < TWO_32
    ensures DecodeU32LE(U32LE(x)) == x
  {
    var q1 := x / 256;
    var q2 := q1 / 256;
    var q3 := q2 / 256;
    assert x == x % 256 + 256 * q1;
    assert q1 == q1 % 256 + 256 * q2;
    assert q2 == q2 % 256 + 256 * q3;
  }

  lemma U32LEOfDecode(b: seq<byte>)
    requires |b| == 4
    ensures U32LE(DecodeU32LE(b)) == b
  {
    var x := DecodeU32LE(b);
    var hi2 := b[2] as int + 256 * (b[3] as int);
    var hi := b[1] as int + 256 * hi2;
    DivMod256(x, hi, b[0]);
    DivMod256(hi, hi2, b[1]);
    DivMod256(hi2, b[3], b[2]);
  }

  // ---------------------------------------------------------------------------
  // Big-endian signed 32-bit integers (Int32(bigEndian:))

  predicate IsInt32(x: int)
  {
    -TWO_31 <= x < TWO_31
  }

  /** Four bytes, most significant first, as an unsigned value. */
  function DecodeU32BE(b: seq<byte>): (x: nat)
    requires |b| == 4
    ensures x < TWO_32
  {
    DecodeU32LE([b[3], b[2], b[1], b[0]])
  }

  /** Two's-complement reading of four big-endian bytes. */
  function DecodeInt32BE(b: seq<byte>): (x: int)
    requires |b| == 4
    ensures IsInt32(x)
  {
    var u := DecodeU32BE(b);
    if u < TWO_31 then u else u - TWO_32
  }

  /** The four big-endian two's-complement bytes of a 32-bit signed value. */
  function EncodeInt32BE(x: int): (r: seq<byte>)
    requires IsInt32(x)
    ensures |r| == 4
  {
    var le := U32LE(if x < 0 then x + TWO_32 else x);
    [le[3], le[2], le[1], le[0]]
  }

  lemma Int32BERoundTrip(x: int)
    requires IsInt32(x)
    ensures DecodeInt32BE(EncodeInt32BE(x)) == x
  {
    var u := if x < 0 then x + TWO_32 else x;
    var le := U32LE(u);
    U32LERoundTrip(u);
    assert [le[0], le[1], le[2], le[3]] == le;
  }

  lemma Int32BEOfDecode(b: seq<byte>)
    requires |b| == 4
    ensures EncodeInt32BE(DecodeInt32BE(b)) == b
  {
    var le := [b[3], b[2], b[1], b[0]];
    U32LEOfDecode(le);
  }

  // ---------------------------------------------------------------------------
  // Sequences

  /** `s` back to front (Python's `[::-1]`). */
  function Reversed<T>(s: seq<T>): (r: seq<T>)
    ensures |r| == |s|
  {
    if s == [] then [] else Reversed(s[1..]) + [s[0]]
  }

  lemma {:induction false} ReversedAt<T>(s: seq<T>, k: nat)
    requires k < |s|
    ensures Reversed(s)[k] == s[|s| - 1 - k]
  {
    if k < |s| - 1 {
      ReversedAt(s[1..], k);
    }
  }
}
