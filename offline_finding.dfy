/**
 * The offline-finding advertisement that every OpenHaystack firmware broadcasts, as a value:
 * the 31-byte advertising-data structure (one Manufacturer Specific Data element, section 1.4 of
 * Part A of the Bluetooth Core Specification Supplement) and the static random device address
 * (section 1.3.2.1 of Vol 6 Part B of the Bluetooth Core Specification), both cut from a 28-byte
 * advertisement key. The firmware modules fill their buffers in place and are proved to produce
 * exactly these values.
 */
module OfflineFinding {
  import opened Common

  const KEY_LENGTH: nat := 28
  const ADV_LENGTH: nat := 31
  const ADDR_LENGTH: nat := 6

  /** The template's first seven bytes: length 0x1E, type 0xFF, company 4C 00, type 0x12, length 0x19, state 0. */
  const HEADER: seq<byte> := [0x1E, 0xFF, 0x4C, 0x00, 0x12, 0x19, 0x00]

  /** The key the firmware images carry until the app patches in a real one. */
  const PLACEHOLDER_KEY: string := "OFFLINEFINDINGPUBLICKEYHERE!"

  predicate IsKey(key: seq<byte>)
  {
    |key| == KEY_LENGTH
  }

  /** The unfilled advertisement: header, 22 key bytes, the two-bit slot and the hint, all zero. */
  function Template(): (t: seq<byte>)
    ensures |t| == ADV_LENGTH
    ensures t[..7] == HEADER && AllZero(t[7..])
  {
    HEADER + Zeros(22) + [0, 0]
  }

  /** `b >> 6` on an unsigned byte. */
  function TopTwoBits(b: byte): (r: byte)
    ensures r < 4 && r * 64 <= b < r * 64 + 64
  {
    b / 64
  }

  /** `b | 0b11000000` on an unsigned byte. */
  function WithTopTwoBitsSet(b: byte): (r: byte)
    ensures r >= 0xC0 && r % 64 == b % 64
  {
    b % 64 + 0xC0
  }

  /**
   * The advertisement for `key`: the template with bytes 7..29 replaced by `key[6..28]` and byte 29
   * by the top two bits of `key[0]`.
   */
  function Payload(key: seq<byte>): (adv: seq<byte>)
    requires IsKey(key)
    ensures |adv| == ADV_LENGTH
  {
    HEADER + key[6..28] + [TopTwoBits(key[0]), 0]
  }

  lemma PayloadLayout(key: seq<byte>)
    requires IsKey(key)
    ensures Payload(key)[..7] == Template()[..7]
    ensures Payload(key)[7..29] == key[6..28]
    ensures Payload(key)[29] == key[0] / 64 < 4
    ensures Payload(key)[30] == Template()[30] == 0
  {
    var adv := Payload(key);
    assert adv[..7] == HEADER;
    assert adv[7..29] == key[6..28];
  }

  /** The device address in key order: `key[0..6]` with the two top bits of the first byte set. */
  function Address(key: seq<byte>): (addr: seq<byte>)
    requires IsKey(key)
    ensures |addr| == ADDR_LENGTH
  {
    [WithTopTwoBitsSet(key[0])] + key[1..6]
  }

  /** Every address is a static random address: the two most significant bits are 1. */
  lemma AddressIsStaticRandom(key: seq<byte>)
    requires IsKey(key)
    ensures Address(key)[0] / 64 == 3
    ensures Address(key)[1..] == key[1..6]
  {
  }

  /** A scanner's reconstruction of the key from what it hears: address plus advertisement. */
  function RecoverKey(addr: seq<byte>, adv: seq<byte>): (key: seq<byte>)
    requires |addr| == ADDR_LENGTH && |adv| == ADV_LENGTH && adv[29] < 4
    ensures IsKey(key)
  {
    [addr[0] % 64 + 64 * adv[29]] + addr[1..6] + adv[7..29]
  }

  /** No key bit is lost: address and advertisement together determine the key. */
  lemma RecoverKeyCorrect(key: seq<byte>)
    requires IsKey(key)
    ensures Payload(key)[29] < 4
    ensures RecoverKey(Address(key), Payload(key)) == key
  {
    var k := RecoverKey(Address(key), Payload(key));
    PayloadLayout(key);
    assert k[0] == key[0];
    assert k[1..6] == key[1..6];
    assert k[6..] == key[6..];
    assert k == k[..1] + k[1..6] + k[6..];
    assert key == key[..1] + key[1..6] + key[6..];
  }

  /** Distinct keys give distinct (address, advertisement) pairs. */
  lemma BroadcastInjective(k1: seq<byte>, k2: seq<byte>)
    requires IsKey(k1) && IsKey(k2)
    requires Address(k1) == Address(k2) && Payload(k1) == Payload(k2)
    ensures k1 == k2
  {
    RecoverKeyCorrect(k1);
    RecoverKeyCorrect(k2);
  }

  /** The placeholder is 28 ASCII characters, the size of a key. */
  lemma PlaceholderIsKeySized()
    ensures |PLACEHOLDER_KEY| == KEY_LENGTH
    ensures forall i :: 0 <= i < |PLACEHOLDER_KEY| ==> PLACEHOLDER_KEY[i] as int < 128
  {
  }

  /** The placeholder's bytes, as the firmware images store it and the app searches for it. */
  function PlaceholderBytes(): (b: seq<byte>)
    ensures IsKey(b)
    ensures forall i :: 0 <= i < |b| ==> b[i] == PLACEHOLDER_KEY[i] as int
  {
    seq(|PLACEHOLDER_KEY|, i requires 0 <= i < |PLACEHOLDER_KEY| => PLACEHOLDER_KEY[i] as int as byte)
  }
}
