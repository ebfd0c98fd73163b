/**
 * The Linux HCI beacon script (`Firmware/Linux_HCI/HCI.py`): the advertisement template, the
 * address and payload it cuts from a key, and the hex strings it hands to `hcitool`.
 */
module Hci {
  import opened Common
  import opened Numerals
  import OfflineFinding

  /** Python raises `IndexError` when the key is too short for an index assignment. */
  datatype HciError = IndexError

  /** What `start_advertising` sends: the address, the payload and the address as `hcitool` arguments. */
  datatype Broadcast = Broadcast(addr: seq<byte>, adv: seq<byte>, macAddress: seq<string>)

  function Min(a: int, b: int): int
  {
    if a < b then a else b
  }

  lemma HexPieces()
    ensures FromHex("1e") == Some([0x1E]) && FromHex("ff") == Some([0xFF])
    ensures FromHex("4c00") == Some([0x4C, 0x00]) && FromHex("1219") == Some([0x12, 0x19])
    ensures FromHex("00") == Some([0x00])
  {
    FromHexPair('1', 'e');
    FromHexPair('f', 'f');
    FromHexPair('4', 'c');
    FromHexPair('0', '0');
    FromHexPair('1', '2');
    FromHexPair('1', '9');
    FromHexAppend("4c", "00");
    assert "4c" + "00" == "4c00";
    var b1: seq<byte>, b2: seq<byte> := [0x4C], [0x00];
    assert b1 + b2 == [0x4C, 0x00];
    FromHexAppend("12", "19");
    assert "12" + "19" == "1219";
    var b3: seq<byte>, b4: seq<byte> := [0x12], [0x19];
    assert b3 + b4 == [0x12, 0x19];
  }

  /** The first lines of `advertisement_template`: length, type, company id, offline-finding type and state. */
  method HeaderHex() returns (hex: string)
    ensures |hex| % 2 == 0
    ensures FromHex(hex) == Some(OfflineFinding.HEADER)
  {
    HexPieces();
    hex := "";
    ghost var bytes: seq<byte> := [];
    assert FromHex(hex) == Some(bytes);
    FromHexAppend(hex, "1e");
    hex, bytes := hex + "1e", bytes + [0x1E];
    FromHexAppend(hex, "ff");
    hex, bytes := hex + "ff", bytes + [0xFF];
    FromHexAppend(hex, "4c00");
    hex, bytes := hex + "4c00", bytes + [0x4C, 0x00];
    FromHexAppend(hex, "1219");
    hex, bytes := hex + "1219", bytes + [0x12, 0x19];
    FromHexAppend(hex, "00");
    hex, bytes := hex + "00", bytes + [0x00];
    assert bytes == OfflineFinding.HEADER;
  }

  /** `advertisement_template`: the template is assembled as hex text, then parsed. */
  method AdvertisementTemplate() returns (adv: seq<byte>)
    ensures adv == OfflineFinding.Template()
  {
    HexPieces();
    var hex := HeaderHex();
    assert OfflineFinding.HEADER == OfflineFinding.HEADER + Zeros(0);
    var i := 0;
    while i < 22
      invariant 0 <= i <= 22
      invariant |hex| % 2 == 0
      invariant FromHex(hex) == Some(OfflineFinding.HEADER + Zeros(i))
    {
      FromHexAppend(hex, "00");
      assert OfflineFinding.HEADER + Zeros(i) + [0] == OfflineFinding.HEADER + Zeros(i + 1);
      hex := hex + "00";
      i := i + 1;
    }
    FromHexAppend(hex, "00");
    hex := hex + "00";
    FromHexAppend(hex, "00");
    hex := hex + "00";
    adv := FromHex(hex).value;
  }

  lemma ToHexValueAll(bytes: seq<byte>)
    ensures forall i :: 0 <= i < |bytes| ==> HexValue(ToHex(bytes[i])) == bytes[i]
  {
    forall i | 0 <= i < |bytes|
      ensures HexValue(ToHex(bytes[i])) == bytes[i]
    {
      ToHexValue(bytes[i]);
    }
  }

  /**
   * `bytes_to_strarray`: each byte as lower-case hex without padding, after "0x" when
   * `withPrefix` (Python's `hex`) and bare otherwise (`format(b, "x")`). Each string reads back
   * as its byte.
   */
  function BytesToStrArray(bytes: seq<byte>, withPrefix: bool): (r: seq<string>)
    ensures |r| == |bytes|
    ensures forall i :: 0 <= i < |r| ==>
      var p := if withPrefix then 2 else 0;
      |r[i]| > p && r[i][..p] == (if withPrefix then "0x" else "") &&
      AllHexDigits(r[i][p..]) && HexValue(r[i][p..]) == bytes[i]
  {
    ToHexValueAll(bytes);
    seq(|bytes|, i requires 0 <= i < |bytes| => (if withPrefix then "0x" else "") + ToHex(bytes[i]))
  }

  /**
   * Lines 41-57 of `start_advertising`: `addr` is the first six key bytes with the top two bits
   * of the first set, `adv` is the template with `key[6:28]` spliced in and byte 29 set to
   * `key[0] >> 6`, and the address arguments are reversed unless asked not to be. The key length
   * is not checked: a key of 27 bytes shrinks the payload to 30 bytes, and a shorter key raises.
   */
  method StartAdvertising(key: seq<byte>, noMacAddressReverse: bool) returns (r: Result<Broadcast, HciError>)
    ensures r.Ok? <==> |key| >= 27
    ensures |key| >= 28 ==> (r.Ok? &&
      r.value.addr == OfflineFinding.Address(key[..28]) && r.value.adv == OfflineFinding.Payload(key[..28]))
    ensures |key| == 27 ==> (r.Ok? &&
      r.value.adv == OfflineFinding.HEADER + key[6..] + [0, OfflineFinding.TopTwoBits(key[0])])
    ensures r.Ok? ==> (r.value.macAddress ==
      if noMacAddressReverse then BytesToStrArray(r.value.addr, true)
      else Reversed(BytesToStrArray(r.value.addr, true)))
  {
    var addr := key[..Min(6, |key|)];
    if |addr| == 0 {
      return Err(IndexError);
    }
    addr := addr[0 := OfflineFinding.WithTopTwoBitsSet(addr[0])];

    var adv := AdvertisementTemplate();
    adv := adv[..7] + key[Min(6, |key|)..Min(28, |key|)] + adv[29..];
    if |adv| <= 29 {
      return Err(IndexError);
    }
    adv := adv[29 := OfflineFinding.TopTwoBits(key[0])];

    var macAddress := BytesToStrArray(addr, true);
    if !noMacAddressReverse {
      macAddress := Reversed(macAddress);
    }
    r := Ok(Broadcast(addr, adv, macAddress));
    if |key| >= 28 {
      var k := key[..28];
      assert addr == OfflineFinding.Address(k);
      assert adv == OfflineFinding.Payload(k);
    }
  }
}
