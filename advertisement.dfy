/**
 * The app-side decoder of offline-finding advertisements (`Advertisement` in the Bluetooth
 * folder): a total parser from manufacturer data to the 22 key bytes it carries.
 */
module Advertisement {
  import opened Common
  import OfflineFinding

  const PUBLIC_KEY_PAYLOAD_LENGTH: nat := 22

  /** The CoreBluetooth dictionary key under which scans report manufacturer data. */
  const MANUFACTURER_DATA_KEY: string := "kCBAdvDataManufacturerData"

  /** A value of the `[String: Any]` advertisement dictionary: `Data`, or anything else. */
  datatype AdValue = DataValue(bytes: seq<byte>) | OtherValue

  datatype Advertisement = Advertisement(publicKeyPayload: seq<byte>)

  /** The manufacturer data is an Apple offline-finding element: 4C 00 12 19 and 29 bytes in all. */
  predicate IsOfflineFinding(payload: seq<byte>)
  {
    |payload| == 29 && payload[0] == 0x4C && payload[1] == 0x00 && payload[2] == 0x12 && payload[3] == 0x19
  }

  /**
   * `extractPublicKeyFromPayload`: the guards in source order, then the slice 5..27. The status
   * byte 4 and the trailing bytes 27 and 28 are never looked at, and the final length guard
   * cannot fail.
   */
  function ExtractPublicKeyFromPayload(payload: seq<byte>): (r: Option<seq<byte>>)
    ensures r.Some? <==> IsOfflineFinding(payload)
    ensures r.Some? ==> r.value == payload[5..27] && |r.value| == PUBLIC_KEY_PAYLOAD_LENGTH
  {
    if |payload| != 29 then None
    else if payload[0..2] != [0x4C, 0x00] then None
    else if payload[2..3] != [0x12] then None
    else if payload[3..4] != [0x19] then None
    else
      var publicKey := payload[5..5 + PUBLIC_KEY_PAYLOAD_LENGTH];
      if |publicKey| != PUBLIC_KEY_PAYLOAD_LENGTH then None else Some(publicKey)
  }

  /** `init?(fromManufacturerData:)`. */
  function FromManufacturerData(data: seq<byte>): (r: Option<Advertisement>)
    ensures r.Some? <==> IsOfflineFinding(data)
    ensures r.Some? ==> r.value.publicKeyPayload == data[5..27]
  {
    match ExtractPublicKeyFromPayload(data)
    case None => None
    case Some(key) => Some(Advertisement(key))
  }

  /** `init?(fromAdvertisementData:)`: nil when the dictionary holds no `Data` manufacturer entry. */
  function FromAdvertisementData(dict: map<string, AdValue>): (r: Option<Advertisement>)
    ensures r.Some? <==>
      MANUFACTURER_DATA_KEY in dict && dict[MANUFACTURER_DATA_KEY].DataValue? &&
      IsOfflineFinding(dict[MANUFACTURER_DATA_KEY].bytes)
  {
    if MANUFACTURER_DATA_KEY !in dict then None
    else match dict[MANUFACTURER_DATA_KEY]
      case OtherValue => None
      case DataValue(bytes) => FromManufacturerData(bytes)
  }

  /** What the firmware broadcasts, minus the AD length and type bytes, decodes to `key[6..28]`. */
  lemma {:induction false} DecodesFirmwarePayload(key: seq<byte>)
    requires OfflineFinding.IsKey(key)
    ensures ExtractPublicKeyFromPayload(OfflineFinding.Payload(key)[2..]) == Some(key[6..28])
  {
    var m := OfflineFinding.Payload(key)[2..];
    OfflineFinding.PayloadLayout(key);
    assert m[..5] == OfflineFinding.HEADER[2..];
    assert m[5..27] == OfflineFinding.Payload(key)[7..29];
  }

  /** Decoding is all a scanner needs: the key is the decoded bytes behind the address's six. */
  lemma {:induction false} ScannerRecoversKey(key: seq<byte>)
    requires OfflineFinding.IsKey(key)
    ensures
      var adv := OfflineFinding.Payload(key);
      var r := FromManufacturerData(adv[2..]);
      r.Some? && OfflineFinding.Address(key)[1..] + r.value.publicKeyPayload == key[1..]
  {
    DecodesFirmwarePayload(key);
    assert key[1..] == key[1..6] + key[6..28];
  }

  /** No manufacturer data, or empty manufacturer data, decodes to nothing. */
  lemma MissingOrEmptyData(dict: map<string, AdValue>)
    requires MANUFACTURER_DATA_KEY !in dict || dict[MANUFACTURER_DATA_KEY] == DataValue([])
    ensures FromAdvertisementData(dict) == None
  {
  }

  /** The accepted 29-byte layout: 4C 00 12 19, a status byte, 22 key bytes, two more bytes. */
  lemma ExtractSample()
    ensures
      var data := [0x4C, 0x00, 0x12, 0x19, 0x00] + seq(22, _ => 0x11) + [0x01, 0x00];
      ExtractPublicKeyFromPayload(data) == Some(seq(22, _ => 0x11))
  {
    var data: seq<byte> := [0x4C, 0x00, 0x12, 0x19, 0x00] + seq(22, _ => 0x11) + [0x01, 0x00];
    assert data[5..27] == seq(22, _ => 0x11);
  }
}
