/**
 * The Find My records the app passes around. Their declaring file is not part of this model;
 * the fields are the ones the modelled code reads and writes.
 */
module FindMyModels {
  import opened Common
  import Base64

  /** A point in time, in seconds. */
  type Date = int

  datatype FindMyKey = FindMyKey(
    advertisedKey: seq<byte>,
    hashedKey: seq<byte>,
    privateKey: seq<byte>,
    startTime: Option<Date>,
    duration: Option<int>,
    yCoordinate: Option<seq<byte>>,
    fullKey: Option<seq<byte>>)

  /** An encrypted report as the server returns it; `id` is the Base64 hash of the key it is for. */
  datatype FindMyReport = FindMyReport(
    id: string,
    payload: seq<byte>,
    datePublished: Date,
    timestamp: Option<Date>,
    confidence: int)

  /** A decrypted location; latitude and longitude in units of 1e-7 degrees. */
  datatype LocationReport = LocationReport(
    latitude: int,
    longitude: int,
    accuracy: byte,
    datePublished: Date,
    timestamp: Option<Date>,
    confidence: int)

  datatype FindMyDevice = FindMyDevice(
    deviceId: string,
    keys: seq<FindMyKey>,
    reports: Option<seq<FindMyReport>>,
    decryptedReports: Option<seq<LocationReport>>)

  /** The id under which reports for `key` are filed: `hashedKey.base64EncodedString()`. */
  function KeyId(key: FindMyKey): string
  {
    Base64.Encode(key.hashedKey)
  }

  /** Two keys share a report id exactly when their hashes are equal. */
  lemma KeyIdCollision(k1: FindMyKey, k2: FindMyKey)
    ensures KeyId(k1) == KeyId(k2) <==> k1.hashedKey == k2.hashedKey
  {
    if KeyId(k1) == KeyId(k2) {
      Base64.EncodeInjective(k1.hashedKey, k2.hashedKey);
    }
  }
}
