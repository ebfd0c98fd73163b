/**
 * Decryption of encrypted Find My reports (`FindMy/DecryptReports.swift`): the payload layout,
 * the ANSI X9.63 key derivation of section 3.6.1 of SEC 1 (version 2) with a single SHA-256 block,
 * the AES-GCM key and nonce split, and the decoding of the plaintext into a location.
 */
module DecryptReports {
  import opened Common
  import opened FindMyModels
  import Crypto

  datatype DecryptError =
    | DecryptionError(description: string)
    /** `AES.GCM.SealedBox` or `AES.GCM.open` threw: bad nonce or tag size, or a tag that does not authenticate. */
    | GcmFailure

  /** Payloads longer than this carry an extra byte at index 5 (the newer report format). */
  const OLD_FORMAT_LENGTH: nat := 88

  const SHARED_KEY_FAILURE: string := "Failed generating shared key"

  /** The local `payloadData` after the format fix: the byte at index 5 removed from long payloads. */
  function Normalise(payload: seq<byte>): (p: seq<byte>)
    ensures |payload| > OLD_FORMAT_LENGTH ==> |p| == |payload| - 1
    ensures |payload| <= OLD_FORMAT_LENGTH ==> p == payload
  {
    if |payload| > OLD_FORMAT_LENGTH then payload[..5] + payload[6..] else payload
  }

  /** A byte inserted at index 5 of an old-format payload is exactly what normalisation removes. */
  lemma NormaliseUndoesInsertion(old_payload: seq<byte>, extra: byte)
    requires |old_payload| == OLD_FORMAT_LENGTH
    ensures Normalise(old_payload[..5] + [extra] + old_payload[5..]) == old_payload
  {
    var q := old_payload[..5] + [extra] + old_payload[5..];
    assert q[..5] == old_payload[..5] && q[6..] == old_payload[5..];
  }

  /** `subdata(in: 5..<62)`: the finder's ephemeral public key, 57 bytes. */
  function EphemeralKey(p: seq<byte>): (r: seq<byte>)
    requires |p| >= 72
    ensures |r| == 57
  {
    p[5..62]
  }

  /** `subdata(in: 62..<72)`: the encrypted location, 10 bytes. */
  function Ciphertext(p: seq<byte>): (r: seq<byte>)
    requires |p| >= 72
    ensures |r| == 10
  {
    p[62..72]
  }

  /** `subdata(in: 72..<endIndex)`: the authentication tag, whatever its length. */
  function Tag(p: seq<byte>): (r: seq<byte>)
    requires |p| >= 72
    ensures |r| == |p| - 72
  {
    p[72..]
  }

  /**
   * The slices tile the normalised payload after its first five bytes, and in terms of the
   * payload as received they sit one byte further on when it is long.
   */
  lemma PayloadLayout(payload: seq<byte>)
    requires |Normalise(payload)| >= 72
    ensures var p := Normalise(payload);
      EphemeralKey(p) + Ciphertext(p) + Tag(p) == p[5..]
    ensures var p := Normalise(payload); var d := if |payload| > OLD_FORMAT_LENGTH then 1 else 0;
      EphemeralKey(p) == payload[5 + d..62 + d] && Ciphertext(p) == payload[62 + d..72 + d] &&
      Tag(p) == payload[72 + d..]
  {
    var p := Normalise(payload);
    assert p[5..] == p[5..62] + p[62..72] + p[72..];
    if |payload| > OLD_FORMAT_LENGTH {
      assert p[5..] == payload[6..];
    }
  }

  /** The counter block of the derivation: `Int32(1)`'s bytes reversed, that is 1 big-endian. */
  function Counter(): (c: seq<byte>)
    ensures c == [0, 0, 0, 1]
  {
    Reversed(U32LE(1))
  }

  /** `kdf`: one SHA-256 over the shared secret, the counter 00 00 00 01 and the ephemeral key. */
  function Kdf(suite: Crypto.Suite, secret: seq<byte>, ephemeralKey: seq<byte>): (r: seq<byte>)
    ensures |r| == 32
    ensures r == suite.sha256(secret + [0, 0, 0, 1] + ephemeralKey)
  {
    suite.sha256(secret + Counter() + ephemeralKey)
  }

  /** `decryptPayload`: the first 16 bytes are the AES key, the rest the nonce. */
  function DecryptPayload(suite: Crypto.Suite, payload: seq<byte>, symmetricKey: seq<byte>, tag: seq<byte>)
    : (r: Result<seq<byte>, DecryptError>)
    requires |symmetricKey| >= 16
    ensures r.Ok? <==> suite.aesGcmOpen(symmetricKey[..16], symmetricKey[16..], payload, tag).Some?
    ensures r.Ok? ==> |r.value| == |payload| && r.value == suite.aesGcmOpen(symmetricKey[..16], symmetricKey[16..], payload, tag).value
    ensures r.Err? ==> r.error == GcmFailure
  {
    var decryptionKey := symmetricKey[..16];
    var iv := symmetricKey[16..];
    match suite.aesGcmOpen(decryptionKey, iv, payload, tag)
    case None => Err(GcmFailure)
    case Some(decrypted) => Ok(decrypted)
  }

  /** The key and the nonce together are the whole derived key. */
  lemma KeyNonceSplit(symmetricKey: seq<byte>)
    requires |symmetricKey| == 32
    ensures |symmetricKey[..16]| == 16 && |symmetricKey[16..]| == 16
    ensures symmetricKey[..16] + symmetricKey[16..] == symmetricKey
  {
  }

  /**
   * `decode`: latitude and longitude are big-endian signed 32-bit values in bytes 0-3 and 4-7,
   * the accuracy is byte 8; the dates and the confidence come from the encrypted report.
   */
  function Decode(content: seq<byte>, report: FindMyReport): (r: LocationReport)
    requires |content| >= 9
    ensures IsInt32(r.latitude) && IsInt32(r.longitude)
    ensures EncodeInt32BE(r.latitude) == content[0..4] && EncodeInt32BE(r.longitude) == content[4..8]
    ensures r.accuracy == content[8]
    ensures r.datePublished == report.datePublished && r.timestamp == report.timestamp
    ensures r.confidence == report.confidence
  {
    Int32BEOfDecode(content[4..8]);
    Int32BEOfDecode(content[0..4]);
    var longitude := DecodeInt32BE(content[4..8]);
    var latitude := DecodeInt32BE(content[0..4]);
    var accuracy := content[8];
    LocationReport(latitude, longitude, accuracy, report.datePublished, report.timestamp, report.confidence)
  }

  /** The bytes a finder encodes are read back as the location it encoded. */
  lemma DecodeEncoded(latitude: int, longitude: int, accuracy: byte, rest: seq<byte>, report: FindMyReport)
    requires IsInt32(latitude) && IsInt32(longitude)
    ensures var content := EncodeInt32BE(latitude) + EncodeInt32BE(longitude) + [accuracy] + rest;
      Decode(content, report) ==
        LocationReport(latitude, longitude, accuracy, report.datePublished, report.timestamp, report.confidence)
  {
    var content := EncodeInt32BE(latitude) + EncodeInt32BE(longitude) + [accuracy] + rest;
    assert content[0..4] == EncodeInt32BE(latitude) && content[4..8] == EncodeInt32BE(longitude);
    Int32BERoundTrip(latitude);
    Int32BERoundTrip(longitude);
  }

  /**
   * `decrypt`: ECDH of the key's private key with the ephemeral key, the key derivation, AES-GCM
   * over the ciphertext, and decoding. A payload whose normalised form is shorter than 72 bytes
   * makes the source trap in `subdata`, hence the precondition.
   */
  function Decrypt(report: FindMyReport, key: FindMyKey, suite: Crypto.Suite): (r: Result<LocationReport, DecryptError>)
    requires |Normalise(report.payload)| >= 72
    ensures var p := Normalise(report.payload);
      suite.deriveSharedKey(key.privateKey, EphemeralKey(p)).None? ==> r == Err(DecryptionError(SHARED_KEY_FAILURE))
    ensures r.Err? ==> r.error == DecryptionError(SHARED_KEY_FAILURE) || r.error == GcmFailure
    ensures r.Ok? ==> (r.value.datePublished == report.datePublished && r.value.timestamp == report.timestamp &&
      r.value.confidence == report.confidence)
    ensures r.Ok? ==> IsInt32(r.value.latitude) && IsInt32(r.value.longitude)
  {
    var payloadData := Normalise(report.payload);
    var ephemeralKey := EphemeralKey(payloadData);
    match suite.deriveSharedKey(key.privateKey, ephemeralKey)
    case None => Err(DecryptionError(SHARED_KEY_FAILURE))
    case Some(sharedKey) =>
      var derivedKey := Kdf(suite, sharedKey, ephemeralKey);
      match DecryptPayload(suite, Ciphertext(payloadData), derivedKey, Tag(payloadData))
      case Err(e) => Err(e)
      case Ok(decryptedContent) => Ok(Decode(decryptedContent, report))
  }

  /** A finder's payload, in either format, normalises to its five header bytes and the three fields. */
  lemma FinderLayout(payload: seq<byte>, header: seq<byte>, extra: Option<byte>,
    ephemeralKey: seq<byte>, ciphertext: seq<byte>, tag: seq<byte>)
    requires |header| == 5 && |ephemeralKey| == 57 && |ciphertext| == 10 && |tag| == 16
    requires payload == header + (if extra.Some? then [extra.value] else []) + ephemeralKey + ciphertext + tag
    ensures |Normalise(payload)| == OLD_FORMAT_LENGTH
    ensures var p := Normalise(payload);
      EphemeralKey(p) == ephemeralKey && Ciphertext(p) == ciphertext && Tag(p) == tag
  {
    var q := header + ephemeralKey + ciphertext + tag;
    if extra.Some? {
      assert payload == q[..5] + [extra.value] + q[5..];
      NormaliseUndoesInsertion(q, extra.value);
    }
    assert q[5..62] == ephemeralKey && q[62..72] == ciphertext && q[72..] == tag;
  }

  /**
   * End to end: a report laid out as a finder builds it (five header bytes, in the newer format
   * one more byte, the 57-byte ephemeral key, the ciphertext and the 16-byte tag) whose
   * ciphertext opens, under the derived key and nonce, to an encoded location decrypts to that
   * location.
   */
  lemma DecryptsFinderReport(
    report: FindMyReport, key: FindMyKey, suite: Crypto.Suite,
    header: seq<byte>, extra: Option<byte>, ephemeralKey: seq<byte>, ciphertext: seq<byte>, tag: seq<byte>,
    sharedKey: seq<byte>, latitude: int, longitude: int, accuracy: byte, status: byte)
    requires |header| == 5 && |ephemeralKey| == 57 && |ciphertext| == 10 && |tag| == 16
    requires report.payload == header + (if extra.Some? then [extra.value] else []) + ephemeralKey + ciphertext + tag
    requires suite.deriveSharedKey(key.privateKey, ephemeralKey) == Some(sharedKey)
    requires IsInt32(latitude) && IsInt32(longitude)
    requires var k := Kdf(suite, sharedKey, ephemeralKey);
      suite.aesGcmOpen(k[..16], k[16..], ciphertext, tag) ==
        Some(EncodeInt32BE(latitude) + EncodeInt32BE(longitude) + [accuracy, status])
    ensures |Normalise(report.payload)| >= 72
    ensures Decrypt(report, key, suite) ==
      Ok(LocationReport(latitude, longitude, accuracy, report.datePublished, report.timestamp, report.confidence))
  {
    FinderLayout(report.payload, header, extra, ephemeralKey, ciphertext, tag);
    var content := EncodeInt32BE(latitude) + EncodeInt32BE(longitude) + [accuracy, status];
    assert content == EncodeInt32BE(latitude) + EncodeInt32BE(longitude) + [accuracy] + [status];
    DecodeEncoded(latitude, longitude, accuracy, [status], report);
    var k := Kdf(suite, sharedKey, ephemeralKey);
    assert DecryptPayload(suite, ciphertext, k, tag) == Ok(content);
  }
}
