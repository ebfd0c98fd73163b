/**
 * Patching the nRF firmware image before it is flashed (`Firmwares/NRF/flash_nrf.py`,
 * `flash_openhaystack_fw`): the arguments are validated first, then the symmetric key, the public
 * key and the key-update interval overwrite the placeholders the firmware was built with. The
 * Intel HEX image is a contiguous byte image starting at address 0.
 */
module FlashNrf {
  import opened Common

  datatype FlashError =
    | PublicKeyLength(pkLength: nat)
    | SymmetricKeyLength(skLength: nat)
    | IntervalOutOfRange(interval: int)
    | IntervalMarkerOffset(distance: int)

  const PUBLIC_KEY_LENGTH: nat := 57
  const SYMMETRIC_KEY_LENGTH: nat := 32
  /** 0xFFFFFFFF: the interval must lie strictly between 0 and this. */
  const INTERVAL_LIMIT: nat := 0xFFFF_FFFF
  /** The interval's placeholder lies this many bytes after the public key's. */
  const INTERVAL_OFFSET: nat := 60

  /** The bytes of an ASCII string. */
  function Ascii(s: string): (b: seq<byte>)
    requires forall i :: 0 <= i < |s| ==> s[i] as int < 128
    ensures |b| == |s|
  {
    seq(|s|, i requires 0 <= i < |s| => s[i] as int as byte)
  }

  /** The 31-character symmetric-key placeholder (the firmware's 32-byte buffer with its terminator). */
  function SymmetricKeyMarker(): (m: seq<byte>)
    ensures |m| == 31
  {
    Ascii("OFFLINEFINDINGSYMMETRICKEYHERE!")
  }

  /** The 57-byte public-key placeholder, "OFFLINEFINDINGUNCOMPRESSEDPUBLICKEYHERE!" and seventeen 'A's. */
  function PublicKeyMarker(): (m: seq<byte>)
    ensures |m| == 57
  {
    Ascii("OFFLINEFINDINGUNCOMPRESSEDPUBLICKEYHERE!") + Ascii("AAAAAAAAAAAAAAAAA")
  }

  /** The interval's placeholder, "7331" in ASCII. */
  const INTERVAL_MARKER: seq<byte> := [0x37, 0x33, 0x33, 0x31]

  /** `sub` occurs in `image` at address `k`. */
  predicate Occurs(image: seq<byte>, sub: seq<byte>, k: int)
  {
    0 <= k && k + |sub| <= |image| && image[k..k + |sub|] == sub
  }

  /** The first occurrence of `sub` at or after `i`, or -1 when there is none. */
  function FindFrom(image: seq<byte>, sub: seq<byte>, i: nat): (r: int)
    ensures r == -1 || (i <= r && Occurs(image, sub, r))
    ensures r == -1 ==> forall k :: i <= k ==> !Occurs(image, sub, k)
    ensures r != -1 ==> forall k :: i <= k < r ==> !Occurs(image, sub, k)
    decreases |image| - i
  {
    if i + |sub| > |image| then -1
    else if image[i..i + |sub|] == sub then i
    else FindFrom(image, sub, i + 1)
  }

  /** `IntelHex.find`: the address of the first occurrence of `sub`, or -1. */
  function Find(image: seq<byte>, sub: seq<byte>): (r: int)
    ensures r == -1 <==> forall k :: 0 <= k ==> !Occurs(image, sub, k)
    ensures r != -1 ==> Occurs(image, sub, r) && forall k :: 0 <= k < r ==> !Occurs(image, sub, k)
  {
    FindFrom(image, sub, 0)
  }

  /**
   * The image after `data` is put at `address`: the image's bytes in the written range take the
   * data's, the others keep theirs. (Bytes that would land outside the image are not kept.)
   */
  function Written(image: seq<byte>, address: int, data: seq<byte>): (r: seq<byte>)
    ensures |r| == |image|
    ensures forall k :: 0 <= k < |image| && address <= k < address + |data| ==> r[k] == data[k - address]
    ensures forall k :: 0 <= k < |image| && !(address <= k < address + |data|) ==> r[k] == image[k]
  {
    seq(|image|, k requires 0 <= k < |image| => if address <= k < address + |data| then data[k - address] else image[k])
  }

  /** An Intel HEX image that `puts` patches in place. */
  class IntelHexImage {
    var image: seq<byte>

    constructor (contents: seq<byte>)
      ensures image == contents
    {
      image := contents;
    }

    /** `puts`: overwrite the image at `address` with `data`. */
    method Puts(address: int, data: seq<byte>)
      modifies this
      ensures image == Written(old(image), address, data)
    {
      image := Written(image, address, data);
    }
  }

  /** The arguments' error, in the order the script checks them, or nothing when all are valid. */
  function ArgumentError(publicKey: seq<byte>, symmetricKey: seq<byte>, updateInterval: int): (e: Option<FlashError>)
    ensures e.None? <==>
      |publicKey| == PUBLIC_KEY_LENGTH && |symmetricKey| == SYMMETRIC_KEY_LENGTH && 0 < updateInterval < INTERVAL_LIMIT
  {
    if |publicKey| != PUBLIC_KEY_LENGTH then Some(PublicKeyLength(|publicKey|))
    else if |symmetricKey| != SYMMETRIC_KEY_LENGTH then Some(SymmetricKeyLength(|symmetricKey|))
    else if !(0 < updateInterval < INTERVAL_LIMIT) then Some(IntervalOutOfRange(updateInterval))
    else None
  }

  /** The image after the two keys are put at their placeholders, the symmetric key first. */
  function WithKeys(image: seq<byte>, publicKey: seq<byte>, symmetricKey: seq<byte>): seq<byte>
  {
    var withSymmetricKey := Written(image, Find(image, SymmetricKeyMarker()), symmetricKey);
    Written(withSymmetricKey, Find(withSymmetricKey, PublicKeyMarker()), publicKey)
  }

  /** Where the public key was put: its placeholder's address once the symmetric key is in. */
  function PublicKeyAddress(image: seq<byte>, symmetricKey: seq<byte>): int
  {
    Find(Written(image, Find(image, SymmetricKeyMarker()), symmetricKey), PublicKeyMarker())
  }

  datatype Outcome = Outcome(result: Result<(), FlashError>, image: seq<byte>)

  /** The verdict of `flash_openhaystack_fw` up to the flashing, and the image it would flash. */
  function Flash(image: seq<byte>, publicKey: seq<byte>, symmetricKey: seq<byte>, updateInterval: int): Outcome
  {
    match ArgumentError(publicKey, symmetricKey, updateInterval)
    case Some(e) => Outcome(Err(e), image)
    case None =>
      var keyed := WithKeys(image, publicKey, symmetricKey);
      var pkAddress := PublicKeyAddress(image, symmetricKey);
      var intervalAddress := Find(keyed, INTERVAL_MARKER);
      if intervalAddress - pkAddress != INTERVAL_OFFSET then
        Outcome(Err(IntervalMarkerOffset(intervalAddress - pkAddress)), keyed)
      else
        Outcome(Ok(()), Written(keyed, intervalAddress, U32LE(updateInterval)))
  }

  /**
   * `flash_openhaystack_fw` up to the flashing itself: validation, then the three patches; the
   * device calls (family and version queries, erase, write, reset) are not modelled.
   */
  method FlashOpenHaystackFw(publicKey: seq<byte>, symmetricKey: seq<byte>, updateInterval: int, ih: IntelHexImage)
    returns (r: Result<(), FlashError>)
    modifies ih
    ensures Outcome(r, ih.image) == Flash(old(ih.image), publicKey, symmetricKey, updateInterval)
  {
    if |publicKey| != 57 {
      return Err(PublicKeyLength(|publicKey|));
    }
    if |symmetricKey| != 32 {
      return Err(SymmetricKeyLength(|symmetricKey|));
    }
    if !(0 < updateInterval < 4294967295) {
      return Err(IntervalOutOfRange(updateInterval));
    }
    var skAddress := Find(ih.image, SymmetricKeyMarker());
    ih.Puts(skAddress, symmetricKey);
    var pkAddress := Find(ih.image, PublicKeyMarker());
    ih.Puts(pkAddress, publicKey);
    var updateIntervalAddress := Find(ih.image, INTERVAL_MARKER);
    if updateIntervalAddress - pkAddress != 60 {
      return Err(IntervalMarkerOffset(updateIntervalAddress - pkAddress));
    }
    var updateIntervalHex := U32LE(updateInterval);
    ih.Puts(updateIntervalAddress, updateIntervalHex);
    r := Ok(());
  }

  /** Invalid arguments are refused, in the script's order, before the image is touched. */
  lemma ValidationFirst(image: seq<byte>, publicKey: seq<byte>, symmetricKey: seq<byte>, updateInterval: int)
    ensures |publicKey| != 57 ==>
      Flash(image, publicKey, symmetricKey, updateInterval) == Outcome(Err(PublicKeyLength(|publicKey|)), image)
    ensures |publicKey| == 57 && |symmetricKey| != 32 ==>
      Flash(image, publicKey, symmetricKey, updateInterval) == Outcome(Err(SymmetricKeyLength(|symmetricKey|)), image)
    ensures |publicKey| == 57 && |symmetricKey| == 32 && (updateInterval <= 0 || updateInterval >= 0xFFFF_FFFF) ==>
      Flash(image, publicKey, symmetricKey, updateInterval) == Outcome(Err(IntervalOutOfRange(updateInterval)), image)
    ensures Flash(image, publicKey, symmetricKey, updateInterval).result.Ok? ==>
      |publicKey| == 57 && |symmetricKey| == 32 && 0 < updateInterval < 0xFFFF_FFFF
  {
  }

  /** A successful patch writes the interval 60 bytes after the public key, in the image with both keys. */
  lemma FlashSucceeded(image: seq<byte>, publicKey: seq<byte>, symmetricKey: seq<byte>, updateInterval: int)
    requires Flash(image, publicKey, symmetricKey, updateInterval).result.Ok?
    ensures Find(WithKeys(image, publicKey, symmetricKey), INTERVAL_MARKER) == PublicKeyAddress(image, symmetricKey) + 60 >= 0
    ensures PublicKeyAddress(image, symmetricKey) + 64 <= |image|
    ensures Flash(image, publicKey, symmetricKey, updateInterval).image ==
      Written(WithKeys(image, publicKey, symmetricKey), PublicKeyAddress(image, symmetricKey) + 60, U32LE(updateInterval))
  {
  }

  /** The written range holds the data. */
  lemma WrittenRange(image: seq<byte>, address: int, data: seq<byte>)
    requires 0 <= address && address + |data| <= |image|
    ensures Written(image, address, data)[address..address + |data|] == data
  {
  }

  /** A range that ends before the written one keeps its bytes. */
  lemma WrittenBefore(image: seq<byte>, address: int, data: seq<byte>, p: int, len: nat)
    requires 0 <= p && p + len <= address && address <= |image|
    ensures Written(image, address, data)[p..p + len] == image[p..p + len]
  {
  }

  /**
   * On success the interval placeholder, found exactly 60 bytes after the public key's, holds the
   * interval as four little-endian bytes that read back as the interval; and the public key, when
   * its placeholder was found, is in place, since the interval's bytes come after it.
   */
  lemma FlashedImage(image: seq<byte>, publicKey: seq<byte>, symmetricKey: seq<byte>, updateInterval: int)
    requires Flash(image, publicKey, symmetricKey, updateInterval).result.Ok?
    ensures Find(WithKeys(image, publicKey, symmetricKey), INTERVAL_MARKER) ==
      PublicKeyAddress(image, symmetricKey) + 60 >= 0
    ensures PublicKeyAddress(image, symmetricKey) + 64 <= |image|
    ensures DecodeU32LE(Flash(image, publicKey, symmetricKey, updateInterval).image[
      PublicKeyAddress(image, symmetricKey) + 60..PublicKeyAddress(image, symmetricKey) + 64]) == updateInterval
    ensures PublicKeyAddress(image, symmetricKey) >= 0 ==>
      Flash(image, publicKey, symmetricKey, updateInterval).image[
        PublicKeyAddress(image, symmetricKey)..PublicKeyAddress(image, symmetricKey) + 57] == publicKey
  {
    var keyed := WithKeys(image, publicKey, symmetricKey);
    var pa := PublicKeyAddress(image, symmetricKey);
    FlashSucceeded(image, publicKey, symmetricKey, updateInterval);
    WrittenRange(keyed, pa + 60, U32LE(updateInterval));
    U32LERoundTrip(updateInterval);
    if pa >= 0 {
      WrittenBefore(keyed, pa + 60, U32LE(updateInterval), pa, 57);
    }
  }

}
