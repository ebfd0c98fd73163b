/**
 * An accessory the user manages (`Model/Accessory.swift`): its immutable identity and key, the
 * observed flags `isDeployed`, `isActive` and `isNearby` with their change observers, the key
 * getters, the conversion to a Find My device, and equality and hashing.
 */
module AccessoryModel {
  import opened Common
  import opened FindMyModels
  import Crypto
  import Base64
  import Numerals

  datatype KeyError = KeyGenerationFailed | KeyDerivationFailed

  /** A decoding failure: a required key is missing or holds a value of the wrong type. */
  datatype DecodingError = KeyNotFound(codingKey: string)

  /** A map position; latitude and longitude in units of 1e-7 degrees. */
  datatype Location = Location(latitude: int, longitude: int)

  /**
   * A stored accessory as the decoder sees it: each field is `None` when it is missing or has
   * the wrong type.
   */
  datatype StoredAccessory = StoredAccessory(
    name: Option<string>,
    id: Option<int>,
    privateKey: Option<seq<byte>>,
    icon: Option<string>,
    isDeployed: Option<bool>,
    isActive: Option<bool>)

  const DEFAULT_NAME: string := "New accessory"

  /** The public key of a P-224 private key: a format byte followed by the 28-byte x coordinate. */
  const PUBLIC_KEY_LENGTH: nat := 29

  function GetOr<T>(o: Option<T>, default: T): T
  {
    if o.Some? then o.value else default
  }

  class Accessory {
    var name: string
    const id: int
    const privateKey: seq<byte>
    var locations: Option<seq<LocationReport>>
    var icon: string
    var lastLocation: Option<Location>
    var locationTimestamp: Option<Date>
    var isDeployed: bool
    /** Whether the accessory is known to be advertising. */
    var isActive: bool
    /** Whether the accessory has been seen nearby. */
    var isNearby: bool
    /** Written by the nRF deployment sheet. */
    var usesDerivation: bool
    /** Written by the nRF deployment sheet, in seconds. */
    var updateInterval: int

    /** Stored-property initialisation; property observers do not run during it. */
    constructor (name: string, id: int, privateKey: seq<byte>, icon: string, isDeployed: bool, isActive: bool)
      ensures this.name == name && this.id == id && this.privateKey == privateKey && this.icon == icon
      ensures this.isDeployed == isDeployed && this.isActive == isActive && !isNearby
      ensures locations.None? && lastLocation.None? && locationTimestamp.None?
      ensures !usesDerivation && updateInterval == 0
    {
      this.name := name;
      this.id := id;
      this.privateKey := privateKey;
      this.icon := icon;
      this.isDeployed := isDeployed;
      this.isActive := isActive;
      isNearby := false;
      locations := None;
      lastLocation := None;
      locationTimestamp := None;
      usesDerivation := false;
      updateInterval := 0;
    }

    /**
     * `init(name:color:iconName:)`: a new key from the generator (`None` when generation fails)
     * and the key's hash value as id; the accessory starts neither deployed nor active.
     */
    static method Create(name: string, iconName: string, generatedKey: Option<seq<byte>>, keyHashValue: int)
      returns (r: Result<Accessory, KeyError>)
      ensures r.Err? <==> generatedKey.None?
      ensures r.Err? ==> r.error == KeyGenerationFailed
      ensures r.Ok? ==> fresh(r.value) && r.value.id == keyHashValue && r.value.privateKey == generatedKey.value
      ensures r.Ok? ==> r.value.name == name && r.value.icon == iconName
      ensures r.Ok? ==> !r.value.isDeployed && !r.value.isActive && !r.value.isNearby
    {
      if generatedKey.None? {
        return Err(KeyGenerationFailed);
      }
      var a := new Accessory(name, keyHashValue, generatedKey.value, iconName, false, false);
      r := Ok(a);
    }

    /**
     * `init(from:)`: name, id and private key are required, in that order; a missing icon,
     * deployment flag or activity flag defaults to "", false and false.
     */
    static method Decode(stored: StoredAccessory) returns (r: Result<Accessory, DecodingError>)
      ensures r.Err? <==> stored.name.None? || stored.id.None? || stored.privateKey.None?
      ensures r.Err? ==> (r.error.codingKey ==
        if stored.name.None? then "name" else if stored.id.None? then "id" else "privateKey")
      ensures r.Ok? ==> fresh(r.value)
      ensures r.Ok? ==> r.value.name == stored.name.value && r.value.id == stored.id.value
      ensures r.Ok? ==> r.value.privateKey == stored.privateKey.value
      ensures r.Ok? ==> r.value.icon == GetOr(stored.icon, "")
      ensures r.Ok? ==> r.value.isDeployed == GetOr(stored.isDeployed, false)
      ensures r.Ok? ==> r.value.isActive == GetOr(stored.isActive, false) && !r.value.isNearby
    {
      if stored.name.None? {
        return Err(KeyNotFound("name"));
      }
      if stored.id.None? {
        return Err(KeyNotFound("id"));
      }
      if stored.privateKey.None? {
        return Err(KeyNotFound("privateKey"));
      }
      var a := new Accessory(stored.name.value, stored.id.value, stored.privateKey.value,
        GetOr(stored.icon, ""), GetOr(stored.isDeployed, false), GetOr(stored.isActive, false));
      r := Ok(a);
    }

    /** Assignment to `isDeployed`: deploying a not yet deployed accessory resets `isActive`. */
    method SetIsDeployed(value: bool)
      modifies this`isDeployed, this`isActive
      ensures isDeployed == value
      ensures isActive == if !old(isDeployed) && value then false else old(isActive)
    {
      var wasDeployed := isDeployed;
      isDeployed := value;
      if !wasDeployed && isDeployed {
        isActive := false;
      }
    }

    /** Assignment to `isNearby`: being seen makes the accessory active; losing it changes nothing else. */
    method SetIsNearby(value: bool)
      modifies this`isNearby, this`isActive
      ensures isNearby == value
      ensures isActive == (value || old(isActive))
    {
      isNearby := value;
      if isNearby {
        isActive := true;
      }
    }

    /** `getActualPublicKey`: the derived public key, or `keyDerivationFailed`. */
    function GetActualPublicKey(suite: Crypto.Suite): (r: Result<seq<byte>, KeyError>)
      ensures r.Ok? <==> suite.derivePublicKey(privateKey).Some?
      ensures r.Err? ==> r.error == KeyDerivationFailed
    {
      match suite.derivePublicKey(privateKey)
      case None => Err(KeyDerivationFailed)
      case Some(k) => Ok(k)
    }

    /**
     * `getAdvertisementKey`: the public key without its first byte, which must leave 28 bytes.
     * (The debug-build `assert` before the guard is not modelled; the guard throws instead.)
     */
    function GetAdvertisementKey(suite: Crypto.Suite): (r: Result<seq<byte>, KeyError>)
      ensures r.Ok? <==> GetActualPublicKey(suite).Ok? && |GetActualPublicKey(suite).value| == PUBLIC_KEY_LENGTH
      ensures r.Ok? ==> |r.value| == 28 && [GetActualPublicKey(suite).value[0]] + r.value == GetActualPublicKey(suite).value
      ensures r.Err? ==> r.error == KeyDerivationFailed
    {
      match suite.derivePublicKey(privateKey)
      case None => Err(KeyDerivationFailed)
      case Some(publicKey) =>
        var dropped := if |publicKey| == 0 then [] else publicKey[1..];
        if |dropped| != 28 then Err(KeyDerivationFailed) else Ok(dropped)
    }

    /** `hashedPublicKey`: SHA-256 of the advertisement key. */
    function HashedPublicKey(suite: Crypto.Suite): (r: Result<seq<byte>, KeyError>)
      ensures r.Ok? <==> GetAdvertisementKey(suite).Ok?
      ensures r.Ok? ==> |r.value| == 32 && r.value == suite.sha256(GetAdvertisementKey(suite).value)
    {
      match GetAdvertisementKey(suite)
      case Err(e) => Err(e)
      case Ok(k) => Ok(suite.sha256(k))
    }

    /** `getKeyId`: the Base64 form of the hashed key, 44 characters, from which the hash is recoverable. */
    function GetKeyId(suite: Crypto.Suite): (r: Result<string, KeyError>)
      ensures r.Ok? <==> GetAdvertisementKey(suite).Ok?
      ensures r.Ok? ==> |r.value| == 44 && Base64.Decode(r.value) == HashedPublicKey(suite).value
    {
      match HashedPublicKey(suite)
      case Err(e) => Err(e)
      case Ok(h) =>
        Base64.DecodeEncode(h);
        Ok(Base64.Encode(h))
    }

    /**
     * `toFindMyDevice`: one key holding the advertisement key, its hash and the private key,
     * under the accessory's id in decimal, with no reports yet.
     */
    function ToFindMyDevice(suite: Crypto.Suite): (r: Result<FindMyDevice, KeyError>)
      ensures r.Ok? <==> GetAdvertisementKey(suite).Ok?
      ensures r.Ok? ==> r.value.deviceId == Numerals.IntToString(id) && |r.value.keys| == 1
      ensures r.Ok? ==> r.value.reports.None? && r.value.decryptedReports.None?
      ensures r.Ok? ==> r.value.keys[0].advertisedKey == GetAdvertisementKey(suite).value
      ensures r.Ok? ==> r.value.keys[0].privateKey == privateKey
      ensures r.Ok? ==> KeyId(r.value.keys[0]) == GetKeyId(suite).value
    {
      match GetAdvertisementKey(suite)
      case Err(e) => Err(e)
      case Ok(advertisedKey) =>
        var key := FindMyKey(advertisedKey, suite.sha256(advertisedKey), privateKey, None, None, None, None);
        Ok(FindMyDevice(Numerals.IntToString(id), [key], None, None))
    }

    /** `==`: compares id, name, private key, icon and deployment, and nothing else. */
    predicate Equals(other: Accessory)
      reads this, other
    {
      id == other.id && name == other.name && privateKey == other.privateKey && icon == other.icon &&
      isDeployed == other.isDeployed
    }

    /** `hash(into:)`: what is fed to the hasher, the id alone. */
    function HashInput(): seq<int>
    {
      [id]
    }
  }

  /** Equal accessories feed the hasher the same input, as `Hashable` requires. */
  lemma EqualsHashConsistent(a: Accessory, b: Accessory)
    requires a.Equals(b)
    ensures a.HashInput() == b.HashInput()
  {
  }

  /** The decimal device id parses back to the accessory's id whenever the id is a 64-bit `Int`. */
  lemma {:induction false} DeviceIdRoundTrip(a: Accessory, suite: Crypto.Suite)
    requires Numerals.IsInt64(a.id) && a.ToFindMyDevice(suite).Ok?
    ensures Numerals.ParseInt(a.ToFindMyDevice(suite).value.deviceId) == Some(a.id)
  {
    Numerals.ParseIntOfIntToString(a.id);
  }
}
