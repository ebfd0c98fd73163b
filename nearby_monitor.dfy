/**
 * Matching scanned advertisements to accessories (`HaystackApp/AccessoryNearbyMonitor.swift`).
 * The Bluetooth scanner that delivers advertisements is not part of this model.
 */
module NearbyMonitor {
  import opened Common
  import opened AccessoryModel
  import opened AccessoryControllerModel
  import Advertisement
  import OfflineFinding
  import Crypto

  /** The accessory's advertisement key can be derived (`getAdvertisementKey` does not throw). */
  predicate Derivable(a: Accessory, suite: Crypto.Suite)
  {
    a.GetAdvertisementKey(suite).Ok?
  }

  /** The accessory's advertisement key, without its first six bytes, is the payload. */
  predicate Matches(a: Accessory, payload: seq<byte>, suite: Crypto.Suite)
  {
    Derivable(a, suite) && a.GetAdvertisementKey(suite).value[6..] == payload
  }

  /**
   * Where `first(where:)` stops: the first accessory whose key derivation throws or whose key
   * matches, or `|accessories|` when it runs through the list.
   */
  function StopIndex(accessories: seq<Accessory>, payload: seq<byte>, suite: Crypto.Suite): (k: nat)
    ensures k <= |accessories|
    ensures forall j :: 0 <= j < k ==> Derivable(accessories[j], suite) && !Matches(accessories[j], payload, suite)
    ensures k < |accessories| ==> !Derivable(accessories[k], suite) || Matches(accessories[k], payload, suite)
  {
    if accessories == [] then 0
    else if !Derivable(accessories[0], suite) || Matches(accessories[0], payload, suite) then 0
    else 1 + StopIndex(accessories[1..], payload, suite)
  }

  /**
   * `getAccessoryForAdvertisement`: the first matching accessory, where a key derivation that
   * throws on the way turns the whole search into nil (`try?` wraps the `first` call).
   */
  function AccessoryForAdvertisement(accessories: seq<Accessory>, adv: Advertisement.Advertisement, suite: Crypto.Suite)
    : (r: Option<Accessory>)
    ensures r.Some? ==> r.value in accessories && Matches(r.value, adv.publicKeyPayload, suite)
  {
    var k := StopIndex(accessories, adv.publicKeyPayload, suite);
    if k < |accessories| && Derivable(accessories[k], suite) then Some(accessories[k]) else None
  }

  /** The first accessory that matches, behind accessories whose keys all derive, is found. */
  lemma FirstMatchFound(accessories: seq<Accessory>, adv: Advertisement.Advertisement, suite: Crypto.Suite, i: nat)
    requires i < |accessories| && Matches(accessories[i], adv.publicKeyPayload, suite)
    requires forall j :: 0 <= j < i ==>
      Derivable(accessories[j], suite) && !Matches(accessories[j], adv.publicKeyPayload, suite)
    ensures AccessoryForAdvertisement(accessories, adv, suite) == Some(accessories[i])
  {
  }

  /** A key derivation that fails before any match hides every later match. */
  lemma FailureBeforeMatch(accessories: seq<Accessory>, adv: Advertisement.Advertisement, suite: Crypto.Suite, i: nat)
    requires i < |accessories| && !Derivable(accessories[i], suite)
    requires forall j :: 0 <= j < i ==>
      Derivable(accessories[j], suite) && !Matches(accessories[j], adv.publicKeyPayload, suite)
    ensures AccessoryForAdvertisement(accessories, adv, suite) == None
  {
  }

  /** Without a matching accessory the search finds nothing. */
  lemma NoMatchNone(accessories: seq<Accessory>, adv: Advertisement.Advertisement, suite: Crypto.Suite)
    requires forall a | a in accessories :: !Matches(a, adv.publicKeyPayload, suite)
    ensures AccessoryForAdvertisement(accessories, adv, suite) == None
  {
  }

  /**
   * An accessory broadcasting with the firmware is recognised from its decoded advertisement,
   * provided every accessory before it has a derivable key that does not collide with it.
   */
  lemma {:induction false} RecognisesBroadcast(accessories: seq<Accessory>, i: nat, suite: Crypto.Suite)
    requires i < |accessories| && Derivable(accessories[i], suite)
    requires var key := accessories[i].GetAdvertisementKey(suite).value;
      forall j :: 0 <= j < i ==> Derivable(accessories[j], suite) && !Matches(accessories[j], key[6..], suite)
    ensures var key := accessories[i].GetAdvertisementKey(suite).value;
      var adv := Advertisement.FromManufacturerData(OfflineFinding.Payload(key)[2..]);
      adv.Some? && AccessoryForAdvertisement(accessories, adv.value, suite) == Some(accessories[i])
  {
    var key := accessories[i].GetAdvertisementKey(suite).value;
    Advertisement.DecodesFirmwarePayload(key);
    var adv := Advertisement.FromManufacturerData(OfflineFinding.Payload(key)[2..]);
    assert adv.value.publicKeyPayload == key[6..28] == key[6..];
    var k := StopIndex(accessories, key[6..], suite);
    assert Matches(accessories[i], key[6..], suite);
    assert k == i;
  }

  class AccessoryNearbyMonitor {
    const accessoryController: AccessoryController

    constructor (accessoryController: AccessoryController)
      ensures this.accessoryController == accessoryController
    {
      this.accessoryController := accessoryController;
    }

    /**
     * `received`: the matched accessory becomes nearby (and so active) if it was not yet; a
     * nearby accessory and every other accessory are left exactly as they were.
     */
    method Received(adv: Advertisement.Advertisement, suite: Crypto.Suite)
      modifies set a | a in accessoryController.accessories
      ensures var r := old(AccessoryForAdvertisement(accessoryController.accessories, adv, suite));
        forall a | a in accessoryController.accessories && (r.None? || a != r.value) :: Untouched(a)
      ensures var r := old(AccessoryForAdvertisement(accessoryController.accessories, adv, suite));
        r.Some? ==> (r.value.isNearby && OnlyNearbyChanged(r.value) &&
          r.value.isActive == (old(r.value.isNearby) ==> old(r.value.isActive)))
      ensures var r := old(AccessoryForAdvertisement(accessoryController.accessories, adv, suite));
        r.Some? && old(r.value.isNearby) ==> Untouched(r.value)
    {
      var r := AccessoryForAdvertisement(accessoryController.accessories, adv, suite);
      if r.None? {
        return;
      }
      MarkNearby(r.value);
    }
  }

  /** The matched accessory becomes nearby, and so active, unless it already was nearby. */
  method MarkNearby(accessory: Accessory)
    modifies accessory
    ensures accessory.isNearby && OnlyNearbyChanged(accessory)
    ensures accessory.isActive == (old(accessory.isNearby) ==> old(accessory.isActive))
    ensures old(accessory.isNearby) ==> Untouched(accessory)
  {
    if !accessory.isNearby {
      accessory.SetIsNearby(true);
    }
  }

  /** Every field of `a` is what it was in the earlier state. */
  twostate predicate Untouched(a: Accessory)
    reads a
  {
    OnlyNearbyChanged(a) && a.isNearby == old(a.isNearby) && a.isActive == old(a.isActive)
  }

  /** Every field of `a` other than `isNearby` and `isActive` is what it was in the earlier state. */
  twostate predicate OnlyNearbyChanged(a: Accessory)
    reads a
  {
    a.name == old(a.name) && a.icon == old(a.icon) && a.isDeployed == old(a.isDeployed) &&
    a.locations == old(a.locations) && a.lastLocation == old(a.lastLocation) &&
    a.locationTimestamp == old(a.locationTimestamp) &&
    a.usesDerivation == old(a.usesDerivation) && a.updateInterval == old(a.updateInterval)
  }
}
