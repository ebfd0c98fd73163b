/**
 * The micro:bit v2 beacon firmware (`Firmware/Microbit_v2/source/main.cpp`): the patchable key
 * and the advertisement template are globals; `main` assembles the address field by field,
 * fills the template and clamps the advertising interval into the SoftDevice's bounds.
 */
module MicrobitV2 {
  import opened Common
  import OfflineFinding

  /** Advertising interval in milliseconds. */
  const ADV_INTERVAL: nat := 2000

  /** The interval in the SoftDevice's 0.625 ms units, before clamping. */
  const INTERVAL_UNITS: nat := (1000 * ADV_INTERVAL) / 625

  class Beacon {
    const publicKey: array<byte>
    const template: array<byte>

    ghost predicate Valid()
      reads this
    {
      publicKey.Length == OfflineFinding.KEY_LENGTH && template.Length == OfflineFinding.ADV_LENGTH &&
      publicKey != template
    }

    /** The image as loaded: `key` is the placeholder until the app patches the image. */
    constructor (key: seq<byte>)
      requires OfflineFinding.IsKey(key)
      ensures Valid() && fresh(publicKey) && fresh(template)
      ensures publicKey[..] == key && template[..] == OfflineFinding.Template()
    {
      publicKey := new byte[28](i requires 0 <= i < 28 => key[i]);
      template := new byte[31](i requires 0 <= i < 31 => OfflineFinding.Template()[i]);
    }

    /** `fill_adv_template_from_key`: as in the v1 firmware, bytes 0..7 and 30 are left alone. */
    method FillAdvTemplateFromKey()
      requires Valid()
      modifies template
      ensures template[..] ==
        old(template[..7]) + publicKey[6..28] + [OfflineFinding.TopTwoBits(publicKey[0])] + old(template[30..])
    {
      forall i | 7 <= i < 29 {
        template[i] := publicKey[i - 1];
      }
      template[29] := OfflineFinding.TopTwoBits(publicKey[0]);
    }

    /** The `p_addrset.addr` assignments of `main`: the address bytes, stored back to front. */
    method GapAddress() returns (addr: array<byte>)
      requires Valid()
      ensures fresh(addr)
      ensures addr[..] == Reversed(OfflineFinding.Address(publicKey[..]))
    {
      addr := new byte[6];
      addr[5] := OfflineFinding.WithTopTwoBitsSet(publicKey[0]);
      addr[4] := publicKey[1];
      addr[3] := publicKey[2];
      addr[2] := publicKey[3];
      addr[1] := publicKey[4];
      addr[0] := publicKey[5];
      ghost var a := OfflineFinding.Address(publicKey[..]);
      forall k | 0 <= k < 6
        ensures addr[k] == Reversed(a)[k]
      {
        ReversedAt(a, k);
      }
    }
  }

  /**
   * The interval computation of `main`: 3200 units, raised to `intervalMin` and then lowered to
   * `intervalMax` (the SoftDevice's BLE_GAP_ADV_INTERVAL_MIN and _MAX).
   */
  method AdvertisingInterval(intervalMin: int, intervalMax: int) returns (interval: int)
    ensures intervalMin <= intervalMax ==> intervalMin <= interval <= intervalMax
    ensures intervalMin <= INTERVAL_UNITS <= intervalMax ==> interval == INTERVAL_UNITS
    ensures interval == INTERVAL_UNITS || interval == intervalMin || interval == intervalMax
    ensures interval <= intervalMax
  {
    interval := INTERVAL_UNITS;
    if interval < intervalMin {
      interval := intervalMin;
    }
    if interval > intervalMax {
      interval := intervalMax;
    }
  }

  /** 2000 ms is 3200 units of 0.625 ms. */
  lemma IntervalUnits()
    ensures INTERVAL_UNITS == 3200 && INTERVAL_UNITS * 625 == 1000 * ADV_INTERVAL
  {
  }
}
