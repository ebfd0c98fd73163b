/**
 * The micro:bit v1 beacon firmware (`Firmware/Microbit_v1/offline-finding/main.c`): three
 * globals, the patchable key, the device address and the advertisement template, which `main`
 * fills from the key before it starts advertising.
 */
module MicrobitV1 {
  import opened Common
  import OfflineFinding

  /** Advertising interval in microseconds (2 s). */
  const ADV_INTERVAL: nat := 2000000

  /** The address the image starts with, in the link layer's (reversed) byte order. */
  const INITIAL_ADDR: seq<byte> := [0xFF, 0xBB, 0xCC, 0xDD, 0xEE, 0xFF]

  /**
   * The firmware's global state. `char` is unsigned on the ARM target, so the key is kept as
   * bytes.
   */
  class Beacon {
    const publicKey: array<byte>
    const addr: array<byte>
    const template: array<byte>

    ghost predicate Valid()
      reads this
    {
      publicKey.Length == OfflineFinding.KEY_LENGTH && addr.Length == OfflineFinding.ADDR_LENGTH &&
      template.Length == OfflineFinding.ADV_LENGTH && publicKey != template && publicKey != addr
    }

    /** The image as loaded: `key` is the placeholder until the app patches the image. */
    constructor (key: seq<byte>)
      requires OfflineFinding.IsKey(key)
      ensures Valid() && fresh(publicKey) && fresh(addr) && fresh(template)
      ensures publicKey[..] == key && addr[..] == INITIAL_ADDR && template[..] == OfflineFinding.Template()
    {
      publicKey := new byte[28](i requires 0 <= i < 28 => key[i]);
      addr := new byte[6](i requires 0 <= i < 6 => INITIAL_ADDR[i]);
      template := new byte[31](i requires 0 <= i < 31 => OfflineFinding.Template()[i]);
    }

    /** `set_addr_from_key`: the address bytes, stored back to front for the link layer. */
    method SetAddrFromKey()
      requires Valid()
      modifies addr
      ensures addr[..] == Reversed(OfflineFinding.Address(publicKey[..]))
    {
      addr[5] := OfflineFinding.WithTopTwoBitsSet(publicKey[0]);
      addr[4] := publicKey[1];
      addr[3] := publicKey[2];
      addr[2] := publicKey[3];
      addr[1] := publicKey[4];
      addr[0] := publicKey[5];
      ghost var a := OfflineFinding.Address(publicKey[..]);
      forall k | 0 <= k < 6
        ensures addr[k] == Reversed(a)[k]
      {
        ReversedAt(a, k);
      }
    }

    /**
     * `fill_adv_template_from_key`: key bytes 6..28 copied over template bytes 7..29 and the top
     * two bits of key byte 0 into byte 29; bytes 0..7 and 30 keep what they held.
     */
    method FillAdvTemplateFromKey()
      requires Valid()
      modifies template
      ensures template[..] ==
        old(template[..7]) + publicKey[6..28] + [OfflineFinding.TopTwoBits(publicKey[0])] + old(template[30..])
    {
      forall i | 7 <= i < 29 {
        template[i] := publicKey[i - 1];
      }
      template[29] := OfflineFinding.TopTwoBits(publicKey[0]);
    }

    /** The first two statements of `main`: from the loaded image to the broadcast values. */
    method Setup()
      requires Valid() && template[..] == OfflineFinding.Template()
      modifies addr, template
      ensures template[..] == OfflineFinding.Payload(publicKey[..])
      ensures addr[..] == Reversed(OfflineFinding.Address(publicKey[..]))
    {
      SetAddrFromKey();
      FillAdvTemplateFromKey();
    }
  }
}
