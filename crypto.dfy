/**
 * The cryptographic primitives the app calls into (BoringSSL for P-224, CryptoKit for SHA-256
 * and AES-GCM). Their algorithms are not modelled: a `Suite` carries them as function values,
 * and the only facts assumed about them are the output sizes their standards fix, built into
 * the function types below.
 */
module Crypto {
  import opened Common

  /** SHA-256 (FIPS 180-4): every digest is 32 bytes. */
  type Sha256 = f: seq<byte> -> seq<byte> | forall m :: |f(m)| == 32
    witness (m: seq<byte>) => Zeros(32)

  /**
   * AES-GCM authenticated decryption (NIST SP 800-38D): key, nonce, ciphertext and tag give the
   * plaintext, of the ciphertext's length, or `None` when a parameter is rejected or the tag
   * does not authenticate.
   */
  type GcmOpen = f: (seq<byte>, seq<byte>, seq<byte>, seq<byte>) -> Option<seq<byte>> |
    forall k, n, c, t :: f(k, n, c, t).Some? ==> |f(k, n, c, t).value| == |c|
    witness (k: seq<byte>, n: seq<byte>, c: seq<byte>, t: seq<byte>) => None

  datatype Suite = Suite(
    sha256: Sha256,
    /** `BoringSSL.derivePublicKey`: the encoded P-224 public key of a private key, or nil. */
    derivePublicKey: seq<byte> -> Option<seq<byte>>,
    /** `BoringSSL.deriveSharedKey`: ECDH of a private key with an ephemeral public key, or nil. */
    deriveSharedKey: (seq<byte>, seq<byte>) -> Option<seq<byte>>,
    aesGcmOpen: GcmOpen)
}
