/**
 * Patching the micro:bit firmware image (`HaystackApp/MicrobitController.swift`): a window the
 * size of the pattern slides over the unpatched image, and every window that equals the pattern
 * is overwritten in a copy by the key. `deploy` patches the placeholder the beacon firmware was
 * built with by the accessory's advertisement key.
 */
module MicrobitController {
  import opened Common
  import OfflineFinding
  import Crypto
  import AccessoryModel

  datatype PatchingError = InequalLength | PatternNotFound

  /** What `deploy` can throw once the image is loaded: the key derivation's error or the patcher's. */
  datatype DeployError = KeyFailure(keyError: AccessoryModel.KeyError) | PatchFailure(patchError: PatchingError)

  /** How many starts the window takes before the guard stops it: those that leave room for the pattern. */
  function Windows(firmware: seq<byte>, pattern: seq<byte>): nat
  {
    if |pattern| <= |firmware| then |firmware| - |pattern| + 1 else 0
  }

  /** The window at `p` fits in the image and equals the pattern. */
  predicate MatchesAt(firmware: seq<byte>, pattern: seq<byte>, p: nat)
  {
    p + |pattern| <= |firmware| && firmware[p..p + |pattern|] == pattern
  }

  /**
   * Byte `j` of the copy once the windows starting before `n` have been looked at: taken from the
   * key when the last of them that matched covers `j`, the image's own byte otherwise.
   */
  function ByteAfter(firmware: seq<byte>, pattern: seq<byte>, key: seq<byte>, j: nat, n: nat): byte
    requires |pattern| == |key| && j < |firmware|
  {
    if n == 0 then firmware[j]
    else if MatchesAt(firmware, pattern, n - 1) && n - 1 <= j < n - 1 + |pattern| then key[j - (n - 1)]
    else ByteAfter(firmware, pattern, key, j, n - 1)
  }

  /** The copy once the windows starting before `n` have been looked at. */
  function Patched(firmware: seq<byte>, pattern: seq<byte>, key: seq<byte>, n: nat): (r: seq<byte>)
    requires |pattern| == |key|
    ensures |r| == |firmware|
  {
    seq(|firmware|, j requires 0 <= j < |firmware| => ByteAfter(firmware, pattern, key, j, n))
  }

  /** Some window of the image equals the pattern. */
  predicate Found(firmware: seq<byte>, pattern: seq<byte>)
  {
    exists p :: 0 <= p < Windows(firmware, pattern) && MatchesAt(firmware, pattern, p)
  }

  /** What `patchFirmware` returns or throws. */
  function Patch(firmware: seq<byte>, pattern: seq<byte>, key: seq<byte>): (r: Result<seq<byte>, PatchingError>)
    ensures r == Err(InequalLength) <==> |pattern| != |key|
    ensures r == Err(PatternNotFound) <==>
      |pattern| == |key| && forall p :: 0 <= p < Windows(firmware, pattern) ==> !MatchesAt(firmware, pattern, p)
    ensures r.Ok? ==> |r.value| == |firmware|
  {
    if |pattern| != |key| then Err(InequalLength)
    else if !Found(firmware, pattern) then Err(PatternNotFound)
    else Ok(Patched(firmware, pattern, key, Windows(firmware, pattern)))
  }

  /** Looking at window `n` changes the copy only there, and only when that window matches. */
  lemma PatchStep(firmware: seq<byte>, pattern: seq<byte>, key: seq<byte>, n: nat)
    requires |pattern| == |key| && n + |pattern| <= |firmware|
    ensures MatchesAt(firmware, pattern, n) ==>
      Patched(firmware, pattern, key, n + 1) ==
      Patched(firmware, pattern, key, n)[..n] + key + Patched(firmware, pattern, key, n)[n + |key|..]
    ensures !MatchesAt(firmware, pattern, n) ==>
      Patched(firmware, pattern, key, n + 1) == Patched(firmware, pattern, key, n)
  {
    var before := Patched(firmware, pattern, key, n);
    var after := Patched(firmware, pattern, key, n + 1);
    if MatchesAt(firmware, pattern, n) {
      var spliced := before[..n] + key + before[n + |key|..];
      assert |spliced| == |after|;
      forall j | 0 <= j < |after|
        ensures after[j] == spliced[j]
      {
        if j < n {
          assert spliced[j] == before[j];
        } else if j < n + |key| {
          assert spliced[j] == key[j - n];
        } else {
          assert spliced[j] == before[j];
        }
      }
    }
  }

  /** `patchFirmware`: the pattern and the key must be the same length; every match in the original image is replaced in the copy. */
  method PatchFirmware(firmware: seq<byte>, pattern: seq<byte>, key: seq<byte>) returns (r: Result<seq<byte>, PatchingError>)
    ensures r == Patch(firmware, pattern, key)
  {
    if |pattern| != |key| {
      return Err(InequalLength);
    }
    var patchedFirmware := firmware;
    var patchingSuccessful := false;
    var bytePosition := 0;
    while bytePosition <= |firmware|
      invariant bytePosition <= Windows(firmware, pattern)
      invariant patchedFirmware == Patched(firmware, pattern, key, bytePosition)
      invariant patchingSuccessful <==> exists p :: 0 <= p < bytePosition && MatchesAt(firmware, pattern, p)
    {
      if bytePosition + |pattern| > |firmware| {
        break;
      }
      PatchStep(firmware, pattern, key, bytePosition);
      var potentialPattern := firmware[bytePosition..bytePosition + |pattern|];
      if potentialPattern == pattern {
        patchedFirmware := patchedFirmware[..bytePosition] + key + patchedFirmware[bytePosition + |key|..];
        patchingSuccessful := true;
      }
      bytePosition := bytePosition + 1;
    }
    if !patchingSuccessful {
      return Err(PatternNotFound);
    }
    r := Ok(patchedFirmware);
  }

  /** A match covers byte `j` when `j` lies in its window. */
  predicate Covers(firmware: seq<byte>, pattern: seq<byte>, p: nat, j: nat)
  {
    MatchesAt(firmware, pattern, p) && p <= j < p + |pattern|
  }

  lemma {:induction false} ByteAfterOutside(firmware: seq<byte>, pattern: seq<byte>, key: seq<byte>, j: nat, n: nat)
    requires |pattern| == |key| && j < |firmware|
    requires forall p :: 0 <= p < n ==> !Covers(firmware, pattern, p, j)
    ensures ByteAfter(firmware, pattern, key, j, n) == firmware[j]
  {
    if n > 0 {
      assert !Covers(firmware, pattern, n - 1, j);
      ByteAfterOutside(firmware, pattern, key, j, n - 1);
    }
  }

  lemma {:induction false} ByteAfterInside(firmware: seq<byte>, pattern: seq<byte>, key: seq<byte>, j: nat, p: nat, n: nat)
    requires |pattern| == |key| && j < |firmware| && p < n
    requires Covers(firmware, pattern, p, j)
    requires forall q :: p < q < n ==> !Covers(firmware, pattern, q, j)
    ensures ByteAfter(firmware, pattern, key, j, n) == key[j - p]
  {
    if n - 1 > p {
      assert !Covers(firmware, pattern, n - 1, j);
      ByteAfterInside(firmware, pattern, key, j, p, n - 1);
    }
  }

  /** A byte that no matching window covers is the image's own byte. */
  lemma PatchOutside(firmware: seq<byte>, pattern: seq<byte>, key: seq<byte>, j: nat)
    requires Patch(firmware, pattern, key).Ok? && j < |firmware|
    requires forall p :: 0 <= p < |firmware| ==> !Covers(firmware, pattern, p, j)
    ensures Patch(firmware, pattern, key).value[j] == firmware[j]
  {
    ByteAfterOutside(firmware, pattern, key, j, Windows(firmware, pattern));
  }

  /**
   * A byte that matching windows cover comes from the key, at its place in the last such window:
   * matches are read from the unpatched image, so a later overlapping match overwrites an earlier one.
   */
  lemma PatchInside(firmware: seq<byte>, pattern: seq<byte>, key: seq<byte>, p: nat, j: nat)
    requires |pattern| == |key| && Covers(firmware, pattern, p, j)
    requires forall q :: p < q <= j ==> !Covers(firmware, pattern, q, j)
    ensures Patch(firmware, pattern, key).Ok?
    ensures Patch(firmware, pattern, key).value[j] == key[j - p]
  {
    assert p < Windows(firmware, pattern);
    ByteAfterInside(firmware, pattern, key, j, p, Windows(firmware, pattern));
  }

  /** A matching window that no later match overlaps holds the key after patching. */
  lemma PatchWindow(firmware: seq<byte>, pattern: seq<byte>, key: seq<byte>, p: nat)
    requires |pattern| == |key| && MatchesAt(firmware, pattern, p)
    requires forall q :: p < q < p + |pattern| ==> !MatchesAt(firmware, pattern, q)
    ensures Patch(firmware, pattern, key).Ok?
    ensures Patch(firmware, pattern, key).value[p..p + |pattern|] == key
  {
    assert p < Windows(firmware, pattern);
    var out := Patch(firmware, pattern, key).value;
    forall j | p <= j < p + |pattern|
      ensures out[j] == key[j - p]
    {
      PatchInside(firmware, pattern, key, p, j);
    }
  }

  /** The placeholder's last character, '!', occurs nowhere else in it. */
  lemma PlaceholderEndsUniquely()
    ensures OfflineFinding.PlaceholderBytes()[27] == 0x21
    ensures forall i :: 0 <= i < 27 ==> OfflineFinding.PlaceholderBytes()[i] != 0x21
  {
  }

  /** Two occurrences of the placeholder never overlap, since no proper suffix of it is a prefix. */
  lemma PlaceholderMatchesApart(firmware: seq<byte>, p: nat, q: nat)
    requires MatchesAt(firmware, OfflineFinding.PlaceholderBytes(), p) && p < q < p + 28
    ensures !MatchesAt(firmware, OfflineFinding.PlaceholderBytes(), q)
  {
    PlaceholderEndsUniquely();
    assert firmware[p + 27] == 0x21 by {
      assert firmware[p..p + 28][27] == firmware[p + 27];
    }
    if q + 28 <= |firmware| {
      assert firmware[q..q + 28][p + 27 - q] == firmware[p + 27];
    }
  }

  /** `deploy`: the placeholder the beacon firmware carries is patched by the accessory's advertisement key. */
  function Deploy(firmware: seq<byte>, accessory: AccessoryModel.Accessory, suite: Crypto.Suite): (r: Result<seq<byte>, DeployError>)
    ensures r.Ok? ==> |r.value| == |firmware|
    ensures r.Err? && r.error.KeyFailure? <==> accessory.GetAdvertisementKey(suite).Err?
  {
    match accessory.GetAdvertisementKey(suite)
    case Err(e) => Err(KeyFailure(e))
    case Ok(publicKey) =>
      match Patch(firmware, OfflineFinding.PlaceholderBytes(), publicKey)
      case Err(e) => Err(PatchFailure(e))
      case Ok(patched) => Ok(patched)
  }

  /**
   * Deploying never fails on lengths, and once the key is derived, every placeholder in the image
   * is replaced by the whole key; an image without one is refused.
   */
  lemma DeployReplacesPlaceholders(firmware: seq<byte>, accessory: AccessoryModel.Accessory, suite: Crypto.Suite)
    ensures Deploy(firmware, accessory, suite) != Err(PatchFailure(InequalLength))
    ensures accessory.GetAdvertisementKey(suite).Err? ==>
      Deploy(firmware, accessory, suite) == Err(KeyFailure(accessory.GetAdvertisementKey(suite).error))
    ensures accessory.GetAdvertisementKey(suite).Ok? ==>
      (Deploy(firmware, accessory, suite).Ok? <==> Found(firmware, OfflineFinding.PlaceholderBytes()))
    ensures forall p: nat :: accessory.GetAdvertisementKey(suite).Ok? && MatchesAt(firmware, OfflineFinding.PlaceholderBytes(), p) ==>
      Deploy(firmware, accessory, suite).Ok? &&
      Deploy(firmware, accessory, suite).value[p..p + 28] == accessory.GetAdvertisementKey(suite).value
  {
    var pb := OfflineFinding.PlaceholderBytes();
    var key := accessory.GetAdvertisementKey(suite);
    if key.Ok? {
      forall p: nat | MatchesAt(firmware, pb, p)
        ensures Patch(firmware, pb, key.value).Ok? && Patch(firmware, pb, key.value).value[p..p + 28] == key.value
      {
        forall q | p < q < p + |pb|
          ensures !MatchesAt(firmware, pb, q)
        {
          PlaceholderMatchesApart(firmware, p, q);
        }
        PatchWindow(firmware, pb, key.value, p);
      }
    }
  }
}
