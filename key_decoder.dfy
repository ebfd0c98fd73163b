/**
 * The binary key-file parser of macOS 10.15.4 and later (`FindMy/FindMyKeyDecoder.swift`): a
 * three-byte magic and sixteen zero bytes identify the format, then from offset 32 come fixed
 * 118-byte records, each 32 unidentified bytes, a marker byte and, for a private key, the
 * 85-byte key.
 */
module KeyDecoder {
  import opened Common
  import opened FindMyModels
  import Crypto

  datatype KeyFileFormat = Catalina_10_15_4

  datatype ParsingError = WrongMagicBytes | WrongFormat | UnsupportedFormat

  /** "KEY" in ASCII. */
  const MAGIC: seq<byte> := [0x4B, 0x45, 0x59]

  /** What `checkFormat` can read without trapping: the magic, and when it matches, the zero block. */
  predicate Checkable(keyFile: seq<byte>)
  {
    |keyFile| >= 3 && (keyFile[..3] == MAGIC ==> |keyFile| >= 31)
  }

  /** The outcome of `checkFormat`: nothing when the file has the binary format, otherwise the error. */
  function FormatError(keyFile: seq<byte>): (r: Option<ParsingError>)
    requires Checkable(keyFile)
  {
    if keyFile[..3] != MAGIC then Some(WrongMagicBytes)
    else if !AllZero(keyFile[15..31]) then Some(WrongFormat)
    else None
  }

  /** The key a record's 85 key bytes describe; its hash is the SHA-256 of the advertised key. */
  function KeyOfRecord(fullKey: seq<byte>, suite: Crypto.Suite): (k: FindMyKey)
    requires |fullKey| == 85
    ensures |k.advertisedKey| == 28 && |k.hashedKey| == 32 && k.hashedKey == suite.sha256(k.advertisedKey)
  {
    FindMyKey(fullKey[1..29], suite.sha256(fullKey[1..29]), fullKey, None, None, Some(fullKey[29..57]), Some(fullKey))
  }

  /**
   * Where record `k` starts: records begin at offset 32 and are 118 bytes long, 32 unidentified
   * bytes, the marker byte, and 85 key bytes.
   */
  function Offset(k: nat): nat
  {
    32 + 118 * k
  }

  /**
   * The number of complete records from record `k` on, counted as the loop guard `i + 117 < count`
   * does: a trailing partial record is not one.
   */
  function CountFrom(keyFile: seq<byte>, k: nat): (n: nat)
    ensures k <= n && Offset(n) + 117 >= |keyFile|
    ensures k < n ==> Offset(n - 1) + 117 < |keyFile|
    decreases |keyFile| - Offset(k)
  {
    if Offset(k) + 117 < |keyFile| then CountFrom(keyFile, k + 1) else k
  }

  function RecordCount(keyFile: seq<byte>): (n: nat)
    ensures Offset(n) + 117 >= |keyFile|
    ensures 0 < n ==> Offset(n - 1) + 117 < |keyFile|
  {
    CountFrom(keyFile, 0)
  }

  /** There are as many records as fit whole after the 32-byte header. */
  lemma RecordCountValue(keyFile: seq<byte>)
    ensures RecordCount(keyFile) == if |keyFile| < 32 + 118 then 0 else (|keyFile| - 32) / 118
  {
    var n := RecordCount(keyFile);
    if n > 0 {
      assert Offset(n - 1) + 117 < |keyFile|;
      DivBounds(|keyFile| - 32, n);
    }
  }

  lemma DivBounds(x: nat, n: nat)
    requires 118 * n <= x < 118 * n + 118
    ensures x / 118 == n
  {
  }

  /** The marker byte of record `k`. */
  function Marker(keyFile: seq<byte>, k: nat): byte
    requires Offset(k) + 118 <= |keyFile|
  {
    keyFile[Offset(k) + 32]
  }

  /** The key of record `k`, from the 85 bytes after its marker. */
  function KeyAt(keyFile: seq<byte>, k: nat, suite: Crypto.Suite): FindMyKey
    requires Offset(k) + 118 <= |keyFile|
  {
    KeyOfRecord(keyFile[Offset(k) + 32 + 1..Offset(k) + 118], suite)
  }

  /** The first `n` records all fit in the file. */
  predicate Fit(keyFile: seq<byte>, n: nat)
  {
    n == 0 || Offset(n) <= |keyFile|
  }

  /** Every one of the first `n` records is marked 0x00 (public key only) or 0x01 (private key). */
  predicate ValidMarkers(keyFile: seq<byte>, n: nat)
    requires Fit(keyFile, n)
  {
    forall k :: 0 <= k < n ==> Marker(keyFile, k) == 0 || Marker(keyFile, k) == 1
  }

  /** The indices of the first `n` records that are marked 0x01, in file order. */
  function PrivateRecords(keyFile: seq<byte>, n: nat): (ks: seq<nat>)
    requires Fit(keyFile, n)
    ensures forall j :: 0 <= j < |ks| ==> ks[j] < n
  {
    if n == 0 then []
    else PrivateRecords(keyFile, n - 1) + (if Marker(keyFile, n - 1) == 1 then [n - 1] else [])
  }

  /** The keys of the first `n` records marked 0x01, in file order. */
  function KeysOf(keyFile: seq<byte>, n: nat, suite: Crypto.Suite): (keys: seq<FindMyKey>)
    requires Fit(keyFile, n)
  {
    var ks := PrivateRecords(keyFile, n);
    seq(|ks|, j requires 0 <= j < |ks| => KeyAt(keyFile, ks[j], suite))
  }

  /** The private records are listed in strictly increasing order, and each is marked 0x01. */
  lemma {:induction false} PrivateRecordsSound(keyFile: seq<byte>, n: nat)
    requires Fit(keyFile, n)
    ensures forall j :: 0 <= j < |PrivateRecords(keyFile, n)| ==> Marker(keyFile, PrivateRecords(keyFile, n)[j]) == 1
    ensures forall i, j :: 0 <= i < j < |PrivateRecords(keyFile, n)| ==>
      PrivateRecords(keyFile, n)[i] < PrivateRecords(keyFile, n)[j]
  {
    if n > 0 {
      PrivateRecordsSound(keyFile, n - 1);
    }
  }

  /** Every record marked 0x01 is listed. */
  lemma {:induction false} PrivateRecordsComplete(keyFile: seq<byte>, n: nat, k: nat)
    requires Fit(keyFile, n) && k < n && Marker(keyFile, k) == 1
    ensures k in PrivateRecords(keyFile, n)
  {
    if k < n - 1 {
      PrivateRecordsComplete(keyFile, n - 1, k);
    }
  }

  /** When every record is marked 0x01, record `j` is the `j`-th listed. */
  lemma {:induction false} PrivateRecordsAll(keyFile: seq<byte>, n: nat)
    requires Fit(keyFile, n)
    requires forall k :: 0 <= k < n ==> Marker(keyFile, k) == 1
    ensures |PrivateRecords(keyFile, n)| == n
    ensures forall j :: 0 <= j < n ==> PrivateRecords(keyFile, n)[j] == j
  {
    if n > 0 {
      PrivateRecordsAll(keyFile, n - 1);
    }
  }

  /** Reading one more record appends its key when it is marked 0x01, and nothing otherwise. */
  lemma KeysOfStep(keyFile: seq<byte>, n: nat, suite: Crypto.Suite)
    requires Fit(keyFile, n + 1)
    ensures KeysOf(keyFile, n + 1, suite) ==
      KeysOf(keyFile, n, suite) + (if Marker(keyFile, n) == 1 then [KeyAt(keyFile, n, suite)] else [])
  {
  }

  /** Every key comes from a record marked 0x01. */
  lemma KeysOfSound(keyFile: seq<byte>, n: nat, suite: Crypto.Suite)
    requires Fit(keyFile, n)
    ensures forall key | key in KeysOf(keyFile, n, suite) ::
      exists k :: 0 <= k < n && Marker(keyFile, k) == 1 && key == KeyAt(keyFile, k, suite)
  {
    var ks := PrivateRecords(keyFile, n);
    PrivateRecordsSound(keyFile, n);
    forall key | key in KeysOf(keyFile, n, suite)
      ensures exists k :: 0 <= k < n && Marker(keyFile, k) == 1 && key == KeyAt(keyFile, k, suite)
    {
      var j :| 0 <= j < |ks| && KeysOf(keyFile, n, suite)[j] == key;
      assert Marker(keyFile, ks[j]) == 1 && key == KeyAt(keyFile, ks[j], suite);
    }
  }

  /** Every record marked 0x01 gives its key: no private key is lost. */
  lemma KeysOfComplete(keyFile: seq<byte>, n: nat, suite: Crypto.Suite)
    requires Fit(keyFile, n)
    ensures forall k :: 0 <= k < n && Marker(keyFile, k) == 1 ==> KeyAt(keyFile, k, suite) in KeysOf(keyFile, n, suite)
  {
    var ks := PrivateRecords(keyFile, n);
    forall k | 0 <= k < n && Marker(keyFile, k) == 1
      ensures KeyAt(keyFile, k, suite) in KeysOf(keyFile, n, suite)
    {
      PrivateRecordsComplete(keyFile, n, k);
      var j :| 0 <= j < |ks| && ks[j] == k;
      assert KeysOf(keyFile, n, suite)[j] == KeyAt(keyFile, k, suite);
    }
  }

  /** What `parseBinaryKeyFiles` returns: the keys when every marker is valid, otherwise `wrongFormat`. */
  function ParseBinary(keyFile: seq<byte>, suite: Crypto.Suite): (r: Result<seq<FindMyKey>, ParsingError>)
  {
    var n := RecordCount(keyFile);
    if ValidMarkers(keyFile, n) then Ok(KeysOf(keyFile, n, suite)) else Err(WrongFormat)
  }

  /** The records laid end to end. */
  function Concat(records: seq<seq<byte>>): seq<byte>
  {
    if records == [] then [] else records[0] + Concat(records[1..])
  }

  predicate WholeRecords(records: seq<seq<byte>>)
  {
    forall j :: 0 <= j < |records| ==> |records[j]| == 118
  }

  lemma {:induction false} ConcatAt(records: seq<seq<byte>>, i: nat)
    requires i <= |records|
    requires WholeRecords(records)
    ensures |Concat(records)| == 118 * |records|
    ensures i < |records| ==> Concat(records)[118 * i..118 * i + 118] == records[i]
  {
    if records != [] {
      ConcatAt(records[1..], if i == 0 then 0 else i - 1);
      assert Concat(records) == records[0] + Concat(records[1..]);
      if i > 0 {
        assert 118 * i == 118 + 118 * (i - 1);
      }
    }
  }

  /** A record as the key store writes it: 32 bytes, the marker 0x01 and the 85-byte key. */
  function PrivateKeyRecord(prefix: seq<byte>, fullKey: seq<byte>): (r: seq<byte>)
    requires |prefix| == 32 && |fullKey| == 85
    ensures |r| == 118 && r[32] == 1 && r[32 + 1..] == fullKey
  {
    prefix + [1] + fullKey
  }

  /** In a file of whole records after a 32-byte header, record `k` is the `k`-th record written. */
  lemma RecordOfFile(header: seq<byte>, records: seq<seq<byte>>, k: nat)
    requires |header| == 32 && WholeRecords(records) && k < |records|
    ensures Offset(k) + 118 <= |header + Concat(records)|
    ensures (header + Concat(records))[Offset(k)..Offset(k) + 118] == records[k]
  {
    var file := header + Concat(records);
    ConcatAt(records, k);
    assert file[Offset(k)..Offset(k) + 118] == Concat(records)[118 * k..118 * k + 118];
  }

  /** A file of whole records after a 32-byte header holds exactly those records. */
  lemma RecordCountOfFile(header: seq<byte>, records: seq<seq<byte>>)
    requires |header| == 32 && WholeRecords(records)
    ensures RecordCount(header + Concat(records)) == |records|
  {
    ConcatAt(records, 0);
    CountOfWhole(header + Concat(records), |records|, 0);
  }

  lemma {:induction false} CountOfWhole(keyFile: seq<byte>, n: nat, k: nat)
    requires |keyFile| == Offset(n) && k <= n
    ensures CountFrom(keyFile, k) == n
    decreases n - k
  {
    if k < n {
      CountOfWhole(keyFile, n, k + 1);
    }
  }

  /** The records written for private keys `fullKeys`, each after its 32-byte prefix. */
  function PrivateKeyRecords(prefixes: seq<seq<byte>>, fullKeys: seq<seq<byte>>): (records: seq<seq<byte>>)
    requires |prefixes| == |fullKeys|
    requires forall j :: 0 <= j < |fullKeys| ==> |prefixes[j]| == 32 && |fullKeys[j]| == 85
    ensures |records| == |fullKeys| && WholeRecords(records)
  {
    seq(|fullKeys|, j requires 0 <= j < |fullKeys| => PrivateKeyRecord(prefixes[j], fullKeys[j]))
  }

  /**
   * Round trip: a key file of private-key records written after any 32-byte header parses to
   * one key per record, in order, each carrying the record's 85 key bytes.
   */
  lemma ParsesPrivateKeyRecords(header: seq<byte>, prefixes: seq<seq<byte>>, fullKeys: seq<seq<byte>>, suite: Crypto.Suite)
    requires |header| == 32 && |prefixes| == |fullKeys|
    requires forall j :: 0 <= j < |fullKeys| ==> |prefixes[j]| == 32 && |fullKeys[j]| == 85
    ensures ParseBinary(header + Concat(PrivateKeyRecords(prefixes, fullKeys)), suite).Ok?
    ensures |ParseBinary(header + Concat(PrivateKeyRecords(prefixes, fullKeys)), suite).value| == |fullKeys|
    ensures forall j :: 0 <= j < |fullKeys| ==>
      ParseBinary(header + Concat(PrivateKeyRecords(prefixes, fullKeys)), suite).value[j] == KeyOfRecord(fullKeys[j], suite)
  {
    var records := PrivateKeyRecords(prefixes, fullKeys);
    var file := header + Concat(records);
    RecordCountOfFile(header, records);
    var n := |records|;
    assert Fit(file, n);
    forall k | 0 <= k < n
      ensures Offset(k) + 118 <= |file| && Marker(file, k) == 1 && KeyAt(file, k, suite) == KeyOfRecord(fullKeys[k], suite)
    {
      PrivateKeyRecordAt(header, records, fullKeys[k], k, suite);
    }
    AllMarkedParses(file, n, suite);
    AllPrivateKeys(file, n, suite);
  }

  /** A file whose every record is marked 0x01 is well formed: it parses to the keys of its records. */
  lemma AllMarkedParses(file: seq<byte>, n: nat, suite: Crypto.Suite)
    requires RecordCount(file) == n && Fit(file, n)
    requires forall k :: 0 <= k < n ==> Offset(k) + 118 <= |file| && Marker(file, k) == 1
    ensures ParseBinary(file, suite) == Ok(KeysOf(file, n, suite))
  {
    assert ValidMarkers(file, n);
  }

  lemma PrivateKeyRecordAt(header: seq<byte>, records: seq<seq<byte>>, fullKey: seq<byte>, k: nat, suite: Crypto.Suite)
    requires |header| == 32 && WholeRecords(records) && k < |records| && |fullKey| == 85
    requires records[k][32] == 1 && records[k][32 + 1..] == fullKey
    ensures Offset(k) + 118 <= |header + Concat(records)|
    ensures Marker(header + Concat(records), k) == 1
    ensures KeyAt(header + Concat(records), k, suite) == KeyOfRecord(fullKey, suite)
  {
    var file := header + Concat(records);
    RecordOfFile(header, records, k);
    assert file[Offset(k)..Offset(k) + 118][32] == Marker(file, k);
    assert file[Offset(k)..Offset(k) + 118][32 + 1..] == file[Offset(k) + 32 + 1..Offset(k) + 118];
  }

  /** When every record is marked 0x01, there is one key per record, the `k`-th from record `k`. */
  lemma AllPrivateKeys(keyFile: seq<byte>, n: nat, suite: Crypto.Suite)
    requires Fit(keyFile, n)
    requires forall k :: 0 <= k < n ==> Marker(keyFile, k) == 1
    ensures |KeysOf(keyFile, n, suite)| == n
    ensures forall k :: 0 <= k < n ==> KeysOf(keyFile, n, suite)[k] == KeyAt(keyFile, k, suite)
  {
    PrivateRecordsAll(keyFile, n);
  }

  /** Bytes after the last complete record, fewer than a record, change nothing. */
  lemma TrailingBytesIgnored(keyFile: seq<byte>, tail: seq<byte>, suite: Crypto.Suite)
    requires |keyFile| >= 32 && (|keyFile| - 32) % 118 == 0
    requires |tail| < 118
    ensures ParseBinary(keyFile + tail, suite) == ParseBinary(keyFile, suite)
  {
    var n := RecordCount(keyFile);
    assert |keyFile| == Offset(n) by {
      RecordCountValue(keyFile);
    }
    CountOfWhole(keyFile, n, 0);
    CountOfTail(keyFile + tail, n, 0);
    PrefixKeys(keyFile, tail, n, suite);
  }

  lemma {:induction false} CountOfTail(keyFile: seq<byte>, n: nat, k: nat)
    requires Fit(keyFile, n) && |keyFile| < Offset(n) + 118 && k <= n
    ensures CountFrom(keyFile, k) == n
    decreases n - k
  {
    if k < n {
      CountOfTail(keyFile, n, k + 1);
    }
  }

  /** A record that fits whole with a marker other than 0x00 and 0x01 makes the whole file malformed. */
  lemma WrongMarker(keyFile: seq<byte>, n: nat, suite: Crypto.Suite)
    requires Offset(n) + 117 < |keyFile| && Marker(keyFile, n) != 0 && Marker(keyFile, n) != 1
    ensures ParseBinary(keyFile, suite) == Err(WrongFormat)
  {
    CountAtLeast(keyFile, n, 0);
  }

  /** A record that fits whole with a valid marker extends the valid prefix and, if marked 0x01, the keys. */
  lemma ValidStep(keyFile: seq<byte>, n: nat, suite: Crypto.Suite)
    requires Fit(keyFile, n) && ValidMarkers(keyFile, n) && Offset(n) + 117 < |keyFile|
    requires Marker(keyFile, n) == 0 || Marker(keyFile, n) == 1
    ensures Fit(keyFile, n + 1) && ValidMarkers(keyFile, n + 1)
    ensures KeysOf(keyFile, n + 1, suite) ==
      KeysOf(keyFile, n, suite) + (if Marker(keyFile, n) == 1 then [KeyAt(keyFile, n, suite)] else [])
  {
    KeysOfStep(keyFile, n, suite);
  }

  /** Once no further record fits whole, a file with valid markers so far parses to the keys read. */
  lemma AllRead(keyFile: seq<byte>, n: nat, suite: Crypto.Suite)
    requires Fit(keyFile, n) && ValidMarkers(keyFile, n) && |keyFile| < Offset(n) + 118
    ensures ParseBinary(keyFile, suite) == Ok(KeysOf(keyFile, n, suite))
  {
    CountOfTail(keyFile, n, 0);
  }

  lemma {:induction false} CountAtLeast(keyFile: seq<byte>, n: nat, k: nat)
    requires Offset(n) + 117 < |keyFile| && k <= n
    ensures CountFrom(keyFile, k) > n
    decreases n - k
  {
    if k < n {
      CountAtLeast(keyFile, n, k + 1);
    }
  }

  lemma {:induction false} PrefixRecords(keyFile: seq<byte>, tail: seq<byte>, n: nat)
    requires Fit(keyFile, n)
    ensures Fit(keyFile + tail, n)
    ensures forall k :: 0 <= k < n ==> Marker(keyFile + tail, k) == Marker(keyFile, k)
    ensures PrivateRecords(keyFile + tail, n) == PrivateRecords(keyFile, n)
  {
    if n > 0 {
      PrefixRecords(keyFile, tail, n - 1);
    }
  }

  lemma PrefixKeys(keyFile: seq<byte>, tail: seq<byte>, n: nat, suite: Crypto.Suite)
    requires Fit(keyFile, n)
    ensures Fit(keyFile + tail, n)
    ensures forall k :: 0 <= k < n ==> Marker(keyFile + tail, k) == Marker(keyFile, k)
    ensures KeysOf(keyFile + tail, n, suite) == KeysOf(keyFile, n, suite)
  {
    PrefixRecords(keyFile, tail, n);
    var ks := PrivateRecords(keyFile, n);
    forall j | 0 <= j < |ks|
      ensures KeyAt(keyFile + tail, ks[j], suite) == KeyAt(keyFile, ks[j], suite)
    {
      var o := Offset(ks[j]);
      assert (keyFile + tail)[o + 32 + 1..o + 118] == keyFile[o + 32 + 1..o + 118];
    }
  }

  class FindMyKeyDecoder {
    var fileFormat: Option<KeyFileFormat>

    constructor ()
      ensures fileFormat == None
    {
      fileFormat := None;
    }

    /**
     * `parse`: the format is detected on the first call only; once known, the magic and the
     * zero block are no longer looked at.
     */
    method Parse(keyFile: seq<byte>, suite: Crypto.Suite) returns (r: Result<seq<FindMyKey>, ParsingError>)
      requires fileFormat.None? ==> Checkable(keyFile)
      modifies this`fileFormat
      ensures old(fileFormat).Some? ==> fileFormat == old(fileFormat) && r == ParseBinary(keyFile, suite)
      ensures old(fileFormat).None? && FormatError(keyFile).Some? ==>
        fileFormat == None && r == Err(FormatError(keyFile).value)
      ensures old(fileFormat).None? && FormatError(keyFile).None? ==>
        fileFormat == Some(Catalina_10_15_4) && r == ParseBinary(keyFile, suite)
    {
      if fileFormat.None? {
        var checked := CheckFormat(keyFile);
        if checked.Err? {
          return Err(checked.error);
        }
      }
      if fileFormat.None? {
        return Err(UnsupportedFormat);
      }
      match fileFormat.value
      case Catalina_10_15_4 =>
        r := ParseBinaryKeyFiles(keyFile, suite);
    }

    /** `checkFormat`: "KEY", then sixteen zero bytes at 15; the format is remembered only on success. */
    method CheckFormat(keyFile: seq<byte>) returns (r: Result<(), ParsingError>)
      requires Checkable(keyFile)
      modifies this`fileFormat
      ensures FormatError(keyFile).Some? ==> r == Err(FormatError(keyFile).value) && fileFormat == old(fileFormat)
      ensures FormatError(keyFile).None? ==> r == Ok(()) && fileFormat == Some(Catalina_10_15_4)
    {
      var magicBytes := keyFile[0..3];
      if magicBytes != MAGIC {
        return Err(WrongMagicBytes);
      }
      var potentialZeros := keyFile[15..31];
      assert potentialZeros == Zeros(16) <==> AllZero(keyFile[15..31]);
      if potentialZeros != Zeros(16) {
        return Err(WrongFormat);
      }
      fileFormat := Some(Catalina_10_15_4);
      r := Ok(());
    }

    /** The 85 bytes after a 0x01 marker: the full key, its x coordinate and its y coordinate. */
    static method ReadKey(keyFile: seq<byte>, ghost n: nat, i: nat, suite: Crypto.Suite) returns (fmKey: FindMyKey)
      requires Offset(n) + 118 <= |keyFile| && i == Offset(n) + 33
      ensures fmKey == KeyAt(keyFile, n, suite)
    {
      var fullKey := keyFile[i..i + 85];
      var advertisedKey := fullKey[1..29];
      var yCoordinate := fullKey[29..57];
      var hashedKey := suite.sha256(advertisedKey);
      fmKey := FindMyKey(advertisedKey, hashedKey, fullKey, None, None, Some(yCoordinate), Some(fullKey));
    }

    /**
     * One turn of the loop of `parseBinaryKeyFiles`, from the start of record `n`: past the 32
     * unidentified bytes, a 0x00 marker skips the record, a 0x01 marker reads its key, and any
     * other marker is a format error.
     */
    static method ReadRecord(keyFile: seq<byte>, ghost n: nat, i: nat, keys: seq<FindMyKey>, suite: Crypto.Suite)
      returns (next: nat, keys': seq<FindMyKey>, wrongFormat: bool)
      requires i == Offset(n) && Offset(n) + 117 < |keyFile|
      requires Fit(keyFile, n) && ValidMarkers(keyFile, n) && keys == KeysOf(keyFile, n, suite)
      ensures wrongFormat ==> ParseBinary(keyFile, suite) == Err(WrongFormat)
      ensures !wrongFormat ==> next == Offset(n + 1) && Fit(keyFile, n + 1) && ValidMarkers(keyFile, n + 1)
      ensures !wrongFormat ==> keys' == KeysOf(keyFile, n + 1, suite)
    {
      var j := i + 32;
      if keyFile[j] == 0x00 {
        ValidStep(keyFile, n, suite);
        return j + 86, keys, false;
      }
      if keyFile[j] != 0x01 {
        WrongMarker(keyFile, n, suite);
        return j, keys, true;
      }
      ValidStep(keyFile, n, suite);
      j := j + 1;
      var fmKey := ReadKey(keyFile, n, j, suite);
      return j + 85, keys + [fmKey], false;
    }

    /** `parseBinaryKeyFiles`: the cursor walks the records from offset 32, 118 bytes at a time. */
    method ParseBinaryKeyFiles(keyFile: seq<byte>, suite: Crypto.Suite) returns (r: Result<seq<FindMyKey>, ParsingError>)
      ensures r == ParseBinary(keyFile, suite)
    {
      var keys: seq<FindMyKey> := [];
      var i: nat := 32;
      ghost var n: nat := 0;
      while i + 117 < |keyFile|
        invariant i == Offset(n) && Fit(keyFile, n)
        invariant ValidMarkers(keyFile, n) && keys == KeysOf(keyFile, n, suite)
        decreases |keyFile| - i
      {
        var wrongFormat;
        i, keys, wrongFormat := ReadRecord(keyFile, n, i, keys, suite);
        if wrongFormat {
          return Err(WrongFormat);
        }
        n := n + 1;
      }
      AllRead(keyFile, n, suite);
      r := Ok(keys);
    }
  }
}
