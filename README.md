# OpenHaystack core in Dafny

OpenHaystack lets people track their own Bluetooth devices through Apple's Find My network.
- A small firmware on a Linux HCI device, a BBC micro:bit (v1 or v2) or an nRF board broadcasts an
  offline-finding advertisement. It carries a P-224 public key chosen by the macOS app.
- Apple devices that hear it upload encrypted location reports.
- The app fetches these reports by the hash of each key, decrypts them with the matching private
  key and shows them.

This project models the byte-level and decision logic of that system and proves properties of the model.
Cryptography (SHA-256, P-224 key derivation and ECDH, AES-GCM) is a record of function values
(`Crypto.Suite`). Nothing in the model depends on how these functions compute.

Modules, one per source file, plus shared helpers:

- `Common`, `Strings`, `Numerals`, `Base64`: bytes, `Option`/`Result`, big- and little-endian integers,
  and the library semantics the sources rely on (Swift `split`, `Int(String)`, `String(Int)`,
  `replacingOccurrences`, `filter`; Python `str.join`; RFC 4648 Base64).
- `Crypto`, `FindMyModels`: the opaque primitives and the Find My records (key, device, report,
  location report).
- `OfflineFinding`: the 31-byte advertisement template, the key-to-payload and key-to-address rules
  shared by the firmwares, and the recovery of the key from address and payload.
- `Hci`, `MicrobitV1`, `MicrobitV2`: the three firmware encoders.
  - `MicrobitV1` and `MicrobitV2` fill a template array in place.
  - `MicrobitV2` also clamps the advertising interval.
- `Advertisement`, `NearbyMonitor`: the app-side decoder of manufacturer data and the matching of
  decoded payloads to accessories, with the `isNearby` update.
- `AccessoryModel`: the accessory record, its key getters, its conversion to a Find My device, its
  equality and hash, its decode defaults and the `isDeployed`/`isNearby`/`isActive` observers.
- `DecryptReports`: payload normalisation and slicing, the X9.63 KDF input layout (section 3.6.1 of
  SEC 1 v2), the key/IV split and the location decoding.
- `FindMyControllerModel`: the controller.
  - Report decryption into an index-addressed slot array.
  - Device import and report import.
  - Fetch queries and the key-hash list.
- `AccessoryControllerModel`: the accessory list.
  - Latest-report selection, deletion and addition.
  - The merge and sort of imported accessories, and the mapping of download errors.
- `KeyDecoder`: the cursor-driven parser of the binary key files (magic bytes, zero padding,
  118-byte records, remembered file format).
- `MicrobitController`, `FlashNrf`, `NrfInstallSheet`: firmware patching by sliding-window pattern
  replacement, the nRF flash-script argument checks and little-endian interval encoding, and the
  install sheet's interval computation, digit filter and result updates.
- `AccessoryListEntry`, `APISourceModel`, `UpdateCheck`: key export strings, the API source
  raw-value codec, version comparison and release-tag extraction.
- `Uf2Conv`: Microsoft's UF2 container (32-byte header, at most 476 payload bytes, end magic),
  both directions.
- `CodalUtils`: the snapshot version bump of the micro:bit build tooling, with the git outputs as inputs.
- `MdConverter`, `DoxygenExtractor`: the documentation generator's list and text helpers over an
  abstract XML tree.
- `MemInfo`: the linker-map section state machine and size aggregation.

Swift traps (an out-of-range `subdata`, a forced unwrap) are preconditions.
Thrown errors, Python exceptions and `exit` calls are `Result` errors.
Objects whose fields the source updates in place are classes:
- `FindMyController`, `AccessoryController`, `Accessory`, `FindMyKeyDecoder`, `AccessoryNearbyMonitor`;
- `NRFInstallSheet` and its `NumbersOnly` text field;
- the `Beacon` of each micro:bit firmware, which fills its template array in place;
- `IntelHexImage`, the firmware image that the nRF flash script patches.

## Model

| member | source | states |
|---|---|---|
| AccessoryModel.Accessory.constructor | OpenHaystack/OpenHaystack/HaystackApp/Model/Accessory.swift:31-57 | every stored property starts from the given values; the observers do not run, so the accessory is not nearby and has no locations yet |
| AccessoryModel.Accessory.Create | OpenHaystack/OpenHaystack/HaystackApp/Model/Accessory.swift:59-69 | fails with keyGenerationFailed exactly when no key is generated; otherwise the key's hash is the id and the accessory is neither deployed, active nor nearby |
| AccessoryModel.Accessory.Decode | OpenHaystack/OpenHaystack/HaystackApp/Model/Accessory.swift:71-78 | name, id and private key are required and the first missing one is reported; icon and both flags fall back to "", false and false |
| AccessoryModel.Accessory.SetIsDeployed | OpenHaystack/OpenHaystack/HaystackApp/Model/Accessory.swift:39-46 | deploying an accessory that was not deployed clears its active flag; any other assignment leaves the flag alone |
| AccessoryModel.Accessory.SetIsNearby | OpenHaystack/OpenHaystack/HaystackApp/Model/Accessory.swift:50-56 | an accessory seen nearby becomes active; losing it never clears the active flag |
| AccessoryModel.Accessory.GetActualPublicKey | OpenHaystack/OpenHaystack/HaystackApp/Model/Accessory.swift:110-115 | succeeds exactly when the public key can be derived, otherwise keyDerivationFailed |
| AccessoryModel.Accessory.GetAdvertisementKey | OpenHaystack/OpenHaystack/HaystackApp/Model/Accessory.swift:117-127 | succeeds exactly when the derived key has 29 bytes, and then yields the 28 bytes after its format byte |
| AccessoryModel.Accessory.HashedPublicKey | OpenHaystack/OpenHaystack/HaystackApp/Model/Accessory.swift:141-148 | succeeds with the advertisement key and is then its 32-byte SHA-256 digest |
| AccessoryModel.Accessory.GetKeyId | OpenHaystack/OpenHaystack/HaystackApp/Model/Accessory.swift:133-135 | the 44-character Base64 text from which the hashed key decodes back |
| AccessoryModel.Accessory.ToFindMyDevice | OpenHaystack/OpenHaystack/HaystackApp/Model/Accessory.swift:150-168 | one key holding the advertisement key and the private key, whose key id is the accessory's key id, under the id in decimal and with no reports yet |
| AccessoryModel.EqualsHashConsistent | OpenHaystack/OpenHaystack/HaystackApp/Model/Accessory.swift:137-139 | accessories that compare equal feed the hasher the same input, as Hashable demands of == at line 181-183 |
| AccessoryModel.DeviceIdRoundTrip | OpenHaystack/OpenHaystack/HaystackApp/Model/Accessory.swift:162-163 | the decimal device id parses back to the accessory's 64-bit id |
| AccessoryControllerModel.LatestIndex | OpenHaystack/OpenHaystack/HaystackApp/AccessoryController.swift:66-68 | the chosen report is at least as new as every other one (a missing timestamp ranking as the distant past) and strictly newer than every report listed before it |
| AccessoryControllerModel.LatestReport | OpenHaystack/OpenHaystack/HaystackApp/AccessoryController.swift:66-68 | a report is chosen exactly when the device has a non-empty list of decrypted reports; it is one of them and no other one is newer |
| AccessoryControllerModel.FirstWithId | OpenHaystack/OpenHaystack/HaystackApp/AccessoryController.swift:62 | the first accessory whose id equals the parsed device id, or none when no accessory has it or the id does not parse |
| AccessoryControllerModel.LastDeviceForNamesId | OpenHaystack/OpenHaystack/HaystackApp/AccessoryController.swift:61-62 | an accessory only takes locations from a device in the list whose id parses to its own id |
| AccessoryControllerModel.LastDeviceStep | OpenHaystack/OpenHaystack/HaystackApp/AccessoryController.swift:61-73 | one more device decides the locations of its own target and of no other accessory |
| AccessoryControllerModel.AssignLocations | OpenHaystack/OpenHaystack/HaystackApp/AccessoryController.swift:64-72 | the accessory's locations become the device's decrypted reports, its last location and timestamp those of the newest report, and nothing else of it changes |
| AccessoryControllerModel.InsertKeepsSorted | OpenHaystack/OpenHaystack/HaystackApp/AccessoryController.swift:144 | inserting one accessory into a list sorted by name keeps it sorted |
| AccessoryControllerModel.SortByName | OpenHaystack/OpenHaystack/HaystackApp/AccessoryController.swift:144 | the sorted list is ordered by name and a permutation of the input |
| AccessoryControllerModel.NewIds | OpenHaystack/OpenHaystack/HaystackApp/AccessoryController.swift:142 | keeps exactly the imported accessories whose id no existing accessory has, each as often as it was imported and none more often |
| AccessoryControllerModel.AllReports | OpenHaystack/OpenHaystack/HaystackApp/AccessoryController.swift:181-182 | the flattened reports are empty exactly when no device has a non-empty report list |
| AccessoryControllerModel.AccessoryController.constructor | OpenHaystack/OpenHaystack/HaystackApp/AccessoryController.swift:21-26 | the controller starts with the given accessories |
| AccessoryControllerModel.AccessoryController.UpdateWithDecryptedReports | OpenHaystack/OpenHaystack/HaystackApp/AccessoryController.swift:59-75 | every accessory ends with the locations of the last device whose id selects it; accessories no device selects keep theirs, and no other field changes |
| AccessoryControllerModel.AccessoryController.UpdateWithDevice | OpenHaystack/OpenHaystack/HaystackApp/AccessoryController.swift:62-73 | one device: only the first accessory with its id takes its locations |
| AccessoryControllerModel.AccessoryController.Delete | OpenHaystack/OpenHaystack/HaystackApp/AccessoryController.swift:77-86 | removes the first accessory equal to the given one, keeping the others in order; without an equal one the list is unchanged |
| AccessoryControllerModel.DeleteRemovesOne | OpenHaystack/OpenHaystack/HaystackApp/AccessoryController.swift:79-81 | removing at a present index drops exactly that one occurrence |
| AccessoryControllerModel.FirstEqual | OpenHaystack/OpenHaystack/HaystackApp/AccessoryController.swift:79 | the index of the first accessory equal under == , or the list length when there is none |
| AccessoryControllerModel.AccessoryController.AddAccessory | OpenHaystack/OpenHaystack/HaystackApp/AccessoryController.swift:88-94 | a successfully created accessory is appended at the end; a key-generation failure leaves the list unchanged |
| AccessoryControllerModel.AccessoryController.MergeImported | OpenHaystack/OpenHaystack/HaystackApp/AccessoryController.swift:138-146 | the new list is sorted by name and holds exactly the old accessories plus the imported ones with a new id |
| AccessoryControllerModel.AccessoryController.DownloadLocationReports | OpenHaystack/OpenHaystack/HaystackApp/AccessoryController.swift:161-193 | each failure maps to its alert (plugin, empty or missing token, fetch failure, no reports) and leaves the accessories unchanged; only a fetch with reports assigns the devices' locations |
| AccessoryListEntry.CopyAdvertisementKey | OpenHaystack/OpenHaystack/HaystackApp/Views/AccessoryListEntry.swift:147-167 | text is copied exactly when the advertisement key can be derived |
| AccessoryListEntry.UnescapeEscaped | OpenHaystack/OpenHaystack/HaystackApp/Views/AccessoryListEntry.swift:152-153 | splitting the escaped-string export at its backslashes and reading each part's hex digits gives back every byte of the key |
| AccessoryListEntry.EscapedAsJoin | OpenHaystack/OpenHaystack/HaystackApp/Views/AccessoryListEntry.swift:153 | the escaped form is a backslash followed by the per-byte parts joined by backslashes |
| AccessoryListEntry.UnescapePartsOf | OpenHaystack/OpenHaystack/HaystackApp/Views/AccessoryListEntry.swift:153 | each per-byte part reads back to its byte |
| AccessoryListEntry.EscapedLength | OpenHaystack/OpenHaystack/HaystackApp/Views/AccessoryListEntry.swift:153 | each byte adds its own escape to the text, three characters below 16 and four otherwise (the hex digits are not zero-padded) |
| AccessoryListEntry.ByteArrayLiteralItems | OpenHaystack/OpenHaystack/HaystackApp/Views/AccessoryListEntry.swift:157-158 | the byte-array export has one comma-separated item per byte, and reading each item's hex digits gives back the bytes |
| AccessoryListEntry.JoinCommaAsJoin | OpenHaystack/OpenHaystack/HaystackApp/Views/AccessoryListEntry.swift:158 | joining with ", " is joining at commas the items that after the first carry a leading space |
| AccessoryListEntry.HexLiteralReads | OpenHaystack/OpenHaystack/HaystackApp/Views/AccessoryListEntry.swift:158 | one item, with or without its leading space, reads back to its byte and holds no comma |
| AccessoryListEntry.ReadAllSpaced | OpenHaystack/OpenHaystack/HaystackApp/Views/AccessoryListEntry.swift:158 | the items after the first read back to their bytes |
| AccessoryListEntry.CombinedExportsLines | OpenHaystack/OpenHaystack/HaystackApp/Views/AccessoryListEntry.swift:169-197 | both combined exports are two lines: the symmetric key after "Symmetric key: " and the public key after " Uncompressed public key: ", escaped or in Base64 |
| AccessoryListEntry.KeysTextLines | OpenHaystack/OpenHaystack/HaystackApp/Views/AccessoryListEntry.swift:178 | the combined text splits at its line break into the two labelled key strings when neither holds a line break |
| AccessoryListEntry.EscapedHasNoNewline | OpenHaystack/OpenHaystack/HaystackApp/Views/AccessoryListEntry.swift:173-174 | the escaped form of any bytes holds no line break |
| AccessoryListEntry.Base64HasNoNewline | OpenHaystack/OpenHaystack/HaystackApp/Views/AccessoryListEntry.swift:192 | the Base64 form of any bytes holds no line break |
| AccessoryListEntry.PrivateKeyExportRoundTrip | OpenHaystack/OpenHaystack/HaystackApp/Views/AccessoryListEntry.swift:199-206 | the private-key export decodes back to the stored private key |
| AccessoryListEntry.Escaped | OpenHaystack/OpenHaystack/HaystackApp/Views/AccessoryListEntry.swift:153 | the escaped-string export: for each byte in order a backslash, 'x' and its unpadded lower-case hex digits; UnescapeEscaped proves it reads back to every byte |
| AccessoryListEntry.ByteArrayLiteral | OpenHaystack/OpenHaystack/HaystackApp/Views/AccessoryListEntry.swift:158 | the byte-array export: "0x" and the unpadded lower-case hex digits of each byte, separated by ", "; ByteArrayLiteralItems proves one item per byte that reads back |
| AccessoryListEntry.SymmetricAndPublicKey | OpenHaystack/OpenHaystack/HaystackApp/Views/AccessoryListEntry.swift:169-182 | the symmetric key and the uncompressed public key, both escaped, after "Symmetric key: " and "\n Uncompressed public key: ", with a trailing space; the keys are inputs |
| AccessoryListEntry.SymmetricAndPublicKeyBase64 | OpenHaystack/OpenHaystack/HaystackApp/Views/AccessoryListEntry.swift:184-195 | the same two-line layout with both keys in Base64 |
| AccessoryListEntry.CopyPrivateKey | OpenHaystack/OpenHaystack/HaystackApp/Views/AccessoryListEntry.swift:199-206 | the stored private key in Base64 |
| Advertisement.ExtractPublicKeyFromPayload | OpenHaystack/OpenHaystack/HaystackApp/Bluetooth/Advertisement.swift:33-54 | accepts exactly 29-byte data starting 4C 00 12 19 and yields its 22 bytes from offset 5 |
| Advertisement.FromManufacturerData | OpenHaystack/OpenHaystack/HaystackApp/Bluetooth/Advertisement.swift:24-29 | an advertisement exists exactly for offline-finding manufacturer data and carries its key bytes |
| Advertisement.FromAdvertisementData | OpenHaystack/OpenHaystack/HaystackApp/Bluetooth/Advertisement.swift:17-22 | an advertisement exists exactly when the dictionary's manufacturer-data entry is Data in the offline-finding layout |
| Advertisement.DecodesFirmwarePayload | OpenHaystack/OpenHaystack/HaystackApp/Bluetooth/Advertisement.swift:33-54 | the payload the beacon firmware broadcasts, after its length and type bytes, decodes to key bytes 6 to 27 |
| Advertisement.ScannerRecoversKey | OpenHaystack/OpenHaystack/HaystackApp/Bluetooth/Advertisement.swift:24-29 | the address bytes after the first and the decoded payload together give back the key after its first byte |
| Advertisement.MissingOrEmptyData | OpenHaystack/OpenHaystack/HaystackApp/Bluetooth/Advertisement.swift:17-20 | missing or empty manufacturer data yields no advertisement |
| Advertisement.ExtractSample | OpenHaystack/OpenHaystack/HaystackApp/Bluetooth/Advertisement.swift:33-54 | a concrete 29-byte element decodes to its 22 key bytes |
| APISourceModel.Parse | OpenHaystack/OpenHaystack/HaystackApp/Model/APISource.swift:55-70 | the first non-empty component selects the case: "mailPlugin" always gives the Mail plug-in, "reportsServer" gives a server with one to three components, and anything else, or no component, gives nothing |
| APISourceModel.Components | OpenHaystack/OpenHaystack/HaystackApp/Model/APISource.swift:72-85 | the stored text has at least the tag; a header is stored only after a URL |
| APISourceModel.EqualityAndHash | OpenHaystack/OpenHaystack/HaystackApp/Model/APISource.swift:24-48 | == is an equivalence that ignores the server options, and equal sources feed the hasher the same marker |
| APISourceModel.MailPluginRoundTrip | OpenHaystack/OpenHaystack/HaystackApp/Model/APISource.swift:55-85 | the Mail plug-in is stored as its tag and read back as itself |
| APISourceModel.MailPluginIgnoresRest | OpenHaystack/OpenHaystack/HaystackApp/Model/APISource.swift:59-60 | whatever components follow a leading "mailPlugin" are ignored |
| APISourceModel.ReportsServerRoundTrip | OpenHaystack/OpenHaystack/HaystackApp/Model/APISource.swift:55-85 | server options with a parsing URL and separator-free fields read back unchanged; without a URL the header is lost |
| APISourceModel.EmptyHeaderIsLost | OpenHaystack/OpenHaystack/HaystackApp/Model/APISource.swift:80-83 | an empty header leaves a trailing separator, and that empty component reads back as no header |
| APISourceModel.SplitTrailingSeparator | OpenHaystack/OpenHaystack/HaystackApp/Model/APISource.swift:56 | a separator at the end adds no component, because split drops empty ones |
| APISourceModel.EmptyFieldsDropped | OpenHaystack/OpenHaystack/HaystackApp/Model/APISource.swift:56-64 | "reportsServer" followed by two separators and a URL reads the URL as the second component |
| Base64.Encode | OpenHaystack/OpenHaystack/HaystackApp/Model/Accessory.swift:133-135 | four characters for every started group of three bytes |
| Base64.DecodeEncode | OpenHaystack/OpenHaystack/HaystackApp/Model/Accessory.swift:133-135 | decoding the Base64 text of any bytes gives those bytes back |
| Base64.EncodeInjective | OpenHaystack/OpenHaystack/FindMy/FindMyController.swift:208 | different byte strings have different Base64 texts, so the hashed-key texts used as map keys never collide |
| Base64.BlockRoundTrip | OpenHaystack/OpenHaystack/HaystackApp/Model/Accessory.swift:133-135 | a full group of three bytes decodes back from its four unpadded characters |
| Base64.OneByteRoundTrip | OpenHaystack/OpenHaystack/HaystackApp/Model/Accessory.swift:133-135 | a final single byte decodes back from its doubly padded group |
| Base64.TwoBytesRoundTrip | OpenHaystack/OpenHaystack/HaystackApp/Model/Accessory.swift:133-135 | a final pair of bytes decodes back from its singly padded group |
| Base64.DecodeEncodeStep | OpenHaystack/OpenHaystack/HaystackApp/Model/Accessory.swift:133-135 | the text of more than two bytes decodes to its first three bytes followed by the decoding of the rest |
| CodalUtils.DigitRun | Firmware/Microbit_v2/utils/python/codal_utils.py:98 | a greedy \d+ stops at the end of the text or at the first non-digit |
| CodalUtils.DigitRunDigits | Firmware/Microbit_v2/utils/python/codal_utils.py:98 | everything a greedy \d+ takes is a digit |
| CodalUtils.BranchRun | Firmware/Microbit_v2/utils/python/codal_utils.py:98 | a greedy [\w\-]+ stops at the end of the text or at the first other character |
| CodalUtils.BranchRunChars | Firmware/Microbit_v2/utils/python/codal_utils.py:98 | every prefix of that run is made of branch characters |
| CodalUtils.SuffixWithRun | Firmware/Microbit_v2/utils/python/codal_utils.py:98 | a suffix found after backtracking has a non-empty branch of [\w\-] characters |
| CodalUtils.Matches | Firmware/Microbit_v2/utils/python/codal_utils.py:98 | the match at each position of the log, one per position |
| CodalUtils.FirstSomeNone | Firmware/Microbit_v2/utils/python/codal_utils.py:98-99 | the scan finds nothing exactly when no position matches |
| CodalUtils.FirstSomeLeftmost | Firmware/Microbit_v2/utils/python/codal_utils.py:98 | the scan returns the match at a position before which nothing matches |
| CodalUtils.SearchNone | Firmware/Microbit_v2/utils/python/codal_utils.py:98-101 | re.search finds nothing exactly when the pattern matches at no position of the log |
| CodalUtils.SearchLeftmost | Firmware/Microbit_v2/utils/python/codal_utils.py:98 | re.search returns the match at the leftmost matching position |
| CodalUtils.NextVersion | Firmware/Microbit_v2/utils/python/codal_utils.py:94-124 | an explicit version is returned as given; otherwise the run fails exactly when the log holds no snapshot, or when -b is absent off master, and never for another reason |
| CodalUtils.NextVersionOfLeftmost | Firmware/Microbit_v2/utils/python/codal_utils.py:97-124 | a computed version is the bump of the leftmost snapshot the pattern finds in the log |
| CodalUtils.BumpAdvances | Firmware/Microbit_v2/utils/python/codal_utils.py:115-123 | without -b the new version's numbers come strictly after the last snapshot's, and it has no branch suffix |
| CodalUtils.BranchBump | Firmware/Microbit_v2/utils/python/codal_utils.py:105-114 | with -b the numbers stay and the counter is one more than the last snapshot's on the same branch, or 0 otherwise |
| CodalUtils.DigitRunOf | Firmware/Microbit_v2/utils/python/codal_utils.py:98 | a greedy \d+ at a written numeral takes exactly that numeral |
| CodalUtils.BranchRunOf | Firmware/Microbit_v2/utils/python/codal_utils.py:98 | a greedy [\w\-]+ at a written branch name takes exactly that name |
| CodalUtils.SuffixReadBack | Firmware/Microbit_v2/utils/python/codal_utils.py:98-114 | a written "-branch.counter" suffix is read back as itself |
| CodalUtils.VersionReadBack | Firmware/Microbit_v2/utils/python/codal_utils.py:98-124 | a written version after "Snapshot v" is read back with all its numbers and its suffix |
| CodalUtils.FormatReparses | Firmware/Microbit_v2/utils/python/codal_utils.py:124-147 | the snapshot commit message "Snapshot " + version, followed by text that cannot extend it, matches the pattern and gives back that version |
| CodalUtils.NextVersionReparses | Firmware/Microbit_v2/utils/python/codal_utils.py:94-147 | the version returned, once committed as "Snapshot <version>", is what the next run's search finds |
| DecryptReports.Normalise | OpenHaystack/OpenHaystack/FindMy/DecryptReports.swift:23-28 | a payload longer than 88 bytes loses exactly one byte; a shorter one is kept as it is |
| DecryptReports.NormaliseUndoesInsertion | OpenHaystack/OpenHaystack/FindMy/DecryptReports.swift:24-28 | the byte the newer report format inserts at index 5 is exactly the one removed |
| DecryptReports.PayloadLayout | OpenHaystack/OpenHaystack/FindMy/DecryptReports.swift:32-43 | ephemeral key, ciphertext and tag tile the payload after its first five bytes, one byte further on in a long payload |
| DecryptReports.Counter | OpenHaystack/OpenHaystack/FindMy/DecryptReports.swift:95-96 | the counter block is the value 1 in four big-endian bytes |
| DecryptReports.Kdf | OpenHaystack/OpenHaystack/FindMy/DecryptReports.swift:91-103 | the derived key is the 32-byte SHA-256 of the shared secret, the counter 00 00 00 01 and the ephemeral key |
| DecryptReports.DecryptPayload | OpenHaystack/OpenHaystack/FindMy/DecryptReports.swift:59-71 | decryption succeeds exactly when AES-GCM opens under the first 16 bytes as key and the rest as nonce, and yields as many bytes as the ciphertext |
| DecryptReports.KeyNonceSplit | OpenHaystack/OpenHaystack/FindMy/DecryptReports.swift:60-61 | the key and nonce halves of a 32-byte derived key are 16 bytes each and together the whole key |
| DecryptReports.Decode | OpenHaystack/OpenHaystack/FindMy/DecryptReports.swift:73-89 | latitude and longitude are the big-endian signed 32-bit values in bytes 0-3 and 4-7, accuracy is byte 8, and the dates and confidence come from the encrypted report |
| DecryptReports.DecodeEncoded | OpenHaystack/OpenHaystack/FindMy/DecryptReports.swift:73-89 | the content a finder encodes reads back as the location it encoded |
| DecryptReports.Decrypt | OpenHaystack/OpenHaystack/FindMy/DecryptReports.swift:22-49 | a failed key agreement raises "Failed generating shared key", any other failure is the AES-GCM one, and a success keeps the report's dates and confidence |
| DecryptReports.FinderLayout | OpenHaystack/OpenHaystack/FindMy/DecryptReports.swift:23-43 | a finder's payload in either format normalises to 88 bytes whose slices are its ephemeral key, ciphertext and tag |
| DecryptReports.DecryptsFinderReport | OpenHaystack/OpenHaystack/FindMy/DecryptReports.swift:22-49 | end to end, a finder's report whose ciphertext opens to an encoded location decrypts to that location |
| Common.Int32BERoundTrip | OpenHaystack/OpenHaystack/FindMy/DecryptReports.swift:74-80 | a signed 32-bit value survives its four big-endian bytes |
| Common.Int32BEOfDecode | OpenHaystack/OpenHaystack/FindMy/DecryptReports.swift:74-80 | four bytes survive being read as a big-endian signed value |
| FindMyModels.KeyIdCollision | OpenHaystack/OpenHaystack/FindMy/FindMyController.swift:44-47 | two keys share a report id exactly when their hashed keys are equal |
| FindMyControllerModel.KeyMapOf | OpenHaystack/OpenHaystack/FindMy/FindMyController.swift:208 | every key's report id is a key of the map, and every entry is a key of the device filed under its own id |
| FindMyControllerModel.KeyMapOfPrefix | OpenHaystack/OpenHaystack/FindMy/FindMyController.swift:208 | each key, taken in order, overwrites the entry for its id |
| FindMyControllerModel.KeyMapLastWins | OpenHaystack/OpenHaystack/FindMy/FindMyController.swift:208 | of keys sharing an id the last one is the one the map holds |
| FindMyControllerModel.LaterKeyWins | OpenHaystack/OpenHaystack/FindMy/FindMyController.swift:208 | two keys with the same hash leave only the later one in the map |
| FindMyControllerModel.DecryptedDevice | OpenHaystack/OpenHaystack/FindMy/FindMyController.swift:202-228 | a device without reports gets an empty list; otherwise one slot per report, slot i decrypted from report i or the placeholder, with everything else of the device kept |
| FindMyControllerModel.SlotsIndependent | OpenHaystack/OpenHaystack/FindMy/FindMyController.swift:212-223 | changing one report leaves every other slot as it was, so one failure does not affect another slot |
| FindMyControllerModel.DecryptAll | OpenHaystack/OpenHaystack/FindMy/FindMyController.swift:198-233 | every device is decrypted independently of the others |
| FindMyControllerModel.ClearingIsRedundant | OpenHaystack/OpenHaystack/FindMy/FindMyController.swift:74-88 | forgetting earlier decrypted reports before decrypting changes nothing in the result |
| FindMyControllerModel.FirstDeviceFor | OpenHaystack/OpenHaystack/FindMy/FindMyController.swift:44-48 | the first device that has a key whose Base64 hash is the report's id, or none |
| FindMyControllerModel.FileReport | OpenHaystack/OpenHaystack/FindMy/FindMyController.swift:43-60 | a report is appended to the first device with its key (a nil list becomes a one-element list); without one nothing changes, and no other device or field changes |
| FindMyControllerModel.FileReports | OpenHaystack/OpenHaystack/FindMy/FindMyController.swift:43-61 | filing all reports keeps every device's keys, id and decrypted reports |
| FindMyControllerModel.DevicesOf | OpenHaystack/OpenHaystack/FindMy/FindMyController.swift:91-98 | at most one device per accessory, each with one key and no reports yet |
| FindMyControllerModel.KeyIds | OpenHaystack/OpenHaystack/FindMy/FindMyController.swift:132 | the Base64 hash of every key, in key order |
| FindMyControllerModel.QueryFor | OpenHaystack/OpenHaystack/FindMy/FindMyController.swift:130-138 | a device's query asks for its keys' ids over the 21 days that end now |
| FindMyControllerModel.WithResponse | OpenHaystack/OpenHaystack/FindMy/FindMyController.swift:127-156 | a device's reports are the decoded results, and an empty list when the response is missing or undecodable |
| FindMyControllerModel.TokenErrorsStep | OpenHaystack/OpenHaystack/FindMy/FindMyController.swift:151-154 | each empty undecodable response adds one token error after the earlier ones |
| FindMyControllerModel.NoEmptyResponses | OpenHaystack/OpenHaystack/FindMy/FindMyController.swift:151-154 | no token error is reported exactly when no response was empty |
| FindMyControllerModel.TokenErrors | OpenHaystack/OpenHaystack/FindMy/FindMyController.swift:153 | n completions, each invalidSearchPartyToken |
| FindMyControllerModel.FindMyController.constructor | OpenHaystack/OpenHaystack/FindMy/FindMyController.swift:17 | the controller starts without devices |
| FindMyControllerModel.FindMyController.BuildKeyMap | OpenHaystack/OpenHaystack/FindMy/FindMyController.swift:208 | the loop builds the same map as the reduce |
| FindMyControllerModel.FindMyController.TryDecrypt | OpenHaystack/OpenHaystack/FindMy/FindMyController.swift:213-223 | the slot's content: the decrypted location, or the placeholder when no key has the id or decryption throws |
| FindMyControllerModel.FindMyController.FillSlots | OpenHaystack/OpenHaystack/FindMy/FindMyController.swift:211-224 | every slot ends holding its own report's decryption, or the placeholder |
| FindMyControllerModel.FindMyController.DecryptDevice | OpenHaystack/OpenHaystack/FindMy/FindMyController.swift:203-228 | one device's body of the loop gives the decrypted device |
| FindMyControllerModel.FindMyController.DecryptReports | OpenHaystack/OpenHaystack/FindMy/FindMyController.swift:198-233 | every device's decrypted reports are rebuilt from its reports |
| FindMyControllerModel.FindMyController.ImportDevices | OpenHaystack/OpenHaystack/FindMy/FindMyController.swift:74-88 | the decoded devices, decrypted afresh |
| FindMyControllerModel.FindMyController.ImportReportsAsWritten | OpenHaystack/OpenHaystack/FindMy/FindMyController.swift:30-72 | the devices end as the decoded devices decrypted, with the reports given to the import nowhere |
| FindMyControllerModel.FindMyController.ImportReports | OpenHaystack/OpenHaystack/FindMy/FindMyController.swift:30-72 | the devices end as the decoded devices with the reports filed under them, decrypted |
| FindMyControllerModel.ImportedReportsAreLost | OpenHaystack/OpenHaystack/FindMy/FindMyController.swift:41-64 | a report filed under a device's only key leaves no decrypted report as written, and is decrypted into its slot by the corrected import |
| FindMyControllerModel.FilingOneReport | OpenHaystack/OpenHaystack/FindMy/FindMyController.swift:43-60 | a report filed under a device's one key becomes that device's only report |
| FindMyControllerModel.FiledReportDecrypts | OpenHaystack/OpenHaystack/FindMy/FindMyController.swift:202-228 | a device with one report under its one key decrypts it into its only slot |
| FindMyControllerModel.FindMyController.QueryDevices | OpenHaystack/OpenHaystack/FindMy/FindMyController.swift:124-160 | one query per device in order, each device's reports from its response, and one token error per empty response |
| FindMyControllerModel.FindMyController.QueryOne | OpenHaystack/OpenHaystack/FindMy/FindMyController.swift:126-158 | one device: its query, its reports and its token error |
| FindMyControllerModel.FindMyController.FetchReportsWith | OpenHaystack/OpenHaystack/FindMy/FindMyController.swift:113-196 | every device is queried, takes its response's reports and is decrypted; the completions are the token errors followed by nil |
| FindMyControllerModel.FindMyController.FetchReportsFor | OpenHaystack/OpenHaystack/FindMy/FindMyController.swift:90-111 | one query per accessory with a key; each token error is passed on as a failure and the final completion carries the stored devices |
| FindMyControllerModel.FindMyController.PassOn | OpenHaystack/OpenHaystack/FindMy/FindMyController.swift:102-110 | an error is passed on as a failure and nil as the devices |
| FlashNrf.SymmetricKeyMarker | OpenHaystack/OpenHaystack/HaystackApp/Firmwares/NRF/flash_nrf.py:58 | the symmetric-key placeholder is 31 bytes long |
| FlashNrf.PublicKeyMarker | OpenHaystack/OpenHaystack/HaystackApp/Firmwares/NRF/flash_nrf.py:62 | the public-key placeholder is 57 bytes long, the length of the key that replaces it |
| FlashNrf.FindFrom | OpenHaystack/OpenHaystack/HaystackApp/Firmwares/NRF/flash_nrf.py:58-66 | the first occurrence at or after a position, or -1 when there is none from there on |
| FlashNrf.Find | OpenHaystack/OpenHaystack/HaystackApp/Firmwares/NRF/flash_nrf.py:58-66 | -1 exactly when the pattern occurs nowhere; otherwise the address of its first occurrence |
| FlashNrf.Written | OpenHaystack/OpenHaystack/HaystackApp/Firmwares/NRF/flash_nrf.py:60-72 | the bytes in the written range take the data's, all others keep theirs, and the length is unchanged |
| FlashNrf.IntelHexImage.constructor | OpenHaystack/OpenHaystack/HaystackApp/Firmwares/NRF/flash_nrf.py:56 | the image holds the file's bytes |
| FlashNrf.IntelHexImage.Puts | OpenHaystack/OpenHaystack/HaystackApp/Firmwares/NRF/flash_nrf.py:60-72 | the image becomes the old image with the data written at the address |
| FlashNrf.ArgumentError | OpenHaystack/OpenHaystack/HaystackApp/Firmwares/NRF/flash_nrf.py:14-26 | no error exactly when the public key has 57 bytes, the symmetric key 32 and the interval lies strictly between 0 and 0xFFFFFFFF |
| FlashNrf.FlashOpenHaystackFw | OpenHaystack/OpenHaystack/HaystackApp/Firmwares/NRF/flash_nrf.py:8-72 | the verdict and the patched image are those of the specification: validation, then symmetric key, public key, and the interval 60 bytes after the public key |
| FlashNrf.ValidationFirst | OpenHaystack/OpenHaystack/HaystackApp/Firmwares/NRF/flash_nrf.py:14-26 | each invalid argument is refused, in the script's order, with the image untouched, and success implies valid arguments |
| FlashNrf.FlashSucceeded | OpenHaystack/OpenHaystack/HaystackApp/Firmwares/NRF/flash_nrf.py:66-72 | on success the interval placeholder lies exactly 60 bytes after the public key and the interval is written there |
| FlashNrf.WrittenRange | OpenHaystack/OpenHaystack/HaystackApp/Firmwares/NRF/flash_nrf.py:72 | the written range holds the data |
| FlashNrf.WrittenBefore | OpenHaystack/OpenHaystack/HaystackApp/Firmwares/NRF/flash_nrf.py:64-72 | bytes before the written range are kept |
| FlashNrf.FlashedImage | OpenHaystack/OpenHaystack/HaystackApp/Firmwares/NRF/flash_nrf.py:62-72 | on success the four bytes 60 after the public key read back little-endian as the interval, and the public key sits at its placeholder |
| Common.U32LERoundTrip | OpenHaystack/OpenHaystack/HaystackApp/Firmwares/NRF/flash_nrf.py:71 | a value below 2^32 survives its four little-endian bytes |
| Hci.HeaderHex | Firmware/Linux_HCI/HCI.py:12-17 | the header's hex text parses to 1E FF 4C 00 12 19 00 |
| Hci.AdvertisementTemplate | Firmware/Linux_HCI/HCI.py:11-22 | the template is the 31-byte offline-finding template: the header, 22 zero key bytes, a zero two-bit slot and a zero hint |
| Hci.BytesToStrArray | Firmware/Linux_HCI/HCI.py:25-29 | one string per byte, "0x" first when asked, whose hex digits read back as that byte |
| Hci.StartAdvertising | Firmware/Linux_HCI/HCI.py:41-57 | for a key of 28 bytes or more the address and payload are the firmware's; a 27-byte key shrinks the payload to 30 bytes, and a shorter key raises IndexError; the address arguments are reversed unless asked not to be |
| OfflineFinding.Template | Firmware/Linux_HCI/HCI.py:11-22 | the 31-byte template begins with the header 1E FF 4C 00 12 19 00 and is zero after it |
| OfflineFinding.TopTwoBits | Firmware/Linux_HCI/HCI.py:47 | key[0] >> 6 is below 4 and holds the byte's top two bits |
| OfflineFinding.WithTopTwoBitsSet | Firmware/Linux_HCI/HCI.py:43 | the address's first byte has its top two bits set and keeps its lower six |
| OfflineFinding.PayloadLayout | Firmware/Linux_HCI/HCI.py:45-47 | the payload keeps the template's header and last byte, carries key[6..28] at 7..29 and the top two bits of key[0] at 29 |
| OfflineFinding.AddressIsStaticRandom | Firmware/Linux_HCI/HCI.py:42-43 | the address's two most significant bits are 1 (a static random address) and its other bytes are key[1..6] |
| OfflineFinding.RecoverKeyCorrect | Firmware/Linux_HCI/HCI.py:42-47 | the key is recovered from the address and the payload: the lower six bits of the address's first byte, the payload's two-bit slot, and the rest as they are |
| OfflineFinding.BroadcastInjective | Firmware/Linux_HCI/HCI.py:42-47 | distinct keys give distinct address and payload pairs |
| OfflineFinding.PlaceholderIsKeySized | Firmware/Microbit_v1/offline-finding/main.c:21 | the placeholder key is 28 ASCII characters, the size of a key |
| OfflineFinding.PlaceholderBytes | Firmware/Microbit_v1/offline-finding/main.c:21 | the placeholder's bytes are its ASCII codes, 28 of them |
| OfflineFinding.Payload | Firmware/Linux_HCI/HCI.py:45-47 | the 31-byte advertisement for a key: the template with key[6..28] at 7..29 and key[0] >> 6 at 29 (proved in PayloadLayout) |
| OfflineFinding.Address | Firmware/Linux_HCI/HCI.py:42-43 | the six address bytes for a key: key[0] with its two top bits set, then key[1..6] (proved in AddressIsStaticRandom) |
| OfflineFinding.RecoverKey | Firmware/Linux_HCI/HCI.py:42-47 | the 28-byte key read back from an address and a payload; RecoverKeyCorrect proves it inverts Address and Payload |
| MicrobitV1.Beacon.constructor | Firmware/Microbit_v1/offline-finding/main.c:18-39 | the loaded image: the key as given (the placeholder until patched), the initial address, and the template |
| MicrobitV1.Beacon.SetAddrFromKey | Firmware/Microbit_v1/offline-finding/main.c:41-50 | the address buffer holds the key's address back to front: byte 5 is key[0] with its top two bits set, bytes 4 to 0 are key[1] to key[5] |
| MicrobitV1.Beacon.FillAdvTemplateFromKey | Firmware/Microbit_v1/offline-finding/main.c:52-57 | template bytes 7..29 become key[6..28], byte 29 the top two bits of key[0], and bytes 0..7 and 30 keep what they held |
| MicrobitV1.Beacon.Setup | Firmware/Microbit_v1/offline-finding/main.c:59-61 | after the first two statements of main the template is the offline-finding payload of the key and the address its reversed static random address |
| MicrobitV2.Beacon.constructor | Firmware/Microbit_v2/source/main.cpp:10-22 | the loaded image: the key as given (the placeholder until patched) and the template |
| MicrobitV2.Beacon.FillAdvTemplateFromKey | Firmware/Microbit_v2/source/main.cpp:24-29 | template bytes 7..29 become key[6..28], byte 29 the top two bits of key[0], and bytes 0..7 and 30 keep what they held |
| MicrobitV2.Beacon.GapAddress | Firmware/Microbit_v2/source/main.cpp:39-47 | the address field holds the key's static random address back to front |
| MicrobitV2.AdvertisingInterval | Firmware/Microbit_v2/source/main.cpp:55-57 | the interval is 3200 units unless that lies outside the bounds; it never exceeds the maximum and lies within both bounds whenever the minimum does not exceed the maximum |
| MicrobitV2.IntervalUnits | Firmware/Microbit_v2/source/main.cpp:55 | 2000 ms is exactly 3200 units of 0.625 ms |
| KeyDecoder.KeyOfRecord | OpenHaystack/OpenHaystack/FindMy/FindMyKeyDecoder.swift:81-99 | the key of a record: the 28 advertised bytes and the SHA-256 of exactly those bytes |
| KeyDecoder.CountFrom | OpenHaystack/OpenHaystack/FindMy/FindMyKeyDecoder.swift:62-64 | the loop visits records k up to the first that does not fit whole: every counted record ends inside the file and the next one does not |
| KeyDecoder.RecordCount | OpenHaystack/OpenHaystack/FindMy/FindMyKeyDecoder.swift:62-64 | the records counted are those that fit whole after the 32-byte header; the first record that does not fit ends at or past the end of the file |
| KeyDecoder.RecordCountValue | OpenHaystack/OpenHaystack/FindMy/FindMyKeyDecoder.swift:62-64 | the record count is (length - 32) / 118, or 0 for files too short for one record |
| KeyDecoder.PrivateRecords | OpenHaystack/OpenHaystack/FindMy/FindMyKeyDecoder.swift:68-77 | only records before n are listed |
| KeyDecoder.PrivateRecordsSound | OpenHaystack/OpenHaystack/FindMy/FindMyKeyDecoder.swift:75-77 | every listed record is marked 0x01 and the list is in file order |
| KeyDecoder.PrivateRecordsComplete | OpenHaystack/OpenHaystack/FindMy/FindMyKeyDecoder.swift:68-101 | every record marked 0x01 is listed |
| KeyDecoder.PrivateRecordsAll | OpenHaystack/OpenHaystack/FindMy/FindMyKeyDecoder.swift:68-101 | when every record is marked 0x01, record j is listed j-th |
| KeyDecoder.KeysOfStep | OpenHaystack/OpenHaystack/FindMy/FindMyKeyDecoder.swift:68-101 | one more record appends its key when marked 0x01 and nothing when marked otherwise |
| KeyDecoder.KeysOfSound | OpenHaystack/OpenHaystack/FindMy/FindMyKeyDecoder.swift:75-101 | every key parsed comes from a record marked 0x01 |
| KeyDecoder.KeysOfComplete | OpenHaystack/OpenHaystack/FindMy/FindMyKeyDecoder.swift:68-101 | no private-key record is lost: each one's key is among the keys parsed |
| KeyDecoder.ConcatAt | OpenHaystack/OpenHaystack/FindMy/FindMyKeyDecoder.swift:64-82 | record i of a sequence of 118-byte records lies at offset 118 * i of their concatenation |
| KeyDecoder.PrivateKeyRecord | OpenHaystack/OpenHaystack/FindMy/FindMyKeyDecoder.swift:66-82 | a private-key record is 118 bytes, marked 0x01 at offset 32, with the full key after the marker |
| KeyDecoder.RecordOfFile | OpenHaystack/OpenHaystack/FindMy/FindMyKeyDecoder.swift:62-64 | after a 32-byte header, record k of the file is the k-th record written |
| KeyDecoder.RecordCountOfFile | OpenHaystack/OpenHaystack/FindMy/FindMyKeyDecoder.swift:64 | a file of whole records after a 32-byte header holds exactly that many records |
| KeyDecoder.CountOfWhole | OpenHaystack/OpenHaystack/FindMy/FindMyKeyDecoder.swift:64 | a file ending exactly at a record boundary has that many records |
| KeyDecoder.PrivateKeyRecords | OpenHaystack/OpenHaystack/FindMy/FindMyKeyDecoder.swift:66-82 | one 118-byte record per key |
| KeyDecoder.ParsesPrivateKeyRecords | OpenHaystack/OpenHaystack/FindMy/FindMyKeyDecoder.swift:59-105 | round trip: a file of private-key records parses successfully to one key per record, in order, each built from that record's 85 key bytes |
| KeyDecoder.AllMarkedParses | OpenHaystack/OpenHaystack/FindMy/FindMyKeyDecoder.swift:64-104 | a file whose records are all marked 0x01 parses without error to the keys of its records |
| KeyDecoder.PrivateKeyRecordAt | OpenHaystack/OpenHaystack/FindMy/FindMyKeyDecoder.swift:66-82 | a record written as marker 0x01 plus key reads back as marker 0x01 and that key |
| KeyDecoder.AllPrivateKeys | OpenHaystack/OpenHaystack/FindMy/FindMyKeyDecoder.swift:68-101 | with every record marked 0x01 the k-th key is the key of record k |
| KeyDecoder.TrailingBytesIgnored | OpenHaystack/OpenHaystack/FindMy/FindMyKeyDecoder.swift:64 | fewer than 118 bytes after the last whole record change nothing in the result |
| KeyDecoder.CountOfTail | OpenHaystack/OpenHaystack/FindMy/FindMyKeyDecoder.swift:64 | a partial record after n whole ones is not counted |
| KeyDecoder.WrongMarker | OpenHaystack/OpenHaystack/FindMy/FindMyKeyDecoder.swift:75-77 | a whole record marked other than 0x00 or 0x01 makes the whole parse fail with wrongFormat |
| KeyDecoder.ValidStep | OpenHaystack/OpenHaystack/FindMy/FindMyKeyDecoder.swift:68-101 | a whole record with a valid marker extends the valid prefix, adding its key only when marked 0x01 |
| KeyDecoder.AllRead | OpenHaystack/OpenHaystack/FindMy/FindMyKeyDecoder.swift:64-106 | when no further record fits, the keys read so far are the result |
| KeyDecoder.CountAtLeast | OpenHaystack/OpenHaystack/FindMy/FindMyKeyDecoder.swift:64 | a record that fits whole is counted |
| KeyDecoder.PrefixRecords | OpenHaystack/OpenHaystack/FindMy/FindMyKeyDecoder.swift:64-101 | appending bytes does not change the markers or the private-record list of records that already fit |
| KeyDecoder.PrefixKeys | OpenHaystack/OpenHaystack/FindMy/FindMyKeyDecoder.swift:64-101 | appending bytes does not change the keys of records that already fit |
| KeyDecoder.FindMyKeyDecoder.constructor | OpenHaystack/OpenHaystack/FindMy/FindMyKeyDecoder.swift:25 | a new decoder has not detected any format |
| KeyDecoder.FindMyKeyDecoder.Parse | OpenHaystack/OpenHaystack/FindMy/FindMyKeyDecoder.swift:27-41 | the format is detected on the first call only; a detection error is returned as is and leaves the format undetected; once detected the result is the binary parse |
| KeyDecoder.FindMyKeyDecoder.CheckFormat | OpenHaystack/OpenHaystack/FindMy/FindMyKeyDecoder.swift:43-57 | wrongMagicBytes unless the file starts with "KEY", wrongFormat unless bytes 15..30 are zero, and only on success the format is set |
| KeyDecoder.FindMyKeyDecoder.ReadKey | OpenHaystack/OpenHaystack/FindMy/FindMyKeyDecoder.swift:81-99 | the key read at the cursor is the key of record n |
| KeyDecoder.FindMyKeyDecoder.ReadRecord | OpenHaystack/OpenHaystack/FindMy/FindMyKeyDecoder.swift:65-101 | one record step: a 0x00 marker skips, a 0x01 marker appends the key, any other marker proves the whole parse is wrongFormat |
| KeyDecoder.FindMyKeyDecoder.ParseBinaryKeyFiles | OpenHaystack/OpenHaystack/FindMy/FindMyKeyDecoder.swift:59-105 | the loop's result is the specification ParseBinary: keys of all 0x01 records when every marker is valid, otherwise wrongFormat |
| KeyDecoder.ParseBinary | OpenHaystack/OpenHaystack/FindMy/FindMyKeyDecoder.swift:59-105 | what parseBinaryKeyFiles returns: the keys of the 0x01 records among the whole 118-byte records after the header, in file order, when every marker is 0x00 or 0x01, otherwise wrongFormat |
| NearbyMonitor.StopIndex | OpenHaystack/OpenHaystack/HaystackApp/AccessoryNearbyMonitor.swift:38-42 | the search passes only accessories whose key derives and does not match, and stops at the first that throws or matches |
| NearbyMonitor.AccessoryForAdvertisement | OpenHaystack/OpenHaystack/HaystackApp/AccessoryNearbyMonitor.swift:37-44 | a result is an accessory of the controller whose advertisement key without its first six bytes equals the payload |
| NearbyMonitor.FirstMatchFound | OpenHaystack/OpenHaystack/HaystackApp/AccessoryNearbyMonitor.swift:37-44 | the first matching accessory is found when every accessory before it derives its key |
| NearbyMonitor.FailureBeforeMatch | OpenHaystack/OpenHaystack/HaystackApp/AccessoryNearbyMonitor.swift:38-42 | a key derivation that throws before any match turns the whole search into nil |
| NearbyMonitor.NoMatchNone | OpenHaystack/OpenHaystack/HaystackApp/AccessoryNearbyMonitor.swift:37-44 | with no matching accessory the search returns nil |
| NearbyMonitor.RecognisesBroadcast | OpenHaystack/OpenHaystack/HaystackApp/AccessoryNearbyMonitor.swift:37-44 | an accessory's own firmware broadcast, decoded by the scanner, is matched back to that accessory |
| NearbyMonitor.AccessoryNearbyMonitor.constructor | OpenHaystack/OpenHaystack/HaystackApp/AccessoryNearbyMonitor.swift:17-21 | the monitor watches the given controller |
| NearbyMonitor.AccessoryNearbyMonitor.Received | OpenHaystack/OpenHaystack/HaystackApp/AccessoryNearbyMonitor.swift:27-35 | only the matched accessory changes: it becomes nearby (and active) if it was not; already nearby it is left as it was |
| NearbyMonitor.MarkNearby | OpenHaystack/OpenHaystack/HaystackApp/AccessoryNearbyMonitor.swift:31-34 | the accessory is nearby afterwards and only the nearby state and what follows from it change |
| MicrobitController.Patched | OpenHaystack/OpenHaystack/HaystackApp/MicrobitController.swift:49-63 | the copy keeps the image's length |
| MicrobitController.Patch | OpenHaystack/OpenHaystack/HaystackApp/MicrobitController.swift:44-73 | inequalLength exactly when pattern and key differ in length; patternNotFound exactly when no window of the image equals the pattern; a patched image keeps its length |
| MicrobitController.PatchStep | OpenHaystack/OpenHaystack/HaystackApp/MicrobitController.swift:56-65 | looking at one window splices the key into the copy there when the window matches, and changes nothing otherwise |
| MicrobitController.PatchFirmware | OpenHaystack/OpenHaystack/HaystackApp/MicrobitController.swift:44-73 | the sliding-window loop computes exactly Patch |
| MicrobitController.ByteAfterOutside | OpenHaystack/OpenHaystack/HaystackApp/MicrobitController.swift:52-66 | a byte no matching window covers is never written |
| MicrobitController.ByteAfterInside | OpenHaystack/OpenHaystack/HaystackApp/MicrobitController.swift:52-66 | a covered byte holds the key byte of the last window covering it |
| MicrobitController.PatchOutside | OpenHaystack/OpenHaystack/HaystackApp/MicrobitController.swift:44-73 | in the patched image every byte outside all matches is the original byte |
| MicrobitController.PatchInside | OpenHaystack/OpenHaystack/HaystackApp/MicrobitController.swift:44-73 | a byte inside a match takes the key byte at its place in the last match covering it, since matches are read from the unpatched image |
| MicrobitController.PatchWindow | OpenHaystack/OpenHaystack/HaystackApp/MicrobitController.swift:44-73 | a match no later match overlaps holds the whole key after patching |
| MicrobitController.PlaceholderEndsUniquely | OpenHaystack/OpenHaystack/HaystackApp/MicrobitController.swift:84 | the placeholder ends in '!' and has no other '!' |
| MicrobitController.PlaceholderMatchesApart | OpenHaystack/OpenHaystack/HaystackApp/MicrobitController.swift:56-84 | two occurrences of the placeholder in an image never overlap |
| MicrobitController.DeployReplacesPlaceholders | OpenHaystack/OpenHaystack/HaystackApp/MicrobitController.swift:75-89 | deploy never fails on length; a key derivation error is passed on; with a key it succeeds exactly when the image holds the placeholder, and every placeholder occurrence becomes the advertisement key |
| MicrobitController.Deploy | OpenHaystack/OpenHaystack/HaystackApp/MicrobitController.swift:83-86 | a patched image keeps the firmware's length, and the failure is a key failure exactly when the advertisement key cannot be derived |
| NrfInstallSheet.NumbersOnly.constructor | OpenHaystack/OpenHaystack/HaystackApp/Views/NRFInstallSheet.swift:172-173 | the field starts as "1", which holds only numeric characters for any numeric class that takes in the ASCII digits |
| NrfInstallSheet.NumbersOnly.SetValue | OpenHaystack/OpenHaystack/HaystackApp/Views/NRFInstallSheet.swift:173-180 | after an assignment the field holds exactly the characters of the new value that the numeric class takes in, in order |
| NrfInstallSheet.FilterIdempotent | OpenHaystack/OpenHaystack/HaystackApp/Views/NRFInstallSheet.swift:175-179 | filtering an already numeric value changes nothing, so the observer's own re-assignment is a fixed point |
| NrfInstallSheet.DigitsKept | OpenHaystack/OpenHaystack/HaystackApp/Views/NRFInstallSheet.swift:175 | text of ASCII digits passes the filter unchanged whatever other numerals the class takes in |
| NrfInstallSheet.NonAsciiNumeralFallsBack | OpenHaystack/OpenHaystack/HaystackApp/Views/NRFInstallSheet.swift:64-67 | a non-ASCII numeral the field keeps makes the parse fail: "1²2" stays in the field and gives one day, while "12" gives twelve |
| NrfInstallSheet.DaysInt | OpenHaystack/OpenHaystack/HaystackApp/Views/NRFInstallSheet.swift:64-67 | the day count is the parsed integer, 1 when the text does not parse, and never below 1 |
| NrfInstallSheet.UpdateIntervalMinutes | OpenHaystack/OpenHaystack/HaystackApp/Views/NRFInstallSheet.swift:68-73 | when daysInt * 24 * 60 does not trap on overflow, the interval is a positive whole number of days in minutes, so the button's positive-interval guard holds |
| NrfInstallSheet.NRFInstallSheet.constructor | OpenHaystack/OpenHaystack/HaystackApp/Views/NRFInstallSheet.swift:14-21 | a new sheet holds the bound accessory, no alert, no script output and is not flashing |
| NrfInstallSheet.NRFInstallSheet.Deploy | OpenHaystack/OpenHaystack/HaystackApp/Views/NRFInstallSheet.swift:60-79 | without a bound accessory nothing changes; otherwise the accessory is deployed at the interval computed from the day field; the seconds product must fit only when the flashing succeeds |
| NrfInstallSheet.NRFInstallSheet.DeployAccessoryToNRFDevice | OpenHaystack/OpenHaystack/HaystackApp/Views/NRFInstallSheet.swift:122-158 | the sheet closes, stops flashing and lets go of the accessory; success marks the accessory deployed with derivation at the interval in seconds; failure sets the nrf alert with the log or the fixed read-error text; a throw sets the deploy-failed alert and leaves the accessory as it was |
| UpdateCheck.CompareVersionParts | OpenHaystack/OpenHaystack/HaystackApp/UpdateCheckController.swift:96-122 | the early-return loop over the parts computes the specification CompareParts |
| UpdateCheck.CompareVersionsOfParts | OpenHaystack/OpenHaystack/HaystackApp/UpdateCheckController.swift:92-94 | versions written as digit runs joined by dots are compared part by part, as written |
| UpdateCheck.FirstDifferenceDecides | OpenHaystack/OpenHaystack/HaystackApp/UpdateCheckController.swift:98-107 | after equal integer parts, the first differing pair decides: larger available means older, larger installed means newer, a part that is not an integer means older |
| UpdateCheck.ExtraPartsDecide | OpenHaystack/OpenHaystack/HaystackApp/UpdateCheckController.swift:109-122 | when one version is an equal integer prefix of the other, extra available parts mean older, extra installed parts newer, and equal lists the same |
| UpdateCheck.CompareAntisymmetric | OpenHaystack/OpenHaystack/HaystackApp/UpdateCheckController.swift:92-123 | for integer parts, swapping the versions swaps older and newer and keeps same |
| UpdateCheck.CompareReflexive | OpenHaystack/OpenHaystack/HaystackApp/UpdateCheckController.swift:92-123 | a version compares as the same with itself exactly when all its parts are integers, and otherwise as older |
| UpdateCheck.DigitRun | OpenHaystack/OpenHaystack/HaystackApp/UpdateCheckController.swift:62 | the run of digits ends inside the string |
| UpdateCheck.OptionalPart | OpenHaystack/OpenHaystack/HaystackApp/UpdateCheckController.swift:62 | an optional part ends inside the string |
| UpdateCheck.FirstMatchFrom | OpenHaystack/OpenHaystack/HaystackApp/UpdateCheckController.swift:70 | the first position at or after p where the pattern can start matching, or none when no later position can |
| UpdateCheck.GetVersion | OpenHaystack/OpenHaystack/HaystackApp/UpdateCheckController.swift:61-85 | nil exactly when the page holds no match; a version never contains 'v' |
| UpdateCheck.FilterOfDigits | OpenHaystack/OpenHaystack/HaystackApp/UpdateCheckController.swift:79 | removing 'v' from digits changes nothing |
| UpdateCheck.DigitRunTo | OpenHaystack/OpenHaystack/HaystackApp/UpdateCheckController.swift:62 | the digit run reaches exactly to the first non-digit |
| UpdateCheck.OptionalPartTo | OpenHaystack/OpenHaystack/HaystackApp/UpdateCheckController.swift:62 | an optional part takes its separator and every digit after it |
| UpdateCheck.GroupAt | OpenHaystack/OpenHaystack/HaystackApp/UpdateCheckController.swift:62-76 | capture group 1 runs from the 'v' through the third number |
| UpdateCheck.GetVersionReadsRelease | OpenHaystack/OpenHaystack/HaystackApp/UpdateCheckController.swift:61-85 | the first "Release vA.B.C" on the page yields "A.B.C", for any separators other than digits, line terminators and 'v' |
| UpdateCheck.GetVersionReadsMajor | OpenHaystack/OpenHaystack/HaystackApp/UpdateCheckController.swift:61-85 | a release with a single number yields that number |
| UpdateCheck.GetVersionReadsMinor | OpenHaystack/OpenHaystack/HaystackApp/UpdateCheckController.swift:61-85 | a release with two numbers ("Release v0.5") yields the text from the first digit to the end of the second number |
| UpdateCheck.GetVersionTwoPartSample | OpenHaystack/OpenHaystackTests/UpdateCheckTests.swift:54-57 | "<h1>Release v0.5</h1>" reads "0.5" and "<h1>Release v1.5</h1>" reads "1.5" |
| UpdateCheck.CompareVersions | OpenHaystack/OpenHaystack/HaystackApp/UpdateCheckController.swift:92-123 | a version compared with itself is the same exactly when every dot-separated part is an integer (otherwise older) |
| Uf2Conv.IsUF2 | Firmware/Microbit_v2/utils/uf2conv.py:19-21 | raises on fewer than 8 bytes; true exactly when the first two little-endian words are the two start magics |
| Uf2Conv.PackWords | Firmware/Microbit_v2/utils/uf2conv.py:67-69 | four bytes per packed word |
| Uf2Conv.PackWordsAt | Firmware/Microbit_v2/utils/uf2conv.py:67-69 | word i of a packed header lies at bytes 4i..4i+4, little-endian |
| Uf2Conv.Slice | Firmware/Microbit_v2/utils/uf2conv.py:66 | a Python slice is clipped and never longer than asked |
| Uf2Conv.Chunk | Firmware/Microbit_v2/utils/uf2conv.py:66-71 | every payload is 256 bytes after zero padding |
| Uf2Conv.HeaderWords | Firmware/Microbit_v2/utils/uf2conv.py:67-69 | a header is eight words, each fitting in 32 bits |
| Uf2Conv.Block | Firmware/Microbit_v2/utils/uf2conv.py:72-73 | every block is exactly 512 bytes, the assertion of the source |
| Uf2Conv.FirstUnpackable | Firmware/Microbit_v2/utils/uf2conv.py:64-69 | the first block whose header cannot be packed, with every block before it packable |
| Uf2Conv.BlockList | Firmware/Microbit_v2/utils/uf2conv.py:64-74 | the first n blocks, 512 bytes each |
| Uf2Conv.FlattenAt | Firmware/Microbit_v2/utils/uf2conv.py:74 | block k of the output lies at bytes 512k..512k+512 |
| Uf2Conv.ConvertToUF2 | Firmware/Microbit_v2/utils/uf2conv.py:58-75 | the loop computes ToUF2: the blocks end to end, or the error of the first header that cannot be packed |
| Uf2Conv.MakeBlock | Firmware/Microbit_v2/utils/uf2conv.py:65-72 | one loop turn builds exactly block blockno |
| Uf2Conv.ReadBlock | Firmware/Microbit_v2/utils/uf2conv.py:29-30 | a block read has its 480 bytes after the header |
| Uf2Conv.ReadBlocks | Firmware/Microbit_v2/utils/uf2conv.py:24-29 | only whole blocks are read, block k from offset 512k |
| Uf2Conv.FailedStays | Firmware/Microbit_v2/utils/uf2conv.py:31-50 | once a block raises, the conversion's result is that error |
| Uf2Conv.ConvertFromUF2 | Firmware/Microbit_v2/utils/uf2conv.py:23-56 | the loop computes FromUF2 as written: the blocks in order until the first one that raises |
| Uf2Conv.PadWords | Firmware/Microbit_v2/utils/uf2conv.py:51-53 | the padding loop appends exactly padding zero bytes |
| Uf2Conv.ConvertBlock | Firmware/Microbit_v2/utils/uf2conv.py:28-55 | one loop turn: bad magic raises, a no-flash block is skipped, too long a payload, a backwards address, more than 10 MiB or a non-word gap raise, otherwise zeros up to the address and the payload are appended |
| Uf2Conv.ZerosAppend | Firmware/Microbit_v2/utils/uf2conv.py:53 | four more zero bytes extend the padding |
| Uf2Conv.Padded | Firmware/Microbit_v2/utils/uf2conv.py:70-71 | content cut or padded to exactly m bytes |
| Uf2Conv.PaddedStep | Firmware/Microbit_v2/utils/uf2conv.py:66-71 | the payloads written so far are the content padded to whole blocks |
| Uf2Conv.PartsAt | Firmware/Microbit_v2/utils/uf2conv.py:72 | header, payload, padding and end magic can be sliced back out of a written block |
| Uf2Conv.HeaderWordAt | Firmware/Microbit_v2/utils/uf2conv.py:67-69 | a packed header word reads back as written |
| Uf2Conv.ReadBlockOf | Firmware/Microbit_v2/utils/uf2conv.py:30-72 | a written block reads back with its magics, clear flags, its address, payload size 256 and its payload |
| Uf2Conv.ReadOutputBlock | Firmware/Microbit_v2/utils/uf2conv.py:62-75 | block k of the output reads back as written |
| Uf2Conv.StepWritten | Firmware/Microbit_v2/utils/uf2conv.py:31-55 | a block as written, at the next address expected, appends its 256 payload bytes with no padding |
| Uf2Conv.ReadOutput | Firmware/Microbit_v2/utils/uf2conv.py:24-75 | every block of the output reads back as written |
| Uf2Conv.RunOfWritten | Firmware/Microbit_v2/utils/uf2conv.py:27-55 | converting back blocks as written lays their payloads end to end and expects the address after them |
| Uf2Conv.Chunks | Firmware/Microbit_v2/utils/uf2conv.py:62-71 | one payload per block |
| Uf2Conv.FlattenChunks | Firmware/Microbit_v2/utils/uf2conv.py:62-71 | the first n payloads are the content padded to 256n bytes |
| Uf2Conv.ReadBackOutput | Firmware/Microbit_v2/utils/uf2conv.py:23-75 | reading the output back gives the content padded to whole blocks |
| Uf2Conv.RoundTrip | Firmware/Microbit_v2/utils/uf2conv.py:23-75 | converting a binary to UF2 and back gives the binary followed by zeros up to whole 256-byte blocks, whether bad-magic blocks would be skipped or not |
| Uf2Conv.ToUF2IsUF2 | Firmware/Microbit_v2/utils/uf2conv.py:19-75 | the output of a non-empty binary is recognised as UF2 and is 512 bytes per 256 input bytes |
| Uf2Conv.BadMagicAborts | Firmware/Microbit_v2/utils/uf2conv.py:31-33 | as written, a first block with a bad start magic ends the conversion in an error, because the log line adds a number to a string |
| Uf2Conv.BadMagicSkipped | Firmware/Microbit_v2/utils/uf2conv.py:31-33 | skipping bad-magic blocks, as intended, those blocks add nothing |
| Uf2Conv.BadMagicBlocksSkipped | Firmware/Microbit_v2/utils/uf2conv.py:31-33 | skipping bad-magic blocks, a buffer of only such blocks converts to nothing |
| Uf2Conv.ToUF2 | Firmware/Microbit_v2/utils/uf2conv.py:58-75 | a successful conversion is 512 bytes per started 256 bytes of content, or the error of the first header that cannot be packed |
| Uf2Conv.FromUF2 | Firmware/Microbit_v2/utils/uf2conv.py:23-56 | what convertFromUF2 returns: the whole 512-byte blocks converted in order, or the error of the first block that raises; RoundTrip proves it inverts ToUF2 |
| MdConverter.WrapText | Firmware/Microbit_v2/utils/python/doc_gen/md_converter.py:20-21 | the text sits between the colour's opening div tag and the closing tag, and reads back from them |
| MdConverter.WrapTextInjective | Firmware/Microbit_v2/utils/python/doc_gen/md_converter.py:20-21 | different texts in one colour give different markup |
| MdConverter.LastMarked | Firmware/Microbit_v2/utils/python/doc_gen/md_converter.py:33-47 | the 1-based number of the last marked line among the first n, with no marked line after it |
| MdConverter.Clean | Firmware/Microbit_v2/utils/python/doc_gen/md_converter.py:29-49 | the loop computes Cleaned: the lines up to the last className marker and from the line before the last end marker on |
| MdConverter.CleanWithoutMarkers | Firmware/Microbit_v2/utils/python/doc_gen/md_converter.py:29-49 | a page without meta-data markers is left unchanged |
| MdConverter.NoneMarked | Firmware/Microbit_v2/utils/python/doc_gen/md_converter.py:33-47 | with no marker the line number stays 0 |
| MdConverter.OnlyMarked | Firmware/Microbit_v2/utils/python/doc_gen/md_converter.py:33-47 | with a single marker the line number is that line's |
| MdConverter.CleanSection | Firmware/Microbit_v2/utils/python/doc_gen/md_converter.py:29-49 | a page with one className marker before one end marker loses exactly the generated lines strictly between them |
| MdConverter.CleanIdempotent | Firmware/Microbit_v2/utils/python/doc_gen/md_converter.py:29-49 | cleaning such a page twice is cleaning it once |
| MdConverter.CleanRepeatsOverlap | Firmware/Microbit_v2/utils/python/doc_gen/md_converter.py:49 | when the last className marker follows the last end marker, the lines between them come out twice |
| MdConverter.LeadingRequired | Firmware/Microbit_v2/utils/python/doc_gen/md_converter.py:63-69 | the number of leading parameters without a default: all before it have none, the one at it has one |
| MdConverter.DeriveFunctions | Firmware/Microbit_v2/utils/python/doc_gen/md_converter.py:58-98 | the loops compute Derived |
| MdConverter.CountRequired | Firmware/Microbit_v2/utils/python/doc_gen/md_converter.py:63-69 | the counting loop stops at the first parameter with a default |
| MdConverter.LeadingRequiredIs | Firmware/Microbit_v2/utils/python/doc_gen/md_converter.py:63-69 | the leading required count is determined by where the first default sits |
| MdConverter.DerivedShape | Firmware/Microbit_v2/utils/python/doc_gen/md_converter.py:58-98 | one overload per parameter with a default plus one: the first takes the required parameters, each next adds the following parameter, and the last is the function itself |
| MdConverter.DerivedPrefixes | Firmware/Microbit_v2/utils/python/doc_gen/md_converter.py:82-93 | every overload's parameters are a prefix of the function's |
| MdConverter.DerivedSteps | Firmware/Microbit_v2/utils/python/doc_gen/md_converter.py:90-93 | each overload adds the next parameter to the one before |
| MdConverter.DerivedStep | Firmware/Microbit_v2/utils/python/doc_gen/md_converter.py:90-93 | overload i adds parameter k + i - 1 to overload i - 1 |
| MdConverter.PrefixSnoc | Firmware/Microbit_v2/utils/python/doc_gen/md_converter.py:91 | a prefix one longer is the shorter prefix plus the next element |
| MdConverter.DerivedLast | Firmware/Microbit_v2/utils/python/doc_gen/md_converter.py:90-96 | the last overload is the function itself |
| MdConverter.DerivedAt | Firmware/Microbit_v2/utils/python/doc_gen/md_converter.py:82-93 | overload i takes the required parameters and i more |
| MdConverter.DerivedKeepsFields | Firmware/Microbit_v2/utils/python/doc_gen/md_converter.py:71-87 | every overload keeps every field of the function other than its parameters |
| MdConverter.Header | Firmware/Microbit_v2/utils/python/doc_gen/md_converter.py:161-165 | the header is "##Constructor" exactly for the class's own name or a function named Constructor |
| MdConverter.GenMemberFuncDoc | Firmware/Microbit_v2/utils/python/doc_gen/md_converter.py:140-242 | the lines are a header per run of equal short names, the rendered overloads of each function when defaults are separated, and the terminator |
| MdConverter.AppendBlocks | Firmware/Microbit_v2/utils/python/doc_gen/md_converter.py:172-238 | the inner loop appends the rendered lines of each overload in order |
| MdConverter.HeadersOnly | Firmware/Microbit_v2/utils/python/doc_gen/md_converter.py:169-170 | without separate defaults only the headers are written |
| MdConverter.OneHeaderPerName | Firmware/Microbit_v2/utils/python/doc_gen/md_converter.py:161 | overloads of one name share a single header |
| MdConverter.HeaderCount | Firmware/Microbit_v2/utils/python/doc_gen/md_converter.py:161 | there is at most one header per function and at least one for a non-empty list |
| MdConverter.Cleaned | Firmware/Microbit_v2/utils/python/doc_gen/md_converter.py:29-49 | file_lines[:start] + file_lines[end:] with start after the last className marker and end at the line before the last end marker; CleanSection and CleanIdempotent state its properties |
| MdConverter.Derived | Firmware/Microbit_v2/utils/python/doc_gen/md_converter.py:58-98 | the overloads a function with defaults stands for: one per parameter count from the leading required ones up to all, every other field copied; DerivedShape and DerivedPrefixes state its properties |
| MdConverter.DocLines | Firmware/Microbit_v2/utils/python/doc_gen/md_converter.py:157-238 | the lines for the first n functions: a header where a run of equal short names starts, then each overload rendered; OneHeaderPerName and HeaderCount state its properties |
| DoxygenExtractor.EscapeMdChars | Firmware/Microbit_v2/utils/python/doc_gen/doxygen_extractor.py:44-47 | the three replacements in table order compute Escaped: a backslash before each '*', '#' and backquote |
| DoxygenExtractor.ReplaceAbsent | Firmware/Microbit_v2/utils/python/doc_gen/doxygen_extractor.py:46 | replacing a character that does not occur changes nothing |
| DoxygenExtractor.ReplacedAppend | Firmware/Microbit_v2/utils/python/doc_gen/doxygen_extractor.py:45-46 | the replacements act on each part of a concatenation separately |
| DoxygenExtractor.ReplaceOne | Firmware/Microbit_v2/utils/python/doc_gen/doxygen_extractor.py:46 | replacing in a one-character string |
| DoxygenExtractor.ReplacedChar | Firmware/Microbit_v2/utils/python/doc_gen/doxygen_extractor.py:44-47 | the three replacements escape one character exactly once, although the backslash they add is itself unescaped |
| DoxygenExtractor.ReplacedIsEscaped | Firmware/Microbit_v2/utils/python/doc_gen/doxygen_extractor.py:44-47 | the sequential replacements equal escaping each character once |
| DoxygenExtractor.EscapedLength | Firmware/Microbit_v2/utils/python/doc_gen/doxygen_extractor.py:44-47 | escaping adds one character per special character |
| DoxygenExtractor.EscapedGuarded | Firmware/Microbit_v2/utils/python/doc_gen/doxygen_extractor.py:44-47 | every special character of the escaped text has a backslash right before it |
| DoxygenExtractor.EscapedStart | Firmware/Microbit_v2/utils/python/doc_gen/doxygen_extractor.py:44-47 | escaped text never starts with a special character |
| DoxygenExtractor.UnescapeEscaped | Firmware/Microbit_v2/utils/python/doc_gen/doxygen_extractor.py:44-47 | escaping loses nothing: dropping each backslash before a special character gives back the text |
| DoxygenExtractor.SpecialCountEscaped | Firmware/Microbit_v2/utils/python/doc_gen/doxygen_extractor.py:44-47 | escaping keeps the number of special characters |
| DoxygenExtractor.SpecialCountAppend | Firmware/Microbit_v2/utils/python/doc_gen/doxygen_extractor.py:44-47 | special characters of a concatenation add up |
| DoxygenExtractor.EscapeNotIdempotent | Firmware/Microbit_v2/utils/python/doc_gen/doxygen_extractor.py:44-47 | escaping text with a special character twice adds more backslashes |
| DoxygenExtractor.ExtractWithSubelements | Firmware/Microbit_v2/utils/python/doc_gen/doxygen_extractor.py:77-91 | the recursion computes SubelementTexts: the text or "", each child's list, the tail or "" |
| DoxygenExtractor.TwoPerElement | Firmware/Microbit_v2/utils/python/doc_gen/doxygen_extractor.py:77-91 | the list holds two strings per element of the tree |
| DoxygenExtractor.TwoPerChild | Firmware/Microbit_v2/utils/python/doc_gen/doxygen_extractor.py:85-87 | the children's lists hold two strings per element of their trees |
| DoxygenExtractor.DropEmptyAppend | Firmware/Microbit_v2/utils/python/doc_gen/doxygen_extractor.py:77-91 | removing empty strings acts on each part of a concatenation |
| DoxygenExtractor.DropEmptyJoin | Firmware/Microbit_v2/utils/python/doc_gen/doxygen_extractor.py:77-91 | the same, for three parts |
| DoxygenExtractor.SubelementTextsAreIterText | Firmware/Microbit_v2/utils/python/doc_gen/doxygen_extractor.py:77-91 | up to empty strings, the list is what itertext() yields followed by the element's tail |
| DoxygenExtractor.ChildrenTextsAreIterText | Firmware/Microbit_v2/utils/python/doc_gen/doxygen_extractor.py:85-87 | the same for the children |
| DoxygenExtractor.ExtractIgnoringRefs | Firmware/Microbit_v2/utils/python/doc_gen/doxygen_extractor.py:58-67 | the loop computes IgnoringRefs: the element's text when present, then the text of every ref element of the tree in document order |
| DoxygenExtractor.NoRefTexts | Firmware/Microbit_v2/utils/python/doc_gen/doxygen_extractor.py:64-65 | without ref elements nothing is added |
| DoxygenExtractor.IgnoringRefsWithoutRefs | Firmware/Microbit_v2/utils/python/doc_gen/doxygen_extractor.py:58-67 | without a ref in the tree only the element's own text is listed; other children's texts are lost |
| DoxygenExtractor.RefTextsAppend | Firmware/Microbit_v2/utils/python/doc_gen/doxygen_extractor.py:64-65 | ref texts of a concatenation are listed in order |
| DoxygenExtractor.RefElementListedTwice | Firmware/Microbit_v2/utils/python/doc_gen/doxygen_extractor.py:58-67 | a ref element's own text is listed twice, since iter() starts with the element itself |
| DoxygenExtractor.IterTextNonEmpty | Firmware/Microbit_v2/utils/python/doc_gen/doxygen_extractor.py:110 | itertext() yields only non-empty strings |
| DoxygenExtractor.ChildrenIterTextNonEmpty | Firmware/Microbit_v2/utils/python/doc_gen/doxygen_extractor.py:110 | the same for the children |
| DoxygenExtractor.ExtractDefault | Firmware/Microbit_v2/utils/python/doc_gen/doxygen_extractor.py:108-110 | the value is always empty, and the name is empty exactly when the default has no text |
| DoxygenExtractor.JoinOfNonEmpty | Firmware/Microbit_v2/utils/python/doc_gen/doxygen_extractor.py:110 | joining non-empty strings is empty only for no strings |
| DoxygenExtractor.AnyContainedIff | Firmware/Microbit_v2/utils/python/doc_gen/doxygen_extractor.py:146 | with filtering on, a function is dropped exactly when some filter string occurs in its short name |
| DoxygenExtractor.EmptyFilterDropsAll | Firmware/Microbit_v2/utils/python/doc_gen/doxygen_extractor.py:146 | an empty filter string drops every function |
| DoxygenExtractor.ExtractParam | Firmware/Microbit_v2/utils/python/doc_gen/doxygen_extractor.py:156-181 | one turn of the parameter loop builds ParamOf: the escaped type text, the name from its refs (an error when a ref has no text) and the default |
| DoxygenExtractor.ParamDefault | Firmware/Microbit_v2/utils/python/doc_gen/doxygen_extractor.py:176-179 | a parameter counts as having no default exactly when it has no defval or its defval has no text |
| DoxygenExtractor.ApplyDescriptor | Firmware/Microbit_v2/utils/python/doc_gen/doxygen_extractor.py:226-228 | every parameter whose name contains the documented name gets the description; the others are unchanged |
| DoxygenExtractor.MatchParamDescriptions | Firmware/Microbit_v2/utils/python/doc_gen/doxygen_extractor.py:207-228 | each parameter ends with the description of the last item of the first parameter list whose name occurs in its name |
| DoxygenExtractor.UnnamedItemMatchesAll | Firmware/Microbit_v2/utils/python/doc_gen/doxygen_extractor.py:217-228 | an item without a parametername matches every parameter |
| DoxygenExtractor.DescribedIffMatched | Firmware/Microbit_v2/utils/python/doc_gen/doxygen_extractor.py:207-228 | an undescribed parameter gets a description exactly when some item's name occurs in its name |
| DoxygenExtractor.LastMatchWins | Firmware/Microbit_v2/utils/python/doc_gen/doxygen_extractor.py:207-228 | the description is that of the last matching item |
| DoxygenExtractor.ExtractParams | Firmware/Microbit_v2/utils/python/doc_gen/doxygen_extractor.py:156-181 | the parameters in order, one per param element, or the error when any name has a ref without text |
| DoxygenExtractor.ExtractMemberFunction | Firmware/Microbit_v2/utils/python/doc_gen/doxygen_extractor.py:130-230 | filtered out exactly when filtering is on and a filter string occurs in the name; the missing-text error exactly when a ref in the type or a parameter name has no text; otherwise the function with its escaped return type, every parameter with its matched description, and the other texts kept |
| DoxygenExtractor.SubelementTexts | Firmware/Microbit_v2/utils/python/doc_gen/doxygen_extractor.py:77-91 | the strings extract_with_subelements lists: the text or "", each child's list, the tail or ""; SubelementTextsAreIterText relates it to itertext |
| DoxygenExtractor.IgnoringRefs | Firmware/Microbit_v2/utils/python/doc_gen/doxygen_extractor.py:58-67 | what extract_ignoring_refs lists: the element's own text when present, then the text of every ref element of the tree in document order |
| DoxygenExtractor.ParamOf | Firmware/Microbit_v2/utils/python/doc_gen/doxygen_extractor.py:156-181 | the parameter dictionary of a param element: the escaped type text, the name joined from its refs (none when a ref has no text) and the default |
| MemInfo.Run | Firmware/Microbit_v2/utils/debug/meminfo.js:24 | a greedy run of one character class ends inside the line |
| MemInfo.ParseHexAtValue | Firmware/Microbit_v2/utils/debug/meminfo.js:29-30 | parseInt of a run of lowercase hex digits is its hexadecimal value |
| MemInfo.ReadPart | Firmware/Microbit_v2/utils/debug/meminfo.js:24 | a part of one class followed by a character outside it is read as exactly that part |
| MemInfo.HexAllOf | Firmware/Microbit_v2/utils/debug/meminfo.js:24 | hex digits are of the hex class |
| MemInfo.HexIsNonSpace | Firmware/Microbit_v2/utils/debug/meminfo.js:24 | hex digits are not white space |
| MemInfo.AllOfEvery | Firmware/Microbit_v2/utils/debug/meminfo.js:24 | a word whose characters are all of a class is of that class |
| MemInfo.PrefixNonSpace | Firmware/Microbit_v2/utils/debug/meminfo.js:24 | the address prefix is not white space |
| MemInfo.AllOfAppend | Firmware/Microbit_v2/utils/debug/meminfo.js:24 | two words of a class make one of that class |
| MemInfo.ReadLit | Firmware/Microbit_v2/utils/debug/meminfo.js:24 | a literal in the line is read as such |
| MemInfo.SizeFound | Firmware/Microbit_v2/utils/debug/meminfo.js:24 | the size and file name groups are found where the runs put them |
| MemInfo.AddressFound | Firmware/Microbit_v2/utils/debug/meminfo.js:24 | the address group is found where the runs put it |
| MemInfo.HexNotSpace | Firmware/Microbit_v2/utils/debug/meminfo.js:24 | a white-space character is not a hex digit |
| MemInfo.SizeRead | Firmware/Microbit_v2/utils/debug/meminfo.js:24-31 | the size group reads back as the size written and the file name group as the file name |
| MemInfo.AddressRead | Firmware/Microbit_v2/utils/debug/meminfo.js:24-29 | the address group reads back as the address written |
| MemInfo.FieldsRead | Firmware/Microbit_v2/utils/debug/meminfo.js:24-31 | address, size and file name written after "0x00000" read back |
| MemInfo.ConcatFrom | Firmware/Microbit_v2/utils/debug/meminfo.js:24 | concatenating parts from k is part k then the rest |
| MemInfo.EntryLineSpelled | Firmware/Microbit_v2/utils/debug/meminfo.js:24 | the pieces of an entry line laid end to end |
| MemInfo.EntryLineLayout | Firmware/Microbit_v2/utils/debug/meminfo.js:24 | where the leading space, the mark and the fields of an entry line lie |
| MemInfo.EntryLineParses | Firmware/Microbit_v2/utils/debug/meminfo.js:24-31 | an entry line (optional indentation, a mark, space, "0x00000" address, space, "0x" size, space, file name) matches with exactly those groups |
| MemInfo.ContinuationSpelled | Firmware/Microbit_v2/utils/debug/meminfo.js:24 | the pieces of an indented continuation line laid end to end |
| MemInfo.ContinuationLayout | Firmware/Microbit_v2/utils/debug/meminfo.js:24 | where the indentation and the fields of a continuation line lie |
| MemInfo.ContinuationLineParses | Firmware/Microbit_v2/utils/debug/meminfo.js:24-31 | an indented line that starts with the address, and whose size does not start with five zeros, matches by backtracking with an empty mark and those groups |
| MemInfo.MarkedSizeIsNoAddress | Firmware/Microbit_v2/utils/debug/meminfo.js:24 | a size field cannot be read as an address field |
| MemInfo.EntryFound | Firmware/Microbit_v2/utils/debug/meminfo.js:24 | the match after a mark gives the entry with that mark |
| MemInfo.ContinuationFound | Firmware/Microbit_v2/utils/debug/meminfo.js:24 | when nothing matches after the first word, an indented line matches with an empty mark |
| MemInfo.ParseEntryAt | Firmware/Microbit_v2/utils/debug/meminfo.js:24 | the match is decided after the greedy leading space and mark |
| MemInfo.SpaceBeforeFields | Firmware/Microbit_v2/utils/debug/meminfo.js:24 | the fields after the mark start after its white space |
| MemInfo.SpaceTaken | Firmware/Microbit_v2/utils/debug/meminfo.js:24 | the leading white space is taken greedily |
| MemInfo.MarkTaken | Firmware/Microbit_v2/utils/debug/meminfo.js:24 | the mark is taken greedily |
| MemInfo.LastArch | Firmware/Microbit_v2/utils/debug/meminfo.js:33 | the last position at or before i where "armv6-m" starts, and no later one |
| MemInfo.StripArch | Firmware/Microbit_v2/utils/debug/meminfo.js:33 | what is left is a suffix of the file name |
| MemInfo.LitAtSuffix | Firmware/Microbit_v2/utils/debug/meminfo.js:33 | a literal occurs in a suffix exactly where it occurs in the whole, shifted |
| MemInfo.StripArchWithout | Firmware/Microbit_v2/utils/debug/meminfo.js:33 | a file name without "armv6-m" is kept as it is |
| MemInfo.StripArchAfterLast | Firmware/Microbit_v2/utils/debug/meminfo.js:33 | otherwise exactly the text after the last "armv6-m" is kept |
| MemInfo.StripArchLeavesNone | Firmware/Microbit_v2/utils/debug/meminfo.js:33 | what is left never contains "armv6-m" |
| MemInfo.AddSize | Firmware/Microbit_v2/utils/debug/meminfo.js:36 | the file's row grows by the size, starting from 0, and no other row changes |
| MemInfo.ScanLine | Firmware/Microbit_v2/utils/debug/meminfo.js:17-39 | one line: the header line enters the memory map, a line starting "OUTPUT(" leaves it, and inside it the line is accounted |
| MemInfo.CountEntry | Firmware/Microbit_v2/utils/debug/meminfo.js:23-38 | inside the memory map the line's match is accounted |
| MemInfo.CountMatch | Firmware/Microbit_v2/utils/debug/meminfo.js:25-37 | padding, .bss and .relocate entries and empty entries add nothing; a load entry with a mark goes to the mark; the stripped file's size goes to ROM below 0x10000000 and to RAM otherwise |
| MemInfo.EntryFile | Firmware/Microbit_v2/utils/debug/meminfo.js:31-33 | the file an entry is charged to: the mark for a load entry that has one, otherwise the file, with everything up to the last armv6-m removed |
| MemInfo.ScanMap | Firmware/Microbit_v2/utils/debug/meminfo.js:13-40 | the loop over the lines computes the tables of Scan |
| MemInfo.NothingBeforeHeader | Firmware/Microbit_v2/utils/debug/meminfo.js:17-23 | nothing is counted before the header line |
| MemInfo.NothingAfterOutput | Firmware/Microbit_v2/utils/debug/meminfo.js:20-23 | after the OUTPUT( line nothing more is counted unless the header comes again |
| MemInfo.AccountSkips | Firmware/Microbit_v2/utils/debug/meminfo.js:25-34 | lines that do not match, skipped marks and zero sizes add nothing |
| MemInfo.AccountRoutes | Firmware/Microbit_v2/utils/debug/meminfo.js:34-36 | a counted entry adds its size to its file's row of the ROM table below 0x10000000 and of the RAM table otherwise; every other row stays |
| MemInfo.AddSizePositive | Firmware/Microbit_v2/utils/debug/meminfo.js:34-36 | adding a positive size keeps every row positive |
| MemInfo.AccountMatchPositive | Firmware/Microbit_v2/utils/debug/meminfo.js:34-36 | accounting a line keeps every row positive |
| MemInfo.TablesPositive | Firmware/Microbit_v2/utils/debug/meminfo.js:13-40 | every row of both tables is a positive size |
| MemInfo.PrintEnt | Firmware/Microbit_v2/utils/debug/meminfo.js:48-51 | seven columns for the size, two spaces, then the name |
| MemInfo.PrintEntReadable | Firmware/Microbit_v2/utils/debug/meminfo.js:48-51 | sizes below ten million are printed in full, right-aligned in seven columns |
| MemInfo.NatToStringLength | Firmware/Microbit_v2/utils/debug/meminfo.js:49 | a number below 10^k has at most k digits |
| MemInfo.Keys | Firmware/Microbit_v2/utils/debug/meminfo.js:54 | every key of the table once |
| MemInfo.SortBySize | Firmware/Microbit_v2/utils/debug/meminfo.js:55 | a permutation of the keys in ascending size order |
| MemInfo.Insert | Firmware/Microbit_v2/utils/debug/meminfo.js:55 | inserting a key keeps the order and adds exactly that key |
| MemInfo.InsertAt | Firmware/Microbit_v2/utils/debug/meminfo.js:55 | the insertion point between not-larger and larger keys keeps the order |
| MemInfo.InsertAtSorted | Firmware/Microbit_v2/utils/debug/meminfo.js:55 | the same, element by element |
| MemInfo.PrintSorted | Firmware/Microbit_v2/utils/debug/meminfo.js:56-61 | one line per key with its size, then the total of all sizes |
| MemInfo.DumpMap | Firmware/Microbit_v2/utils/debug/meminfo.js:53-62 | every file once in ascending size order, each with its size, then the total |
| MemInfo.Report | Firmware/Microbit_v2/utils/debug/meminfo.js:42-45 | the ROM banner, then one line per ROM file with that file's own size in ascending size order and the ROM total; then the RAM banner and the same listing of the RAM files |
| MemInfo.ParseEntry | Firmware/Microbit_v2/utils/debug/meminfo.js:24 | the first match of the entry pattern on a line as a backtracking matcher finds it: greedy space and mark, else the empty-mark fallback; EntryLineParses and ContinuationLineParses pin its groups |
| MemInfo.Scan | Firmware/Microbit_v2/utils/debug/meminfo.js:13-40 | the section flag and the ROM and RAM tables after the first n lines: accounting only between the header and OUTPUT(; NothingBeforeHeader, AccountRoutes and TablesPositive state its properties |
| Strings.Split | OpenHaystack/OpenHaystack/HaystackApp/UpdateCheckController.swift:93-94 | Swift's split drops empty parts: every part is non-empty and holds no separator |
| Strings.SplitJoin | OpenHaystack/OpenHaystack/HaystackApp/UpdateCheckController.swift:93-94 | splitting text joined from non-empty, separator-free parts gives the parts back |
| Strings.ReplaceChar | OpenHaystack/OpenHaystack/HaystackApp/UpdateCheckController.swift:79 | after replacing every 'v' by nothing no 'v' is left, and every character comes from the text or the replacement |
| Numerals.ParseInt | OpenHaystack/OpenHaystack/HaystackApp/UpdateCheckController.swift:99-100 | Swift's Int(String) yields only 64-bit values |
| Numerals.ParseIntOfIntToString | OpenHaystack/OpenHaystack/HaystackApp/Model/Accessory.swift:163 | Int(String(x)) gives back every 64-bit x |

## Left out

- The cryptographic primitives are function values in `Crypto.Suite`, with no body or property. This covers SHA-256, P-224 key generation and derivation, ECDH and AES-GCM.
- Bluetooth scanning and advertising, HTTP requests and the Find My server are not modelled. Keychain, pasteboard, file-system and process I/O are not modelled either. Where a result of one of these is needed, it is a parameter: a scan result, a server response, a flash outcome, git output, the lines of a map file.
- Concurrency is not modelled. `decryptReports` runs its per-report work on a concurrent queue; the model fills the slots one after another. Because slots are independent, the result is the same.
- The clock is not modelled. Placeholder report dates and the end of the fetch window are the parameter `now`.
- `FindMyController.loadPrivateKeys` (FindMyController.swift:19-28) is not modelled. It decodes a property list and then fetches.
- `exportDevices` and `exportLocations` are not modelled. They are file writes.
- The `AccessoryListEntry` copy actions are not modelled beyond their strings. The public-key and key-hash copies are the Base64 of `GetAdvertisementKey` and `GetKeyId`. Writing to the pasteboard is left out.
- `AccessoryModel`: the colour, the random icon choice and the SwiftUI bindings are not modelled.
- AccessoryModel: the debug-only `assert` in `getAdvertisementKey` is not modelled. Release builds skip it, and the guard after it throws the same error for a wrong length.
- `MicrobitController`: `findMicrobits` and `deployToMicrobit` are not modelled. They list mounted volumes and copy files.
- `NrfInstallSheet`: running the external flash script is not modelled. Its outcome is a parameter.
- NrfInstallSheet.NumbersOnly.SetValue: `Character.isNumber` is the parameter `isNumber`, any class that takes in the ASCII digits. The Unicode numeric table is not written out, so which non-ASCII numerals (such as '²') the field keeps depends on the class given. NonAsciiNumeralFallsBack shows that such a numeral makes the day count 1.
- NrfInstallSheet.UpdateIntervalMinutes: the overflow trap of `daysInt * 24 * 60` is a precondition, as for the other Swift traps. A day count above `Int.max / 1440` (for example "9999999999999999") crashes the app and is outside the model. NRFInstallSheet.Deploy requires it with an accessory bound, and requires the interval in seconds to fit only when the flashing succeeds, since only that branch multiplies by 60.
- `FlashNrf`: the device calls (`nrfjprog` and the serial-number lookup) are not modelled.
- FlashNrf.Written: models IntelHex's `puts` only within the image. The model never writes outside the image and keeps its length; data bytes that would land before address 0 or past the end are dropped. A missing marker makes `find` return -1 and the script still writes there; what IntelHex does at such addresses is not modelled.
- AccessoryControllerModel.SortByName: the names are compared by Unicode scalar value (`Strings.Less`). Swift's `String` `<` compares canonically equivalent names as equal, so the order agrees with Swift's only on names in NFC. The same holds for AccessoryControllerModel.InsertByName and AccessoryControllerModel.AccessoryController.MergeImported.
- DecryptReports.Decode: latitude and longitude are kept as the decoded `Int32` values, in units of 1e-7 degree. The app's `Double(latitude) / 10000000.0` and its floating-point rounding are not modelled.
- `UpdateCheck`: downloading the release page and showing the alert are not modelled. The page text is a parameter. The regular expression is modelled as the tag-extraction function it implements.
- `Uf2Conv`: `main`, the command-line options, `getdrives`, `boardID` and `writeFile` are not modelled.
- `CodalUtils`: the git commands are not run. Their outputs are taken already stripped. The `\w` and `\d` classes of the tag pattern are taken as ASCII; Python 3 also matches other Unicode word characters and decimal digits with them.
- MdConverter.Clean: the per-line classification is a parameter. It depends on a regular expression over HTML.
- DoxygenExtractor.ExtractMemberFunction: the `detaileddescription` walk (paragraphs, the return and note sections, the examples) is not modelled; its results are inputs.
- `DoxygenExtractor`: `generate_doxygen` and `get_headers` are not modelled. They run doxygen and walk directories.
- DoxygenExtractor.EscapeMdChars: follows the code, which puts a backslash before each special character. It does not use the HTML codes listed next to those characters.
- `MemInfo`: reading the file, splitting it on line breaks and writing to the console are not modelled.
- `MemInfo`: JavaScript numbers are modelled as unbounded integers. Sizes in a linker map stay far below 2^53.
- MemInfo.SortBySize: states ascending size and a permutation. It does not fix the order among keys of equal size, which a stable sort would take from insertion order.
- FindMyControllerModel.DevicesOf: states at most one device per accessory and the shape of each device. It does not state that the result lists, in order, the devices of exactly those accessories whose conversion succeeds.

## Findings

| source | as written | input that shows it | evidently intended | confidence | as-written member | corrected member |
|---|---|---|---|---|---|---|
| OpenHaystack/OpenHaystack/FindMy/FindMyController.swift:41-64 | `importReports` files each report into `d`, a local copy of the decoded devices. It then stores the decoded devices without those reports and decrypts them. | one device with one key, and one report whose id is that key's hash | the report is filed under the device and decrypted into its slot | not executed | `FindMyControllerModel.FindMyController.ImportReportsAsWritten`, `FindMyControllerModel.ImportedReportsAreLost` | `FindMyControllerModel.FindMyController.ImportReports` |
| Firmware/Microbit_v2/utils/uf2conv.py:31-33 | the bad-magic log line joins a string and the integer `ptr` with `+`. That raises a TypeError, so the block is not skipped. | a 512-byte buffer whose first word is not `UF2_MAGIC_START0` | the block is logged and skipped | not executed | `Uf2Conv.BadMagicAborts` | `Uf2Conv.BadMagicBlocksSkipped` |
