/**
 * The Find My report pipeline (`FindMy/FindMyController.swift`): building devices from
 * accessories, querying reports per device, filing imported reports under their devices, and
 * decrypting every device's reports into an index-addressed slot array. Decryption runs
 * sequentially here; the slots it fills are the same as with the concurrent loop.
 */
module FindMyControllerModel {
  import opened Common
  import opened FindMyModels
  import opened DecryptReports
  import opened AccessoryModel
  import Crypto

  datatype FindMyErrors = DecodingPlistFailed(message: string) | ObjectReleased | InvalidSearchPartyToken

  /** The query window of `fetchReports(with:)`: 21 days, in seconds. */
  const QUERY_DURATION: int := 24 * 60 * 60 * 21

  // ---------------------------------------------------------------------------
  // Key map and slots

  /**
   * `keys.reduce(into: [:]) { $0[$1.hashedKey.base64EncodedString()] = $1 }`: every key under its
   * report id; of keys with the same id the last one wins.
   */
  function KeyMapOf(keys: seq<FindMyKey>): (m: map<string, FindMyKey>)
    ensures forall k | k in keys :: KeyId(k) in m
    ensures forall id | id in m :: m[id] in keys && KeyId(m[id]) == id
  {
    if keys == [] then map[]
    else
      var last := keys[|keys| - 1];
      assert forall k | k in keys :: k in keys[..|keys| - 1] || k == last;
      KeyMapOf(keys[..|keys| - 1])[KeyId(last) := last]
  }

  /** Each key of a prefix, in order, overwrites the entry for its id. */
  lemma KeyMapOfPrefix(keys: seq<FindMyKey>, i: nat)
    requires i < |keys|
    ensures KeyMapOf(keys[..i + 1]) == KeyMapOf(keys[..i])[KeyId(keys[i]) := keys[i]]
  {
    assert keys[..i + 1][..i] == keys[..i];
  }

  /** A key that no later key shares an id with is the one the map holds for that id. */
  lemma {:induction false} KeyMapLastWins(keys: seq<FindMyKey>, i: nat)
    requires i < |keys|
    requires forall j :: i < j < |keys| ==> KeyId(keys[j]) != KeyId(keys[i])
    ensures KeyId(keys[i]) in KeyMapOf(keys) && KeyMapOf(keys)[KeyId(keys[i])] == keys[i]
  {
    if i < |keys| - 1 {
      KeyMapLastWins(keys[..|keys| - 1], i);
    }
  }

  /** Two keys with the same hash are the same report id: the later one answers for both. */
  lemma LaterKeyWins(k1: FindMyKey, k2: FindMyKey)
    requires k1.hashedKey == k2.hashedKey
    ensures KeyMapOf([k1, k2]) == map[KeyId(k2) := k2]
  {
    KeyIdCollision(k1, k2);
    assert [k1, k2][..1] == [k1];
  }

  /** What `decrypt` can be applied to without trapping: matched reports are long enough to slice. */
  predicate Decryptable(device: FindMyDevice)
  {
    device.reports.Some? ==>
      forall r | r in device.reports.value :: r.id in KeyMapOf(device.keys) ==> |Normalise(r.payload)| >= 72
  }

  predicate AllDecryptable(devices: seq<FindMyDevice>)
  {
    forall d | d in devices :: Decryptable(d)
  }

  /** The slot initialiser `FindMyLocationReport(lat: 0, lng: 0, acc: 0, dP: Date(), t: Date(), c: 0)`. */
  function Placeholder(now: Date): LocationReport
  {
    LocationReport(0, 0, 0, now, Some(now), 0)
  }

  /** The content of one slot: the decrypted report, or the placeholder when there is no key or decryption throws. */
  function DecryptSlot(report: FindMyReport, keyMap: map<string, FindMyKey>, suite: Crypto.Suite, now: Date): (r: LocationReport)
    requires report.id in keyMap ==> |Normalise(report.payload)| >= 72
  {
    if report.id !in keyMap then Placeholder(now)
    else match Decrypt(report, keyMap[report.id], suite)
      case Ok(locationReport) => locationReport
      case Err(_) => Placeholder(now)
  }

  /** A device after `decryptReports`: no reports give no decrypted reports, otherwise one slot per report. */
  function DecryptedDevice(device: FindMyDevice, suite: Crypto.Suite, now: Date): (r: FindMyDevice)
    requires Decryptable(device)
    ensures r.deviceId == device.deviceId && r.keys == device.keys && r.reports == device.reports
    ensures r.decryptedReports.Some?
    ensures device.reports.None? ==> r.decryptedReports.value == []
    ensures device.reports.Some? ==> |r.decryptedReports.value| == |device.reports.value|
    ensures device.reports.Some? ==> forall i :: 0 <= i < |device.reports.value| ==>
      r.decryptedReports.value[i] == DecryptSlot(device.reports.value[i], KeyMapOf(device.keys), suite, now)
  {
    match device.reports
    case None => device.(decryptedReports := Some([]))
    case Some(reports) =>
      var keyMap := KeyMapOf(device.keys);
      device.(decryptedReports := Some(seq(|reports|, i requires 0 <= i < |reports| => DecryptSlot(reports[i], keyMap, suite, now))))
  }

  /** Slot `i` depends on report `i` alone: changing another report leaves it as it was. */
  lemma SlotsIndependent(device: FindMyDevice, i: nat, j: nat, other: FindMyReport, suite: Crypto.Suite, now: Date)
    requires Decryptable(device) && device.reports.Some? && i < |device.reports.value| && j < |device.reports.value| && i != j
    requires other.id in KeyMapOf(device.keys) ==> |Normalise(other.payload)| >= 72
    ensures var changed := device.(reports := Some(device.reports.value[j := other]));
      Decryptable(changed) &&
      DecryptedDevice(changed, suite, now).decryptedReports.value[i] == DecryptedDevice(device, suite, now).decryptedReports.value[i]
  {
    var changed := device.(reports := Some(device.reports.value[j := other]));
    assert forall r | r in changed.reports.value :: r in device.reports.value || r == other;
  }

  /** `decryptReports` on every device. */
  function DecryptAll(devices: seq<FindMyDevice>, suite: Crypto.Suite, now: Date): (r: seq<FindMyDevice>)
    requires AllDecryptable(devices)
    ensures |r| == |devices|
    ensures forall i :: 0 <= i < |devices| ==> r[i] == DecryptedDevice(devices[i], suite, now)
  {
    if devices == [] then []
    else [DecryptedDevice(devices[0], suite, now)] + DecryptAll(devices[1..], suite, now)
  }

  /** Forgetting earlier decrypted reports (`importDevices`) makes no difference to decryption. */
  function Cleared(devices: seq<FindMyDevice>): (r: seq<FindMyDevice>)
    ensures |r| == |devices|
    ensures forall i :: 0 <= i < |devices| ==> r[i] == devices[i].(decryptedReports := None)
  {
    seq(|devices|, i requires 0 <= i < |devices| => devices[i].(decryptedReports := None))
  }

  lemma ClearingIsRedundant(devices: seq<FindMyDevice>, suite: Crypto.Suite, now: Date)
    requires AllDecryptable(devices)
    ensures AllDecryptable(Cleared(devices))
    ensures DecryptAll(Cleared(devices), suite, now) == DecryptAll(devices, suite, now)
  {
    var c := Cleared(devices);
    forall d | d in c
      ensures Decryptable(d)
    {
      var i :| 0 <= i < |c| && c[i] == d;
      assert Decryptable(devices[i]);
    }
    assert forall i :: 0 <= i < |devices| ==> DecryptedDevice(c[i], suite, now) == DecryptedDevice(devices[i], suite, now);
  }

  // ---------------------------------------------------------------------------
  // Filing imported reports

  predicate HasKeyFor(device: FindMyDevice, id: string)
  {
    exists k | k in device.keys :: KeyId(k) == id
  }

  /** `d.firstIndex { $0.keys.contains { ... == report.id } }`, or `|devices|`. */
  function FirstDeviceFor(devices: seq<FindMyDevice>, id: string): (k: nat)
    ensures k <= |devices|
    ensures forall j :: 0 <= j < k ==> !HasKeyFor(devices[j], id)
    ensures k < |devices| ==> HasKeyFor(devices[k], id)
  {
    if devices == [] || HasKeyFor(devices[0], id) then 0 else 1 + FirstDeviceFor(devices[1..], id)
  }

  /** `reports` with one more at the end; nil becomes a one-element list. */
  function Appended(reports: Option<seq<FindMyReport>>, report: FindMyReport): seq<FindMyReport>
  {
    if reports.Some? then reports.value + [report] else [report]
  }

  /** One iteration of the filing loop: the report goes to the first device with its key, or nowhere. */
  function FileReport(devices: seq<FindMyDevice>, report: FindMyReport): (r: seq<FindMyDevice>)
    ensures |r| == |devices|
    ensures var k := FirstDeviceFor(devices, report.id);
      (k == |devices| ==> r == devices) &&
      (k < |devices| ==> r[k].reports == Some(Appended(devices[k].reports, report)))
    ensures forall i :: 0 <= i < |devices| && i != FirstDeviceFor(devices, report.id) ==> r[i] == devices[i]
    ensures forall i :: 0 <= i < |devices| ==>
      r[i].keys == devices[i].keys && r[i].deviceId == devices[i].deviceId &&
      r[i].decryptedReports == devices[i].decryptedReports
  {
    var k := FirstDeviceFor(devices, report.id);
    if k == |devices| then devices
    else devices[k := devices[k].(reports := Some(Appended(devices[k].reports, report)))]
  }

  /** The filing loop over all reports, in order. */
  function FileReports(devices: seq<FindMyDevice>, reports: seq<FindMyReport>): (r: seq<FindMyDevice>)
    ensures |r| == |devices|
    ensures forall i :: 0 <= i < |devices| ==>
      r[i].keys == devices[i].keys && r[i].deviceId == devices[i].deviceId &&
      r[i].decryptedReports == devices[i].decryptedReports
  {
    if reports == [] then devices
    else FileReport(FileReports(devices, reports[..|reports| - 1]), reports[|reports| - 1])
  }

  // ---------------------------------------------------------------------------
  // Devices and queries

  /** `accessories.compactMap { try? $0.toFindMyDevice() }`: accessories without a key are skipped. */
  function DevicesOf(accessories: seq<Accessory>, suite: Crypto.Suite): (r: seq<FindMyDevice>)
    ensures |r| <= |accessories|
    ensures forall d | d in r :: |d.keys| == 1 && d.reports.None? && d.decryptedReports.None?
  {
    if accessories == [] then []
    else
      var rest := DevicesOf(accessories[1..], suite);
      match accessories[0].ToFindMyDevice(suite)
      case Ok(d) => [d] + rest
      case Err(_) => rest
  }

  /** One `ReportsFetcher.query(forHashes:start:duration:)` call. */
  datatype Query = Query(hashes: seq<string>, start: Date, duration: int)

  /** What the server answers for one device's query. */
  datatype Response =
    | NoData
    | Results(results: seq<FindMyReport>)
    /** JSON decoding threw; `empty` when the response had no bytes at all. */
    | Undecodable(empty: bool)

  function KeyIds(keys: seq<FindMyKey>): (r: seq<string>)
    ensures |r| == |keys| && forall i :: 0 <= i < |keys| ==> r[i] == KeyId(keys[i])
  {
    seq(|keys|, i requires 0 <= i < |keys| => KeyId(keys[i]))
  }

  function QueryFor(device: FindMyDevice, now: Date): (q: Query)
    ensures q.start + q.duration == now && q.duration == QUERY_DURATION
    ensures q.hashes == KeyIds(device.keys)
  {
    Query(KeyIds(device.keys), now - QUERY_DURATION, QUERY_DURATION)
  }

  /** The device's reports after its query: the decoded results, otherwise none. */
  function WithResponse(device: FindMyDevice, response: Response): (r: FindMyDevice)
    ensures r.keys == device.keys && r.deviceId == device.deviceId && r.reports.Some?
    ensures r.reports.value == if response.Results? then response.results else []
  {
    device.(reports := Some(if response.Results? then response.results else []))
  }

  /** The number of empty undecodable responses: each one completes with `invalidSearchPartyToken`. */
  function EmptyResponses(responses: seq<Response>): nat
  {
    if responses == [] then 0
    else EmptyResponses(responses[..|responses| - 1]) + if responses[|responses| - 1] == Undecodable(true) then 1 else 0
  }

  /** One more response adds its token error, if any, after the earlier ones. */
  lemma TokenErrorsStep(responses: seq<Response>, i: nat)
    requires i < |responses|
    ensures TokenErrors(EmptyResponses(responses[..i + 1])) ==
      TokenErrors(EmptyResponses(responses[..i])) + TokenErrors(if responses[i] == Undecodable(true) then 1 else 0)
  {
    assert responses[..i + 1][..i] == responses[..i];
  }

  /** No token error is reported exactly when no response was empty. */
  lemma {:induction false} NoEmptyResponses(responses: seq<Response>)
    ensures EmptyResponses(responses) == 0 <==> Undecodable(true) !in responses
  {
    if responses != [] {
      var init := responses[..|responses| - 1];
      NoEmptyResponses(init);
      assert responses == init + [responses[|responses| - 1]];
    }
  }

  function TokenErrors(n: nat): (r: seq<Option<FindMyErrors>>)
    ensures |r| == n && forall i :: 0 <= i < n ==> r[i] == Some(InvalidSearchPartyToken)
  {
    seq(n, _ => Some(InvalidSearchPartyToken))
  }

  class FindMyController {
    var devices: seq<FindMyDevice>

    constructor ()
      ensures devices == []
    {
      devices := [];
    }

    /** The `reduce(into:)` of `decryptReports` as a loop over the keys. */
    static method BuildKeyMap(keys: seq<FindMyKey>) returns (keyMap: map<string, FindMyKey>)
      ensures keyMap == KeyMapOf(keys)
    {
      keyMap := map[];
      var i := 0;
      while i < |keys|
        invariant 0 <= i <= |keys|
        invariant keyMap == KeyMapOf(keys[..i])
      {
        KeyMapOfPrefix(keys, i);
        keyMap := keyMap[KeyId(keys[i]) := keys[i]];
        i := i + 1;
      }
      assert keys[..|keys|] == keys;
    }

    /**
     * The guarded `try? decrypt` of one report: the location it decrypts to, or nothing when
     * no key has its id or decryption throws.
     */
    static method TryDecrypt(report: FindMyReport, keyMap: map<string, FindMyKey>, suite: Crypto.Suite, now: Date)
      returns (r: Option<LocationReport>)
      requires report.id in keyMap ==> |Normalise(report.payload)| >= 72
      ensures DecryptSlot(report, keyMap, suite, now) == if r.Some? then r.value else Placeholder(now)
    {
      r := None;
      if report.id in keyMap {
        var result := Decrypt(report, keyMap[report.id], suite);
        if result.Ok? {
          r := Some(result.value);
        }
      }
    }

    /**
     * The slot array of one device: every slot starts as the placeholder and receives its
     * report's location when that report decrypts.
     */
    static method FillSlots(reports: seq<FindMyReport>, keyMap: map<string, FindMyKey>, suite: Crypto.Suite, now: Date)
      returns (slots: seq<LocationReport>)
      requires forall r | r in reports :: r.id in keyMap ==> |Normalise(r.payload)| >= 72
      ensures |slots| == |reports|
      ensures forall i :: 0 <= i < |reports| ==> slots[i] == DecryptSlot(reports[i], keyMap, suite, now)
    {
      var decryptedReports := new LocationReport[|reports|](_ => Placeholder(now));
      var reportIdx := 0;
      while reportIdx < |reports|
        invariant 0 <= reportIdx <= |reports| == decryptedReports.Length
        invariant forall i :: 0 <= i < reportIdx ==> decryptedReports[i] == DecryptSlot(reports[i], keyMap, suite, now)
        invariant forall i :: reportIdx <= i < |reports| ==> decryptedReports[i] == Placeholder(now)
      {
        assert reports[reportIdx] in reports;
        var decrypted := TryDecrypt(reports[reportIdx], keyMap, suite, now);
        ghost var want := DecryptSlot(reports[reportIdx], keyMap, suite, now);
        ghost var before := decryptedReports[..];
        if decrypted.Some? {
          decryptedReports[reportIdx] := decrypted.value;
        }
        assert decryptedReports[..] == before[reportIdx := want];
        reportIdx := reportIdx + 1;
      }
      slots := decryptedReports[..];
    }

    /** The body of `decryptReports` for one device: its filled slots, or nothing when it has no reports. */
    static method DecryptDevice(device: FindMyDevice, suite: Crypto.Suite, now: Date) returns (r: FindMyDevice)
      requires Decryptable(device)
      ensures r == DecryptedDevice(device, suite, now)
    {
      r := device.(decryptedReports := Some([]));
      if device.reports.None? {
        return;
      }
      var keyMap := BuildKeyMap(device.keys);
      var slots := FillSlots(device.reports.value, keyMap, suite, now);
      assert slots == DecryptedDevice(device, suite, now).decryptedReports.value;
      r := r.(decryptedReports := Some(slots));
    }

    /**
     * `decryptReports`: every device's decrypted reports are rebuilt from its reports; a slot
     * whose report has no key or fails to decrypt keeps the placeholder.
     */
    method DecryptReports(suite: Crypto.Suite, now: Date)
      requires AllDecryptable(devices)
      modifies this`devices
      ensures devices == DecryptAll(old(devices), suite, now)
    {
      ghost var original := devices;
      var deviceIdx := 0;
      while deviceIdx < |devices|
        invariant 0 <= deviceIdx <= |devices| == |original|
        invariant forall j :: 0 <= j < deviceIdx ==> devices[j] == DecryptedDevice(original[j], suite, now)
        invariant forall j :: deviceIdx <= j < |devices| ==> devices[j] == original[j]
      {
        assert original[deviceIdx] in original;
        var decrypted := DecryptDevice(devices[deviceIdx], suite, now);
        devices := devices[deviceIdx := decrypted];
        deviceIdx := deviceIdx + 1;
      }
    }

    /** `importDevices`: the decoded devices, decrypted reports forgotten, then decrypted again. */
    method ImportDevices(decoded: seq<FindMyDevice>, suite: Crypto.Suite, now: Date)
      requires AllDecryptable(decoded)
      modifies this`devices
      ensures devices == DecryptAll(decoded, suite, now)
    {
      var cleared := decoded;
      var idx := 0;
      while idx < |cleared|
        invariant 0 <= idx <= |cleared| == |decoded|
        invariant forall j :: 0 <= j < idx ==> cleared[j] == decoded[j].(decryptedReports := None)
        invariant forall j :: idx <= j < |cleared| ==> cleared[j] == decoded[j]
      {
        cleared := cleared[idx := cleared[idx].(decryptedReports := None)];
        idx := idx + 1;
      }
      assert cleared == Cleared(decoded);
      ClearingIsRedundant(decoded, suite, now);
      devices := cleared;
      DecryptReports(suite, now);
    }

    /**
     * `importReports` as written: the reports are filed into the local copy `d`, which is then
     * dropped, and `decryptReports` runs on the devices as decoded.
     */
    method ImportReportsAsWritten(reports: seq<FindMyReport>, decoded: seq<FindMyDevice>, suite: Crypto.Suite, now: Date)
      requires AllDecryptable(decoded)
      modifies this`devices
      ensures devices == DecryptAll(decoded, suite, now)
    {
      devices := decoded;
      var d := devices;
      var i := 0;
      while i < |reports|
        invariant 0 <= i <= |reports|
        invariant d == FileReports(decoded, reports[..i])
      {
        assert reports[..i + 1][..i] == reports[..i];
        d := FileReport(d, reports[i]);
        i := i + 1;
      }
      DecryptReports(suite, now);
    }

    /** `importReports` with the filed devices stored before decrypting, as evidently intended. */
    method ImportReports(reports: seq<FindMyReport>, decoded: seq<FindMyDevice>, suite: Crypto.Suite, now: Date)
      requires AllDecryptable(FileReports(decoded, reports))
      modifies this`devices
      ensures devices == DecryptAll(FileReports(decoded, reports), suite, now)
    {
      devices := decoded;
      var d := devices;
      var i := 0;
      while i < |reports|
        invariant 0 <= i <= |reports|
        invariant d == FileReports(decoded, reports[..i])
      {
        assert reports[..i + 1][..i] == reports[..i];
        d := FileReport(d, reports[i]);
        i := i + 1;
      }
      assert reports[..|reports|] == reports;
      devices := d;
      DecryptReports(suite, now);
    }

    /**
     * The query loop of `fetchReports(with:)` over a copy of the devices, one response per device
     * in device order (the network is a parameter): the queries sent, the devices with their
     * reports, and an `invalidSearchPartyToken` completion for each empty response.
     */
    static method QueryDevices(start: seq<FindMyDevice>, responses: seq<Response>, now: Date)
      returns (fetched: seq<FindMyDevice>, queries: seq<Query>, completions: seq<Option<FindMyErrors>>)
      requires |responses| == |start|
      ensures |queries| == |start| && forall i :: 0 <= i < |queries| ==> queries[i] == QueryFor(start[i], now)
      ensures |fetched| == |start| && forall i :: 0 <= i < |start| ==> fetched[i] == WithResponse(start[i], responses[i])
      ensures completions == TokenErrors(EmptyResponses(responses))
    {
      fetched := start;
      queries := [];
      completions := [];
      var deviceIndex := 0;
      while deviceIndex < |start|
        invariant 0 <= deviceIndex <= |fetched| == |start| == |responses|
        invariant |queries| == deviceIndex && forall i :: 0 <= i < deviceIndex ==> queries[i] == QueryFor(start[i], now)
        invariant forall i :: 0 <= i < deviceIndex ==> fetched[i] == WithResponse(start[i], responses[i])
        invariant forall i :: deviceIndex <= i < |fetched| ==> fetched[i] == start[i]
        invariant completions == TokenErrors(EmptyResponses(responses[..deviceIndex]))
      {
        var device, query, tokenErrors := QueryOne(fetched[deviceIndex], responses[deviceIndex], now);
        queries := queries + [query];
        completions := completions + tokenErrors;
        TokenErrorsStep(responses, deviceIndex);
        fetched := fetched[deviceIndex := device];
        deviceIndex := deviceIndex + 1;
      }
      assert responses[..|responses|] == responses;
    }

    /** One turn of the query loop: the query for `device`, the device with its reports, and its token error. */
    static method QueryOne(start: FindMyDevice, response: Response, now: Date)
      returns (device: FindMyDevice, query: Query, tokenErrors: seq<Option<FindMyErrors>>)
      ensures query == QueryFor(start, now) && device == WithResponse(start, response)
      ensures tokenErrors == TokenErrors(if response == Undecodable(true) then 1 else 0)
    {
      device := start.(reports := Some([]));
      var keyHashes := KeyIds(device.keys);
      query := Query(keyHashes, now - QUERY_DURATION, QUERY_DURATION);
      tokenErrors := [];
      match response {
        case NoData =>
        case Results(results) =>
          device := device.(reports := Some(results));
        case Undecodable(empty) =>
          if empty {
            tokenErrors := tokenErrors + [Some(InvalidSearchPartyToken)];
          }
          device := device.(reports := Some([]));
      }
    }

    /**
     * `fetchReports(with:)`: the query loop, then the fetched devices stored and decrypted, and
     * the final nil completion after the token errors.
     */
    method FetchReportsWith(responses: seq<Response>, suite: Crypto.Suite, now: Date)
      returns (queries: seq<Query>, completions: seq<Option<FindMyErrors>>)
      requires |responses| == |devices|
      requires forall i :: 0 <= i < |devices| ==> Decryptable(WithResponse(devices[i], responses[i]))
      modifies this`devices
      ensures |queries| == |old(devices)| && forall i :: 0 <= i < |queries| ==> queries[i] == QueryFor(old(devices)[i], now)
      ensures |devices| == |old(devices)|
      ensures forall i :: 0 <= i < |devices| ==>
        devices[i] == DecryptedDevice(WithResponse(old(devices)[i], responses[i]), suite, now)
      ensures completions == TokenErrors(EmptyResponses(responses)) + [None]
    {
      var fetched;
      fetched, queries, completions := QueryDevices(devices, responses, now);
      forall d | d in fetched
        ensures Decryptable(d)
      {
        var i :| 0 <= i < |fetched| && fetched[i] == d;
      }
      devices := fetched;
      DecryptReports(suite, now);
      completions := completions + [None];
    }

    /**
     * `fetchReports(for:with:)`: one device per accessory with a key, then the fetch; each
     * completion of the fetch is passed on, an error as a failure and nil as the devices.
     */
    method FetchReportsFor(accessories: seq<Accessory>, responses: seq<Response>, suite: Crypto.Suite, now: Date)
      returns (queries: seq<Query>, completions: seq<Result<seq<FindMyDevice>, FindMyErrors>>)
      requires |responses| == |DevicesOf(accessories, suite)|
      requires forall i :: 0 <= i < |responses| ==> Decryptable(WithResponse(DevicesOf(accessories, suite)[i], responses[i]))
      modifies this`devices
      ensures |queries| == |DevicesOf(accessories, suite)|
      ensures forall i :: 0 <= i < |queries| ==> queries[i] == QueryFor(DevicesOf(accessories, suite)[i], now)
      ensures |completions| == EmptyResponses(responses) + 1
      ensures forall i :: 0 <= i < |completions| - 1 ==> completions[i] == Err(InvalidSearchPartyToken)
      ensures completions[|completions| - 1] == Ok(devices)
    {
      devices := DevicesOf(accessories, suite);
      var calls;
      queries, calls := FetchReportsWith(responses, suite, now);
      completions := PassOn(calls, devices);
    }

    /** The completion handler of `fetchReports(for:with:)`: an error as a failure, nil as the devices. */
    static method PassOn(calls: seq<Option<FindMyErrors>>, fetched: seq<FindMyDevice>)
      returns (completions: seq<Result<seq<FindMyDevice>, FindMyErrors>>)
      ensures |completions| == |calls|
      ensures forall j :: 0 <= j < |calls| ==> completions[j] == if calls[j].Some? then Err(calls[j].value) else Ok(fetched)
    {
      completions := [];
      var i := 0;
      while i < |calls|
        invariant 0 <= i <= |calls|
        invariant |completions| == i
        invariant forall j :: 0 <= j < i ==> completions[j] == if calls[j].Some? then Err(calls[j].value) else Ok(fetched)
      {
        completions := completions + [if calls[i].Some? then Err(calls[i].value) else Ok(fetched)];
        i := i + 1;
      }
    }
  }

  /** Filing a report under the one key of a device without reports gives it that report. */
  lemma FilingOneReport(key: FindMyKey, report: FindMyReport)
    requires report.id == KeyId(key)
    ensures FileReports([FindMyDevice("1", [key], None, None)], [report]) == [FindMyDevice("1", [key], Some([report]), None)]
  {
    var decoded := [FindMyDevice("1", [key], None, None)];
    assert HasKeyFor(decoded[0], report.id);
    assert FirstDeviceFor(decoded, report.id) == 0;
    assert [report][..0] == [];
  }

  /** A device holding one report filed under its one key decrypts that report into its slot. */
  lemma FiledReportDecrypts(key: FindMyKey, report: FindMyReport, suite: Crypto.Suite, now: Date)
    requires report.id == KeyId(key) && |Normalise(report.payload)| >= 72
    ensures AllDecryptable([FindMyDevice("1", [key], Some([report]), None)])
    ensures DecryptAll([FindMyDevice("1", [key], Some([report]), None)], suite, now)[0].decryptedReports ==
      Some([DecryptSlot(report, KeyMapOf([key]), suite, now)])
  {
    var filed := FindMyDevice("1", [key], Some([report]), None);
    assert Decryptable(filed);
    var slots := DecryptedDevice(filed, suite, now).decryptedReports.value;
    assert slots == [DecryptSlot(report, KeyMapOf([key]), suite, now)];
  }

  /**
   * The reports `importReports` is given never reach decryption: a device with one key and no
   * reports, and one report filed under that key, comes out of the source with no decrypted
   * report, while the corrected import decrypts the report into its slot.
   */
  lemma ImportedReportsAreLost(key: FindMyKey, report: FindMyReport, suite: Crypto.Suite, now: Date)
    requires report.id == KeyId(key) && |Normalise(report.payload)| >= 72
    ensures var decoded := [FindMyDevice("1", [key], None, None)];
      AllDecryptable(decoded) && AllDecryptable(FileReports(decoded, [report])) &&
      DecryptAll(decoded, suite, now)[0].decryptedReports == Some([]) &&
      DecryptAll(FileReports(decoded, [report]), suite, now)[0].decryptedReports ==
        Some([DecryptSlot(report, KeyMapOf([key]), suite, now)])
  {
    var decoded := [FindMyDevice("1", [key], None, None)];
    FilingOneReport(key, report);
    assert AllDecryptable(decoded);
    FiledReportDecrypts(key, report, suite, now);
  }

}
