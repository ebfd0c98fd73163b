/**
 * The accessory list (`HaystackApp/AccessoryController.swift`): assigning decrypted reports to
 * accessories, deleting, adding and importing accessories, and the outcome of a report download.
 */
module AccessoryControllerModel {
  import opened Common
  import opened FindMyModels
  import opened AccessoryModel
  import Numerals
  import Strings

  /** `Date.distantPast` in seconds relative to the reference date: the rank of a report without a timestamp. */
  const DISTANT_PAST: Date := -63114076800

  function TimeKey(r: LocationReport): Date
  {
    if r.timestamp.Some? then r.timestamp.value else DISTANT_PAST
  }

  /**
   * The position of the report `sorted(by: >).first` picks: the newest one, and among equally
   * new ones the one listed first (the sort being stable).
   */
  function LatestIndex(reports: seq<LocationReport>): (k: nat)
    requires reports != []
    ensures k < |reports|
    ensures forall j :: 0 <= j < |reports| ==> TimeKey(reports[j]) <= TimeKey(reports[k])
    ensures forall j :: 0 <= j < k ==> TimeKey(reports[j]) < TimeKey(reports[k])
  {
    if |reports| == 1 then 0
    else
      var k := 1 + LatestIndex(reports[1..]);
      if TimeKey(reports[0]) >= TimeKey(reports[k]) then 0 else k
  }

  /** The report an accessory's last location is taken from, or `None` without decrypted reports. */
  function LatestReport(device: FindMyDevice): (r: Option<LocationReport>)
    ensures r.Some? <==> device.decryptedReports.Some? && device.decryptedReports.value != []
    ensures r.Some? ==> r.value in device.decryptedReports.value
    ensures r.Some? ==> forall x | x in device.decryptedReports.value :: TimeKey(x) <= TimeKey(r.value)
  {
    match device.decryptedReports
    case None => None
    case Some(reports) => if reports == [] then None else Some(reports[LatestIndex(reports)])
  }

  function ReportLocation(r: LocationReport): Location
  {
    Location(r.latitude, r.longitude)
  }

  function LatestLocation(device: FindMyDevice): Option<Location>
  {
    var r := LatestReport(device);
    if r.Some? then Some(ReportLocation(r.value)) else None
  }

  function LatestTimestamp(device: FindMyDevice): Option<Date>
  {
    var r := LatestReport(device);
    if r.Some? then r.value.timestamp else None
  }

  /**
   * `firstIndex(where: { $0.id == Int(device.deviceId) })`: the first accessory with the parsed
   * id, or `|accessories|` when there is none or the device id does not parse.
   */
  function FirstWithId(accessories: seq<Accessory>, id: Option<int>): (k: nat)
    ensures k <= |accessories|
    ensures forall j :: 0 <= j < k ==> Some(accessories[j].id) != id
    ensures k < |accessories| ==> Some(accessories[k].id) == id
  {
    if accessories == [] || Some(accessories[0].id) == id then 0
    else 1 + FirstWithId(accessories[1..], id)
  }

  /** The accessory a device's reports go to, if any. */
  function Target(accessories: seq<Accessory>, device: FindMyDevice): Option<Accessory>
  {
    var k := FirstWithId(accessories, Numerals.ParseInt(device.deviceId));
    if k < |accessories| then Some(accessories[k]) else None
  }

  /** The last device in `devices` whose reports go to `a`: it decides `a`'s locations. */
  function LastDeviceFor(accessories: seq<Accessory>, devices: seq<FindMyDevice>, a: Accessory): Option<FindMyDevice>
  {
    if devices == [] then None
    else if Target(accessories, devices[|devices| - 1]) == Some(a) then Some(devices[|devices| - 1])
    else LastDeviceFor(accessories, devices[..|devices| - 1], a)
  }

  /** An accessory is only ever a target when one of the devices names its id. */
  lemma {:induction false} LastDeviceForNamesId(accessories: seq<Accessory>, devices: seq<FindMyDevice>, a: Accessory)
    requires LastDeviceFor(accessories, devices, a).Some?
    ensures var d := LastDeviceFor(accessories, devices, a).value;
      d in devices && a in accessories && Numerals.ParseInt(d.deviceId) == Some(a.id)
    decreases |devices|
  {
    if Target(accessories, devices[|devices| - 1]) != Some(a) {
      LastDeviceForNamesId(accessories, devices[..|devices| - 1], a);
    }
  }

  /** One more device: it decides its target's locations, and nobody else's changes. */
  lemma LastDeviceStep(accessories: seq<Accessory>, devices: seq<FindMyDevice>, i: nat, a: Accessory)
    requires i < |devices|
    ensures LastDeviceFor(accessories, devices[..i + 1], a) ==
      if Target(accessories, devices[i]) == Some(a) then Some(devices[i]) else LastDeviceFor(accessories, devices[..i], a)
  {
    assert devices[..i + 1][..i] == devices[..i];
  }

  /**
   * `a`'s location fields are those `device` gives it, or, without a device, what they were in
   * the earlier state.
   */
  twostate predicate Assigned(a: Accessory, new device: Option<FindMyDevice>)
    reads a
  {
    match device
    case None =>
      a.locations == old(a.locations) && a.lastLocation == old(a.lastLocation) &&
      a.locationTimestamp == old(a.locationTimestamp)
    case Some(d) =>
      a.locations == d.decryptedReports && a.lastLocation == LatestLocation(d) &&
      a.locationTimestamp == LatestTimestamp(d)
  }

  /** Every field of `a` other than its location fields is what it was in the earlier state. */
  twostate predicate OnlyLocationsChanged(a: Accessory)
    reads a
  {
    a.name == old(a.name) && a.icon == old(a.icon) && a.isDeployed == old(a.isDeployed) &&
    a.isActive == old(a.isActive) && a.isNearby == old(a.isNearby) &&
    a.usesDerivation == old(a.usesDerivation) && a.updateInterval == old(a.updateInterval)
  }

  /** The assignments of `updateWithDecryptedReports` for one device and its accessory. */
  method AssignLocations(accessory: Accessory, device: FindMyDevice)
    modifies accessory
    ensures Assigned(accessory, Some(device)) && OnlyLocationsChanged(accessory)
  {
    var report := LatestReport(device);
    accessory.lastLocation := if report.Some? then Some(ReportLocation(report.value)) else None;
    accessory.locationTimestamp := if report.Some? then report.value.timestamp else None;
    accessory.locations := device.decryptedReports;
  }

  /** Name order of `sort(by: { $0.name < $1.name })`. */
  predicate NameLeq(a: Accessory, b: Accessory)
    reads a, b
  {
    Strings.LessEq(a.name, b.name)
  }

  predicate SortedByName(s: seq<Accessory>)
    reads set a | a in s
  {
    forall i, j :: 0 <= i < j < |s| ==> NameLeq(s[i], s[j])
  }

  /** Inserts `x` before the first element whose name is not smaller. */
  function InsertByName(x: Accessory, s: seq<Accessory>): (r: seq<Accessory>)
    reads x, set a | a in s
    ensures multiset(r) == multiset(s) + multiset{x}
  {
    if s == [] || !Strings.Less(s[0].name, x.name) then [x] + s
    else
      assert s == [s[0]] + s[1..];
      [s[0]] + InsertByName(x, s[1..])
  }

  lemma {:induction false} InsertKeepsSorted(x: Accessory, s: seq<Accessory>)
    requires SortedByName(s)
    ensures SortedByName(InsertByName(x, s))
  {
    if s == [] {
    } else if !Strings.Less(s[0].name, x.name) {
      Strings.LessTotal(s[0].name, x.name);
      forall j | 0 <= j < |s|
        ensures NameLeq(x, s[j])
      {
        Strings.LessEqTransitive(x.name, s[0].name, s[j].name);
      }
    } else {
      var rest := InsertByName(x, s[1..]);
      InsertKeepsSorted(x, s[1..]);
      Strings.LessTotal(s[0].name, x.name);
      forall j | 0 <= j < |rest|
        ensures NameLeq(s[0], rest[j])
      {
        assert rest[j] in multiset(rest);
        if rest[j] != x {
          assert rest[j] in multiset(s[1..]);
          var i :| 0 <= i < |s[1..]| && s[1..][i] == rest[j];
          assert NameLeq(s[0], s[i + 1]);
        }
      }
    }
  }

  /** An insertion sort by name: sorted, and a permutation of its input. */
  function SortByName(s: seq<Accessory>): (r: seq<Accessory>)
    reads set a | a in s
    ensures SortedByName(r)
    ensures multiset(r) == multiset(s)
  {
    if s == [] then []
    else
      var rest := SortByName(s[1..]);
      assert multiset(s) == multiset{s[0]} + multiset(s[1..]) by {
        assert s == [s[0]] + s[1..];
      }
      assert forall a | a in rest :: a in multiset(s[1..]);
      InsertKeepsSorted(s[0], rest);
      InsertByName(s[0], rest)
  }

  /** The imported accessories whose id is not taken by an existing one, in import order. */
  function NewIds(imported: seq<Accessory>, existing: seq<Accessory>): (r: seq<Accessory>)
    ensures forall a | a in r :: a in imported && forall e | e in existing :: e.id != a.id
    ensures forall a | a in imported && (forall e | e in existing :: e.id != a.id) :: a in r
    ensures multiset(r) <= multiset(imported)
    ensures forall a | a in imported && (forall e | e in existing :: e.id != a.id) ::
      multiset(r)[a] == multiset(imported)[a]
  {
    if imported == [] then []
    else
      var rest := NewIds(imported[1..], existing);
      assert imported == [imported[0]] + imported[1..];
      assert multiset(imported) == multiset{imported[0]} + multiset(imported[1..]);
      if exists e | e in existing :: e.id == imported[0].id then rest else [imported[0]] + rest
  }

  /** Why a report download did not complete (`OpenHaystackMainView.AlertType`, the cases used here). */
  datatype Alert = ActivatePlugin | SearchPartyToken | DownloadingReportsFailed | NoReportsFound

  /** The anisette request's outcome: a failure, or account data with an optional token. */
  datatype AccountOutcome = AccountFailure | AccountData(searchPartyToken: Option<seq<byte>>)

  /** The report fetch's outcome: a failure, or the devices with their reports. */
  datatype FetchOutcome = FetchFailure | FetchSuccess(devices: seq<FindMyDevice>)

  /** `devices.compactMap({ $0.reports }).flatMap({ $0 })`. */
  function AllReports(devices: seq<FindMyDevice>): (r: seq<FindMyReport>)
    ensures r == [] <==> forall d | d in devices :: d.reports.None? || d.reports.value == []
  {
    if devices == [] then []
    else (if devices[0].reports.Some? then devices[0].reports.value else []) + AllReports(devices[1..])
  }

  predicate HasToken(account: AccountOutcome)
  {
    account.AccountData? && account.searchPartyToken.Some? && account.searchPartyToken.value != []
  }

  class AccessoryController {
    var accessories: seq<Accessory>

    constructor (accessories: seq<Accessory>)
      ensures this.accessories == accessories
    {
      this.accessories := accessories;
    }

    /**
     * `updateWithDecryptedReports`: each device's reports go to the first accessory with its id;
     * that accessory's locations become the device's decrypted reports and its last location and
     * timestamp those of the newest report. A later device for the same accessory overrides an
     * earlier one; accessories no device names are untouched.
     */
    method UpdateWithDecryptedReports(devices: seq<FindMyDevice>)
      modifies set a | a in accessories
      ensures forall a | a in accessories :: Assigned(a, LastDeviceFor(accessories, devices, a))
      ensures forall a | a in accessories :: OnlyLocationsChanged(a)
    {
      var i := 0;
      while i < |devices|
        invariant 0 <= i <= |devices|
        invariant forall a | a in accessories :: Assigned(a, LastDeviceFor(accessories, devices[..i], a))
        invariant forall a | a in accessories :: OnlyLocationsChanged(a)
      {
        forall a | a in accessories
          ensures LastDeviceFor(accessories, devices[..i + 1], a) ==
            if Target(accessories, devices[i]) == Some(a) then Some(devices[i]) else LastDeviceFor(accessories, devices[..i], a)
        {
          LastDeviceStep(accessories, devices, i, a);
        }
        UpdateWithDevice(accessories, devices[i]);
        i := i + 1;
      }
      assert devices[..|devices|] == devices;
    }

    /** One turn of the loop of `updateWithDecryptedReports`: the device's target takes its locations. */
    static method UpdateWithDevice(accessories: seq<Accessory>, device: FindMyDevice)
      modifies set a | a in accessories
      ensures forall a | a in accessories :: Assigned(a, if Target(accessories, device) == Some(a) then Some(device) else None)
      ensures forall a | a in accessories :: OnlyLocationsChanged(a)
    {
      var idx := FirstWithId(accessories, Numerals.ParseInt(device.deviceId));
      if idx < |accessories| {
        AssignLocations(accessories[idx], device);
      }
    }

    /** `delete(accessory:)`: removes the first accessory equal to `target`, if there is one. */
    method Delete(target: Accessory)
      modifies this`accessories
      ensures var k := FirstEqual(old(accessories), target);
        accessories == if k < |old(accessories)| then old(accessories[..k] + accessories[k + 1..]) else old(accessories)
    {
      var k := FirstEqual(accessories, target);
      if k < |accessories| {
        accessories := accessories[..k] + accessories[k + 1..];
      }
    }

    /** `addAccessory`: a new accessory at the end of the list, or the generation error and no change. */
    method AddAccessory(iconName: string, generatedKey: Option<seq<byte>>, keyHashValue: int)
      returns (r: Result<Accessory, KeyError>)
      modifies this`accessories
      ensures r.Err? <==> generatedKey.None?
      ensures r.Ok? ==> fresh(r.value) && accessories == old(accessories) + [r.value]
      ensures r.Ok? ==> r.value.name == DEFAULT_NAME && r.value.id == keyHashValue && !r.value.isDeployed
      ensures r.Err? ==> accessories == old(accessories)
    {
      r := Accessory.Create(DEFAULT_NAME, iconName, generatedKey, keyHashValue);
      if r.Ok? {
        accessories := accessories + [r.value];
      }
    }

    /**
     * The merge of `importAccessories`: imported accessories whose id is new are appended, and
     * the whole list is sorted by name.
     */
    method MergeImported(imported: seq<Accessory>)
      modifies this`accessories
      ensures SortedByName(accessories)
      ensures multiset(accessories) == multiset(old(accessories) + NewIds(imported, old(accessories)))
    {
      var kept := NewIds(imported, accessories);
      var updated := accessories + kept;
      accessories := SortByName(updated);
    }

    /**
     * `downloadLocationReports`: the account and fetch outcomes are parameters (they come from the
     * mail plugin and the network). Only a fetch with at least one report updates the accessories.
     */
    method DownloadLocationReports(account: AccountOutcome, fetch: FetchOutcome) returns (r: Result<(), Alert>)
      modifies set a | a in accessories
      ensures account.AccountFailure? ==> r == Err(ActivatePlugin)
      ensures account.AccountData? && !HasToken(account) ==> r == Err(SearchPartyToken)
      ensures HasToken(account) && fetch.FetchFailure? ==> r == Err(DownloadingReportsFailed)
      ensures HasToken(account) && fetch.FetchSuccess? && AllReports(fetch.devices) == [] ==> r == Err(NoReportsFound)
      ensures r.Ok? <==> HasToken(account) && fetch.FetchSuccess? && AllReports(fetch.devices) != []
      ensures r.Err? ==> forall a | a in accessories :: Assigned(a, None) && OnlyLocationsChanged(a)
      ensures r.Ok? ==> forall a | a in accessories ::
        Assigned(a, LastDeviceFor(accessories, fetch.devices, a)) && OnlyLocationsChanged(a)
    {
      if account.AccountFailure? {
        return Err(ActivatePlugin);
      }
      if !HasToken(account) {
        return Err(SearchPartyToken);
      }
      if fetch.FetchFailure? {
        return Err(DownloadingReportsFailed);
      }
      if AllReports(fetch.devices) == [] {
        return Err(NoReportsFound);
      }
      UpdateWithDecryptedReports(fetch.devices);
      r := Ok(());
    }
  }

  /** `firstIndex(of:)` under the accessory's `==`, or `|accessories|` when none is equal. */
  function FirstEqual(accessories: seq<Accessory>, target: Accessory): (k: nat)
    reads target, set a | a in accessories
    ensures k <= |accessories|
    ensures forall j :: 0 <= j < k ==> !accessories[j].Equals(target)
    ensures k < |accessories| ==> accessories[k].Equals(target)
  {
    if accessories == [] || accessories[0].Equals(target) then 0
    else 1 + FirstEqual(accessories[1..], target)
  }

  /** Deleting a present accessory removes exactly one occurrence of it and keeps the rest in order. */
  lemma DeleteRemovesOne(accessories: seq<Accessory>, k: nat)
    requires k < |accessories|
    ensures var r := accessories[..k] + accessories[k + 1..];
      |r| == |accessories| - 1 && multiset(r) + multiset{accessories[k]} == multiset(accessories)
  {
    assert accessories == accessories[..k] + [accessories[k]] + accessories[k + 1..];
  }
}
