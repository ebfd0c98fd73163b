/**
 * The nRF deployment sheet (`HaystackApp/Views/NRFInstallSheet.swift`): the day-count field keeps
 * only numeric characters, the Deploy button turns the day count into a key-update interval, and
 * the flashing outcome updates the accessory and the sheet's alert state.
 */
module NrfInstallSheet {
  import opened Common
  import Strings
  import Numerals
  import AccessoryModel

  /**
   * A class of characters usable as `Character.isNumber`. The Unicode table behind it is not
   * written out: any class counts that takes in the ASCII digits, and it may take in other
   * numerals (superscripts, fractions, other scripts' digits) as Swift's does.
   */
  predicate IncludesDigits(isNumber: char -> bool)
  {
    forall c :: Numerals.IsDigit(c) ==> isNumber(c)
  }

  /** The text field's model: a value that only ever holds numeric characters. */
  class NumbersOnly {
    var value: string
    const isNumber: char -> bool

    ghost predicate Valid()
      reads this
    {
      forall i :: 0 <= i < |value| ==> isNumber(value[i])
    }

    constructor (isNumber: char -> bool)
      requires IncludesDigits(isNumber)
      ensures Valid() && value == "1" && this.isNumber == isNumber
    {
      this.isNumber := isNumber;
      value := "1";
      assert Numerals.IsDigit('1');
    }

    /** Assignment to `value`: its observer keeps only the numeric characters. */
    method SetValue(newValue: string)
      modifies this
      ensures Valid()
      ensures value == Strings.Filter(newValue, isNumber)
    {
      value := newValue;
      var filtered := Strings.Filter(value, isNumber);
      if value != filtered {
        value := filtered;
      }
    }
  }

  /** Filtering keeps numeric text as it is, so assigning the field's own value changes nothing. */
  lemma FilterIdempotent(s: string, isNumber: char -> bool)
    ensures Strings.Filter(Strings.Filter(s, isNumber), isNumber) == Strings.Filter(s, isNumber)
    ensures (forall i :: 0 <= i < |s| ==> isNumber(s[i])) ==> Strings.Filter(s, isNumber) == s
  {
    Strings.FilterIdentity(Strings.Filter(s, isNumber), isNumber);
    if forall i :: 0 <= i < |s| ==> isNumber(s[i]) {
      Strings.FilterIdentity(s, isNumber);
    }
  }

  /** Text typed as ASCII digits survives the field whatever else the numeric class takes in. */
  lemma DigitsKept(s: string, isNumber: char -> bool)
    requires IncludesDigits(isNumber) && Numerals.AllDigits(s)
    ensures Strings.Filter(s, isNumber) == s
  {
    Strings.FilterIdentity(s, isNumber);
  }

  /**
   * A non-ASCII numeral the field keeps makes `Int(_:)` fail, so the day count falls back to 1:
   * "1²2" stays in the field and deploys with a one-day interval, not twelve.
   */
  lemma NonAsciiNumeralFallsBack(isNumber: char -> bool)
    requires IncludesDigits(isNumber) && isNumber('²')
    ensures Strings.Filter("1²2", isNumber) == "1²2"
    ensures DaysInt("1²2") == 1 && DaysInt("12") == 12
  {
    Strings.FilterIdentity("1²2", isNumber);
    assert !Numerals.IsDigit("1²2"[1]);
    assert Numerals.DigitsValue("12") == 12 by {
      assert "12"[..1] == "1";
    }
  }

  /** The day count: the field parsed as an integer, 1 when that fails, and at least 1. */
  function DaysInt(value: string): (d: int)
    ensures d >= 1
    ensures Numerals.ParseInt(value).None? ==> d == 1
    ensures Numerals.ParseInt(value).Some? ==> d == if Numerals.ParseInt(value).value < 1 then 1 else Numerals.ParseInt(value).value
  {
    var daysInt := match Numerals.ParseInt(value) case Some(n) => n case None => 1;
    if daysInt < 1 then 1 else daysInt
  }

  /**
   * The key-update interval in minutes: whole days only, as hours and minutes are fixed at 0, so
   * the button's `updateInterval > 0` guard holds whenever the product fits in `Int`; a day count
   * above `Int.max / 1440` traps in the multiplication.
   */
  function UpdateIntervalMinutes(value: string): (m: int)
    requires Numerals.IsInt64(DaysInt(value) * 1440)
    ensures m >= 1440 && m % 1440 == 0
  {
    DaysInt(value) * 24 * 60 + 0 * 60 + 0
  }

  datatype AlertType = DeployedSuccessfully | NrfDeployFailed | DeployFailed

  /**
   * What happened to the flashing script, which runs outside the app: it could not be started
   * (`flashToNRF` threw), it succeeded, or it failed with a log that could (`Some`) or could not
   * (`None`) be read back.
   */
  datatype FlashOutcome = Thrown | Succeeded | Failed(log: Option<string>)

  const LOG_READ_ERROR: string := "Error while trying to read log file."

  class NRFInstallSheet {
    var accessory: Option<AccessoryModel.Accessory>
    var alertType: Option<AlertType>
    var scriptOutput: Option<string>
    var isFlashing: bool
    /** Whether the sheet is still shown. */
    var isPresented: bool
    const days: NumbersOnly

    constructor (accessory: Option<AccessoryModel.Accessory>, days: NumbersOnly)
      ensures this.accessory == accessory && this.days == days
      ensures alertType.None? && scriptOutput.None? && !isFlashing && isPresented
    {
      this.accessory := accessory;
      this.days := days;
      alertType := None;
      scriptOutput := None;
      isFlashing := false;
      isPresented := true;
    }

    /**
     * The Deploy button: with an accessory bound, the interval in minutes is computed from the
     * day count and the accessory is deployed. The interval in minutes must not overflow `Int`,
     * and neither may the interval in seconds when the flashing succeeds.
     */
    method Deploy(outcome: FlashOutcome)
      requires accessory.Some? ==> Numerals.IsInt64(DaysInt(days.value) * 1440)
      requires accessory.Some? && outcome.Succeeded? ==> Numerals.IsInt64(DaysInt(days.value) * 1440 * 60)
      modifies this, if accessory.Some? then {accessory.value} else {}
      ensures old(accessory).None? ==> unchanged(this)
      ensures old(accessory).Some? ==>
        accessory.None? && Deployed(old(accessory).value, UpdateIntervalMinutes(old(days.value)), outcome)
    {
      if accessory.Some? {
        var a := accessory.value;
        var daysInt := match Numerals.ParseInt(days.value) case Some(n) => n case None => 1;
        if daysInt < 1 {
          daysInt := 1;
        }
        var hoursInt := 0;
        var minutesInt := 0;
        var updateInterval := daysInt * 24 * 60 + hoursInt * 60 + minutesInt;
        assert updateInterval == UpdateIntervalMinutes(days.value);
        if updateInterval > 0 {
          DeployAccessoryToNRFDevice(a, updateInterval, outcome);
        }
      }
    }

    /** The state `deployAccessoryToNRFDevice` leaves behind, apart from the accessory binding. */
    twostate predicate Deployed(a: AccessoryModel.Accessory, updateInterval: int, outcome: FlashOutcome)
      reads this, a
    {
      !isFlashing && !isPresented &&
      match outcome
      case Thrown =>
        alertType == Some(DeployFailed) && scriptOutput == old(scriptOutput) && unchanged(a)
      case Succeeded =>
        alertType == Some(DeployedSuccessfully) && scriptOutput == old(scriptOutput) &&
        a.isDeployed && a.usesDerivation && a.updateInterval == updateInterval * 60 &&
        a.isActive == (old(a.isDeployed) && old(a.isActive)) &&
        a.name == old(a.name) && a.icon == old(a.icon) && a.isNearby == old(a.isNearby) &&
        a.locations == old(a.locations) && a.lastLocation == old(a.lastLocation) &&
        a.locationTimestamp == old(a.locationTimestamp)
      case Failed(log) =>
        alertType == Some(NrfDeployFailed) && unchanged(a) &&
        scriptOutput == Some(if log.Some? then log.value else LOG_READ_ERROR)
    }

    /**
     * `deployAccessoryToNRFDevice`: the flashing outcome, reported synchronously, decides the alert
     * and, on success only, marks the accessory deployed with key derivation at `updateInterval`
     * minutes (stored in seconds); whatever happens, the sheet closes and lets go of the accessory.
     */
    method DeployAccessoryToNRFDevice(a: AccessoryModel.Accessory, updateInterval: int, outcome: FlashOutcome)
      requires outcome.Succeeded? ==> Numerals.IsInt64(updateInterval * 60)
      modifies this, a
      ensures accessory.None? && Deployed(a, updateInterval, outcome)
    {
      isFlashing := true;
      match outcome {
        case Thrown =>
          isPresented := false;
          alertType := Some(DeployFailed);
          isFlashing := false;
        case Succeeded =>
          isPresented := false;
          isFlashing := false;
          alertType := Some(DeployedSuccessfully);
          a.SetIsDeployed(true);
          a.usesDerivation := true;
          a.updateInterval := updateInterval * 60;
        case Failed(log) =>
          isPresented := false;
          isFlashing := false;
          alertType := Some(NrfDeployFailed);
          scriptOutput := Some(if log.Some? then log.value else LOG_READ_ERROR);
      }
      accessory := None;
    }
  }
}
