/**
 * The default job's retention: read from `.defaults.delete`, or from the fallback table
 * `{days: CURATOR_DEFAULT_DAYS or 30}`; an unknown unit falls back to days, and weeks are
 * rewritten as days.
 */
module Defaults {
  import opened Wrappers
  import opened Policy

  /** Days kept by the default job when neither the file nor the environment says otherwise. */
  const BuiltInDefaultDays: int := 30

  datatype DefaultsError =
    | EmptyDeleteSection         // `keys()[0]` of an empty table raises IndexError
    | MissingUnit(unit: string)  // `section[unit]` raises KeyError

  /** The resolved retention, and the unknown unit that was reported, if any. */
  datatype ResolvedDefault = ResolvedDefault(retention: UnitValue, unknownUnit: Option<string>)

  /** `int(os.getenv('CURATOR_DEFAULT_DAYS', 30))` */
  function EnvironmentDays(environmentDays: Option<int>): int {
    environmentDays.GetOr(BuiltInDefaultDays)
  }

  /** The table the script reads the default from: `.defaults.delete` if present, else `{days: ...}`. */
  function DeleteSection(configured: Option<seq<UnitValue>>, environmentDays: Option<int>): seq<UnitValue> {
    configured.GetOr([UnitValue("days", EnvironmentDays(environmentDays))])
  }

  /** `section[unit]`: the value of the first pair with that unit. */
  function Lookup(section: seq<UnitValue>, unit: string): (r: Option<int>)
    decreases |section|
    ensures r.Some? <==> exists i :: 0 <= i < |section| && section[i].unit == unit
    ensures r.Some? ==>
      exists i :: 0 <= i < |section| && section[i] == UnitValue(unit, r.value) &&
                  forall h :: 0 <= h < i ==> section[h].unit != unit
  {
    if section == [] then None
    else if section[0].unit == unit then Some(section[0].value)
    else Lookup(section[1..], unit)
  }

  /** The section has a pair with that unit. */
  predicate HasUnit(section: seq<UnitValue>, unit: string) {
    exists i :: 0 <= i < |section| && section[i].unit == unit
  }

  /** The first pair of the section with that unit holds `value`. */
  ghost predicate FirstOfUnit(section: seq<UnitValue>, unit: string, value: int) {
    exists i :: 0 <= i < |section| && section[i] == UnitValue(unit, value) &&
                forall h :: 0 <= h < i ==> section[h].unit != unit
  }

  /** The default retention exactly as the script computes it: the first unit of the table, or
      'days' (with a diagnostic) when that unit is not allowed, looked up again in the same table,
      then weeks rewritten as days. */
  function ResolveDefaultAsWritten(configured: Option<seq<UnitValue>>, environmentDays: Option<int>)
    : Result<ResolvedDefault, DefaultsError>
  {
    var section := DeleteSection(configured, environmentDays);
    if section == [] then Err(EmptyDeleteSection)
    else
      var first := section[0].unit;
      var unit := if AllowedUnit(first) then first else "days";
      var reported := if AllowedUnit(first) then None else Some(first);
      match Lookup(section, unit)
      case None => Err(MissingUnit(unit))
      case Some(value) => Ok(ResolvedDefault(NormalUnit(unit, value), reported))
  }

  /** The default retention as the diagnostic "using days" promises: as written, except that an
      unknown unit with no 'days' entry beside it keeps the environment's (or built-in) days
      instead of failing. */
  function ResolveDefault(configured: Option<seq<UnitValue>>, environmentDays: Option<int>)
    : Result<ResolvedDefault, DefaultsError>
  {
    var section := DeleteSection(configured, environmentDays);
    if section == [] then Err(EmptyDeleteSection)
    else
      var first := section[0].unit;
      var unit := if AllowedUnit(first) then first else "days";
      var reported := if AllowedUnit(first) then None else Some(first);
      var value := Lookup(section, unit).GetOr(EnvironmentDays(environmentDays));
      Ok(ResolvedDefault(NormalUnit(unit, value), reported))
  }

  /** What the default job keeps: with no `.defaults.delete`, the environment's days or 30 days;
      a first unit in weeks becomes seven times as many days; days and months are kept as given;
      an unknown unit is reported and replaced by days, keeping the value of the table's first
      'days' pair, or the environment's (or built-in) days when it has none. Only an empty table
      fails, and the result is never in weeks. */
  lemma ResolveDefaultCases(configured: Option<seq<UnitValue>>, environmentDays: Option<int>)
    ensures var r := ResolveDefault(configured, environmentDays);
      && (r.Err? <==> configured == Some([]))
      && (configured.None? ==>
            r == Ok(ResolvedDefault(UnitValue("days", environmentDays.GetOr(30)), None)))
      && (configured.Some? && configured.value != [] ==>
            var first := configured.value[0];
            && (first.unit == "weeks" ==> r.value.retention == UnitValue("days", 7 * first.value))
            && (first.unit == "days" || first.unit == "months" ==> r.value.retention == first)
            && (AllowedUnit(first.unit) ==> r.value.unknownUnit == None)
            && (!AllowedUnit(first.unit) ==> r.value.unknownUnit == Some(first.unit) && r.value.retention.unit == "days")
            && (!AllowedUnit(first.unit) && HasUnit(configured.value, "days") ==>
                  FirstOfUnit(configured.value, "days", r.value.retention.value))
            && (!AllowedUnit(first.unit) && !HasUnit(configured.value, "days") ==>
                  r.value.retention.value == environmentDays.GetOr(30)))
      && (r.Ok? ==> r.value.retention.unit == "days" || r.value.retention.unit == "months")
  {
    var section := DeleteSection(configured, environmentDays);
    if section != [] {
      var first := section[0].unit;
      var unit := if AllowedUnit(first) then first else "days";
      NormalUnitOfAllowedUnit(unit, Lookup(section, unit).GetOr(EnvironmentDays(environmentDays)));
      if configured.None? {
        assert section == [UnitValue("days", EnvironmentDays(environmentDays))];
      }
    }
  }

  /** Wherever the script as written succeeds, the corrected resolution gives the same answer. */
  lemma ResolveDefaultExtendsAsWritten(configured: Option<seq<UnitValue>>, environmentDays: Option<int>)
    requires ResolveDefaultAsWritten(configured, environmentDays).Ok?
    ensures ResolveDefault(configured, environmentDays) == ResolveDefaultAsWritten(configured, environmentDays)
  {
  }

  /** As written, a first unit that is not allowed, with no 'days' entry in the same table, is
      reported as "using days" and then fails on the lookup of 'days'; e.g. `{hours: 5}`. */
  lemma AsWrittenUnknownDefaultUnitFails(configured: seq<UnitValue>, environmentDays: Option<int>)
    requires configured != [] && !AllowedUnit(configured[0].unit)
    requires forall i :: 0 <= i < |configured| ==> configured[i].unit != "days"
    ensures ResolveDefaultAsWritten(Some(configured), environmentDays) == Err(MissingUnit("days"))
    ensures ResolveDefault(Some(configured), environmentDays) ==
      Ok(ResolvedDefault(UnitValue("days", environmentDays.GetOr(30)), Some(configured[0].unit)))
  {
    NormalUnitOfAllowedUnit("days", environmentDays.GetOr(30));
  }

  /** The concrete case: `.defaults: {delete: {hours: 5}}`. */
  lemma AsWrittenHoursDefaultFails()
    ensures ResolveDefaultAsWritten(Some([UnitValue("hours", 5)]), None) == Err(MissingUnit("days"))
    ensures ResolveDefault(Some([UnitValue("hours", 5)]), None) ==
      Ok(ResolvedDefault(UnitValue("days", 30), Some("hours")))
  {
    AsWrittenUnknownDefaultUnitFails([UnitValue("hours", 5)], None);
  }
}
