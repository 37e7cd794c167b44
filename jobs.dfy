/**
 * The start-up of the script: resolve the default retention, compact the policy file, and
 * generate the crontab — the default job first, then one explicit job per grouping key.
 */
module Jobs {
  import opened Wrappers
  import opened Policy
  import opened Commands
  import opened Compaction
  import opened Defaults

  /** `decoded.get('.defaults', ...).get('delete', ...)`: the `delete` table of the `.defaults`
      entry, when the file has both. */
  function DefaultsSection(file: seq<ProjectRules>): (r: Option<seq<UnitValue>>)
    decreases |file|
    ensures (forall i :: 0 <= i < |file| ==> file[i].project != DefaultsKey) ==> r.None?
    ensures forall i :: 0 <= i < |file| && file[i].project == DefaultsKey &&
                        (forall h :: 0 <= h < i ==> file[h].project != DefaultsKey) ==>
                          r == DeleteRules(file[i].operations)
  {
    if file == [] then None
    else if file[0].project == DefaultsKey then DeleteRules(file[0].operations)
    else
      var r := DefaultsSection(file[1..]);
      assert forall i :: 1 <= i < |file| ==> file[1..][i - 1] == file[i];
      r
  }

  /** The units of the first `delete` section of a list of operation sections, if there is one. */
  function DeleteRules(operations: seq<OperationRules>): (r: Option<seq<UnitValue>>)
    decreases |operations|
    ensures r.Some? <==> exists j :: 0 <= j < |operations| && operations[j].operation == "delete"
    ensures r.Some? ==>
      exists j :: 0 <= j < |operations| && operations[j] == OperationRules("delete", r.value) &&
                  forall h :: 0 <= h < j ==> operations[h].operation != "delete"
  {
    if operations == [] then None
    else if operations[0].operation == "delete" then Some(operations[0].units)
    else
      var r := DeleteRules(operations[1..]);
      assert forall j :: 1 <= j < |operations| ==> operations[1..][j - 1] == operations[j];
      r
  }

  /** The diagnostic for an unknown default unit, logged before compaction starts. */
  function DefaultDiagnostics(unknownUnit: Option<string>): seq<Diagnostic> {
    if unknownUnit.Some? then [UnknownDefaultUnit(unknownUnit.value)] else []
  }

  /** `jobs` is a crontab for `table`, listing its keys in the order `keys`: the default job first,
      then exactly one explicit job per grouping key, and nothing else. */
  ghost predicate IsCrontab(jobs: seq<string>, keys: seq<Key>, defaultCommand: string, connection: string,
                      table: map<Key, seq<string>>) {
    && |jobs| == 1 + |keys|
    && |keys| == |table.Keys|
    && jobs[0] == defaultCommand
    && (forall k :: k in keys <==> k in table)
    && (forall i, j :: 0 <= i < j < |keys| ==> keys[i] != keys[j])
    && (forall i :: 0 <= i < |keys| ==> keys[i] in table && jobs[i + 1] == ExplicitCommand(connection, keys[i], table[keys[i]]))
  }

  /** Lines 89-104: the default job, then one job per key of the grouping table. */
  method BuildCrontab(connection: string, defaultCommand: string, table: map<Key, seq<string>>)
    returns (jobs: seq<string>, keys: seq<Key>)
    ensures IsCrontab(jobs, keys, defaultCommand, connection, table)
  {
    var commands;
    keys, commands := ExplicitCommands(connection, table);
    jobs := [defaultCommand] + commands;
  }

  /** Builds every crontab command for the decoded file, with the corrected default resolution.
      On success the default job keeps the default retention and excludes the reserved indices and
      every project with a recognised rule, and each other job serves one grouping key; the
      diagnostics are those of default resolution followed by those of compaction, in emission
      order. */
  method GenerateJobs(connection: string, file: seq<ProjectRules>, environmentDays: Option<int>)
    returns (r: Result<seq<string>, DefaultsError>, keys: seq<Key>, diagnostics: seq<Diagnostic>)
    ensures r.Err? <==> ResolveDefault(DefaultsSection(file), environmentDays).Err?
    ensures r.Ok? ==>
      var resolved := ResolveDefault(DefaultsSection(file), environmentDays).value;
      && IsCrontab(r.value, keys, DefaultCommand(connection, resolved.retention.unit, resolved.retention.value, Excludes(Items(file))),
                   connection, Table(Items(file)))
      && diagnostics == DefaultDiagnostics(resolved.unknownUnit) + Diagnostics(Items(file))
    ensures r.Err? ==> keys == [] && diagnostics == []
  {
    var resolution := ResolveDefault(DefaultsSection(file), environmentDays);
    if resolution.Err? {
      return Err(resolution.error), [], [];
    }
    var retention := resolution.value.retention;
    var header := DefaultHeader(connection, retention.unit, retention.value);
    var table, defaultCommand, compactDiagnostics := Compact(file, header);
    var jobs;
    jobs, keys := BuildCrontab(connection, defaultCommand, table);
    r := Ok(jobs);
    diagnostics := DefaultDiagnostics(resolution.value.unknownUnit) + compactDiagnostics;
  }

  /** A file without a `.defaults` entry yields a default job keeping the environment's days,
      or 30 days. */
  lemma NoDefaultsEntryKeepsEnvironmentDays(file: seq<ProjectRules>, environmentDays: Option<int>)
    requires forall i :: 0 <= i < |file| ==> file[i].project != DefaultsKey
    ensures ResolveDefault(DefaultsSection(file), environmentDays) ==
      Ok(ResolvedDefault(UnitValue("days", environmentDays.GetOr(30)), None))
  {
    ResolveDefaultCases(DefaultsSection(file), environmentDays);
  }
}
