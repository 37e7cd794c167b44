# Curator cron runner, modelled in Dafny

`curator/run_cron.py` is the entry point of a container that prunes Elasticsearch indices on a
daily schedule. It reads a YAML retention policy of the form
`project: {operation: {unit: value}}` and turns it into crontab commands for the Curator
cleanup tool:

- every rule under `delete` in days, weeks or months is grouped with the other rules of the same
  (operation, unit, value) key, with weeks rewritten as seven times as many days;
- every grouping key gets one explicit job with a `--prefix <project>.` clause per project;
- one default job deletes everything older than the default retention. It spares the reserved
  `.searchguard*`, `.kibana*` and `.apiman_*` indices and excludes each project that has a
  recognised rule;
- skipped rules and sections are reported;
- the script runs all jobs once, then sleeps until the configured hour and minute each day and
  runs them again.

The model is split into these modules:

- `Text` covers ASCII lower-casing, `str()` of an integer with its read-back, and substring
  containment.
- `Policy` holds the decoded file as values. It specifies compaction as left folds over the
  sequence of items the loop visits: the grouping table, the excludes and the diagnostics.
  Lemmas about those folds say what compaction means for the file as a whole.
- `Compaction` is the three nested loops of the script as imperative methods. Each is proved equal
  to the folds.
- `Commands` assembles the command strings. The per-key command is built by a loop, and a loop
  over the table builds one command per key.
- `Defaults` resolves the default retention, both as written and corrected; see "## Findings".
- `Schedule` covers the run hour and minute fallback, the delay before the next run, and one
  batch run of all jobs.
- `Jobs` puts it together: default resolution, compaction and the crontab.

Inputs from the environment are parameters:

- the connection arguments are one opaque string;
- `CURATOR_DEFAULT_DAYS` is an `Option<int>`;
- `CURATOR_RUN_HOUR` and `CURATOR_RUN_MINUTE` are `Option<int>`. `None` means the variable is
  unset or empty; any non-empty value is truthy in Python, `"0"` included;
- the current time is microseconds since local midnight;
- the outcome of each job's run is given per job.

## Model

| member | source | states |
|---|---|---|
| Text.Lower | curator/run_cron.py:76 | `unit.lower()`: the result has the input's length, and each character is the lower-case form of the input's character at the same position |
| Text.IntToStringRoundTrip | curator/run_cron.py:98 | `str(value)` in a command loses nothing: parsing the decimal text back gives the same integer, negative values included |
| Policy.NormalUnitOfAllowedUnit | curator/run_cron.py:55-60 | for an allowed unit, weeks become days with seven times the value, days and months are kept as given, and the result is never in weeks |
| Policy.NormalKeyOfAllowedUnit | curator/run_cron.py:76-80 | a recognised rule is recorded under (operation, days, 7·value) when in weeks, else under its own unit and value; the key is never in weeks |
| Policy.TableIsGrouping | curator/run_cron.py:80 | the `setdefault(...).append` table has exactly one key per distinct normalised key of a recorded rule, and each list is, in visiting order, the projects of the recorded rules with that key (checked against an independent definition) |
| Policy.TableListsNonEmpty | curator/run_cron.py:80 | no explicit job has an empty project list |
| Policy.ProjectsUnderMembership | curator/run_cron.py:80 | a project is listed under key k exactly when one of its recorded rules normalises to k |
| Policy.ExcludesAreRecordedProjects | curator/run_cron.py:73-74 | the default job's excludes are exactly the projects with a recorded rule, one clause per recorded rule, so a project is repeated once per rule |
| Policy.EachItemExcludedOrDiagnosed | curator/run_cron.py:68-87 | every rule or section the loop looks at yields exactly one of an exclude or a diagnostic |
| Policy.DiagnosticsOfItem | curator/run_cron.py:81-87 | every diagnostic of every visited rule or section is emitted |
| Policy.UnitItemsMembership | curator/run_cron.py:70-71 | the inner loop visits exactly the unit/value pairs of the section, as rules of that project and operation |
| Policy.OperationItemsMembership | curator/run_cron.py:68-70 | a visited rule lies under an allowed section of the project; a visited bad section is a disallowed operation of the project |
| Policy.ItemsMembership | curator/run_cron.py:65-70 | everything visited comes from the file: rules from projects other than `.defaults` under `delete`, bad sections from disallowed operations |
| Policy.ConfiguredRuleIsItem | curator/run_cron.py:65-71 | every rule of a project other than `.defaults` under an allowed operation is visited |
| Policy.BadSectionIsItem | curator/run_cron.py:68-69 | every disallowed operation section of such a project is visited |
| Policy.ItemsOfConcat | curator/run_cron.py:65 | the items of concatenated files are the concatenated items |
| Policy.DefaultsEntryIgnored | curator/run_cron.py:66-67 | a `.defaults` entry contributes nothing to compaction, wherever it sits and whatever it holds |
| Policy.RecognisedRuleRecorded | curator/run_cron.py:73-80 | a rule in days, weeks or months under `delete` lists its project under the normalised key (weeks as days ×7) and excludes it from the default job |
| Policy.SameKeySameEntry | curator/run_cron.py:80 | two rules with the same normalised key share one table entry (e.g. 2 weeks and 14 days) |
| Policy.TableEntryHasRule | curator/run_cron.py:69-80 | conversely, each table entry has a `delete` key in days or months, and each listed project has a recognised rule with that key |
| Policy.ExcludedIffRecognisedRule | curator/run_cron.py:69-74 | a project is excluded from the default job if and only if it has a rule under `delete` in a recognised unit |
| Policy.SkippedUnitDiagnosed | curator/run_cron.py:81-85 | an unknown unit is skipped with the 'hours' diagnostic if it is 'hours' in any letter case, else with the unknown-unit diagnostic |
| Policy.UnsupportedOperationDiagnosed | curator/run_cron.py:86-87 | an operation other than `delete` is skipped as a whole with one diagnostic |
| Policy.WorkedExample | curator/run_cron.py:65-87 | with `.defaults`, logs: 2 weeks and audit: 5 hours, the table is {(delete, days, 14): [logs]}, only logs is excluded, and 'hours' is reported once |
| Compaction.Compact | curator/run_cron.py:65-87 | the loop's table, default command and diagnostics are the folds over the visited items, so every property above holds of its result |
| Compaction.CompactOperations | curator/run_cron.py:68-69 | the middle loop extends the accumulated state by the items of one project's sections, reporting disallowed operations |
| Compaction.CompactUnits | curator/run_cron.py:70-85 | the inner loop extends the accumulated state by one rule per unit/value pair, with the source's three branches |
| Commands.DefaultCommandExcludes | curator/run_cron.py:62-63 | the default command contains its retention clause, the three reserved excludes, and an `--exclude p.*` clause for every excluded project |
| Commands.ExplicitCommandPrefixes | curator/run_cron.py:97-101 | an explicit command contains its key's retention clause and a `--prefix p.` clause for every listed project |
| Commands.DefaultCommandStep | curator/run_cron.py:74 | appending one exclude per recorded item keeps the default command equal to the header plus the excludes so far |
| Commands.AssembleCommand | curator/run_cron.py:97-101 | the string-building loop yields the explicit command of the key and its projects |
| Commands.ExplicitCommands | curator/run_cron.py:93-104 | one command per key of the table, every key exactly once, each command that key's explicit command |
| Defaults.Lookup | curator/run_cron.py:54 | `section[unit]` succeeds exactly when the section has that unit, and returns the value of the first pair with that unit |
| Defaults.ResolveDefaultCases | curator/run_cron.py:46-60 | without `.defaults.delete`, the default is the environment's days or 30 days. Weeks become days ×7 and days and months are kept. An unknown first unit is reported and replaced by days, with the value of the table's first `days` pair, or the environment's days or 30 when there is none. Only an empty table fails, and the result is never in weeks |
| Defaults.ResolveDefaultExtendsAsWritten | curator/run_cron.py:49-60 | wherever the script as written succeeds, the corrected resolution gives the same result |
| Defaults.AsWrittenUnknownDefaultUnitFails | curator/run_cron.py:50-54 | as written, an unknown first unit with no `days` entry fails on the lookup; the corrected resolution uses the environment's days |
| Defaults.AsWrittenHoursDefaultFails | curator/run_cron.py:50-54 | the concrete input `{hours: 5}` shows that failure |
| Schedule.RunField | curator/run_cron.py:120-133 | a configured non-zero value wins; otherwise a set environment value; otherwise 0 |
| Schedule.ConfiguredZeroIsUnset | curator/run_cron.py:120-123 | a configured 0 is falsy and gives way to the environment variable |
| Schedule.TimedeltaSeconds | curator/run_cron.py:142 | `.seconds` of a timedelta lies in 0..86399 |
| Schedule.NextRunDelayCases | curator/run_cron.py:136-142 | fails only for an hour outside 0..23 or a minute outside 0..59. Otherwise the delay lies in 0..86399 and is the whole seconds until today's run if it has not passed, else until tomorrow's. It is 0 at the run instant |
| Schedule.WakeWithinSecondBeforeRun | curator/run_cron.py:142-145 | sleeping the delay ends within the last second before the next run, never after it |
| Schedule.ShortBatchRunsAgain | curator/run_cron.py:139-146 | a batch that ends before the run instant after an early wake sees a delay of 0, so the jobs run again the same minute |
| Schedule.ShortBatchExample | curator/run_cron.py:139-146 | concretely: 0.5 s before a 03:00 run the delay is 0, and after a 0.2 s batch it is 0 again |
| Schedule.RoundedUpWakeAtOrAfterRun | curator/run_cron.py:142-145 | with the delay rounded up, the sleep ends at the next run instant or within the second after it, and lasts at most one day |
| Schedule.RoundedUpBatchRunsOnce | curator/run_cron.py:139-146 | with the delay rounded up, a batch that takes any time at all is followed by a wait for the same time tomorrow |
| Schedule.CompletedRuns | curator/run_cron.py:108-110 | the number of jobs that return before the first one raises |
| Schedule.RunAllJobs | curator/run_cron.py:106-115 | logs the job count, then each job in order with its output or success; a job that raises ends the batch without the finish line, and only a full run reports completion |
| Schedule.JobsLogHasEveryJob | curator/run_cron.py:108-114 | every job before the first one that raises is run, and its output or its success is logged |
| Schedule.JobsLogLength | curator/run_cron.py:109-114 | each job that returns logs exactly two lines |
| Jobs.DefaultsSection | curator/run_cron.py:49 | with no `.defaults` entry there is no table; otherwise the result is that of `DeleteRules` on the first `.defaults` entry |
| Jobs.DeleteRules | curator/run_cron.py:49 | a `delete` section is found exactly when one exists, and the result is the units of the first one; `None` is the fallback to the environment's days |
| Jobs.BuildCrontab | curator/run_cron.py:89-104 | the crontab is the default job followed by exactly one explicit job per grouping key |
| Jobs.GenerateJobs | curator/run_cron.py:46-104 | fails only when default resolution fails. Otherwise the default job has the resolved retention and the excludes of compaction, the other jobs are the crontab of the compaction table, and the diagnostics are those of the default followed by those of compaction. It uses the corrected default resolution (see "## Findings") |
| Jobs.NoDefaultsEntryKeepsEnvironmentDays | curator/run_cron.py:46-49 | a file without `.defaults` gets the environment's days, or 30 days, as its default retention |

## Left out

- Reading the YAML file (`CURATOR_CONF_LOCATION`) is out of scope. The model starts from the decoded
  mapping: a sequence of project entries in iteration order, each holding its operation sections
  and their unit/value pairs. Non-mapping values and non-integer strings, where `int()` raises,
  are not modelled. Values are integers.
- The nested `curator_settings` dictionary (operation → unit → value → projects) is flattened
  to a map keyed by (operation, unit, value). Its projects are identical. The explicit jobs are
  produced in an unspecified key order instead of Python's dictionary order.
- `.defaults` keys other than the `delete` table are not modelled: `timezone`, `runhour` and
  `runminute` are not in the decoded-file model. The run hour and minute reach
  `Schedule.RunField` as separate parameters.
- Text.Lower: lower-cases ASCII letters only, not all of Unicode.
- The timezone lookup with `pytz` and its exit on an unknown zone are left out. The current local
  time is a parameter.
- The environment variables of the connection string are left out. It is an opaque parameter.
- The `CronTab` library is left out: a job is its command string. The comments and `every().day()`
  do not change what runs.
- Executing the commands is left out: what `job.run()` returns or raises is a parameter.
- The endless `while True` loop and `time.sleep` are left out. One pass of the loop is
  `Schedule.NextRunDelay`.
- Logging levels and handler setup are left out; log lines and diagnostics are values.
- Schedule.RunField: a string `runhour` in the YAML (e.g. `"3"`) is not modelled. A configured
  value is an integer, falsy only when 0.
- Schedule.RunAllJobs: nothing in the script catches an exception from `job.run()`. A raising job
  therefore ends the batch, and the exception escapes; the finish line at
  curator/run_cron.py:115 is then never logged.
- Jobs.GenerateJobs: uses the corrected default resolution, so for a `.defaults.delete` table
  whose first unit is unknown and that has no `days` pair (e.g. `{hours: 5}`) it returns the
  environment's days or 30 days, where the script raises KeyError at curator/run_cron.py:54.
  The script's behaviour is kept in `Defaults.ResolveDefaultAsWritten`.
- Defaults.ResolveDefaultAsWritten: the IndexError of an empty `.defaults.delete` table is modelled
  as an error value. `keys()[0]` is the first pair of the table.

## Findings

| source | as written | input that shows it | evidently intended | confidence | as-written member | corrected member |
|---|---|---|---|---|---|---|
| curator/run_cron.py:50-54 | an unknown default unit is reported as "using days", then `days` is looked up in the same table | `.defaults: {delete: {hours: 5}}` fails with a KeyError on `days` | fall back to days with the environment's or built-in 30 days | medium, not executed | Defaults.AsWrittenHoursDefaultFails | Defaults.ResolveDefaultCases |
| curator/run_cron.py:142-146 | `.seconds` rounds the delay down, so the sleep can end up to a second before the run instant; a batch that finishes within that second computes a delay of 0 and runs every job again | a run at 03:00 computed at 02:59:59.5 gives delay 0, and after a 0.2 s batch the delay is 0 again | sleep until the run instant (round up), so the jobs run once a day | medium, not executed | Schedule.ShortBatchExample | Schedule.RoundedUpBatchRunsOnce |
