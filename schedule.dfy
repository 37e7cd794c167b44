/**
 * The daily schedule: which hour and minute the jobs run at, how long to sleep before the next
 * run, and one batch run of every job.
 */
module Schedule {
  import opened Wrappers

  const MicrosPerSecond: int := 1_000_000
  const SecondsPerDay: int := 86400
  const MicrosPerDay: int := 86_400_000_000

  // ----- Run hour and minute -----

  /** `x = config.get(...)`, then the environment if x is falsy, then 0 if still falsy. A configured
      number is falsy when it is 0; an environment variable is a string, so any set value counts. */
  function RunField(configured: Option<int>, environment: Option<int>): (r: int)
    ensures configured.Some? && configured.value != 0 ==> r == configured.value
    ensures (configured.None? || configured.value == 0) && environment.Some? ==> r == environment.value
    ensures (configured.None? || configured.value == 0) && environment.None? ==> r == 0
  {
    if configured.Some? && configured.value != 0 then configured.value
    else if environment.Some? then environment.value
    else 0
  }

  /** A configured hour or minute of 0 counts as not configured: midnight (or minute 0) set in the
      file gives way to the environment variable whenever that is set. */
  lemma ConfiguredZeroIsUnset(environment: Option<int>)
    ensures RunField(Some(0), environment) == RunField(None, environment)
    ensures environment.Some? ==> RunField(Some(0), environment) == environment.value
  {
  }

  // ----- The delay before the next run -----

  datatype ScheduleError =
    | HourOutOfRange(hour: int)     // `datetime.replace(hour=...)` raises ValueError
    | MinuteOutOfRange(minute: int) // `datetime.replace(minute=...)` raises ValueError

  /** The `.seconds` attribute of a timedelta of the given length: whole seconds, rounded down,
      modulo one day (the whole days are in `.days`). */
  function TimedeltaSeconds(micros: int): (s: int)
    ensures 0 <= s < SecondsPerDay
  {
    (micros / MicrosPerSecond) % SecondsPerDay
  }

  /** Today's hour:minute:00.000, in microseconds after midnight. */
  function RunInstant(hour: int, minute: int): int {
    (hour * 3600 + minute * 60) * MicrosPerSecond
  }

  /** One pass of the scheduling loop at `now` microseconds after local midnight: the number of
      seconds to sleep before the next run at hour:minute. */
  function NextRunDelay(now: int, hour: int, minute: int): Result<int, ScheduleError>
    requires 0 <= now < MicrosPerDay
  {
    if !(0 <= hour < 24) then Err(HourOutOfRange(hour))
    else if !(0 <= minute < 60) then Err(MinuteOutOfRange(minute))
    else
      var lastRun := RunInstant(hour, minute);
      var offset := if now > lastRun then SecondsPerDay else 0;
      Ok(TimedeltaSeconds(lastRun + offset * MicrosPerSecond - now))
  }

  /** The instant the loop sleeps towards: today's run time if it has not passed, else tomorrow's. */
  function NextRun(now: int, hour: int, minute: int): int {
    var lastRun := RunInstant(hour, minute);
    if now > lastRun then lastRun + MicrosPerDay else lastRun
  }

  lemma RunInstantWithinDay(hour: int, minute: int)
    requires 0 <= hour < 24 && 0 <= minute < 60
    ensures 0 <= RunInstant(hour, minute) < MicrosPerDay
    ensures RunInstant(hour, minute) % MicrosPerSecond == 0
  {
    assert 0 <= hour * 3600 + minute * 60 < SecondsPerDay;
  }

  /** The `.seconds` of a span shorter than a day is the span in whole seconds, rounded down. */
  lemma TimedeltaSecondsOfShortSpan(micros: int)
    requires 0 <= micros < MicrosPerDay
    ensures TimedeltaSeconds(micros) == micros / MicrosPerSecond
  {
    assert micros / MicrosPerSecond < SecondsPerDay;
  }

  /** The delay fails only for an hour outside 0..23 or a minute outside 0..59. For a valid time it
      is between 0 and 86399 seconds and is the time until the next run, rounded down to whole
      seconds: until today's run if `now` has not passed it (0 exactly at the run instant), else
      until the same time tomorrow. */
  lemma NextRunDelayCases(now: int, hour: int, minute: int)
    requires 0 <= now < MicrosPerDay
    ensures NextRunDelay(now, hour, minute).Err? <==> !(0 <= hour < 24 && 0 <= minute < 60)
    ensures 0 <= hour < 24 && 0 <= minute < 60 ==>
      var d := NextRunDelay(now, hour, minute).value;
      var lastRun := RunInstant(hour, minute);
      && 0 <= d <= SecondsPerDay - 1
      && d == (NextRun(now, hour, minute) - now) / MicrosPerSecond
      && (now <= lastRun ==> d == (lastRun - now) / MicrosPerSecond)
      && (now > lastRun ==> d == (lastRun + MicrosPerDay - now) / MicrosPerSecond)
      && (now == lastRun ==> d == 0)
  {
    if 0 <= hour < 24 && 0 <= minute < 60 {
      RunInstantWithinDay(hour, minute);
      var lastRun := RunInstant(hour, minute);
      if now > lastRun {
        assert lastRun + SecondsPerDay * MicrosPerSecond - now == lastRun + MicrosPerDay - now;
        TimedeltaSecondsOfShortSpan(lastRun + MicrosPerDay - now);
      } else {
        assert lastRun + 0 * MicrosPerSecond - now == lastRun - now;
        TimedeltaSecondsOfShortSpan(lastRun - now);
      }
    }
  }

  /** Sleeping the computed delay ends within the last second before the next run, never after it:
      the fraction of a second is dropped. */
  lemma WakeWithinSecondBeforeRun(now: int, hour: int, minute: int)
    requires 0 <= now < MicrosPerDay && 0 <= hour < 24 && 0 <= minute < 60
    ensures var wake := now + NextRunDelay(now, hour, minute).value * MicrosPerSecond;
      NextRun(now, hour, minute) - MicrosPerSecond < wake <= NextRun(now, hour, minute)
  {
    NextRunDelayCases(now, hour, minute);
    var span := NextRun(now, hour, minute) - now;
    assert span >= 0;
    var d := span / MicrosPerSecond;
    assert d * MicrosPerSecond <= span < d * MicrosPerSecond + MicrosPerSecond;
  }

  /** Because the wake-up can fall short of the run instant, a batch that finishes before that
      instant is reached sees a delay of 0 and the jobs run a second time. */
  lemma ShortBatchRunsAgain(now: int, hour: int, minute: int, batch: int)
    requires 0 <= now < MicrosPerDay && 0 <= hour < 24 && 0 <= minute < 60
    requires now <= RunInstant(hour, minute)
    requires 0 <= batch
    requires now + NextRunDelay(now, hour, minute).value * MicrosPerSecond + batch <= RunInstant(hour, minute)
    ensures NextRunDelay(now + NextRunDelay(now, hour, minute).value * MicrosPerSecond + batch, hour, minute) == Ok(0)
  {
    WakeWithinSecondBeforeRun(now, hour, minute);
    var later := now + NextRunDelay(now, hour, minute).value * MicrosPerSecond + batch;
    RunInstantWithinDay(hour, minute);
    NextRunDelayCases(later, hour, minute);
  }

  /** An example of the above: 0.5 s before a 03:00 run the delay is 0, and after a 0.2 s batch it is 0 again. */
  lemma ShortBatchExample()
    ensures NextRunDelay(3 * 3600 * MicrosPerSecond - 500_000, 3, 0) == Ok(0)
    ensures NextRunDelay(3 * 3600 * MicrosPerSecond - 300_000, 3, 0) == Ok(0)
  {
    NextRunDelayCases(3 * 3600 * MicrosPerSecond - 500_000, 3, 0);
    NextRunDelayCases(3 * 3600 * MicrosPerSecond - 300_000, 3, 0);
  }

  /** The delay rounded up to whole seconds instead of down, so that the sleep never ends before
      the run instant. */
  function NextRunDelayRoundedUp(now: int, hour: int, minute: int): Result<int, ScheduleError>
    requires 0 <= now < MicrosPerDay
  {
    if !(0 <= hour < 24) then Err(HourOutOfRange(hour))
    else if !(0 <= minute < 60) then Err(MinuteOutOfRange(minute))
    else Ok((NextRun(now, hour, minute) - now + MicrosPerSecond - 1) / MicrosPerSecond)
  }

  /** Sleeping the rounded-up delay ends at the next run instant or within the second after it,
      and the delay is at most one day. */
  lemma RoundedUpWakeAtOrAfterRun(now: int, hour: int, minute: int)
    requires 0 <= now < MicrosPerDay && 0 <= hour < 24 && 0 <= minute < 60
    ensures var d := NextRunDelayRoundedUp(now, hour, minute).value;
      && 0 <= d <= SecondsPerDay
      && NextRun(now, hour, minute) <= now + d * MicrosPerSecond < NextRun(now, hour, minute) + MicrosPerSecond
  {
    RunInstantWithinDay(hour, minute);
    var span := NextRun(now, hour, minute) - now;
    assert 0 <= span <= MicrosPerDay;
    var d := (span + MicrosPerSecond - 1) / MicrosPerSecond;
    assert d * MicrosPerSecond <= span + MicrosPerSecond - 1 < d * MicrosPerSecond + MicrosPerSecond;
  }

  /** With the rounded-up delay, a batch run at today's run instant is not repeated: once it has
      taken any time at all, the next run is the same time tomorrow. */
  lemma RoundedUpBatchRunsOnce(now: int, hour: int, minute: int, batch: int)
    requires 0 <= now < MicrosPerDay && 0 <= hour < 24 && 0 <= minute < 60
    requires now <= RunInstant(hour, minute)
    requires 0 < batch
    requires now + NextRunDelayRoundedUp(now, hour, minute).value * MicrosPerSecond + batch < MicrosPerDay
    ensures var later := now + NextRunDelayRoundedUp(now, hour, minute).value * MicrosPerSecond + batch;
      NextRun(later, hour, minute) == RunInstant(hour, minute) + MicrosPerDay
  {
    RoundedUpWakeAtOrAfterRun(now, hour, minute);
  }

  // ----- One batch run -----

  /** What `job.run()` did: returned its output (possibly empty), or raised. */
  datatype Outcome = Printed(output: string) | Raised

  datatype LogEntry =
    | RunningJobs(count: nat)
    | RunningJob(job: string)
    | JobOutput(output: string)
    | JobSucceeded(job: string)
    | RunFinished

  /** The number of jobs that return before the first one raises. */
  function CompletedRuns(outcomes: seq<Outcome>): (n: nat)
    ensures n <= |outcomes|
    ensures forall i :: 0 <= i < n ==> outcomes[i].Printed?
    ensures n < |outcomes| ==> outcomes[n].Raised?
  {
    if outcomes == [] || outcomes[0].Raised? then 0 else 1 + CompletedRuns(outcomes[1..])
  }

  /** The log lines of one job that returned: non-empty output is logged, else success. */
  function JobLog(job: string, output: string): seq<LogEntry> {
    [RunningJob(job)] + (if output != "" then [JobOutput(output)] else [JobSucceeded(job)])
  }

  /** The log lines of jobs that all returned. */
  function JobsLog(jobs: seq<string>, outcomes: seq<Outcome>): seq<LogEntry>
    requires |jobs| == |outcomes| && forall i :: 0 <= i < |outcomes| ==> outcomes[i].Printed?
    decreases |jobs|
  {
    if jobs == [] then []
    else JobsLog(jobs[..|jobs| - 1], outcomes[..|jobs| - 1]) + JobLog(jobs[|jobs| - 1], outcomes[|jobs| - 1].output)
  }

  /** Runs every job in order; the i-th run has outcome `outcomes[i]`. A job whose run raises ends
      the batch (nothing catches the exception), so `completed` is false and no finish is logged. */
  method RunAllJobs(jobs: seq<string>, outcomes: seq<Outcome>) returns (log: seq<LogEntry>, completed: bool)
    requires |outcomes| == |jobs|
    ensures completed <==> forall i :: 0 <= i < |outcomes| ==> outcomes[i].Printed?
    ensures var n := CompletedRuns(outcomes);
      log == [RunningJobs(|jobs|)] + JobsLog(jobs[..n], outcomes[..n])
             + (if n == |jobs| then [RunFinished] else [RunningJob(jobs[n])])
  {
    log := [RunningJobs(|jobs|)];
    var i := 0;
    while i < |jobs|
      invariant 0 <= i <= CompletedRuns(outcomes)
      invariant log == [RunningJobs(|jobs|)] + JobsLog(jobs[..i], outcomes[..i])
    {
      log := log + [RunningJob(jobs[i])];
      if outcomes[i].Raised? {
        completed := false;
        return;
      }
      var output := outcomes[i].output;
      if output != "" {
        log := log + [JobOutput(output)];
      } else {
        log := log + [JobSucceeded(jobs[i])];
      }
      assert jobs[..i + 1][..i] == jobs[..i] && outcomes[..i + 1][..i] == outcomes[..i];
      i := i + 1;
    }
    log := log + [RunFinished];
    completed := true;
  }

  /** Every job before the first one that raises is run and its outcome logged: a job that
      prints error output does not stop the batch. */
  lemma {:induction false} JobsLogHasEveryJob(jobs: seq<string>, outcomes: seq<Outcome>, i: int)
    requires |jobs| == |outcomes| && forall k :: 0 <= k < |outcomes| ==> outcomes[k].Printed?
    requires 0 <= i < |jobs|
    ensures RunningJob(jobs[i]) in JobsLog(jobs, outcomes)
    ensures outcomes[i].output != "" ==> JobOutput(outcomes[i].output) in JobsLog(jobs, outcomes)
    ensures outcomes[i].output == "" ==> JobSucceeded(jobs[i]) in JobsLog(jobs, outcomes)
    decreases |jobs|
  {
    var n := |jobs| - 1;
    if i < n {
      JobsLogHasEveryJob(jobs[..n], outcomes[..n], i);
    }
  }

  /** Every job that returned contributes exactly two log lines: its start and its output or success. */
  lemma {:induction false} JobsLogLength(jobs: seq<string>, outcomes: seq<Outcome>)
    requires |jobs| == |outcomes| && forall k :: 0 <= k < |outcomes| ==> outcomes[k].Printed?
    ensures |JobsLog(jobs, outcomes)| == 2 * |jobs|
    decreases |jobs|
  {
    if jobs != [] {
      JobsLogLength(jobs[..|jobs| - 1], outcomes[..|jobs| - 1]);
    }
  }
}
