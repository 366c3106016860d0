# sbatch_job_monitor in Dafny

`sbatch_job_monitor` submits one SLURM batch job with `sbatch` and babysits it
until the job writes one of two marker files, `<prefix>.success` (exit 0) or
`<prefix>.fail` (exit 2). While it waits it polls the markers every
`sleep_time` seconds. Once `crashcheck_interval` seconds have accumulated, it
asks the queue (`sjobs`) whether the job is still there:

- A healthy job ends the check.
- A job in state "E" (Eqw) is cancelled with `scancel` and, within a budget
  of `eqw_resub_limit`, resubmitted.
- A job missing from the queue with no marker is given a 120 s grace period
  and then resubmitted, without limit.

Failed queries are retried after 60 s, up to `crashcheck_attempts` per check.
Every other failure ends the process with an exception.

The model has six modules:

- `Wrappers` (`wrappers.dfy`): the `Option` and `Result` types.
- `Extraction` (`extraction.dfy`): formatted input, `istream >> std::string`
  and `istream >> unsigned`, as functions over a string and a read position.
- `Utilities` (`utilities.dfy`): `splitline`, `get_job_ids` and `get_job_id`.
  `splitline` and `get_job_ids` are loops that fill a cleared container, so
  they are methods proved against the functions `Split` and `JobIds`.
  `get_job_id` is a function.
- `Cluster` (`cluster.dfy`): everything outside the program, as a scripted
  `World` value:
  - whether each marker exists;
  - the replies of the commands run through `exec` (status and output);
  - the verdicts of `scancel`;
  - the markers the job writes while the monitor sleeps.

  Every probe, removal, command, cancel and sleep is appended to an event
  log, so orderings can be stated.
- `Monitor` (`monitor.dfy`) has two parts:
  - The behaviour of `main` as functions over a `State` value (the locals
    `job_id`, `eqw_resubs`, `seconds_elapsed_since_crashcheck`, and the
    world): `MarkerCheck`, `Cleanup`, `Submission`, `Startup` with `Launch`, `MissingJob`,
    `CrashCheckFrom` with `Inspect`, `PollStep` and `RunFor`.
  - The class `JobMonitor`, with those locals as fields. Its methods follow
    the code of `main` statement by statement: the crash check's `for` loop
    and the monitoring loop are `while` loops. Each method is proved equal to
    its function.
- `MonitorProperties` (`monitor_properties.dfy`): the properties of the
  monitor, proved over the functions and, through the methods'
  postconditions, holding for the class.

`while (true)` is modelled with fuel: `RunFor` and `JobMonitor.Run` perform
at most `fuel` passes and report `Monitoring` if no pass ended the program.

Four behaviours of the code are easy to misread; the model follows the code
literally:

- A healthy crash check does not reset the elapsed counter, so every
  following pass runs another crash check (`HealthyCheckKeepsTimer`).
- At the Eqw limit the job is cancelled and the check goes on to its next
  attempt. There is no give-up. Such iterations consume the same attempt
  budget as failed queries (`EqwLimitDrainsAttempts`).
- An `sjobs` listing with a line that does not parse is fatal at once. It is
  not retried (`ParseErrorIsFatal`). A refused `scancel` is fatal at once as
  well (`RefusedCancelIsFatal`).
- The job name is derived but never used in the `sbatch` command. Only the
  derivation's failure (an all-digit name) has an effect, an exception
  (`DeriveJobName`, `SbatchCommandIgnoresJobName`).

## Model

| member | source | states |
|---|---|---|
| Extraction.ReadWordSpec | sbatch_job_monitor/utilities.cc:74 | `>> std::string` fails iff only white space remains; otherwise it skips white space and yields the maximal run of non-space characters that follows, and the position after it |
| Extraction.ReadUnsignedSpec | sbatch_job_monitor/utilities.cc:85 | `>> unsigned` fails iff the next non-space character is not a digit or the digit run exceeds 2^32-1; otherwise it yields the value of the whole digit run and stops right after it |
| Extraction.UnsignedOfDigitWord | sbatch_job_monitor/utilities.cc:74 | when the next word is all digits, `>> unsigned` consumes exactly that word and yields its value, or fails when the value does not fit in 32 bits |
| Extraction.UnsignedOfMixedWord | sbatch_job_monitor/utilities.cc:74 | when the next word opens with digits and goes on with other characters, `>> unsigned` stops inside the word after those digits and yields their value, or fails when the value does not fit in 32 bits |
| Extraction.UnsignedOfOtherWord | sbatch_job_monitor/utilities.cc:74 | when no word is left, or the next word does not start with a digit, `>> unsigned` fails |
| Extraction.ValueOfDecimal | sbatch_job_monitor/utilities.cc:81-89 | the decimal id an `sbatch` reply carries reads back as that number: reading the digits of `Decimal(n)` gives `n` |
| Utilities.Find | sbatch_job_monitor/utilities.cc:18 | a found position is at or after the start, and `sep` occurs there |
| Utilities.FindSpec | sbatch_job_monitor/utilities.cc:18 | `find` returns the leftmost occurrence at or after the start; npos means there is no occurrence from the start on |
| Utilities.SplitLine | sbatch_job_monitor/utilities.cc:10-27 | the loop of `splitline` (cleared vector, one push per separator, the remainder last) yields exactly `Split(s, sep)` |
| Utilities.SplitFromJoin | sbatch_job_monitor/utilities.cc:16-25 | the pieces from any position on are never an empty list, and joining them with `sep` gives back the rest of the text |
| Utilities.SplitFromPieces | sbatch_job_monitor/utilities.cc:17-24 | no piece contains the separator |
| Utilities.SplitProperties | sbatch_job_monitor/utilities.cc:16-25 | `splitline` returns at least one piece, no piece contains `sep`, and joining the pieces with `sep` reconstructs `s` |
| Utilities.SplitWithoutSeparator | sbatch_job_monitor/utilities.cc:18-21 | a text without the separator is returned as a single piece |
| Utilities.ParseLine | sbatch_job_monitor/utilities.cc:73-75 | a line of white space only is refused, not skipped like the empty line; an accepted line yields a status that is one non-empty word without white space |
| Utilities.ReadFields | sbatch_job_monitor/utilities.cc:74 | once the id has been read it reaches the result unchanged, and the status is a non-empty word from the part of the line not yet read |
| Utilities.Collect | sbatch_job_monitor/utilities.cc:71-78 | a refusal names one of the lines still to be read, and that line is not empty and fails the five-field read |
| Utilities.CollectLine | sbatch_job_monitor/utilities.cc:72-77 | the same for the step that reads the next line |
| Utilities.JobIds | sbatch_job_monitor/utilities.cc:56-79 | a refused listing names one of its data lines, and that line is not empty and does not parse |
| Utilities.GetJobIds | sbatch_job_monitor/utilities.cc:56-79 | the loop of `get_job_ids` over the lines after the header returns exactly `JobIds(sjobs)`, including the error naming the first bad line |
| Utilities.FirstRejected | sbatch_job_monitor/utilities.cc:72-75 | the position of the first non-empty line that fails the five-field read; none before it is refused, and None means no line is |
| Utilities.CollectFails | sbatch_job_monitor/utilities.cc:71-75 | the listing is rejected iff some non-empty data line fails to parse, and the error names the first such line |
| Utilities.CollectKeys | sbatch_job_monitor/utilities.cc:71-78 | an accepted listing's keys are the earlier keys plus the ids of the parsed data lines, no more |
| Utilities.CollectLastWins | sbatch_job_monitor/utilities.cc:77 | each listed id maps to the health of the last line that lists it: later lines overwrite earlier ones |
| Utilities.CollectUntouched | sbatch_job_monitor/utilities.cc:71-78 | an id that no data line lists keeps its earlier value |
| Utilities.JobIdsContents | sbatch_job_monitor/utilities.cc:63-78 | on an accepted listing the key set is exactly the second-field ids of the data lines, and each value is false iff the last line for that id has status exactly "E" |
| Utilities.HeaderOnlyListing | sbatch_job_monitor/utilities.cc:63-70 | a listing without a newline, the empty text included, is all header and yields an empty map; the "inadequate line count" throw cannot happen |
| Utilities.ParseLineFewWords | sbatch_job_monitor/utilities.cc:73-75 | a line with fewer than two words is rejected |
| Utilities.ParseLineNonNumericId | sbatch_job_monitor/utilities.cc:73-75 | a line whose second word does not start with a digit is rejected |
| Utilities.ParseLineNumericId | sbatch_job_monitor/utilities.cc:73-77 | a line whose second word is all digits parses iff it has at least five words and the id fits in 32 bits; the id is that number, the status is the fifth word, and later fields are ignored |
| Utilities.ParseLineMixedId | sbatch_job_monitor/utilities.cc:73-77 | a line whose second word starts with digits and goes on with other characters: the id is the value of those leading digits, the rest of that word is read as the next field, so the line parses iff it has at least four words and the id fits in 32 bits, and the status is the fourth word |
| Utilities.FieldsAfterId | sbatch_job_monitor/utilities.cc:74 | after the id, the three word reads succeed iff three words remain, and the status is the third |
| Utilities.GetJobId | sbatch_job_monitor/utilities.cc:81-89 | `get_job_id` fails iff, after white space, there is no digit or the digit run exceeds 2^32-1; otherwise the id is the value of the whole digit run |
| Utilities.GetJobIdOfDecimal | sbatch_job_monitor/utilities.cc:81-89 | round trip: white space, the decimal id, then anything not continuing the number, reads back as that id |
| Utilities.GetJobIdRejects | sbatch_job_monitor/utilities.cc:85-87 | output that does not start with a digit after white space is rejected |
| Monitor.RFind | sbatch_job_monitor/main.cc:40 | `rfind('/')` gives the last position holding the character, or none when it does not occur |
| Monitor.BaseName | sbatch_job_monitor/main.cc:40-44 | the name is the suffix of the prefix after its last `/`, it contains no `/`, and it is the whole prefix when there is no `/` |
| Monitor.RequestedName | sbatch_job_monitor/main.cc:39-45 | the given job name, or, when none is given, the prefix's base name: a `/`-free suffix of the prefix that follows its last `/` or is the whole prefix |
| Monitor.DeriveJobName | sbatch_job_monitor/main.cc:39-48 | leading digits are stripped from the given name or the prefix's base name; the result is non-empty and starts with a non-digit; an all-digit or empty name throws, so "bash" is never chosen |
| Monitor.SbatchCommand | sbatch_job_monitor/main.cc:54-57 | the `sbatch` command line begins with "sbatch " and ends with the command script, so it is never the `sjobs` query |
| Monitor.MarkerCheck | sbatch_job_monitor/main.cc:86-93 | exit 0 iff the success marker exists; exit 2 iff only the fail marker exists; otherwise monitoring goes on; success is probed first and fail only when success is absent, and nothing but the log changes |
| Monitor.Cleanup | sbatch_job_monitor/main.cc:64-69 | afterwards neither marker exists; only the markers and the log change, and the log is extended |
| Monitor.CleanupLog | sbatch_job_monitor/main.cc:64-69 | clean-up only probes and removes, and removes a marker exactly when it existed |
| Monitor.Submission | sbatch_job_monitor/main.cc:70-75 | submission runs `sbatch` exactly once, leaves the Eqw count alone, and either continues monitoring or is fatal |
| Monitor.Startup | sbatch_job_monitor/main.cc:39-83 | an all-digit or empty job name is fatal before the world is touched; otherwise start-up is fatal or starts monitoring with the timer at zero, the Eqw count untouched and exactly one sleep (the random pause); the log only grows |
| Monitor.Launch | sbatch_job_monitor/main.cc:64-83 | after the name check: fatal, or monitoring with the timer at zero, the Eqw count untouched and exactly the one pause slept; the log only grows |
| Monitor.MissingJob | sbatch_job_monitor/main.cc:142-197 | the missing-job path always acts on the world (the log strictly grows), never touches the Eqw count, and never lowers the sleep count |
| Monitor.CrashCheckFrom | sbatch_job_monitor/main.cc:104-108 | from any attempt on, the crash check only appends to the event log and only adds sleeps |
| Monitor.Inspect | sbatch_job_monitor/main.cc:113-200 | acting on a parsed listing only appends to the event log and only adds sleeps |
| Monitor.PollStep | sbatch_job_monitor/main.cc:86-108 | every pass acts on the world (the log strictly grows); a present success marker exits 0, otherwise a present fail marker exits 2; a pass that goes on monitoring has slept |
| Monitor.RunFor | sbatch_job_monitor/main.cc:85-209 | the log only grows, and while monitoring goes on each of the `fuel` passes has slept at least once |
| Monitor.MonitorRun | sbatch_job_monitor/main.cc:28-210 | an all-digit or empty job name is fatal with the world untouched; the log only grows; still monitoring means the random pause and every pass have slept |
| Monitor.JobMonitor.constructor | sbatch_job_monitor/main.cc:49-53 | the settings are stored, and the Eqw count and the elapsed counter start at zero |
| Monitor.JobMonitor.Exists | sbatch_job_monitor/main.cc:64 | a marker probe answers whether the marker exists, and is logged |
| Monitor.JobMonitor.Remove | sbatch_job_monitor/main.cc:65 | removing a marker deletes it |
| Monitor.JobMonitor.Exec | sbatch_job_monitor/utilities.cc:32-54 | `exec` returns the scripted status and output of the next command, and the command is logged |
| Monitor.JobMonitor.KillJob | sbatch_job_monitor/utilities.cc:91-95 | `scancel <id>` is accepted or refused as scripted, and the cancel is logged |
| Monitor.JobMonitor.Sleep | sbatch_job_monitor/main.cc:94 | during a sleep the job may write markers, but none are removed |
| Monitor.JobMonitor.CheckMarkers | sbatch_job_monitor/main.cc:86-93 | the marker tests follow `MarkerCheck` |
| Monitor.JobMonitor.Submit | sbatch_job_monitor/main.cc:70-75 | the submission follows `Submission`: fatal on a non-zero status or an unreadable id; otherwise the new id is adopted and the timer restarts |
| Monitor.JobMonitor.ClearMarkers | sbatch_job_monitor/main.cc:64-69 | the marker deletion follows `Cleanup` |
| Monitor.JobMonitor.Start | sbatch_job_monitor/main.cc:39-83 | start-up follows `Startup`: name derivation, clean-up, submission, then the random pause |
| Monitor.JobMonitor.HandleMissing | sbatch_job_monitor/main.cc:145-197 | the missing-job path follows `MissingJob` |
| Monitor.JobMonitor.CrashCheck | sbatch_job_monitor/main.cc:99-207 | the retry loop, with its `break`s and final throw, follows `CrashCheckFrom` from attempt 0 |
| Monitor.JobMonitor.Poll | sbatch_job_monitor/main.cc:86-108 | one pass of the monitoring loop follows `PollStep` |
| Monitor.JobMonitor.Run | sbatch_job_monitor/main.cc:85-209 | `fuel` passes of `while (true)` follow `RunFor` |
| Monitor.MonitorJob | sbatch_job_monitor/main.cc:28-210 | `main` on a scripted world follows `MonitorRun` |
| MonitorProperties.StartupClearsMarkersFirst | sbatch_job_monitor/main.cc:64-83 | both markers are deleted, whichever exist, before `sbatch` is run; the submission is fatal iff its status is non-zero or its id is unreadable; when monitoring starts, the markers are exactly those written during the pause, the id is the one `sbatch` printed, and the timer is 0 |
| MonitorProperties.PollAccumulates | sbatch_job_monitor/main.cc:94-99 | with no marker present, a pass sleeps `sleep_time` and adds exactly that to the timer; it enters the crash check iff the timer then reaches the interval (it queries `sjobs` unless `crashcheck_attempts` is 0) |
| MonitorProperties.SuccessMarkerWins | sbatch_job_monitor/main.cc:86-92 | when the success marker exists the pass exits 0 even if the fail marker exists too, and nothing else happens |
| MonitorProperties.HealthyCheckKeepsTimer | sbatch_job_monitor/main.cc:113-116 | a healthy crash check leaves the timer at or above the interval, so the next markerless pass runs another crash check |
| MonitorProperties.NoAttemptsNoQuery | sbatch_job_monitor/main.cc:103-105 | with zero attempts the crash check throws without any query |
| MonitorProperties.QueryFailuresExhaust | sbatch_job_monitor/main.cc:104-108 | when every remaining query fails, each is followed by the back-off sleep and the check throws after exactly the remaining number of attempts |
| MonitorProperties.EqwAlwaysCancelled | sbatch_job_monitor/main.cc:117-120 | an Eqw job is cancelled right after the query, before the resubmission budget is looked at |
| MonitorProperties.EqwBelowLimitResubmits | sbatch_job_monitor/main.cc:117-140 | below the limit, an Eqw job whose cancel is accepted is resubmitted at once: the query, the cancel and `sbatch` are the only events, the Eqw count rises by one, and monitoring goes on iff `sbatch` succeeds with a readable id, which is then the tracked job with the timer reset |
| MonitorProperties.EqwAtLimitRetries | sbatch_job_monitor/main.cc:117-124 | at the limit, an Eqw job whose cancel is accepted costs one query and one cancel, and the check continues with the next attempt |
| MonitorProperties.EqwLimitDrainsAttempts | sbatch_job_monitor/main.cc:119-124 | at the Eqw limit the job is cancelled but neither resubmitted nor given up on; if it stays in Eqw, every remaining attempt costs one query and one cancel, and the check then throws |
| MonitorProperties.ParseErrorIsFatal | sbatch_job_monitor/main.cc:109-111 | an accepted `sjobs` query whose listing does not parse ends the check at once, fatally, naming the bad line; it is not retried, whatever attempts remain |
| MonitorProperties.RefusedCancelIsFatal | sbatch_job_monitor/main.cc:117-119 | a job in Eqw whose `scancel` is refused ends the process at once, right after the query and the cancel |
| MonitorProperties.MissingJobResolution | sbatch_job_monitor/main.cc:142-197 | for a job missing from the queue: exit 0 iff success is seen now or after the grace period; exit 2 iff fail is seen first; otherwise, after both looks fail, exactly a resubmission with a new id and the timer reset; the Eqw count is untouched |
| MonitorProperties.CrashCheckBookkeeping | sbatch_job_monitor/main.cc:99-207 | across a crash check the Eqw count stays within the limit and grows by at most one, only through an accepted cancel followed by `sbatch`; if monitoring goes on, the job is unchanged or was just resubmitted; every exit is 0 or 2 on the matching marker just seen |
| MonitorProperties.InspectBookkeeping | sbatch_job_monitor/main.cc:113-200 | the same bookkeeping for what one attempt does with a parsed listing |
| MonitorProperties.PollBookkeeping | sbatch_job_monitor/main.cc:86-108 | after one pass the Eqw count is within the limit; if monitoring goes on, the timer grew by `sleep_time` with the job unchanged, or the job was just resubmitted |
| MonitorProperties.RunBookkeeping | sbatch_job_monitor/main.cc:85-209 | however many passes run, the Eqw count never decreases or exceeds its limit, and every exit is 0 or 2 on the matching marker |
| MonitorProperties.MonitorRunBookkeeping | sbatch_job_monitor/main.cc:28-210 | for the whole program, every exit code is 0 or 2 on the matching marker, and the Eqw budget holds throughout |
| MonitorProperties.SbatchCommandIgnoresJobName | sbatch_job_monitor/main.cc:54-57 | the job name given on the command line does not change the submitted command |
| MonitorProperties.PassWithoutSubmission | sbatch_job_monitor/main.cc:94-116 | a pass that goes on monitoring without running `sbatch` keeps the job, keeps the Eqw count within its limit and adds exactly `sleep_time` to the timer |
| MonitorProperties.TimerResetOnlyByResubmission | sbatch_job_monitor/main.cc:96-196 | over any number of passes that keep monitoring and run no `sbatch`, the job id is unchanged and the timer is its start value plus `sleep_time` per pass, healthy crash checks included: only a resubmission resets it |
| MonitorProperties.ScriptedRepliesExist | sbatch_job_monitor/utilities.cc:63-89 | both kinds of reply exist: the bare header "JOBID" is an `sjobs` listing with no job, and "7" with a newline is an `sbatch` reply carrying an id |
| MonitorProperties.CrashPassResubmits | sbatch_job_monitor/main.cc:183-197 | when each pass's sleep already reaches the crash-check interval, at least one crash-check attempt is allowed, no marker is ever written and the replies alternate between an empty `sjobs` listing and an `sbatch` reply with an id, one pass against a job that is gone does one `sjobs` query, the grace period, one `sbatch`; the job is resubmitted with the timer reset, the Eqw count untouched, and it stays gone |
| MonitorProperties.EndlessCrashResubmission | sbatch_job_monitor/main.cc:183-197 | crash resubmissions are unbounded: when each pass's sleep already reaches the crash-check interval, at least one crash-check attempt is allowed, the replies alternate between an empty `sjobs` listing and an `sbatch` reply with an id, and the job never writes a marker, every pass queries, waits out the grace period and resubmits, for any number of passes, with no counter stopping it |

## Left out

- `exec` (popen, buffered reads, pclose), `system` in `kill_job` and the filesystem calls are not modelled as code. Their results come from the scripted `World`.
- A failing `popen` (an exception inside `exec`) is left out: every command yields a reply.
- `sleep` is a logged event during which the job may write markers. Real time, early wake-ups on signals and the scheduler's timing are not modelled.
- The 1-30 s random pause is a parameter, `jitter`. `std::random_device` is not modelled.
- Logging to `std::cout` and the clock (`std::time`, `asctime`) are left out.
- Command-line parsing (cargs.cc, a boost::program_options table) is not part of this model. The settings arrive as a `Config` value.
- The `--help` / no-argument exit with code 1 is left out, as part of command-line handling.
- The null-pointer checks of `splitline`, `get_job_ids` and `exec` are left out. Every call site passes a valid pointer.
- Utilities.SplitLine requires a non-empty separator. With an empty one the source loops forever, and every call site passes "\n".
- Extraction.ReadUnsignedSpec: a leading `+` or `-`, which `istream >> unsigned` accepts (wrapping a negative value), is not modelled. A number is a run of decimal digits that fits in 32 bits.
- The partially filled target map that `get_job_ids` leaves behind when it throws is not modelled. The exception ends `main`, so no caller sees it.
- Monitor.JobMonitor.Poll: the elapsed counter is an unbounded `nat`, not a wrapping `unsigned`. Wrap-around is not modelled.
- The "inadequate total line count" throw in `get_job_ids` and the `"bash"` job-name fallback have no branch in the model. Neither can be reached: `HeaderOnlyListing` with `SplitProperties`, and `DeriveJobName`, show why.
- Monitor.JobMonitor.Run: `while (true)` runs for at most `fuel` passes. A run that never ends is described by its finite prefixes.
