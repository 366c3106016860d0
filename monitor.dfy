/**
  The job monitor of `main`: derive the job name, delete stale markers, submit the
  job with `sbatch`, then poll the markers forever, running a crash check against
  `sjobs` whenever the elapsed time reaches the crash-check interval. A job in
  state "E" (Eqw) is killed and, within a budget, resubmitted; a job missing from
  the queue without a marker is, after a grace period, resubmitted without limit.

  The behaviour is first given as functions over a `State` value (the functions
  MarkerCheck ... RunFor); the class `JobMonitor` carries the same counters as
  fields and its methods, written like `main`, are proved to follow those functions.
*/
module Monitor {
  import opened Wrappers
  import opened Extraction
  import opened Utilities
  import opened Cluster

  /** The command-line settings `main` reads. */
  datatype Config = Config(
    outputPrefix: string,
    jobName: string,
    resources: string,
    queue: string,
    commandScript: string,
    sleepTime: uint32,
    crashcheckInterval: uint32,
    crashcheckAttempts: uint32,
    eqwResubLimit: uint32)

  /** The exceptions that escape `main` (each ends the process abnormally). */
  datatype Error =
    | BadJobName(name: string)              // std::out_of_range from substr(npos)
    | SubmitFailed(command: string)         // "unable to execute/relaunch sbatch command"
    | BadJobId(output: string)              // get_job_id: "cannot parse job id"
    | BadListing(error: ListingError)       // get_job_ids: "cannot parse sjobs line"
    | CancelFailed(jobId: uint32)           // kill_job: "kill command failed"
    | CrashcheckExhausted                   // "failed sjobs attempts exceeded acceptable threshold"

  /** `return code`, an escaping exception, or still inside the monitoring loop. */
  datatype Outcome = Exit(code: int) | Fatal(error: Error) | Monitoring

  /** The locals of `main` that change while monitoring, and the world. */
  datatype State = State(jobId: uint32, eqwResubs: uint32, elapsed: nat, world: World)

  datatype Step = Step(outcome: Outcome, state: State)

  const SjobsCommand: string := "sjobs"
  const QueryBackoff: nat := 60
  const DesyncGrace: nat := 120

  /**
    The `sbatch` command line: output and error files named after the prefix, the
    queue, the resources, then the script; the job name takes no part in it.
  */
  function SbatchCommand(cfg: Config): (r: string)
    ensures |r| > 7 && r[..7] == "sbatch " && r != SjobsCommand
    ensures |cfg.commandScript| <= |r| && r[|r| - |cfg.commandScript|..] == cfg.commandScript
  {
    "sbatch --output " + cfg.outputPrefix + ".output -error " + cfg.outputPrefix +
    ".error --partition " + cfg.queue + " " + cfg.resources + " --no-requeue " +
    cfg.commandScript
  }

  // ---------------------------------------------------------------------------
  // Job name

  /** `s.rfind(c)`. */
  function RFind(s: string, c: char): (r: Option<nat>)
    ensures r.Some? ==> r.value < |s| && s[r.value] == c && forall k | r.value < k < |s| :: s[k] != c
    ensures r.None? ==> forall k | 0 <= k < |s| :: s[k] != c
    decreases |s|
  {
    if s == [] then None
    else if s[|s| - 1] == c then Some(|s| - 1)
    else RFind(s[..|s| - 1], c)
  }

  /** The last `/`-separated segment of the output prefix. */
  function BaseName(prefix: string): (b: string)
    ensures |b| <= |prefix| && b == prefix[|prefix| - |b|..]
    ensures forall k | 0 <= k < |b| :: b[k] != '/'
    ensures |b| < |prefix| ==> prefix[|prefix| - |b| - 1] == '/'
  {
    match RFind(prefix, '/')
    case None => prefix
    case Some(i) => prefix[i + 1..]
  }

  /** The name before digit stripping: the one given, or the prefix's base name. */
  function RequestedName(cfg: Config): (r: string)
    ensures cfg.jobName != "" ==> r == cfg.jobName
    ensures cfg.jobName == "" ==>
              var prefix := cfg.outputPrefix;
              |r| <= |prefix| && r == prefix[|prefix| - |r|..] && (forall k | 0 <= k < |r| :: r[k] != '/') &&
              (|r| < |prefix| ==> prefix[|prefix| - |r| - 1] == '/')
  {
    if cfg.jobName == "" then BaseName(cfg.outputPrefix) else cfg.jobName
  }

  /**
    `job_name.substr(job_name.find_first_not_of("0123456789"))`: leading digits are
    stripped from the requested name; a name made only of digits (the empty name
    included) makes `substr(npos)` throw, so the later `"bash"` fallback never applies.
  */
  function DeriveJobName(cfg: Config): (r: Result<string, Error>)
    ensures r.Failure? <==> AllDigits(RequestedName(cfg))
    ensures r.Failure? ==> r.error == BadJobName(RequestedName(cfg))
    ensures r.Success? ==>
              var name := RequestedName(cfg);
              0 < |r.value| <= |name| && !IsDigit(r.value[0]) &&
              name == name[..|name| - |r.value|] + r.value && AllDigits(name[..|name| - |r.value|])
  {
    var name := RequestedName(cfg);
    var k := DigitsEnd(name, 0);
    if k == |name| then Failure(BadJobName(name)) else Success(name[k..])
  }

  // ---------------------------------------------------------------------------
  // The monitor as functions of its state

  /** The success marker is looked at first: exit 0; then the fail marker: exit 2. */
  function MarkerCheck(st: State): (r: Step)
    ensures r.outcome == Exit(0) <==> st.world.success
    ensures r.outcome == Exit(2) <==> !st.world.success && st.world.fail
    ensures r.outcome == Monitoring <==> !st.world.success && !st.world.fail
    ensures r.state == st.(world := r.state.world)
    ensures r.state.world == st.world.(log := r.state.world.log)
    ensures r.state.world.log ==
              st.world.log + if st.world.success then [Probed(SuccessMarker, true)]
                             else [Probed(SuccessMarker, false), Probed(FailMarker, st.world.fail)]
  {
    var w1 := st.world.Probe(SuccessMarker);
    if st.world.success then Step(Exit(0), st.(world := w1))
    else
      var w2 := w1.Probe(FailMarker);
      if w1.fail then Step(Exit(2), st.(world := w2))
      else Step(Monitoring, st.(world := w2))
  }

  /** Before the first submission, whichever markers exist are removed; CleanupLog lists what it does. */
  function Cleanup(w: World): (r: World)
    ensures !r.success && !r.fail
    ensures r == w.(success := false, fail := false, log := r.log)
    ensures |w.log| < |r.log| && r.log[..|w.log|] == w.log
  {
    var w1 := w.Probe(SuccessMarker);
    var w2 := if w1.success then w1.Remove(SuccessMarker) else w1;
    var w3 := w2.Probe(FailMarker);
    if w3.fail then w3.Remove(FailMarker) else w3
  }

  /** Cleanup only probes and removes, and removes a marker exactly when it exists. */
  lemma CleanupLog(w: World)
    ensures var added := Cleanup(w).log[|w.log|..];
            (forall e | e in added :: e.Probed? || e.Removed?) &&
            (Removed(SuccessMarker) in added <==> w.success) &&
            (Removed(FailMarker) in added <==> w.fail)
  {
    var added := [Probed(SuccessMarker, w.success)] + (if w.success then [Removed(SuccessMarker)] else []) +
                 [Probed(FailMarker, w.fail)] + (if w.fail then [Removed(FailMarker)] else []);
    assert Cleanup(w).log[|w.log|..] == added;
  }

  /**
    Run `sbatch`; a non-zero status or output without a leading id is fatal,
    otherwise the new id is adopted and the elapsed time restarts from zero.
  */
  function Submission(cfg: Config, st: State): (r: Step)
    ensures r.state.world == st.world.Run(SbatchCommand(cfg)) && r.state.eqwResubs == st.eqwResubs
    ensures r.outcome.Monitoring? || r.outcome.Fatal?
  {
    var command := SbatchCommand(cfg);
    var reply := st.world.NextReply();
    var st1 := st.(world := st.world.Run(command));
    if reply.status != 0 then Step(Fatal(SubmitFailed(command)), st1)
    else match GetJobId(reply.output)
      case None => Step(Fatal(BadJobId(reply.output)), st1)
      case Some(id) => Step(Monitoring, st1.(jobId := id, elapsed := 0))
  }

  /**
    Everything `main` does before its monitoring loop; `jitter` is the random 1-30 s pause.
    A bad job name throws before anything is touched; start-up never exits with a code.
  */
  function Startup(cfg: Config, st: State, jitter: nat): (r: Step)
    ensures DeriveJobName(cfg).Failure? ==> r == Step(Fatal(DeriveJobName(cfg).error), st)
    ensures r.outcome.Monitoring? || r.outcome.Fatal?
    ensures r.outcome.Monitoring? ==>
              r.state.elapsed == 0 && r.state.eqwResubs == st.eqwResubs && r.state.world.sleeps == st.world.sleeps + 1
    ensures st.world.log <= r.state.world.log
  {
    match DeriveJobName(cfg)
    case Failure(e) => Step(Fatal(e), st)
    case Success(_) => Launch(cfg, st, jitter)
  }

  /** Marker clean-up, the first submission and the random pause. */
  function Launch(cfg: Config, st: State, jitter: nat): (r: Step)
    ensures r.outcome.Monitoring? || r.outcome.Fatal?
    ensures r.outcome.Monitoring? ==>
              r.state.elapsed == 0 && r.state.eqwResubs == st.eqwResubs && r.state.world.sleeps == st.world.sleeps + 1
    ensures st.world.log <= r.state.world.log
  {
    var s := Submission(cfg, st.(world := Cleanup(st.world)));
    if s.outcome.Monitoring? then Step(Monitoring, s.state.(world := s.state.world.Sleep(jitter)))
    else s
  }

  /**
    The job is absent from the queue: look at the markers at once, then again after
    the grace period; only if both looks find nothing is the job resubmitted.
  */
  function MissingJob(cfg: Config, st: State): (r: Step)
    ensures st.world.log < r.state.world.log && st.world.sleeps <= r.state.world.sleeps
    ensures r.state.eqwResubs == st.eqwResubs
  {
    var c1 := MarkerCheck(st);
    if !c1.outcome.Monitoring? then c1
    else
      var c2 := MarkerCheck(c1.state.(world := c1.state.world.Sleep(DesyncGrace)));
      if !c2.outcome.Monitoring? then c2
      else Submission(cfg, c2.state)
  }

  /** The crash check's `for` loop from retry count `n` on: one `sjobs` query per attempt. */
  function CrashCheckFrom(cfg: Config, st: State, n: nat): (r: Step)
    ensures st.world.log <= r.state.world.log && st.world.sleeps <= r.state.world.sleeps
    decreases cfg.crashcheckAttempts - n, 1
  {
    if n >= cfg.crashcheckAttempts then Step(Fatal(CrashcheckExhausted), st)
    else
      var reply := st.world.NextReply();
      var st1 := st.(world := st.world.Run(SjobsCommand));
      if reply.status != 0 then
        CrashCheckFrom(cfg, st1.(world := st1.world.Sleep(QueryBackoff)), n + 1)
      else match JobIds(reply.output)
        case Failure(e) => Step(Fatal(BadListing(e)), st1)
        case Success(ids) => Inspect(cfg, st1, ids, n)
  }

  /**
    What attempt `n` does with a parsed listing: a healthy job ends the check; a job
    in Eqw is cancelled, then resubmitted while the budget lasts, and otherwise the
    loop goes on to the next attempt; a missing job is handled by MissingJob.
  */
  function Inspect(cfg: Config, st: State, ids: map<uint32, bool>, n: nat): (r: Step)
    requires n < cfg.crashcheckAttempts
    ensures st.world.log <= r.state.world.log && st.world.sleeps <= r.state.world.sleeps
    decreases cfg.crashcheckAttempts - n, 0
  {
    if st.jobId in ids && ids[st.jobId] then Step(Monitoring, st)
    else if st.jobId in ids then
      var accepted := st.world.NextCancel();
      var st2 := st.(world := st.world.Cancel(st.jobId));
      if !accepted then Step(Fatal(CancelFailed(st.jobId)), st2)
      else if st.eqwResubs >= cfg.eqwResubLimit then CrashCheckFrom(cfg, st2, n + 1)
      else Submission(cfg, st2.(eqwResubs := st.eqwResubs + 1))
    else MissingJob(cfg, st)
  }

  /**
    One pass of `while (true)`: it always acts on the world; a marker present at
    its start decides the exit code, and a pass that goes on has slept.
  */
  function PollStep(cfg: Config, st: State): (r: Step)
    ensures st.world.log < r.state.world.log
    ensures st.world.success ==> r.outcome == Exit(0)
    ensures !st.world.success && st.world.fail ==> r.outcome == Exit(2)
    ensures r.outcome.Monitoring? ==> st.world.sleeps < r.state.world.sleeps
  {
    var c := MarkerCheck(st);
    if !c.outcome.Monitoring? then c
    else
      var slept := c.state.(world := c.state.world.Sleep(cfg.sleepTime),
                            elapsed := c.state.elapsed + cfg.sleepTime);
      if slept.elapsed >= cfg.crashcheckInterval then CrashCheckFrom(cfg, slept, 0)
      else Step(Monitoring, slept)
  }

  /** At most `fuel` passes of the monitoring loop; while it goes on, each pass has slept. */
  function RunFor(cfg: Config, st: State, fuel: nat): (r: Step)
    ensures st.world.log <= r.state.world.log
    ensures r.outcome.Monitoring? ==> st.world.sleeps + fuel <= r.state.world.sleeps
    decreases fuel
  {
    if fuel == 0 then Step(Monitoring, st)
    else
      var r := PollStep(cfg, st);
      if r.outcome.Monitoring? then RunFor(cfg, r.state, fuel - 1) else r
  }

  /** The first pass of the loop, then the passes that remain. */
  lemma RunForPass(cfg: Config, st: State, fuel: nat)
    requires fuel > 0
    ensures RunFor(cfg, st, fuel) ==
              var p := PollStep(cfg, st); if p.outcome.Monitoring? then RunFor(cfg, p.state, fuel - 1) else p
  {
  }

  /**
    `main` from its first statement, with the loop cut off after `fuel` passes: a bad
    job name leaves the world untouched; still monitoring means the random pause and
    `fuel` passes have each slept.
  */
  function MonitorRun(cfg: Config, w: World, jitter: nat, fuel: nat): (r: Step)
    ensures w.log <= r.state.world.log
    ensures DeriveJobName(cfg).Failure? ==> r.outcome == Fatal(DeriveJobName(cfg).error) && r.state.world == w
    ensures r.outcome.Monitoring? ==> w.sleeps + 1 + fuel <= r.state.world.sleeps
  {
    var s := Startup(cfg, State(0, 0, 0, w), jitter);
    if s.outcome.Monitoring? then RunFor(cfg, s.state, fuel) else s
  }

  // ---------------------------------------------------------------------------
  // The monitor as `main` runs it

  class JobMonitor {
    const cfg: Config
    var jobId: uint32
    var eqwResubs: uint32
    var elapsed: nat
    var world: World

    function Snapshot(): State
      reads this
    {
      State(jobId, eqwResubs, elapsed, world)
    }

    constructor (cfg: Config, world: World)
      ensures this.cfg == cfg && Snapshot() == State(0, 0, 0, world)
    {
      this.cfg := cfg;
      jobId, eqwResubs, elapsed := 0, 0, 0;
      this.world := world;
    }

    method Exists(m: Marker) returns (present: bool)
      modifies this`world
      ensures present == old(world).Present(m) && world == old(world).Probe(m)
    {
      present := world.Present(m);
      world := world.Probe(m);
    }

    method Remove(m: Marker)
      modifies this`world
      ensures world == old(world).Remove(m)
    {
      world := world.Remove(m);
    }

    method Exec(command: string) returns (reply: Reply)
      modifies this`world
      ensures reply == old(world).NextReply() && world == old(world).Run(command)
    {
      reply := world.NextReply();
      world := world.Run(command);
    }

    method KillJob(id: uint32) returns (accepted: bool)
      modifies this`world
      ensures accepted == old(world).NextCancel() && world == old(world).Cancel(id)
    {
      accepted := world.NextCancel();
      world := world.Cancel(id);
    }

    method Sleep(seconds: nat)
      modifies this`world
      ensures world == old(world).Sleep(seconds)
    {
      world := world.Sleep(seconds);
    }

    method CheckMarkers() returns (outcome: Outcome)
      modifies this`world
      ensures Step(outcome, Snapshot()) == MarkerCheck(old(Snapshot()))
    {
      var present := Exists(SuccessMarker);
      if present {
        return Exit(0);
      }
      present := Exists(FailMarker);
      if present {
        return Exit(2);
      }
      return Monitoring;
    }

    method Submit() returns (outcome: Outcome)
      modifies this
      ensures Step(outcome, Snapshot()) == Submission(cfg, old(Snapshot()))
    {
      var command := SbatchCommand(cfg);
      var reply := Exec(command);
      if reply.status != 0 {
        return Fatal(SubmitFailed(command));
      }
      var id := GetJobId(reply.output);
      if id.None? {
        return Fatal(BadJobId(reply.output));
      }
      jobId, elapsed := id.value, 0;
      return Monitoring;
    }

    /** Delete whichever markers exist, the success marker first. */
    method ClearMarkers()
      modifies this`world
      ensures world == Cleanup(old(world))
    {
      var present := Exists(SuccessMarker);
      if present {
        Remove(SuccessMarker);
      }
      present := Exists(FailMarker);
      if present {
        Remove(FailMarker);
      }
    }

    method Start(jitter: nat) returns (outcome: Outcome)
      requires 1 <= jitter <= 30
      modifies this
      ensures Step(outcome, Snapshot()) == Startup(cfg, old(Snapshot()), jitter)
    {
      var name := DeriveJobName(cfg);
      if name.Failure? {
        return Fatal(name.error);
      }
      ClearMarkers();
      outcome := Submit();
      if outcome.Monitoring? {
        Sleep(jitter);
      }
    }

    method HandleMissing() returns (outcome: Outcome)
      modifies this
      ensures Step(outcome, Snapshot()) == MissingJob(cfg, old(Snapshot()))
    {
      outcome := CheckMarkers();
      if !outcome.Monitoring? {
        return;
      }
      Sleep(DesyncGrace);
      outcome := CheckMarkers();
      if !outcome.Monitoring? {
        return;
      }
      outcome := Submit();
    }

    method CrashCheck() returns (outcome: Outcome)
      modifies this
      ensures Step(outcome, Snapshot()) == CrashCheckFrom(cfg, old(Snapshot()), 0)
    {
      var retries: nat := 0;
      outcome := Monitoring;
      while retries < cfg.crashcheckAttempts
        invariant retries <= cfg.crashcheckAttempts
        invariant CrashCheckFrom(cfg, Snapshot(), retries) == CrashCheckFrom(cfg, old(Snapshot()), 0)
        decreases cfg.crashcheckAttempts - retries
      {
        var reply := Exec(SjobsCommand);
        if reply.status != 0 {
          Sleep(QueryBackoff);
        } else {
          var ids := GetJobIds(reply.output);
          if ids.Failure? {
            return Fatal(BadListing(ids.error));
          }
          if jobId in ids.value && ids.value[jobId] {
            break;
          } else if jobId in ids.value {
            var accepted := KillJob(jobId);
            if !accepted {
              return Fatal(CancelFailed(jobId));
            }
            if eqwResubs < cfg.eqwResubLimit {
              eqwResubs := eqwResubs + 1;
              outcome := Submit();
              if !outcome.Monitoring? {
                return;
              }
              break;
            }
          } else {
            outcome := HandleMissing();
            if !outcome.Monitoring? {
              return;
            }
            break;
          }
        }
        retries := retries + 1;
      }
      if retries >= cfg.crashcheckAttempts {
        outcome := Fatal(CrashcheckExhausted);
      }
    }

    method Poll() returns (outcome: Outcome)
      modifies this
      ensures Step(outcome, Snapshot()) == PollStep(cfg, old(Snapshot()))
    {
      outcome := CheckMarkers();
      if !outcome.Monitoring? {
        return;
      }
      Sleep(cfg.sleepTime);
      elapsed := elapsed + cfg.sleepTime;
      if elapsed >= cfg.crashcheckInterval {
        outcome := CrashCheck();
      }
    }

    method Run(fuel: nat) returns (outcome: Outcome)
      modifies this
      ensures Step(outcome, Snapshot()) == RunFor(cfg, old(Snapshot()), fuel)
    {
      var passes: nat := 0;
      outcome := Monitoring;
      while passes < fuel
        invariant passes <= fuel && outcome == Monitoring
        invariant RunFor(cfg, Snapshot(), fuel - passes) == RunFor(cfg, old(Snapshot()), fuel)
        decreases fuel - passes
      {
        ghost var before := Snapshot();
        outcome := Poll();
        RunForPass(cfg, before, fuel - passes);
        if !outcome.Monitoring? {
          return;
        }
        passes := passes + 1;
      }
    }
  }

  /** `main` driven by a scripted world: start-up, then at most `fuel` loop passes. */
  method MonitorJob(cfg: Config, world: World, jitter: nat, fuel: nat) returns (outcome: Outcome, last: World)
    requires 1 <= jitter <= 30
    ensures Step(outcome, MonitorRun(cfg, world, jitter, fuel).state) == MonitorRun(cfg, world, jitter, fuel)
    ensures last == MonitorRun(cfg, world, jitter, fuel).state.world
  {
    var monitor := new JobMonitor(cfg, world);
    outcome := monitor.Start(jitter);
    if outcome.Monitoring? {
      outcome := monitor.Run(fuel);
    }
    last := monitor.world;
  }
}
