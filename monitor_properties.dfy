/**
  What the monitor guarantees, stated over the functions of module Monitor (and so,
  through the methods' postconditions, over `JobMonitor` and `MonitorJob`).
*/
module MonitorProperties {
  import opened Wrappers
  import opened Extraction
  import opened Utilities
  import opened Cluster
  import opened Monitor

  function LastEvent(w: World): Option<Event> {
    if w.log == [] then None else Some(w.log[|w.log| - 1])
  }

  /** An exit code is 0 or 2, and was decided by seeing the matching marker just now. */
  predicate ExitWitnessed(r: Step) {
    r.outcome.Exit? ==>
      (r.outcome.code == 0 && LastEvent(r.state.world) == Some(Probed(SuccessMarker, true))) ||
      (r.outcome.code == 2 && LastEvent(r.state.world) == Some(Probed(FailMarker, true)))
  }

  /** The job was just resubmitted: the last event is `sbatch`, whose id is now tracked, and the timer restarted. */
  predicate Resubmitted(cfg: Config, s: State) {
    match LastEvent(s.world)
    case None => false
    case Some(e) =>
      e.Ran? && e.command == SbatchCommand(cfg) && GetJobId(e.reply.output) == Some(s.jobId) && s.elapsed == 0
  }

  /** The job, the timer and the Eqw count are as they were. */
  predicate SameJob(s: State, t: State) {
    t.jobId == s.jobId && t.elapsed == s.elapsed && t.eqwResubs == s.eqwResubs
  }

  // ---------------------------------------------------------------------------
  // Start-up

  /**
    Whichever markers exist are deleted, and only then is `sbatch` run; once
    monitoring starts, the markers are exactly what the job wrote during the
    random pause, the id is the one `sbatch` printed and the timer is zero.
  */
  lemma StartupClearsMarkersFirst(cfg: Config, st: State, jitter: nat)
    requires DeriveJobName(cfg).Success?
    ensures var r := Startup(cfg, st, jitter);
            var c := Cleanup(st.world);
            var reply := st.world.NextReply();
            |c.log| < |r.state.world.log| && r.state.world.log[..|c.log|] == c.log &&
            r.state.world.log[|c.log|] == Ran(SbatchCommand(cfg), reply) &&
            (r.outcome == Fatal(SubmitFailed(SbatchCommand(cfg))) <==> reply.status != 0) &&
            (r.outcome == Fatal(BadJobId(reply.output)) <==> reply.status == 0 && GetJobId(reply.output).None?) &&
            (r.outcome.Monitoring? <==> reply.status == 0 && GetJobId(reply.output).Some?) &&
            (r.outcome.Monitoring? ==>
               var g := st.world.writes(st.world.sleeps);
               r.state.world.success == g.success && r.state.world.fail == g.fail &&
               Some(r.state.jobId) == GetJobId(reply.output) && r.state.elapsed == 0 &&
               r.state.eqwResubs == st.eqwResubs)
  {
    var c := Cleanup(st.world);
    var s := Submission(cfg, st.(world := c));
    assert s.state.world.log == c.log + [Ran(SbatchCommand(cfg), st.world.NextReply())];
  }

  // ---------------------------------------------------------------------------
  // One pass of the monitoring loop

  /**
    With no marker present the monitor sleeps `sleepTime` and adds it to the timer;
    it enters the crash check iff the timer then reaches the crash-check interval,
    which queries `sjobs` unless `crashcheck_attempts` is 0.
  */
  lemma PollAccumulates(cfg: Config, st: State)
    requires !st.world.success && !st.world.fail
    ensures var r := PollStep(cfg, st);
            var e := st.elapsed + cfg.sleepTime;
            var slept := st.(elapsed := e, world := st.world.Probe(SuccessMarker).Probe(FailMarker).Sleep(cfg.sleepTime));
            (e < cfg.crashcheckInterval ==> r == Step(Monitoring, slept) && r.state.world.runs == st.world.runs) &&
            (e >= cfg.crashcheckInterval ==> r == CrashCheckFrom(cfg, slept, 0))
  {
    var c := MarkerCheck(st);
    assert c.state.world == st.world.Probe(SuccessMarker).Probe(FailMarker);
  }

  /** Both markers present: the success marker wins and nothing else happens. */
  lemma SuccessMarkerWins(cfg: Config, st: State)
    requires st.world.success
    ensures var r := PollStep(cfg, st);
            r.outcome == Exit(0) && SameJob(st, r.state) && r.state.world == st.world.Probe(SuccessMarker)
  {
  }

  /**
    A healthy crash check ends the check without touching the timer, so the
    very next pass (if no marker appears) runs another crash check.
  */
  lemma HealthyCheckKeepsTimer(cfg: Config, st: State, n: nat)
    requires n < cfg.crashcheckAttempts && st.elapsed >= cfg.crashcheckInterval
    requires st.world.NextReply().status == 0
    requires var ids := JobIds(st.world.NextReply().output);
             ids.Success? && st.jobId in ids.value && ids.value[st.jobId]
    ensures var r := CrashCheckFrom(cfg, st, n);
            r == Step(Monitoring, st.(world := st.world.Run(SjobsCommand))) && SameJob(st, r.state) &&
            (!r.state.world.success && !r.state.world.fail ==>
               PollStep(cfg, r.state) ==
                 CrashCheckFrom(cfg, r.state.(elapsed := st.elapsed + cfg.sleepTime,
                                              world := r.state.world.Probe(SuccessMarker).Probe(FailMarker).Sleep(cfg.sleepTime)), 0))
  {
    var r := CrashCheckFrom(cfg, st, n);
    if !r.state.world.success && !r.state.world.fail {
      PollAccumulates(cfg, r.state);
    }
  }

  // ---------------------------------------------------------------------------
  // The crash check

  /** With no attempts the crash check fails at once, without querying the queue. */
  lemma NoAttemptsNoQuery(cfg: Config, st: State)
    requires cfg.crashcheckAttempts == 0
    ensures CrashCheckFrom(cfg, st, 0) == Step(Fatal(CrashcheckExhausted), st)
  {
  }

  /**
    When every remaining `sjobs` query fails, each one is followed by the 60 s
    back-off, and the check gives up after exactly the remaining number of attempts.
  */
  lemma {:induction false} QueryFailuresExhaust(cfg: Config, st: State, n: nat)
    requires n <= cfg.crashcheckAttempts
    requires forall k | st.world.runs <= k < st.world.runs + (cfg.crashcheckAttempts - n) :: st.world.replies(k).status != 0
    ensures var r := CrashCheckFrom(cfg, st, n);
            r.outcome == Fatal(CrashcheckExhausted) && SameJob(st, r.state) &&
            r.state.world.runs == st.world.runs + (cfg.crashcheckAttempts - n) &&
            r.state.world.sleeps == st.world.sleeps + (cfg.crashcheckAttempts - n) &&
            r.state.world.kills == st.world.kills
    decreases cfg.crashcheckAttempts - n
  {
    if n < cfg.crashcheckAttempts {
      var st1 := st.(world := st.world.Run(SjobsCommand));
      QueryFailuresExhaust(cfg, st1.(world := st1.world.Sleep(QueryBackoff)), n + 1);
    }
  }

  /** The reply lists the tracked job in state "E". */
  predicate EqwListing(reply: Reply, jobId: uint32) {
    reply.status == 0 && JobIds(reply.output).Success? &&
    jobId in JobIds(reply.output).value && !JobIds(reply.output).value[jobId]
  }

  /** An Eqw job is cancelled before the resubmission budget is even looked at. */
  lemma EqwAlwaysCancelled(cfg: Config, st: State, n: nat)
    requires n < cfg.crashcheckAttempts
    requires EqwListing(st.world.NextReply(), st.jobId)
    ensures var r := CrashCheckFrom(cfg, st, n);
            |st.world.log| + 1 < |r.state.world.log| &&
            r.state.world.log[|st.world.log|] == Ran(SjobsCommand, st.world.NextReply()) &&
            r.state.world.log[|st.world.log| + 1] == Cancelled(st.jobId, st.world.cancels(st.world.kills))
  {
    var st1 := st.(world := st.world.Run(SjobsCommand));
    var st2 := st1.(world := st1.world.Cancel(st.jobId));
    var prefix := st2.world.log;
    assert prefix == st.world.log + [Ran(SjobsCommand, st.world.NextReply()), Cancelled(st.jobId, st.world.cancels(st.world.kills))];
    if st1.world.NextCancel() {
      if st.eqwResubs < cfg.eqwResubLimit {
        var sub := Submission(cfg, st2.(eqwResubs := st.eqwResubs + 1));
        assert sub.state.world.log[..|prefix|] == prefix;
      }
    }
  }

  /**
    At the Eqw resubmission limit the job is cancelled but neither resubmitted nor
    given up on: the retry counter advances and `sjobs` is asked again. If the
    job stays in Eqw (and every cancel is accepted), the check ends by exhausting
    its attempts, with one query and one cancel per remaining attempt.
  */
  lemma {:induction false} EqwLimitDrainsAttempts(cfg: Config, st: State, n: nat)
    requires n <= cfg.crashcheckAttempts && st.eqwResubs >= cfg.eqwResubLimit
    requires forall k | st.world.runs <= k < st.world.runs + (cfg.crashcheckAttempts - n) :: EqwListing(st.world.replies(k), st.jobId)
    requires forall k | st.world.kills <= k < st.world.kills + (cfg.crashcheckAttempts - n) :: st.world.cancels(k)
    ensures var r := CrashCheckFrom(cfg, st, n);
            r.outcome == Fatal(CrashcheckExhausted) && SameJob(st, r.state) &&
            r.state.world.runs == st.world.runs + (cfg.crashcheckAttempts - n) &&
            r.state.world.kills == st.world.kills + (cfg.crashcheckAttempts - n) &&
            r.state.world.sleeps == st.world.sleeps
    decreases cfg.crashcheckAttempts - n
  {
    if n < cfg.crashcheckAttempts {
      assert EqwListing(st.world.replies(st.world.runs), st.jobId);
      var st1 := st.(world := st.world.Run(SjobsCommand));
      EqwLimitDrainsAttempts(cfg, st1.(world := st1.world.Cancel(st.jobId)), n + 1);
    }
  }

  /**
    Below the limit, an Eqw job whose cancel is accepted is resubmitted at once:
    the query, the cancel and `sbatch`, with the Eqw count raised by one; the check
    goes on monitoring exactly when `sbatch` succeeds and prints an id, which is
    then the tracked job.
  */
  lemma EqwBelowLimitResubmits(cfg: Config, st: State, n: nat)
    requires n < cfg.crashcheckAttempts && EqwListing(st.world.NextReply(), st.jobId)
    requires st.world.cancels(st.world.kills) && st.eqwResubs < cfg.eqwResubLimit
    ensures var r := CrashCheckFrom(cfg, st, n);
            var sub := st.world.replies(st.world.runs + 1);
            r.state.eqwResubs == st.eqwResubs + 1 &&
            r.state.world.log == st.world.log + [Ran(SjobsCommand, st.world.NextReply()), Cancelled(st.jobId, true), Ran(SbatchCommand(cfg), sub)] &&
            (r.outcome.Monitoring? <==> sub.status == 0 && GetJobId(sub.output).Some?) &&
            (r.outcome.Monitoring? ==> Resubmitted(cfg, r.state))
  {
  }

  /** At the limit, an Eqw job whose cancel is accepted only costs the attempt: the check moves on to the next one. */
  lemma EqwAtLimitRetries(cfg: Config, st: State, n: nat)
    requires n < cfg.crashcheckAttempts && EqwListing(st.world.NextReply(), st.jobId)
    requires st.world.cancels(st.world.kills) && st.eqwResubs >= cfg.eqwResubLimit
    ensures CrashCheckFrom(cfg, st, n) == CrashCheckFrom(cfg, st.(world := st.world.Run(SjobsCommand).Cancel(st.jobId)), n + 1)
  {
  }

  /** A listing that does not parse ends the run at once: no back-off and no further attempt. */
  lemma ParseErrorIsFatal(cfg: Config, st: State, n: nat)
    requires n < cfg.crashcheckAttempts && st.world.NextReply().status == 0
    requires JobIds(st.world.NextReply().output).Failure?
    ensures CrashCheckFrom(cfg, st, n) ==
              Step(Fatal(BadListing(JobIds(st.world.NextReply().output).error)), st.(world := st.world.Run(SjobsCommand)))
  {
  }

  /** A refused `scancel` of an Eqw job ends the run at once, whatever the Eqw count. */
  lemma RefusedCancelIsFatal(cfg: Config, st: State, n: nat)
    requires n < cfg.crashcheckAttempts && EqwListing(st.world.NextReply(), st.jobId)
    requires !st.world.cancels(st.world.kills)
    ensures CrashCheckFrom(cfg, st, n) ==
              Step(Fatal(CancelFailed(st.jobId)), st.(world := st.world.Run(SjobsCommand).Cancel(st.jobId)))
  {
  }

  /**
    The job missing from the queue: a marker seen at once decides; otherwise the
    markers written during the 120 s grace decide; only if neither look finds one
    is the job resubmitted. The Eqw count is never touched on this path.
  */
  lemma MissingJobResolution(cfg: Config, st: State)
    ensures var r := MissingJob(cfg, st);
            var w := st.world;
            var g := w.writes(w.sleeps);
            (r.outcome == Exit(0) <==> w.success || (!w.fail && g.success)) &&
            (r.outcome == Exit(2) <==> !w.success && (w.fail || (!g.success && g.fail))) &&
            (!w.success && !w.fail && !g.success && !g.fail ==>
               r == Submission(cfg, st.(world := w.Probe(SuccessMarker).Probe(FailMarker).Sleep(DesyncGrace)
                                                   .Probe(SuccessMarker).Probe(FailMarker)))) &&
            r.state.eqwResubs == st.eqwResubs && ExitWitnessed(r) &&
            (r.outcome.Monitoring? ==> Resubmitted(cfg, r.state))
  {
    var c1 := MarkerCheck(st);
    if c1.outcome.Monitoring? {
      var slept := c1.state.(world := c1.state.world.Sleep(DesyncGrace));
      var c2 := MarkerCheck(slept);
      assert c2.outcome == Exit(0) <==> st.world.writes(st.world.sleeps).success;
    }
  }

  /**
    What a crash check keeps, from state `st` to its step `r`: the Eqw count stays
    within its limit and grows by at most one, and only through a cancel accepted
    just before a resubmission; if monitoring goes on, either nothing about the job
    changed or it was just resubmitted (new id, timer reset); an exit follows a
    marker seen.
  */
  ghost predicate CheckBookkept(cfg: Config, st: State, r: Step) {
    var log := r.state.world.log;
    st.eqwResubs <= r.state.eqwResubs <= cfg.eqwResubLimit &&
    (r.state.eqwResubs != st.eqwResubs ==>
       r.state.eqwResubs == st.eqwResubs + 1 && |log| >= 2 &&
       log[|log| - 2] == Cancelled(st.jobId, true) &&
       log[|log| - 1].Ran? && log[|log| - 1].command == SbatchCommand(cfg)) &&
    (r.outcome.Monitoring? ==> SameJob(st, r.state) || Resubmitted(cfg, r.state)) &&
    ExitWitnessed(r)
  }

  /** Across the whole crash check, from any attempt on. */
  lemma {:induction false} CrashCheckBookkeeping(cfg: Config, st: State, n: nat)
    requires st.eqwResubs <= cfg.eqwResubLimit
    ensures CheckBookkept(cfg, st, CrashCheckFrom(cfg, st, n))
    decreases cfg.crashcheckAttempts - n, 1
  {
    if n < cfg.crashcheckAttempts {
      var reply := st.world.NextReply();
      var st1 := st.(world := st.world.Run(SjobsCommand));
      if reply.status != 0 {
        CrashCheckBookkeeping(cfg, st1.(world := st1.world.Sleep(QueryBackoff)), n + 1);
      } else if JobIds(reply.output).Success? {
        InspectBookkeeping(cfg, st1, JobIds(reply.output).value, n);
      }
    }
  }

  /** Across what one attempt does with a parsed listing. */
  lemma {:induction false} InspectBookkeeping(cfg: Config, st: State, ids: map<uint32, bool>, n: nat)
    requires n < cfg.crashcheckAttempts && st.eqwResubs <= cfg.eqwResubLimit
    ensures CheckBookkept(cfg, st, Inspect(cfg, st, ids, n))
    decreases cfg.crashcheckAttempts - n, 0
  {
    if st.jobId in ids && !ids[st.jobId] {
      var st2 := st.(world := st.world.Cancel(st.jobId));
      if st.world.NextCancel() {
        if st.eqwResubs >= cfg.eqwResubLimit {
          CrashCheckBookkeeping(cfg, st2, n + 1);
        } else {
          var sub := Submission(cfg, st2.(eqwResubs := st.eqwResubs + 1));
          assert sub.state.world.log == st2.world.log + [Ran(SbatchCommand(cfg), st2.world.NextReply())];
        }
      }
    } else if st.jobId !in ids {
      MissingJobResolution(cfg, st);
    }
  }

  // ---------------------------------------------------------------------------
  // The monitoring loop

  lemma PollBookkeeping(cfg: Config, st: State)
    requires st.eqwResubs <= cfg.eqwResubLimit
    ensures var r := PollStep(cfg, st);
            st.eqwResubs <= r.state.eqwResubs <= cfg.eqwResubLimit && ExitWitnessed(r) &&
            (r.outcome.Monitoring? ==>
               (r.state.jobId == st.jobId && r.state.eqwResubs == st.eqwResubs &&
                r.state.elapsed == st.elapsed + cfg.sleepTime) ||
               Resubmitted(cfg, r.state))
  {
    var c := MarkerCheck(st);
    if c.outcome.Monitoring? {
      var slept := c.state.(world := c.state.world.Sleep(cfg.sleepTime), elapsed := c.state.elapsed + cfg.sleepTime);
      if slept.elapsed >= cfg.crashcheckInterval {
        CrashCheckBookkeeping(cfg, slept, 0);
      }
    }
  }

  /**
    However long the monitor runs, the Eqw count never decreases and never
    exceeds its limit, and every exit is 0 or 2 and decided by the marker just seen.
  */
  lemma {:induction false} RunBookkeeping(cfg: Config, st: State, fuel: nat)
    requires st.eqwResubs <= cfg.eqwResubLimit
    ensures var r := RunFor(cfg, st, fuel);
            st.eqwResubs <= r.state.eqwResubs <= cfg.eqwResubLimit && ExitWitnessed(r)
    decreases fuel
  {
    if fuel > 0 {
      var p := PollStep(cfg, st);
      RunForPass(cfg, st, fuel);
      PollBookkeeping(cfg, st);
      if p.outcome.Monitoring? {
        RunBookkeeping(cfg, p.state, fuel - 1);
      }
    }
  }

  /** Every exit of the whole program is 0 or 2, seen on a marker; the Eqw budget holds throughout. */
  lemma MonitorRunBookkeeping(cfg: Config, w: World, jitter: nat, fuel: nat)
    ensures var r := MonitorRun(cfg, w, jitter, fuel);
            r.state.eqwResubs <= cfg.eqwResubLimit && ExitWitnessed(r)
  {
    var s := Startup(cfg, State(0, 0, 0, w), jitter);
    if s.outcome.Monitoring? {
      RunBookkeeping(cfg, s.state, fuel);
    }
  }

  /** `sbatch` was not run in `log` from position `from` on. */
  predicate NoSubmissionIn(cfg: Config, log: seq<Event>, from: nat) {
    forall k | from <= k < |log| :: !(log[k].Ran? && log[k].command == SbatchCommand(cfg))
  }

  /** A state whose log is a longer prefix of a log without `sbatch` was not just resubmitted. */
  lemma NoSubmissionBefore(cfg: Config, s: State, log: seq<Event>, from: nat)
    requires from < |s.world.log| && s.world.log <= log && NoSubmissionIn(cfg, log, from)
    ensures !Resubmitted(cfg, s) && NoSubmissionIn(cfg, log, |s.world.log|)
  {
    var last := |s.world.log| - 1;
    assert log[last] == s.world.log[last];
  }

  /**
    A pass that goes on monitoring, with no `sbatch` in the log from before it to
    some later point, kept the job and added one `sleepTime` to the timer.
  */
  lemma PassWithoutSubmission(cfg: Config, st: State, log: seq<Event>)
    requires st.eqwResubs <= cfg.eqwResubLimit
    requires PollStep(cfg, st).outcome.Monitoring?
    requires PollStep(cfg, st).state.world.log <= log && NoSubmissionIn(cfg, log, |st.world.log|)
    ensures var p := PollStep(cfg, st).state;
            p.jobId == st.jobId && p.elapsed == st.elapsed + cfg.sleepTime &&
            p.eqwResubs <= cfg.eqwResubLimit && NoSubmissionIn(cfg, log, |p.world.log|)
  {
    PollBookkeeping(cfg, st);
    NoSubmissionBefore(cfg, PollStep(cfg, st).state, log, |st.world.log|);
  }

  /** The job name given on the command line changes nothing about what is submitted. */
  lemma SbatchCommandIgnoresJobName(cfg: Config, name: string)
    ensures SbatchCommand(cfg.(jobName := name)) == SbatchCommand(cfg)
  {
  }

  /**
    The timer is reset only by a resubmission: over passes that go on monitoring
    without running `sbatch`, the job stays the same and the timer is exactly the
    starting value plus one `sleepTime` per pass, healthy crash checks included.
    (The Eqw bound is the invariant RunBookkeeping keeps from start-up on.)
  */
  lemma {:induction false} TimerResetOnlyByResubmission(cfg: Config, st: State, fuel: nat)
    requires st.eqwResubs <= cfg.eqwResubLimit
    ensures var r := RunFor(cfg, st, fuel);
            r.outcome.Monitoring? && NoSubmissionIn(cfg, r.state.world.log, |st.world.log|) ==>
              r.state.jobId == st.jobId && r.state.elapsed == st.elapsed + fuel * cfg.sleepTime
    decreases fuel
  {
    if fuel > 0 {
      var p := PollStep(cfg, st);
      RunForPass(cfg, st, fuel);
      if p.outcome.Monitoring? {
        var r := RunFor(cfg, p.state, fuel - 1);
        if r.outcome.Monitoring? && NoSubmissionIn(cfg, r.state.world.log, |st.world.log|) {
          PassWithoutSubmission(cfg, st, r.state.world.log);
          TimerResetOnlyByResubmission(cfg, p.state, fuel - 1);
          assert fuel * cfg.sleepTime == cfg.sleepTime + (fuel - 1) * cfg.sleepTime;
        }
      }
    }
  }

  // ---------------------------------------------------------------------------
  // Unbounded crash resubmission

  /** An `sjobs` reply that lists no job at all. */
  predicate EmptyListing(reply: Reply) {
    reply.status == 0 && JobIds(reply.output) == Success(map[])
  }

  /** An `sbatch` reply that carries a job id. */
  predicate SubmitReply(reply: Reply) {
    reply.status == 0 && GetJobId(reply.output).Some?
  }

  /**
    From command number `from` on, the replies alternate: an empty `sjobs` listing,
    then an `sbatch` reply with an id, and so on.
  */
  ghost predicate AlternatingReplies(replies: nat -> Reply, from: nat) {
    forall k | from <= k ::
      if (k - from) % 2 == 0 then EmptyListing(replies(k)) else SubmitReply(replies(k))
  }

  /** An alternating script starts with a listing and a submission, and alternates again after them. */
  lemma AlternatingShift(replies: nat -> Reply, from: nat)
    requires AlternatingReplies(replies, from)
    ensures EmptyListing(replies(from)) && SubmitReply(replies(from + 1))
    ensures AlternatingReplies(replies, from + 2)
  {
    assert (from - from) % 2 == 0 && (from + 1 - from) % 2 == 1;
    forall k | from + 2 <= k
      ensures if (k - (from + 2)) % 2 == 0 then EmptyListing(replies(k)) else SubmitReply(replies(k))
    {
      assert (k - from) % 2 == (k - (from + 2)) % 2;
    }
  }

  /** Both kinds of reply exist: a bare `sjobs` header, and `sbatch` printing "7" and a newline. */
  lemma ScriptedRepliesExist()
    ensures EmptyListing(Reply(0, "JOBID")) && SubmitReply(Reply(0, "7\n"))
  {
    assert !Contains("JOBID", "\n") by {
      forall i: nat | i <= |"JOBID"| ensures !OccursAt("JOBID", "\n", i) {
        if i < |"JOBID"| { assert "JOBID"[i..i + 1][0] == "JOBID"[i]; }
      }
    }
    HeaderOnlyListing("JOBID");
    GetJobIdOfDecimal("", 7, "\n");
    assert "" + Decimal(7) + "\n" == "7\n";
  }

  /**
    A job that is gone for good, from state `st` on: no marker exists or will be
    written, the replies alternate between an empty listing and an accepted
    submission, and each poll's sleep already reaches the crash-check interval.
  */
  ghost predicate Abandoned(cfg: Config, st: State) {
    cfg.sleepTime >= cfg.crashcheckInterval && cfg.crashcheckAttempts > 0 &&
    !st.world.success && !st.world.fail &&
    (forall k :: st.world.writes(k) == Writes(false, false)) &&
    AlternatingReplies(st.world.replies, st.world.runs)
  }

  /**
    One pass against an abandoned job: the poll sleeps, the empty listing sends it
    to the grace period, nothing turns up, and the job is resubmitted under a new id
    with the timer reset; the job stays abandoned.
  */
  lemma CrashPassResubmits(cfg: Config, st: State)
    requires Abandoned(cfg, st)
    ensures var p := PollStep(cfg, st);
            p.outcome == Monitoring && p.state.eqwResubs == st.eqwResubs &&
            p.state.world.runs == st.world.runs + 2 && p.state.world.sleeps == st.world.sleeps + 2 &&
            Resubmitted(cfg, p.state) && Abandoned(cfg, p.state)
  {
    AlternatingShift(st.world.replies, st.world.runs);
    var c := MarkerCheck(st);
    var slept := c.state.(world := c.state.world.Sleep(cfg.sleepTime), elapsed := c.state.elapsed + cfg.sleepTime);
    assert EmptyListing(slept.world.NextReply());
    var st1 := slept.(world := slept.world.Run(SjobsCommand));
    var m := MissingJob(cfg, st1);
    MissingJobResolution(cfg, st1);
    assert SubmitReply(m.state.world.replies(st1.world.runs));
    assert CrashCheckFrom(cfg, slept, 0) == Inspect(cfg, st1, map[], 0) == m;
    assert m.state.world.writes == st.world.writes && m.state.world.replies == st.world.replies;
  }

  /**
    No counter limits crash resubmissions: if the job never writes a marker, is
    never listed by `sjobs`, every `sbatch` succeeds, and each poll's sleep already
    reaches the crash-check interval, then every pass queries `sjobs`, waits out
    the grace period and resubmits, for as many passes as the monitor runs.
  */
  lemma {:induction false} EndlessCrashResubmission(cfg: Config, st: State, fuel: nat)
    requires Abandoned(cfg, st)
    ensures var r := RunFor(cfg, st, fuel);
            r.outcome == Monitoring && r.state.eqwResubs == st.eqwResubs &&
            r.state.world.runs == st.world.runs + 2 * fuel &&
            r.state.world.sleeps == st.world.sleeps + 2 * fuel &&
            !r.state.world.success && !r.state.world.fail &&
            (fuel > 0 ==> Resubmitted(cfg, r.state))
    decreases fuel
  {
    if fuel > 0 {
      CrashPassResubmits(cfg, st);
      var p := PollStep(cfg, st);
      RunForPass(cfg, st, fuel);
      EndlessCrashResubmission(cfg, p.state, fuel - 1);
      if fuel > 1 {
        assert Resubmitted(cfg, RunFor(cfg, p.state, fuel - 1).state);
      }
    }
  }
}
