/**
  The world the monitor talks to, supplied as a script: the two marker files
  `<prefix>.success` and `<prefix>.fail`, the replies of the external commands run
  through `exec` (`sbatch`, `sjobs`), the verdicts of `kill_job` (`scancel`), and
  what the job writes to the marker files while the monitor sleeps. Every
  interaction is appended to a log so that orderings can be stated.
*/
module Cluster {
  import opened Extraction

  datatype Marker = SuccessMarker | FailMarker

  /** What `exec` hands back: the `pclose` status and the captured standard output. */
  datatype Reply = Reply(status: int, output: string)

  /** The markers the job writes during one sleep of the monitor. */
  datatype Writes = Writes(success: bool, fail: bool)

  datatype Event =
    | Probed(marker: Marker, present: bool)
    | Removed(marker: Marker)
    | Ran(command: string, reply: Reply)
    | Cancelled(jobId: uint32, accepted: bool)
    | Slept(seconds: nat)

  /**
    `success`/`fail`: whether each marker file exists now. `writes(k)`, `replies(k)`
    and `cancels(k)` script the k-th sleep, command and cancellation; `sleeps`,
    `runs` and `kills` count how many of each have happened.
  */
  datatype World = World(
    success: bool,
    fail: bool,
    writes: nat -> Writes,
    sleeps: nat,
    replies: nat -> Reply,
    runs: nat,
    cancels: nat -> bool,
    kills: nat,
    log: seq<Event>)
  {
    /** `std::filesystem::exists` on a marker. */
    function Present(m: Marker): bool {
      if m == SuccessMarker then success else fail
    }

    function Probe(m: Marker): World {
      this.(log := log + [Probed(m, Present(m))])
    }

    /** `std::filesystem::remove` on a marker. */
    function Remove(m: Marker): World {
      if m == SuccessMarker then this.(success := false, log := log + [Removed(m)])
      else this.(fail := false, log := log + [Removed(m)])
    }

    /** The reply the next `exec` receives. */
    function NextReply(): Reply {
      replies(runs)
    }

    function Run(command: string): World {
      this.(runs := runs + 1, log := log + [Ran(command, NextReply())])
    }

    /** Whether the next `scancel` exits with status zero. */
    function NextCancel(): bool {
      cancels(kills)
    }

    function Cancel(jobId: uint32): World {
      this.(kills := kills + 1, log := log + [Cancelled(jobId, NextCancel())])
    }

    /** `sleep(seconds)`: the job may write its markers meanwhile; nothing deletes them. */
    function Sleep(seconds: nat): World {
      var w := writes(sleeps);
      this.(success := success || w.success, fail := fail || w.fail,
            sleeps := sleeps + 1, log := log + [Slept(seconds)])
    }
  }
}
