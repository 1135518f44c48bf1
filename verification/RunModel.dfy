/** The values the run engine works on: run kinds and statuses, the durable run
    record, what a run's work returns, and how that is classified. */
module RunModel {

  datatype Option<+T> = None | Some(value: T)

  // Run ids are time-sortable in the source; numbers keep that order.
  type RunId = nat
  type RepoId = nat
  type JobId = nat
  type SnapshotId = nat

  datatype RunKind =
    | Backup | Restore | Init | Download | Unlock | Retention | Forget | Check | RestoreDB | SpeedTest

  datatype RunStatus =
    | Starting | Running | Success | SuccessWarnings | Failed | Canceled | Interrupted
  {
    predicate Terminal() {
      this != Starting && this != Running
    }

    /** How far along its life a run is: a status may only move up. */
    function Rank(): nat {
      match this
      case Starting => 0
      case Running => 1
      case _ => 2
    }

    /** The statuses that call for a retention run after a backup. */
    predicate Succeeded() {
      this == Success || this == SuccessWarnings
    }
  }

  /** A row of the runs table, as far as the run engine decides anything by it. */
  datatype Record = Record(kind: RunKind, status: RunStatus, repo: RepoId, job: Option<JobId>, followUp: Option<RunId>)

  /** The error of a run's work, by the sentinel errors it matches. */
  datatype ExecError = NoError | ContextCanceled | ResticInterrupted | OtherError(message: string)

  datatype Outcome = Outcome(code: int, err: ExecError)

  const EXIT_WARNINGS := 3
  const EXIT_NOT_INITIALIZED := 10
  const EXIT_LOCKED := 11
  const EXIT_BAD_PASSWORD := 12
  const EXIT_INTERRUPTED := 130

  /** The terminal status and error message of a run. `stopped` is the stop flag,
      `canceled` whether the run's context was canceled. */
  function ClassifyRun(stopped: bool, canceled: bool, o: Outcome): (r: (RunStatus, string))
    ensures r.0.Terminal() && r.0 != Interrupted
    ensures r.0 == Success <==> !stopped && !canceled && o == Outcome(0, NoError)
    ensures r.0 == SuccessWarnings <==> !stopped && !canceled && o == Outcome(EXIT_WARNINGS, NoError)
    ensures r.0 == Canceled <==> stopped || canceled || o.err == ResticInterrupted || o == Outcome(EXIT_INTERRUPTED, NoError)
    ensures r.0 != Failed && !o.err.OtherError? ==> r.1 == ""
    ensures o.err.OtherError? ==> r.1 == o.err.message
  {
    if stopped || canceled || o.err == ResticInterrupted then
      (Canceled, if o.err.OtherError? then o.err.message else "")
    else
      match o.err
      case ContextCanceled => (Failed, "context canceled")
      case OtherError(m) => (Failed, m)
      case _ =>
        if o.code == 0 then (Success, "")
        else if o.code == EXIT_WARNINGS then (SuccessWarnings, "")
        else if o.code == EXIT_INTERRUPTED then (Canceled, "")
        else if o.code == EXIT_NOT_INITIALIZED then (Failed, "repository is not initialized")
        else if o.code == EXIT_LOCKED then (Failed, "repository is locked by another operation")
        else if o.code == EXIT_BAD_PASSWORD then (Failed, "wrong repository password")
        else (Failed, "restic exited with an unexpected code")
  }

  /** Each of these messages is given for its own exit code only, and only if nothing
      stopped the run. */
  lemma MessagesExactly(stopped: bool, canceled: bool, code: int)
    ensures var ran := !stopped && !canceled;
            var message := ClassifyRun(stopped, canceled, Outcome(code, NoError)).1;
            && (message == "repository is not initialized" <==> ran && code == 10)
            && (message == "repository is locked by another operation" <==> ran && code == 11)
            && (message == "wrong repository password" <==> ran && code == 12)
  {
    assert "repository is not initialized"[0] != "wrong repository password"[0];
    assert |"restic exited with an unexpected code"| != |"repository is locked by another operation"|;
  }
}
