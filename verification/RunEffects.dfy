/** What the steps of the engine leave alone. */
module RunEffects {
  import opened RunModel
  import opened RunEngine

  /** Only the work of an executing run changes snapshots, and only in its own
      repository. */
  ghost predicate SnapsStep(s: State, step: Step, s': State, repo: RepoId) {
    match step {
      case Effect(id, added, removed) =>
        && id in s.db
        && s'.Snapshots(repo) == if s.db[id].repo == repo then s.Snapshots(repo) - removed + added else s.Snapshots(repo)
      case _ => s'.Snapshots(repo) == s.Snapshots(repo)
    }
  }

  lemma GiveUpSnaps(s: State, repo: RepoId)
    requires s.mu.Held?
    ensures GiveUp(s).Snapshots(repo) == s.Snapshots(repo)
  {
  }

  lemma BegunSnaps(s: State, id: RunId, repo: RepoId)
    requires s.mu.Held?
    ensures Begun(s, id).Snapshots(repo) == s.Snapshots(repo)
  {
  }

  lemma RunningSnaps(s: State, id: RunId, repo: RepoId)
    requires id in s.drivers
    ensures SetToRunning(s, id).Snapshots(repo) == s.Snapshots(repo)
  {
  }

  lemma NamedSnaps(s: State, id: RunId, repo: RepoId)
    requires id in s.drivers && s.drivers[id].phase.FollowedUp?
    ensures NameNext(s, id).Snapshots(repo) == s.Snapshots(repo)
  {
  }

  lemma FinalSnaps(s: State, id: RunId, repo: RepoId)
    requires id in s.drivers && s.drivers[id].phase.Named?
    ensures MakeFinal(s, id).Snapshots(repo) == s.Snapshots(repo)
  {
  }

  lemma AttemptSnaps(s: State, step: Step, repo: RepoId)
    requires Enabled(s, step) && (step.CheckHolder? || step.ScanActive? || step.Begin?)
    ensures Apply(s, step).Snapshots(repo) == s.Snapshots(repo)
  {
    GiveUpSnaps(s, repo);
    if step.Begin? { BegunSnaps(s, step.id, repo); }
  }

  lemma RecordSnaps(s: State, step: Step, repo: RepoId)
    requires Enabled(s, step) && (step.SetRunning? || step.NameFollowUp? || step.Finalize?)
    ensures Apply(s, step).Snapshots(repo) == s.Snapshots(repo)
  {
    match step
    case SetRunning(id) => RunningSnaps(s, id, repo);
    case NameFollowUp(id) => NamedSnaps(s, id, repo);
    case Finalize(id) => FinalSnaps(s, id, repo);
  }

  lemma SnapsAfter(s: State, step: Step, repo: RepoId)
    requires Enabled(s, step)
    ensures SnapsStep(s, step, Apply(s, step), repo)
  {
    if step.CheckHolder? || step.ScanActive? || step.Begin? {
      AttemptSnaps(s, step, repo);
    } else if step.SetRunning? || step.NameFollowUp? || step.Finalize? {
      RecordSnaps(s, step, repo);
    }
  }

  /** While the process is down, only a restart acts. */
  lemma WhileDown(s: State, step: Step)
    requires Enabled(s, step) && !s.up && s.drivers == map[] && s.mu.Free?
    ensures step.ReconcileRun? || step.Prune? || step.Boot?
  {
  }
}
