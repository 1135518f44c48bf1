/** Shutdown, snapshots and follow-up runs over whole runs of the engine. */
module RunTheorems {
  import opened RunModel
  import opened RunEngine
  import opened RunEffects
  import opened RunInvariant
  import opened RunSafety

  // ---- shutdown ------------------------------------------------------------------

  predicate Submap(a: map<RepoId, RunId>, b: map<RepoId, RunId>) {
    forall r | r in a :: r in b && a[r] == b[r]
  }

  lemma ClosingStep(s: State, step: Step)
    requires Inv(s) && Enabled(s, step) && s.up && s.closing && step != Crash
    ensures Apply(s, step).up && Apply(s, step).closing
    ensures Submap(Apply(s, step).active, s.active)
    ensures Apply(s, step).db.Keys == s.db.Keys
  {
    DbAfter(s, step);
  }

  /** Once shutdown has begun, no run is recorded any more and the slot map only
      shrinks, for as long as the process lives. */
  lemma {:induction false} ClosingShrinks(s: State, steps: seq<Step>)
    requires Inv(s) && CanRun(s, steps) && s.up && s.closing && Crash !in steps
    ensures Run(s, steps).up && Run(s, steps).closing
    ensures Submap(Run(s, steps).active, s.active)
    ensures Run(s, steps).db.Keys == s.db.Keys
    decreases |steps|
  {
    if steps != [] {
      InvStep(s, steps[0]);
      ClosingStep(s, steps[0]);
      ClosingShrinks(Apply(s, steps[0]), steps[1..]);
    }
  }

  /** Shutdown saw the slot map empty: no run is at work, nor ever will be again
      in this process. */
  lemma ShutdownQuiet(s: State, steps: seq<Step>, id: RunId)
    requires Reachable(s) && s.up && s.closing && s.active == map[]
    requires CanRun(s, steps) && Crash !in steps
    ensures id in Run(s, steps).drivers ==> !Run(s, steps).drivers[id].phase.BeforeFollowUp()
  {
    ReachableInv(s);
    ClosingShrinks(s, steps);
    InvRun(s, steps);
    var s' := Run(s, steps);
    Know(s', id);
  }

  /** Every record is final at that moment if and only if no backup that handed
      its slot on is still finishing. */
  lemma ShutdownSettled(s: State)
    requires Reachable(s) && s.up && s.closing && s.active == map[]
    ensures (forall id | id in s.db :: !s.IsActive(id))
            <==> (forall p | p in s.drivers && s.HandedOff(p) :: s.drivers[p].phase.Finalized?)
  {
    ReachableInv(s);
    forall p ensures RunOk(s, p) { Know(s, p); }
    if forall id | id in s.db :: !s.IsActive(id) {
      forall p | p in s.drivers && s.HandedOff(p) ensures s.drivers[p].phase.Finalized? {
        Know(s, p);
        assert !s.IsActive(p);
      }
    }
    if forall p | p in s.drivers && s.HandedOff(p) :: s.drivers[p].phase.Finalized? {
      forall id | id in s.db ensures !s.IsActive(id) { Know(s, id); }
    }
  }

  // ---- snapshots -----------------------------------------------------------------

  /** A run that is past its launch and not executing never executes again. */
  ghost predicate PastExecuting(s: State, id: RunId) {
    id < s.nextId && (id in s.drivers ==> !s.drivers[id].phase.Launched? && !s.drivers[id].phase.Executing?)
  }

  lemma {:induction false} NeverExecutesAgain(s: State, steps: seq<Step>, id: RunId)
    requires Inv(s) && CanRun(s, steps) && PastExecuting(s, id)
    ensures PastExecuting(Run(s, steps), id)
    decreases |steps|
  {
    if steps != [] {
      InvStep(s, steps[0]);
      DriverAfter(s, steps[0], id);
      NeverExecutesAgain(Apply(s, steps[0]), steps[1..], id);
    }
  }

  lemma EffectKeeps(s: State, step: Step, s': State, id: RunId, repo: RepoId)
    requires Inv(s) && Enabled(s, step) && SnapsStep(s, step, s', repo)
    requires s.ExecutingOn(id, repo) && !RemovesSnapshots(s.db[id].kind)
    ensures s.Snapshots(repo) <= s'.Snapshots(repo)
  {
    Know(s, id);
    if step.Effect? { Know(s, step.id); }
  }

  lemma KeepsExecuting(s: State, step: Step, s': State, id: RunId, repo: RepoId)
    requires Inv(s) && Enabled(s, step) && DbStep(s, step, s') && DriverStep(s, step, s', id)
    requires s.ExecutingOn(id, repo)
    ensures (s'.ExecutingOn(id, repo) && s'.db[id].kind == s.db[id].kind) || PastExecuting(s', id)
  {
    Know(s, id);
  }

  lemma SnapshotsStep(s: State, step: Step, id: RunId, repo: RepoId)
    requires Inv(s) && Enabled(s, step)
    requires s.ExecutingOn(id, repo) && !RemovesSnapshots(s.db[id].kind)
    ensures s.Snapshots(repo) <= Apply(s, step).Snapshots(repo)
    ensures (Apply(s, step).ExecutingOn(id, repo) && Apply(s, step).db[id].kind == s.db[id].kind)
            || PastExecuting(Apply(s, step), id)
  {
    var s' := Apply(s, step);
    DriverAfter(s, step, id);
    DbAfter(s, step);
    SnapsAfter(s, step, repo);
    EffectKeeps(s, step, s', id, repo);
    KeepsExecuting(s, step, s', id, repo);
  }

  /** While a run that forgets nothing itself executes, such as a database
      restore, no snapshot leaves its repository: whatever could remove one
      cannot get the slot. */
  lemma {:induction false} ExecutingKeepsSnapshots(s: State, steps: seq<Step>, id: RunId, repo: RepoId)
    requires Inv(s) && CanRun(s, steps)
    requires s.ExecutingOn(id, repo) && !RemovesSnapshots(s.db[id].kind)
    requires Run(s, steps).ExecutingOn(id, repo)
    ensures s.Snapshots(repo) <= Run(s, steps).Snapshots(repo)
    decreases |steps|
  {
    if steps != [] {
      InvStep(s, steps[0]);
      SnapshotsStep(s, steps[0], id, repo);
      if PastExecuting(Apply(s, steps[0]), id) && !Apply(s, steps[0]).ExecutingOn(id, repo) {
        NeverExecutesAgain(Apply(s, steps[0]), steps[1..], id);
      }
      ExecutingKeepsSnapshots(Apply(s, steps[0]), steps[1..], id, repo);
    }
  }

  /** A snapshot such a run adds, like a restore's safety backup, is in the
      repository for as long as the run executes. */
  lemma OwnSnapshotStays(s: State, id: RunId, repo: RepoId, own: SnapshotId, steps: seq<Step>)
    requires Reachable(s) && s.ExecutingOn(id, repo) && s.db[id].kind == RestoreDB
    requires var s1 := Apply(s, Effect(id, {own}, {}));
             CanRun(s1, steps) && Run(s1, steps).ExecutingOn(id, repo)
    ensures own in Run(Apply(s, Effect(id, {own}, {})), steps).Snapshots(repo)
  {
    ReachableInv(s);
    InvStep(s, Effect(id, {own}, {}));
    ExecutingKeepsSnapshots(Apply(s, Effect(id, {own}, {})), steps, id, repo);
  }

  // ---- follow-up runs ------------------------------------------------------------

  lemma {:induction false} FollowsKept(s: State, steps: seq<Step>, p: RunId)
    requires Inv(s) && CanRun(s, steps) && p in s.follows
    ensures p in Run(s, steps).follows && Run(s, steps).follows[p] == s.follows[p]
    decreases |steps|
  {
    if steps != [] {
      InvStep(s, steps[0]);
      DriverAfter(s, steps[0], p);
      Know(s, p);
      FollowsKept(Apply(s, steps[0]), steps[1..], p);
    }
  }

  /** The retention run n that backup p starts is named in p's record whenever
      that record is final, unless a crash interrupted p. */
  lemma FinishedNamesFollowUp(s: State, n: RunId, steps: seq<Step>, p: RunId)
    requires Reachable(s) && Enabled(s, Begin(n)) && s.mu.attempt.prev == Some(p)
    requires CanRun(Apply(s, Begin(n)), steps)
    ensures var s' := Run(Apply(s, Begin(n)), steps);
            p in s'.db && s'.db[p].status.Terminal() && s'.db[p].status != Interrupted ==> s'.db[p].followUp == Some(n)
  {
    ReachableInv(s);
    DriverAfter(s, Begin(n), p);
    InvStep(s, Begin(n));
    InvRun(Apply(s, Begin(n)), steps);
    FollowsKept(Apply(s, Begin(n)), steps, p);
    Know(Run(Apply(s, Begin(n)), steps), p);
  }

  /** A record in the table that names a following run is that of a backup that
      succeeded, the named run is a later retention run, and that one names none. */
  lemma NamedRunIsLast(s: State, p: RunId)
    requires Reachable(s) && p in s.db && s.db[p].followUp.Some?
    ensures var n := s.db[p].followUp.value;
            && s.db[p].kind == Backup && s.db[p].status in {Success, SuccessWarnings} && p < n
            && (n in s.db ==> s.db[n].kind == Retention && s.db[n].followUp == None)
  {
    ReachableInv(s);
    Know(s, p);
    Know(s, s.follows[p]);
  }
}
