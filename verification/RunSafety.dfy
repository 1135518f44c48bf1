/** Safety of the run engine over whole runs, crashes and restarts included. */
module RunSafety {
  import opened RunModel
  import opened RunEngine
  import opened RunEffects
  import opened RunInvariant

  lemma {:induction false} InvRun(s: State, steps: seq<Step>)
    requires Inv(s) && CanRun(s, steps)
    ensures Inv(Run(s, steps))
    decreases |steps|
  {
    if steps != [] {
      InvStep(s, steps[0]);
      InvRun(Apply(s, steps[0]), steps[1..]);
    }
  }

  lemma ReachableInv(s: State)
    requires Reachable(s)
    ensures Inv(s)
  {
    var steps :| CanRun(INIT, steps) && Run(INIT, steps) == s;
    InvInit();
    InvRun(INIT, steps);
  }

  // ---- one run at work per repository -----------------------------------------

  /** From its start until its follow-up is decided, a run holds the slot; so at
      most one run per repository is in that part of its life. */
  lemma WorkingHoldsSlot(s: State, a: RunId, b: RunId)
    requires Reachable(s)
    requires a in s.drivers && s.drivers[a].phase.BeforeFollowUp()
    ensures s.Holds(a)
    ensures b in s.drivers && s.drivers[b].phase.BeforeFollowUp() ==>
              b in s.db && (s.db[a].repo == s.db[b].repo ==> a == b)
  {
    ReachableInv(s);
    Know(s, a);
    Know(s, b);
  }

  /** n took over p's repository and p's record is not final yet. */
  ghost predicate HandOver(s: State, p: RunId, n: RunId) {
    && s.IsActive(p) && s.IsActive(n)
    && s.db[p].kind == Backup && s.db[n].kind == Retention
    && p in s.drivers && s.drivers[p].phase.Next() == Some(n)
    && s.Holds(n)
  }

  lemma ActivePair(s: State, a: RunId, b: RunId)
    requires Inv(s) && s.up
    requires a != b && s.IsActive(a) && s.IsActive(b) && s.db[a].repo == s.db[b].repo
    ensures HandOver(s, a, b) || HandOver(s, b, a)
  {
    Know(s, a);
    Know(s, b);
    assert OneHandOff(s, a, b);
  }

  /** Two active records on one repository are a backup past its work and the
      retention run it started, which owns the slot. */
  lemma TwoActive(s: State, a: RunId, b: RunId)
    requires Reachable(s) && s.up
    requires a != b && s.IsActive(a) && s.IsActive(b) && s.db[a].repo == s.db[b].repo
    ensures HandOver(s, a, b) || HandOver(s, b, a)
  {
    ReachableInv(s);
    ActivePair(s, a, b);
  }

  /** While a backup that handed its repository on is not final, no run can begin
      there, even if the retention run has ended and its slot is free. */
  lemma NoThirdRun(s: State, p: RunId, id: RunId)
    requires Reachable(s)
    requires s.IsActive(p) && s.HandedOff(p)
    requires s.mu.Held? && s.mu.attempt.repo == s.db[p].repo
    ensures !Enabled(s, Begin(id))
  {
    ReachableInv(s);
    Know(s, p);
    if Enabled(s, Begin(id)) {
      assert s.ActiveOn(p, s.mu.attempt.repo);
    }
  }

  /** A late release never frees a successor's slot. */
  lemma ReleaseSparesOthers(s: State, id: RunId, r: RepoId)
    requires Reachable(s) && Enabled(s, Finish(id))
    requires r in s.active && s.active[r] != id
    ensures r in Apply(s, Finish(id)).active && Apply(s, Finish(id)).active[r] == s.active[r]
  {
    ReachableInv(s);
    Know(s, id);
    assert SlotOk(s, r);
  }

  // ---- a record's life -------------------------------------------------------

  /** The runs table after a step. */
  ghost predicate DbStep(s: State, step: Step, s': State) {
    match step {
      case Begin(id) => s.mu.Held? &&
        s'.db == s.db[id := Record(s.mu.attempt.kind, Starting, s.mu.attempt.repo, s.mu.attempt.job, None)]
      case SetRunning(id) => id in s.db && s'.db == s.db[id := s.db[id].(status := Running)]
      case Finalize(id) =>
        && id in s.db && id in s.live && id in s.drivers && s.drivers[id].phase.Named?
        && s'.db == s.db[id := s.db[id].(status := s.drivers[id].phase.status, followUp := s.live[id].followUp)]
      case ReconcileRun(id) => id in s.db && s'.db == s.db[id := s.db[id].(status := Interrupted)]
      case Prune(gone) => s'.db == s.db - gone
      case _ => s'.db == s.db
    }
  }

  lemma OwnDbAfter(s: State, step: Step)
    requires Inv(s) && Enabled(s, step) && (step.SetRunning? || step.Finalize?)
    ensures DbStep(s, step, Apply(s, step))
  {
    Know(s, step.id);
  }

  lemma DbAfter(s: State, step: Step)
    requires Inv(s) && Enabled(s, step)
    ensures DbStep(s, step, Apply(s, step))
  {
    if step.SetRunning? || step.Finalize? {
      OwnDbAfter(s, step);
    } else if step.CheckHolder? || step.ScanActive? {
      AttemptDbAfter(s);
    } else if step.NameFollowUp? || step.NoFollowUp? || step.Classify? {
      FollowDbAfter(s, step);
    } else if !step.Begin? && !step.ReconcileRun? && !step.Prune? {
      OtherDbAfter(s, step);
    }
  }

  lemma GiveUpDb(s: State)
    requires s.mu.Held?
    ensures GiveUp(s).db == s.db
  {
    match s.mu.attempt.prev
    case None => assert GiveUp(s) == s.(mu := Free);
    case Some(p) => assert p in s.drivers || GiveUp(s) == s.(mu := Free);
  }

  lemma AttemptDbAfter(s: State)
    requires s.mu.Held?
    ensures s.mu.stage == Entered ==> Apply(s, CheckHolder).db == s.db
    ensures s.mu.stage == HolderChecked ==> Apply(s, ScanActive).db == s.db
  {
    GiveUpDb(s);
  }

  lemma FollowDbAfter(s: State, step: Step)
    requires Enabled(s, step) && (step.NameFollowUp? || step.NoFollowUp? || step.Classify?)
    ensures Apply(s, step).db == s.db
  {
  }

  lemma OtherDbAfter(s: State, step: Step)
    requires Enabled(s, step)
    requires step.Lock? || step.Effect? || step.Return? || step.Finish? || step.MarkStopped? || step.CancelContext?
             || step.Close? || step.Crash? || step.Boot?
    ensures Apply(s, step).db == s.db
  {
  }

  lemma RecordStep(s: State, step: Step, s': State, id: RunId)
    requires Inv(s) && Enabled(s, step) && DbStep(s, step, s') && id in s.db && id in s'.db
    ensures s'.db[id].status.Rank() >= s.db[id].status.Rank()
    ensures s'.db[id].kind == s.db[id].kind && s'.db[id].repo == s.db[id].repo
    ensures s.db[id].status.Terminal() ==> s'.db[id] == s.db[id]
  {
    Know(s, id);
  }

  /** A record that a step adds has a new id. */
  lemma IdsGrow(s: State, step: Step, s': State, id: RunId)
    requires Enabled(s, step) && DbStep(s, step, s') && id in s'.db && id !in s.db
    ensures id >= s.nextId
  {
  }

  // ---- a driver's life ---------------------------------------------------------

  /** Where a driver can stand one step later. */
  ghost predicate Advances(d: Driver, d': Driver, started: Option<RunId>) {
    && (d.stopped ==> d'.stopped)
    && (d'.phase != d.phase ==>
          match d.phase
          case Launched => d'.phase == Executing
          case Executing => d'.phase.Returned?
          case Returned(o) => d'.phase == Classified(ClassifyRun(d.stopped, d.canceled, o).0)
          case Classified(st) => d'.phase == FollowedUp(st, started)
          case FollowedUp(st, n) => d'.phase == Named(st, n)
          case Named(_, _) => d'.phase == Finalized
          case Finalized => false)
  }

  /** One run's driver, its follow-up and the id counter after a step. */
  ghost predicate DriverStep(s: State, step: Step, s': State, id: RunId) {
    var started := if step.Begin? && s.mu.Held? && s.mu.attempt.prev == Some(id) then Some(step.id) else None;
    && s.nextId <= s'.nextId
    && (s'.up == ((s.up && !step.Crash?) || step.Boot?))
    && (id in s'.drivers && id !in s.drivers ==> step == Begin(id))
    && (id in s'.drivers && id in s.drivers ==> Advances(s.drivers[id], s'.drivers[id], started))
    && (if started.Some?
        then id in s'.follows && Some(s'.follows[id]) == started && id in s'.drivers && s'.drivers[id].phase.FollowedUp?
        else (id in s'.follows <==> id in s.follows) && (id in s.follows ==> s'.follows[id] == s.follows[id]))
  }

  lemma BeginDriverStep(s: State, n: RunId, id: RunId)
    requires Inv(s) && Enabled(s, Begin(n))
    ensures DriverStep(s, Begin(n), Begun(s, n), id)
  {
    Know(s, id);
    Know(s, n);
    if s.mu.attempt.prev.Some? { Know(s, s.mu.attempt.prev.value); }
  }

  lemma AttemptDriverStep(s: State, step: Step, id: RunId)
    requires Inv(s) && Enabled(s, step) && (step.CheckHolder? || step.ScanActive?)
    ensures DriverStep(s, step, Apply(s, step), id)
  {
    Know(s, id);
  }

  lemma RunningDriverStep(s: State, n: RunId, id: RunId)
    requires Inv(s) && Enabled(s, SetRunning(n))
    ensures DriverStep(s, SetRunning(n), SetToRunning(s, n), id)
  {
    Know(s, n);
  }

  lemma NamingDriverStep(s: State, n: RunId, id: RunId)
    requires Inv(s) && Enabled(s, NameFollowUp(n))
    ensures DriverStep(s, NameFollowUp(n), NameNext(s, n), id)
  {
    Know(s, n);
  }

  lemma LastDriverStep(s: State, step: Step, id: RunId)
    requires Inv(s) && Enabled(s, step) && (step.Finalize? || step.Finish?)
    ensures DriverStep(s, step, Apply(s, step), id)
  {
    Know(s, id);
    Know(s, step.id);
  }

  lemma DriverAfter(s: State, step: Step, id: RunId)
    requires Inv(s) && Enabled(s, step)
    ensures DriverStep(s, step, Apply(s, step), id)
  {
    if step.Begin? {
      BeginDriverStep(s, step.id, id);
    } else if step.CheckHolder? || step.ScanActive? {
      AttemptDriverStep(s, step, id);
    } else if step.SetRunning? {
      RunningDriverStep(s, step.id, id);
    } else if step.NameFollowUp? {
      NamingDriverStep(s, step.id, id);
    } else if step.Finalize? || step.Finish? {
      LastDriverStep(s, step, id);
    } else {
      Know(s, id);
    }
  }

  /** Over any run a record's status only moves starting, running, terminal; a
      terminal record never changes again, and its id never comes back. */
  lemma {:induction false} StatusMonotone(s: State, steps: seq<Step>, id: RunId)
    requires Inv(s) && CanRun(s, steps)
    requires id < s.nextId
    ensures id in Run(s, steps).db ==>
              && id in s.db
              && Run(s, steps).db[id].status.Rank() >= s.db[id].status.Rank()
              && (s.db[id].status.Terminal() ==> Run(s, steps).db[id] == s.db[id])
    decreases |steps|
  {
    if steps != [] {
      var s' := Apply(s, steps[0]);
      InvStep(s, steps[0]);
      DbAfter(s, steps[0]);
      DriverAfter(s, steps[0], id);
      StatusMonotone(s', steps[1..], id);
      if id in s'.db {
        if id in s.db { RecordStep(s, steps[0], s', id); } else { IdsGrow(s, steps[0], s', id); }
      }
    }
  }

  // ---- active records, the process up or down --------------------------------------

  /** n is the retention run that backup p started. */
  ghost predicate Linked(s: State, p: RunId, n: RunId) {
    && p in s.db && n in s.db && s.db[p].kind == Backup && s.db[n].kind == Retention
    && p in s.follows && s.follows[p] == n
  }

  ghost predicate PairOk(s: State, a: RunId, b: RunId) {
    a != b && s.IsActive(a) && s.IsActive(b) && s.db[a].repo == s.db[b].repo ==> Linked(s, a, b) || Linked(s, b, a)
  }

  lemma PairUp(s: State, a: RunId, b: RunId)
    requires Inv(s) && s.up
    ensures PairOk(s, a, b)
  {
    if a != b && s.IsActive(a) && s.IsActive(b) && s.db[a].repo == s.db[b].repo {
      ActivePair(s, a, b);
      Know(s, a);
      Know(s, b);
    }
  }

  /** Steps after which the process is down only end records or remove them. */
  lemma DownStep(s: State, step: Step, s': State, id: RunId)
    requires Inv(s) && Enabled(s, step) && DbStep(s, step, s') && (step.Crash? || step.ReconcileRun? || step.Prune?)
    ensures id in s'.db ==> id in s.db && s'.db[id].kind == s.db[id].kind && s'.db[id].repo == s.db[id].repo
    ensures s'.IsActive(id) ==> s.IsActive(id)
  {
  }

  lemma PairDown(s: State, step: Step, a: RunId, b: RunId)
    requires Inv(s) && Enabled(s, step) && PairOk(s, a, b) && (step.Crash? || step.ReconcileRun? || step.Prune?)
    ensures PairOk(Apply(s, step), a, b)
  {
    DbAfter(s, step);
    DownStep(s, step, Apply(s, step), a);
    DownStep(s, step, Apply(s, step), b);
    DriverAfter(s, step, a);
    DriverAfter(s, step, b);
  }

  lemma PairStep(s: State, step: Step, a: RunId, b: RunId)
    requires Inv(s) && Enabled(s, step) && PairOk(s, a, b)
    ensures PairOk(Apply(s, step), a, b)
  {
    if step.Crash? || step.ReconcileRun? || step.Prune? {
      PairDown(s, step, a, b);
    } else {
      InvStep(s, step);
      if !s.up { WhileDown(s, step); }
      DriverAfter(s, step, a);
      PairUp(Apply(s, step), a, b);
    }
  }

  lemma {:induction false} PairRun(s: State, steps: seq<Step>, a: RunId, b: RunId)
    requires Inv(s) && CanRun(s, steps) && PairOk(s, a, b)
    ensures PairOk(Run(s, steps), a, b)
    decreases |steps|
  {
    if steps != [] {
      InvStep(s, steps[0]);
      PairStep(s, steps[0], a, b);
      PairRun(Apply(s, steps[0]), steps[1..], a, b);
    }
  }

  /** Whether the process is up, has crashed or is restarting: two active records
      on one repository are a backup and the retention run it started. */
  lemma TwoActiveLinked(s: State, a: RunId, b: RunId)
    requires Reachable(s)
    requires a != b && s.IsActive(a) && s.IsActive(b) && s.db[a].repo == s.db[b].repo
    ensures Linked(s, a, b) || Linked(s, b, a)
  {
    var steps :| CanRun(INIT, steps) && Run(INIT, steps) == s;
    InvInit();
    PairRun(INIT, steps, a, b);
  }

  /** In every reachable state a repository has at most two active records. */
  lemma AtMostTwoActive(s: State, a: RunId, b: RunId, c: RunId)
    requires Reachable(s)
    requires s.IsActive(a) && s.IsActive(b) && s.IsActive(c)
    requires s.db[a].repo == s.db[b].repo == s.db[c].repo
    ensures a == b || b == c || a == c
  {
    if a != b && b != c && a != c {
      TwoActiveLinked(s, a, b);
      TwoActiveLinked(s, b, c);
      TwoActiveLinked(s, a, c);
    }
  }

  // ---- building runs -----------------------------------------------------------

  lemma {:induction false} RunExtend(s: State, steps: seq<Step>, step: Step)
    requires CanRun(s, steps) && Enabled(Run(s, steps), step)
    ensures CanRun(s, steps + [step]) && Run(s, steps + [step]) == Apply(Run(s, steps), step)
    decreases |steps|
  {
    if steps == [] {
      assert steps + [step] == [step];
      assert [step][1..] == [];
    } else {
      assert (steps + [step])[1..] == steps[1..] + [step];
      RunExtend(Apply(s, steps[0]), steps[1..], step);
    }
  }

  lemma ReachableStep(s: State, step: Step)
    requires Reachable(s) && Enabled(s, step)
    ensures Reachable(Apply(s, step))
  {
    var steps :| CanRun(INIT, steps) && Run(INIT, steps) == s;
    RunExtend(INIT, steps, step);
  }

  // ---- when a start goes through ---------------------------------------------

  /** Every starting or running record of the repository is that of the run this
      one follows. */
  ghost predicate OthersDone(s: State, a: Attempt) {
    forall id | id in s.db && s.db[id].repo == a.repo && s.db[id].status in {Starting, RunStatus.Running} :: a.prev == Some(id)
  }

  /** Nothing is in the way exactly then: the slot of a run that is final already
      does not count, and a backup that handed its slot on does. */
  lemma ChecksExactly(s: State, a: Attempt)
    requires Inv(s) && s.up
    requires Enabled(s.(mu := Free, closing := false), Lock(a))
    ensures HolderOk(s, a) && ScanOk(s, a) <==> OthersDone(s, a)
  {
    if a.repo in s.active {
      assert SlotOk(s, a.repo);
      Know(s, s.active[a.repo]);
    }
    if a.prev.Some? { Know(s, a.prev.value); }
    if HolderOk(s, a) && ScanOk(s, a) {
      forall id | id in s.db && s.db[id].repo == a.repo && s.db[id].status in {Starting, RunStatus.Running} ensures a.prev == Some(id) {
        assert s.ActiveOn(id, a.repo);
      }
    }
    if OthersDone(s, a) {
      forall id | id in s.db && s.ActiveOn(id, a.repo) ensures a.repo in s.active && s.active[a.repo] == id {
        assert s.db[id].status in {Starting, RunStatus.Running};
      }
    }
  }

  function StartSteps(a: Attempt, id: RunId): seq<Step> {
    [Lock(a), CheckHolder, ScanActive, Begin(id)]
  }

  lemma RunFirst(s: State, step: Step, rest: seq<Step>)
    ensures CanRun(s, [step] + rest) <==> Enabled(s, step) && CanRun(Apply(s, step), rest)
  {
    assert ([step] + rest)[1..] == rest;
  }

  /** The checks look at nothing that a change of the mutex changes. */
  lemma ChecksAlike(s: State, a: Attempt, mu: Mutex)
    ensures HolderOk(s.(mu := mu), a) == HolderOk(s, a) && ScanOk(s.(mu := mu), a) == ScanOk(s, a)
  {
    var s' := s.(mu := mu);
    assert forall x :: s'.ActiveOn(x, a.repo) == s.ActiveOn(x, a.repo);
  }

  lemma BeginNow(s: State, id: RunId)
    ensures CanRun(s, [Begin(id)]) <==> Enabled(s, Begin(id))
  {
    if Enabled(s, Begin(id)) {
      RunFirst(s, Begin(id), []);
      assert [Begin(id)] + [] == [Begin(id)];
    }
  }

  lemma ScanThenBegin(s: State, a: Attempt, id: RunId)
    requires s.mu == Held(a, HolderChecked) && s.nextId <= id
    ensures CanRun(s, [ScanActive, Begin(id)]) <==> ScanOk(s, a)
  {
    RunFirst(s, ScanActive, [Begin(id)]);
    BeginNow(Apply(s, ScanActive), id);
  }

  lemma HolderThenScan(s: State, a: Attempt, id: RunId)
    requires s.mu == Held(a, Entered) && s.nextId <= id
    ensures CanRun(s, [CheckHolder, ScanActive, Begin(id)]) <==> HolderOk(s, a) && ScanOk(s, a)
  {
    RunFirst(s, CheckHolder, [ScanActive, Begin(id)]);
    if HolderOk(s, a) {
      var s' := s.(mu := Held(a, HolderChecked));
      ChecksAlike(s, a, s'.mu);
      ScanThenBegin(s', a, id);
    } else {
      RunFirst(GiveUp(s), ScanActive, [Begin(id)]);
    }
  }

  lemma CanStart(s: State, a: Attempt, id: RunId)
    requires s.nextId <= id && Enabled(s, Lock(a))
    ensures CanRun(s, StartSteps(a, id)) <==> HolderOk(s, a) && ScanOk(s, a)
  {
    var s' := s.(mu := Held(a, Entered));
    RunFirst(s, Lock(a), [CheckHolder, ScanActive, Begin(id)]);
    ChecksAlike(s, a, s'.mu);
    HolderThenScan(s', a, id);
  }

  /** In every reachable state with the mutex free and no shutdown begun, the start
      of a run goes through if and only if the other runs of its repository are
      done. */
  lemma StartsExactly(s: State, a: Attempt, id: RunId)
    requires Reachable(s) && Enabled(s, Lock(a)) && s.nextId <= id
    ensures CanRun(s, StartSteps(a, id)) <==> OthersDone(s, a)
  {
    ReachableInv(s);
    assert s.(mu := Free, closing := false) == s;
    ChecksExactly(s, a);
    CanStart(s, a, id);
  }

  /** An uncontended start: the four steps of startRunAfter back to back. */
  lemma ReachableStart(s: State, a: Attempt, id: RunId) returns (s': State)
    requires Reachable(s) && Enabled(s, Lock(a)) && s.nextId <= id
    requires HolderOk(s, a) && ScanOk(s, a)
    ensures s' == Begun(s.(mu := Held(a, Scanned)), id) && Reachable(s')
  {
    ReachableStep(s, Lock(a));
    var s1 := s.(mu := Held(a, Entered));
    ChecksAlike(s, a, s1.mu);
    ReachableStep(s1, CheckHolder);
    var s2 := s.(mu := Held(a, HolderChecked));
    ChecksAlike(s, a, s2.mu);
    ReachableStep(s2, ScanActive);
    s' := Begun(s.(mu := Held(a, Scanned)), id);
    ReachableStep(s.(mu := Held(a, Scanned)), Begin(id));
  }

  lemma InitReachable()
    ensures Reachable(INIT)
  {
    assert CanRun(INIT, []) && Run(INIT, []) == INIT;
  }

  // ---- stopping ------------------------------------------------------------------

  ghost predicate DoomedDriver(s: State, id: RunId) {
    id in s.drivers ==>
      var d := s.drivers[id];
      && (d.phase.BeforeClassify() ==> d.stopped)
      && (!d.phase.BeforeClassify() && !d.phase.Finalized? ==> d.phase.status == Canceled && d.phase.Next() == None)
  }

  ghost predicate DoomedRecord(s: State, id: RunId, crashed: bool) {
    id in s.db && s.db[id].status.Terminal() ==>
      (s.db[id].status == Canceled || (crashed && s.db[id].status == Interrupted)) && s.db[id].followUp == None
  }

  /** A run on its way to canceled: stopped before it was classified, it has
      started nothing, and it is canceled once classified. */
  ghost predicate Doomed(s: State, id: RunId, crashed: bool) {
    id < s.nextId && id !in s.follows && (!crashed ==> s.up) && DoomedDriver(s, id) && DoomedRecord(s, id, crashed)
  }

  lemma DoomedDriverStep(s: State, step: Step, s': State, id: RunId)
    requires Inv(s) && Enabled(s, step) && DriverStep(s, step, s', id)
    requires id < s.nextId && id !in s.follows && DoomedDriver(s, id)
    ensures s.nextId <= s'.nextId && id !in s'.follows && DoomedDriver(s', id)
  {
    if s.mu.Held? && s.mu.attempt.prev == Some(id) { assert MutexOk(s); }
  }

  lemma DoomedRecordStep(s: State, step: Step, s': State, id: RunId, crashed: bool)
    requires Inv(s) && Enabled(s, step) && DbStep(s, step, s')
    requires Doomed(s, id, crashed)
    ensures DoomedRecord(s', id, crashed)
  {
    Know(s, id);
  }

  lemma DoomedStep(s: State, step: Step, s': State, id: RunId, crashed: bool)
    requires Inv(s) && Enabled(s, step) && DbStep(s, step, s') && DriverStep(s, step, s', id)
    requires Doomed(s, id, crashed)
    ensures Doomed(s', id, crashed || step.Crash?)
  {
    DoomedDriverStep(s, step, s', id);
    DoomedRecordStep(s, step, s', id, crashed);
  }

  /** A run stopped before it is classified ends canceled (or interrupted, if the
      process crashes first) and starts no retention run, whatever happens next. */
  lemma {:induction false} StoppedEndsCanceled(s: State, steps: seq<Step>, id: RunId, crashed: bool)
    requires Inv(s) && CanRun(s, steps) && Doomed(s, id, crashed)
    ensures Doomed(Run(s, steps), id, crashed || Crash in steps)
    decreases |steps|
  {
    if steps != [] {
      InvStep(s, steps[0]);
      DbAfter(s, steps[0]);
      DriverAfter(s, steps[0], id);
      DoomedStep(s, steps[0], Apply(s, steps[0]), id, crashed);
      StoppedEndsCanceled(Apply(s, steps[0]), steps[1..], id, crashed || steps[0].Crash?);
    }
  }

  lemma StopBeforeClassify(s: State, steps: seq<Step>, id: RunId)
    requires Reachable(s) && CanRun(s, steps)
    requires id in s.drivers && s.drivers[id].stopped && s.drivers[id].phase.BeforeClassify()
    ensures var s' := Run(s, steps);
            && id !in s'.follows
            && (id in s'.db && s'.db[id].status.Terminal() ==>
                  && s'.db[id].followUp == None
                  && (s'.db[id].status == Canceled || (Crash in steps && s'.db[id].status == Interrupted)))
  {
    ReachableInv(s);
    Know(s, id);
    assert Doomed(s, id, false);
    StoppedEndsCanceled(s, steps, id, false);
  }

  // ---- stopping too late -----------------------------------------------------------

  ghost predicate SettledIn(s: State, id: RunId, status: RunStatus) {
    id in s.drivers ==>
      && !s.drivers[id].phase.BeforeClassify()
      && (!s.drivers[id].phase.Finalized? ==> s.drivers[id].phase.status == status)
  }

  /** Once classified, a run has its final status: its driver carries it to the
      record, which shows it or, after a crash, that the run was interrupted. */
  ghost predicate Settled(s: State, id: RunId, status: RunStatus, crashed: bool) {
    && id < s.nextId && (!crashed ==> s.up)
    && SettledIn(s, id, status)
    && (id in s.db && s.db[id].status.Terminal() ==>
          s.db[id].status == status || (crashed && s.db[id].status == Interrupted))
  }

  lemma SettledDriver(s: State, step: Step, s': State, id: RunId, status: RunStatus)
    requires Enabled(s, step) && DriverStep(s, step, s', id) && id < s.nextId
    requires SettledIn(s, id, status)
    ensures SettledIn(s', id, status)
  {
  }

  lemma SettledStep(s: State, step: Step, s': State, id: RunId, status: RunStatus, crashed: bool)
    requires Inv(s) && Enabled(s, step) && DbStep(s, step, s') && DriverStep(s, step, s', id)
    requires Settled(s, id, status, crashed)
    ensures Settled(s', id, status, crashed || step.Crash?)
  {
    SettledDriver(s, step, s', id, status);
    Know(s, id);
  }

  lemma {:induction false} SettledStays(s: State, steps: seq<Step>, id: RunId, status: RunStatus, crashed: bool)
    requires Inv(s) && CanRun(s, steps) && Settled(s, id, status, crashed)
    ensures Settled(Run(s, steps), id, status, crashed || Crash in steps)
    decreases |steps|
  {
    if steps != [] {
      InvStep(s, steps[0]);
      DbAfter(s, steps[0]);
      DriverAfter(s, steps[0], id);
      SettledStep(s, steps[0], Apply(s, steps[0]), id, status, crashed);
      SettledStays(Apply(s, steps[0]), steps[1..], id, status, crashed || steps[0].Crash?);
    }
  }

  /** The status a run that is classified already has or will have. */
  ghost function DecidedStatus(s: State, id: RunId): RunStatus
    requires id in s.drivers && !s.drivers[id].phase.BeforeClassify()
    requires s.drivers[id].phase.Finalized? ==> id in s.db
  {
    if s.drivers[id].phase.Finalized? then s.db[id].status else s.drivers[id].phase.status
  }

  /** A stop accepted after classification changes nothing: the run ends as it was
      classified, or interrupted if the process crashes first. */
  lemma LateStopIgnored(s: State, steps: seq<Step>, id: RunId)
    requires Reachable(s) && id in s.drivers && id in s.db && !s.drivers[id].phase.BeforeClassify()
    requires CanRun(s, steps)
    ensures var s' := Run(s, steps);
            id in s'.db && s'.db[id].status.Terminal() ==>
              s'.db[id].status == DecidedStatus(s, id) || (Crash in steps && s'.db[id].status == Interrupted)
  {
    ReachableInv(s);
    Know(s, id);
    assert Settled(s, id, DecidedStatus(s, id), false);
    SettledStays(s, steps, id, DecidedStatus(s, id), false);
  }

  /** A stopped run that no crash interrupts ends canceled if and only if the stop
      came before its classification, or that was canceled anyway. */
  lemma StopDecidesExactly(s: State, steps: seq<Step>, id: RunId)
    requires Reachable(s) && id in s.db && Enabled(s, MarkStopped(id)) && CanRun(Apply(s, MarkStopped(id)), steps)
    requires var s' := Run(Apply(s, MarkStopped(id)), steps);
             id in s'.db && s'.db[id].status.Terminal() && s'.db[id].status != Interrupted
    ensures Run(Apply(s, MarkStopped(id)), steps).db[id].status == Canceled
            <==> s.drivers[id].phase.BeforeClassify() || DecidedStatus(s, id) == Canceled
  {
    var s1 := Apply(s, MarkStopped(id));
    ReachableStep(s, MarkStopped(id));
    if s.drivers[id].phase.BeforeClassify() {
      StopBeforeClassify(s1, steps, id);
    } else {
      LateStopIgnored(s1, steps, id);
    }
  }
}
