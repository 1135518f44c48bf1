/** The coordinator and run store as an object: each operation carried out in one
    go, its effect stated in terms of the run engine's steps. */
module Coordination {
  import opened RunModel
  import opened RunEngine
  import opened RunInvariant
  import opened RunSafety

  datatype StartResult = Started | ShuttingDown | Busy(blocking: RunId)

  datatype StopResult = NotActive | Stopping | Signalled

  // Each operation keeps the invariant because it is a run of the machine.

  lemma StartKeeps(s: State, a: Attempt, id: RunId)
    requires Inv(s) && Enabled(s, Lock(a)) && s.nextId <= id && HolderOk(s, a) && ScanOk(s, a)
    ensures Inv(Begun(s.(mu := Held(a, Scanned)), id))
    ensures a.prev.Some? ==> a.prev.value in s.drivers && s.drivers[a.prev.value].phase.Classified? && a.prev.value != id
  {
    InvStep(s, Lock(a));
    var s1 := s.(mu := Held(a, Entered));
    ChecksAlike(s, a, s1.mu);
    InvStep(s1, CheckHolder);
    var s2 := s.(mu := Held(a, HolderChecked));
    ChecksAlike(s, a, s2.mu);
    InvStep(s2, ScanActive);
    InvStep(s.(mu := Held(a, Scanned)), Begin(id));
    if a.prev.Some? { Know(s, a.prev.value); }
  }

  lemma SkipKeeps(s: State, p: RunId)
    requires Inv(s) && s.mu.Free? && p in s.drivers && s.drivers[p].phase.Classified?
    ensures Inv(s.WithPhase(p, FollowedUp(s.drivers[p].phase.status, None)))
  {
    InvStep(s, NoFollowUp(p));
  }

  lemma ClassifyKeeps(s: State, id: RunId, o: Outcome)
    requires Inv(s) && s.mu.Free? && id in s.drivers && s.drivers[id].phase.Executing?
    ensures Inv(s.WithPhase(id, Classified(ClassifyRun(s.drivers[id].stopped, s.drivers[id].canceled, o).0)))
  {
    InvStep(s, Return(id, o));
    InvStep(s.WithPhase(id, Returned(o)), Classify(id));
    assert Apply(s.WithPhase(id, Returned(o)), Classify(id)) ==
           s.WithPhase(id, Classified(ClassifyRun(s.drivers[id].stopped, s.drivers[id].canceled, o).0));
  }

  lemma StopKeeps(s: State, id: RunId)
    requires Inv(s) && s.mu.Free? && id in s.drivers && id in s.active.Values
    ensures Inv(s.(drivers := s.drivers[id := s.drivers[id].(stopped := true, canceled := true)]))
  {
    InvStep(s, MarkStopped(id));
    var s1 := Apply(s, MarkStopped(id));
    InvStep(s1, CancelContext(id));
    assert Apply(s1, CancelContext(id)) == s.(drivers := s.drivers[id := s.drivers[id].(stopped := true, canceled := true)]);
  }

  lemma CloseKeeps(s: State)
    requires Inv(s) && s.mu.Free? && s.up
    ensures Inv(s.(closing := true))
  {
    InvStep(s, Close);
  }

  lemma CrashKeeps(s: State)
    requires Inv(s) && s.mu.Free? && s.up
    ensures Inv(s.(up := false, live := map[], active := map[], closing := false, drivers := map[]))
  {
    InvStep(s, Crash);
  }

  lemma ReconcileKeeps(s: State, id: RunId)
    requires Inv(s) && !s.up && s.IsActive(id)
    ensures Inv(s.(db := s.db[id := s.db[id].(status := Interrupted)]))
  {
    InvStep(s, ReconcileRun(id));
  }

  lemma BootKeeps(s: State)
    requires Inv(s) && !s.up && forall id | id in s.db :: !s.IsActive(id)
    ensures Inv(s.(up := true))
  {
    InvStep(s, Boot);
  }

  lemma NoFollowUpYet(s: State, id: RunId)
    requires Inv(s) && id in s.db && id in s.drivers && s.drivers[id].phase.BeforeFollowUp()
    ensures s.db[id].followUp == None && id < s.nextId && s.Holds(id)
  {
    Know(s, id);
  }

  /** Only a run's own repository can have it in its slot. */
  lemma SlotsOf(s: State, id: RunId)
    requires Inv(s) && id in s.db
    ensures forall r | r in s.active && s.active[r] == id :: s.Holds(id) && r == s.db[id].repo
  {
    forall r | r in s.active && s.active[r] == id ensures s.Holds(id) && r == s.db[id].repo { assert SlotOk(s, r); }
  }

  lemma HolderRecord(s: State, r: RepoId)
    requires Inv(s) && r in s.active
    ensures var id := s.active[r];
            id in s.db && s.db[id].repo == r && s.Get(id).Some? && s.Get(id).value.status == s.db[id].status
  {
    assert SlotOk(s, r);
    Know(s, s.active[r]);
  }

  /** The run that an attempt follows still holds its own repository's slot. */
  lemma FollowedHolds(s: State, a: Attempt)
    requires Inv(s) && Enabled(s.(closing := false), Lock(a)) && a.prev.Some?
    ensures s.Holds(a.prev.value)
  {
    Know(s, a.prev.value);
  }

  lemma NameNextIs(s: State, id: RunId)
    requires Inv(s) && id in s.drivers && s.drivers[id].phase.FollowedUp?
    ensures id in s.live && id in s.db && s.live[id] == s.db[id].(followUp := s.live[id].followUp)
    ensures s.drivers[id].phase.next == None ==> s.live[id].followUp == None
    ensures var ph := s.drivers[id].phase;
            NameNext(s, id) == s.(live := s.live[id := s.live[id].(followUp := ph.next)],
                                  drivers := s.drivers[id := s.drivers[id].(phase := Named(ph.status, ph.next))])
  {
    Know(s, id);
    assert s.live[id := s.live[id]] == s.live;
  }

  lemma MakeFinalIs(s: State, id: RunId)
    requires id in s.drivers && s.drivers[id].phase.Named? && id in s.live
    ensures MakeFinal(s, id) == s.(db := s.db[id := s.live[id].(status := s.drivers[id].phase.status)],
                                   live := s.live - {id},
                                   drivers := s.drivers[id := s.drivers[id].(phase := Finalized)])
  {
    var r := s.live[id].(status := s.drivers[id].phase.status);
    assert s.live[id := r] - {id} == s.live - {id};
  }

  lemma WrapUpEffect(s: State, id: RunId)
    requires Inv(s) && id in s.drivers && s.drivers[id].phase.FollowedUp? && id in s.db
    ensures Release(MakeFinal(NameNext(s, id), id), id) == s.(
              db := s.db[id := s.db[id].(status := s.drivers[id].phase.status, followUp := s.drivers[id].phase.next)],
              live := s.live - {id}, drivers := s.drivers - {id},
              active := if s.Holds(id) then s.active - {s.db[id].repo} else s.active)
  {
    NameNextIs(s, id);
    var named := NameNext(s, id);
    MakeFinalIs(named, id);
    assert named.live - {id} == s.live - {id};
    assert MakeFinal(named, id).drivers - {id} == s.drivers - {id};
  }

  class Coordinator {
    var up: bool
    var db: map<RunId, Record>
    var live: map<RunId, Record>
    var active: map<RepoId, RunId>
    var closing: bool
    var drivers: map<RunId, Driver>
    var nextId: RunId
    ghost var snaps: map<RepoId, set<SnapshotId>>
    ghost var follows: map<RunId, RunId>

    ghost function Abs(): State
      reads this
    {
      State(up, db, live, active, closing, drivers, Free, snaps, nextId, follows)
    }

    ghost predicate Valid()
      reads this
    {
      Inv(Abs())
    }

    constructor ()
      ensures Valid() && Abs() == INIT
    {
      up, closing, nextId := true, false, 0;
      db, live, active, drivers, snaps, follows := map[], map[], map[], map[], map[], map[];
      new;
      InvInit();
    }

    function Get(id: RunId): (r: Option<Record>)
      reads this
      ensures r == Abs().Get(id)
    {
      if id in live then Some(live[id]) else if id in db then Some(db[id]) else None
    }

    predicate RunActive(id: RunId)
      reads this
    {
      Get(id).Some? && !Get(id).value.status.Terminal()
    }

    /** The active records, in no particular order. */
    method ActiveRuns() returns (runs: seq<RunId>)
      ensures forall id :: id in runs <==> Abs().IsActive(id)
    {
      runs := [];
      var todo := db.Keys;
      while todo != {}
        invariant todo <= db.Keys
        invariant forall id :: id in runs <==> Abs().IsActive(id) && id !in todo
      {
        var id :| id in todo;
        if !db[id].status.Terminal() {
          runs := runs + [id];
        }
        todo := todo - {id};
      }
    }

    /** The slot's holder, if it is another run than a follows and not final. */
    ghost function ActiveHolder(a: Attempt): Option<RunId>
      reads this
    {
      if a.repo in active && a.prev != Some(active[a.repo]) && RunActive(active[a.repo]) then Some(active[a.repo]) else None
    }

    /** An active record of the repository other than the holder's. */
    method OtherActive(repo: RepoId) returns (b: Option<RunId>)
      ensures b.None? ==> forall id | id in db && Abs().ActiveOn(id, repo) :: repo in active && active[repo] == id
      ensures b.Some? ==> Abs().ActiveOn(b.value, repo) && !(repo in active && active[repo] == b.value)
    {
      var others := ActiveRuns();
      assert forall k | 0 <= k < |others| :: others[k] in others;
      for i := 0 to |others|
        invariant forall k | 0 <= k < i :: db[others[k]].repo == repo ==> repo in active && active[repo] == others[k]
      {
        if db[others[i]].repo == repo && !(repo in active && active[repo] == others[i]) {
          return Some(others[i]);
        }
      }
      forall id | id in db && Abs().ActiveOn(id, repo) ensures repo in active && active[repo] == id {
        assert id in others;
      }
      return None;
    }

    /** What stands in the way of a start: another run of the repository whose
        record is active, and first of all the slot's holder. */
    method Blocker(a: Attempt) returns (b: Option<RunId>)
      requires Valid()
      requires Enabled(Abs().(closing := false), Lock(a))
      ensures b.None? <==> OthersDone(Abs(), a)
      ensures b.Some? ==> a.prev != b && Abs().ActiveOn(b.value, a.repo)
      ensures ActiveHolder(a).Some? ==> b == ActiveHolder(a)
    {
      if a.repo in active && a.prev != Some(active[a.repo]) {
        HolderRecord(Abs(), a.repo);
        var held := Get(active[a.repo]);
        if held.None? || !held.value.status.Terminal() {
          return Some(active[a.repo]);
        }
      }
      b := OtherActive(a.repo);
      if b.Some? && a.prev == b { FollowedHolds(Abs(), a); }
    }

    /** Records a run, gives it the slot and its driver. */
    method Enter(a: Attempt, id: RunId)
      requires a.prev.Some? ==> a.prev.value in drivers && drivers[a.prev.value].phase.Classified? && a.prev.value != id
      modifies this
      ensures Abs() == Begun(old(Abs()).(mu := Held(a, Scanned)), id)
    {
      var record := Record(a.kind, Starting, a.repo, a.job, None);
      db, live, active, nextId := db[id := record], live[id := record], active[a.repo := id], id + 1;
      drivers := drivers[id := Driver(Launched, false, false)];
      match a.prev {
        case None =>
        case Some(p) =>
          drivers := drivers[p := drivers[p].(phase := FollowedUp(drivers[p].phase.status, Some(id)))];
          follows := follows[p := id];
      }
    }

    method BeginRun(a: Attempt, id: RunId)
      requires Valid() && nextId <= id && Enabled(Abs(), Lock(a))
      requires HolderOk(Abs(), a) && ScanOk(Abs(), a)
      modifies this
      ensures Valid()
      ensures Abs() == Begun(old(Abs()).(mu := Held(a, Scanned)), id)
    {
      StartKeeps(Abs(), a, id);
      Enter(a, id);
    }

    /** Starts a run, or says what is in its way. */
    method StartRunAfter(a: Attempt, id: RunId) returns (r: StartResult)
      requires Valid() && nextId <= id
      requires Enabled(Abs().(closing := false), Lock(a))
      modifies this
      ensures Valid()
      ensures r.ShuttingDown? <==> old(closing)
      ensures r.Started? <==> !old(closing) && OthersDone(old(Abs()), a)
      ensures r.Started? ==> Abs() == Begun(old(Abs()).(mu := Held(a, Scanned)), id)
      ensures !r.Started? ==> Abs() == old(Abs())
      ensures r.Busy? ==> Some(r.blocking) != a.prev && Abs().ActiveOn(r.blocking, a.repo)
      ensures r.Busy? && ActiveHolder(a).Some? ==> Some(r.blocking) == ActiveHolder(a)
    {
      if closing {
        return ShuttingDown;
      }
      assert Abs().(closing := false) == Abs();
      var b := Blocker(a);
      if b.Some? {
        return Busy(b.value);
      }
      ChecksExactly(Abs(), a);
      BeginRun(a, id);
      return Started;
    }

    /** The retention run a classified backup calls for, started in its slot.
        `retention` is the repository the job's enabled policy applies to. */
    method StartFollowUp(p: RunId, retention: Option<RepoId>, id: RunId) returns (next: Option<RunId>)
      requires Valid() && up && nextId <= id
      requires p in db && p in drivers && drivers[p].phase.Classified?
      modifies this
      ensures Valid()
      ensures next.Some? <==>
                && old(drivers[p].phase.status) in {Success, SuccessWarnings}
                && old(db[p].kind) == Backup && old(db[p].job).Some? && retention.Some? && !old(closing)
                && OthersDone(old(Abs()), Attempt(Some(p), Retention, retention.value, old(db[p].job)))
      ensures next.Some? ==> next == Some(id)
      ensures next.Some? ==>
                Abs() == Begun(old(Abs()).(mu := Held(Attempt(Some(p), Retention, retention.value, old(db[p].job)), Scanned)), id)
      ensures next.None? ==> Abs() == old(Abs()).WithPhase(p, FollowedUp(old(drivers[p].phase.status), None))
      ensures old(db[p].kind == Backup && drivers[p].phase.status.Succeeded() && db[p].job.Some? && !closing) ==>
                retention == Some(old(db[p].repo)) ==> next.Some?
    {
      ghost var s := Abs();
      Know(s, p);
      var status := drivers[p].phase.status;
      next := None;
      var run := Get(p);
      if run.Some? && run.value.kind == Backup && status.Succeeded() && run.value.job.Some? && retention.Some? {
        var a := Attempt(Some(p), Retention, retention.value, run.value.job);
        var r := StartRunAfter(a, id);
        if retention.value == run.value.repo {
          AloneBeforeFollowUp(s, p);
        }
        if r.Started? {
          return Some(id);
        }
      }
      SkipKeeps(s, p);
      drivers := drivers[p := drivers[p].(phase := FollowedUp(status, None))];
    }

    method SetRunning(id: RunId)
      requires Valid() && id in drivers && drivers[id].phase.Launched?
      modifies this
      ensures Valid() && Abs() == SetToRunning(old(Abs()), id)
    {
      ghost var s := Abs();
      Know(s, id);
      RunningKeeps(s, id);
      var r := live[id].(status := RunStatus.Running);
      live, db := live[id := r], db[id := r];
      drivers := drivers[id := drivers[id].(phase := Executing)];
    }

    /** The run's work has returned; its terminal status is decided here. */
    method Classify(id: RunId, o: Outcome) returns (status: RunStatus)
      requires Valid() && id in drivers && drivers[id].phase.Executing?
      modifies this
      ensures Valid() && Abs() == old(Abs()).WithPhase(id, Classified(status))
      ensures status == ClassifyRun(old(drivers[id].stopped), old(drivers[id].canceled), o).0
    {
      ghost var s := Abs();
      ClassifyKeeps(s, id, o);
      status := ClassifyRun(drivers[id].stopped, drivers[id].canceled, o).0;
      drivers := drivers[id := drivers[id].(phase := Classified(status))];
    }

    /** Names the run that follows in the in-process record. */
    method NameFollowUp(id: RunId)
      requires Valid() && id in drivers && drivers[id].phase.FollowedUp?
      modifies this
      ensures Valid() && Abs() == NameNext(old(Abs()), id)
    {
      ghost var s := Abs();
      NamedKeeps(s, id);
      var FollowedUp(status, next) := drivers[id].phase;
      var run := Get(id);
      if next.Some? && run.Some? {
        live := live[id := run.value.(followUp := next)];
      }
      drivers := drivers[id := drivers[id].(phase := Named(status, next))];
    }

    /** Writes the final record and drops the in-process one. */
    method Finalize(id: RunId)
      requires Valid() && id in drivers && drivers[id].phase.Named?
      modifies this
      ensures Valid() && Abs() == MakeFinal(old(Abs()), id)
    {
      Know(Abs(), id);
      FinalKeeps(Abs(), id);
      MakeFinalIs(Abs(), id);
      var run := Get(id);
      db := db[id := run.value.(status := drivers[id].phase.status)];
      live := live - {id};
      drivers := drivers[id := drivers[id].(phase := Finalized)];
    }

    /** Frees the slot if it is still this run's. */
    method Finish(id: RunId)
      requires Valid() && id in drivers && drivers[id].phase.Finalized?
      modifies this
      ensures Valid() && Abs() == Release(old(Abs()), id)
    {
      ghost var s := Abs();
      Know(s, id);
      ReleaseKeeps(s, id);
      var repo := db[id].repo;
      if repo in active && active[repo] == id {
        active := active - {repo};
      }
      drivers := drivers - {id};
    }

    /** The end of a run: name the run that follows, write the final record,
        release the slot. */
    method WrapUp(id: RunId)
      requires Valid() && id in drivers && drivers[id].phase.FollowedUp? && id in db
      modifies this
      ensures Valid()
      ensures Abs() == old(Abs()).(
                db := old(db)[id := old(db[id]).(status := old(drivers[id].phase.status), followUp := old(drivers[id].phase.next))],
                live := old(live) - {id}, drivers := old(drivers) - {id},
                active := if old(Abs()).Holds(id) then old(active) - {old(db[id].repo)} else old(active))
    {
      WrapUpEffect(Abs(), id);
      NameFollowUp(id);
      Finalize(id);
      Finish(id);
    }

    /** A launched run's work, from the running status to its classification. */
    method Work(id: RunId, o: Outcome) returns (status: RunStatus)
      requires Valid() && id in drivers && drivers[id].phase.Launched? && id in db
      modifies this
      ensures Valid() && status == ClassifyRun(old(drivers[id].stopped), old(drivers[id].canceled), o).0
      ensures up == old(up) && active == old(active) && closing == old(closing) && nextId == old(nextId)
      ensures db == old(db)[id := old(db[id]).(status := RunStatus.Running)]
      ensures drivers == old(drivers)[id := old(drivers[id]).(phase := Classified(status))]
    {
      Know(Abs(), id);
      SetRunning(id);
      status := Classify(id, o);
    }

    /** A run from its launch to its end, with nothing in between. */
    method Drive(id: RunId, o: Outcome, retention: Option<RepoId>, nextRun: RunId) returns (status: RunStatus, next: Option<RunId>)
      requires Valid() && up && nextId <= nextRun
      requires id in drivers && drivers[id].phase.Launched? && id in db
      modifies this
      ensures Valid()
      ensures status == ClassifyRun(old(drivers[id].stopped), old(drivers[id].canceled), o).0
      ensures id in db && db[id] == old(db[id]).(status := status, followUp := next)
      ensures id !in drivers && id !in live && id !in active.Values
      ensures next.Some? ==> next == Some(nextRun) && status.Succeeded() && retention.Some?
      ensures next.Some? ==> retention.value in active && active[retention.value] == nextRun && nextRun in drivers
      ensures next.None? ==> old(db[id].repo) !in active
      ensures next.None? && status.Succeeded() ==>
                !(old(db[id].kind == Backup && db[id].job.Some? && !closing) && retention == Some(old(db[id].repo)))
    {
      NoFollowUpYet(Abs(), id);
      status := Work(id, o);
      next := StartFollowUp(id, retention, nextRun);
      SlotsOf(Abs(), id);
      WrapUp(id);
    }

    /** Asks a run to stop. The stop flag is set before anything else, and only
        the first request logs and cancels the run's context. */
    method Stop(id: RunId, otherProcessAlive: bool) returns (r: StopResult)
      requires Valid()
      modifies `drivers
      ensures Valid()
      ensures r.NotActive? <==>
                || old(Abs()).Get(id).None? || old(Abs()).Get(id).value.status.Terminal()
                || (id !in old(active.Values) && !otherProcessAlive)
      ensures r.Stopping? ==> id in old(drivers)
      ensures r.Signalled? ==> id !in old(active.Values)
      ensures Abs() == if r.Stopping? && !old(drivers[id].stopped)
                       then old(Abs()).(drivers := old(drivers)[id := old(drivers[id]).(stopped := true, canceled := true)])
                       else old(Abs())
    {
      ghost var s := Abs();
      var run := Get(id);
      if run.None? || run.value.status.Terminal() {
        return NotActive;
      }
      var target := false;
      var todo := active.Keys;
      while todo != {} && !target
        invariant todo <= active.Keys
        invariant target ==> id in active.Values
        invariant !target ==> forall r | r in active && active[r] == id :: r in todo
      {
        var r :| r in todo;
        if active[r] == id {
          target := true;
        }
        todo := todo - {r};
      }
      if target {
        var repo :| repo in active && active[repo] == id;
        assert SlotOk(s, repo);
        if !drivers[id].stopped {
          StopKeeps(s, id);
          drivers := drivers[id := drivers[id].(stopped := true, canceled := true)];
        }
        return Stopping;
      }
      if !otherProcessAlive {
        return NotActive;
      }
      return Signalled;
    }

    /** A driver after shutdown asked the runs holding slots to stop. */
    ghost function Asked(id: RunId, d: Driver): Driver
      reads this
    {
      if id in active.Values && RunActive(id) && !d.stopped then d.(stopped := true, canceled := true) else d
    }

    /** Stops one run that holds a slot. */
    method StopHolder(r: RepoId)
      requires Valid() && r in active
      modifies `drivers
      ensures Valid() && active[r] in old(drivers)
      ensures drivers == old(drivers)[active[r] := Asked(active[r], old(drivers[active[r]]))]
    {
      assert SlotOk(Abs(), r);
      assert active[r] in active.Values;
      var _ := Stop(active[r], false);
    }

    /** Asks every run holding a slot to stop: exactly those whose record is active
        and that were not stopped before are flagged and canceled. */
    method StopAll()
      requires Valid()
      modifies `drivers
      ensures Valid() && drivers.Keys == old(drivers.Keys)
      ensures forall id | id in drivers :: drivers[id] == Asked(id, old(drivers)[id])
    {
      ghost var before := drivers;
      var todo := active.Keys;
      while todo != {}
        invariant todo <= active.Keys && Valid()
        invariant AskedBut(before, todo)
      {
        var r :| r in todo;
        StopHolder(r);
        todo := todo - {r};
      }
    }

    /** All runs are as before or asked to stop, and asked are all whose slots are
        not left to do. */
    ghost predicate AskedBut(before: map<RunId, Driver>, todo: set<RepoId>)
      reads this
    {
      && drivers.Keys == before.Keys
      && (forall id | id in drivers :: drivers[id] == before[id] || drivers[id] == Asked(id, before[id]))
      && (forall r | r in active && r !in todo && active[r] in drivers :: drivers[active[r]] == Asked(active[r], before[active[r]]))
    }

    /** Closes the door on new runs, then asks every run holding a slot to stop. */
    method BeginShutdown()
      requires Valid() && up
      modifies `closing, `drivers
      ensures Valid() && closing && drivers.Keys == old(drivers.Keys)
      ensures forall id | id in drivers :: drivers[id] == Asked(id, old(drivers)[id])
    {
      CloseKeeps(Abs());
      closing := true;
      StopAll();
    }

    /** One look at whether everything has wound down. */
    method AllReleased() returns (done: bool)
      requires Valid()
      ensures done <==> active == map[]
      ensures done ==> forall id | id in drivers :: !drivers[id].phase.BeforeFollowUp()
    {
      done := active == map[];
      forall id | id in drivers && drivers[id].phase.BeforeFollowUp() ensures active != map[] {
        Know(Abs(), id);
      }
    }

    method Crash()
      requires Valid() && up
      modifies this
      ensures Valid() && !up && db == old(db) && live == map[] && active == map[] && drivers == map[]
    {
      CrashKeeps(Abs());
      up, live, active, closing, drivers := false, map[], map[], false, map[];
    }

    method Interrupt(id: RunId)
      requires Valid() && !up && Abs().IsActive(id)
      modifies `db
      ensures Valid() && db == old(db)[id := old(db[id]).(status := Interrupted)]
    {
      ReconcileKeeps(Abs(), id);
      db := db[id := db[id].(status := Interrupted)];
    }

    method Serve()
      requires Valid() && !up && forall id | id in db :: !Abs().IsActive(id)
      modifies `up
      ensures Valid() && up && live == map[] && active == map[] && drivers == map[] && !closing
    {
      BootKeeps(Abs());
      up := true;
    }

    /** The restart step: every record still active becomes interrupted, no other
        changes, and the repositories they used are returned. */
    method Reconcile() returns (repos: set<RepoId>)
      requires Valid() && !up
      modifies `db, `up
      ensures Valid() && up
      ensures db.Keys == old(db.Keys)
      ensures forall id | id in db ::
                db[id] == if old(db[id]).status.Terminal() then old(db[id]) else old(db[id]).(status := Interrupted)
      ensures repos == set id | id in old(db) && !old(db[id]).status.Terminal() :: old(db[id].repo)
      ensures live == map[] && active == map[] && drivers == map[] && !closing
    {
      ghost var was := db;
      repos := {};
      var todo := set id | id in db && !db[id].status.Terminal();
      while todo != {}
        invariant todo <= db.Keys && forall id | id in todo :: db[id] == was[id] && !was[id].status.Terminal()
        invariant Valid() && !up && db.Keys == was.Keys
        invariant forall id | id in db && id !in todo ::
                    db[id] == if was[id].status.Terminal() then was[id] else was[id].(status := Interrupted)
        invariant repos == set id | id in was && !was[id].status.Terminal() && id !in todo :: was[id].repo
      {
        var id :| id in todo;
        Interrupt(id);
        repos := repos + {db[id].repo};
        todo := todo - {id};
      }
      Serve();
    }
  }

  /** Before its follow-up is decided, a backup is the only active one on its
      repository, so its own retention run cannot be refused there. */
  lemma AloneBeforeFollowUp(s: State, p: RunId)
    requires Inv(s) && s.up && p in s.drivers && s.drivers[p].phase.BeforeFollowUp()
    requires p in s.db && s.db[p].kind == Backup
    ensures s.Holds(p)
    ensures forall id | id in s.db && s.ActiveOn(id, s.db[p].repo) :: id == p
  {
    Know(s, p);
    forall id | id in s.db && s.ActiveOn(id, s.db[p].repo) ensures id == p {
      if id != p { ActivePair(s, id, p); }
    }
  }
}
