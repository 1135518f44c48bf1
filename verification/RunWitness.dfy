/** Runs of the engine that show which tempting claims it does not meet. */
module RunWitness {
  import opened RunModel
  import opened RunEngine
  import opened RunInvariant
  import opened RunSafety

  const OK := Outcome(0, NoError)

  /** A backup of job 0 into repository 0 whose work returned cleanly and was
      classified a success, as run 0. */
  lemma ClassifiedBackup() returns (s: State)
    ensures Reachable(s) && s.up && s.mu.Free? && !s.closing && s.nextId == 1
    ensures s.drivers == map[0 := Driver(Classified(Success), false, false)]
    ensures s.db == s.live == map[0 := Record(Backup, RunStatus.Running, 0, Some(0), None)]
    ensures s.active == map[0 := 0]
  {
    InitReachable();
    s := INIT;
    s := ReachableStart(s, Attempt(None, Backup, 0, Some(0)), 0);
    ReachableStep(s, SetRunning(0));
    s := Apply(s, SetRunning(0));
    ReachableStep(s, Return(0, OK));
    s := Apply(s, Return(0, OK));
    ReachableStep(s, Classify(0));
    s := Apply(s, Classify(0));
  }

  lemma SkipFollowUp(s: State, id: RunId) returns (s': State)
    requires Reachable(s) && id in s.drivers && s.drivers[id].phase.Classified? && s.mu.Free?
    ensures Reachable(s') && s' == s.WithPhase(id, Named(s.drivers[id].phase.status, None))
  {
    var st := s.drivers[id].phase.status;
    ReachableStep(s, NoFollowUp(id));
    var s1 := s.WithPhase(id, FollowedUp(st, None));
    ReachableStep(s1, NameFollowUp(id));
    s' := NameNext(s1, id);
  }

  /** A classified run that starts nothing goes on to its final record. */
  lemma Conclude(s: State, id: RunId) returns (s': State)
    requires Reachable(s) && id in s.drivers && s.drivers[id].phase.Classified? && s.mu.Free?
    requires id in s.db && id in s.live && s.live[id] == s.db[id]
    ensures Reachable(s')
    ensures s' == s.(live := s.live - {id}, db := s.db[id := s.db[id].(status := s.drivers[id].phase.status)],
                     drivers := s.drivers[id := s.drivers[id].(phase := Finalized)])
  {
    var s2 := SkipFollowUp(s, id);
    ReachableStep(s2, Finalize(id));
    s' := MakeFinal(s2, id);
    assert s'.live == s.live - {id};
  }

  /** A stop accepted after classification does not change how the run ends. */
  lemma LateStopNotCanceled()
    ensures exists s: State, id: RunId ::
              Reachable(s) && id in s.drivers && s.drivers[id].stopped && id in s.db && s.db[id].status == Success
  {
    var s := ClassifiedBackup();
    assert s.active[0] == 0;
    ReachableStep(s, MarkStopped(0));
    s := Apply(s, MarkStopped(0));
    s := Conclude(s, 0);
  }

  /** The backup above has started retention run 1. */
  lemma Launching() returns (s: State)
    ensures Reachable(s) && s.up && s.mu.Free? && !s.closing
    ensures s.drivers == map[0 := Driver(FollowedUp(Success, Some(1)), false, false), 1 := Driver(Launched, false, false)]
    ensures s.db == s.live == map[0 := Record(Backup, RunStatus.Running, 0, Some(0), None),
                                  1 := Record(Retention, Starting, 0, Some(0), None)]
    ensures s.active == map[0 := 1]
  {
    s := ClassifiedBackup();
    s := ReachableStart(s, Attempt(Some(0), Retention, 0, Some(0)), 1);
  }

  /** Now the retention run is running. */
  lemma HandedOver() returns (s: State)
    ensures Reachable(s) && s.up && s.mu.Free? && !s.closing
    ensures s.drivers == map[0 := Driver(FollowedUp(Success, Some(1)), false, false), 1 := Driver(Executing, false, false)]
    ensures s.db == s.live == map[0 := Record(Backup, RunStatus.Running, 0, Some(0), None),
                                  1 := Record(Retention, RunStatus.Running, 0, Some(0), None)]
    ensures s.active == map[0 := 1]
  {
    var before := Launching();
    ReachableStep(before, SetRunning(1));
    s := SetToRunning(before, 1);
  }

  /** During a hand-over two records are active on one repository. */
  lemma TwoActiveHappens()
    ensures exists s: State, a: RunId, b: RunId ::
              Reachable(s) && s.up && a != b && s.ActiveOn(a, 0) && s.ActiveOn(b, 0)
  {
    var s := HandedOver();
    assert s.ActiveOn(0, 0) && s.ActiveOn(1, 0);
  }

  /** The retention run has ended before the backup's record is final. */
  lemma RetentionEnded() returns (s: State)
    ensures Reachable(s) && s.up && s.mu.Free? && s.active == map[0 := 1]
    ensures 1 in s.drivers && s.drivers[1].phase == Finalized
    ensures 0 in s.db && 1 in s.db && s.db[1].repo == 0 && !s.db[0].status.Terminal()
  {
    s := HandedOver();
    ReachableStep(s, Return(1, OK));
    s := Apply(s, Return(1, OK));
    ReachableStep(s, Classify(1));
    s := Apply(s, Classify(1));
    s := Conclude(s, 1);
  }

  /** Shutdown can see the slot map empty while a record is still active. */
  lemma ShutdownLeavesActive()
    ensures exists s: State, id: RunId ::
              Reachable(s) && s.up && s.closing && s.active == map[] && id in s.db && s.IsActive(id)
  {
    var s := RetentionEnded();
    ReachableStep(s, Close);
    s := s.(closing := true);
    ReachableStep(s, Finish(1));
    s := Release(s, 1);
    assert s.IsActive(0);
  }
}
