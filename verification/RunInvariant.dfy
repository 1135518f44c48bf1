/** What every reachable state of the run engine satisfies. */
module RunInvariant {
  import opened RunModel
  import opened RunEngine

  /** The in-process copy differs from the table at most in the run that follows. */
  ghost predicate LiveOk(s: State, id: RunId) {
    id in s.live ==> id in s.drivers && id in s.db && s.live[id] == s.db[id].(followUp := s.live[id].followUp)
  }

  /** A driver's phase and its run's record agree. */
  ghost predicate DriverOk(s: State, id: RunId) {
    id in s.drivers ==>
      var ph := s.drivers[id].phase;
      && id in s.db
      && (!ph.BeforeClassify() && !ph.Finalized? ==> ph.status.Terminal() && ph.status != Interrupted)
      && (if ph.Finalized? then id !in s.live && s.db[id].status.Terminal()
          else id in s.live && s.db[id].status == ph.RecordStatus())
  }

  /** While the process is up, an active record has a driver. */
  ghost predicate RecordOk(s: State, id: RunId) {
    id in s.db ==> id < s.nextId && (s.up && !s.db[id].status.Terminal() ==> id in s.drivers)
  }

  /** A slot belongs to a driven run of its repository. */
  ghost predicate SlotOk(s: State, r: RepoId) {
    r in s.active ==> s.active[r] in s.drivers && s.active[r] in s.db && s.db[s.active[r]].repo == r
  }

  /** A run holds its slot until it is final or hands the slot to the run it
      started; from then on only that run can be in it. */
  ghost predicate HoldOk(s: State, id: RunId) {
    id in s.drivers && id in s.db && !s.drivers[id].phase.Finalized? ==>
      if s.HandedOff(id)
      then s.db[id].repo in s.active ==> s.active[s.db[id].repo] == s.drivers[id].phase.Next().value
      else s.Holds(id)
  }

  /** At most one run per repository has handed its slot on and is not final. */
  ghost predicate OneHandOff(s: State, a: RunId, b: RunId) {
    && s.HandedOff(a) && s.HandedOff(b) && s.db[a].repo == s.db[b].repo
    && !s.drivers[a].phase.Finalized? && !s.drivers[b].phase.Finalized?
    ==> a == b
  }

  ghost predicate MutexOk(s: State) {
    s.mu.Held? ==>
      var a := s.mu.attempt;
      && s.up && !s.closing
      && (a.prev.Some? ==>
            var p := a.prev.value;
            && a.kind == Retention
            && p in s.db && s.db[p].kind == Backup
            && p in s.drivers && s.drivers[p].phase.Classified? && s.drivers[p].phase.status.Succeeded())
      && (s.mu.stage != Entered ==> HolderOk(s, a))
      && (s.mu.stage == Scanned ==> ScanOk(s, a))
  }

  /** The run n that p started follows it, and p's record names it as soon as the
      record is final, unless a crash cut p short. */
  ghost predicate FollowOk(s: State, p: RunId) {
    p in s.follows ==>
      var n := s.follows[p];
      && p < n < s.nextId
      && (n in s.db ==> s.db[n].kind == Retention)
      && (p in s.db ==>
            && s.db[p].kind == Backup
            && (s.db[p].status.Terminal() ==> s.db[p].status == Interrupted || s.db[p].followUp == Some(n))
            && (s.up && !s.db[p].status.Terminal() ==>
                  && p in s.drivers && s.drivers[p].phase.Next() == Some(n)
                  && (s.drivers[p].phase.Named? ==> p in s.live && s.live[p].followUp == Some(n))))
  }

  /** Whatever names a following run names the one the history knows; in the table
      only a run that succeeded does. */
  ghost predicate NameOk(s: State, p: RunId) {
    && (p in s.db && s.db[p].followUp.Some? ==>
          p in s.follows && Some(s.follows[p]) == s.db[p].followUp && s.db[p].status.Succeeded())
    && (p in s.live && s.live[p].followUp.Some? ==> p in s.follows && Some(s.follows[p]) == s.live[p].followUp)
    && (p in s.drivers ==>
          var ph := s.drivers[p].phase;
          && (ph.BeforeFollowUp() ==> p !in s.follows)
          && (ph.Next().Some? ==>
                p in s.follows && Some(s.follows[p]) == ph.Next() && ph.Next().value in s.db && ph.status.Succeeded()))
  }

  ghost predicate RunOk(s: State, id: RunId) {
    LiveOk(s, id) && DriverOk(s, id) && RecordOk(s, id) && HoldOk(s, id) && FollowOk(s, id) && NameOk(s, id)
  }

  ghost predicate Inv(s: State) {
    && (!s.up ==> s.active == map[] && s.live == map[] && s.drivers == map[] && s.mu.Free? && !s.closing)
    && MutexOk(s)
    && (forall id :: RunOk(s, id))
    && (forall r :: SlotOk(s, r))
    && (forall a, b :: OneHandOff(s, a, b))
  }

  lemma InvInit()
    ensures Inv(INIT)
  {
    forall id ensures RunOk(INIT, id) {}
  }

  /** The parts of the invariant that speak of x, its slot and the runs around it. */
  lemma Know(s: State, x: RunId)
    requires Inv(s)
    ensures RunOk(s, x)
    ensures x in s.db ==> SlotOk(s, s.db[x].repo)
    ensures x in s.db && s.db[x].repo in s.active ==> RunOk(s, s.active[s.db[x].repo])
    ensures x in s.drivers && s.drivers[x].phase.Next().Some? ==> RunOk(s, s.drivers[x].phase.Next().value)
    ensures x in s.follows ==> RunOk(s, s.follows[x])
  {
  }

  lemma GiveUpRecord(s: State, x: RunId)
    requires Inv(s) && s.mu.Held?
    ensures var s' := GiveUp(s); LiveOk(s', x) && DriverOk(s', x) && RecordOk(s', x) && HoldOk(s', x)
  {
    Know(s, x);
  }

  lemma GiveUpFollow(s: State, x: RunId)
    requires Inv(s) && s.mu.Held?
    ensures FollowOk(GiveUp(s), x)
  {
    Know(s, x);
  }

  lemma GiveUpName(s: State, x: RunId)
    requires Inv(s) && s.mu.Held?
    ensures NameOk(GiveUp(s), x)
  {
    Know(s, x);
  }

  lemma GiveUpRuns(s: State, x: RunId)
    requires Inv(s) && s.mu.Held?
    ensures RunOk(GiveUp(s), x)
  {
    GiveUpRecord(s, x);
    GiveUpFollow(s, x);
    GiveUpName(s, x);
  }

  lemma GiveUpHandOffs(s: State, a: RunId, b: RunId)
    requires Inv(s) && s.mu.Held?
    ensures OneHandOff(GiveUp(s), a, b)
  {
    if s.mu.attempt.prev.Some? { Know(s, s.mu.attempt.prev.value); }
    Know(s, a);
    Know(s, b);
    assert OneHandOff(s, a, b);
  }

  lemma GiveUpKeeps(s: State)
    requires Inv(s) && s.mu.Held?
    ensures Inv(GiveUp(s))
  {
    var s' := GiveUp(s);
    if s.mu.attempt.prev.Some? { Know(s, s.mu.attempt.prev.value); }
    forall r ensures SlotOk(s', r) {
      assert SlotOk(s, r);
      if r in s.active { Know(s, s.active[r]); }
    }
    forall x ensures RunOk(s', x) { GiveUpRuns(s, x); }
    forall a, b ensures OneHandOff(s', a, b) { GiveUpHandOffs(s, a, b); }
  }

  lemma BegunLive(s: State, id: RunId, x: RunId)
    requires Inv(s) && s.mu.Held? && s.mu.stage == Scanned && s.nextId <= id
    ensures LiveOk(Begun(s, id), x) && RecordOk(Begun(s, id), x)
  {
    Know(s, id);
    Know(s, x);
    if s.mu.attempt.prev.Some? { Know(s, s.mu.attempt.prev.value); }
  }

  lemma BegunDriver(s: State, id: RunId, x: RunId)
    requires Inv(s) && s.mu.Held? && s.mu.stage == Scanned && s.nextId <= id
    ensures DriverOk(Begun(s, id), x)
  {
    Know(s, id);
    Know(s, x);
    if s.mu.attempt.prev.Some? { Know(s, s.mu.attempt.prev.value); }
  }

  lemma BegunHoldOther(s: State, id: RunId, x: RunId)
    requires Inv(s) && s.mu.Held? && s.mu.stage == Scanned && s.nextId <= id
    requires x != id && s.mu.attempt.prev != Some(x)
    ensures HoldOk(Begun(s, id), x)
  {
    Know(s, id);
    Know(s, x);
    if s.mu.attempt.prev.Some? { Know(s, s.mu.attempt.prev.value); }
    var s' := Begun(s, id);
    assert x in s.drivers ==> s'.drivers[x] == s.drivers[x];
  }

  lemma BegunHold(s: State, id: RunId, x: RunId)
    requires Inv(s) && s.mu.Held? && s.mu.stage == Scanned && s.nextId <= id
    ensures HoldOk(Begun(s, id), x)
  {
    if x != id && s.mu.attempt.prev != Some(x) {
      BegunHoldOther(s, id, x);
    } else {
      Know(s, id);
      if s.mu.attempt.prev.Some? { Know(s, s.mu.attempt.prev.value); }
      assert x == id ==> Begun(s, id).Holds(x);
    }
  }

  lemma BegunFollow(s: State, id: RunId, x: RunId)
    requires Inv(s) && s.mu.Held? && s.mu.stage == Scanned && s.nextId <= id
    ensures FollowOk(Begun(s, id), x)
  {
    Know(s, id);
    Know(s, x);
    if s.mu.attempt.prev.Some? { Know(s, s.mu.attempt.prev.value); }
  }

  lemma BegunName(s: State, id: RunId, x: RunId)
    requires Inv(s) && s.mu.Held? && s.mu.stage == Scanned && s.nextId <= id
    ensures NameOk(Begun(s, id), x)
  {
    Know(s, id);
    Know(s, x);
    if s.mu.attempt.prev.Some? { Know(s, s.mu.attempt.prev.value); }
  }

  lemma BegunRuns(s: State, id: RunId, x: RunId)
    requires Inv(s) && s.mu.Held? && s.mu.stage == Scanned && s.nextId <= id
    ensures RunOk(Begun(s, id), x)
  {
    BegunLive(s, id, x);
    BegunDriver(s, id, x);
    BegunHold(s, id, x);
    BegunFollow(s, id, x);
    BegunName(s, id, x);
  }

  lemma BegunHandOffs(s: State, id: RunId, a: RunId, b: RunId)
    requires Inv(s) && s.mu.Held? && s.mu.stage == Scanned && s.nextId <= id
    ensures OneHandOff(Begun(s, id), a, b)
  {
    Know(s, id);
    if s.mu.attempt.prev.Some? { Know(s, s.mu.attempt.prev.value); }
    Know(s, a);
    Know(s, b);
    assert OneHandOff(s, a, b);
  }

  lemma BegunKeeps(s: State, id: RunId)
    requires Inv(s) && s.mu.Held? && s.mu.stage == Scanned && s.nextId <= id
    ensures Inv(Begun(s, id))
  {
    var s' := Begun(s, id);
    Know(s, id);
    if s.mu.attempt.prev.Some? { Know(s, s.mu.attempt.prev.value); }
    forall r ensures SlotOk(s', r) {
      assert SlotOk(s, r);
      if r in s.active { Know(s, s.active[r]); }
    }
    forall x ensures RunOk(s', x) { BegunRuns(s, id, x); }
    forall a, b ensures OneHandOff(s', a, b) { BegunHandOffs(s, id, a, b); }
  }

  lemma RunningRuns(s: State, id: RunId, x: RunId)
    requires Inv(s) && id in s.drivers && s.drivers[id].phase.Launched?
    ensures RunOk(SetToRunning(s, id), x)
  {
    Know(s, id);
    Know(s, x);
  }

  lemma RunningHandOffs(s: State, id: RunId, a: RunId, b: RunId)
    requires Inv(s) && id in s.drivers && s.drivers[id].phase.Launched?
    ensures OneHandOff(SetToRunning(s, id), a, b)
  {
    Know(s, id);
    Know(s, a);
    Know(s, b);
    assert OneHandOff(s, a, b);
  }

  lemma RunningKeeps(s: State, id: RunId)
    requires Inv(s) && id in s.drivers && s.drivers[id].phase.Launched?
    ensures Inv(SetToRunning(s, id))
  {
    var s' := SetToRunning(s, id);
    Know(s, id);
    if s.mu.Held? && s.mu.attempt.repo in s.active { Know(s, s.active[s.mu.attempt.repo]); }
    forall r ensures SlotOk(s', r) {
      assert SlotOk(s, r);
      if r in s.active { Know(s, s.active[r]); }
    }
    forall x ensures RunOk(s', x) { RunningRuns(s, id, x); }
    forall a, b ensures OneHandOff(s', a, b) { RunningHandOffs(s, id, a, b); }
  }

  lemma NamedRecord(s: State, id: RunId, x: RunId)
    requires Inv(s) && id in s.drivers && s.drivers[id].phase.FollowedUp?
    ensures LiveOk(NameNext(s, id), x) && DriverOk(NameNext(s, id), x) && RecordOk(NameNext(s, id), x)
  {
    Know(s, id);
    Know(s, x);
  }

  lemma NamedHold(s: State, id: RunId, x: RunId)
    requires Inv(s) && id in s.drivers && s.drivers[id].phase.FollowedUp?
    ensures HoldOk(NameNext(s, id), x)
  {
    Know(s, id);
    Know(s, x);
  }

  lemma NamedFollow(s: State, id: RunId, x: RunId)
    requires Inv(s) && id in s.drivers && s.drivers[id].phase.FollowedUp?
    ensures FollowOk(NameNext(s, id), x)
  {
    Know(s, id);
    Know(s, x);
  }

  lemma NamedName(s: State, id: RunId, x: RunId)
    requires Inv(s) && id in s.drivers && s.drivers[id].phase.FollowedUp?
    ensures NameOk(NameNext(s, id), x)
  {
    Know(s, id);
    Know(s, x);
  }

  lemma NamedRuns(s: State, id: RunId, x: RunId)
    requires Inv(s) && id in s.drivers && s.drivers[id].phase.FollowedUp?
    ensures RunOk(NameNext(s, id), x)
  {
    NamedRecord(s, id, x);
    NamedHold(s, id, x);
    NamedFollow(s, id, x);
    NamedName(s, id, x);
  }

  lemma NamedHandOffs(s: State, id: RunId, a: RunId, b: RunId)
    requires Inv(s) && id in s.drivers && s.drivers[id].phase.FollowedUp?
    ensures OneHandOff(NameNext(s, id), a, b)
  {
    Know(s, id);
    Know(s, a);
    Know(s, b);
    assert OneHandOff(s, a, b);
  }

  lemma NamedKeeps(s: State, id: RunId)
    requires Inv(s) && id in s.drivers && s.drivers[id].phase.FollowedUp?
    ensures Inv(NameNext(s, id))
  {
    var s' := NameNext(s, id);
    Know(s, id);
    if s.mu.Held? && s.mu.attempt.repo in s.active { Know(s, s.active[s.mu.attempt.repo]); }
    forall r ensures SlotOk(s', r) {
      assert SlotOk(s, r);
      if r in s.active { Know(s, s.active[r]); }
    }
    forall x ensures RunOk(s', x) { NamedRuns(s, id, x); }
    forall a, b ensures OneHandOff(s', a, b) { NamedHandOffs(s, id, a, b); }
  }

  lemma FinalRecord(s: State, id: RunId, x: RunId)
    requires Inv(s) && id in s.drivers && s.drivers[id].phase.Named?
    ensures LiveOk(MakeFinal(s, id), x) && DriverOk(MakeFinal(s, id), x) && RecordOk(MakeFinal(s, id), x) && HoldOk(MakeFinal(s, id), x)
  {
    Know(s, id);
    Know(s, x);
  }

  lemma FinalRuns(s: State, id: RunId, x: RunId)
    requires Inv(s) && id in s.drivers && s.drivers[id].phase.Named?
    ensures RunOk(MakeFinal(s, id), x)
  {
    FinalRecord(s, id, x);
    Know(s, id);
    Know(s, x);
  }

  lemma FinalHandOffs(s: State, id: RunId, a: RunId, b: RunId)
    requires Inv(s) && id in s.drivers && s.drivers[id].phase.Named?
    ensures OneHandOff(MakeFinal(s, id), a, b)
  {
    Know(s, id);
    Know(s, a);
    Know(s, b);
    assert OneHandOff(s, a, b);
  }

  lemma FinalKeeps(s: State, id: RunId)
    requires Inv(s) && id in s.drivers && s.drivers[id].phase.Named?
    ensures Inv(MakeFinal(s, id))
  {
    var s' := MakeFinal(s, id);
    Know(s, id);
    if s.mu.Held? && s.mu.attempt.repo in s.active { Know(s, s.active[s.mu.attempt.repo]); }
    forall r ensures SlotOk(s', r) {
      assert SlotOk(s, r);
      if r in s.active { Know(s, s.active[r]); }
    }
    forall x ensures RunOk(s', x) { FinalRuns(s, id, x); }
    forall a, b ensures OneHandOff(s', a, b) { FinalHandOffs(s, id, a, b); }
  }

  lemma ReleaseRuns(s: State, id: RunId, x: RunId)
    requires Inv(s) && s.mu.Free? && id in s.drivers && s.drivers[id].phase.Finalized?
    ensures RunOk(Release(s, id), x)
  {
    Know(s, id);
    Know(s, x);
  }

  lemma ReleaseHandOffs(s: State, id: RunId, a: RunId, b: RunId)
    requires Inv(s) && s.mu.Free? && id in s.drivers && s.drivers[id].phase.Finalized?
    ensures OneHandOff(Release(s, id), a, b)
  {
    Know(s, id);
    Know(s, a);
    Know(s, b);
    assert OneHandOff(s, a, b);
  }

  lemma ReleaseKeeps(s: State, id: RunId)
    requires Inv(s) && s.mu.Free? && id in s.drivers && s.drivers[id].phase.Finalized?
    ensures Inv(Release(s, id))
  {
    var s' := Release(s, id);
    Know(s, id);
    forall r ensures SlotOk(s', r) {
      assert SlotOk(s, r);
      if r in s.active { Know(s, s.active[r]); }
    }
    forall x ensures RunOk(s', x) { ReleaseRuns(s, id, x); }
    forall a, b ensures OneHandOff(s', a, b) { ReleaseHandOffs(s, id, a, b); }
  }

  /** A driver moves on without touching its record. */
  lemma PhaseKeeps(s: State, id: RunId, ph: Phase)
    requires Inv(s)
    requires id in s.drivers && s.drivers[id].phase.BeforeFollowUp() && !s.drivers[id].phase.Launched?
    requires !Waiting(s, id)
    requires ph.Returned? || ((ph.Classified? || (ph.FollowedUp? && ph.next == None)) && ph.status.Terminal() && ph.status != Interrupted)
    ensures Inv(s.WithPhase(id, ph))
  {
    var s' := s.WithPhase(id, ph);
    Know(s, id);
    forall r ensures SlotOk(s', r) {
      assert SlotOk(s, r);
      if r in s.active { Know(s, s.active[r]); }
    }
    forall x ensures RunOk(s', x) { Know(s, x); }
    forall a, b ensures OneHandOff(s', a, b) {
      Know(s, a);
      Know(s, b);
      assert OneHandOff(s, a, b);
    }
  }

  ghost function Flagged(s: State, id: RunId, stopped: bool, canceled: bool): State
    requires id in s.drivers
  {
    s.(drivers := s.drivers[id := s.drivers[id].(stopped := stopped, canceled := canceled)])
  }

  lemma FlagRuns(s: State, id: RunId, stopped: bool, canceled: bool, x: RunId)
    requires Inv(s) && id in s.drivers
    ensures RunOk(Flagged(s, id, stopped, canceled), x)
  {
    Know(s, x);
  }

  /** A stop changes only a driver's flags. */
  lemma FlagKeeps(s: State, id: RunId, stopped: bool, canceled: bool)
    requires Inv(s) && id in s.drivers
    ensures Inv(Flagged(s, id, stopped, canceled))
  {
    var s' := Flagged(s, id, stopped, canceled);
    Know(s, id);
    forall r ensures SlotOk(s', r) {
      assert SlotOk(s, r);
      if r in s.active { Know(s, s.active[r]); }
    }
    forall x ensures RunOk(s', x) { FlagRuns(s, id, stopped, canceled, x); }
    forall a, b ensures OneHandOff(s', a, b) {
      Know(s, a);
      Know(s, b);
      assert OneHandOff(s, a, b);
    }
  }

  /** Entering a start attempt. */
  lemma LockKeeps(s: State, a: Attempt)
    requires Inv(s)
    requires Enabled(s, Lock(a))
    ensures Inv(Apply(s, Lock(a)))
  {
    var s' := Apply(s, Lock(a));
    if a.prev.Some? { Know(s, a.prev.value); }
    forall r ensures SlotOk(s', r) {
      assert SlotOk(s, r);
      if r in s.active { Know(s, s.active[r]); }
    }
    forall x ensures RunOk(s', x) { Know(s, x); }
    forall a, b ensures OneHandOff(s', a, b) {
      Know(s, a);
      Know(s, b);
      assert OneHandOff(s, a, b);
    }
  }

  /** Steps that leave runs and slots alone. */
  lemma OutsideKeeps(s: State, step: Step)
    requires Inv(s)
    requires step.Effect? || step.Close? || step.Boot?
    requires Enabled(s, step)
    ensures Inv(Apply(s, step))
  {
    var s' := Apply(s, step);
    forall r ensures SlotOk(s', r) {
      assert SlotOk(s, r);
      if r in s.active { Know(s, s.active[r]); }
    }
    forall x ensures RunOk(s', x) { Know(s, x); }
    forall a, b ensures OneHandOff(s', a, b) {
      Know(s, a);
      Know(s, b);
      assert OneHandOff(s, a, b);
    }
  }

  /** Crash, and what a restart does to the records before it serves. */
  lemma DownKeeps(s: State, step: Step)
    requires Inv(s)
    requires step.Crash? || step.ReconcileRun? || step.Prune?
    requires Enabled(s, step)
    ensures Inv(Apply(s, step))
  {
    var s' := Apply(s, step);
    forall r ensures SlotOk(s', r) {
      assert SlotOk(s, r);
      if r in s.active { Know(s, s.active[r]); }
    }
    forall x ensures RunOk(s', x) { Know(s, x); }
    forall a, b ensures OneHandOff(s', a, b) {
      Know(s, a);
      Know(s, b);
      assert OneHandOff(s, a, b);
    }
  }

  /** A start attempt that finds nothing in its way. */
  lemma AdvanceKeeps(s: State, step: Step)
    requires Inv(s)
    requires step.CheckHolder? || step.ScanActive?
    requires Enabled(s, step)
    requires if step.CheckHolder? then HolderOk(s, s.mu.attempt) else ScanOk(s, s.mu.attempt)
    ensures Inv(Apply(s, step))
  {
    var s' := Apply(s, step);
    forall r ensures SlotOk(s', r) {
      assert SlotOk(s, r);
      if r in s.active { Know(s, s.active[r]); }
    }
    forall x ensures RunOk(s', x) { Know(s, x); }
    forall a, b ensures OneHandOff(s', a, b) {
      Know(s, a);
      Know(s, b);
      assert OneHandOff(s, a, b);
    }
  }

  /** Every step keeps the invariant. */
  lemma InvStep(s: State, step: Step)
    requires Inv(s) && Enabled(s, step)
    ensures Inv(Apply(s, step))
  {
    match step
    case Lock(a) => LockKeeps(s, a);
    case CheckHolder => if HolderOk(s, s.mu.attempt) { AdvanceKeeps(s, step); } else { GiveUpKeeps(s); }
    case ScanActive => if ScanOk(s, s.mu.attempt) { AdvanceKeeps(s, step); } else { GiveUpKeeps(s); }
    case Begin(id) => BegunKeeps(s, id);
    case SetRunning(id) => RunningKeeps(s, id);
    case Return(id, o) => Know(s, id); PhaseKeeps(s, id, Returned(o));
    case Classify(id) =>
      Know(s, id);
      var d := s.drivers[id];
      PhaseKeeps(s, id, Classified(ClassifyRun(d.stopped, d.canceled, d.phase.outcome).0));
    case NoFollowUp(id) => Know(s, id); PhaseKeeps(s, id, FollowedUp(s.drivers[id].phase.status, None));
    case NameFollowUp(id) => NamedKeeps(s, id);
    case Finalize(id) => FinalKeeps(s, id);
    case Finish(id) => ReleaseKeeps(s, id);
    case MarkStopped(id) => FlagKeeps(s, id, true, s.drivers[id].canceled);
    case CancelContext(id) => FlagKeeps(s, id, s.drivers[id].stopped, true);
    case Effect(_, _, _) => OutsideKeeps(s, step);
    case Close => OutsideKeeps(s, step);
    case Boot => OutsideKeeps(s, step);
    case Crash => DownKeeps(s, step);
    case ReconcileRun(_) => DownKeeps(s, step);
    case Prune(_) => DownKeeps(s, step);
  }
}
