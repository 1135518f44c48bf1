/** The run engine of one process as a state machine over its atomic steps: the
    slot map under the coordinator's mutex, one driver goroutine per run, the
    durable run records and their in-process copies, crash and restart.

    A start attempt holds the mutex through three separate steps (look at the
    slot's holder, scan the active records, begin), and every step that does not
    need the mutex may fall in between. */
module RunEngine {
  import opened RunModel

  /** Where the goroutine driving one run stands. */
  datatype Phase =
    | Launched
    | Executing
    | Returned(outcome: Outcome)
    | Classified(status: RunStatus)
    // startFollowUp has returned; `next` is the run it started, if any
    | FollowedUp(status: RunStatus, next: Option<RunId>)
    // the run that follows is written into the in-process record
    | Named(status: RunStatus, next: Option<RunId>)
    // the terminal status is durable; the slot is not released yet
    | Finalized
  {
    predicate BeforeFollowUp() {
      Launched? || Executing? || Returned? || Classified?
    }

    predicate BeforeClassify() {
      Launched? || Executing? || Returned?
    }

    /** The run that was handed the repository, once there is one. */
    function Next(): Option<RunId> {
      match this
      case FollowedUp(_, n) => n
      case Named(_, n) => n
      case _ => None
    }

    function RecordStatus(): RunStatus
      requires !Finalized?
    {
      if Launched? then Starting else Running
    }
  }

  datatype Driver = Driver(phase: Phase, stopped: bool, canceled: bool)

  /** A call of startRunAfter: the run to start and the run it follows, if any. */
  datatype Attempt = Attempt(prev: Option<RunId>, kind: RunKind, repo: RepoId, job: Option<JobId>)

  datatype Stage = Entered | HolderChecked | Scanned

  datatype Mutex = Free | Held(attempt: Attempt, stage: Stage)

  datatype State = State(
    up: bool,
    db: map<RunId, Record>,            // the runs table
    live: map<RunId, Record>,          // in-process copies
    active: map<RepoId, RunId>,        // the slot map
    closing: bool,
    drivers: map<RunId, Driver>,
    mu: Mutex,
    snaps: map<RepoId, set<SnapshotId>>,
    nextId: RunId,                     // every id below it may have been used
    follows: map<RunId, RunId>         // history: which run a backup started
  )
  {
    /** RunStore.Get: the in-process copy if there is one, else the table. */
    function Get(id: RunId): Option<Record> {
      if id in live then Some(live[id]) else if id in db then Some(db[id]) else None
    }

    function Snapshots(repo: RepoId): set<SnapshotId> {
      if repo in snaps then snaps[repo] else {}
    }

    /** The record is active, i.e. starting or running. */
    predicate IsActive(id: RunId) {
      id in db && !db[id].status.Terminal()
    }

    predicate ActiveOn(id: RunId, repo: RepoId) {
      IsActive(id) && db[id].repo == repo
    }

    predicate ExecutingOn(id: RunId, repo: RepoId) {
      id in drivers && drivers[id].phase.Executing? && id in db && db[id].repo == repo
    }

    /** id handed its own repository's slot to the run it started. */
    predicate HandedOff(id: RunId) {
      && id in drivers && id in db
      && var n := drivers[id].phase.Next();
      n.Some? && n.value in db && db[n.value].repo == db[id].repo
    }

    predicate Holds(id: RunId) {
      id in db && db[id].repo in active && active[db[id].repo] == id
    }

    function WithPhase(id: RunId, phase: Phase): State
      requires id in drivers
    {
      this.(drivers := drivers[id := drivers[id].(phase := phase)])
    }
  }

  const INIT := State(true, map[], map[], map[], false, map[], Free, map[], 0, map[])

  // ---- starting a run --------------------------------------------------------

  /** The slot's holder does not stand in the way: there is none, it is the run
      this one follows, or its record is terminal already. */
  predicate HolderOk(s: State, a: Attempt) {
    a.repo in s.active ==>
      var holder := s.active[a.repo];
      a.prev == Some(holder) || (s.Get(holder).Some? && s.Get(holder).value.status.Terminal())
  }

  /** No active record on the repository other than the holder's. */
  predicate ScanOk(s: State, a: Attempt) {
    forall id | id in s.db && s.ActiveOn(id, a.repo) :: a.repo in s.active && s.active[a.repo] == id
  }

  /** The attempt ends without a run; a driver waiting on it goes on without one. */
  function GiveUp(s: State): State
    requires s.mu.Held?
  {
    var s' := s.(mu := Free);
    match s.mu.attempt.prev
    case Some(p) =>
      if p in s.drivers && s.drivers[p].phase.Classified?
      then s'.WithPhase(p, FollowedUp(s.drivers[p].phase.status, None)) else s'
    case None => s'
  }

  /** The run is recorded, takes the slot and gets its driver. */
  function Begun(s: State, id: RunId): State
    requires s.mu.Held?
  {
    var a := s.mu.attempt;
    var r := Record(a.kind, Starting, a.repo, a.job, None);
    var s' := s.(mu := Free, db := s.db[id := r], live := s.live[id := r], active := s.active[a.repo := id],
                 drivers := s.drivers[id := Driver(Launched, false, false)], nextId := id + 1);
    match a.prev
    case Some(p) =>
      if p in s.drivers && s.drivers[p].phase.Classified?
      then s'.WithPhase(p, FollowedUp(s.drivers[p].phase.status, Some(id))).(follows := s.follows[p := id]) else s'
    case None => s'
  }

  // ---- what a driver does to its run ---------------------------------------

  /** RunStore.mutate: the changed record becomes the in-process copy and is
      written through to the table when `persist` is set. */
  function Mutated(s: State, id: RunId, r: Record, persist: bool): State {
    s.(live := s.live[id := r], db := if persist then s.db[id := r] else s.db)
  }

  function SetToRunning(s: State, id: RunId): State
    requires id in s.drivers
  {
    match s.Get(id)
    case None => s.WithPhase(id, Executing)
    case Some(r) => Mutated(s, id, r.(status := Running), true).WithPhase(id, Executing)
  }

  /** The run that follows is named in the in-process copy only. */
  function NameNext(s: State, id: RunId): State
    requires id in s.drivers && s.drivers[id].phase.FollowedUp?
  {
    var ph := s.drivers[id].phase;
    var s' := if ph.next.Some? && s.Get(id).Some?
              then Mutated(s, id, s.Get(id).value.(followUp := ph.next), false) else s;
    s'.WithPhase(id, Named(ph.status, ph.next))
  }

  /** The record becomes terminal, in the table too, and the copy is dropped. */
  function MakeFinal(s: State, id: RunId): State
    requires id in s.drivers && s.drivers[id].phase.Named?
  {
    match s.Get(id)
    case Some(r) =>
      var s' := Mutated(s, id, r.(status := s.drivers[id].phase.status), true).WithPhase(id, Finalized);
      s'.(live := s'.live - {id})
    case None => s.WithPhase(id, Finalized)
  }

  /** The driver ends; the slot is freed only if it is still this run's. */
  function Release(s: State, id: RunId): State
    requires id in s.drivers
  {
    s.(drivers := s.drivers - {id}, active := if s.Holds(id) then s.active - {s.db[id].repo} else s.active)
  }

  // ---- steps -----------------------------------------------------------------

  datatype Step =
    | Lock(attempt: Attempt)
    | CheckHolder
    | ScanActive
    | Begin(id: RunId)
    | SetRunning(id: RunId)
    | Effect(id: RunId, added: set<SnapshotId>, removed: set<SnapshotId>)
    | Return(id: RunId, outcome: Outcome)
    | Classify(id: RunId)
    | NoFollowUp(id: RunId)
    | NameFollowUp(id: RunId)
    | Finalize(id: RunId)
    | Finish(id: RunId)
    | MarkStopped(id: RunId)
    | CancelContext(id: RunId)
    | Close
    | Crash
    | ReconcileRun(id: RunId)
    | Prune(gone: set<RunId>)
    | Boot

  /** Run kinds whose work can remove snapshots from a repository. */
  predicate RemovesSnapshots(kind: RunKind) {
    kind == Forget || kind == Retention || kind == SpeedTest
  }

  /** The driver is inside startRunAfter, waiting for its own attempt. */
  predicate Waiting(s: State, id: RunId) {
    s.mu.Held? && s.mu.attempt.prev == Some(id)
  }

  predicate Enabled(s: State, step: Step) {
    match step
    case Lock(a) =>
      && s.up && s.mu.Free? && !s.closing
      && (a.prev.Some? ==>
            var p := a.prev.value;
            && a.kind == Retention
            && p in s.drivers && s.drivers[p].phase.Classified? && s.drivers[p].phase.status.Succeeded()
            && s.Get(p).Some? && s.Get(p).value.kind == Backup && s.Get(p).value.job.Some?)
    case CheckHolder => s.mu.Held? && s.mu.stage == Entered
    case ScanActive => s.mu.Held? && s.mu.stage == HolderChecked
    case Begin(id) => s.mu.Held? && s.mu.stage == Scanned && s.nextId <= id
    case SetRunning(id) => id in s.drivers && s.drivers[id].phase.Launched?
    case Effect(id, added, removed) =>
      && id in s.drivers && s.drivers[id].phase.Executing?
      && id in s.db && (removed != {} ==> RemovesSnapshots(s.db[id].kind))
    case Return(id, _) => id in s.drivers && s.drivers[id].phase.Executing?
    case Classify(id) => id in s.drivers && s.drivers[id].phase.Returned?
    case NoFollowUp(id) => id in s.drivers && s.drivers[id].phase.Classified? && !Waiting(s, id)
    case NameFollowUp(id) => id in s.drivers && s.drivers[id].phase.FollowedUp?
    case Finalize(id) => id in s.drivers && s.drivers[id].phase.Named?
    case Finish(id) => s.mu.Free? && id in s.drivers && s.drivers[id].phase.Finalized?
    case MarkStopped(id) => s.mu.Free? && id in s.drivers && id in s.active.Values
    case CancelContext(id) => id in s.drivers && s.drivers[id].stopped
    case Close => s.up && s.mu.Free?
    case Crash => s.up
    case ReconcileRun(id) => !s.up && s.IsActive(id)
    case Prune(gone) => !s.up && (forall id | id in s.db :: !s.IsActive(id))
    case Boot => !s.up && forall id | id in s.db :: !s.IsActive(id)
  }

  function Apply(s: State, step: Step): State
    requires Enabled(s, step)
  {
    match step
    case Lock(a) => s.(mu := Held(a, Entered))
    case CheckHolder => if HolderOk(s, s.mu.attempt) then s.(mu := s.mu.(stage := HolderChecked)) else GiveUp(s)
    case ScanActive => if ScanOk(s, s.mu.attempt) then s.(mu := s.mu.(stage := Scanned)) else GiveUp(s)
    case Begin(id) => Begun(s, id)
    case SetRunning(id) => SetToRunning(s, id)
    case Effect(id, added, removed) =>
      var repo := s.db[id].repo;
      s.(snaps := s.snaps[repo := s.Snapshots(repo) - removed + added])
    case Return(id, o) => s.WithPhase(id, Returned(o))
    case Classify(id) =>
      var d := s.drivers[id];
      s.WithPhase(id, Classified(ClassifyRun(d.stopped, d.canceled, d.phase.outcome).0))
    case NoFollowUp(id) => s.WithPhase(id, FollowedUp(s.drivers[id].phase.status, None))
    case NameFollowUp(id) => NameNext(s, id)
    case Finalize(id) => MakeFinal(s, id)
    case Finish(id) => Release(s, id)
    case MarkStopped(id) => s.(drivers := s.drivers[id := s.drivers[id].(stopped := true)])
    case CancelContext(id) => s.(drivers := s.drivers[id := s.drivers[id].(canceled := true)])
    case Close => s.(closing := true)
    case Crash => s.(up := false, live := map[], active := map[], closing := false, drivers := map[], mu := Free)
    case ReconcileRun(id) => s.(db := s.db[id := s.db[id].(status := Interrupted)])
    case Prune(gone) => s.(db := s.db - gone)
    case Boot => s.(up := true)
  }

  // ---- runs ------------------------------------------------------------------

  /** steps can be taken one after the other from s. */
  predicate CanRun(s: State, steps: seq<Step>)
    decreases |steps|
  {
    steps != [] ==> Enabled(s, steps[0]) && CanRun(Apply(s, steps[0]), steps[1..])
  }

  function Run(s: State, steps: seq<Step>): State
    requires CanRun(s, steps)
    decreases |steps|
  {
    if steps == [] then s else Run(Apply(s, steps[0]), steps[1..])
  }

  ghost predicate Reachable(s: State) {
    exists steps :: CanRun(INIT, steps) && Run(INIT, steps) == s
  }
}
