/** When the scheduled checks of a repository are due, and one tick of the
    scheduler over all jobs and repositories. */
module CheckSchedules {
  import opened RunModel
  import opened Calendar
  import opened Schedule

  datatype CheckEvery = EveryDay | EveryWeek | EveryMonth | OtherPeriod

  datatype CheckSchedule = CheckSchedule(enabled: bool, every: CheckEvery, at: Option<int>, since: int)

  function CheckPeriod(c: CheckSchedule): int {
    match c.every
    case EveryDay => Days(1)
    case EveryWeek => Days(7)
    case EveryMonth => Days(30)
    case OtherPeriod => 0
  }

  function DailyAt(c: CheckSchedule): JobSchedule {
    JobSchedule(false, Daily, None, c.at, [])
  }

  function NextCheckAt(c: CheckSchedule, lastStart: Option<int>, zone: int): Option<int> {
    if !c.enabled || CheckPeriod(c) == 0 then None else
    var after := if lastStart.Some? then lastStart.value + CheckPeriod(c) - 12 * HOUR else c.since;
    Some(NextCalendarFire(DailyAt(c), if after > c.since then after else c.since, zone))
  }

  predicate CheckDue(c: CheckSchedule, lastStart: Option<int>, now: int, zone: int) {
    var next := NextCheckAt(c, lastStart, zone);
    next.Some? && next.value <= now
  }

  predicate ValidCheck(c: CheckSchedule) {
    c.enabled && c.every != OtherPeriod && ValidClock(c.at)
  }

  /** t is one of the moments the check may be due at. */
  ghost predicate CheckSlot(c: CheckSchedule, t: int, zone: int) {
    IsSlot(DailyAt(c), t, zone)
  }

  /** Slots of a time of day repeat every day. */
  lemma SlotShifts(c: CheckSchedule, slot: int, n: int, zone: int)
    requires CheckSlot(c, slot, zone)
    ensures CheckSlot(c, slot + Days(n), zone)
  {
    var s := DailyAt(c);
    var day :| Allowed(s, day) && SlotOn(s, day, zone) == slot;
    assert SlotOn(s, day + n, zone) == slot + Days(n);
    assert Allowed(s, day + n);
  }

  /** The next fire is a given slot exactly for the day up to it. */
  lemma DailyFire(c: CheckSchedule, slot: int, from: int, zone: int)
    requires ValidClock(c.at) && CheckSlot(c, slot, zone)
    ensures NextCalendarFire(DailyAt(c), from, zone) == slot <==> slot - Days(1) < from <= slot
  {
    var s := DailyAt(c);
    NextFireLeast(s, from, zone);
    SlotShifts(c, slot, -1, zone);
    var fire := NextCalendarFire(s, from, zone);
    assert IsSlot(s, fire, zone);
    if from <= slot { NextFireAtMost(s, from, slot, zone); }
    if from <= slot - Days(1) { NextFireAtMost(s, from, slot - Days(1), zone); }
    var day :| Allowed(s, day) && SlotOn(s, day, zone) == fire;
    var other :| Allowed(s, other) && SlotOn(s, other, zone) == slot;
    assert slot - fire == Days(other - day);
  }

  /** A check is due exactly once a slot has come since the schedule was saved and,
      if there was a check before, since half a day less than a period after that one
      started. */
  lemma CheckDueExactly(c: CheckSchedule, lastStart: Option<int>, now: int, zone: int)
    requires ValidClock(c.at)
    ensures CheckDue(c, lastStart, now, zone) <==>
            && c.enabled && c.every != OtherPeriod
            && var days := match c.every { case EveryDay => 1 case EveryWeek => 7 case _ => 30 };
               exists t :: CheckSlot(c, t, zone) && c.since <= t <= now
                           && (lastStart.Some? ==> lastStart.value + days * (24 * HOUR) - 12 * HOUR <= t)
  {
    if c.enabled && c.every != OtherPeriod {
      var after := if lastStart.Some? then lastStart.value + CheckPeriod(c) - 12 * HOUR else c.since;
      var from := if after > c.since then after else c.since;
      NextFireLeast(DailyAt(c), from, zone);
      forall t | CheckSlot(c, t, zone) && from <= t ensures NextCalendarFire(DailyAt(c), from, zone) <= t {
        NextFireAtMost(DailyAt(c), from, t, zone);
      }
      assert CheckSlot(c, NextCalendarFire(DailyAt(c), from, zone), zone);
    }
  }

  /** A check that started near a slot has its successor due exactly one period
      after that slot, if and only if it started less than 12 hours before and at
      most 12 hours after it. */
  lemma CheckKeepsSlot(c: CheckSchedule, slot: int, start: int, zone: int)
    requires ValidCheck(c) && CheckSlot(c, slot, zone) && c.since <= slot
    ensures NextCheckAt(c, Some(start), zone) == Some(slot + CheckPeriod(c))
            <==> slot - 12 * HOUR < start <= slot + 12 * HOUR
  {
    var n := match c.every { case EveryDay => 1 case EveryWeek => 7 case _ => 30 };
    SlotShifts(c, slot, n, zone);
    var after := start + CheckPeriod(c) - 12 * HOUR;
    DailyFire(c, slot + Days(n), if after > c.since then after else c.since, zone);
  }

  /** The next check starts within 12 hours after it is due. */
  predicate OnTime(c: CheckSchedule, prev: int, next: int, zone: int) {
    var due := NextCheckAt(c, Some(prev), zone);
    due.Some? && due.value <= next <= due.value + 12 * HOUR
  }

  /** The slot k periods after the first. */
  function KthSlot(c: CheckSchedule, slot0: int, k: nat): int {
    if k == 0 then slot0 else KthSlot(c, slot0, k - 1) + CheckPeriod(c)
  }

  /** Checks do not drift: if each starts within 12 hours after it is due, the k-th
      one starts within 12 hours of the slot k periods after the first, and the
      next is due one period later still. */
  lemma {:induction false} ChecksDoNotDrift(c: CheckSchedule, slot0: int, starts: seq<int>, k: nat, zone: int)
    requires ValidCheck(c) && CheckSlot(c, slot0, zone) && c.since <= slot0
    requires k < |starts| && slot0 <= starts[0] <= slot0 + 12 * HOUR
    requires forall i | 0 <= i < |starts| - 1 :: OnTime(c, starts[i], starts[i+1], zone)
    ensures KthSlot(c, slot0, k) <= starts[k] <= KthSlot(c, slot0, k) + 12 * HOUR
    ensures CheckSlot(c, KthSlot(c, slot0, k), zone) && slot0 <= KthSlot(c, slot0, k)
    ensures NextCheckAt(c, Some(starts[k]), zone) == Some(KthSlot(c, slot0, k + 1))
    decreases k
  {
    if k > 0 {
      ChecksDoNotDrift(c, slot0, starts, k - 1, zone);
      assert OnTime(c, starts[k-1], starts[k], zone);
      NextFireLeast(DailyAt(c), starts[k-1] + CheckPeriod(c) - 12 * HOUR, zone);
      var n := match c.every { case EveryDay => 1 case EveryWeek => 7 case _ => 30 };
      SlotShifts(c, KthSlot(c, slot0, k - 1), n, zone);
    }
    CheckKeepsSlot(c, KthSlot(c, slot0, k), starts[k], zone);
  }

  lemma {:induction false} KthSlotIs(c: CheckSchedule, slot0: int, k: nat)
    ensures KthSlot(c, slot0, k) == slot0 + k * CheckPeriod(c)
  {
    if k > 0 { KthSlotIs(c, slot0, k - 1); }
  }

  // ---- one tick ------------------------------------------------------------------

  datatype Job = Job(id: string, repo: string, schedule: Option<JobSchedule>, since: Option<int>,
                     last: Option<int>, lastOK: bool)

  datatype Repo = Repo(id: string, check: Option<CheckSchedule>, lastStart: Option<int>)

  predicate WantsBackup(j: Job, active: set<string>, now: int, zone: int) {
    && j.schedule.Some? && j.schedule.value.enabled && j.id !in active
    && JobDue(j.schedule.value, j.since, j.last, j.lastOK, now, zone)
  }

  predicate WantsCheck(r: Repo, now: int, zone: int) {
    r.check.Some? && r.check.value.enabled && CheckDue(r.check.value, r.lastStart, now, zone)
  }

  /** One evaluation of every schedule. The attempts are numbered in the order they
      are made, the jobs first. At attempt n, `active(n)` are the jobs with a
      running backup, `held(n)` the repositories other runs hold, and `refused(n)`
      says whether a start fails for any other reason. The run of attempt j, with
      what follows it, still holds its repository at attempt n if `holds(j, n)`. */
  datatype Tick = Tick(jobs: seq<Job>, repos: seq<Repo>, active: nat -> set<string>, held: nat -> set<string>,
                       refused: nat -> bool, holds: (nat, nat) -> bool, now: int, zone: int)
  {
    function Attempts(): nat {
      |jobs| + |repos|
    }

    function RepoOf(n: nat): string
      requires n < Attempts()
    {
      if n < |jobs| then jobs[n].repo else repos[n - |jobs|].id
    }

    predicate Wants(n: nat)
      requires n < Attempts()
    {
      if n < |jobs| then WantsBackup(jobs[n], active(n), now, zone) else WantsCheck(repos[n - |jobs|], now, zone)
    }

    /** Nothing from outside this tick stands in the way of attempt n. */
    predicate MayStart(n: nat)
      requires n < Attempts()
    {
      Wants(n) && RepoOf(n) !in held(n) && !refused(n)
    }

    /** An earlier attempt of this tick has the repository of attempt n. */
    predicate TakenAt(started: set<nat>, n: nat)
      requires n < Attempts()
    {
      exists j :: j in started && j < n && RepoOf(j) == RepoOf(n) && holds(j, n)
    }

    ghost predicate Outcome(started: set<nat>) {
      forall n: nat :: n in started <==> n < Attempts() && MayStart(n) && !TakenAt(started, n)
    }
  }

  /** tickOnce: an attempt starts a run exactly if it is due, nothing outside stands
      in its way, and no run this tick started before still holds its repository. */
  method TickOnce(t: Tick) returns (started: set<nat>)
    ensures t.Outcome(started)
  {
    started := {};
    for n := 0 to t.Attempts()
      invariant forall i: nat :: i in started <==> i < n && t.MayStart(i) && !t.TakenAt(started, i)
    {
      ghost var before := started;
      if t.MayStart(n) && !t.TakenAt(started, n) {
        started := started + {n};
      }
      forall i: nat | i <= n ensures t.TakenAt(started, i) == t.TakenAt(before, i) {
        if j :| j in started && j < i && t.RepoOf(j) == t.RepoOf(i) && t.holds(j, i) {
          assert j in before;
        }
      }
    }
  }

  /** There is only one way a tick can go. */
  lemma {:induction false} OutcomeUnique(t: Tick, a: set<nat>, b: set<nat>, n: nat)
    requires t.Outcome(a) && t.Outcome(b)
    ensures forall i: nat | i < n :: i in a <==> i in b
  {
    if n > 0 {
      OutcomeUnique(t, a, b, n - 1);
      if n <= t.Attempts() {
        assert t.TakenAt(a, n - 1) == t.TakenAt(b, n - 1);
      }
    }
  }

  /** While no run of this tick has ended, of the attempts on a repository that may
      start exactly the first does. */
  lemma FirstGoes(t: Tick, started: set<nat>, n: nat)
    requires t.Outcome(started) && n < t.Attempts()
    requires forall j: nat, k: nat | j < k < t.Attempts() :: t.holds(j, k)
    ensures n in started <==> t.MayStart(n) && forall j: nat | j < n && t.RepoOf(j) == t.RepoOf(n) :: !t.MayStart(j)
  {
    if j: nat :| j < n && t.RepoOf(j) == t.RepoOf(n) && t.MayStart(j) {
      if j !in started {
        var i :| i in started && i < j && t.RepoOf(i) == t.RepoOf(j) && t.holds(i, j);
        assert t.holds(i, n);
      }
      assert t.TakenAt(started, n);
    }
  }

  /** A backup is started exactly if its schedule is on and due, the job is not being
      backed up, nothing refuses it, and neither another run nor one this tick started
      before holds the repository. */
  lemma BackupStartsExactly(t: Tick, started: set<nat>, n: nat)
    requires t.Outcome(started) && n < |t.jobs|
    ensures var j := t.jobs[n];
            n in started <==>
              && j.schedule.Some? && j.schedule.value.enabled && j.id !in t.active(n)
              && JobDue(j.schedule.value, j.since, j.last, j.lastOK, t.now, t.zone)
              && j.repo !in t.held(n) && !t.refused(n)
              && forall i: nat | i < n && i in started && t.jobs[i].repo == j.repo :: !t.holds(i, n)
  {
    if t.TakenAt(started, n) {
      var i :| i in started && i < n && t.RepoOf(i) == t.RepoOf(n) && t.holds(i, n);
      assert t.jobs[i].repo == t.jobs[n].repo;
    }
  }

  /** A due check waits for nothing but other runs and the backups of its own
      repository, which go first. */
  lemma CheckWaitsExactly(t: Tick, started: set<nat>, k: nat)
    requires t.Outcome(started) && k < |t.repos|
    requires forall i, j | 0 <= i < |t.repos| && 0 <= j < |t.repos| && t.repos[i].id == t.repos[j].id :: i == j
    ensures var n := |t.jobs| + k;
            n in started <==>
              && t.repos[k].check.Some? && CheckDue(t.repos[k].check.value, t.repos[k].lastStart, t.now, t.zone)
              && t.repos[k].id !in t.held(n) && !t.refused(n)
              && forall i: nat | i < |t.jobs| && i in started && t.jobs[i].repo == t.repos[k].id :: !t.holds(i, n)
  {
    var n := |t.jobs| + k;
    if t.TakenAt(started, n) {
      var j :| j in started && j < n && t.RepoOf(j) == t.RepoOf(n) && t.holds(j, n);
      assert j < |t.jobs| || j - |t.jobs| == k;
    }
  }
}
