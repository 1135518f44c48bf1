/** When the scheduled backups of a job are due. */
module Schedule {
  import opened RunModel
  import opened Calendar

  function Period(s: JobSchedule): int {
    match s.kind
    case Hourly => HOUR
    case Every => if s.every.None? || s.every.value < HOUR then HOUR else s.every.value
    case Daily => Days(1)
    case Weekly => Days(7)
    case OtherKind => 0
  }

  function RetryWait(period: int): int {
    if period <= 0 || period > HOUR then HOUR else period
  }

  /** `since` is when the job was saved, None if unset. */
  function CountFrom(since: Option<int>, now: int): int {
    if since.None? || since.value > now then now else since.value
  }

  function NextDueAt(s: JobSchedule, since: Option<int>, last: Option<int>, lastOK: bool, now: int, zone: int): Option<int> {
    if !s.enabled || Period(s) <= 0 then None else
    match s.kind
    case OtherKind => None
    case Hourly | Every =>
      if last.None? then Some(now)
      else Some(last.value + if lastOK then Period(s) else RetryWait(Period(s)))
    case Daily | Weekly =>
      if last.None? then Some(NextCalendarFire(s, CountFrom(since, now), zone)) else
      var cal := NextCalendarFire(s, last.value + 1, zone);
      var retry := last.value + RetryWait(Period(s));
      Some(if !lastOK && retry < cal then retry else cal)
  }

  predicate JobDue(s: JobSchedule, since: Option<int>, last: Option<int>, lastOK: bool, now: int, zone: int) {
    var next := NextDueAt(s, since, last, lastOK, now, zone);
    next.Some? && next.value <= now
  }

  /** A job that never ran is due exactly if a slot has come since it was saved, or,
      without such a time or with one yet to come, if one is due right now. */
  lemma NeverRunDue(s: JobSchedule, since: Option<int>, lastOK: bool, now: int, zone: int)
    requires HasSlots(s) && s.enabled
    ensures JobDue(s, since, None, lastOK, now, zone)
            <==> SlotIn(s, if since.Some? && since.value <= now then since.value else now, now, zone)
  {
    var from := CountFrom(since, now);
    NextFireLeast(s, from, zone);
    if SlotIn(s, from, now, zone) {
      var u :| from <= u <= now && IsSlot(s, u, zone);
      NextFireAtMost(s, from, u, zone);
    }
  }

  /** An interval job is due at once if it never ran, a period after a success, and an
      hour after a failure; an interval that does not parse, or is under an hour,
      counts as an hour. */
  lemma IntervalDue(s: JobSchedule, since: Option<int>, last: Option<int>, lastOK: bool, now: int, zone: int)
    requires s.enabled && (s.kind == Hourly || s.kind == Every)
    ensures var period := if s.kind == Every && s.every.Some? && s.every.value >= HOUR then s.every.value else HOUR;
            JobDue(s, since, last, lastOK, now, zone) <==>
            last.None? || last.value + (if lastOK then period else HOUR) <= now
  {
  }

  /** Only an enabled schedule of a known kind is ever due. */
  lemma OffNeverDue(s: JobSchedule, since: Option<int>, last: Option<int>, lastOK: bool, now: int, zone: int)
    requires !s.enabled || s.kind == OtherKind
    ensures !JobDue(s, since, last, lastOK, now, zone)
  {
  }

  /** After a success at t the job is due exactly once a later slot has come. */
  lemma AfterSuccessDue(s: JobSchedule, since: Option<int>, t: int, now: int, zone: int)
    requires HasSlots(s) && s.enabled
    ensures JobDue(s, since, Some(t), true, now, zone) <==> SlotIn(s, t + 1, now, zone)
  {
    NextFireLeast(s, t + 1, zone);
    if SlotIn(s, t + 1, now, zone) {
      var u :| t + 1 <= u <= now && IsSlot(s, u, zone);
      NextFireAtMost(s, t + 1, u, zone);
    }
  }

  /** After a failure at t the job is due strictly later and within an hour: an
      hour on, unless a calendar slot comes first. */
  lemma AfterFailureDue(s: JobSchedule, since: Option<int>, t: int, now: int, zone: int)
    requires ValidSchedule(s) && s.enabled
    ensures var next := NextDueAt(s, since, Some(t), false, now, zone);
            && next.Some? && t < next.value <= t + HOUR
            && (next.value < t + HOUR ==> HasSlots(s) && IsSlot(s, next.value, zone))
            && (HasSlots(s) ==> !SlotIn(s, t + 1, next.value - 1, zone))
  {
    if HasSlots(s) { NextFireLeast(s, t + 1, zone); }
  }

  predicate Overdue(s: JobSchedule, since: Option<int>, last: Option<int>, lastOK: bool,
                    lastSuccess: Option<int>, running: bool, now: int, zone: int)
  {
    if !s.enabled || running || Period(s) <= 0 then false
    else if lastSuccess.None? then JobDue(s, since, last, lastOK, now, zone)
    else lastSuccess.value + Period(s) <= now
  }

  /** A job whose latest attempt succeeded, or that never succeeded, is overdue
      only when it is also due, so the next tick starts it. */
  lemma OverdueMeansDue(s: JobSchedule, since: Option<int>, last: Option<int>, lastOK: bool,
                        lastSuccess: Option<int>, now: int, zone: int)
    requires ValidSchedule(s)
    requires lastSuccess.Some? ==> last == lastSuccess && lastOK
    requires Overdue(s, since, last, lastOK, lastSuccess, false, now, zone)
    ensures JobDue(s, since, last, lastOK, now, zone)
  {
    if lastSuccess.Some? && HasSlots(s) {
      var t := lastSuccess.value;
      PeriodHasSlot(s, t, zone);
      AfterSuccessDue(s, since, t, now, zone);
    }
  }

  /** A schedule that is on, and none of whose runs is active, is overdue a day after
      the last success if daily, a week after it if weekly, else a period after it; a
      job that never succeeded as soon as it is due. */
  lemma OverdueExactly(s: JobSchedule, since: Option<int>, last: Option<int>, lastOK: bool,
                       lastSuccess: Option<int>, running: bool, now: int, zone: int)
    requires ValidSchedule(s)
    ensures Overdue(s, since, last, lastOK, lastSuccess, running, now, zone) <==>
            && s.enabled && !running
            && match lastSuccess {
                 case None => JobDue(s, since, last, lastOK, now, zone)
                 case Some(t) =>
                   match s.kind
                   case Daily => t + 24 * HOUR <= now
                   case Weekly => t + 7 * 24 * HOUR <= now
                   case Every => t + s.every.value <= now
                   case _ => t + HOUR <= now
               }
  {
  }

  // ---- tick after tick -----------------------------------------------------------

  /** An attempt to back up the job: when it started and finished and whether it
      succeeded; `scheduled` unless a user started it. */
  datatype Attempt = Attempt(at: int, finish: int, ok: bool, scheduled: bool)

  /** The scheduler looks at the job, which may be running already or have its
      repository busy, and a run started then would end so; or a user backs up. */
  datatype Event =
    | Tick(now: int, active: bool, busy: bool, finish: int, ok: bool)
    | ByHand(attempt: Attempt)

  predicate LastDue(s: JobSchedule, since: Option<int>, last: Option<Attempt>, now: int, zone: int) {
    match last
    case None => JobDue(s, since, None, false, now, zone)
    case Some(a) => JobDue(s, since, Some(a.finish), a.ok, now, zone)
  }

  /** The attempt an event makes, if any. */
  function Attempted(s: JobSchedule, since: Option<int>, last: Option<Attempt>, e: Event, zone: int): Option<Attempt> {
    match e
    case ByHand(a) => Some(a.(scheduled := false))
    case Tick(now, active, busy, finish, ok) =>
      if active || !LastDue(s, since, last, now, zone) || busy then None
      else Some(Attempt(now, finish, ok, true))
  }

  /** All attempts the events make, after `last`. */
  function Attempts(s: JobSchedule, since: Option<int>, last: Option<Attempt>, events: seq<Event>, zone: int): seq<Attempt>
    decreases |events|
  {
    if events == [] then [] else
    match Attempted(s, since, last, events[0], zone)
    case None => Attempts(s, since, last, events[1..], zone)
    case Some(a) => [a] + Attempts(s, since, Some(a), events[1..], zone)
  }

  /** What separates a scheduled attempt from the one before it. */
  ghost predicate Spaced(s: JobSchedule, since: Option<int>, last: Option<Attempt>, run: Attempt, zone: int)
    requires ValidSchedule(s)
  {
    match last
    case None => HasSlots(s) ==> SlotIn(s, if since.Some? && since.value <= run.at then since.value else run.at, run.at, zone)
    case Some(a) =>
      || (!a.ok && run.at >= a.finish + HOUR)
      || (if HasSlots(s) then SlotIn(s, a.finish + 1, run.at, zone)
          else run.at >= a.finish + if a.ok && s.kind == Every then s.every.value else HOUR)
  }

  ghost predicate SpacedAt(s: JobSchedule, since: Option<int>, last: Option<Attempt>, runs: seq<Attempt>, i: nat, zone: int)
    requires i < |runs| && ValidSchedule(s)
  {
    runs[i].scheduled ==> Spaced(s, since, if i == 0 then last else Some(runs[i-1]), runs[i], zone)
  }

  ghost predicate AllSpaced(s: JobSchedule, since: Option<int>, last: Option<Attempt>, runs: seq<Attempt>, zone: int)
    requires ValidSchedule(s)
  {
    forall i: nat | i < |runs| :: SpacedAt(s, since, last, runs, i, zone)
  }

  /** A job is due exactly when that much lies behind its latest attempt. */
  lemma DueIsSpaced(s: JobSchedule, since: Option<int>, last: Option<Attempt>, run: Attempt, zone: int)
    requires ValidSchedule(s) && s.enabled
    ensures LastDue(s, since, last, run.at, zone) <==> Spaced(s, since, last, run, zone)
  {
    if !HasSlots(s) {
      IntervalDue(s, since, if last.Some? then Some(last.value.finish) else None, last.Some? && last.value.ok, run.at, zone);
      return;
    }
    match last
    case None => NeverRunDue(s, since, false, run.at, zone);
    case Some(a) =>
      if a.ok {
        AfterSuccessDue(s, since, a.finish, run.at, zone);
      } else {
        AfterFailureDue(s, since, a.finish, run.at, zone);
        var next := NextDueAt(s, since, Some(a.finish), false, run.at, zone).value;
        assert next < a.finish + HOUR ==> IsSlot(s, next, zone);
      }
  }

  /** And a tick starts it exactly then, unless it is running already or its
      repository is busy. */
  lemma TickStartsExactly(s: JobSchedule, since: Option<int>, last: Option<Attempt>, e: Event, zone: int)
    requires ValidSchedule(s) && s.enabled && e.Tick?
    ensures var run := Attempt(e.now, e.finish, e.ok, true);
            Attempted(s, since, last, e, zone) == if !e.active && !e.busy && Spaced(s, since, last, run, zone) then Some(run) else None
  {
    DueIsSpaced(s, since, last, Attempt(e.now, e.finish, e.ok, true), zone);
  }

  /** Over any run of ticks and backups by hand: a slot lies between the saving of
      the job and its first scheduled run and between each success and the next
      scheduled run, for an interval job its period between the latter; after a
      failure the next is an hour on unless a slot comes between. */
  lemma {:induction false} AttemptsSpaced(s: JobSchedule, since: Option<int>, last: Option<Attempt>, events: seq<Event>, zone: int)
    requires ValidSchedule(s) && s.enabled
    ensures AllSpaced(s, since, last, Attempts(s, since, last, events, zone), zone)
    decreases |events|
  {
    if events != [] {
      var a := Attempted(s, since, last, events[0], zone);
      match a
      case None => AttemptsSpaced(s, since, last, events[1..], zone);
      case Some(run) =>
        var rest := Attempts(s, since, a, events[1..], zone);
        var runs := [run] + rest;
        AttemptsSpaced(s, since, a, events[1..], zone);
        if run.scheduled { DueIsSpaced(s, since, last, run, zone); }
        forall i: nat | i < |runs| ensures SpacedAt(s, since, last, runs, i, zone) {
          if i > 0 { assert SpacedAt(s, since, a, rest, i - 1, zone); }
        }
    }
  }

  /** No slot after t comes by the time of any of the ticks. */
  ghost predicate Quiet(s: JobSchedule, t: int, ticks: seq<Event>, zone: int) {
    forall i | 0 <= i < |ticks| :: ticks[i].Tick? && !SlotIn(s, t + 1, ticks[i].now, zone)
  }

  /** However many slots were missed, one run catches up: once it succeeded, no
      tick starts another until the next slot has come. */
  lemma {:induction false} OneCatchUp(s: JobSchedule, since: Option<int>, last: Option<Attempt>, first: Event, ticks: seq<Event>, zone: int)
    requires HasSlots(s) && s.enabled
    requires first.Tick? && first.ok && Attempted(s, since, last, first, zone).Some?
    requires Quiet(s, first.finish, ticks, zone)
    ensures Attempts(s, since, last, [first] + ticks, zone) == [Attempt(first.now, first.finish, true, true)]
  {
    var run := Attempt(first.now, first.finish, true, true);
    StaysQuiet(s, since, run, ticks, zone);
    assert ([first] + ticks)[1..] == ticks;
  }

  lemma {:induction false} StaysQuiet(s: JobSchedule, since: Option<int>, run: Attempt, ticks: seq<Event>, zone: int)
    requires HasSlots(s) && s.enabled && run.ok && Quiet(s, run.finish, ticks, zone)
    ensures Attempts(s, since, Some(run), ticks, zone) == []
    decreases |ticks|
  {
    if ticks != [] {
      AfterSuccessDue(s, since, run.finish, ticks[0].now, zone);
      StaysQuiet(s, since, run, ticks[1..], zone);
    }
  }
}
