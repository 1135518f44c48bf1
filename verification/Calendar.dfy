/** The calendar slots of daily and weekly schedules. Times are nanoseconds since
    the Unix epoch; the local zone is a fixed offset east of UTC. */
module Calendar {
  import opened RunModel
  import opened Sequences

  const HOUR := 3_600_000_000_000

  function Days(n: int): int {
    n * 86_400_000_000_000
  }

  datatype Kind = Hourly | Every | Daily | Weekly | OtherKind

  /** `every` is the parsed duration of an "every" schedule and `at` the parsed
      time of day, in minutes; None where the text does not parse. */
  datatype JobSchedule = JobSchedule(enabled: bool, kind: Kind, every: Option<int>, at: Option<int>, weekdays: seq<int>)

  /** A time of day from 00:00 to 23:59. */
  predicate ValidClock(at: Option<int>) {
    at.Some? && 0 <= at.value < 24 * 60
  }

  /** The schedules that JobSchedule.Validate accepts. */
  predicate ValidSchedule(s: JobSchedule) {
    match s.kind
    case Hourly => true
    case Every => s.every.Some? && s.every.value >= HOUR
    case Daily => ValidClock(s.at)
    case Weekly => ValidClock(s.at) && s.weekdays != [] && forall d | d in s.weekdays :: 0 <= d <= 6
    case OtherKind => false
  }

  /** A valid schedule that has calendar slots. */
  predicate HasSlots(s: JobSchedule) {
    (s.kind == Daily || s.kind == Weekly) && ValidSchedule(s)
  }

  /** Validate leaves the weekdays sorted and unique. */
  method NormalizeWeekdays(days: seq<int>) returns (out: seq<int>)
    requires forall d | d in days :: 0 <= d <= 6
    ensures forall d :: d in out <==> d in days
    ensures Increasing(out)
  {
    out := [];
    for d := 0 to 7
      invariant forall x :: x in out <==> x in days && x < d
      invariant Increasing(out)
    {
      if d in days {
        assert forall i | 0 <= i < |out| :: out[i] in out;
        out := out + [d];
      }
    }
  }

  function DayOf(t: int, zone: int): int {
    (t + zone) / 86_400_000_000_000
  }

  /** Sunday is 0; day 0 was a Thursday. */
  function Weekday(day: int): int {
    (day + 4) % 7
  }

  function TimeOfDay(s: JobSchedule): int
    requires s.at.Some?
  {
    s.at.value * 60_000_000_000
  }

  function SlotOn(s: JobSchedule, day: int, zone: int): int
    requires s.at.Some?
  {
    Days(day) - zone + TimeOfDay(s)
  }

  predicate Allowed(s: JobSchedule, day: int) {
    s.kind == Weekly ==> Weekday(day) in s.weekdays
  }

  /** t is one of the schedule's calendar slots. */
  ghost predicate IsSlot(s: JobSchedule, t: int, zone: int) {
    s.at.Some? && exists day :: Allowed(s, day) && SlotOn(s, day, zone) == t
  }

  ghost predicate SlotIn(s: JobSchedule, from: int, to: int, zone: int) {
    exists t :: from <= t <= to && IsSlot(s, t, zone)
  }

  /** By the clock on the wall: the slots are the moments at the schedule's time of
      day, in the local zone, on one of its weekdays. */
  lemma SlotsExactly(s: JobSchedule, t: int, zone: int)
    requires ValidClock(s.at)
    ensures var local := t + zone;
            IsSlot(s, t, zone) <==>
            && local % (24 * HOUR) == s.at.value * (HOUR / 60)
            && (s.kind == Weekly ==> (local / (24 * HOUR) + 4) % 7 in s.weekdays)
  {
    var day := DayOf(t, zone);
    if IsSlot(s, t, zone) {
      var d :| Allowed(s, d) && SlotOn(s, d, zone) == t;
      SlotBounds(s, d, zone);
      assert d == day;
    }
    if (t + zone) % (24 * HOUR) == TimeOfDay(s) { assert SlotOn(s, day, zone) == t; }
  }

  /** The first allowed slot not before `from` on the days from `day` up to `end`. */
  function FireFrom(s: JobSchedule, day: int, end: int, from: int, zone: int): Option<int>
    requires s.at.Some? && day <= end
    decreases end - day
  {
    if day == end then None
    else if Allowed(s, day) && SlotOn(s, day, zone) >= from then Some(SlotOn(s, day, zone))
    else FireFrom(s, day + 1, end, from, zone)
  }

  function NextCalendarFire(s: JobSchedule, from: int, zone: int): int {
    if s.at.None? then from else
    var base := DayOf(from, zone);
    match FireFrom(s, base, base + 8, from, zone)
    case Some(t) => t
    case None => SlotOn(s, base + 7, zone)
  }

  /** nextCalendarFire, with its loop over eight days. */
  method ComputeNextFire(s: JobSchedule, from: int, zone: int) returns (t: int)
    ensures t == NextCalendarFire(s, from, zone)
    ensures s.at.None? ==> t == from
    ensures HasSlots(s) ==> IsSlot(s, t, zone) && t >= from && !SlotIn(s, from, t - 1, zone)
  {
    if HasSlots(s) { NextFireLeast(s, from, zone); }
    if s.at.None? {
      return from;
    }
    var base := DayOf(from, zone);
    for i := 0 to 8
      invariant FireFrom(s, base, base + 8, from, zone) == FireFrom(s, base + i, base + 8, from, zone)
    {
      var candidate := SlotOn(s, base + i, zone);
      if s.kind == Weekly && Weekday(base + i) !in s.weekdays {
        continue;
      }
      if candidate >= from {
        return candidate;
      }
    }
    return SlotOn(s, base + 7, zone);
  }

  /** The search stops at the first day it may. */
  lemma {:induction false} FireFromFirst(s: JobSchedule, day: int, end: int, from: int, zone: int) returns (k: int)
    requires s.at.Some? && day <= end
    ensures day <= k <= end
    ensures forall d | day <= d < k && Allowed(s, d) :: SlotOn(s, d, zone) < from
    ensures k == end ==> FireFrom(s, day, end, from, zone) == None
    ensures k < end ==> Allowed(s, k) && SlotOn(s, k, zone) >= from
                        && FireFrom(s, day, end, from, zone) == Some(SlotOn(s, k, zone))
    decreases end - day
  {
    if day == end || (Allowed(s, day) && SlotOn(s, day, zone) >= from) {
      return day;
    }
    k := FireFromFirst(s, day + 1, end, from, zone);
  }

  /** Seven days in a row include one that is allowed. */
  lemma SomeDayAllowed(s: JobSchedule, from: int) returns (day: int)
    requires HasSlots(s)
    ensures from <= day < from + 7 && Allowed(s, day)
  {
    if s.kind == Daily { return from; }
    var d := s.weekdays[0];
    assert d in s.weekdays;
    day := from + (d - Weekday(from)) % 7;
    assert Weekday(day) == d;
  }

  /** The slot of a day lies within that day. */
  lemma SlotBounds(s: JobSchedule, day: int, zone: int)
    requires ValidClock(s.at)
    ensures Days(day) <= SlotOn(s, day, zone) + zone < Days(day) + Days(1)
  {
  }

  lemma DayBounds(t: int, zone: int)
    ensures Days(DayOf(t, zone)) <= t + zone < Days(DayOf(t, zone)) + Days(1)
  {
  }

  lemma SlotBefore(s: JobSchedule, day: int, t: int, zone: int)
    requires ValidClock(s.at) && day < DayOf(t, zone)
    ensures SlotOn(s, day, zone) < t
  {
    SlotBounds(s, day, zone);
    DayBounds(t, zone);
  }

  lemma SlotAfter(s: JobSchedule, day: int, t: int, zone: int)
    requires ValidClock(s.at) && day > DayOf(t, zone)
    ensures SlotOn(s, day, zone) > t
  {
    SlotBounds(s, day, zone);
    DayBounds(t, zone);
  }

  /** The next fire is the least allowed slot not before `from`; for a valid
      schedule the fallback after the loop is never reached. */
  lemma NextFireLeast(s: JobSchedule, from: int, zone: int)
    requires HasSlots(s)
    ensures var t := NextCalendarFire(s, from, zone);
            IsSlot(s, t, zone) && t >= from && !SlotIn(s, from, t - 1, zone)
    ensures FireFrom(s, DayOf(from, zone), DayOf(from, zone) + 8, from, zone).Some?
  {
    var base := DayOf(from, zone);
    var k := FireFromFirst(s, base, base + 8, from, zone);
    var day := SomeDayAllowed(s, base + 1);
    SlotAfter(s, day, from, zone);
    assert k <= day;
    forall u | IsSlot(s, u, zone) && from <= u ensures SlotOn(s, k, zone) <= u {
      var d :| Allowed(s, d) && SlotOn(s, d, zone) == u;
      if d < base { SlotBefore(s, d, from, zone); }
    }
  }

  /** Without an allowed weekday the search gives up after eight days and answers the
      same time a week on. */
  lemma NextFireFallback(s: JobSchedule, from: int, zone: int)
    requires s.at.Some? && s.kind == Weekly && forall d | d in s.weekdays :: !(0 <= d <= 6)
    ensures NextCalendarFire(s, from, zone) == Days(DayOf(from, zone) + 7) - zone + s.at.value * (HOUR / 60)
  {
    var base := DayOf(from, zone);
    var k := FireFromFirst(s, base, base + 8, from, zone);
    assert k < base + 8 ==> Weekday(k) in s.weekdays;
  }

  lemma NextFireAtMost(s: JobSchedule, from: int, slot: int, zone: int)
    requires HasSlots(s) && IsSlot(s, slot, zone) && from <= slot
    ensures NextCalendarFire(s, from, zone) <= slot
  {
    NextFireLeast(s, from, zone);
    assert slot > NextCalendarFire(s, from, zone) - 1;
  }

  /** Every half-open window a period long contains a slot: a day for a daily
      schedule, seven days for a weekly one. */
  lemma PeriodHasSlot(s: JobSchedule, t: int, zone: int)
    requires HasSlots(s)
    ensures SlotIn(s, t + 1, t + Days(if s.kind == Daily then 1 else 7), zone)
  {
    var base := DayOf(t, zone);
    var today := SlotOn(s, base, zone);
    SlotBounds(s, base, zone);
    DayBounds(t, zone);
    var day;
    if today > t && Allowed(s, base) {
      day := base;
    } else {
      day := SomeDayAllowed(s, base + 1);
      if s.kind == Daily { day := base + 1; }
      if day == base + 7 { assert Weekday(base) == Weekday(day); }
    }
    assert SlotOn(s, day, zone) == today + Days(day - base);
    assert IsSlot(s, SlotOn(s, day, zone), zone);
  }
}
