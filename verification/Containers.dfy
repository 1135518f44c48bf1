/** A file restore that stops the containers using its destination and starts
    them again: what is down is always in the run's durable list, so a crash at
    any moment of the restore leaves enough behind to bring the site back. The
    restart that does so marks the run first and starts the containers after; a
    second crash in between can leave the site down for good. */
module Containers {
  import opened Sequences

  type ContainerId = string

  /** How a Docker call ends. A call that reports failure may have had its effect. */
  datatype Fault = Fine | Failed(applied: bool) {
    predicate Takes() {
      this == Fine || this.applied
    }
  }

  /** What survives a crash: the running containers, the run's durable list, and
      whether its record is still active. */
  datatype World = World(running: set<ContainerId>, listed: seq<ContainerId>, active: bool)

  /** The containers a restart after a crash in this world starts: only an active
      record is reconciled, a terminal one is never looked at again. */
  function ToStart(w: World): set<ContainerId> {
    if w.active then set c | c in w.listed else {}
  }

  /** A restart brings the whole site back, if its starts succeed. */
  ghost predicate Recoverable(site: set<ContainerId>, w: World) {
    site <= w.running + ToStart(w)
  }

  /** The stopped containers whose restart reports failure, in the order tried. */
  function FailedStarts(stopped: seq<ContainerId>, start: ContainerId -> Fault): seq<ContainerId> {
    if stopped == [] then []
    else
      var last := stopped[|stopped|-1];
      (if start(last).Failed? then [last] else []) + FailedStarts(stopped[..|stopped|-1], start)
  }

  /** The stopped containers whose restart takes effect. */
  function Restarted(stopped: seq<ContainerId>, start: ContainerId -> Fault): set<ContainerId> {
    set c | c in stopped && start(c).Takes()
  }

  lemma RestartedFirst(stopped: seq<ContainerId>, i: nat, start: ContainerId -> Fault)
    requires i < |stopped|
    ensures Restarted(stopped[i..], start) ==
            Restarted(stopped[i+1..], start) + (if start(stopped[i]).Takes() then {stopped[i]} else {})
  {
    assert stopped[i..] == [stopped[i]] + stopped[i+1..];
  }

  lemma FailedStartsLast(stopped: seq<ContainerId>, i: nat, start: ContainerId -> Fault, failed: seq<ContainerId>)
    requires i < |stopped|
    ensures failed + FailedStarts(stopped[..i+1], start) ==
            (if start(stopped[i]).Failed? then failed + [stopped[i]] else failed) + FailedStarts(stopped[..i], start)
  {
    var rest := FailedStarts(stopped[..i], start);
    assert stopped[..i+1][..i] == stopped[..i];
    assert failed + ([stopped[i]] + rest) == failed + [stopped[i]] + rest;
    assert failed + ([] + rest) == failed + rest;
  }

  lemma {:induction false} FailedStartsMembers(stopped: seq<ContainerId>, start: ContainerId -> Fault)
    ensures forall c :: c in FailedStarts(stopped, start) <==> c in stopped && start(c).Failed?
  {
    if stopped != [] {
      FailedStartsMembers(stopped[..|stopped|-1], start);
      assert stopped == stopped[..|stopped|-1] + [stopped[|stopped|-1]];
    }
  }

  lemma FailedStartsSnoc(s: seq<ContainerId>, c: ContainerId, start: ContainerId -> Fault)
    ensures FailedStarts(s + [c], start) == (if start(c).Failed? then [c] else []) + FailedStarts(s, start)
  {
    assert (s + [c])[..|s|] == s;
  }

  /** The list is that of the later containers, then that of the earlier ones. */
  lemma {:induction false} FailedStartsReversed(a: seq<ContainerId>, b: seq<ContainerId>, start: ContainerId -> Fault)
    ensures FailedStarts(a + b, start) == FailedStarts(b, start) + FailedStarts(a, start)
    ensures |b| == 1 ==> FailedStarts(b, start) == if start(b[0]).Failed? then b else []
  {
    if b == [] {
      assert a + b == a;
    } else {
      var init, last := b[..|b| - 1], b[|b| - 1];
      assert b == init + [last];
      assert a + b == (a + init) + [last];
      FailedStartsReversed(a, init, start);
      FailedStartsSnoc(a + init, last, start);
      FailedStartsSnoc(init, last, start);
      Assoc(if start(last).Failed? then [last] else [], FailedStarts(init, start), FailedStarts(a, start));
    }
  }

  /** Worlds of a restart, the last container first: in each, one more of the stopped
      ones has been tried. */
  ghost predicate LastFirst(worlds: seq<World>, w: World, stopped: seq<ContainerId>, start: ContainerId -> Fault) {
    |worlds| <= |stopped| + 1 &&
    forall k | 0 <= k < |worlds| :: worlds[k] == w.(running := w.running + Restarted(stopped[|stopped| - k..], start))
  }

  lemma StaySafe(site: set<ContainerId>, w: World, worlds: seq<World>, stopped: seq<ContainerId>, start: ContainerId -> Fault)
    requires Recoverable(site, w) && LastFirst(worlds, w, stopped, start)
    ensures forall v | v in worlds :: Recoverable(site, v)
  {
    forall v | v in worlds ensures Recoverable(site, v) { assert ToStart(v) == ToStart(w) && w.running <= v.running; }
  }

  class Host {
    var running: set<ContainerId>
    var listed: seq<ContainerId>
    var active: bool
    // every world there has been since the restore began, a crash could hit any
    ghost var past: seq<World>

    ghost predicate SafeSoFar(site: set<ContainerId>)
      reads this
    {
      Recoverable(site, World(running, listed, active)) && forall w | w in past :: Recoverable(site, w)
    }

    constructor (running: set<ContainerId>)
      ensures this.running == running && listed == [] && active && past == [] && SafeSoFar(running)
    {
      this.running, listed, active, past := running, [], true, [];
    }

    method Record(list: seq<ContainerId>, ghost site: set<ContainerId>)
      requires SafeSoFar(site) && Recoverable(site, World(running, list, active))
      modifies `listed, `past
      ensures SafeSoFar(site) && running == old(running) && listed == list
      ensures past == old(past) + [World(old(running), old(listed), active)]
    {
      past := past + [World(running, listed, active)];
      listed := list;
    }

    method Stop(c: ContainerId, fault: Fault, ghost site: set<ContainerId>)
      requires SafeSoFar(site) && active && c in listed
      modifies `running, `past
      ensures SafeSoFar(site) && listed == old(listed)
      ensures running == if fault.Takes() then old(running) - {c} else old(running)
      ensures past == old(past) + [World(old(running), old(listed), active)]
    {
      past := past + [World(running, listed, active)];
      if fault.Takes() {
        running := running - {c};
      }
    }

    method Start(c: ContainerId, fault: Fault)
      modifies `running, `past
      ensures running == if fault.Takes() then old(running) + {c} else old(running)
      ensures past == old(past) + [World(old(running), listed, active)]
    {
      past := past + [World(running, listed, active)];
      if fault.Takes() {
        running := running + {c};
      }
    }

    /** Starts the stopped containers again, last one first; the result lists those
        whose start failed. */
    method StartAll(stopped: seq<ContainerId>, start: ContainerId -> Fault) returns (failed: seq<ContainerId>)
      modifies `running, `past
      ensures failed == FailedStarts(stopped, start)
      ensures running == old(running) + Restarted(stopped, start)
      ensures old(past) <= past && |past| == |old(past)| + |stopped|
      ensures LastFirst(past[|old(past)|..], old(World(running, listed, active)), stopped, start)
    {
      ghost var since: seq<World> := [];
      failed := [];
      var i := |stopped|;
      assert stopped[..i] == stopped;
      while i > 0
        invariant 0 <= i <= |stopped|
        invariant failed + FailedStarts(stopped[..i], start) == FailedStarts(stopped, start)
        invariant running == old(running) + Restarted(stopped[i..], start)
        invariant past == old(past) + since && |since| == |stopped| - i
        invariant LastFirst(since, old(World(running, listed, active)), stopped, start)
      {
        since := since + [World(running, listed, active)];
        i := i - 1;
        var c := stopped[i];
        Start(c, start(c));
        RestartedFirst(stopped, i, start);
        FailedStartsLast(stopped, i, start, failed);
        if start(c).Failed? {
          failed := failed + [c];
        }
      }
      assert stopped[0..] == stopped;
      assert past[|old(past)|..] == since;
    }

    /** Starts the stopped containers again and leaves on the list exactly those whose
        start failed. */
    method Restart(stopped: seq<ContainerId>, start: ContainerId -> Fault, ghost site: set<ContainerId>)
      requires SafeSoFar(site) && active && (forall c | c in listed :: c in stopped)
      modifies `running, `listed, `past
      ensures SafeSoFar(site)
      ensures listed == FailedStarts(stopped, start)
      ensures running == old(running) + Restarted(stopped, start)
      ensures old(past) <= past && |past| == |old(past)| + |stopped| + 1
      ensures LastFirst(past[|old(past)|..], old(World(running, listed, active)), stopped, start)
    {
      ghost var w := World(running, listed, active);
      var failed := StartAll(stopped, start);
      ghost var since := past[|old(past)|..];
      StaySafe(site, w, since, stopped, start);
      assert past == old(past) + since;
      FailedStartsMembers(stopped, start);
      assert stopped[0..] == stopped;
      ghost var worlds := since + [World(running, listed, active)];
      Record(failed, site);
      assert past[|old(past)|..] == worlds;
    }

    /** Stops the given containers one by one, listing each before it is stopped.
        If one cannot be stopped, what was stopped is started again. */
    method StopContainersUsing(conts: seq<ContainerId>, stop: ContainerId -> Fault, start: ContainerId -> Fault,
                               ghost site: set<ContainerId>)
      returns (stopped: seq<ContainerId>, ok: bool)
      requires listed == [] && active && SafeSoFar(site)
      modifies `running, `listed, `past
      ensures SafeSoFar(site)
      ensures ok <==> forall c | c in conts :: stop(c) == Fine
      ensures ok ==> stopped == conts && listed == conts && running == old(running) - set c | c in conts
      ensures !ok ==> stopped <= conts && listed == FailedStarts(stopped, start)
      ensures !ok ==> stopped != [] && stop(stopped[|stopped| - 1]) != Fine && forall c | c in stopped[..|stopped| - 1] :: stop(c) == Fine
      ensures !ok ==> forall c | c in old(running) && c !in running :: c in listed && !start(c).Takes()
    {
      stopped, ok := [], true;
      for i := 0 to |conts|
        invariant stopped == conts[..i] && listed == stopped && SafeSoFar(site)
        invariant forall c | c in conts[..i] :: stop(c) == Fine
        invariant running == old(running) - set c | c in conts[..i]
      {
        var c := conts[i];
        assert conts[..i+1] == conts[..i] + [c];
        stopped := stopped + [c];
        Record(stopped, site);
        Stop(c, stop(c), site);
        if stop(c) != Fine {
          Restart(stopped, start, site);
          assert c in conts;
          FailedStartsMembers(stopped, start);
          return stopped, false;
        }
      }
      assert conts[..|conts|] == conts;
    }

    /** A whole restore: stop, do the work, start again whatever came of it. */
    method RestoreStopped(conts: seq<ContainerId>, stop: ContainerId -> Fault, start: ContainerId -> Fault)
      returns (worked: bool)
      requires listed == [] && active && past == []
      modifies `running, `listed, `past
      ensures SafeSoFar(old(running))
      ensures worked <==> forall c | c in conts :: stop(c) == Fine
      ensures forall c :: c in listed ==> c in conts && start(c).Failed?
      ensures worked ==> forall c | c in conts && start(c).Failed? :: c in listed
      ensures forall c | c in old(running) && c !in running :: c in listed && !start(c).Takes()
    {
      ghost var site := running;
      var stopped, ok := StopContainersUsing(conts, stop, start, site);
      FailedStartsMembers(stopped, start);
      if ok {
        Restart(stopped, start, site);
      }
      return ok;
    }
  }
}
