/** What a start of the application does for the restores a crash cut short. It
    marks every one of them interrupted before it starts any container again, so a
    second crash in between can leave a site down for good. */
module Startup {
  import opened Containers
  import opened Sequences

  /** The record of a restore: the containers it has stopped, and whether it is
      still active. A terminal record is never looked at again. */
  datatype Restore = Restore(listed: seq<ContainerId>, active: bool)

  /** What survives a crash. */
  datatype Remains = Remains(running: set<ContainerId>, restores: seq<Restore>)

  /** The containers the next start of the application starts, in order. */
  function Queue(restores: seq<Restore>): seq<ContainerId> {
    if restores == [] then []
    else
      var last := restores[|restores|-1];
      Queue(restores[..|restores|-1]) + if last.active then last.listed else []
  }

  lemma {:induction false} QueueMembers(restores: seq<Restore>)
    ensures forall c :: c in Queue(restores) <==> exists k :: 0 <= k < |restores| && restores[k].active && c in restores[k].listed
  {
    if restores != [] {
      var n := |restores| - 1;
      var rest := restores[..n];
      QueueMembers(rest);
      forall c ensures c in Queue(restores) <==> exists k :: 0 <= k <= n && restores[k].active && c in restores[k].listed {
        if c in Queue(rest) {
          var k :| 0 <= k < n && rest[k].active && c in rest[k].listed;
          assert restores[k] == rest[k];
        }
        if k :| 0 <= k <= n && restores[k].active && c in restores[k].listed {
          assert k == n || rest[k] == restores[k];
        }
      }
    }
  }

  lemma QueueSnoc(s: seq<Restore>, r: Restore)
    ensures Queue(s + [r]) == Queue(s) + if r.active then r.listed else []
  {
    assert (s + [r])[..|s|] == s;
  }

  /** The queue goes record by record, each with its list in order. */
  lemma {:induction false} QueueInOrder(a: seq<Restore>, b: seq<Restore>)
    ensures Queue(a + b) == Queue(a) + Queue(b)
    ensures |b| == 1 ==> Queue(b) == if b[0].active then b[0].listed else []
  {
    if b == [] {
      assert a + b == a;
    } else {
      var init, last := b[..|b| - 1], b[|b| - 1];
      assert b == init + [last];
      assert a + b == (a + init) + [last];
      QueueInOrder(a, init);
      QueueSnoc(a + init, last);
      QueueSnoc(init, last);
      Assoc(Queue(a), Queue(init), if last.active then last.listed else []);
    }
  }

  /** The next start brings the whole site back, if the containers start. */
  ghost predicate Recovers(site: set<ContainerId>, w: Remains) {
    forall c | c in site :: c in w.running || c in Queue(w.restores)
  }

  /** A restore that was cut short alone leaves a site that is recovered. */
  lemma CutShortRecovers(site: set<ContainerId>, w: World)
    ensures Recoverable(site, w) <==> Recovers(site, Remains(w.running, [Restore(w.listed, w.active)]))
  {
    var restores := [Restore(w.listed, w.active)];
    assert Queue(restores) == Queue([]) + if w.active then w.listed else [];
    forall c ensures c in Queue(restores) <==> c in ToStart(w) {}
    if Recoverable(site, w) {
      forall c | c in site ensures c in w.running || c in Queue(restores) { assert c in w.running + ToStart(w); }
    }
  }

  /** The first n records are terminal, the others as they were. */
  function Marked(restores: seq<Restore>, n: nat): (r: seq<Restore>)
    requires n <= |restores|
    ensures |r| == |restores|
  {
    seq(|restores|, k requires 0 <= k < |restores| => if k < n then restores[k].(active := false) else restores[k])
  }

  /** After the first n marks and the first i starts. */
  function Midway(w: Remains, n: nat, i: nat, start: ContainerId -> Fault): Remains
    requires n <= |w.restores| && i <= |Queue(w.restores)|
  {
    Remains(w.running + Restarted(Queue(w.restores)[..i], start), Marked(w.restores, n))
  }

  /** A moment of the start: no container is started before the last mark. */
  predicate Moment(w: Remains, n: nat, i: nat) {
    n <= |w.restores| && i <= |Queue(w.restores)| && (n < |w.restores| ==> i == 0)
  }

  /** One of the worlds the start goes through. */
  ghost predicate During(w0: Remains, start: ContainerId -> Fault, w: Remains) {
    exists n: nat, i: nat :: Moment(w0, n, i) && w == Midway(w0, n, i, start)
  }

  class Application {
    var running: set<ContainerId>
    var restores: seq<Restore>
    // every world there has been, a crash could hit any
    ghost var past: seq<Remains>

    function Now(): Remains
      reads this
    {
      Remains(running, restores)
    }

    method Start(c: ContainerId, fault: Fault)
      modifies `running, `past
      ensures running == if fault.Takes() then old(running) + {c} else old(running)
      ensures past == old(past) + [old(Now())]
    {
      past := past + [Now()];
      if fault.Takes() {
        running := running + {c};
      }
    }

    /** Marks the active records and gathers what they list. */
    method MarkAll() returns (stopped: seq<ContainerId>)
      modifies `restores, `past
      ensures restores == Marked(old(restores), |old(restores)|)
      ensures stopped == Queue(old(restores))
      ensures old(past) <= past
      ensures forall w | w in past[|old(past)|..] ::
                exists n: nat :: n < |old(restores)| && w == Remains(running, Marked(old(restores), n))
    {
      ghost var since: seq<Remains> := [];
      stopped := [];
      assert restores == Marked(restores, 0);
      for n := 0 to |restores|
        invariant past == old(past) + since && |restores| == |old(restores)|
        invariant restores == Marked(old(restores), n)
        invariant stopped == Queue(old(restores)[..n])
        invariant forall w | w in since :: exists m: nat :: m < |old(restores)| && w == Remains(running, Marked(old(restores), m))
      {
        assert old(restores)[..n + 1][..n] == old(restores)[..n];
        since := since + [Now()];
        past := past + [Now()];
        if restores[n].active {
          stopped := stopped + restores[n].listed;
          restores := restores[n := restores[n].(active := false)];
        }
        assert restores == Marked(old(restores), n + 1);
      }
      assert old(restores)[..|restores|] == old(restores);
      assert past[|old(past)|..] == since;
    }

    /** Marks every restore that was cut short, and then starts what they list. */
    method Reconcile(start: ContainerId -> Fault)
      modifies this
      ensures restores == Marked(old(restores), |old(restores)|)
      ensures running == old(running) + Restarted(Queue(old(restores)), start)
      ensures old(past) <= past
      ensures forall w | w in past[|old(past)|..] :: During(old(Now()), start, w)
    {
      ghost var w0 := Now();
      var stopped := MarkAll();
      ghost var since := past[|old(past)|..];
      forall w | w in since ensures During(w0, start, w) {
        var n: nat :| n < |w0.restores| && w == Remains(running, Marked(w0.restores, n));
        assert Moment(w0, n, 0) && w == Midway(w0, n, 0, start);
      }
      for i := 0 to |stopped|
        invariant past == old(past) + since && restores == Marked(w0.restores, |w0.restores|)
        invariant running == w0.running + Restarted(stopped[..i], start)
        invariant forall w | w in since :: During(w0, start, w)
      {
        assert stopped[..i + 1] == stopped[..i] + [stopped[i]];
        assert Moment(w0, |w0.restores|, i) && Now() == Midway(w0, |w0.restores|, i, start);
        since := since + [Now()];
        Start(stopped[i], start(stopped[i]));
      }
      assert stopped[..|stopped|] == stopped;
      assert past[|old(past)|..] == since;
    }
  }

  /** Listed by a restore that a second crash after n marks leaves active. */
  ghost predicate StillListed(restores: seq<Restore>, n: nat, c: ContainerId) {
    exists k :: n <= k < |restores| && restores[k].active && c in restores[k].listed
  }

  /** What a further start still starts after a second crash: the containers of the
      restores that were not marked yet. */
  lemma QueueMarked(restores: seq<Restore>, n: nat)
    requires n <= |restores|
    ensures forall c :: c in Queue(Marked(restores, n)) <==> StillListed(restores, n, c)
  {
    QueueMembers(Marked(restores, n));
    forall c ensures c in Queue(Marked(restores, n)) <==> StillListed(restores, n, c) {
      if k :| n <= k < |restores| && restores[k].active && c in restores[k].listed {
        assert Marked(restores, n)[k] == restores[k];
      }
    }
  }

  /** A second crash is recovered if and only if every container of the site that
      a marked restore had stopped is running, is up again, or is listed by a
      restore not yet marked. */
  lemma SecondCrashExactly(site: set<ContainerId>, w: Remains, n: nat, i: nat, start: ContainerId -> Fault)
    requires Recovers(site, w) && Moment(w, n, i)
    ensures Recovers(site, Midway(w, n, i, start)) <==>
            forall k, c | 0 <= k < n && w.restores[k].active && c in w.restores[k].listed && c in site ::
              c in w.running || c in Restarted(Queue(w.restores)[..i], start) || StillListed(w.restores, n, c)
  {
    var mid := Midway(w, n, i, start);
    QueueMembers(w.restores);
    QueueMarked(w.restores, n);
    if forall k, c | 0 <= k < n && w.restores[k].active && c in w.restores[k].listed && c in site ::
         c in mid.running || StillListed(w.restores, n, c) {
      forall c | c in site ensures c in mid.running || c in Queue(mid.restores) {
        if c !in w.running {
          var k :| 0 <= k < |w.restores| && w.restores[k].active && c in w.restores[k].listed;
          if k >= n { assert StillListed(w.restores, n, c); }
        }
      }
    }
  }

  /** A crash between two marks leaves the first site down for good and not the
      second. */
  lemma SecondCrashLosesSite(start: ContainerId -> Fault)
    ensures var w := Remains({}, [Restore(["a"], true), Restore(["b"], true)]);
            Recovers({"a", "b"}, w) && Moment(w, 1, 0) &&
            var mid := Midway(w, 1, 0, start);
            !Recovers({"a"}, mid) && "a" !in Queue(mid.restores) && Recovers({"b"}, mid)
  {
    var w := Remains({}, [Restore(["a"], true), Restore(["b"], true)]);
    QueueMembers(w.restores);
    QueueMarked(w.restores, 1);
    assert w.restores[0].active && "a" in w.restores[0].listed;
    assert w.restores[1].active && "b" in w.restores[1].listed;
    assert Restarted([], start) == {};
    assert Queue(w.restores)[..0] == [];
    assert "a" !in w.restores[1].listed;
  }
}
