/** A PostgreSQL restore: import into a temporary database, then swap it in. */
module PostgresRestore {
  import opened DatabaseServer

  /** How each of the commands a restore may run goes. */
  datatype Faults = Faults(create: Fault, importing: ImportFault, properties: Fault, cleanup: Fault,
                           swap: Fault, check: QueryFault, reopen: Fault, dropTemp: Fault, rename: Fault)

  /** What the restore reports. */
  datatype Report =
    | Restored      // success
    | NotChanged    // failed: "the database was not changed"
    | Stranded      // failed: "was dropped but the restored copy is still named" tmp

  /** postgres: `present` is whether the live database existed when the run looked. */
  function Restore(s: Server, name: Name, tmp: Name, present: bool, dump: seq<Row>, f: Faults): (Server, Report) {
    var (s1, created) := Exec(s, Create(tmp), f.create);
    if created != Done then (s1, NotChanged) else
    var (s2, imported) := Import(s1, tmp, dump, f.importing);
    var (s3, copied) := if imported && present then Exec(s2, PgCopyProperties(name, tmp), f.properties) else (s2, Done);
    if !imported || copied != Done then (Exec(s3, PgDrop(tmp), f.cleanup).0, NotChanged) else
    var (s4, swapped) := Exec(s3, PgSwap(tmp, name, present), f.swap);
    if swapped == Done then (s4, Restored) else RecoverSwap(s4, name, tmp, f)
  }

  /** recoverSwap: the live database is still there, or the rename is retried. */
  function RecoverSwap(s: Server, name: Name, tmp: Name, f: Faults): (Server, Report) {
    if f.check == Answered && name in s then
      var s1 := Exec(s, PgAllow(name), f.reopen).0;
      (Exec(s1, PgDrop(tmp), f.dropTemp).0, NotChanged)
    else
      var (s1, renamed) := Exec(s, PgSwap(tmp, name, false), f.rename);
      (s1, if renamed == Done then Restored else Stranded)
  }

  /** Two servers hold the same under a name: nothing, or the same rows. */
  predicate SameRows(s: Server, s': Server, name: Name) {
    if name in s then name in s' && s'[name].rows == s[name].rows else name !in s'
  }

  predicate Holds(s: Server, name: Name, rows: seq<Row>) {
    name in s && s[name].rows == rows
  }

  /** The temporary database before the swap: the dump, and the settings of the
      database it replaces. */
  function Ready(s: Server, name: Name, dump: seq<Row>): Database {
    Database(dump, true, if name in s then s[name].settings else "")
  }

  // ---- the single commands ------------------------------------------------------

  /** How many statements of a script of this length get to run. */
  function Ran(fault: Fault, length: nat): nat {
    match fault
    case NoFault => length
    case Refused(at) => if at < length then at else length
    case Lost(after) => if after < length then after else length
  }

  /** A command of so many statements reports that it went through. */
  predicate Passes(fault: Fault, length: nat) {
    fault == NoFault || (fault.Refused? && fault.at >= length)
  }

  function Closed(s: Server, db: Name): Server {
    Effect(s, CloseConnections(db))
  }

  /** The first n statements of a drop, before whatever follows it. */
  lemma PgDropRuns(s: Server, db: Name, rest: Script, n: nat)
    ensures RunFirst(s, PgDrop(db) + rest, n) ==
            if n == 0 then (s, true) else if n <= 2 then (Closed(s, db), true)
            else RunFirst(Closed(s, db) - {db}, rest, n - 3)
  {
    var drop := [DropIfExists(db)] + rest;
    assert PgDrop(db) + rest == [CloseConnections(db)] + ([EndSessions(db)] + drop);
    RunFirstCons(s, CloseConnections(db), [EndSessions(db)] + drop, n);
    if n > 0 { RunFirstCons(Closed(s, db), EndSessions(db), drop, n - 1); }
    if n > 1 { RunFirstCons(Closed(s, db), DropIfExists(db), rest, n - 2); }
  }

  lemma PgDropEffect(s: Server, db: Name, fault: Fault)
    ensures var s' := Exec(s, PgDrop(db), fault).0;
            s' - {db} == s - {db} && (db in s' ==> db in s && s'[db].rows == s[db].rows)
    ensures Exec(s, PgDrop(db), fault).1 == Done ==> db !in Exec(s, PgDrop(db), fault).0
  {
    assert PgDrop(db) + [] == PgDrop(db);
    PgDropRuns(s, db, [], 3);
    var n := match fault case NoFault => 3 case Refused(at) => at case Lost(after) => after;
    PgDropRuns(s, db, [], n);
    assert Closed(s, db) - {db} == s - {db};
  }

  lemma PgDropExactly(s: Server, db: Name, fault: Fault)
    ensures var (s', r) := Exec(s, PgDrop(db), fault);
            var n := Ran(fault, 3);
            && (r == Done <==> Passes(fault, 3))
            && s' == if n == 0 then s else if n < 3 then Closed(s, db) else s - {db}
  {
    assert PgDrop(db) + [] == PgDrop(db);
    var n := match fault case NoFault => 3 case Refused(at) => at case Lost(after) => after;
    PgDropRuns(s, db, [], n);
    assert Closed(s, db) - {db} == s - {db};
  }

  /** The last two statements of a swap. */
  lemma RenameRuns(s: Server, tmp: Name, name: Name, n: nat)
    ensures RunFirst(s, [EndSessions(tmp), Rename(tmp, name)], n) ==
            if n <= 1 then (s, true)
            else if Possible(s, Rename(tmp, name)) then (Effect(s, Rename(tmp, name)), true) else (s, false)
  {
    var st := [Rename(tmp, name)] + [];
    assert [EndSessions(tmp), Rename(tmp, name)] == [EndSessions(tmp)] + st;
    RunFirstCons(s, EndSessions(tmp), st, n);
    if n > 0 { RunFirstCons(s, Rename(tmp, name), [], n - 1); }
  }

  // ---- the whole restore ----------------------------------------------------------

  lemma CreateEffect(s: Server, tmp: Name, fault: Fault)
    requires tmp !in s
    ensures var (s', r) := Exec(s, Create(tmp), fault);
            if r == Done then s' == s[tmp := EMPTY] else s' - {tmp} == s
  {
    assert Create(tmp) == [CreateEmpty(tmp)] + [];
    var n := match fault case NoFault => 1 case Refused(at) => at case Lost(after) => after;
    RunFirstCons(s, CreateEmpty(tmp), [], n);
    RunFirstCons(s, CreateEmpty(tmp), [], 1);
    assert s[tmp := EMPTY] - {tmp} == s;
    assert s - {tmp} == s;
  }

  lemma OneStatement(s: Server, st: Statement, fault: Fault)
    requires Possible(s, st)
    ensures Exec(s, [st], fault).0 in {s, Effect(s, st)}
    ensures Exec(s, [st], fault).1 == Done <==> Passes(fault, 1)
    ensures Exec(s, [st], fault).0 == if Ran(fault, 1) == 1 then Effect(s, st) else s
    ensures Exec(s, [st], fault).1 == Done ==> Exec(s, [st], fault).0 == Effect(s, st)
  {
    var n := match fault case NoFault => 1 case Refused(at) => at case Lost(after) => after;
    assert [st] == [st] + [];
    RunFirstCons(s, st, [], n);
    RunFirstCons(s, st, [], 1);
  }

  /** The restore gets as far as the swap. */
  predicate ReachesSwap(f: Faults, present: bool) {
    Passes(f.create, 1) && f.importing == Whole && (present ==> Passes(f.properties, 1))
  }

  /** Until the swap only the temporary database changes; a restore that gets to
      the swap has the whole dump in it. */
  lemma BeforeSwap(s: Server, name: Name, tmp: Name, present: bool, dump: seq<Row>, f: Faults)
    requires tmp !in s && tmp != name && (present <==> name in s)
    ensures if ReachesSwap(f, present) then
              var s3 := s[tmp := Ready(s, name, dump)];
              var (s4, swapped) := Exec(s3, PgSwap(tmp, name, present), f.swap);
              Restore(s, name, tmp, present, dump, f) == if swapped == Done then (s4, Restored) else RecoverSwap(s4, name, tmp, f)
            else
              var (s', r) := Restore(s, name, tmp, present, dump, f);
              r == NotChanged && s' - {tmp} == s
  {
    CreateEffect(s, tmp, f.create);
    var (s1, created) := Exec(s, Create(tmp), f.create);
    OneStatement(s, CreateEmpty(tmp), f.create);
    if created == Done {
      var (s2, imported) := Import(s1, tmp, dump, f.importing);
      assert s2 - {tmp} == s && tmp in s2;
      assert imported ==> s2[tmp] == Database(dump, true, "") by {
        assert [] + dump[..|dump|] == dump;
      }
      OneStatement(s2, CopyProperties(name, tmp), f.properties);
      var s3 := if imported && present then Exec(s2, PgCopyProperties(name, tmp), f.properties).0 else s2;
      assert s3 - {tmp} == s;
      assert imported && present ==> Effect(s2, CopyProperties(name, tmp)) == s[tmp := Ready(s, name, dump)] by {
        assert name in s ==> s2[name] == (s2 - {tmp})[name];
      }
      assert imported ==> s2 == s[tmp := s2[tmp]];
      PgDropEffect(s3, tmp, f.cleanup);
    }
  }

  /** Under the live name there is exactly what was there, or exactly the dump, or
      nothing while the temporary database holds the dump; success means the dump is
      live and open, with the settings of the database it replaces; no other database
      is touched. */
  ghost predicate SafeEnd(s: Server, s': Server, r: Report, name: Name, tmp: Name, dump: seq<Row>) {
    && (r == Restored ==> Holds(s', name, dump) && s'[name].open && tmp !in s')
    && (SameRows(s, s', name) || Holds(s', name, dump) || (name !in s' && Holds(s', tmp, dump)))
    && (r == Stranded ==> Holds(s', tmp, dump) || Holds(s', name, dump))
    && (name in s && name in s' ==> s'[name].settings == s[name].settings)
    && s' - {name, tmp} == s - {name, tmp}
  }

  /** Whatever fails and when, a restore ends safely. */
  lemma RestoreSafe(s: Server, name: Name, tmp: Name, present: bool, dump: seq<Row>, f: Faults)
    requires tmp !in s && tmp != name && (present <==> name in s)
    ensures var (s', r) := Restore(s, name, tmp, present, dump, f);
            SafeEnd(s, s', r, name, tmp, dump)
  {
    BeforeSwap(s, name, tmp, present, dump, f);
    var s' := Restore(s, name, tmp, present, dump, f).0;
    if ReachesSwap(f, present) {
      var s3 := s[tmp := Ready(s, name, dump)];
      SwapExactly(s3, name, tmp, present, f.swap);
      var s4 := Exec(s3, PgSwap(tmp, name, present), f.swap).0;
      assert s3 - {name, tmp} == s - {name, tmp};
      assert s4 - {name, tmp} == s - {name, tmp};
      RecoverExactly(s4, name, tmp, f);
      RecoverFrame(s4, name, tmp, f);
    } else {
      assert forall n | n != tmp :: n in s' <==> n in s' - {tmp};
      assert s' - {name, tmp} == s' - {tmp} - {name};
      assert s - {name, tmp} == s - {name};
    }
  }

  lemma RecoverFrame(s4: Server, name: Name, tmp: Name, f: Faults)
    requires tmp != name && (name in s4 || tmp in s4)
    ensures RecoverSwap(s4, name, tmp, f).0 - {name, tmp} == s4 - {name, tmp}
  {
    var s' := RecoverSwap(s4, name, tmp, f).0;
    RecoverExactly(s4, name, tmp, f);
    assert s' - {name, tmp} == s' - {tmp} - {name};
    assert s4 - {name, tmp} == s4 - {tmp} - {name};
  }

  /** The failure report "the database was not changed" is true unless the swap
      ran to its end and only its answer was lost: then the dump is live. */
  lemma NotChangedExactly(s: Server, name: Name, tmp: Name, present: bool, dump: seq<Row>, f: Faults)
    requires tmp !in s && tmp != name && (present <==> name in s)
    requires Restore(s, name, tmp, present, dump, f).1 == NotChanged
    ensures var silent := ReachesSwap(f, present) && f.swap.Lost? && f.swap.after >= |PgSwap(tmp, name, present)|;
            var s' := Restore(s, name, tmp, present, dump, f).0;
            && (SameRows(s, s', name) <==> !silent || Holds(s, name, dump))
            && (silent ==> Holds(s', name, dump))
  {
    BeforeSwap(s, name, tmp, present, dump, f);
    var s' := Restore(s, name, tmp, present, dump, f).0;
    if ReachesSwap(f, present) {
      var s3 := s[tmp := Ready(s, name, dump)];
      SwapExactly(s3, name, tmp, present, f.swap);
      RecoverExactly(Exec(s3, PgSwap(tmp, name, present), f.swap).0, name, tmp, f);
    } else {
      assert forall n | n != tmp :: n in s' <==> n in s' - {tmp};
    }
  }

  // ---- when the last report is true, and who can connect --------------------------------

  /** Where a swap leaves the server, by how many of its statements ran: as it was but
      for the live database's connections, with the live database gone, or with the
      restored one in its place. */
  lemma SwapExactly(s: Server, name: Name, tmp: Name, present: bool, fault: Fault)
    requires tmp in s && tmp != name && (present <==> name in s)
    ensures var (s', r) := Exec(s, PgSwap(tmp, name, present), fault);
            var n := Ran(fault, |PgSwap(tmp, name, present)|);
            && (r == Done <==> Passes(fault, |PgSwap(tmp, name, present)|))
            && s' == if n == |PgSwap(tmp, name, present)| then (s - {tmp})[name := s[tmp]]
                     else if !present || n == 0 then s
                     else if n <= 2 then Closed(s, name) else s - {name}
  {
    var tail := [EndSessions(tmp), Rename(tmp, name)];
    var script := PgSwap(tmp, name, present);
    assert script == if present then PgDrop(name) + tail else tail;
    var n := match fault case NoFault => |script| case Refused(at) => at case Lost(after) => after;
    if present {
      PgDropRuns(s, name, tail, n);
      assert Closed(s, name) - {name} == s - {name};
      RenameRuns(s - {name}, tmp, name, if n < 3 then 0 else n - 3);
      assert (s - {name} - {tmp})[name := s[tmp]] == (s - {tmp})[name := s[tmp]];
    } else {
      assert [] + tail == tail;
      RenameRuns(s, tmp, name, n);
    }
  }

  /** After a failed swap: a live database that is seen stays, opened again if that
      command runs, and the temporary one goes unless its drop breaks off; one that cannot be seen is left as it is and reported dropped; a
      missing one is replaced by the restored one unless the rename fails. */
  ghost predicate Recovered(s: Server, s': Server, r: Report, name: Name, tmp: Name, f: Faults)
    requires name in s || tmp in s
  {
    if name in s && f.check == Answered then
      && r == NotChanged
      && name in s' && s'[name] == (if Ran(f.reopen, 1) == 1 then s[name].(open := true) else s[name])
      && s' - {tmp} == (s - {tmp})[name := if Ran(f.reopen, 1) == 1 then s[name].(open := true) else s[name]]
      && (tmp in s' <==> tmp in s && Ran(f.dropTemp, 3) < 3)
    else if name in s || Ran(f.rename, 2) < 2 then r == Stranded && s' == s
    else s' == (s - {tmp})[name := s[tmp]] && r == if f.rename.Lost? then Stranded else Restored
  }

  lemma RecoverExactly(s4: Server, name: Name, tmp: Name, f: Faults)
    requires tmp != name && (name in s4 || tmp in s4)
    ensures var (s', r) := RecoverSwap(s4, name, tmp, f);
            Recovered(s4, s', r, name, tmp, f)
  {
    if f.check == Answered && name in s4 {
      OneStatement(s4, OpenConnections(name), f.reopen);
      var s5 := Exec(s4, PgAllow(name), f.reopen).0;
      PgDropExactly(s5, tmp, f.dropTemp);
      assert Closed(s5, tmp) - {tmp} == s5 - {tmp};
      assert s4[name := s4[name]] == s4;
    } else {
      var tail := [EndSessions(tmp), Rename(tmp, name)];
      assert [] + tail == tail;
      var n := match f.rename case NoFault => 2 case Refused(at) => at case Lost(after) => after;
      RenameRuns(s4, tmp, name, n);
    }
  }

  /** The swap failed after the live database was dropped, or there was none, and
      before the restored one was renamed. */
  predicate LiveMissing(present: bool, swap: Fault) {
    if present then 3 <= Ran(swap, 5) < 5 else Ran(swap, 2) < 2
  }

  /** The failure report "was dropped but the restored copy is still named" tmp is
      true if and only if the live database was missing after the swap and the
      retried rename did not run to its end. Otherwise there is a live database: the
      old one, where its existence could not be checked, or the dump. */
  lemma StrandedExactly(s: Server, name: Name, tmp: Name, present: bool, dump: seq<Row>, f: Faults)
    requires tmp !in s && tmp != name && (present <==> name in s)
    requires Restore(s, name, tmp, present, dump, f).1 == Stranded
    ensures var s' := Restore(s, name, tmp, present, dump, f).0;
            && (name !in s' && Holds(s', tmp, dump) <==> LiveMissing(present, f.swap) && Ran(f.rename, 2) < 2)
            && (name in s' ==> SameRows(s, s', name) || Holds(s', name, dump))
            && (name in s' && SameRows(s, s', name) && !Holds(s, name, dump) ==> f.check == NoAnswer)
  {
    BeforeSwap(s, name, tmp, present, dump, f);
    var s3 := s[tmp := Ready(s, name, dump)];
    SwapExactly(s3, name, tmp, present, f.swap);
    RecoverExactly(Exec(s3, PgSwap(tmp, name, present), f.swap).0, name, tmp, f);
  }

  /** What a restore reports, by where its commands fail. */
  lemma ReportExactly(s: Server, name: Name, tmp: Name, present: bool, dump: seq<Row>, f: Faults)
    requires tmp !in s && tmp != name && (present <==> name in s)
    ensures var r := Restore(s, name, tmp, present, dump, f).1;
            var swapped := Passes(f.swap, if present then 5 else 2);
            var missing := LiveMissing(present, f.swap);
            && (r == Restored <==> ReachesSwap(f, present) && (swapped || (missing && Passes(f.rename, 2))))
            && (r == NotChanged <==> !ReachesSwap(f, present) || (!swapped && !missing && f.check == Answered))
  {
    BeforeSwap(s, name, tmp, present, dump, f);
    if ReachesSwap(f, present) {
      var s3 := s[tmp := Ready(s, name, dump)];
      SwapExactly(s3, name, tmp, present, f.swap);
      RecoverExactly(Exec(s3, PgSwap(tmp, name, present), f.swap).0, name, tmp, f);
    }
  }

  /** On success the whole server is as before but for the restored database. */
  lemma RestoredExactly(s: Server, name: Name, tmp: Name, present: bool, dump: seq<Row>, f: Faults)
    requires tmp !in s && tmp != name && (present <==> name in s)
    requires Restore(s, name, tmp, present, dump, f).1 == Restored
    ensures Restore(s, name, tmp, present, dump, f).0 == s[name := Ready(s, name, dump)]
  {
    BeforeSwap(s, name, tmp, present, dump, f);
    var s3 := s[tmp := Ready(s, name, dump)];
    SwapExactly(s3, name, tmp, present, f.swap);
    RecoverExactly(Exec(s3, PgSwap(tmp, name, present), f.swap).0, name, tmp, f);
    assert s3 - {tmp} == s;
    assert s3 - {name} - {tmp} == s - {name};
  }

  /** The temporary database is left behind: it was created although the command
      reported failure, or the command that was to remove it broke off, or the restored
      copy never got the live name. */
  predicate TempLeft(present: bool, f: Faults) {
    if !Passes(f.create, 1) then Ran(f.create, 1) == 1
    else if !ReachesSwap(f, present) then Ran(f.cleanup, 3) < 3
    else if Ran(f.swap, if present then 5 else 2) == (if present then 5 else 2) then false
    else if LiveMissing(present, f.swap) then Ran(f.rename, 2) < 2
    else f.check == NoAnswer || Ran(f.dropTemp, 3) < 3
  }

  /** A restore that does not get to the swap leaves the server exactly as it was, and
      any restore leaves no temporary database, if and only if none is left behind. */
  lemma TempLeftExactly(s: Server, name: Name, tmp: Name, present: bool, dump: seq<Row>, f: Faults)
    requires tmp !in s && tmp != name && (present <==> name in s)
    ensures var s' := Restore(s, name, tmp, present, dump, f).0;
            && (tmp in s' <==> TempLeft(present, f))
            && (!ReachesSwap(f, present) ==> (s' == s <==> !TempLeft(present, f)))
  {
    BeforeSwap(s, name, tmp, present, dump, f);
    var s' := Restore(s, name, tmp, present, dump, f).0;
    if ReachesSwap(f, present) {
      var s3 := s[tmp := Ready(s, name, dump)];
      SwapExactly(s3, name, tmp, present, f.swap);
      RecoverExactly(Exec(s3, PgSwap(tmp, name, present), f.swap).0, name, tmp, f);
    } else {
      CleanedExactly(s, name, tmp, present, dump, f);
      assert tmp !in s' ==> s' == s' - {tmp};
    }
  }

  lemma CleanedExactly(s: Server, name: Name, tmp: Name, present: bool, dump: seq<Row>, f: Faults)
    requires tmp !in s && tmp != name && (present <==> name in s) && !ReachesSwap(f, present)
    ensures tmp in Restore(s, name, tmp, present, dump, f).0 <==> TempLeft(present, f)
  {
    OneStatement(s, CreateEmpty(tmp), f.create);
    var (s1, created) := Exec(s, Create(tmp), f.create);
    if created == Done {
      var (s2, imported) := Import(s1, tmp, dump, f.importing);
      OneStatement(s2, CopyProperties(name, tmp), f.properties);
      var s3 := if imported && present then Exec(s2, PgCopyProperties(name, tmp), f.properties).0 else s2;
      PgDropExactly(s3, tmp, f.cleanup);
    }
  }

  /** The swap stopped between closing the live database and dropping it. */
  predicate LeftClosed(present: bool, f: Faults) {
    && ReachesSwap(f, present) && present && 1 <= Ran(f.swap, 5) <= 2
    && !(f.check == Answered && Ran(f.reopen, 1) == 1)
  }

  /** A live database that took connections does so afterwards, whichever it is,
      unless the swap stopped after closing it and it was not reopened. */
  lemma OpenExactly(s: Server, name: Name, tmp: Name, present: bool, dump: seq<Row>, f: Faults)
    requires tmp !in s && tmp != name && (present <==> name in s) && (present ==> s[name].open)
    ensures var s' := Restore(s, name, tmp, present, dump, f).0;
            name in s' ==> (s'[name].open <==> !LeftClosed(present, f))
  {
    BeforeSwap(s, name, tmp, present, dump, f);
    if ReachesSwap(f, present) {
      var s3 := s[tmp := Ready(s, name, dump)];
      SwapExactly(s3, name, tmp, present, f.swap);
      RecoverExactly(Exec(s3, PgSwap(tmp, name, present), f.swap).0, name, tmp, f);
    } else {
      var s' := Restore(s, name, tmp, present, dump, f).0;
      assert name in s' <==> name in s' - {tmp};
    }
  }

  /** The check fails after a swap that was refused right after closing the live
      database: it is reported dropped, but is there, unchanged and closed. */
  lemma StrandedCanBeFalse()
    ensures exists s: Server, name: Name, tmp: Name, dump: seq<Row>, f: Faults ::
              && tmp !in s && tmp != name && name in s && s[name].open
              && Restore(s, name, tmp, true, dump, f).1 == Stranded
              && var s' := Restore(s, name, tmp, true, dump, f).0;
                 SameRows(s, s', name) && name in s' && !s'[name].open
  {
    var s: Server := map["app" := Database(["old"], true, "")];
    var f := Faults(NoFault, Whole, NoFault, NoFault, Refused(2), NoAnswer, NoFault, NoFault, NoFault);
    var dump := ["new"];
    BeforeSwap(s, "app", "tmp", true, dump, f);
    var s3 := s["tmp" := Ready(s, "app", dump)];
    SwapExactly(s3, "app", "tmp", true, f.swap);
    RecoverExactly(Closed(s3, "app"), "app", "tmp", f);
    assert Restore(s, "app", "tmp", true, dump, f) == (Closed(s3, "app"), Stranded);
  }

  /** Such a lost answer. */
  lemma LostAnswer(s: Server, name: Name, tmp: Name, dump: seq<Row>, f: Faults)
    requires tmp !in s && tmp != name && name in s
    requires ReachesSwap(f, true) && f.swap.Lost? && f.swap.after >= 5 && f.check == Answered
    ensures Restore(s, name, tmp, true, dump, f).1 == NotChanged
    ensures Holds(Restore(s, name, tmp, true, dump, f).0, name, dump)
  {
    BeforeSwap(s, name, tmp, true, dump, f);
    var s3 := s[tmp := Ready(s, name, dump)];
    SwapExactly(s3, name, tmp, true, f.swap);
    RecoverExactly(Exec(s3, PgSwap(tmp, name, true), f.swap).0, name, tmp, f);
  }

  /** The report says "not changed" with the dump live. */
  lemma NotChangedCanBeFalse()
    ensures exists s: Server, name: Name, tmp: Name, dump: seq<Row>, f: Faults ::
              && tmp !in s && tmp != name && name in s
              && Restore(s, name, tmp, true, dump, f).1 == NotChanged
              && !SameRows(s, Restore(s, name, tmp, true, dump, f).0, name)
  {
    var s: Server := map["app" := Database(["old"], true, "")];
    var f := Faults(NoFault, Whole, NoFault, NoFault, Lost(5), Answered, NoFault, NoFault, NoFault);
    var dump := ["new"];
    LostAnswer(s, "app", "tmp", dump, f);
    assert dump[0] != s["app"].rows[0];
  }
}
