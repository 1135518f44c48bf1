/** A database restore run: safety backup first, then the engine's own way of
    replacing the database, and for MySQL and MariaDB putting it back. */
module DatabaseRestore {
  import opened RunModel
  import opened DatabaseServer
  import PG = PostgresRestore

  /** How the three commands of a replacement go; `stopped` is whether the run was
      asked to stop before the first. */
  datatype ReplaceFaults = ReplaceFaults(stopped: bool, drop: Fault, create: Fault, importing: ImportFault)

  /** replace: drop, create empty, import. The result says whether the database
      may have been touched and whether the whole dump went in. */
  function Replace(s: Server, name: Name, dump: seq<Row>, f: ReplaceFaults): (Server, bool, bool) {
    if f.stopped then (s, false, false) else
    var (s1, dropped) := Exec(s, MysqlDrop(name), f.drop);
    if dropped != Done then (s1, dropped != ExitError, false) else
    var (s2, created) := Exec(s1, Create(name), f.create);
    if created != Done then (s2, true, false) else
    var (s3, imported) := Import(s2, name, dump, f.importing);
    (s3, true, imported)
  }

  /** A reported safety snapshot holds everything the database held. */
  datatype SafetyFault = Saved(id: SnapshotId) | NotSaved

  datatype Engine = Postgres | MySQL | MariaDB

  /** What a run is asked to do; tmp is the temporary name a PostgreSQL restore uses. */
  datatype Plan = Plan(engine: Engine, name: Name, tmp: Name, dump: seq<Row>, safety: bool)

  datatype Faults = Faults(meta: QueryFault, safety: SafetyFault, pg: PG.Faults, first: ReplaceFaults, back: ReplaceFaults)

  datatype World = World(dbs: Server, snaps: map<SnapshotId, seq<Row>>)

  /** How the run ends, by what its message says. */
  datatype Verdict =
    | NotStarted                                  // the settings could not be read
    | SafetyFailed                                // no safety backup; nothing changed
    | Succeeded
    | PgFailed(report: PG.Report, safety: Option<SnapshotId>)
    | NotChanged
    | MayBeIncomplete                             // no safety backup to put back
    | PutBack(id: SnapshotId)
    | BackFailed(id: SnapshotId)                  // the contents are in snapshot id
  {
    /** The safety snapshot the run's message names. */
    function Named(): Option<SnapshotId> {
      match this
      case PgFailed(_, s) => s
      case PutBack(id) => Some(id)
      case BackFailed(id) => Some(id)
      case _ => None
    }
  }

  function RestoreRun(w: World, p: Plan, f: Faults): (World, Verdict) {
    if f.meta == NoAnswer then (w, NotStarted) else
    var present := p.name in w.dbs;
    if p.safety && present && f.safety == NotSaved then (w, SafetyFailed) else
    var safety := if p.safety && present then Some(f.safety.id) else None;
    var snaps := if p.safety && present then w.snaps[f.safety.id := w.dbs[p.name].rows] else w.snaps;
    if p.engine == Postgres then
      var (s, r) := PG.Restore(w.dbs, p.name, p.tmp, present, p.dump, f.pg);
      (World(s, snaps), if r == PG.Restored then Succeeded else PgFailed(r, safety))
    else
      var (s, changed, ok) := Replace(w.dbs, p.name, p.dump, f.first);
      if ok then (World(s, snaps), Succeeded)
      else if !changed then (World(s, snaps), NotChanged)
      else if safety == None then (World(s, snaps), MayBeIncomplete)
      else
        var (s', _, back) := Replace(s, p.name, snaps[safety.value], f.back.(stopped := false));
        (World(s', snaps), if back then PutBack(safety.value) else BackFailed(safety.value))
  }

  // ---- MySQL and MariaDB --------------------------------------------------------

  ghost predicate Replaced(s: Server, s': Server, changed: bool, ok: bool, name: Name, dump: seq<Row>) {
    && (!changed ==> s' == s && !ok)
    && (ok ==> PG.Holds(s', name, dump))
    && s' - {name} == s - {name}
  }

  /** "Not touched" means exactly that; success means the whole dump; no other
      database changes. */
  lemma ReplaceEffect(s: Server, name: Name, dump: seq<Row>, f: ReplaceFaults)
    ensures var (s', changed, ok) := Replace(s, name, dump, f);
            Replaced(s, s', changed, ok, name, dump)
  {
    MysqlDropExactly(s, name, f.drop);
    var (s1, dropped) := Exec(s, MysqlDrop(name), f.drop);
    if !f.stopped && dropped == Done {
      assert s1 == s - {name};
      PG.CreateEffect(s1, name, f.create);
      var (s2, created) := Exec(s1, Create(name), f.create);
      if created == Done {
        assert s2[name].rows == [];
        assert [] + dump[..|dump|] == dump;
        assert Import(s2, name, dump, f.importing).0 - {name} == s2 - {name} == s1;
      }
    }
  }

  /** The three commands all go through. */
  predicate GoesThrough(f: ReplaceFaults) {
    !f.stopped && PG.Passes(f.drop, 2) && PG.Passes(f.create, 1) && f.importing == Whole
  }

  /** The database may have been touched exactly if the drop went through or nobody
      knows whether it did; success means all three commands went through, and then
      the server is as before but for this database. */
  lemma ReplaceExactly(s: Server, name: Name, dump: seq<Row>, f: ReplaceFaults)
    ensures var (s', changed, ok) := Replace(s, name, dump, f);
            && (changed <==> !f.stopped && (PG.Passes(f.drop, 2) || f.drop.Lost?))
            && (ok <==> GoesThrough(f))
            && (ok ==> s' == s[name := Database(dump, true, "")])
  {
    MysqlDropExactly(s, name, f.drop);
    var (s1, dropped) := Exec(s, MysqlDrop(name), f.drop);
    if !f.stopped && dropped == Done {
      PG.OneStatement(s1, CreateEmpty(name), f.create);
      assert [] + dump[..|dump|] == dump;
      assert (s - {name})[name := Database(dump, true, "")] == s[name := Database(dump, true, "")];
    }
  }

  lemma MysqlDropExactly(s: Server, name: Name, fault: Fault)
    ensures var (s', r) := Exec(s, MysqlDrop(name), fault);
            (r == Done <==> PG.Passes(fault, 2)) && s' == if PG.Ran(fault, 2) == 2 then s - {name} else s
  {
    var n := match fault case NoFault => 2 case Refused(at) => at case Lost(after) => after;
    assert MysqlDrop(name) == [EndSessions(name)] + ([DropIfExists(name)] + []);
    RunFirstCons(s, EndSessions(name), [DropIfExists(name)] + [], n);
    if n > 0 { RunFirstCons(s, DropIfExists(name), [], n - 1); }
  }

  // ---- every engine -----------------------------------------------------------------

  /** What the caller may rely on: a temporary name and a snapshot id that are new. */
  predicate Fresh(w: World, p: Plan, f: Faults) {
    && p.tmp !in w.dbs && p.tmp != p.name
    && (f.safety.Saved? ==> f.safety.id !in w.snaps)
  }

  /** What each way of ending means for the database, the other databases and the
      snapshots. */
  ghost predicate Means(w: World, p: Plan, w': World, v: Verdict) {
    && (v == Succeeded ==> PG.Holds(w'.dbs, p.name, p.dump))
    && (v in {NotStarted, SafetyFailed, NotChanged} ==> w'.dbs == w.dbs)
    && (v.PutBack? ==> PG.SameRows(w.dbs, w'.dbs, p.name))
    && (v == MayBeIncomplete ==> !p.safety || p.name !in w.dbs)
    && (v.PgFailed? ==> PG.SafeEnd(w.dbs, w'.dbs, v.report, p.name, p.tmp, p.dump) && v.report != PG.Restored)
    && (v.Named().Some? ==> HoldsOld(w, p, w', v.Named().value))
    && w'.dbs - {p.name, p.tmp} == w.dbs - {p.name, p.tmp}
  }

  /** The snapshot holds what the database held before the run. */
  ghost predicate HoldsOld(w: World, p: Plan, w': World, id: SnapshotId) {
    p.safety && p.name in w.dbs && id in w'.snaps && w'.snaps[id] == w.dbs[p.name].rows
  }

  lemma VerdictMeans(w: World, p: Plan, f: Faults)
    requires Fresh(w, p, f)
    ensures var (w', v) := RestoreRun(w, p, f);
            Means(w, p, w', v)
  {
    var present := p.name in w.dbs;
    var both := {p.name, p.tmp};
    if f.meta == Answered && !(p.safety && present && f.safety == NotSaved) {
      if p.engine == Postgres {
        PG.RestoreSafe(w.dbs, p.name, p.tmp, present, p.dump, f.pg);
      } else {
        ReplaceEffect(w.dbs, p.name, p.dump, f.first);
        var (s, changed, ok) := Replace(w.dbs, p.name, p.dump, f.first);
        assert s - both == (s - {p.name}) - both == w.dbs - both;
        if !ok && changed && p.safety && present {
          var rows := w.dbs[p.name].rows;
          ReplaceEffect(s, p.name, rows, f.back.(stopped := false));
          var s' := Replace(s, p.name, rows, f.back.(stopped := false)).0;
          assert s' - both == (s' - {p.name}) - both == s - both;
        }
      }
    }
  }

  /** The database holds what it held, or the dump, or the run names a snapshot
      holding what it held; no snapshot is lost on the way. */
  ghost predicate NotLost(w: World, p: Plan, w': World, v: Verdict) {
    && (|| PG.SameRows(w.dbs, w'.dbs, p.name)
        || PG.Holds(w'.dbs, p.name, p.dump)
        || (v.Named().Some? && HoldsOld(w, p, w', v.Named().value)))
    && (forall id | id in w.snaps :: id in w'.snaps && w'.snaps[id] == w.snaps[id])
  }

  /** With a safety backup of a database that exists, no schedule of failures
      loses it. */
  lemma NothingLost(w: World, p: Plan, f: Faults)
    requires Fresh(w, p, f) && p.safety && p.name in w.dbs
    ensures var (w', v) := RestoreRun(w, p, f);
            NotLost(w, p, w', v)
  {
    VerdictMeans(w, p, f);
  }

  // ---- how a run ends ---------------------------------------------------------------

  /** There is a database to save. */
  predicate Saves(w: World, p: Plan) {
    p.safety && p.name in w.dbs
  }

  /** The run gets as far as replacing the database. */
  predicate Begins(w: World, p: Plan, f: Faults) {
    f.meta == Answered && (Saves(w, p) ==> f.safety.Saved?)
  }

  /** A run that does not get that far says so and leaves everything as it was. */
  lemma NotBegunExactly(w: World, p: Plan, f: Faults)
    ensures var (w', v) := RestoreRun(w, p, f);
            && (v == NotStarted <==> f.meta == NoAnswer)
            && (v == SafetyFailed <==> f.meta == Answered && Saves(w, p) && f.safety == NotSaved)
            && (v in {NotStarted, SafetyFailed} ==> w' == w)
  {
  }

  /** What a MySQL or MariaDB run ends in, by where its commands fail. Once the
      database may have been touched and a safety snapshot is there, the run puts it
      back, and that works if and only if its three commands go through. */
  lemma PutBackExactly(w: World, p: Plan, f: Faults)
    requires Fresh(w, p, f) && p.engine != Postgres && Begins(w, p, f)
    ensures var (w', v) := RestoreRun(w, p, f);
            && (v == Succeeded <==> GoesThrough(f.first))
            && (v == NotChanged <==> f.first.stopped || (f.first.drop.Refused? && f.first.drop.at < 2))
            && (v !in {Succeeded, NotChanged} ==>
                  v == if !Saves(w, p) then MayBeIncomplete
                       else if GoesThrough(f.back.(stopped := false)) then PutBack(f.safety.id)
                       else BackFailed(f.safety.id))
            && (v.PutBack? ==> w'.dbs == w.dbs[p.name := Database(w.dbs[p.name].rows, true, "")])
  {
    ReplaceExactly(w.dbs, p.name, p.dump, f.first);
    ReplaceEffect(w.dbs, p.name, p.dump, f.first);
    var (s, changed, ok) := Replace(w.dbs, p.name, p.dump, f.first);
    if !ok && changed && Saves(w, p) {
      var rows := w.dbs[p.name].rows;
      ReplaceExactly(s, p.name, rows, f.back.(stopped := false));
      var back := Database(rows, true, "");
      assert s[p.name := back] == (s - {p.name})[p.name := back];
      assert w.dbs[p.name := back] == (w.dbs - {p.name})[p.name := back];
    }
  }

  /** And a PostgreSQL run. */
  lemma PgVerdictExactly(w: World, p: Plan, f: Faults)
    requires Fresh(w, p, f) && p.engine == Postgres && Begins(w, p, f)
    ensures var v := RestoreRun(w, p, f).1;
            var present := p.name in w.dbs;
            && (v == Succeeded <==>
                  && PG.ReachesSwap(f.pg, present)
                  && (|| PG.Passes(f.pg.swap, if present then 5 else 2)
                      || (PG.LiveMissing(present, f.pg.swap) && PG.Passes(f.pg.rename, 2))))
            && (v != Succeeded ==> v.PgFailed? && v.safety == if Saves(w, p) then Some(f.safety.id) else None)
  {
    PG.ReportExactly(w.dbs, p.name, p.tmp, p.name in w.dbs, p.dump, f.pg);
  }

  /** Nothing fails and nobody stops the run. */
  predicate Faultless(f: Faults) {
    && f.meta == Answered && f.safety.Saved?
    && f.pg.(cleanup := NoFault, check := Answered, reopen := NoFault, dropTemp := NoFault, rename := NoFault)
       == PG.Faults(NoFault, Whole, NoFault, NoFault, NoFault, Answered, NoFault, NoFault, NoFault)
    && f.first == ReplaceFaults(false, NoFault, NoFault, Whole)
  }

  /** Then every engine ends in success, with the dump live, the safety snapshot
      taken if it was asked for, and everything else as it was. */
  lemma FaultlessSucceeds(w: World, p: Plan, f: Faults)
    requires Fresh(w, p, f) && Faultless(f)
    ensures var (w', v) := RestoreRun(w, p, f);
            && v == Succeeded
            && w'.dbs == w.dbs[p.name := if p.engine == Postgres then PG.Ready(w.dbs, p.name, p.dump) else Database(p.dump, true, "")]
            && w'.snaps == if Saves(w, p) then w.snaps[f.safety.id := w.dbs[p.name].rows] else w.snaps
  {
    if p.engine == Postgres {
      PgVerdictExactly(w, p, f);
      PG.RestoredExactly(w.dbs, p.name, p.tmp, p.name in w.dbs, p.dump, f.pg);
    } else {
      PutBackExactly(w, p, f);
      ReplaceExactly(w.dbs, p.name, p.dump, f.first);
    }
  }

  // ---- exactly when nothing can be lost -----------------------------------------------

  /** A schedule of failures that loses the old contents of an unsaved database: a
      PostgreSQL swap that breaks off between drop and rename and whose retry is
      refused, a MySQL database dropped and not created again. */
  function WorstFaults(): Faults {
    var pg := PG.Faults(NoFault, Whole, NoFault, NoFault, Lost(3), Answered, NoFault, NoFault, Refused(0));
    var replace := ReplaceFaults(false, NoFault, Lost(0), Whole);
    Faults(Answered, NotSaved, pg, replace, replace)
  }

  /** Then the live database is gone, its snapshot was never taken, and only a
      PostgreSQL restore still holds the dump. */
  lemma WorstCase(w: World, p: Plan)
    requires p.name in w.dbs && p.tmp !in w.dbs && p.tmp != p.name && !p.safety
    ensures Fresh(w, p, WorstFaults())
    ensures var (w', v) := RestoreRun(w, p, WorstFaults());
            && p.name !in w'.dbs && v.Named() == None && w'.snaps == w.snaps
            && (p.tmp in w'.dbs <==> p.engine == Postgres)
  {
    var f := WorstFaults();
    if p.engine == Postgres {
      PG.BeforeSwap(w.dbs, p.name, p.tmp, true, p.dump, f.pg);
      var s3 := w.dbs[p.tmp := PG.Ready(w.dbs, p.name, p.dump)];
      PG.SwapExactly(s3, p.name, p.tmp, true, f.pg.swap);
      PG.RecoverExactly(s3 - {p.name}, p.name, p.tmp, f.pg);
    } else {
      MysqlDropExactly(w.dbs, p.name, NoFault);
      PG.OneStatement(w.dbs - {p.name}, CreateEmpty(p.name), Lost(0));
      assert Replace(w.dbs, p.name, p.dump, f.first) == (w.dbs - {p.name}, true, false);
    }
  }

  /** No schedule of failures loses an existing database, neither what it held nor
      the dump, if and only if a safety backup is asked for. */
  lemma NothingLostExactly(w: World, p: Plan)
    requires p.name in w.dbs && p.tmp !in w.dbs && p.tmp != p.name
    ensures (forall f | Fresh(w, p, f) :: NotLost(w, p, RestoreRun(w, p, f).0, RestoreRun(w, p, f).1)) <==> p.safety
  {
    if p.safety {
      forall f | Fresh(w, p, f) ensures NotLost(w, p, RestoreRun(w, p, f).0, RestoreRun(w, p, f).1) {
        NothingLost(w, p, f);
      }
    } else {
      WorstCase(w, p);
      assert Fresh(w, p, WorstFaults());
    }
  }

  /** One whole copy is left somewhere: the old contents or the dump under the live
      name, the dump under the temporary one, or the old contents in a snapshot that
      the run names. */
  ghost predicate CopyLeft(w: World, p: Plan, w': World, v: Verdict) {
    || PG.SameRows(w.dbs, w'.dbs, p.name)
    || PG.Holds(w'.dbs, p.name, p.dump)
    || PG.Holds(w'.dbs, p.tmp, p.dump)
    || (v.Named().Some? && HoldsOld(w, p, w', v.Named().value))
  }

  /** No schedule of failures loses both copies, if and only if a safety backup is
      asked for or the engine is PostgreSQL. */
  lemma CopyLeftExactly(w: World, p: Plan)
    requires p.name in w.dbs && p.tmp !in w.dbs && p.tmp != p.name
    ensures (forall f | Fresh(w, p, f) :: CopyLeft(w, p, RestoreRun(w, p, f).0, RestoreRun(w, p, f).1))
            <==> p.safety || p.engine == Postgres
  {
    if p.safety || p.engine == Postgres {
      forall f | Fresh(w, p, f) ensures CopyLeft(w, p, RestoreRun(w, p, f).0, RestoreRun(w, p, f).1) {
        VerdictMeans(w, p, f);
        if p.safety { NothingLost(w, p, f); }
      }
    } else {
      WorstCase(w, p);
      assert Fresh(w, p, WorstFaults());
    }
  }

  /** Such a loss: a MySQL database that is dropped and whose contents nobody has. */
  lemma UnsafeCanLose()
    ensures exists w: World, p: Plan, f: Faults ::
              && Fresh(w, p, f) && !p.safety && p.name in w.dbs
              && var w' := RestoreRun(w, p, f).0;
                 !PG.SameRows(w.dbs, w'.dbs, p.name) && !PG.Holds(w'.dbs, p.name, p.dump) && w'.snaps == map[]
  {
    var w := World(map["shop" := Database(["old"], true, "")], map[]);
    WorstCase(w, Plan(MySQL, "shop", "tmp", ["new"], false));
  }

  // ---- carried out step by step ---------------------------------------------------------

  class Host {
    var dbs: Server
    var snaps: map<SnapshotId, seq<Row>>

    constructor (dbs: Server, snaps: map<SnapshotId, seq<Row>>)
      ensures this.dbs == dbs && this.snaps == snaps
    {
      this.dbs, this.snaps := dbs, snaps;
    }

    method Command(script: Script, fault: Fault) returns (reply: Reply)
      modifies `dbs
      ensures (dbs, reply) == Exec(old(dbs), script, fault)
    {
      var (s, r) := Exec(dbs, script, fault);
      dbs, reply := s, r;
    }

    method ImportInto(into: Name, dump: seq<Row>, fault: ImportFault) returns (ok: bool)
      modifies `dbs
      ensures (dbs, ok) == Import(old(dbs), into, dump, fault)
    {
      var (s, r) := Import(dbs, into, dump, fault);
      dbs, ok := s, r;
    }

    method ReplaceDatabase(name: Name, dump: seq<Row>, f: ReplaceFaults) returns (changed: bool, ok: bool)
      modifies `dbs
      ensures Replaced(old(dbs), dbs, changed, ok, name, dump)
      ensures (dbs, changed, ok) == Replace(old(dbs), name, dump, f)
    {
      ReplaceEffect(dbs, name, dump, f);
      if f.stopped {
        return false, false;
      }
      var reply := Command(MysqlDrop(name), f.drop);
      if reply != Done {
        // A command that ran and exited did not get as far as the drop.
        return reply != ExitError, false;
      }
      reply := Command(Create(name), f.create);
      if reply != Done {
        return true, false;
      }
      ok := ImportInto(name, dump, f.importing);
      changed := true;
    }

    method RestorePostgres(name: Name, tmp: Name, present: bool, dump: seq<Row>, f: PG.Faults) returns (r: PG.Report)
      modifies `dbs
      ensures tmp !in old(dbs) && tmp != name && (present <==> name in old(dbs)) ==>
                PG.SafeEnd(old(dbs), dbs, r, name, tmp, dump)
      ensures (dbs, r) == PG.Restore(old(dbs), name, tmp, present, dump, f)
    {
      if tmp !in dbs && tmp != name && (present <==> name in dbs) {
        PG.RestoreSafe(dbs, name, tmp, present, dump, f);
      }
      var reply := Command(Create(tmp), f.create);
      if reply != Done {
        return PG.NotChanged;
      }
      var ok := ImportInto(tmp, dump, f.importing);
      if ok && present {
        reply := Command(PgCopyProperties(name, tmp), f.properties);
        ok := reply == Done;
      }
      if !ok {
        var _ := Command(PgDrop(tmp), f.cleanup);
        return PG.NotChanged;
      }
      reply := Command(PgSwap(tmp, name, present), f.swap);
      if reply == Done {
        return PG.Restored;
      }
      r := RecoverSwap(name, tmp, f);
    }

    method RecoverSwap(name: Name, tmp: Name, f: PG.Faults) returns (r: PG.Report)
      modifies `dbs
      ensures tmp != name && (name in old(dbs) || tmp in old(dbs)) ==> PG.Recovered(old(dbs), dbs, r, name, tmp, f)
      ensures (dbs, r) == PG.RecoverSwap(old(dbs), name, tmp, f)
    {
      if tmp != name && (name in dbs || tmp in dbs) { PG.RecoverExactly(dbs, name, tmp, f); }
      if f.check == Answered && name in dbs {
        var _ := Command(PgAllow(name), f.reopen);
        var _ := Command(PgDrop(tmp), f.dropTemp);
        return PG.NotChanged;
      }
      var reply := Command(PgSwap(tmp, name, false), f.rename);
      return if reply == Done then PG.Restored else PG.Stranded;
    }

    method RestoreDatabase(p: Plan, f: Faults) returns (v: Verdict)
      modifies this
      ensures Fresh(old(World(dbs, snaps)), p, f) ==> Means(old(World(dbs, snaps)), p, World(dbs, snaps), v)
      ensures Fresh(old(World(dbs, snaps)), p, f) && p.safety && p.name in old(dbs) ==>
                NotLost(old(World(dbs, snaps)), p, World(dbs, snaps), v)
      ensures (World(dbs, snaps), v) == RestoreRun(old(World(dbs, snaps)), p, f)
    {
      ghost var w := World(dbs, snaps);
      if Fresh(w, p, f) {
        VerdictMeans(w, p, f);
        if p.safety && p.name in dbs { NothingLost(w, p, f); }
      }
      v := RunRestore(p, f);
    }

    /** The steps of a restore run. */
    method RunRestore(p: Plan, f: Faults) returns (v: Verdict)
      modifies this
      ensures (World(dbs, snaps), v) == RestoreRun(old(World(dbs, snaps)), p, f)
    {
      if f.meta == NoAnswer {
        return NotStarted;
      }
      var present := p.name in dbs;
      var safety: Option<SnapshotId> := None;
      if p.safety && present {
        if f.safety == NotSaved {
          return SafetyFailed;
        }
        snaps := snaps[f.safety.id := dbs[p.name].rows];
        safety := Some(f.safety.id);
      }
      if p.engine == Postgres {
        var r := RestorePostgres(p.name, p.tmp, present, p.dump, f.pg);
        return if r == PG.Restored then Succeeded else PgFailed(r, safety);
      }
      var changed, ok := ReplaceDatabase(p.name, p.dump, f.first);
      if ok {
        return Succeeded;
      }
      if !changed {
        return NotChanged;
      }
      if safety == None {
        return MayBeIncomplete;
      }
      // A stop does not reach this second replacement.
      changed, ok := ReplaceDatabase(p.name, snaps[safety.value], f.back.(stopped := false));
      return if ok then PutBack(safety.value) else BackFailed(safety.value);
    }
  }
}
